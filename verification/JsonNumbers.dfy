/** What a JSON number is worth (section 6 of RFC 8259): every spelling with a sign, a fraction and an exponent. */
module JsonNumbers {
  import opened JsonValue
  import opened JsonText
  import opened JsonRoundTrip

  predicate AllDigits(s: string) { forall k | 0 <= k < |s| :: IsDigit(s[k]) }

  /** A number as written: `point` and `raised` say which parts there are. */
  datatype Written = Written(negative: bool, whole: string, point: bool, fraction: string, raised: bool, mark: char,
                             sign: string, exponent: string)

  predicate Proper(w: Written) {
    && w.whole != "" && AllDigits(w.whole)
    && AllDigits(w.fraction) && (w.point <==> w.fraction != "")
    && AllDigits(w.exponent) && (w.raised <==> w.exponent != "") && (w.sign == "" || w.sign == "+" || w.sign == "-")
    && (w.mark == 'e' || w.mark == 'E')
  }

  function Tail(w: Written): string { if w.raised then [w.mark] + (w.sign + w.exponent) else "" }

  function Middle(w: Written): string { if w.point then "." + w.fraction else "" }

  function Minus(w: Written): string { if w.negative then "-" else "" }

  function Spell(w: Written): string { Minus(w) + (w.whole + (Middle(w) + Tail(w))) }

  /** The digits as one integer, moved by the exponent and the places of the fraction. */
  function Worth(w: Written): real
    requires Proper(w)
  {
    var all: string := w.whole + w.fraction;
    assert AllDigits(all);
    var m := NatOf(all) as real / Pow10(|w.fraction|) as real;
    var scale := Pow10(NatOf(w.exponent)) as real;
    var value := if w.raised && w.sign == "-" then m / scale else m * scale;
    if w.negative then -value else value
  }

  // ---- digits ------------------------------------------------------------------------------------

  lemma {:induction false} NatOfJoin(a: string, b: string)
    requires AllDigits(a) && AllDigits(b)
    ensures AllDigits(a + b) && NatOf(a + b) == NatOf(a) * Pow10(|b|) + NatOf(b)
    decreases |b|
  {
    if b == "" {
      assert a + b == a;
    } else {
      var c, last := b[..|b| - 1], b[|b| - 1];
      NatOfJoin(a, c);
      assert (a + b)[..|a + b| - 1] == a + c && (a + b)[|a + b| - 1] == last;
      LastDigit(a + b);
      LastDigit(b);
      assert Pow10(|b|) == 10 * Pow10(|c|);
      hide NatOf, Pow10;
      Spread(NatOf(a), Pow10(|c|), NatOf(c));
    }
  }

  lemma LastDigit(s: string)
    requires s != "" && AllDigits(s)
    ensures AllDigits(s[..|s| - 1]) && NatOf(s) == NatOf(s[..|s| - 1]) * 10 + (s[|s| - 1] as int - '0' as int)
  {}

  lemma Spread(x: nat, y: nat, z: nat)
    ensures (x * y + z) * 10 == x * (10 * y) + z * 10
  {}

  lemma DigitsSame(s: string)
    requires AllDigits(s)
    ensures DigitsOf(s) == s
  {}

  lemma SkipMark(c: char, s: string)
    requires !IsDigit(c)
    ensures DigitsOf([c] + s) == DigitsOf(s)
  {
    assert ([c] + s)[1..] == s;
  }

  lemma PartDigits(w: Written)
    requires Proper(w)
    ensures DigitsOf(Middle(w)) == w.fraction && DigitsOf(Tail(w)) == w.exponent && DigitsOf(w.whole) == w.whole
  {
    DigitsSame(w.whole);
    DigitsSame(w.fraction);
    DigitsSame(w.exponent);
    SkipMark('.', w.fraction);
    hide DigitsOf, AllDigits;
    SkipMark(w.mark, w.sign + w.exponent);
    if w.sign == "" {
      assert w.sign + w.exponent == w.exponent;
    } else {
      assert w.sign == [w.sign[0]];
      SkipMark(w.sign[0], w.exponent);
    }
  }

  // ---- places ------------------------------------------------------------------------------------

  /** Where the parts of a written number are, and that the parser finds them there. */
  lemma Lexed(text: string, i: nat, w: Written)
    requires Proper(w) && At(text, i, Spell(w)) && EndsNumber(text, i + |Spell(w)|)
    ensures var a := i + |Minus(w)|;
      var b := a + |w.whole|;
      var c := b + |Middle(w)|;
      var d := c + |Tail(w)|;
      && d == i + |Spell(w)| && At(text, a, w.whole) && At(text, b, Middle(w)) && At(text, c, Tail(w)) && i <= |text|
      && LexNum(text, i) == Some(NumShape(w.negative, a, b, c, w.point || w.raised, d))
  {
    var a := i + |Minus(w)|;
    var b := a + |w.whole|;
    var c := b + |Middle(w)|;
    hide At, Middle, Tail, LexFraction, LexExponent, HasExponent, SkipDigits, EndsNumber;
    AtConcat(text, i, Minus(w), w.whole + (Middle(w) + Tail(w)));
    AtConcat(text, a, w.whole, Middle(w) + Tail(w));
    AtConcat(text, b, Middle(w), Tail(w));
    MinusAt(text, i, w);
    FractionEnd(text, b, w);
    ExponentEnd(text, c, w);
    SkipAllDigits(text, a, w.whole);
  }

  lemma MinusAt(text: string, i: nat, w: Written)
    requires Proper(w) && At(text, i, Minus(w)) && At(text, i + |Minus(w)|, w.whole)
    ensures CharAt(text, i, '-') <==> w.negative
  {
    if w.negative { AtChar(text, i, Minus(w)); } else { AtChar(text, i, w.whole); }
  }

  lemma FractionEnd(text: string, b: nat, w: Written)
    requires Proper(w) && At(text, b, Middle(w)) && At(text, b + |Middle(w)|, Tail(w)) && EndsNumber(text, b + |Middle(w)| + |Tail(w)|)
    ensures LexFraction(text, b) == Some(b + |Middle(w)|) && (CharAt(text, b, '.') <==> w.point)
    ensures b < |text| ==> !IsDigit(text[b])
  {
    hide At, Tail, AllDigits, LexFraction, SkipDigits, HasExponent;
    TailHead(text, b + |Middle(w)|, w);
    if w.point {
      AtConcat(text, b, ".", w.fraction);
      AtChar(text, b, ".");
      FractionDigits(text, b + 1, w);
      FractionIs(text, b, b + 1 + |w.fraction|);
    } else {
      NoFraction(text, b);
    }
  }

  lemma FractionIs(text: string, b: nat, z: nat)
    requires CharAt(text, b, '.') && SkipDigits(text, b + 1) == z > b + 1
    ensures LexFraction(text, b) == Some(z)
  {}

  lemma NoFraction(text: string, b: nat)
    requires b <= |text| && !CharAt(text, b, '.')
    ensures LexFraction(text, b) == Some(b)
  {}

  lemma FractionDigits(text: string, f: nat, w: Written)
    requires Proper(w) && w.point && At(text, f, w.fraction) && (f + |w.fraction| < |text| ==> !IsDigit(text[f + |w.fraction|]))
    ensures f <= |text| && SkipDigits(text, f) == f + |w.fraction| > f
  {
    SkipAllDigits(text, f, w.fraction);
  }

  lemma TailHead(text: string, c: nat, w: Written)
    requires Proper(w) && At(text, c, Tail(w)) && EndsNumber(text, c + |Tail(w)|)
    ensures c <= |text| && (c < |text| ==> !IsDigit(text[c]) && text[c] != '.') && (HasExponent(text, c) <==> w.raised)
  {
    if w.raised {
      AtChar(text, c, Tail(w));
      hide At;
    }
  }

  lemma ExponentEnd(text: string, c: nat, w: Written)
    requires Proper(w) && At(text, c, Tail(w)) && EndsNumber(text, c + |Tail(w)|)
    ensures LexExponent(text, c) == Some(c + |Tail(w)|) && (HasExponent(text, c) <==> w.raised)
    ensures w.raised ==> (CharAt(text, c + 1, '-') <==> w.sign == "-")
  {
    hide At, LexExponent, SkipDigits, AllDigits, HasExponent, Proper, EndsNumber;
    TailHead(text, c, w);
    if w.raised {
      TailParts(text, c, w);
      hide Tail;
      SignAt(text, c + 1, w);
      ExponentDigits(text, c + 1 + |w.sign|, w);
      ExponentIs(text, c, c + 1 + |w.sign|, c + |Tail(w)|);
    } else {
      NoExponent(text, c);
    }
  }

  lemma NoExponent(text: string, c: nat)
    requires c <= |text| && !HasExponent(text, c)
    ensures LexExponent(text, c) == Some(c)
  {}

  lemma TailParts(text: string, c: nat, w: Written)
    requires w.raised && At(text, c, Tail(w))
    ensures |Tail(w)| == 1 + |w.sign| + |w.exponent|
    ensures At(text, c + 1, w.sign) && At(text, c + 1 + |w.sign|, w.exponent)
  {
    hide At;
    AtConcat(text, c, [w.mark], w.sign + w.exponent);
    AtConcat(text, c + 1, w.sign, w.exponent);
  }

  lemma ExponentDigits(text: string, e: nat, w: Written)
    requires Proper(w) && w.raised && At(text, e, w.exponent) && EndsNumber(text, e + |w.exponent|)
    ensures e <= |text| && SkipDigits(text, e) == e + |w.exponent| > e
  {
    SkipAllDigits(text, e, w.exponent);
  }

  lemma ExponentIs(text: string, c: nat, e: nat, z: nat)
    requires HasExponent(text, c) && e <= |text| && SkipDigits(text, e) == z > e
    requires e == if CharAt(text, c + 1, '+') || CharAt(text, c + 1, '-') then c + 2 else c + 1
    ensures LexExponent(text, c) == Some(z)
  {}

  /** After the sign, if there is one, come the digits. */
  lemma SignAt(text: string, i: nat, w: Written)
    requires Proper(w) && w.raised && At(text, i, w.sign) && At(text, i + |w.sign|, w.exponent)
    ensures (CharAt(text, i, '+') <==> w.sign == "+") && (CharAt(text, i, '-') <==> w.sign == "-")
    ensures |w.sign| == if CharAt(text, i, '+') || CharAt(text, i, '-') then 1 else 0
  {
    AtChar(text, i + |w.sign|, w.exponent);
    if w.sign != "" { AtChar(text, i, w.sign); }
  }

  // ---- the value ---------------------------------------------------------------------------------

  /** Every written number is read as what it is worth: an integer if it is written as one and fits 64 bits. */
  lemma NumberReads(text: string, i: nat, w: Written)
    requires Proper(w) && At(text, i, Spell(w)) && EndsNumber(text, i + |Spell(w)|)
    ensures i <= |text|
    ensures var n := SignedNat(w.negative, NatOf(w.whole));
      ParseNum(text, i) ==
      Ok(if !w.point && !w.raised && -0x8000_0000_0000_0000 <= n <= 0x7fff_ffff_ffff_ffff then Int(n) else Num(Worth(w)),
         i + |Spell(w)|)
  {
    hide At, Spell, Middle, Tail, LexNum, DecimalValue, Worth, NatOf, EndsNumber;
    Lexed(text, i, w);
    var a := i + |Minus(w)|;
    var b := a + |w.whole|;
    var c := b + |Middle(w)|;
    var d := c + |Tail(w)|;
    TextAt(text, a, w.whole);
    TextAt(text, b, Middle(w));
    TextAt(text, c, Tail(w));
    TailEnds(text, i, w);
    ExponentEnd(text, c, w);
    ValueOf(text, NumShape(w.negative, a, b, c, w.point || w.raised, d), w);
    if !w.point && !w.raised { Bare(w); }
  }

  lemma TextAt(text: string, i: nat, s: string)
    requires At(text, i, s)
    ensures i + |s| <= |text| && text[i..i + |s|] == s
  {}

  lemma TailEnds(text: string, i: nat, w: Written)
    requires EndsNumber(text, i + |Spell(w)|)
    ensures EndsNumber(text, i + |Minus(w)| + |w.whole| + |Middle(w)| + |Tail(w)|)
  {
    hide Middle, Tail;
  }

  lemma Bare(w: Written)
    requires !w.point && !w.raised
    ensures Middle(w) == "" && Tail(w) == ""
  {}

  lemma ValueOf(text: string, n: NumShape, w: Written)
    requires Proper(w) && n.digits <= n.fraction <= n.exponent <= n.end <= |text| && n.negative == w.negative
    requires text[n.digits..n.fraction] == w.whole && text[n.fraction..n.exponent] == Middle(w) && text[n.exponent..n.end] == Tail(w)
    requires w.raised ==> (CharAt(text, n.exponent + 1, '-') <==> w.sign == "-")
    ensures DecimalValue(text, n) == Worth(w)
  {
    hide Mantissa, Scale, Middle, Tail, NatOf, Pow10, AllDigits;
    MantissaOf(text, n, w);
    ScaleOf(text, n, w);
    if !w.raised { NoScale(w); }
  }

  lemma NoScale(w: Written)
    requires Proper(w) && !w.raised
    ensures Pow10(NatOf(w.exponent)) == 1
  {}

  lemma MantissaOf(text: string, n: NumShape, w: Written)
    requires Proper(w) && n.digits <= n.fraction <= n.exponent <= |text|
    requires text[n.digits..n.fraction] == w.whole && text[n.fraction..n.exponent] == Middle(w)
    ensures AllDigits(w.whole + w.fraction)
    ensures Mantissa(text, n) == NatOf(w.whole + w.fraction) as real / Pow10(|w.fraction|) as real
  {
    PartDigits(w);
    NatOfJoin(w.whole, w.fraction);
    hide DigitsOf, Middle, NatOf, Pow10;
    OverPlaces(NatOf(w.whole), Pow10(|w.fraction|), NatOf(w.fraction), NatOf(w.whole + w.fraction));
  }

  lemma OverPlaces(x: nat, p: nat, f: nat, n: nat)
    requires p > 0 && n == x * p + f
    ensures x as real + f as real / p as real == n as real / p as real
  {
    assert n as real == x as real * p as real + f as real;
    Fraction(x as real, f as real, p as real);
  }

  lemma ScaleOf(text: string, n: NumShape, w: Written)
    requires Proper(w) && n.exponent <= n.end <= |text| && text[n.exponent..n.end] == Tail(w)
    ensures Scale(text, n) == Pow10(NatOf(w.exponent)) as real
  {
    PartDigits(w);
    hide DigitsOf, Tail, NatOf, Pow10;
  }

  lemma Fraction(x: real, f: real, p: real)
    requires p > 0.0
    ensures (x * p + f) / p == x + f / p
  {}
}
