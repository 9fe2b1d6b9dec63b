/** A text inside a longer one: the parser reads a value there as it does alone, for its decisions depend
    only on what it has read. So no proper prefix of an object's text parses, and a torn line is always
    noticed. */
module JsonPrefix {
  import opened JsonValue
  import opened JsonText
  import opened JsonRoundTrip

  /** `t` holds `p` at offset `off`. */
  predicate Holds(t: string, off: nat, p: string) {
    off + |p| <= |t| && forall k | 0 <= k < |p| :: t[off + k] == p[k]
  }

  /** The same outcome `off` characters later. */
  function Shift<A>(r: Parsed<A>, off: nat): Parsed<A> { if r.Ok? then Ok(r.value, r.next + off) else Err }

  lemma {:induction false} SameWs(p: string, t: string, off: nat, i: nat)
    requires Holds(t, off, p) && i <= |p| && SkipWs(p, i) < |p|
    ensures SkipWs(t, off + i) == off + SkipWs(p, i)
    decreases |p| - i
  {
    if i < |p| && IsWs(p[i]) { SameWs(p, t, off, i + 1); }
  }

  lemma {:induction false} SameDigits(p: string, t: string, off: nat, i: nat)
    requires Holds(t, off, p) && i <= |p| && SkipDigits(p, i) < |p|
    ensures SkipDigits(t, off + i) == off + SkipDigits(p, i)
    decreases |p| - i
  {
    if i < |p| && IsDigit(p[i]) { SameDigits(p, t, off, i + 1); }
  }

  lemma SameHex4(p: string, t: string, off: nat, i: nat)
    requires Holds(t, off, p) && Hex4(p, i).Ok?
    ensures Hex4(t, off + i) == Shift(Hex4(p, i), off)
  {
    assert t[off + i] == p[i] && t[off + i + 1] == p[i + 1] && t[off + i + 2] == p[i + 2] && t[off + i + 3] == p[i + 3];
  }

  /** A lone surrogate's escape is settled once it is clear that no second escape follows. */
  lemma SameUnicode(p: string, t: string, off: nat, i: nat)
    requires Holds(t, off, p) && UnicodeEscape(p, i).Ok?
    requires var n := UnicodeEscape(p, i).next; n < |p| && (p[n] == '\\' ==> n + 1 < |p|)
    ensures UnicodeEscape(t, off + i) == Shift(UnicodeEscape(p, i), off)
  {
    hide Hex4, PutUtf8;
    SameHex4(p, t, off, i);
    var cp, i1 := Hex4(p, i).value, i + 4;
    if 0xD800 <= cp <= 0xDBFF && CharAt(p, i1, '\\') && CharAt(p, i1 + 1, 'u') { SameHex4(p, t, off, i1 + 2); }
  }

  lemma SameEscape(p: string, t: string, off: nat, i: nat)
    requires Holds(t, off, p) && EscapeSeq(p, i).Ok?
    requires var n := EscapeSeq(p, i).next; n < |p| && (p[n] == '\\' ==> n + 1 < |p|)
    ensures EscapeSeq(t, off + i) == Shift(EscapeSeq(p, i), off)
  {
    hide UnicodeEscape;
    if p[i] == 'u' { SameUnicode(p, t, off, i + 1); }
  }

  lemma {:induction false} SameStrLoop(p: string, t: string, off: nat, i: nat, acc: string)
    requires Holds(t, off, p) && i <= |p| && StrLoop(p, i, acc).Ok?
    ensures StrLoop(t, off + i, acc) == Shift(StrLoop(p, i, acc), off)
    decreases |p| - i
  {
    hide EscapeSeq;
    if p[i] == '\"' {
    } else if p[i] != '\\' {
      SameStrLoop(p, t, off, i + 1, acc + [p[i]]);
    } else {
      var e := EscapeSeq(p, i + 1);
      Opened(p, e.next, acc + e.value);
      SameEscape(p, t, off, i + 1);
      SameStrLoop(p, t, off, e.next, acc + e.value);
    }
  }

  /** A string that still ends later has not ended yet. */
  lemma Opened(p: string, n: nat, acc: string)
    requires n <= |p| && StrLoop(p, n, acc).Ok?
    ensures n < |p| && (p[n] == '\\' ==> n + 1 < |p|)
  {}

  lemma SameStr(p: string, t: string, off: nat, i: nat)
    requires Holds(t, off, p) && ParseStr(p, i).Ok?
    ensures ParseStr(t, off + i) == Shift(ParseStr(p, i), off)
  {
    hide StrLoop;
    SameStrLoop(p, t, off, i + 1, "");
  }

  lemma SameFraction(p: string, t: string, off: nat, i: nat)
    requires Holds(t, off, p) && i <= |p| && LexFraction(p, i).Some? && LexFraction(p, i).value < |p|
    ensures LexFraction(t, off + i) == Some(off + LexFraction(p, i).value)
  {
    hide SkipDigits;
    if CharAt(p, i, '.') { SameDigits(p, t, off, i + 1); }
  }

  lemma SameExponent(p: string, t: string, off: nat, i: nat)
    requires Holds(t, off, p) && i <= |p| && LexExponent(p, i).Some? && LexExponent(p, i).value < |p|
    ensures LexExponent(t, off + i) == Some(off + LexExponent(p, i).value)
  {
    hide SkipDigits;
    if HasExponent(p, i) { SameDigits(p, t, off, if CharAt(p, i + 1, '+') || CharAt(p, i + 1, '-') then i + 2 else i + 1); }
  }

  function ShiftShape(n: NumShape, off: nat): NumShape {
    NumShape(n.negative, n.digits + off, n.fraction + off, n.exponent + off, n.isFloat, n.end + off)
  }

  lemma SameLex(p: string, t: string, off: nat, i: nat)
    requires Holds(t, off, p) && i <= |p| && LexNum(p, i).Some? && LexNum(p, i).value.end < |p|
    ensures LexNum(t, off + i) == Some(ShiftShape(LexNum(p, i).value, off))
  {
    hide SkipDigits, LexFraction, LexExponent;
    var n := LexNum(p, i).value;
    SameDigits(p, t, off, n.digits);
    SameFraction(p, t, off, n.fraction);
    SameExponent(p, t, off, n.exponent);
  }

  lemma SameSlice(p: string, t: string, off: nat, a: nat, z: nat)
    requires Holds(t, off, p) && a <= z <= |p|
    ensures t[off + a..off + z] == p[a..z]
  {}

  lemma SameParts(p: string, t: string, off: nat, n: NumShape)
    requires Holds(t, off, p) && n.digits <= n.fraction <= n.exponent <= n.end < |p|
    ensures Mantissa(t, ShiftShape(n, off)) == Mantissa(p, n) && Scale(t, ShiftShape(n, off)) == Scale(p, n)
    ensures n.exponent == n.end ==> Scale(p, n) == 1.0
  {
    hide NatOf, DigitsOf, Pow10;
    SameSlice(p, t, off, n.digits, n.fraction);
    SameSlice(p, t, off, n.fraction, n.exponent);
    SameSlice(p, t, off, n.exponent, n.end);
    if n.exponent == n.end {
      assert p[n.exponent..n.end] == "";
      NoDigits();
    }
  }

  lemma NoDigits()
    ensures Pow10(NatOf(DigitsOf(""))) == 1
  {}

  /** Without an exponent the sign read after it does not matter. */
  lemma SameDecimal(p: string, t: string, off: nat, n: NumShape)
    requires Holds(t, off, p) && n.digits <= n.fraction <= n.exponent <= n.end < |p|
    ensures DecimalValue(t, ShiftShape(n, off)) == DecimalValue(p, n)
  {
    hide Mantissa, Scale;
    SameParts(p, t, off, n);
  }

  lemma SameNum(p: string, t: string, off: nat, i: nat)
    requires Holds(t, off, p) && i <= |p| && ParseNum(p, i).Ok? && ParseNum(p, i).next < |p|
    ensures ParseNum(t, off + i) == Shift(ParseNum(p, i), off)
  {
    hide LexNum, DecimalValue, NatOf;
    SameLex(p, t, off, i);
    var n := LexNum(p, i).value;
    SameSlice(p, t, off, n.digits, n.end);
    SameDecimal(p, t, off, n);
  }

  lemma SameLit(p: string, t: string, off: nat, i: nat, word: string, v: Json)
    requires Holds(t, off, p) && word != "" && ParseLit(p, i, word, v).Ok?
    ensures ParseLit(t, off + i, word, v) == Shift(ParseLit(p, i, word, v), off)
  {
    SameSlice(p, t, off, i, i + |word|);
  }

  /** A value that ended inside a text, or an object anywhere in it, is read the same in every text that
      holds the first one. */
  lemma {:induction false} SameVal(p: string, t: string, off: nat, i: nat, depth: nat, maxDepth: nat)
    requires Holds(t, off, p) && i <= |p| && ParseVal(p, i, depth, maxDepth).Ok?
    requires ParseVal(p, i, depth, maxDepth).next < |p| || CharAt(p, SkipWs(p, i), '{')
    ensures ParseVal(t, off + i, depth, maxDepth) == Shift(ParseVal(p, i, depth, maxDepth), off)
    decreases |p| - i, 0
  {
    hide SkipWs, ParseNum, ParseStr, ObjLoop, ArrLoop, ParseLit;
    SameWs(p, t, off, i);
    var i0 := SkipWs(p, i);
    match p[i0]
    case '{' =>
      LoopStart(p, i0 + 1, depth, maxDepth);
      SameWs(p, t, off, i0 + 1);
      var i1 := SkipWs(p, i0 + 1);
      if !CharAt(p, i1, '}') { SameObj(p, t, off, i1, depth, maxDepth, []); }
    case '[' =>
      LoopStart(p, i0 + 1, depth, maxDepth);
      SameWs(p, t, off, i0 + 1);
      var i1 := SkipWs(p, i0 + 1);
      if !CharAt(p, i1, ']') { SameArr(p, t, off, i1, depth, maxDepth, []); }
    case '\"' => SameStr(p, t, off, i0);
    case 't' => SameLit(p, t, off, i0, "true", Bool(true));
    case 'f' => SameLit(p, t, off, i0, "false", Bool(false));
    case 'n' => SameLit(p, t, off, i0, "null", Null);
    case _ => SameNum(p, t, off, i0);
  }

  /** Nothing parses at the end of a text. */
  lemma LoopStart(p: string, i: nat, depth: nat, maxDepth: nat)
    requires i <= |p|
    ensures SkipWs(p, i) == |p| ==> ObjLoop(p, |p|, depth, maxDepth, []) == Err && ArrLoop(p, |p|, depth, maxDepth, []) == Err
  {}

  lemma {:induction false} SameMember(p: string, t: string, off: nat, i: nat, depth: nat, maxDepth: nat)
    requires Holds(t, off, p) && i <= |p| && ParseMember(p, i, depth, maxDepth).Ok? && ParseMember(p, i, depth, maxDepth).next < |p|
    ensures ParseMember(t, off + i, depth, maxDepth) == Shift(ParseMember(p, i, depth, maxDepth), off)
    decreases |p| - i, 1
  {
    hide SkipWs, ParseStr, ParseVal;
    SameWs(p, t, off, i);
    var key := ParseStr(p, SkipWs(p, i));
    SameStr(p, t, off, SkipWs(p, i));
    SameWs(p, t, off, key.next);
    SameVal(p, t, off, SkipWs(p, key.next) + 1, depth + 1, maxDepth);
  }

  lemma {:induction false} SameObj(p: string, t: string, off: nat, i: nat, depth: nat, maxDepth: nat, acc: seq<Member>)
    requires Holds(t, off, p) && i <= |p| && ObjLoop(p, i, depth, maxDepth, acc).Ok?
    ensures ObjLoop(t, off + i, depth, maxDepth, acc) == Shift(ObjLoop(p, i, depth, maxDepth, acc), off)
    decreases |p| - i, 2
  {
    hide SkipWs, ParseMember, SetMember;
    var r := ParseMember(p, i, depth, maxDepth);
    SameMember(p, t, off, i, depth, maxDepth);
    SameWs(p, t, off, r.next);
    if CharAt(p, SkipWs(p, r.next), ',') {
      SameObj(p, t, off, SkipWs(p, r.next) + 1, depth, maxDepth, SetMember(acc, r.value.key, r.value.value));
    }
  }

  lemma {:induction false} SameArr(p: string, t: string, off: nat, i: nat, depth: nat, maxDepth: nat, acc: seq<Json>)
    requires Holds(t, off, p) && i <= |p| && ArrLoop(p, i, depth, maxDepth, acc).Ok?
    ensures ArrLoop(t, off + i, depth, maxDepth, acc) == Shift(ArrLoop(p, i, depth, maxDepth, acc), off)
    decreases |p| - i, 1
  {
    hide SkipWs, ParseVal;
    var r := ParseVal(p, i, depth + 1, maxDepth);
    SameVal(p, t, off, i, depth + 1, maxDepth);
    SameWs(p, t, off, r.next);
    if CharAt(p, SkipWs(p, r.next), ',') {
      SameArr(p, t, off, SkipWs(p, r.next) + 1, depth, maxDepth, acc + [r.value]);
    }
  }

  // ---- nesting ---------------------------------------------------------------------------------

  /** Only the distance to the nesting limit matters. */
  lemma {:induction false} DeeperVal(t: string, i: nat, depth: nat, maxDepth: nat)
    requires i <= |t|
    ensures ParseVal(t, i, depth + 1, maxDepth + 1) == ParseVal(t, i, depth, maxDepth)
    decreases |t| - i, 0
  {
    hide ObjLoop, ArrLoop, ParseStr, ParseNum, ParseLit;
    var i0 := SkipWs(t, i);
    if depth <= maxDepth && i0 < |t| && (t[i0] == '{' || t[i0] == '[') {
      DeeperObj(t, SkipWs(t, i0 + 1), depth, maxDepth, []);
      DeeperArr(t, SkipWs(t, i0 + 1), depth, maxDepth, []);
    }
  }

  lemma {:induction false} DeeperMember(t: string, i: nat, depth: nat, maxDepth: nat)
    requires i <= |t|
    ensures ParseMember(t, i, depth + 1, maxDepth + 1) == ParseMember(t, i, depth, maxDepth)
    decreases |t| - i, 1
  {
    hide ParseVal, ParseStr;
    var key := ParseStr(t, SkipWs(t, i));
    if key.Ok? && CharAt(t, SkipWs(t, key.next), ':') { DeeperVal(t, SkipWs(t, key.next) + 1, depth + 1, maxDepth); }
  }

  lemma {:induction false} DeeperObj(t: string, i: nat, depth: nat, maxDepth: nat, acc: seq<Member>)
    requires i <= |t|
    ensures ObjLoop(t, i, depth + 1, maxDepth + 1, acc) == ObjLoop(t, i, depth, maxDepth, acc)
    decreases |t| - i, 2
  {
    hide ParseMember, SetMember;
    DeeperMember(t, i, depth, maxDepth);
    var r := ParseMember(t, i, depth, maxDepth);
    if r.Ok? && CharAt(t, SkipWs(t, r.next), ',') {
      DeeperObj(t, SkipWs(t, r.next) + 1, depth, maxDepth, SetMember(acc, r.value.key, r.value.value));
    }
  }

  lemma {:induction false} DeeperArr(t: string, i: nat, depth: nat, maxDepth: nat, acc: seq<Json>)
    requires i <= |t|
    ensures ArrLoop(t, i, depth + 1, maxDepth + 1, acc) == ArrLoop(t, i, depth, maxDepth, acc)
    decreases |t| - i, 1
  {
    hide ParseVal;
    DeeperVal(t, i, depth + 1, maxDepth);
    var r := ParseVal(t, i, depth + 1, maxDepth);
    if r.Ok? && CharAt(t, SkipWs(t, r.next), ',') {
      DeeperArr(t, SkipWs(t, r.next) + 1, depth, maxDepth, acc + [r.value]);
    }
  }

  // ---- prefixes --------------------------------------------------------------------------------

  /** When a text that starts with a brace is an object to its very end, or no value at all, no proper
      prefix of it is JSON. */
  lemma CutFails(t: string, n: nat, maxDepth: nat)
    requires n < |t| && t[0] == '{'
    requires ParseVal(t, 0, 0, maxDepth).Ok? ==> ParseVal(t, 0, 0, maxDepth).next == |t|
    ensures Parse(t[..n], maxDepth) == None
  {
    hide ParseVal;
    var p := t[..n];
    if Parse(p, maxDepth).Some? {
      ParsesSomething(p, maxDepth);
      SameVal(p, t, 0, 0, 0, maxDepth);
    }
  }

  /** No proper prefix of a printed object is JSON. */
  lemma PrefixFails(v: Json, fmt: real -> string, n: nat, maxDepth: nat)
    requires Plain(v) && v.Obj? && n < |Dump(v, fmt)|
    ensures Parse(Dump(v, fmt)[..n], maxDepth) == None
  {
    hide ParseVal, Dump, Depth, NoNum, UniqueKeys, Parse;
    var t := Dump(v, fmt);
    assert t[0..|t|] == t;
    OpensBrace(v, fmt);
    if Depth(v) <= maxDepth { ParseDump(t, 0, v, fmt, 0, maxDepth); } else { ParseTooDeep(t, 0, v, fmt, 0, maxDepth); }
    CutFails(t, n, maxDepth);
  }

  lemma OpensBrace(v: Json, fmt: real -> string)
    requires v.Obj?
    ensures CharAt(Dump(v, fmt), 0, '{')
  {}

  lemma ParsesSomething(p: string, maxDepth: nat)
    requires p == "" || p[0] == '{'
    ensures Parse(p, maxDepth).Some? ==> p != "" && SkipWs(p, 0) == 0
  {}
}
