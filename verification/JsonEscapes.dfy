/** What the escapes in a JSON string mean: every scalar value, written as one or two `\u` escapes, is read
    as its UTF-8 bytes (RFC 8259, section 7; RFC 3629, section 3). */
module JsonEscapes {
  import opened JsonValue
  import opened JsonText
  import opened JsonRoundTrip

  // ---- UTF-8 -------------------------------------------------------------------------------------

  predicate High(u: nat) { 0xD800 <= u <= 0xDBFF }

  predicate Low(u: nat) { 0xDC00 <= u <= 0xDFFF }

  predicate Scalar(cp: nat) { cp < 0x110000 && !High(cp) && !Low(cp) }

  predicate AllScalar(cps: seq<nat>) { forall i | 0 <= i < |cps| :: Scalar(cps[i]) }

  /** The six bits of a continuation byte. */
  function Six(c: char): Option<nat> { if 0x80 <= c as int <= 0xBF then Some(c as int - 0x80) else None }

  /** The first character of a text and how many bytes it takes; nothing for overlong forms, surrogates and
      values past U+10FFFF. */
  function DecodeFirst(s: string): (r: Option<(nat, nat)>)
    ensures r.Some? ==> Scalar(r.value.0) && 1 <= r.value.1 <= |s|
  {
    if s == "" then None
    else
      var b := s[0] as int;
      if b < 0x80 then Some((b, 1))
      else if 0xC0 <= b < 0xE0 && |s| >= 2 && Six(s[1]).Some? then
        var cp := (b - 0xC0) * 64 + Six(s[1]).value;
        if cp >= 0x80 then Some((cp, 2)) else None
      else if 0xE0 <= b < 0xF0 && |s| >= 3 && Six(s[1]).Some? && Six(s[2]).Some? then
        var cp := (b - 0xE0) * 4096 + Six(s[1]).value * 64 + Six(s[2]).value;
        if cp >= 0x800 && Scalar(cp) then Some((cp, 3)) else None
      else if 0xF0 <= b < 0xF8 && |s| >= 4 && Six(s[1]).Some? && Six(s[2]).Some? && Six(s[3]).Some? then
        var cp := (b - 0xF0) * 262144 + Six(s[1]).value * 4096 + Six(s[2]).value * 64 + Six(s[3]).value;
        if cp >= 0x10000 && Scalar(cp) then Some((cp, 4)) else None
      else None
  }

  /** The characters of a text, if it is UTF-8. */
  function Decode(s: string): Option<seq<nat>> {
    if s == "" then Some([])
    else
      match DecodeFirst(s)
      case None => None
      case Some((cp, n)) =>
        match Decode(s[n..])
        case None => None
        case Some(rest) => Some([cp] + rest)
  }

  function Encode(cps: seq<nat>): string
    requires forall i | 0 <= i < |cps| :: cps[i] < 0x110000
  {
    if cps == [] then "" else PutUtf8(cps[0]) + Encode(cps[1..])
  }

  lemma Split6(cp: nat)
    ensures cp == cp / 0x40 * 64 + cp % 0x40 && cp / 0x40 == cp / 0x1000 * 64 + cp / 0x40 % 0x40
    ensures cp / 0x1000 == cp / 0x40000 * 64 + cp / 0x1000 % 0x40
  {}

  /** What is written for a code point is read back as it, and as nothing for half a surrogate pair. */
  lemma PutDecodes(cp: nat, rest: string)
    requires cp < 0x110000
    ensures |PutUtf8(cp)| == (if cp < 0x80 then 1 else if cp < 0x800 then 2 else if cp < 0x10000 then 3 else 4)
    ensures DecodeFirst(PutUtf8(cp) + rest) == if Scalar(cp) then Some((cp, |PutUtf8(cp)|)) else None
    ensures forall i | 0 <= i < |PutUtf8(cp)| :: PutUtf8(cp)[i] as int < 0x100
  {
    if cp >= 0x10000 {
      FourBytes(cp, rest);
    } else if cp >= 0x800 {
      ThreeBytes(cp, rest);
    } else {
      Split6(cp);
      var s := PutUtf8(cp) + rest;
      assert cp >= 0x80 ==> s[0] as int == 0xC0 + cp / 0x40 && s[1] as int == 0x80 + cp % 0x40;
    }
  }

  lemma ThreeBytes(cp: nat, rest: string)
    requires 0x800 <= cp < 0x10000
    ensures |PutUtf8(cp)| == 3 && DecodeFirst(PutUtf8(cp) + rest) == if Scalar(cp) then Some((cp, 3)) else None
    ensures forall i | 0 <= i < 3 :: PutUtf8(cp)[i] as int < 0x100
  {
    Split6(cp);
    var s := PutUtf8(cp) + rest;
    assert s[0] as int == 0xE0 + cp / 0x1000 && s[1] as int == 0x80 + cp / 0x40 % 0x40 && s[2] as int == 0x80 + cp % 0x40;
  }

  lemma FourBytes(cp: nat, rest: string)
    requires 0x10000 <= cp < 0x110000
    ensures |PutUtf8(cp)| == 4 && DecodeFirst(PutUtf8(cp) + rest) == Some((cp, 4))
    ensures forall i | 0 <= i < 4 :: PutUtf8(cp)[i] as int < 0x100
  {
    Split6(cp);
    var s := PutUtf8(cp) + rest;
    assert s[0] as int == 0xF0 + cp / 0x40000 && s[1] as int == 0x80 + cp / 0x1000 % 0x40;
    assert s[2] as int == 0x80 + cp / 0x40 % 0x40 && s[3] as int == 0x80 + cp % 0x40;
  }

  /** Encoding is undone by decoding, exactly for scalar values. */
  lemma {:induction false} EncodeDecodes(cps: seq<nat>)
    requires forall i | 0 <= i < |cps| :: cps[i] < 0x110000
    ensures Decode(Encode(cps)) == if AllScalar(cps) then Some(cps) else None
  {
    if cps != [] {
      var first, rest := PutUtf8(cps[0]), Encode(cps[1..]);
      PutDecodes(cps[0], rest);
      EncodeDecodes(cps[1..]);
      hide PutUtf8, DecodeFirst;
      assert (first + rest)[|first|..] == rest;
      assert cps == [cps[0]] + cps[1..];
      ScalarJoin([cps[0]], cps[1..]);
    }
  }

  lemma ScalarJoin(a: seq<nat>, b: seq<nat>)
    ensures AllScalar(a + b) <==> AllScalar(a) && AllScalar(b)
  {
    var c := a + b;
    assert forall i | 0 <= i < |a| :: a[i] == c[i];
    assert forall i | 0 <= i < |b| :: b[i] == c[|a| + i];
  }

  // ---- code units --------------------------------------------------------------------------------

  /** A code unit as four hex digits, each in either case. */
  datatype Unit = Unit(value: nat, upper: seq<bool>)

  predicate IsUnit(u: Unit) { u.value < 0x10000 && |u.upper| == 4 }

  function HexChar(d: nat, upper: bool): char
    requires d < 16
  {
    if d < 10 then ('0' as int + d) as char else ((if upper then 'A' else 'a') as int + (d - 10)) as char
  }

  function Hex(u: Unit): (r: string)
    requires IsUnit(u)
    ensures |r| == 4
  {
    [HexChar(u.value / 0x1000, u.upper[0]), HexChar(u.value / 0x100 % 16, u.upper[1]),
     HexChar(u.value / 0x10 % 16, u.upper[2]), HexChar(u.value % 16, u.upper[3])]
  }

  predicate AreUnits(us: seq<Unit>) { forall i | 0 <= i < |us| :: IsUnit(us[i]) }

  /** The units as `\\u` escapes, one after the other. */
  function Escapes(us: seq<Unit>): string
    requires AreUnits(us)
  {
    if us == [] then "" else "\\u" + Hex(us[0]) + Escapes(us[1..])
  }

  function Values(us: seq<Unit>): (r: seq<nat>)
    ensures |r| == |us| && forall i | 0 <= i < |us| :: r[i] == us[i].value
  {
    seq(|us|, i requires 0 <= i < |us| => us[i].value)
  }

  /** The code points the parser makes of code units. A pair of halves is one; a half alone is U+FFFD; but the
      unit after an unpaired high half is taken as it is. */
  function Points(us: seq<nat>): (r: seq<nat>)
    requires forall i | 0 <= i < |us| :: us[i] < 0x10000
    ensures forall i | 0 <= i < |r| :: r[i] < 0x110000
  {
    if us == [] then []
    else if High(us[0]) && |us| > 1 then
      (if Low(us[1]) then [0x10000 + (us[0] - 0xD800) * 0x400 + (us[1] - 0xDC00)] else [0xFFFD, us[1]]) + Points(us[2..])
    else [if High(us[0]) || Low(us[0]) then 0xFFFD else us[0]] + Points(us[1..])
  }

  lemma HexCharReads(d: nat, upper: bool)
    requires d < 16
    ensures HexVal(HexChar(d, upper)) == Some(d)
  {}

  lemma HexReads(text: string, i: nat, u: Unit)
    requires IsUnit(u) && At(text, i, Hex(u))
    ensures Hex4(text, i) == Ok(u.value, i + 4)
  {
    var h, v := Hex(u), u.value;
    assert forall k | 0 <= k < 4 :: text[i + k] == text[i..i + 4][k] == h[k];
    HexCharReads(v / 0x1000, u.upper[0]);
    HexCharReads(v / 0x100 % 16, u.upper[1]);
    HexCharReads(v / 0x10 % 16, u.upper[2]);
    HexCharReads(v % 16, u.upper[3]);
    hide HexVal, HexChar;
    Digits(v);
  }

  lemma Digits(v: nat)
    ensures v == v / 0x1000 * 0x1000 + v / 0x100 % 16 * 0x100 + v / 0x10 % 16 * 0x10 + v % 16
  {
    assert v == v / 16 * 16 + v % 16;
    assert v / 16 == v / 256 * 16 + v / 16 % 16;
    assert v / 256 == v / 4096 * 16 + v / 256 % 16;
  }

  /** An escape at a place of a text. */
  lemma EscapeAt(text: string, i: nat, us: seq<Unit>)
    requires AreUnits(us) && us != [] && At(text, i, Escapes(us) + "\"")
    ensures CharAt(text, i, '\\') && CharAt(text, i + 1, 'u') && Hex4(text, i + 2) == Ok(us[0].value, i + 6)
    ensures At(text, i + 6, Escapes(us[1..]) + "\"") && |Escapes(us)| == 6 + |Escapes(us[1..])|
  {
    var h, rest := Hex(us[0]), Escapes(us[1..]);
    assert Escapes(us) == "\\u" + h + rest;
    hide Escapes, Hex, At;
    Regroup("\\u", h, rest, "\"");
    AtConcat(text, i, "\\u", h + (rest + "\""));
    AtConcat(text, i + 2, h, rest + "\"");
    HexReads(text, i + 2, us[0]);
    AtChars(text, i);
  }

  lemma Regroup(a: string, b: string, c: string, d: string)
    ensures (a + b + c) + d == a + (b + (c + d))
  {
    Assoc(a + b, c, d);
    Assoc(a, b, c + d);
  }

  lemma AtChars(text: string, i: nat)
    requires At(text, i, "\\u")
    ensures CharAt(text, i, '\\') && CharAt(text, i + 1, 'u')
  {
    assert text[i..i + 2][0] == text[i] && text[i..i + 2][1] == text[i + 1];
  }

  lemma AtQuote(text: string, i: nat)
    requires At(text, i, Escapes([]) + "\"")
    ensures CharAt(text, i, '\"')
  {
    assert text[i..i + 1][0] == text[i];
  }

  lemma PointsStep(us: seq<Unit>)
    requires AreUnits(us) && us != []
    ensures var vs := Values(us);
      if High(vs[0]) && |vs| > 1
      then Points(vs) == (if Low(vs[1]) then [0x10000 + (vs[0] - 0xD800) * 0x400 + (vs[1] - 0xDC00)] else [0xFFFD, vs[1]])
                         + Points(Values(us[2..]))
      else Points(vs) == [if High(vs[0]) || Low(vs[0]) then 0xFFFD else vs[0]] + Points(Values(us[1..]))
  {
    var vs := Values(us);
    if |us| > 1 { assert vs[2..] == Values(us[2..]); }
    assert vs[1..] == Values(us[1..]);
  }

  lemma EncodeCons(cp: nat, rest: seq<nat>)
    requires cp < 0x110000 && forall i | 0 <= i < |rest| :: rest[i] < 0x110000
    ensures Encode([cp] + rest) == PutUtf8(cp) + Encode(rest)
  {
    assert ([cp] + rest)[1..] == rest;
  }

  lemma {:induction false} EscapesRead(text: string, i: nat, us: seq<Unit>, acc: string)
    requires AreUnits(us) && At(text, i, Escapes(us) + "\"")
    ensures StrLoop(text, i, acc) == Ok(acc + Encode(Points(Values(us))), i + |Escapes(us)| + 1)
    decreases |us|
  {
    hide PutUtf8, Hex4;
    if us == [] {
      AtQuote(text, i);
      assert Points(Values(us)) == [];
      assert acc + "" == acc;
    } else {
      hide At, Escapes;
      EscapeAt(text, i, us);
      PointsStep(us);
      hide Points, Encode;
      var u := us[0].value;
      if High(u) && |us| > 1 {
        EscapeAt(text, i + 6, us[1..]);
        assert us[1..][1..] == us[2..];
        PairRead(text, i, us, acc);
      } else {
        if |us| == 1 {
          assert us[1..] == [];
          AtQuote(text, i + 6);
        }
        var cp := if High(u) || Low(u) then 0xFFFD else u;
        assert EscapeSeq(text, i + 1) == Ok(PutUtf8(cp), i + 6);
        EscapesRead(text, i + 6, us[1..], acc + PutUtf8(cp));
        EncodeCons(cp, Points(Values(us[1..])));
        Assoc(acc, PutUtf8(cp), Encode(Points(Values(us[1..]))));
      }
    }
  }

  lemma Assoc(a: string, b: string, c: string)
    ensures (a + b) + c == a + (b + c)
  {}

  /** What follows the backslash of a high half that is followed by another escape. */
  lemma PairPiece(text: string, i: nat, u: nat, v: nat)
    requires High(u) && v < 0x10000 && Hex4(text, i + 2) == Ok(u, i + 6) && CharAt(text, i + 1, 'u')
    requires CharAt(text, i + 6, '\\') && CharAt(text, i + 7, 'u') && Hex4(text, i + 8) == Ok(v, i + 12)
    ensures EscapeSeq(text, i + 1) ==
      Ok(if Low(v) then PutUtf8(0x10000 + (u - 0xD800) * 0x400 + (v - 0xDC00)) else PutUtf8(0xFFFD) + PutUtf8(v), i + 12)
  {
    hide PutUtf8, Hex4;
  }

  lemma PairEncodes(u: nat, v: nat, rest: seq<nat>)
    requires High(u) && v < 0x10000 && forall i | 0 <= i < |rest| :: rest[i] < 0x110000
    ensures Low(v) ==> Encode([0x10000 + (u - 0xD800) * 0x400 + (v - 0xDC00)] + rest) ==
                       PutUtf8(0x10000 + (u - 0xD800) * 0x400 + (v - 0xDC00)) + Encode(rest)
    ensures Encode([0xFFFD, v] + rest) == (PutUtf8(0xFFFD) + PutUtf8(v)) + Encode(rest)
  {
    hide PutUtf8, Encode;
    if Low(v) { EncodeCons(0x10000 + (u - 0xD800) * 0x400 + (v - 0xDC00), rest); }
    EncodeTwo(0xFFFD, v, rest);
  }

  lemma EncodeTwo(x: nat, y: nat, rest: seq<nat>)
    requires x < 0x10000 && y < 0x10000 && forall i | 0 <= i < |rest| :: rest[i] < 0x110000
    ensures Encode([x, y] + rest) == (PutUtf8(x) + PutUtf8(y)) + Encode(rest)
  {
    hide PutUtf8, Encode;
    assert [x, y] + rest == [x] + ([y] + rest);
    EncodeCons(y, rest);
    EncodeCons(x, [y] + rest);
    Assoc(PutUtf8(x), PutUtf8(y), Encode(rest));
  }

  lemma {:induction false} PairRead(text: string, i: nat, us: seq<Unit>, acc: string)
    requires AreUnits(us) && |us| > 1 && High(us[0].value)
    requires CharAt(text, i, '\\') && CharAt(text, i + 1, 'u') && Hex4(text, i + 2) == Ok(us[0].value, i + 6)
    requires CharAt(text, i + 6, '\\') && CharAt(text, i + 7, 'u') && Hex4(text, i + 8) == Ok(us[1].value, i + 12)
    requires At(text, i + 12, Escapes(us[2..]) + "\"") && |Escapes(us)| == 12 + |Escapes(us[2..])|
    ensures StrLoop(text, i, acc) == Ok(acc + Encode(Points(Values(us))), i + |Escapes(us)| + 1)
    decreases |us|, 0
  {
    hide PutUtf8, Hex4, At, Escapes, EscapeSeq;
    PointsStep(us);
    hide Points, Encode;
    var u, v, rest := us[0].value, us[1].value, Points(Values(us[2..]));
    PairPiece(text, i, u, v);
    PairEncodes(u, v, rest);
    var piece := EscapeSeq(text, i + 1).value;
    StrStep(text, i, acc, piece, i + 12);
    hide StrLoop, High, Low;
    EscapesRead(text, i + 12, us[2..], acc + piece);
    Assoc(acc, piece, Encode(rest));
  }

  lemma StrStep(text: string, i: nat, acc: string, piece: string, next: nat)
    requires CharAt(text, i, '\\') && EscapeSeq(text, i + 1) == Ok(piece, next)
    ensures next <= |text| && StrLoop(text, i, acc) == StrLoop(text, next, acc + piece)
  {
    hide EscapeSeq;
  }

  // ---- what escaped text means -------------------------------------------------------------------

  /** UTF-16 (RFC 2781, section 2.1). */
  function Utf16(cps: seq<nat>): (r: seq<nat>)
    requires AllScalar(cps)
    ensures forall i | 0 <= i < |r| :: r[i] < 0x10000
  {
    if cps == [] then []
    else
      assert Scalar(cps[0]);
      (if cps[0] < 0x10000 then [cps[0]]
       else [0xD800 + (cps[0] - 0x10000) / 0x400, 0xDC00 + (cps[0] - 0x10000) % 0x400]) + Utf16(cps[1..])
  }

  lemma {:induction false} PointsOfUtf16(cps: seq<nat>)
    requires AllScalar(cps)
    ensures Points(Utf16(cps)) == cps
  {
    if cps != [] {
      PointsOfUtf16(cps[1..]);
      var us, rest := Utf16(cps), Utf16(cps[1..]);
      if cps[0] < 0x10000 {
        assert us[1..] == rest;
      } else {
        assert us[2..] == rest;
      }
    }
  }

  /** A high half is followed by another. */
  predicate TwoHigh(us: seq<nat>) { exists i | 0 <= i < |us| - 1 :: High(us[i]) && High(us[i + 1]) }

  /** The result is UTF-8 exactly when no high half follows another. */
  lemma {:induction false} PointsScalar(us: seq<nat>)
    requires forall i | 0 <= i < |us| :: us[i] < 0x10000
    ensures AllScalar(Points(us)) <==> !TwoHigh(us)
  {
    if us != [] {
      var n := if High(us[0]) && |us| > 1 then 2 else 1;
      PointsScalar(us[n..]);
      HighSplit(us, n);
      var head :=
        if n == 2 then if Low(us[1]) then [0x10000 + (us[0] - 0xD800) * 0x400 + (us[1] - 0xDC00)] else [0xFFFD, us[1]]
        else [if High(us[0]) || Low(us[0]) then 0xFFFD else us[0]];
      assert Points(us) == head + Points(us[n..]);
      ScalarJoin(head, Points(us[n..]));
    }
  }

  lemma HighSplit(us: seq<nat>, n: nat)
    requires us != [] && n == if High(us[0]) && |us| > 1 then 2 else 1
    ensures TwoHigh(us) <==> (n == 2 && High(us[1])) || TwoHigh(us[n..])
  {
    if TwoHigh(us) {
      var i :| 0 <= i < |us| - 1 && High(us[i]) && High(us[i + 1]);
      if i >= n { assert High(us[n..][i - n]) && High(us[n..][i - n + 1]); }
    }
    if TwoHigh(us[n..]) {
      var i :| 0 <= i < |us[n..]| - 1 && High(us[n..][i]) && High(us[n..][i + 1]);
      assert High(us[n + i]) && High(us[n + i + 1]);
    }
  }

  /** A string of escapes is read as text: any code units, in hex digits of either case. It is UTF-8 exactly
      when no high half follows another, and then it is the code points. */
  lemma EscapedText(us: seq<Unit>)
    requires AreUnits(us)
    ensures var r := ParseStr("\"" + Escapes(us) + "\"", 0);
      && r.Ok? && r.next == |Escapes(us)| + 2
      && Decode(r.value) == if TwoHigh(Values(us)) then None else Some(Points(Values(us)))
  {
    var text := "\"" + Escapes(us) + "\"";
    assert At(text, 1, Escapes(us) + "\"");
    hide Escapes, StrLoop, Points;
    EscapesRead(text, 1, us, "");
    assert "" + Encode(Points(Values(us))) == Encode(Points(Values(us)));
    EncodeDecodes(Points(Values(us)));
    PointsScalar(Values(us));
  }

  /** Every text of scalar values, written in escapes, is read as exactly that text. */
  lemma EveryScalar(cps: seq<nat>, us: seq<Unit>)
    requires AllScalar(cps) && AreUnits(us) && Values(us) == Utf16(cps)
    ensures var r := ParseStr("\"" + Escapes(us) + "\"", 0); r.Ok? && Decode(r.value) == Some(cps)
  {
    hide Escapes, ParseStr, Points, Utf16;
    EscapedText(us);
    PointsOfUtf16(cps);
    PointsScalar(Values(us));
  }

  /** Half a pair alone is U+FFFD; two high halves make bytes that are no UTF-8. */
  lemma LoneHalves(u: Unit, v: Unit)
    requires IsUnit(u) && IsUnit(v) && High(u.value)
    ensures var r := ParseStr("\"" + Escapes([u]) + "\"", 0); r.Ok? && Decode(r.value) == Some([0xFFFD])
    ensures var r := ParseStr("\"" + Escapes([u, v]) + "\"", 0); r.Ok? && (High(v.value) ==> Decode(r.value) == None)
    ensures Low(v.value) ==>
      var r := ParseStr("\"" + Escapes([v]) + "\"", 0); r.Ok? && Decode(r.value) == Some([0xFFFD])
  {
    hide Escapes, ParseStr;
    EscapedText([u]);
    EscapedText([v]);
    EscapedText([u, v]);
    assert Points(Values([u])) == [0xFFFD];
    assert Low(v.value) ==> Points(Values([v])) == [0xFFFD];
    var vs := Values([u, v]);
    assert High(v.value) ==> High(vs[0]) && High(vs[1]);
  }

  // ---- short escapes -----------------------------------------------------------------------------

  /** The character a letter after a backslash stands for (section 7 of RFC 8259). */
  function Short(c: char): Option<char> {
    if c == '\"' || c == '\\' || c == '/' then Some(c)
    else if c == 'b' then Some(0x08 as char)
    else if c == 't' then Some(0x09 as char)
    else if c == 'n' then Some(0x0A as char)
    else if c == 'f' then Some(0x0C as char)
    else if c == 'r' then Some(0x0D as char)
    else None
  }

  /** The two-character escapes: which there are, and what they mean. */
  lemma ShortEscapes(c: char)
    requires c != 'u'
    ensures ParseStr(['\"', '\\', c, '\"'], 0) == if Short(c).Some? then Ok([Short(c).value], 4) else Err
  {
    var text := ['\"', '\\', c, '\"'];
    var r := EscapeSeq(text, 2);
    assert r == if Short(c).Some? then Ok([Short(c).value], 3) else Err;
    hide Short, EscapeSeq;
    if r.Ok? {
      assert "" + r.value == r.value;
      assert StrLoop(text, 3, r.value) == Ok(r.value, 4);
    }
  }
}
