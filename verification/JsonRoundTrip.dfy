/** Printing and parsing are inverse: for a double-free value, parsing its dump gives the value
    back exactly when no object repeats a key and the nesting stays within the parser's limit. */
module JsonRoundTrip {
  import opened JsonValue
  import opened JsonText

  // ---- text fragments ----------------------------------------------------------------------

  lemma AtConcat(text: string, i: nat, a: string, b: string)
    requires At(text, i, a + b)
    ensures At(text, i, a) && At(text, i + |a|, b)
  {
    var s := text[i..i + |a + b|];
    assert s[..|a|] == a && s[|a|..] == b;
    assert text[i..i + |a|] == s[..|a|];
    assert text[i + |a|..i + |a| + |b|] == s[|a|..];
  }

  lemma AtChar(text: string, i: nat, piece: string)
    requires At(text, i, piece) && piece != ""
    ensures i < |text| && text[i] == piece[0]
  {
    assert text[i] == text[i..i + |piece|][0];
  }

  /** What may follow a number: nothing that would extend it. */
  predicate EndsNumber(text: string, i: nat) {
    i <= |text| &&
    (i < |text| ==> !IsDigit(text[i]) && text[i] != '.' && text[i] != 'e' && text[i] != 'E')
  }

  // ---- strings -----------------------------------------------------------------------------

  lemma EscapeCharShape(c: char)
    ensures EscapeChar(c) != ""
    ensures forall k | 0 <= k < |EscapeChar(c)| :: EscapeChar(c)[k] as int >= 0x20
    ensures EscapeChar(c)[0] != '\"'
  {}

  /** A `\\u00xx` escape of a byte below 0x80 is read back as that byte. */
  lemma UnicodeByte(text: string, i: nat, n: nat)
    requires n < 0x80 && At(text, i, "u00" + [HEX[n / 16], HEX[n % 16]])
    ensures EscapeSeq(text, i) == Ok([n as char], i + 5)
  {
    var e := "u00" + [HEX[n / 16], HEX[n % 16]];
    assert forall k | 0 <= k < 5 :: text[i + k] == text[i..i + 5][k] == e[k];
    HexDigits(n);
    assert Hex4(text, i + 1) == Ok(n, i + 5);
  }

  /** A two-byte or `\\u` escape, from the byte after the backslash on. */
  lemma ReadEscape(text: string, i: nat, c: char)
    requires EscapeChar(c) != [c] && At(text, i, EscapeChar(c)[1..])
    ensures EscapeSeq(text, i) == Ok([c], i + |EscapeChar(c)| - 1)
  {
    hide UnicodeEscape;
    var e := EscapeChar(c)[1..];
    AtChar(text, i, e);
    if e[0] == 'u' {
      assert e == "u00" + [HEX[c as int / 16], HEX[c as int % 16]];
      UnicodeByte(text, i, c as int);
    }
  }

  /** One escaped character is read back as that character. */
  lemma StrLoopChar(text: string, i: nat, c: char, acc: string)
    requires At(text, i, EscapeChar(c))
    ensures StrLoop(text, i, acc) == StrLoop(text, i + |EscapeChar(c)|, acc + [c])
  {
    hide EscapeSeq, At;
    var e := EscapeChar(c);
    AtChar(text, i, e);
    if e != [c] {
      assert [e[0]] + e[1..] == e;
      AtConcat(text, i, [e[0]], e[1..]);
      ReadEscape(text, i + 1, c);
    }
  }

  lemma HexDigits(n: nat)
    requires n < 0x80
    ensures HexVal(HEX[n / 16]) == Some(n / 16) && HexVal(HEX[n % 16]) == Some(n % 16)
  {
    assert forall d | 0 <= d < 16 :: HexVal(HEX[d]) == Some(d);
  }

  lemma {:induction false} StrLoopEscape(text: string, i: nat, s: string, acc: string)
    requires At(text, i, Escape(s) + "\"")
    ensures StrLoop(text, i, acc) == Ok(acc + s, i + |Escape(s)| + 1)
    decreases s
  {
    hide EscapeChar, EscapeSeq, At;
    if s == "" {
      AtChar(text, i, Escape(s) + "\"");
      assert acc + s == acc;
    } else {
      hide StrLoop;
      var head, tail := EscapeChar(s[0]), Escape(s[1..]);
      assert Escape(s) == head + tail;
      hide Escape;
      assert (head + tail) + "\"" == head + (tail + "\"");
      AtConcat(text, i, head, tail + "\"");
      StrLoopChar(text, i, s[0], acc);
      StrLoopEscape(text, i + |head|, s[1..], acc + [s[0]]);
      assert (acc + [s[0]]) + s[1..] == acc + s;
    }
  }

  lemma ParseQuoted(text: string, i: nat, s: string)
    requires At(text, i, Quote(s))
    ensures ParseStr(text, i) == Ok(s, i + |Quote(s)|)
  {
    var rest := Escape(s) + "\"";
    assert Quote(s) == "\"" + rest;
    AtConcat(text, i, "\"", rest);
    AtChar(text, i, "\"");
    StrLoopEscape(text, i + 1, s, "");
    assert "" + s == s;
  }

  // ---- integers ----------------------------------------------------------------------------

  lemma {:induction false} PrintNatDigits(n: nat)
    ensures PrintNat(n) != ""
    ensures forall k | 0 <= k < |PrintNat(n)| :: IsDigit(PrintNat(n)[k])
    ensures NatOf(PrintNat(n)) == n
  {
    assert forall d | 0 <= d < 10 :: Digit(d) as int == '0' as int + d;
    if n < 10 {
      assert NatOf("") == 0;
    } else {
      PrintNatDigits(n / 10);
      assert PrintNat(n)[..|PrintNat(n)| - 1] == PrintNat(n / 10);
    }
  }

  lemma SkipAllDigits(text: string, i: nat, digits: string)
    requires At(text, i, digits) && forall k | 0 <= k < |digits| :: IsDigit(digits[k])
    requires i + |digits| < |text| ==> !IsDigit(text[i + |digits|])
    ensures SkipDigits(text, i) == i + |digits|
  {
    var j := SkipDigits(text, i);
    assert forall k | 0 <= k < |digits| :: text[i + k] == text[i..i + |digits|][k] == digits[k];
    assert j >= i + |digits|;
  }

  lemma LexInt(text: string, i: nat, digits: string, negative: bool)
    requires At(text, i, (if negative then "-" else "") + digits)
    requires digits != "" && forall k | 0 <= k < |digits| :: IsDigit(digits[k])
    requires EndsNumber(text, i + |(if negative then "-" else "") + digits|)
    ensures var j := if negative then i + 1 else i;
            At(text, j, digits) && var e := j + |digits|;
            LexNum(text, i) == Some(NumShape(negative, j, e, e, false, e))
  {
    AtConcat(text, i, if negative then "-" else "", digits);
    var j := if negative then i + 1 else i;
    AtChar(text, j, digits);
    if negative { AtChar(text, i, "-"); }
    SkipAllDigits(text, j, digits);
  }

  lemma ParseDigits(text: string, i: nat, digits: string, negative: bool)
    requires At(text, i, (if negative then "-" else "") + digits)
    requires digits != "" && forall k | 0 <= k < |digits| :: IsDigit(digits[k])
    requires EndsNumber(text, i + |(if negative then "-" else "") + digits|)
    requires INT64_MIN <= SignedNat(negative, NatOf(digits)) <= INT64_MAX
    ensures ParseNum(text, i) ==
            Ok(Int(SignedNat(negative, NatOf(digits))), i + |(if negative then "-" else "") + digits|)
  {
    hide LexNum, DecimalValue, NatOf;
    LexInt(text, i, digits, negative);
  }

  lemma PrintIntDigits(n: int) returns (digits: string)
    ensures digits != "" && forall k | 0 <= k < |digits| :: IsDigit(digits[k])
    ensures PrintInt(n) == (if n < 0 then "-" else "") + digits
    ensures SignedNat(n < 0, NatOf(digits)) == n
  {
    var m: nat := if n < 0 then -n else n;
    PrintNatDigits(m);
    digits := PrintNat(m);
    assert "" + digits == digits;
  }

  lemma ParseInt(text: string, i: nat, n: Int64)
    requires At(text, i, PrintInt(n)) && EndsNumber(text, i + |PrintInt(n)|)
    ensures ParseNum(text, i) == Ok(Int(n), i + |PrintInt(n)|)
  {
    var digits := PrintIntDigits(n);
    ParseDigits(text, i, digits, n < 0);
  }

  // ---- values ------------------------------------------------------------------------------

  /** A value the printer and the parser agree on: no doubles, no repeated keys. */
  predicate Plain(v: Json) { NoNum(v) && UniqueKeys(v) }

  /** The first byte of a dump; it decides the parser's branch, and is never whitespace. */
  lemma DumpHead(v: Json, fmt: real -> string)
    requires NoNum(v)
    ensures Dump(v, fmt) != ""
    ensures var c := Dump(v, fmt)[0];
      match v
      case Obj(_) => c == '{'
      case Arr(_) => c == '['
      case Str(_) => c == '\"'
      case Bool(b) => c == (if b then 't' else 'f')
      case Null => c == 'n'
      case Int(_) => c == '-' || IsDigit(c)
      case Num(_) => true
  {
    if v.Int? {
      var digits := PrintIntDigits(v.i);
    }
  }

  /** At an opening bracket the parser goes straight to the container's loop. */
  lemma OpenBracket(text: string, i: nat, depth: nat, maxDepth: nat, first: char)
    requires CharAt(text, i, '{') || CharAt(text, i, '[')
    requires CharAt(text, i + 1, first) && !IsWs(first) && depth <= maxDepth
    ensures text[i] == '{' ==>
              ParseVal(text, i, depth, maxDepth) ==
              (if first == '}' then Ok(Obj([]), i + 2) else ObjLoop(text, i + 1, depth, maxDepth, []))
    ensures text[i] == '[' ==>
              ParseVal(text, i, depth, maxDepth) ==
              (if first == ']' then Ok(Arr([]), i + 2) else ArrLoop(text, i + 1, depth, maxDepth, []))
  {
    hide ObjLoop, ArrLoop;
    assert SkipWs(text, i) == i && SkipWs(text, i + 1) == i + 1;
  }

  lemma ParseScalar(text: string, i: nat, v: Json, fmt: real -> string, depth: nat, maxDepth: nat)
    requires NoNum(v) && !v.Obj? && !v.Arr? && depth <= maxDepth
    requires At(text, i, Dump(v, fmt)) && EndsNumber(text, i + |Dump(v, fmt)|)
    ensures ParseVal(text, i, depth, maxDepth) == Ok(v, i + |Dump(v, fmt)|)
  {
    hide ObjLoop, ArrLoop, ParseNum, ParseStr, PrintInt, Quote;
    DumpHead(v, fmt);
    AtChar(text, i, Dump(v, fmt));
    match v
    case Int(n) => ParseInt(text, i, n);
    case Str(s) => ParseQuoted(text, i, s);
    case _ =>
  }

  lemma {:induction false} ParseDump(text: string, i: nat, v: Json, fmt: real -> string, depth: nat, maxDepth: nat)
    requires Plain(v) && At(text, i, Dump(v, fmt)) && EndsNumber(text, i + |Dump(v, fmt)|)
    requires depth + Depth(v) <= maxDepth
    ensures ParseVal(text, i, depth, maxDepth) == Ok(v, i + |Dump(v, fmt)|)
    decreases v, 1
  {
    hide ParseVal, ObjLoop, ArrLoop, Dump, DumpMembers, DumpItems, EndsNumber, At;
    match v
    case Obj(ms) =>
      OpenObj(text, i, ms, fmt, depth, maxDepth);
      if ms != [] {
        ParseDumpMembers(text, i + 1, ms, [], fmt, depth, maxDepth);
        assert [] + ms == ms;
      }
    case Arr(vs) =>
      OpenArr(text, i, vs, fmt, depth, maxDepth);
      if vs != [] {
        ParseDumpItems(text, i + 1, vs, [], fmt, depth, maxDepth);
        assert [] + vs == vs;
      }
    case _ => ParseScalar(text, i, v, fmt, depth, maxDepth);
  }

  /** At the text of an object the parser is in its member loop, or already done. */
  lemma OpenObj(text: string, i: nat, ms: seq<Member>, fmt: real -> string, depth: nat, maxDepth: nat)
    requires At(text, i, Dump(Obj(ms), fmt)) && depth <= maxDepth
    ensures |Dump(Obj(ms), fmt)| == |DumpMembers(ms, fmt)| + 2 && (ms == [] ==> |Dump(Obj(ms), fmt)| == 2)
    ensures At(text, i + 1, DumpMembers(ms, fmt) + "}")
    ensures ParseVal(text, i, depth, maxDepth) ==
            if ms == [] then Ok(Obj([]), i + 2) else ObjLoop(text, i + 1, depth, maxDepth, [])
  {
    hide ParseVal, ObjLoop, ArrLoop, DumpMembers;
    var inner := DumpMembers(ms, fmt);
    assert Dump(Obj(ms), fmt) == "{" + (inner + "}");
    AtConcat(text, i, "{", inner + "}");
    AtChar(text, i, "{");
    AtChar(text, i + 1, inner + "}");
    MembersHead(ms, fmt);
    OpenBracket(text, i, depth, maxDepth, (inner + "}")[0]);
  }

  lemma OpenArr(text: string, i: nat, vs: seq<Json>, fmt: real -> string, depth: nat, maxDepth: nat)
    requires At(text, i, Dump(Arr(vs), fmt)) && depth <= maxDepth && NoNum(Arr(vs))
    ensures |Dump(Arr(vs), fmt)| == |DumpItems(vs, fmt)| + 2 && (vs == [] ==> |Dump(Arr(vs), fmt)| == 2)
    ensures At(text, i + 1, DumpItems(vs, fmt) + "]")
    ensures ParseVal(text, i, depth, maxDepth) ==
            if vs == [] then Ok(Arr([]), i + 2) else ArrLoop(text, i + 1, depth, maxDepth, [])
  {
    hide ParseVal, ObjLoop, ArrLoop, DumpItems;
    var inner := DumpItems(vs, fmt);
    assert Dump(Arr(vs), fmt) == "[" + (inner + "]");
    AtConcat(text, i, "[", inner + "]");
    AtChar(text, i, "[");
    AtChar(text, i + 1, inner + "]");
    ItemsHead(vs, fmt);
    OpenBracket(text, i, depth, maxDepth, (inner + "]")[0]);
  }

  lemma MembersHead(ms: seq<Member>, fmt: real -> string)
    ensures ms == [] ==> DumpMembers(ms, fmt) == ""
    ensures ms != [] ==> DumpMembers(ms, fmt) != "" && DumpMembers(ms, fmt)[0] == '\"'
  {
    hide Dump, Escape;
  }

  lemma ItemsHead(vs: seq<Json>, fmt: real -> string)
    requires forall k | 0 <= k < |vs| :: NoNum(vs[k])
    ensures vs == [] ==> DumpItems(vs, fmt) == ""
    ensures vs != [] ==> DumpItems(vs, fmt) != "" && DumpItems(vs, fmt)[0] != ']' && !IsWs(DumpItems(vs, fmt)[0])
  {
    hide Dump;
    if vs != [] { DumpHead(vs[0], fmt); }
  }

  /** A member list with what follows it (a closing brace or a comma): the key, a colon, the value, and a
      tail. */
  lemma MembersText(ms: seq<Member>, close: string, fmt: real -> string) returns (tail: string)
    requires ms != [] && |close| == 1
    ensures DumpMembers(ms, fmt) + close == Quote(ms[0].key) + (":" + (Dump(ms[0].value, fmt) + tail))
    ensures |DumpMembers(ms, fmt)| == |Quote(ms[0].key)| + |Dump(ms[0].value, fmt)| + |tail|
    ensures |ms| == 1 ==> tail == close
    ensures |ms| > 1 ==> tail == "," + (DumpMembers(ms[1..], fmt) + close)
  {
    hide Dump, Quote;
    var a, b := Quote(ms[0].key), Dump(ms[0].value, fmt);
    var rest := if |ms| == 1 then "" else "," + DumpMembers(ms[1..], fmt);
    assert DumpMembers(ms, fmt) == a + ":" + b + rest;
    hide DumpMembers;
    Assoc5(a, ":", b, rest, close);
    tail := rest + close;
  }

  lemma Assoc3(a: string, b: string, c: string)
    ensures (a + b) + c == a + (b + c)
  {}

  lemma Assoc5(a: string, b: string, c: string, d: string, e: string)
    ensures a + b + c + d + e == a + (b + (c + (d + e)))
  {
    assert (a + b) + c == a + (b + c);
    assert (a + (b + c)) + d == a + ((b + c) + d);
    assert (b + c) + d == b + (c + d);
    assert (a + (b + (c + d))) + e == a + ((b + (c + d)) + e);
    assert (b + (c + d)) + e == b + ((c + d) + e);
    assert (c + d) + e == c + (d + e);
  }

  /** The text of a member list, taken apart: the key, the value, and what comes after. */
  lemma MembersAt(text: string, i: nat, ms: seq<Member>, close: string, fmt: real -> string)
      returns (colon: nat, after: nat)
    requires ms != [] && (close == "}" || close == ",") && At(text, i, DumpMembers(ms, fmt) + close)
    ensures At(text, i, Quote(ms[0].key)) && colon == i + |Quote(ms[0].key)|
    ensures CharAt(text, colon, ':')
    ensures At(text, colon + 1, Dump(ms[0].value, fmt)) && after == colon + 1 + |Dump(ms[0].value, fmt)|
    ensures if |ms| == 1 then CharAt(text, after, close[0]) && after == i + |DumpMembers(ms, fmt)|
            else CharAt(text, after, ',') && At(text, after + 1, DumpMembers(ms[1..], fmt) + close) &&
                 after + 1 + |DumpMembers(ms[1..], fmt)| == i + |DumpMembers(ms, fmt)|
    ensures EndsNumber(text, after)
  {
    hide At, Dump, DumpMembers, Quote;
    var key, value := Quote(ms[0].key), Dump(ms[0].value, fmt);
    var tail := MembersText(ms, close, fmt);
    AtConcat(text, i, key, ":" + (value + tail));
    colon := i + |key|;
    AtConcat(text, colon, ":", value + tail);
    AtChar(text, colon, ":");
    AtConcat(text, colon + 1, value, tail);
    after := colon + 1 + |value|;
    AtChar(text, after, tail);
    if |ms| > 1 {
      AtConcat(text, after, ",", DumpMembers(ms[1..], fmt) + close);
    }
  }

  lemma QuoteHead(s: string)
    ensures Quote(s) != "" && Quote(s)[0] == '\"'
  {
    hide Escape;
  }

  /** One turn of the parser's member loop. */
  lemma ObjStep(text: string, i: nat, depth: nat, maxDepth: nat, acc: seq<Member>,
                key: string, colon: nat, v: Json, after: nat)
    requires CharAt(text, i, '\"') && ParseStr(text, i) == Ok(key, colon) && CharAt(text, colon, ':')
    requires ParseVal(text, colon + 1, depth + 1, maxDepth) == Ok(v, after) && !HasKey(acc, key)
    ensures CharAt(text, after, ',') ==>
              ObjLoop(text, i, depth, maxDepth, acc) == ObjLoop(text, after + 1, depth, maxDepth, acc + [Member(key, v)])
    ensures CharAt(text, after, '}') ==>
              ObjLoop(text, i, depth, maxDepth, acc) == Ok(Obj(acc + [Member(key, v)]), after + 1)
  {
    hide ParseVal, ParseStr;
    assert SkipWs(text, i) == i && SkipWs(text, colon) == colon;
    if CharAt(text, after, ',') || CharAt(text, after, '}') {
      assert SkipWs(text, after) == after;
    }
  }

  /** One turn of the parser's item loop. */
  lemma ArrStep(text: string, i: nat, depth: nat, maxDepth: nat, acc: seq<Json>, v: Json, after: nat)
    requires i <= |text| && ParseVal(text, i, depth + 1, maxDepth) == Ok(v, after)
    ensures CharAt(text, after, ',') ==>
              ArrLoop(text, i, depth, maxDepth, acc) == ArrLoop(text, after + 1, depth, maxDepth, acc + [v])
    ensures CharAt(text, after, ']') ==>
              ArrLoop(text, i, depth, maxDepth, acc) == Ok(Arr(acc + [v]), after + 1)
  {
    hide ParseVal;
    if CharAt(text, after, ',') || CharAt(text, after, ']') {
      assert SkipWs(text, after) == after;
    }
  }

  lemma {:induction false} ParseDumpMembers(text: string, i: nat, ms: seq<Member>, done: seq<Member>,
                                            fmt: real -> string, depth: nat, maxDepth: nat)
    requires ms != [] && At(text, i, DumpMembers(ms, fmt) + "}")
    requires DistinctKeys(done + ms) && forall k | 0 <= k < |ms| :: Plain(ms[k].value)
    requires depth + MembersDepth(ms) <= maxDepth
    ensures ObjLoop(text, i, depth, maxDepth, done) == Ok(Obj(done + ms), i + |DumpMembers(ms, fmt)| + 1)
    decreases ms, 0
  {
    hide ParseVal, ObjLoop, DumpMembers, Dump, Plain, Quote;
    var colon, after := MembersAt(text, i, ms, "}", fmt);
    assert Plain(ms[0].value);
    ParseDump(text, colon + 1, ms[0].value, fmt, depth + 1, maxDepth);
    NewKey(done, ms);
    ParseQuoted(text, i, ms[0].key);
    QuoteHead(ms[0].key);
    AtChar(text, i, Quote(ms[0].key));
    ObjStep(text, i, depth, maxDepth, done, ms[0].key, colon, ms[0].value, after);
    if |ms| > 1 {
      assert done + [ms[0]] + ms[1..] == done + ms;
      ParseDumpMembers(text, after + 1, ms[1..], done + [ms[0]], fmt, depth, maxDepth);
    } else {
      assert ms == [ms[0]];
    }
  }

  /** The parser's loop walks over printed members that are followed by a comma. */
  lemma {:induction false} WalkMembers(text: string, i: nat, ms: seq<Member>, done: seq<Member>,
                                       fmt: real -> string, depth: nat, maxDepth: nat)
    requires ms != [] && At(text, i, DumpMembers(ms, fmt) + ",")
    requires DistinctKeys(done + ms) && forall k | 0 <= k < |ms| :: Plain(ms[k].value)
    requires depth + MembersDepth(ms) <= maxDepth
    ensures i + |DumpMembers(ms, fmt)| + 1 <= |text|
    ensures ObjLoop(text, i, depth, maxDepth, done) ==
            ObjLoop(text, i + |DumpMembers(ms, fmt)| + 1, depth, maxDepth, done + ms)
    decreases ms, 0
  {
    hide ParseVal, ObjLoop, DumpMembers, Dump, Plain, Quote;
    var colon, after := MembersAt(text, i, ms, ",", fmt);
    assert Plain(ms[0].value);
    ParseDump(text, colon + 1, ms[0].value, fmt, depth + 1, maxDepth);
    NewKey(done, ms);
    ParseQuoted(text, i, ms[0].key);
    QuoteHead(ms[0].key);
    AtChar(text, i, Quote(ms[0].key));
    ObjStep(text, i, depth, maxDepth, done, ms[0].key, colon, ms[0].value, after);
    if |ms| > 1 {
      assert done + [ms[0]] + ms[1..] == done + ms;
      WalkMembers(text, after + 1, ms[1..], done + [ms[0]], fmt, depth, maxDepth);
    } else {
      assert ms == [ms[0]];
    }
  }

  lemma NewKey(done: seq<Member>, ms: seq<Member>)
    requires ms != [] && DistinctKeys(done + ms)
    ensures !HasKey(done, ms[0].key)
  {
    assert (done + ms)[|done|] == ms[0];
    assert forall k | 0 <= k < |done| :: (done + ms)[k] == done[k];
  }

  lemma ItemsAt(text: string, i: nat, vs: seq<Json>, fmt: real -> string) returns (after: nat)
    requires vs != [] && At(text, i, DumpItems(vs, fmt) + "]")
    ensures At(text, i, Dump(vs[0], fmt)) && after == i + |Dump(vs[0], fmt)|
    ensures if |vs| == 1 then CharAt(text, after, ']') && after + 1 == i + |DumpItems(vs, fmt)| + 1
            else CharAt(text, after, ',') && At(text, after + 1, DumpItems(vs[1..], fmt) + "]") &&
                 after + 1 + |DumpItems(vs[1..], fmt)| == i + |DumpItems(vs, fmt)|
    ensures EndsNumber(text, after)
  {
    hide Dump;
    var value := Dump(vs[0], fmt);
    var tail := if |vs| == 1 then "]" else "," + (DumpItems(vs[1..], fmt) + "]");
    assert DumpItems(vs, fmt) + "]" == value + tail;
    AtConcat(text, i, value, tail);
    after := i + |value|;
    AtChar(text, after, tail);
    if |vs| > 1 {
      AtConcat(text, after, ",", DumpItems(vs[1..], fmt) + "]");
    }
  }

  lemma {:induction false} ParseDumpItems(text: string, i: nat, vs: seq<Json>, done: seq<Json>,
                                          fmt: real -> string, depth: nat, maxDepth: nat)
    requires vs != [] && At(text, i, DumpItems(vs, fmt) + "]")
    requires forall k | 0 <= k < |vs| :: Plain(vs[k])
    requires depth + ItemsDepth(vs) <= maxDepth
    ensures ArrLoop(text, i, depth, maxDepth, done) == Ok(Arr(done + vs), i + |DumpItems(vs, fmt)| + 1)
    decreases vs, 0
  {
    hide ParseVal, ArrLoop, DumpItems, Dump, Plain;
    var after := ItemsAt(text, i, vs, fmt);
    assert Plain(vs[0]);
    ParseDump(text, i, vs[0], fmt, depth + 1, maxDepth);
    ArrStep(text, i, depth, maxDepth, done, vs[0], after);
    if |vs| > 1 {
      assert done + [vs[0]] + vs[1..] == done + vs;
      ParseDumpItems(text, after + 1, vs[1..], done + [vs[0]], fmt, depth, maxDepth);
    } else {
      assert vs == [vs[0]];
    }
  }

  // ---- too deep ----------------------------------------------------------------------------

  lemma {:induction false} ParseTooDeep(text: string, i: nat, v: Json, fmt: real -> string, depth: nat, maxDepth: nat)
    requires Plain(v) && At(text, i, Dump(v, fmt)) && EndsNumber(text, i + |Dump(v, fmt)|)
    requires depth + Depth(v) > maxDepth
    ensures ParseVal(text, i, depth, maxDepth).Err?
    decreases v, 1
  {
    if depth <= maxDepth {
      hide ParseVal, ObjLoop, ArrLoop, Dump, DumpMembers, DumpItems, EndsNumber, At;
      if v.Obj? {
        OpenObj(text, i, v.members, fmt, depth, maxDepth);
        MembersTooDeep(text, i + 1, v.members, [], fmt, depth, maxDepth);
      } else {
        OpenArr(text, i, v.items, fmt, depth, maxDepth);
        ItemsTooDeep(text, i + 1, v.items, [], fmt, depth, maxDepth);
      }
    }
  }

  lemma {:induction false} MembersTooDeep(text: string, i: nat, ms: seq<Member>, done: seq<Member>,
                                          fmt: real -> string, depth: nat, maxDepth: nat)
    requires ms != [] && At(text, i, DumpMembers(ms, fmt) + "}")
    requires DistinctKeys(done + ms) && forall k | 0 <= k < |ms| :: Plain(ms[k].value)
    requires depth <= maxDepth < depth + MembersDepth(ms)
    ensures ObjLoop(text, i, depth, maxDepth, done).Err?
    decreases ms, 0
  {
    hide ParseVal, ObjLoop, DumpMembers, Dump, Plain, Quote, EndsNumber;
    var colon, after := MembersAt(text, i, ms, "}", fmt);
    assert Plain(ms[0].value);
    NewKey(done, ms);
    ParseQuoted(text, i, ms[0].key);
    QuoteHead(ms[0].key);
    AtChar(text, i, Quote(ms[0].key));
    if depth + 1 + Depth(ms[0].value) > maxDepth {
      ParseTooDeep(text, colon + 1, ms[0].value, fmt, depth + 1, maxDepth);
      ObjStepErr(text, i, depth, maxDepth, done, ms[0].key, colon);
    } else {
      ParseDump(text, colon + 1, ms[0].value, fmt, depth + 1, maxDepth);
      ObjStep(text, i, depth, maxDepth, done, ms[0].key, colon, ms[0].value, after);
      assert |ms| > 1;
      assert done + [ms[0]] + ms[1..] == done + ms;
      MembersTooDeep(text, after + 1, ms[1..], done + [ms[0]], fmt, depth, maxDepth);
    }
  }

  lemma ObjStepErr(text: string, i: nat, depth: nat, maxDepth: nat, acc: seq<Member>, key: string, colon: nat)
    requires CharAt(text, i, '\"') && ParseStr(text, i) == Ok(key, colon) && CharAt(text, colon, ':')
    requires ParseVal(text, colon + 1, depth + 1, maxDepth).Err?
    ensures ObjLoop(text, i, depth, maxDepth, acc).Err?
  {
    hide ParseVal, ParseStr;
    assert SkipWs(text, i) == i && SkipWs(text, colon) == colon;
  }

  lemma {:induction false} ItemsTooDeep(text: string, i: nat, vs: seq<Json>, done: seq<Json>,
                                        fmt: real -> string, depth: nat, maxDepth: nat)
    requires vs != [] && At(text, i, DumpItems(vs, fmt) + "]")
    requires forall k | 0 <= k < |vs| :: Plain(vs[k])
    requires depth <= maxDepth < depth + ItemsDepth(vs)
    ensures ArrLoop(text, i, depth, maxDepth, done).Err?
    decreases vs, 0
  {
    hide ParseVal, DumpItems, Dump, Plain, EndsNumber;
    var after := ItemsAt(text, i, vs, fmt);
    assert Plain(vs[0]);
    if depth + 1 + Depth(vs[0]) > maxDepth {
      ParseTooDeep(text, i, vs[0], fmt, depth + 1, maxDepth);
    } else {
      ParseDump(text, i, vs[0], fmt, depth + 1, maxDepth);
      ArrStep(text, i, depth, maxDepth, done, vs[0], after);
      ItemsTooDeep(text, after + 1, vs[1..], done + [vs[0]], fmt, depth, maxDepth);
    }
  }

  // ---- what the parser can return ----------------------------------------------------------

  /** A member list that may stand in an object at nesting level `depth`. */
  predicate GoodMembers(ms: seq<Member>, depth: nat, maxDepth: nat) {
    DistinctKeys(ms) &&
    forall k | 0 <= k < |ms| :: UniqueKeys(ms[k].value) && depth + 1 + Depth(ms[k].value) <= maxDepth
  }

  predicate GoodItems(vs: seq<Json>, depth: nat, maxDepth: nat) {
    forall k | 0 <= k < |vs| :: UniqueKeys(vs[k]) && depth + 1 + Depth(vs[k]) <= maxDepth
  }

  lemma {:induction false} GoodMembersDepth(ms: seq<Member>, depth: nat, maxDepth: nat)
    requires GoodMembers(ms, depth, maxDepth) && depth <= maxDepth
    ensures depth + MembersDepth(ms) <= maxDepth
  {
    if ms != [] { GoodMembersDepth(ms[1..], depth, maxDepth); }
  }

  lemma {:induction false} GoodItemsDepth(vs: seq<Json>, depth: nat, maxDepth: nat)
    requires GoodItems(vs, depth, maxDepth) && depth <= maxDepth
    ensures depth + ItemsDepth(vs) <= maxDepth
  {
    if vs != [] { GoodItemsDepth(vs[1..], depth, maxDepth); }
  }

  lemma SetGoodMembers(ms: seq<Member>, key: string, v: Json, depth: nat, maxDepth: nat)
    requires GoodMembers(ms, depth, maxDepth) && UniqueKeys(v) && depth + 1 + Depth(v) <= maxDepth
    ensures GoodMembers(SetMember(ms, key, v), depth, maxDepth)
  {
    SetMemberDistinct(ms, key, v);
    var r := SetMember(ms, key, v);
    forall k | 0 <= k < |r|
      ensures UniqueKeys(r[k].value) && depth + 1 + Depth(r[k].value) <= maxDepth
    {
      SetMemberIn(ms, key, v, r[k]);
    }
  }

  /** Whatever the text, a parsed value never repeats a key and never nests beyond the limit. */
  lemma {:induction false} ParsedShape(text: string, i: nat, depth: nat, maxDepth: nat)
    requires i <= |text|
    ensures var r := ParseVal(text, i, depth, maxDepth);
            r.Ok? ==> UniqueKeys(r.value) && depth + Depth(r.value) <= maxDepth
    decreases |text| - i, 0
  {
    hide ObjLoop, ArrLoop, ParseNum, ParseStr;
    if depth <= maxDepth {
      var i0 := SkipWs(text, i);
      if CharAt(text, i0, '{') {
        ObjLoopShape(text, SkipWs(text, i0 + 1), depth, maxDepth, []);
      } else if CharAt(text, i0, '[') {
        ArrLoopShape(text, SkipWs(text, i0 + 1), depth, maxDepth, []);
      } else if i0 < |text| && ParseNum(text, i0).Ok? {
        assert ParseNum(text, i0).value.Int? || ParseNum(text, i0).value.Num? by { NumShapes(text, i0); }
      }
    }
  }

  lemma NumShapes(text: string, i: nat)
    requires i <= |text| && ParseNum(text, i).Ok?
    ensures ParseNum(text, i).value.Int? || ParseNum(text, i).value.Num?
  {
    hide LexNum, DecimalValue, NatOf;
  }

  lemma {:induction false} MemberShape(text: string, i: nat, depth: nat, maxDepth: nat)
    requires i <= |text|
    ensures var r := ParseMember(text, i, depth, maxDepth);
            r.Ok? ==> UniqueKeys(r.value.value) && depth + 1 + Depth(r.value.value) <= maxDepth
    decreases |text| - i, 1
  {
    hide ParseVal, ParseStr;
    var k := ParseStr(text, SkipWs(text, i));
    if k.Ok? && CharAt(text, SkipWs(text, k.next), ':') {
      ParsedShape(text, SkipWs(text, k.next) + 1, depth + 1, maxDepth);
    }
  }

  lemma {:induction false} ObjLoopShape(text: string, i: nat, depth: nat, maxDepth: nat, acc: seq<Member>)
    requires i <= |text| && depth <= maxDepth && GoodMembers(acc, depth, maxDepth)
    ensures var r := ObjLoop(text, i, depth, maxDepth, acc);
            r.Ok? ==> UniqueKeys(r.value) && depth + Depth(r.value) <= maxDepth
    decreases |text| - i, 2
  {
    hide ParseMember, GoodMembers, SetMember;
    MemberShape(text, i, depth, maxDepth);
    var m := ParseMember(text, i, depth, maxDepth);
    if m.Ok? {
      var ms := SetMember(acc, m.value.key, m.value.value);
      SetGoodMembers(acc, m.value.key, m.value.value, depth, maxDepth);
      var i4 := SkipWs(text, m.next);
      if CharAt(text, i4, ',') {
        ObjLoopShape(text, i4 + 1, depth, maxDepth, ms);
      } else if CharAt(text, i4, '}') {
        GoodMembersDepth(ms, depth, maxDepth);
        GoodObj(ms, depth, maxDepth);
      }
    }
  }

  lemma GoodObj(ms: seq<Member>, depth: nat, maxDepth: nat)
    requires GoodMembers(ms, depth, maxDepth)
    ensures UniqueKeys(Obj(ms))
  {}

  lemma {:induction false} ArrLoopShape(text: string, i: nat, depth: nat, maxDepth: nat, acc: seq<Json>)
    requires i <= |text| && depth <= maxDepth && GoodItems(acc, depth, maxDepth)
    ensures var r := ArrLoop(text, i, depth, maxDepth, acc);
            r.Ok? ==> UniqueKeys(r.value) && depth + Depth(r.value) <= maxDepth
    decreases |text| - i, 1
  {
    hide ParseVal;
    ParsedShape(text, i, depth + 1, maxDepth);
    var v := ParseVal(text, i, depth + 1, maxDepth);
    if v.Ok? {
      var vs := acc + [v.value];
      var i2 := SkipWs(text, v.next);
      if CharAt(text, i2, ',') {
        ArrLoopShape(text, i2 + 1, depth, maxDepth, vs);
      } else if CharAt(text, i2, ']') {
        GoodItemsDepth(vs, depth, maxDepth);
      }
    }
  }

  // ---- the theorems ------------------------------------------------------------------------

  /** Printing then parsing gives the value back exactly when it repeats no key and nests no
      deeper than the parser allows (64 on every caller of the fleet link). */
  lemma RoundTrip(v: Json, fmt: real -> string, maxDepth: nat)
    requires NoNum(v)
    ensures Parse(Dump(v, fmt), maxDepth) == Some(v) <==> UniqueKeys(v) && Depth(v) <= maxDepth
  {
    hide ParseVal, Dump, Depth, UniqueKeys, NoNum;
    var text := Dump(v, fmt);
    assert text[0..|text|] == text;
    ParsedShape(text, 0, 0, maxDepth);
    if UniqueKeys(v) {
      if Depth(v) <= maxDepth {
        ParseDump(text, 0, v, fmt, 0, maxDepth);
      } else {
        ParseTooDeep(text, 0, v, fmt, 0, maxDepth);
      }
    }
  }

  /** Re-printing what was parsed is a fixed point: a double-free value read from any text
      survives any number of print and parse rounds. */
  lemma Canonical(text: string, fmt: real -> string, maxDepth: nat)
    requires Parse(text, maxDepth).Some? && NoNum(Parse(text, maxDepth).value)
    ensures Parse(Dump(Parse(text, maxDepth).value, fmt), maxDepth) == Parse(text, maxDepth)
  {
    hide ParseVal, Dump, Depth, UniqueKeys, NoNum;
    ParsedShape(text, 0, 0, maxDepth);
    RoundTrip(Parse(text, maxDepth).value, fmt, maxDepth);
  }

  /** At one place of a text there is at most one printed double-free value. */
  lemma {:induction false} DumpUnique(text: string, i: nat, a: Json, b: Json, fmt: real -> string)
    requires NoNum(a) && At(text, i, Dump(a, fmt)) && EndsNumber(text, i + |Dump(a, fmt)|)
    requires NoNum(b) && At(text, i, Dump(b, fmt)) && EndsNumber(text, i + |Dump(b, fmt)|)
    ensures a == b
    decreases a, 1
  {
    hide ParseVal, ObjLoop, ArrLoop, Dump, DumpMembers, DumpItems, EndsNumber, At;
    DumpHead(a, fmt);
    DumpHead(b, fmt);
    AtChar(text, i, Dump(a, fmt));
    AtChar(text, i, Dump(b, fmt));
    if a.Obj? {
      OpenObj(text, i, a.members, fmt, 0, 0);
      OpenObj(text, i, b.members, fmt, 0, 0);
      MembersUnique(text, i + 1, a.members, b.members, fmt);
    } else if a.Arr? {
      OpenArr(text, i, a.items, fmt, 0, 0);
      OpenArr(text, i, b.items, fmt, 0, 0);
      ItemsUnique(text, i + 1, a.items, b.items, fmt);
    } else {
      ParseScalar(text, i, a, fmt, 0, 0);
      ParseScalar(text, i, b, fmt, 0, 0);
    }
  }

  lemma {:induction false} MembersUnique(text: string, i: nat, ms: seq<Member>, ns: seq<Member>, fmt: real -> string)
    requires At(text, i, DumpMembers(ms, fmt) + "}") && At(text, i, DumpMembers(ns, fmt) + "}")
    requires (forall k | 0 <= k < |ms| :: NoNum(ms[k].value)) && (forall k | 0 <= k < |ns| :: NoNum(ns[k].value))
    ensures ms == ns
    decreases ms, 0
  {
    hide DumpMembers, Dump, Quote, At, NoNum, ParseStr;
    MembersHead(ms, fmt);
    MembersHead(ns, fmt);
    AtChar(text, i, DumpMembers(ms, fmt) + "}");
    AtChar(text, i, DumpMembers(ns, fmt) + "}");
    if ms != [] && ns != [] {
      var colon, after := MembersAt(text, i, ms, "}", fmt);
      var colon', after' := MembersAt(text, i, ns, "}", fmt);
      ParseQuoted(text, i, ms[0].key);
      ParseQuoted(text, i, ns[0].key);
      DumpUnique(text, colon + 1, ms[0].value, ns[0].value, fmt);
      assert ms[0] == ns[0];
      if |ms| > 1 && |ns| > 1 { MembersUnique(text, after + 1, ms[1..], ns[1..], fmt); }
      assert ms == [ms[0]] + ms[1..] && ns == [ns[0]] + ns[1..];
    }
  }

  lemma {:induction false} ItemsUnique(text: string, i: nat, vs: seq<Json>, us: seq<Json>, fmt: real -> string)
    requires At(text, i, DumpItems(vs, fmt) + "]") && At(text, i, DumpItems(us, fmt) + "]")
    requires (forall k | 0 <= k < |vs| :: NoNum(vs[k])) && (forall k | 0 <= k < |us| :: NoNum(us[k]))
    ensures vs == us
    decreases vs, 0
  {
    hide DumpItems, Dump, At, NoNum;
    ItemsHead(vs, fmt);
    ItemsHead(us, fmt);
    AtChar(text, i, DumpItems(vs, fmt) + "]");
    AtChar(text, i, DumpItems(us, fmt) + "]");
    if vs != [] && us != [] {
      var after := ItemsAt(text, i, vs, fmt);
      var after' := ItemsAt(text, i, us, fmt);
      DumpUnique(text, i, vs[0], us[0], fmt);
      if |vs| > 1 && |us| > 1 { ItemsUnique(text, after + 1, vs[1..], us[1..], fmt); }
      assert vs == [vs[0]] + vs[1..] && us == [us[0]] + us[1..];
    }
  }

  /** Two double-free values with the same dump are the same value, repeated keys and all. */
  lemma DumpInjective(a: Json, b: Json, fmt: real -> string)
    requires NoNum(a) && NoNum(b) && Dump(a, fmt) == Dump(b, fmt)
    ensures a == b
  {
    hide Dump;
    var text := Dump(a, fmt);
    assert text[0..|text|] == text;
    DumpUnique(text, 0, a, b, fmt);
  }

  /** No byte below 0x20: in particular no newline, so a dump is one line of a log. */
  predicate NoControl(s: string) { forall k | 0 <= k < |s| :: s[k] as int >= 0x20 }

  lemma {:induction false} EscapeNoControl(s: string)
    ensures NoControl(Escape(s))
  {
    if s != "" {
      EscapeCharShape(s[0]);
      EscapeNoControl(s[1..]);
    }
  }

  lemma PrintIntNoControl(n: int)
    ensures NoControl(PrintInt(n))
  {
    var digits := PrintIntDigits(n);
  }

  lemma {:induction false} DumpNoControl(v: Json, fmt: real -> string)
    requires NoNum(v)
    ensures NoControl(Dump(v, fmt))
    decreases v, 1
  {
    match v
    case Int(n) => PrintIntNoControl(n);
    case Str(s) => EscapeNoControl(s);
    case Obj(ms) => MembersNoControl(ms, fmt);
    case Arr(vs) => ItemsNoControl(vs, fmt);
    case _ =>
  }

  lemma {:induction false} MembersNoControl(ms: seq<Member>, fmt: real -> string)
    requires forall k | 0 <= k < |ms| :: NoNum(ms[k].value)
    ensures NoControl(DumpMembers(ms, fmt))
    decreases ms, 0
  {
    if ms != [] {
      hide Dump;
      EscapeNoControl(ms[0].key);
      DumpNoControl(ms[0].value, fmt);
      MembersNoControl(ms[1..], fmt);
    }
  }

  lemma {:induction false} ItemsNoControl(vs: seq<Json>, fmt: real -> string)
    requires forall k | 0 <= k < |vs| :: NoNum(vs[k])
    ensures NoControl(DumpItems(vs, fmt))
    decreases vs, 0
  {
    if vs != [] {
      hide Dump;
      DumpNoControl(vs[0], fmt);
      ItemsNoControl(vs[1..], fmt);
    }
  }
}
