/** The parser and the printer in the form the source has them: a cursor moved by loops, and text
    appended to an output string. Each is proved equal to its function in `JsonText`. */
module JsonParser {
  import opened JsonValue
  import opened JsonText

  class Parser {
    const text: string
    const maxDepth: nat
    var i: nat

    constructor (text: string, maxDepth: nat)
      ensures this.text == text && this.maxDepth == maxDepth && i == 0
    {
      this.text, this.maxDepth, i := text, maxDepth, 0;
    }

    method Ws()
      requires i <= |text|
      modifies this
      ensures i == SkipWs(text, old(i))
    {
      while i < |text| && IsWs(text[i])
        invariant i <= |text| && SkipWs(text, i) == SkipWs(text, old(i))
      {
        i := i + 1;
      }
    }

    method SkipRun()
      requires i <= |text|
      modifies this
      ensures i == SkipDigits(text, old(i))
    {
      while i < |text| && IsDigit(text[i])
        invariant i <= |text| && SkipDigits(text, i) == SkipDigits(text, old(i))
      {
        i := i + 1;
      }
    }

    method ReadHex4() returns (ok: bool, v: nat)
      requires i <= |text|
      modifies this
      ensures i <= |text|
      ensures match Hex4(text, old(i))
              case Ok(n, next) => ok && v == n && i == next
              case Err => !ok
    {
      ok, v := i + 4 <= |text|, 0;
      if !ok { return; }
      var start := i;
      for k := 0 to 4
        invariant i == start + k && old(i) == start && start + 4 <= |text|
        invariant forall j | start <= j < i :: HexVal(text[j]).Some?
        invariant k == 1 ==> v == HexVal(text[start]).value
        invariant k == 2 ==> v == HexVal(text[start]).value * 0x10 + HexVal(text[start + 1]).value
        invariant k == 3 ==> v == HexVal(text[start]).value * 0x100 + HexVal(text[start + 1]).value * 0x10
                                  + HexVal(text[start + 2]).value
        invariant k == 4 ==> v == HexVal(text[start]).value * 0x1000 + HexVal(text[start + 1]).value * 0x100
                                  + HexVal(text[start + 2]).value * 0x10 + HexVal(text[start + 3]).value
        invariant k == 0 ==> v == 0
      {
        var h := HexVal(text[i]);
        i := i + 1;
        if h.None? { ok := false; return; }
        v := v * 16 + h.value;
      }
    }

    method ReadUnicode() returns (ok: bool, piece: string)
      requires i <= |text|
      modifies this
      ensures i <= |text|
      ensures match UnicodeEscape(text, old(i))
              case Ok(s, next) => ok && piece == s && i == next
              case Err => !ok
    {
      hide PutUtf8, Hex4;
      var cp;
      piece := "";
      ok, cp := ReadHex4();
      if !ok { return; }
      if 0xD800 <= cp <= 0xDBFF {
        if i + 2 <= |text| && text[i] == '\\' && text[i + 1] == 'u' {
          i := i + 2;
          var lo;
          ok, lo := ReadHex4();
          if !ok { return; }
          if 0xDC00 <= lo <= 0xDFFF {
            cp := 0x10000 + (cp - 0xD800) * 0x400 + (lo - 0xDC00);
          } else {
            piece := PutUtf8(0xFFFD);
            cp := lo;
          }
        } else {
          cp := 0xFFFD;
        }
      } else if 0xDC00 <= cp <= 0xDFFF {
        cp := 0xFFFD;
      }
      piece := piece + PutUtf8(cp);
      assert forall s: string :: "" + s == s;
    }

    method ReadStr() returns (ok: bool, s: string)
      requires i <= |text|
      modifies this
      ensures i <= |text|
      ensures match ParseStr(text, old(i))
              case Ok(v, next) => ok && s == v && i == next
              case Err => !ok
    {
      s := "";
      ok := CharAt(text, i, '\"');
      if !ok { return; }
      hide UnicodeEscape;
      i := i + 1;
      while i < |text|
        invariant i <= |text| && ok
        invariant StrLoop(text, i, s) == ParseStr(text, old(i))
      {
        var c := text[i];
        i := i + 1;
        if c == '\"' { return; }
        if c as int < 0x20 { ok := false; return; }
        if c != '\\' {
          s := s + [c];
          continue;
        }
        if i >= |text| { break; }
        var e := text[i];
        i := i + 1;
        match e
        case '\"' => s := s + "\"";
        case '\\' => s := s + "\\";
        case '/' => s := s + "/";
        case 'b' => s := s + [8 as char];
        case 'f' => s := s + [12 as char];
        case 'n' => s := s + "\n";
        case 'r' => s := s + "\r";
        case 't' => s := s + "\t";
        case 'u' =>
          var piece;
          ok, piece := ReadUnicode();
          if !ok { return; }
          s := s + piece;
        case _ => ok := false; return;
      }
      ok := false;
    }

    method Fraction() returns (ok: bool)
      requires i <= |text|
      modifies this
      ensures i <= |text|
      ensures match LexFraction(text, old(i))
              case Some(end) => ok && i == end
              case None => !ok
    {
      hide SkipDigits;
      ok := true;
      if i < |text| && text[i] == '.' {
        i := i + 1;
        var f := i;
        SkipRun();
        ok := i != f;
      }
    }

    method Exponent() returns (ok: bool)
      requires i <= |text|
      modifies this
      ensures i <= |text|
      ensures match LexExponent(text, old(i))
              case Some(end) => ok && i == end
              case None => !ok
    {
      hide SkipDigits;
      ok := true;
      if i < |text| && (text[i] == 'e' || text[i] == 'E') {
        i := i + 1;
        if i < |text| && (text[i] == '+' || text[i] == '-') { i := i + 1; }
        var e := i;
        SkipRun();
        ok := i != e;
      }
    }

    method Lex() returns (r: Option<NumShape>)
      requires i <= |text|
      modifies this
      ensures i <= |text| && r == LexNum(text, old(i))
      ensures r.Some? ==> i == r.value.end
    {
      hide SkipDigits, LexFraction, LexExponent;
      r := None;
      var negative := CharAt(text, i, '-');
      if negative { i := i + 1; }
      var digits := i;
      SkipRun();
      if i == digits { return; }
      var fraction := i;
      var isFloat := CharAt(text, i, '.');
      var ok := Fraction();
      if !ok { return; }
      var exponent := i;
      if HasExponent(text, i) { isFloat := true; }
      ok := Exponent();
      if !ok { return; }
      r := Some(NumShape(negative, digits, fraction, exponent, isFloat, i));
    }

    method ReadNum() returns (ok: bool, v: Json)
      requires i <= |text|
      modifies this
      ensures i <= |text|
      ensures match ParseNum(text, old(i))
              case Ok(n, next) => ok && v == n && i == next
              case Err => !ok
    {
      hide LexNum, DecimalValue, NatOf;
      var n := Lex();
      ok, v := n.Some?, Null;
      if !ok { return; }
      if !n.value.isFloat {
        var whole := SignedNat(n.value.negative, NatOf(text[n.value.digits..n.value.end]));
        if INT64_MIN <= whole <= INT64_MAX {
          v := Int(whole);
          return;
        }
      }
      v := Num(DecimalValue(text, n.value));
    }

    method ReadLit(word: string, value: Json) returns (ok: bool, v: Json)
      requires i <= |text| && word != ""
      modifies this
      ensures i <= |text|
      ensures match ParseLit(text, old(i), word, value)
              case Ok(n, next) => ok && v == n && i == next
              case Err => !ok
    {
      v := value;
      ok := i + |word| <= |text| && text[i..i + |word|] == word;
      if ok { i := i + |word|; }
    }

    method ReadVal(depth: nat) returns (ok: bool, v: Json)
      requires i <= |text|
      modifies this
      ensures i <= |text|
      ensures match ParseVal(text, old(i), depth, maxDepth)
              case Ok(n, next) => ok && v == n && i == next
              case Err => !ok
      decreases |text| - i, 0
    {
      hide ParseStr, ParseNum, ParseLit;
      ok, v := false, Null;
      if depth > maxDepth { return; }
      Ws();
      if i >= |text| { return; }
      match text[i]
      case '{' =>
        i := i + 1;
        Ws();
        if CharAt(text, i, '}') {
          i := i + 1;
          ok, v := true, Obj([]);
          return;
        }
        ok, v := ReadMembers(depth);
      case '[' =>
        i := i + 1;
        Ws();
        if CharAt(text, i, ']') {
          i := i + 1;
          ok, v := true, Arr([]);
          return;
        }
        ok, v := ReadItems(depth);
      case '\"' =>
        var s;
        ok, s := ReadStr();
        v := Str(s);
      case 't' => ok, v := ReadLit("true", Bool(true));
      case 'f' => ok, v := ReadLit("false", Bool(false));
      case 'n' => ok, v := ReadLit("null", Null);
      case _ => ok, v := ReadNum();
    }

    method ReadMember(depth: nat) returns (ok: bool, m: Member)
      requires i <= |text|
      modifies this
      ensures i <= |text|
      ensures match ParseMember(text, old(i), depth, maxDepth)
              case Ok(n, next) => ok && m == n && i == next
              case Err => !ok
      decreases |text| - i, 1
    {
      hide ParseStr, ParseVal, SkipWs;
      ok, m := false, Member("", Null);
      Ws();
      var good, key := ReadStr();
      if !good { return; }
      Ws();
      if !CharAt(text, i, ':') { return; }
      i := i + 1;
      var value;
      ok, value := ReadVal(depth + 1);
      m := Member(key, value);
    }

    method ReadMembers(depth: nat) returns (ok: bool, v: Json)
      requires i <= |text|
      modifies this
      ensures i <= |text|
      ensures match ObjLoop(text, old(i), depth, maxDepth, [])
              case Ok(n, next) => ok && v == n && i == next
              case Err => !ok
      decreases |text| - i, 2
    {
      hide ParseMember, SkipWs, SetMember;
      ok, v := false, Null;
      var ms := [];
      while true
        invariant old(i) <= i <= |text| && !ok
        invariant ObjLoop(text, i, depth, maxDepth, ms) == ObjLoop(text, old(i), depth, maxDepth, [])
        decreases |text| - i
      {
        var good, m := ReadMember(depth);
        if !good { return; }
        ms := SetMember(ms, m.key, m.value);
        Ws();
        if CharAt(text, i, ',') {
          i := i + 1;
          continue;
        }
        if CharAt(text, i, '}') {
          i := i + 1;
          ok, v := true, Obj(ms);
        }
        return;
      }
    }

    method ReadItems(depth: nat) returns (ok: bool, v: Json)
      requires i <= |text|
      modifies this
      ensures i <= |text|
      ensures match ArrLoop(text, old(i), depth, maxDepth, [])
              case Ok(n, next) => ok && v == n && i == next
              case Err => !ok
      decreases |text| - i, 1
    {
      hide ParseVal, SkipWs;
      ok, v := false, Null;
      var vs := [];
      while true
        invariant old(i) <= i <= |text| && !ok
        invariant ArrLoop(text, i, depth, maxDepth, vs) == ArrLoop(text, old(i), depth, maxDepth, [])
        decreases |text| - i
      {
        var good, value := ReadVal(depth + 1);
        if !good { return; }
        vs := vs + [value];
        Ws();
        if CharAt(text, i, ',') {
          i := i + 1;
          continue;
        }
        if CharAt(text, i, ']') {
          i := i + 1;
          ok, v := true, Arr(vs);
        }
        return;
      }
    }
  }

  /** Exactly one JSON value, or nothing. */
  method ParseText(text: string, maxDepth: nat) returns (r: Option<Json>)
    ensures r == Parse(text, maxDepth)
  {
    var p := new Parser(text, maxDepth);
    var ok, v := p.ReadVal(0);
    r := None;
    if ok {
      p.Ws();
      if p.i == |text| { r := Some(v); }
    }
  }

  method AppendQuoted(out: string, s: string) returns (r: string)
    ensures r == out + Quote(s)
  {
    hide EscapeChar;
    r := out + "\"";
    var k := 0;
    while k < |s|
      invariant k <= |s|
      invariant r + Escape(s[k..]) == out + "\"" + Escape(s)
    {
      assert s[k..][1..] == s[k + 1..];
      assert r + Escape(s[k..]) == (r + EscapeChar(s[k])) + Escape(s[k + 1..]);
      r := r + EscapeChar(s[k]);
      k := k + 1;
    }
    assert s[k..] == "" && r + "" == r;
    r := r + "\"";
    assert (out + "\"" + Escape(s)) + "\"" == out + ("\"" + Escape(s) + "\"");
  }
}
