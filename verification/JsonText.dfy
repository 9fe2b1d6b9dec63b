/** The JSON printer (plugins/fleet/fleet_json.cpp, AppendQuoted and DumpTo) and the recursive
    descent parser beside it, as functions of the text. `JsonParser` holds the parser as the
    cursor-moving loops the source is made of and proves it against these functions. */
module JsonText {
  import opened JsonValue

  // ---- printing ----------------------------------------------------------------------------

  const HEX := "0123456789abcdef"

  function EscapeChar(c: char): string {
    if c == '\"' then "\\\""
    else if c == '\\' then "\\\\"
    else if c == '\n' then "\\n"
    else if c == '\r' then "\\r"
    else if c == '\t' then "\\t"
    else if c as int == 8 then "\\b"
    else if c as int == 12 then "\\f"
    else if c as int < 0x20 || c as int == 0x7f then "\\u00" + [HEX[c as int / 16], HEX[c as int % 16]]
    else [c]
  }

  function Escape(s: string): string {
    if s == "" then "" else EscapeChar(s[0]) + Escape(s[1..])
  }

  function Quote(s: string): string { "\"" + Escape(s) + "\"" }

  function Digit(d: nat): char
    requires d < 10
  {
    HEX[d]
  }

  function PrintNat(n: nat): string {
    if n < 10 then [Digit(n)] else PrintNat(n / 10) + [Digit(n % 10)]
  }

  function PrintInt(i: int): string {
    if i < 0 then "-" + PrintNat(-i) else PrintNat(i)
  }

  /** `fmt` stands for the C library's rendering of a double. */
  function Dump(v: Json, fmt: real -> string): string
    decreases v, 1
  {
    match v
    case Null => "null"
    case Bool(b) => if b then "true" else "false"
    case Int(i) => PrintInt(i)
    case Num(n) => fmt(n)
    case Str(s) => Quote(s)
    case Obj(ms) => "{" + DumpMembers(ms, fmt) + "}"
    case Arr(vs) => "[" + DumpItems(vs, fmt) + "]"
  }

  function DumpMembers(ms: seq<Member>, fmt: real -> string): string
    decreases ms, 0
  {
    if ms == [] then ""
    else Quote(ms[0].key) + ":" + Dump(ms[0].value, fmt)
         + (if |ms| == 1 then "" else "," + DumpMembers(ms[1..], fmt))
  }

  function DumpItems(vs: seq<Json>, fmt: real -> string): string
    decreases vs, 0
  {
    if vs == [] then ""
    else Dump(vs[0], fmt) + (if |vs| == 1 then "" else "," + DumpItems(vs[1..], fmt))
  }

  // ---- parsing -----------------------------------------------------------------------------

  /** A parsed piece and the offset after it, or a syntax error. */
  datatype Parsed<+T> = Ok(value: T, next: nat) | Err {
    predicate IsFailure() { Err? }
    function PropagateFailure<U>(): Parsed<U> requires Err? { Err }
    function Extract(): (T, nat) requires Ok? { (value, next) }
  }

  predicate IsWs(c: char) { c == ' ' || c == '\t' || c == '\n' || c == '\r' }

  predicate IsDigit(c: char) { '0' <= c <= '9' }

  function SkipWs(text: string, i: nat): (r: nat)
    requires i <= |text|
    ensures i <= r <= |text|
    decreases |text| - i
  {
    if i < |text| && IsWs(text[i]) then SkipWs(text, i + 1) else i
  }

  function SkipDigits(text: string, i: nat): (r: nat)
    requires i <= |text|
    ensures i <= r <= |text|
    ensures forall k | i <= k < r :: IsDigit(text[k])
    ensures r < |text| ==> !IsDigit(text[r])
    decreases |text| - i
  {
    if i < |text| && IsDigit(text[i]) then SkipDigits(text, i + 1) else i
  }

  predicate CharAt(text: string, i: nat, c: char) { i < |text| && text[i] == c }

  /** The text has `piece` at offset `i`. */
  predicate At(text: string, i: nat, piece: string) {
    i + |piece| <= |text| && text[i..i + |piece|] == piece
  }

  function HexVal(c: char): Option<nat> {
    if '0' <= c <= '9' then Some(c as int - '0' as int)
    else if 'a' <= c <= 'f' then Some(c as int - 'a' as int + 10)
    else if 'A' <= c <= 'F' then Some(c as int - 'A' as int + 10)
    else None
  }

  /** Four hex digits, any case. */
  function Hex4(text: string, i: nat): (r: Parsed<nat>)
    ensures r.Ok? ==> r.next == i + 4 <= |text| && r.value < 0x10000
  {
    if i + 4 > |text| then Err
    else
      match (HexVal(text[i]), HexVal(text[i + 1]), HexVal(text[i + 2]), HexVal(text[i + 3]))
      case (Some(a), Some(b), Some(c), Some(d)) => assert a < 16 && b < 16 && c < 16 && d < 16;
        Ok(a * 0x1000 + b * 0x100 + c * 0x10 + d, i + 4)
      case _ => Err
  }

  /** UTF-8 encoding of a code point, as bytes. */
  function PutUtf8(cp: nat): string
    requires cp < 0x110000
  {
    if cp < 0x80 then [cp as char]
    else if cp < 0x800 then [(0xC0 + cp / 0x40) as char, (0x80 + cp % 0x40) as char]
    else if cp < 0x10000 then
      [(0xE0 + cp / 0x1000) as char, (0x80 + cp / 0x40 % 0x40) as char, (0x80 + cp % 0x40) as char]
    else
      [(0xF0 + cp / 0x40000) as char, (0x80 + cp / 0x1000 % 0x40) as char,
       (0x80 + cp / 0x40 % 0x40) as char, (0x80 + cp % 0x40) as char]
  }

  /** What follows `\u`: one code unit, or a surrogate pair; a lone surrogate becomes U+FFFD. */
  function UnicodeEscape(text: string, i: nat): (r: Parsed<string>)
    ensures r.Ok? ==> i < r.next <= |text|
  {
    var (cp, i1) :- Hex4(text, i);
    if 0xD800 <= cp <= 0xDBFF then
      if CharAt(text, i1, '\\') && CharAt(text, i1 + 1, 'u') then
        var (lo, i2) :- Hex4(text, i1 + 2);
        if 0xDC00 <= lo <= 0xDFFF then
          Ok(PutUtf8(0x10000 + (cp - 0xD800) * 0x400 + (lo - 0xDC00)), i2)
        else Ok(PutUtf8(0xFFFD) + PutUtf8(lo), i2)
      else Ok(PutUtf8(0xFFFD), i1)
    else if 0xDC00 <= cp <= 0xDFFF then Ok(PutUtf8(0xFFFD), i1)
    else Ok(PutUtf8(cp), i1)
  }

  /** What follows a backslash. */
  function EscapeSeq(text: string, i: nat): (r: Parsed<string>)
    ensures r.Ok? ==> i < r.next <= |text|
  {
    if i >= |text| then Err
    else
      match text[i]
      case '\"' => Ok("\"", i + 1)
      case '\\' => Ok("\\", i + 1)
      case '/' => Ok("/", i + 1)
      case 'b' => Ok([8 as char], i + 1)
      case 'f' => Ok([12 as char], i + 1)
      case 'n' => Ok("\n", i + 1)
      case 'r' => Ok("\r", i + 1)
      case 't' => Ok("\t", i + 1)
      case 'u' => UnicodeEscape(text, i + 1)
      case _ => Err
  }

  function StrLoop(text: string, i: nat, acc: string): (r: Parsed<string>)
    requires i <= |text|
    ensures r.Ok? ==> i < r.next <= |text|
    decreases |text| - i
  {
    if i >= |text| then Err
    else if text[i] == '\"' then Ok(acc, i + 1)
    else if text[i] as int < 0x20 then Err
    else if text[i] != '\\' then StrLoop(text, i + 1, acc + [text[i]])
    else
      var (piece, next) :- EscapeSeq(text, i + 1);
      StrLoop(text, next, acc + piece)
  }

  function ParseStr(text: string, i: nat): (r: Parsed<string>)
    ensures r.Ok? ==> i < r.next <= |text|
  {
    if !CharAt(text, i, '\"') then Err else StrLoop(text, i + 1, "")
  }

  function NatOf(digits: string): nat
    requires forall k | 0 <= k < |digits| :: IsDigit(digits[k])
  {
    if digits == "" then 0
    else
      var last := digits[|digits| - 1];
      assert IsDigit(last);
      NatOf(digits[..|digits| - 1]) * 10 + (last as int - '0' as int)
  }

  function Pow10(e: nat): (r: nat)
    ensures r > 0
  {
    if e == 0 then 1 else 10 * Pow10(e - 1)
  }

  /** Offsets of a number's parts: digits, fraction (after the point) and exponent digits, each
      up to the next offset; an absent part is empty. */
  datatype NumShape = NumShape(negative: bool, digits: nat, fraction: nat, exponent: nat, isFloat: bool, end: nat)

  /** The end of an optional `.digits` part; nothing when the point has no digits. */
  function LexFraction(text: string, i: nat): (r: Option<nat>)
    requires i <= |text|
    ensures r.Some? ==> i <= r.value <= |text|
  {
    if !CharAt(text, i, '.') then Some(i)
    else if SkipDigits(text, i + 1) == i + 1 then None
    else Some(SkipDigits(text, i + 1))
  }

  predicate HasExponent(text: string, i: nat) { CharAt(text, i, 'e') || CharAt(text, i, 'E') }

  /** The end of an optional exponent part; nothing when it has no digits. */
  function LexExponent(text: string, i: nat): (r: Option<nat>)
    requires i <= |text|
    ensures r.Some? ==> i <= r.value <= |text|
  {
    if !HasExponent(text, i) then Some(i)
    else
      var e := if CharAt(text, i + 1, '+') || CharAt(text, i + 1, '-') then i + 2 else i + 1;
      if SkipDigits(text, e) == e then None else Some(SkipDigits(text, e))
  }

  function LexNum(text: string, i: nat): (r: Option<NumShape>)
    requires i <= |text|
    ensures r.Some? ==>
      && i <= r.value.digits < r.value.fraction <= r.value.exponent <= r.value.end <= |text|
      && r.value.digits == (if r.value.negative then i + 1 else i)
      && (r.value.negative <==> CharAt(text, i, '-'))
      && (!r.value.isFloat ==> r.value.end == SkipDigits(text, r.value.digits))
  {
    var negative := CharAt(text, i, '-');
    var digits := if negative then i + 1 else i;
    var fraction := SkipDigits(text, digits);
    if fraction == digits then None
    else
      match LexFraction(text, fraction)
      case None => None
      case Some(exponent) =>
        match LexExponent(text, exponent)
        case None => None
        case Some(end) =>
          var isFloat := CharAt(text, fraction, '.') || HasExponent(text, exponent);
          Some(NumShape(negative, digits, fraction, exponent, isFloat, end))
  }

  /** The digits of a fragment, other characters skipped. */
  function DigitsOf(s: string): (r: string)
    ensures forall k | 0 <= k < |r| :: IsDigit(r[k])
    ensures (forall k | 0 <= k < |s| :: IsDigit(s[k])) ==> r == s
  {
    if s == "" then "" else (if IsDigit(s[0]) then [s[0]] else "") + DigitsOf(s[1..])
  }

  function Mantissa(text: string, n: NumShape): real
    requires n.digits <= n.fraction <= n.exponent <= |text|
  {
    var fraction := DigitsOf(text[n.fraction..n.exponent]);
    NatOf(DigitsOf(text[n.digits..n.fraction])) as real + NatOf(fraction) as real / Pow10(|fraction|) as real
  }

  function Scale(text: string, n: NumShape): (r: real)
    requires n.exponent <= n.end <= |text|
    ensures r > 0.0
  {
    Pow10(NatOf(DigitsOf(text[n.exponent..n.end]))) as real
  }

  /** The exact decimal value of a lexed number. */
  function DecimalValue(text: string, n: NumShape): real
    requires n.digits <= n.fraction <= n.exponent <= n.end <= |text|
  {
    var value := if CharAt(text, n.exponent + 1, '-') then Mantissa(text, n) / Scale(text, n) else Mantissa(text, n) * Scale(text, n);
    if n.negative then -value else value
  }

  function SignedNat(negative: bool, n: nat): int { if negative then 0 - n else n }

  /** A number: an exact integer when it is written as one and fits 64 bits, a double otherwise
      (its exact decimal value; `strtod` rounding is not modelled). */
  function ParseNum(text: string, i: nat): (r: Parsed<Json>)
    requires i <= |text|
    ensures r.Ok? ==> i < r.next <= |text|
  {
    match LexNum(text, i)
    case None => Err
    case Some(n) =>
      if !n.isFloat && INT64_MIN <= SignedNat(n.negative, NatOf(text[n.digits..n.end])) <= INT64_MAX then
        Ok(Int(SignedNat(n.negative, NatOf(text[n.digits..n.end]))), n.end)
      else
        Ok(Num(DecimalValue(text, n)), n.end)
  }

  function ParseLit(text: string, i: nat, word: string, v: Json): (r: Parsed<Json>)
    requires word != ""
    ensures r.Ok? ==> i < r.next <= |text|
  {
    if At(text, i, word) then Ok(v, i + |word|) else Err
  }

  function ParseVal(text: string, i: nat, depth: nat, maxDepth: nat): (r: Parsed<Json>)
    requires i <= |text|
    ensures r.Ok? ==> i < r.next <= |text|
    decreases |text| - i, 0
  {
    if depth > maxDepth then Err
    else
      var i0 := SkipWs(text, i);
      if i0 >= |text| then Err
      else
        match text[i0]
        case '{' =>
          var i1 := SkipWs(text, i0 + 1);
          if CharAt(text, i1, '}') then Ok(Obj([]), i1 + 1) else ObjLoop(text, i1, depth, maxDepth, [])
        case '[' =>
          var i1 := SkipWs(text, i0 + 1);
          if CharAt(text, i1, ']') then Ok(Arr([]), i1 + 1) else ArrLoop(text, i1, depth, maxDepth, [])
        case '\"' =>
          var (s, next) :- ParseStr(text, i0);
          Ok(Str(s), next)
        case 't' => ParseLit(text, i0, "true", Bool(true))
        case 'f' => ParseLit(text, i0, "false", Bool(false))
        case 'n' => ParseLit(text, i0, "null", Null)
        case _ => ParseNum(text, i0)
  }

  /** One `"key": value` pair. */
  function ParseMember(text: string, i: nat, depth: nat, maxDepth: nat): (r: Parsed<Member>)
    requires i <= |text|
    ensures r.Ok? ==> i < r.next <= |text|
    decreases |text| - i, 1
  {
    var (key, i1) :- ParseStr(text, SkipWs(text, i));
    var i2 := SkipWs(text, i1);
    if !CharAt(text, i2, ':') then Err
    else
      var (v, i3) :- ParseVal(text, i2 + 1, depth + 1, maxDepth);
      Ok(Member(key, v), i3)
  }

  /** The members of an object from offset `i` on, after the members `acc`. */
  function ObjLoop(text: string, i: nat, depth: nat, maxDepth: nat, acc: seq<Member>): (r: Parsed<Json>)
    requires i <= |text|
    ensures r.Ok? ==> i < r.next <= |text|
    decreases |text| - i, 2
  {
    var (m, i3) :- ParseMember(text, i, depth, maxDepth);
    var ms := SetMember(acc, m.key, m.value);
    var i4 := SkipWs(text, i3);
    if CharAt(text, i4, ',') then ObjLoop(text, i4 + 1, depth, maxDepth, ms)
    else if CharAt(text, i4, '}') then Ok(Obj(ms), i4 + 1)
    else Err
  }

  /** The items of an array from offset `i` on, after the items `acc`. */
  function ArrLoop(text: string, i: nat, depth: nat, maxDepth: nat, acc: seq<Json>): (r: Parsed<Json>)
    requires i <= |text|
    ensures r.Ok? ==> i < r.next <= |text|
    decreases |text| - i, 1
  {
    var (v, i1) :- ParseVal(text, i, depth + 1, maxDepth);
    var i2 := SkipWs(text, i1);
    if CharAt(text, i2, ',') then ArrLoop(text, i2 + 1, depth, maxDepth, acc + [v])
    else if CharAt(text, i2, ']') then Ok(Arr(acc + [v]), i2 + 1)
    else Err
  }

  /** Exactly one value, surrounding whitespace allowed. */
  function Parse(text: string, maxDepth: nat): Option<Json> {
    match ParseVal(text, 0, 0, maxDepth)
    case Ok(v, next) => if SkipWs(text, next) == |text| then Some(v) else None
    case Err => None
  }
}
