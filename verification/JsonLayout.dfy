/** How a JSON text may be laid out: any whitespace between tokens is read over, and nothing else may follow the
    value (section 2 of RFC 8259). */
module JsonLayout {
  import opened JsonValue
  import opened JsonText
  import opened JsonRoundTrip

  /** Only spaces, tabs, line feeds and carriage returns from `i` to `j`. */
  predicate Blank(text: string, i: nat, j: nat) {
    i <= j <= |text| && forall k | i <= k < j :: text[k] == ' ' || text[k] == '\t' || text[k] == '\n' || text[k] == '\r'
  }

  // ---- spelling ----------------------------------------------------------------------------------

  /** From `i` to `j` the text is whitespace and then the value, with whitespace between its tokens. */
  ghost predicate Spells(text: string, i: nat, j: nat, v: Json, fmt: real -> string)
    decreases v, 2
  {
    exists a: nat | Blank(text, i, a) :: SpellsAt(text, a, j, v, fmt)
  }

  ghost predicate SpellsAt(text: string, a: nat, j: nat, v: Json, fmt: real -> string)
    decreases v, 1
  {
    match v
    case Obj(ms) => CharAt(text, a, '{') && SpellsMembers(text, a + 1, j, ms, fmt)
    case Arr(vs) => CharAt(text, a, '[') && SpellsItems(text, a + 1, j, vs, fmt)
    case _ => At(text, a, Dump(v, fmt)) && j == a + |Dump(v, fmt)|
  }

  /** Where a member's key, colon and value end: the key from `b`, the colon at `c`, the value up to `d`, and
      what comes next at `e`. */
  datatype Marks = Marks(b: nat, c: nat, d: nat, e: nat)

  /** The members of an object and its closing brace. */
  ghost predicate SpellsMembers(text: string, i: nat, j: nat, ms: seq<Member>, fmt: real -> string)
    decreases ms, 1
  {
    if ms == [] then j > 0 && Blank(text, i, j - 1) && CharAt(text, j - 1, '}')
    else exists m: Marks :: SpellsMember(text, i, j, m, ms, fmt)
  }

  ghost predicate SpellsMember(text: string, i: nat, j: nat, m: Marks, ms: seq<Member>, fmt: real -> string)
    requires ms != []
    decreases ms, 0
  {
    && Blank(text, i, m.b) && At(text, m.b, Quote(ms[0].key)) && Blank(text, m.b + |Quote(ms[0].key)|, m.c) && CharAt(text, m.c, ':')
    && Spells(text, m.c + 1, m.d, ms[0].value, fmt) && Blank(text, m.d, m.e)
    && if |ms| == 1 then CharAt(text, m.e, '}') && j == m.e + 1
       else CharAt(text, m.e, ',') && SpellsMembers(text, m.e + 1, j, ms[1..], fmt)
  }

  ghost predicate SpellsItems(text: string, i: nat, j: nat, vs: seq<Json>, fmt: real -> string)
    decreases vs, 1
  {
    if vs == [] then j > 0 && Blank(text, i, j - 1) && CharAt(text, j - 1, ']')
    else exists d: nat, e: nat :: SpellsItem(text, i, j, d, e, vs, fmt)
  }

  ghost predicate SpellsItem(text: string, i: nat, j: nat, d: nat, e: nat, vs: seq<Json>, fmt: real -> string)
    requires vs != []
    decreases vs, 0
  {
    && Spells(text, i, d, vs[0], fmt) && Blank(text, d, e)
    && if |vs| == 1 then CharAt(text, e, ']') && j == e + 1
       else CharAt(text, e, ',') && SpellsItems(text, e + 1, j, vs[1..], fmt)
  }

  // ---- reading -----------------------------------------------------------------------------------

  lemma {:induction false} SkipBlank(text: string, i: nat, j: nat)
    requires Blank(text, i, j)
    ensures SkipWs(text, i) == SkipWs(text, j)
    decreases j - i
  {
    if i < j { SkipBlank(text, i + 1, j); }
  }

  /** Whitespace to the end is exactly what is skipped to the end. */
  lemma {:induction false} SkipToEnd(text: string, i: nat)
    requires i <= |text|
    ensures SkipWs(text, i) == |text| <==> Blank(text, i, |text|)
    decreases |text| - i
  {
    if i < |text| && IsWs(text[i]) { SkipToEnd(text, i + 1); }
  }

  lemma BlankThenEnds(text: string, d: nat, e: nat)
    requires Blank(text, d, e) && (CharAt(text, e, ',') || CharAt(text, e, '}') || CharAt(text, e, ']'))
    ensures EndsNumber(text, d) && SkipWs(text, d) == e
  {
    SkipBlank(text, d, e);
  }

  lemma StartOf(text: string, i: nat, j: nat, v: Json, fmt: real -> string) returns (a: nat)
    requires Spells(text, i, j, v, fmt)
    ensures Blank(text, i, a) && SpellsAt(text, a, j, v, fmt) && SkipWs(text, i) == SkipWs(text, a)
  {
    hide SpellsAt;
    a :| Blank(text, i, a) && SpellsAt(text, a, j, v, fmt);
    SkipBlank(text, i, a);
  }

  /** A spelled value is read as that value, wherever the whitespace is. */
  lemma {:induction false} ReadSpelled(text: string, i: nat, j: nat, v: Json, fmt: real -> string, depth: nat, maxDepth: nat)
    requires Plain(v) && Spells(text, i, j, v, fmt) && j <= |text| && EndsNumber(text, j) && depth + Depth(v) <= maxDepth
    ensures i <= |text| && ParseVal(text, i, depth, maxDepth) == Ok(v, j)
    decreases v, 2
  {
    hide Spells, SpellsAt, ParseVal, Plain, EndsNumber, SkipWs;
    var a := StartOf(text, i, j, v, fmt);
    SameStart(text, i, a, depth, maxDepth);
    ReadAt(text, a, j, v, fmt, depth, maxDepth);
  }

  lemma {:induction false} ReadAt(text: string, a: nat, j: nat, v: Json, fmt: real -> string, depth: nat, maxDepth: nat)
    requires Plain(v) && SpellsAt(text, a, j, v, fmt) && j <= |text| && EndsNumber(text, j) && depth + Depth(v) <= maxDepth && a <= |text|
    ensures ParseVal(text, a, depth, maxDepth) == Ok(v, j)
    decreases v, 1
  {
    hide SpellsMembers, SpellsItems, Dump, EndsNumber, ParseVal;
    match v
    case Obj(ms) => ReadObj(text, a, j, ms, fmt, depth, maxDepth);
    case Arr(vs) => ReadArr(text, a, j, vs, fmt, depth, maxDepth);
    case _ => ParseScalar(text, a, v, fmt, depth, maxDepth);
  }

  /** At a bracket the parser is in the container's loop, or already done. */
  lemma Opened(text: string, a: nat, depth: nat, maxDepth: nat)
    requires (CharAt(text, a, '{') || CharAt(text, a, '[')) && depth <= maxDepth
    ensures a + 1 <= |text|
    ensures var p := SkipWs(text, a + 1);
      && (text[a] == '{' ==> ParseVal(text, a, depth, maxDepth) ==
                             if CharAt(text, p, '}') then Ok(Obj([]), p + 1) else ObjLoop(text, p, depth, maxDepth, []))
      && (text[a] == '[' ==> ParseVal(text, a, depth, maxDepth) ==
                             if CharAt(text, p, ']') then Ok(Arr([]), p + 1) else ArrLoop(text, p, depth, maxDepth, []))
  {
    hide ObjLoop, ArrLoop;
    assert SkipWs(text, a) == a;
  }

  lemma {:induction false} ReadObj(text: string, a: nat, j: nat, ms: seq<Member>, fmt: real -> string, depth: nat, maxDepth: nat)
    requires Plain(Obj(ms)) && CharAt(text, a, '{') && SpellsMembers(text, a + 1, j, ms, fmt) && j <= |text|
    requires depth + Depth(Obj(ms)) <= maxDepth
    ensures ParseVal(text, a, depth, maxDepth) == Ok(Obj(ms), j)
    decreases ms, 1
  {
    hide ParseVal, SpellsMembers, ObjLoop, ArrLoop;
    Opened(text, a, depth, maxDepth);
    SkipAgain(text, a + 1);
    hide SkipWs;
    if ms == [] {
      NoMembers(text, a + 1, j, fmt);
    } else {
      ReadMembers(text, SkipWs(text, a + 1), a + 1, j, ms, [], fmt, depth, maxDepth);
      assert [] + ms == ms;
    }
  }

  lemma {:induction false} ReadArr(text: string, a: nat, j: nat, vs: seq<Json>, fmt: real -> string, depth: nat, maxDepth: nat)
    requires Plain(Arr(vs)) && CharAt(text, a, '[') && SpellsItems(text, a + 1, j, vs, fmt) && j <= |text|
    requires depth + Depth(Arr(vs)) <= maxDepth
    ensures ParseVal(text, a, depth, maxDepth) == Ok(Arr(vs), j)
    decreases vs, 1
  {
    hide ParseVal, SpellsItems, ObjLoop, ArrLoop;
    Opened(text, a, depth, maxDepth);
    SkipAgain(text, a + 1);
    hide SkipWs;
    if vs == [] {
      NoItems(text, a + 1, j, fmt);
    } else {
      assert NoNum(vs[0]);
      ItemsStart(text, a + 1, j, vs, fmt);
      ReadItems(text, SkipWs(text, a + 1), a + 1, j, vs, [], fmt, depth, maxDepth);
      assert [] + vs == vs;
    }
  }

  lemma {:induction false} SkipAgain(text: string, i: nat)
    requires i <= |text|
    ensures SkipWs(text, SkipWs(text, i)) == SkipWs(text, i)
    decreases |text| - i
  {
    if i < |text| && IsWs(text[i]) { SkipAgain(text, i + 1); }
  }

  lemma NoMembers(text: string, i: nat, j: nat, fmt: real -> string)
    requires SpellsMembers(text, i, j, [], fmt)
    ensures i <= |text| && SkipWs(text, i) == j - 1 && CharAt(text, j - 1, '}')
  {
    SkipBlank(text, i, j - 1);
  }

  lemma NoItems(text: string, i: nat, j: nat, fmt: real -> string)
    requires SpellsItems(text, i, j, [], fmt)
    ensures i <= |text| && SkipWs(text, i) == j - 1 && CharAt(text, j - 1, ']')
  {
    SkipBlank(text, i, j - 1);
  }

  /** Reading a value depends on its first character only, not on the whitespace before it. */
  lemma SameStart(text: string, p: nat, i: nat, depth: nat, maxDepth: nat)
    requires p <= |text| && i <= |text| && SkipWs(text, p) == SkipWs(text, i)
    ensures ParseVal(text, p, depth, maxDepth) == ParseVal(text, i, depth, maxDepth)
  {
    hide ObjLoop, ArrLoop, ParseNum, ParseStr, ParseLit;
  }

  /** An item list does not start with its closing bracket. */
  lemma ItemsStart(text: string, i: nat, j: nat, vs: seq<Json>, fmt: real -> string)
    requires vs != [] && NoNum(vs[0]) && SpellsItems(text, i, j, vs, fmt)
    ensures i <= |text| && !CharAt(text, SkipWs(text, i), ']')
  {
    hide Spells, SpellsAt;
    var d, e := FirstItem(text, i, j, vs, fmt);
    var a := StartOf(text, i, d, vs[0], fmt);
    AtHead(text, a, d, vs[0], fmt);
  }

  lemma AtHead(text: string, a: nat, j: nat, v: Json, fmt: real -> string)
    requires NoNum(v) && SpellsAt(text, a, j, v, fmt)
    ensures a < |text| && text[a] != ']' && SkipWs(text, a) == a
  {
    hide SpellsMembers, SpellsItems;
    DumpHead(v, fmt);
    if !v.Obj? && !v.Arr? { AtChar(text, a, Dump(v, fmt)); }
    hide Dump;
  }

  lemma FirstItem(text: string, i: nat, j: nat, vs: seq<Json>, fmt: real -> string) returns (d: nat, e: nat)
    requires vs != [] && SpellsItems(text, i, j, vs, fmt)
    ensures Spells(text, i, d, vs[0], fmt) && Blank(text, d, e)
    ensures if |vs| == 1 then CharAt(text, e, ']') && j == e + 1
            else CharAt(text, e, ',') && SpellsItems(text, e + 1, j, vs[1..], fmt)
  {
    hide Spells;
    d, e :| SpellsItem(text, i, j, d, e, vs, fmt);
  }

  lemma FirstMember(text: string, i: nat, j: nat, ms: seq<Member>, fmt: real -> string) returns (m: Marks)
    requires ms != [] && SpellsMembers(text, i, j, ms, fmt)
    ensures SpellsMember(text, i, j, m, ms, fmt)
  {
    hide SpellsMember;
    m :| SpellsMember(text, i, j, m, ms, fmt);
  }

  /** One turn of the member loop, with whitespace. */
  lemma MemberTurn(text: string, p: nat, b: nat, c: nat, d: nat, e: nat, key: string, v: Json, acc: seq<Member>, depth: nat, maxDepth: nat)
    requires p <= |text| && SkipWs(text, p) == b && At(text, b, Quote(key)) && Blank(text, b + |Quote(key)|, c) && CharAt(text, c, ':')
    requires ParseVal(text, c + 1, depth + 1, maxDepth) == Ok(v, d) && d <= |text| && SkipWs(text, d) == e && !HasKey(acc, key)
    ensures CharAt(text, e, ',') ==>
      ObjLoop(text, p, depth, maxDepth, acc) == ObjLoop(text, e + 1, depth, maxDepth, acc + [Member(key, v)])
    ensures CharAt(text, e, '}') ==> ObjLoop(text, p, depth, maxDepth, acc) == Ok(Obj(acc + [Member(key, v)]), e + 1)
  {
    hide ParseVal, ParseStr, Quote;
    ParseQuoted(text, b, key);
    SkipBlank(text, b + |Quote(key)|, c);
    assert SkipWs(text, c) == c;
    assert ParseMember(text, p, depth, maxDepth) == Ok(Member(key, v), d);
  }

  lemma {:induction false} ReadMembers(text: string, p: nat, i: nat, j: nat, ms: seq<Member>, done: seq<Member>,
                                       fmt: real -> string, depth: nat, maxDepth: nat)
    requires ms != [] && SpellsMembers(text, i, j, ms, fmt) && p <= |text| && i <= |text| && SkipWs(text, p) == SkipWs(text, i)
    requires DistinctKeys(done + ms) && forall k | 0 <= k < |ms| :: Plain(ms[k].value)
    requires depth + MembersDepth(ms) <= maxDepth
    ensures ObjLoop(text, p, depth, maxDepth, done) == Ok(Obj(done + ms), j)
    ensures !CharAt(text, SkipWs(text, i), '}')
    decreases ms, 0
  {
    hide ParseVal, ObjLoop, Spells, SpellsMembers, Plain, At, Quote;
    var m := FirstMember(text, i, j, ms, fmt);
    var b, c, d, e := m.b, m.c, m.d, m.e;
    SkipBlank(text, i, b);
    QuoteHead(ms[0].key);
    AtChar(text, b, Quote(ms[0].key));
    assert SkipWs(text, b) == b;
    BlankThenEnds(text, d, e);
    assert Plain(ms[0].value);
    ReadSpelled(text, c + 1, d, ms[0].value, fmt, depth + 1, maxDepth);
    NewKey(done, ms);
    MemberTurn(text, p, b, c, d, e, ms[0].key, ms[0].value, done, depth, maxDepth);
    if |ms| > 1 {
      assert done + [ms[0]] + ms[1..] == done + ms;
      ReadMembers(text, e + 1, e + 1, j, ms[1..], done + [ms[0]], fmt, depth, maxDepth);
    } else {
      assert ms == [ms[0]];
    }
  }

  lemma ItemTurn(text: string, p: nat, d: nat, e: nat, v: Json, acc: seq<Json>, depth: nat, maxDepth: nat)
    requires p <= |text| && ParseVal(text, p, depth + 1, maxDepth) == Ok(v, d) && d <= |text| && SkipWs(text, d) == e
    ensures CharAt(text, e, ',') ==> ArrLoop(text, p, depth, maxDepth, acc) == ArrLoop(text, e + 1, depth, maxDepth, acc + [v])
    ensures CharAt(text, e, ']') ==> ArrLoop(text, p, depth, maxDepth, acc) == Ok(Arr(acc + [v]), e + 1)
  {
    hide ParseVal;
  }

  lemma {:induction false} ReadItems(text: string, p: nat, i: nat, j: nat, vs: seq<Json>, done: seq<Json>,
                                     fmt: real -> string, depth: nat, maxDepth: nat)
    requires vs != [] && SpellsItems(text, i, j, vs, fmt) && p <= |text| && i <= |text| && SkipWs(text, p) == SkipWs(text, i)
    requires forall k | 0 <= k < |vs| :: Plain(vs[k])
    requires depth + ItemsDepth(vs) <= maxDepth
    ensures ArrLoop(text, p, depth, maxDepth, done) == Ok(Arr(done + vs), j)
    decreases vs, 0
  {
    hide ParseVal, ArrLoop, Spells, SpellsItems, Plain, SkipWs;
    var d, e := FirstItem(text, i, j, vs, fmt);
    BlankThenEnds(text, d, e);
    assert Plain(vs[0]);
    ReadSpelled(text, i, d, vs[0], fmt, depth + 1, maxDepth);
    SameStart(text, p, i, depth + 1, maxDepth);
    ItemTurn(text, p, d, e, vs[0], done, depth, maxDepth);
    if |vs| > 1 {
      assert done + [vs[0]] + vs[1..] == done + vs;
      ReadItems(text, e + 1, e + 1, j, vs[1..], done + [vs[0]], fmt, depth, maxDepth);
    } else {
      assert vs == [vs[0]];
    }
  }

  /** A spelled value is a JSON text exactly when nothing but whitespace follows it. */
  lemma LayoutFree(text: string, j: nat, v: Json, fmt: real -> string, maxDepth: nat)
    requires Plain(v) && Spells(text, 0, j, v, fmt) && j <= |text| && EndsNumber(text, j) && Depth(v) <= maxDepth
    ensures Parse(text, maxDepth) == if Blank(text, j, |text|) then Some(v) else None
  {
    hide Spells, ParseVal, EndsNumber, Plain;
    ReadSpelled(text, 0, j, v, fmt, 0, maxDepth);
    SkipToEnd(text, j);
  }
}
