/** What the status stream's clients get to see: prints. Numbers are the tokens they print as, so that
    doubles that print the same are the same; everything else is as it was. */
module PrintedState {
  import opened JsonValue
  import opened JsonText
  import opened JsonRoundTrip
  import opened MergePatch
  import opened MergePatchLaws

  // ---- trees of tokens -------------------------------------------------------------------------

  /** A tree with its numbers printed. */
  function Seen(t: Tree, fmt: real -> string): Tree
    decreases t, 1
  {
    match t
    case TInt(i) => TToken(PrintInt(i))
    case TNum(n) => TToken(fmt(n))
    case TObj(m) => TObj(map k | k in m :: Seen(m[k], fmt))
    case TArr(items) => TArr(SeenItems(items, fmt))
    case _ => t
  }

  function SeenItems(items: seq<Tree>, fmt: real -> string): seq<Tree>
    decreases items, 0
  {
    if items == [] then [] else [Seen(items[0], fmt)] + SeenItems(items[1..], fmt)
  }

  /** Printing and dropping null members commute. */
  lemma {:induction false} SeenStrip(t: Tree, fmt: real -> string)
    ensures Seen(Strip(t), fmt) == Strip(Seen(t, fmt))
  {
    if t.TObj? {
      forall k | k in t.m ensures Seen(Strip(t.m[k]), fmt) == Strip(Seen(t.m[k], fmt)) { SeenStrip(t.m[k], fmt); }
      assert Seen(Strip(t), fmt).m == Strip(Seen(t, fmt)).m;
    }
  }

  /** A printed patch does to a printed state what the patch does to the state. */
  lemma {:induction false} SeenApply(t: Tree, p: Tree, fmt: real -> string)
    ensures Seen(TApply(t, p), fmt) == TApply(Seen(t, fmt), Seen(p, fmt))
    decreases p
  {
    if p.TObj? {
      var m := if t.TObj? then t.m else map[];
      var l, r := Seen(TApply(t, p), fmt).m, TApply(Seen(t, fmt), Seen(p, fmt)).m;
      forall k
        ensures k in l <==> k in r
        ensures k in l ==> l[k] == r[k]
      {
        if k in p.m { SeenApply(if k in m then m[k] else TNull, p.m[k], fmt); }
      }
      assert l == r;
    }
  }

  /** The same state to a client: the same prints, up to null members. */
  ghost predicate SameView(a: Json, b: Json, fmt: real -> string) {
    Strip(Seen(Norm(a), fmt)) == Strip(Seen(Norm(b), fmt))
  }

  lemma SameStateSameView(a: Json, b: Json, fmt: real -> string)
    requires SameState(a, b)
    ensures SameView(a, b, fmt)
  {
    SeenStrip(Norm(a), fmt);
    SeenStrip(Norm(b), fmt);
  }

  /** A client that sees the sender's state still does after the patch. */
  lemma ViewFollows(copy: Json, from: Json, goal: Json, fmt: real -> string)
    requires UniqueKeys(copy) && UniqueKeys(from) && UniqueKeys(goal)
    requires SameView(copy, from, fmt) && MergeDiff(from, goal).Some?
    ensures UniqueKeys(MergePatchApply(copy, MergeDiff(from, goal).value))
    ensures SameView(MergePatchApply(copy, MergeDiff(from, goal).value), goal, fmt)
  {
    hide Norm, Strip, Equal, MergeDiff, MergePatchApply, UniqueKeys, Seen, TApply;
    DiffMeans(from, goal);
    var patch := MergeDiff(from, goal).value;
    ApplyMeans(copy, patch);
    ApplyMeans(from, patch);
    ApplyRespectsStrip(Seen(Norm(copy), fmt), Seen(Norm(from), fmt), Seen(Norm(patch), fmt));
    SeenApply(Norm(copy), Norm(patch), fmt);
    SeenApply(Norm(from), Norm(patch), fmt);
    PatchCorrect(from, goal);
    SameStateSameView(MergePatchApply(from, patch), goal, fmt);
  }

  // ---- equal prints ----------------------------------------------------------------------------

  predicate NumberChar(c: char) { IsDigit(c) || c == '-' || c == '+' || c == '.' || c == 'e' || c == 'E' }

  /** What `%g` prints for a finite double: digits, signs, a point and an exponent. */
  predicate Lexeme(s: string) {
    s != "" && (IsDigit(s[0]) || s[0] == '-') && forall k | 0 <= k < |s| :: NumberChar(s[k])
  }

  ghost predicate PrintsNumbers(fmt: real -> string) { forall n: real :: Lexeme(fmt(n)) }

  predicate EndsLexeme(text: string, i: nat) { i <= |text| && (i < |text| ==> !NumberChar(text[i])) }

  /** At one place there is at most one number that ends there. */
  lemma LexemeUnique(text: string, i: nat, s: string, t: string)
    requires Lexeme(s) && At(text, i, s) && EndsLexeme(text, i + |s|)
    requires Lexeme(t) && At(text, i, t) && EndsLexeme(text, i + |t|)
    ensures s == t
  {
    if |s| < |t| {
      InLexeme(text, i, t, |s|);
    } else if |t| < |s| {
      InLexeme(text, i, s, |t|);
    }
  }

  lemma InLexeme(text: string, i: nat, s: string, k: nat)
    requires Lexeme(s) && At(text, i, s) && k < |s|
    ensures i + k < |text| && NumberChar(text[i + k])
  {
    assert text[i..i + |s|][k] == text[i + k];
  }

  lemma IntLexeme(n: int)
    ensures Lexeme(PrintInt(n))
  {
    var digits := PrintIntDigits(n);
  }

  /** The first character of a dump tells the kind of value; integers and doubles look alike. */
  lemma Head(v: Json, fmt: real -> string)
    requires PrintsNumbers(fmt)
    ensures Dump(v, fmt) != ""
    ensures var c := Dump(v, fmt)[0];
      && (v.Obj? <==> c == '{') && (v.Arr? <==> c == '[') && (v.Str? <==> c == '\"')
      && (v == Bool(true) <==> c == 't') && (v == Bool(false) <==> c == 'f') && (v.Null? <==> c == 'n')
      && (v.Int? || v.Num? <==> IsDigit(c) || c == '-') && !IsWs(c) && c != ']' && c != '}'
  {
    if v.Int? { IntLexeme(v.i); }
    if v.Num? { assert Lexeme(fmt(v.n)); }
  }

  /** What follows a value in a dump, or nothing. */
  lemma EndsAtMark(text: string, i: nat)
    requires CharAt(text, i, ',') || CharAt(text, i, '}') || CharAt(text, i, ']')
    ensures EndsLexeme(text, i)
  {}

  /** Two values printed at one place look the same. */
  lemma {:induction false} PrintsAlike(text: string, i: nat, a: Json, b: Json, fmt: real -> string)
    requires PrintsNumbers(fmt)
    requires At(text, i, Dump(a, fmt)) && EndsLexeme(text, i + |Dump(a, fmt)|)
    requires At(text, i, Dump(b, fmt)) && EndsLexeme(text, i + |Dump(b, fmt)|)
    ensures Seen(Norm(a), fmt) == Seen(Norm(b), fmt) && |Dump(a, fmt)| == |Dump(b, fmt)|
    decreases a, 1
  {
    hide Dump, At, PrintsNumbers, DumpMembers, DumpItems, EndsLexeme;
    Head(a, fmt);
    Head(b, fmt);
    AtChar(text, i, Dump(a, fmt));
    AtChar(text, i, Dump(b, fmt));
    if a.Obj? {
      Braces(text, i, a.members, fmt);
      Braces(text, i, b.members, fmt);
      MembersAlike(text, i + 1, a.members, b.members, fmt);
    } else if a.Arr? {
      Brackets(text, i, a.items, fmt);
      Brackets(text, i, b.items, fmt);
      ItemsAlike(text, i + 1, a.items, b.items, fmt);
    } else if a.Str? {
      StringsAlike(text, i, a.s, b.s, fmt);
    } else if a.Int? || a.Num? {
      NumbersAlike(text, i, a, b, fmt);
    }
  }

  lemma StringsAlike(text: string, i: nat, s: string, t: string, fmt: real -> string)
    requires At(text, i, Dump(Str(s), fmt)) && At(text, i, Dump(Str(t), fmt))
    ensures s == t
  {
    hide Quote, ParseStr;
    ParseQuoted(text, i, s);
    ParseQuoted(text, i, t);
  }

  lemma NumbersAlike(text: string, i: nat, a: Json, b: Json, fmt: real -> string)
    requires PrintsNumbers(fmt) && (a.Int? || a.Num?) && (b.Int? || b.Num?)
    requires At(text, i, Dump(a, fmt)) && EndsLexeme(text, i + |Dump(a, fmt)|)
    requires At(text, i, Dump(b, fmt)) && EndsLexeme(text, i + |Dump(b, fmt)|)
    ensures Seen(Norm(a), fmt) == Seen(Norm(b), fmt) && Dump(a, fmt) == Dump(b, fmt)
  {
    hide PrintInt, At, Lexeme, EndsLexeme;
    if a.Int? { IntLexeme(a.i); } else { assert Lexeme(fmt(a.n)); }
    if b.Int? { IntLexeme(b.i); } else { assert Lexeme(fmt(b.n)); }
    LexemeUnique(text, i, Dump(a, fmt), Dump(b, fmt));
  }

  lemma Braces(text: string, i: nat, ms: seq<Member>, fmt: real -> string)
    requires At(text, i, Dump(Obj(ms), fmt))
    ensures At(text, i + 1, DumpMembers(ms, fmt) + "}") && |Dump(Obj(ms), fmt)| == |DumpMembers(ms, fmt)| + 2
  {
    hide At, DumpMembers;
    assert Dump(Obj(ms), fmt) == "{" + (DumpMembers(ms, fmt) + "}");
    AtConcat(text, i, "{", DumpMembers(ms, fmt) + "}");
  }

  lemma Brackets(text: string, i: nat, vs: seq<Json>, fmt: real -> string)
    requires At(text, i, Dump(Arr(vs), fmt))
    ensures At(text, i + 1, DumpItems(vs, fmt) + "]") && |Dump(Arr(vs), fmt)| == |DumpItems(vs, fmt)| + 2
  {
    hide At, DumpItems;
    assert Dump(Arr(vs), fmt) == "[" + (DumpItems(vs, fmt) + "]");
    AtConcat(text, i, "[", DumpItems(vs, fmt) + "]");
  }

  /** A map with its values printed. */
  function SeenMap(m: map<string, Tree>, fmt: real -> string): map<string, Tree> { map k | k in m :: Seen(m[k], fmt) }

  lemma {:induction false} MembersAlike(text: string, i: nat, ms: seq<Member>, ns: seq<Member>, fmt: real -> string)
    requires PrintsNumbers(fmt) && At(text, i, DumpMembers(ms, fmt) + "}") && At(text, i, DumpMembers(ns, fmt) + "}")
    ensures SeenMap(NormMembers(ms), fmt) == SeenMap(NormMembers(ns), fmt) && |DumpMembers(ms, fmt)| == |DumpMembers(ns, fmt)|
    decreases ms, 0
  {
    hide DumpMembers, Dump, Quote, At, ParseStr, PrintsNumbers, Seen, EndsLexeme, NormMembers, SeenMap, Norm;
    NoMembers(fmt);
    MembersHead(ms, fmt);
    MembersHead(ns, fmt);
    AtChar(text, i, DumpMembers(ms, fmt) + "}");
    AtChar(text, i, DumpMembers(ns, fmt) + "}");
    if ms != [] && ns != [] {
      var colon, after := MembersAt(text, i, ms, "}", fmt);
      var colon', after' := MembersAt(text, i, ns, "}", fmt);
      ParseQuoted(text, i, ms[0].key);
      ParseQuoted(text, i, ns[0].key);
      EndsAtMark(text, after);
      EndsAtMark(text, after');
      PrintsAlike(text, colon + 1, ms[0].value, ns[0].value, fmt);
      if |ms| > 1 && |ns| > 1 { MembersAlike(text, after + 1, ms[1..], ns[1..], fmt); }
      assert |ms| == 1 ==> ms[1..] == [] && ns[1..] == [];
      SeenFirst(ms, fmt);
      SeenFirst(ns, fmt);
    }
  }

  lemma NoMembers(fmt: real -> string)
    ensures SeenMap(NormMembers([]), fmt) == map[]
  {}

  lemma SeenFirst(ms: seq<Member>, fmt: real -> string)
    requires ms != []
    ensures SeenMap(NormMembers(ms), fmt) == SeenMap(NormMembers(ms[1..]), fmt)[ms[0].key := Seen(Norm(ms[0].value), fmt)]
  {
    hide Seen;
  }

  lemma {:induction false} ItemsAlike(text: string, i: nat, vs: seq<Json>, us: seq<Json>, fmt: real -> string)
    requires PrintsNumbers(fmt) && At(text, i, DumpItems(vs, fmt) + "]") && At(text, i, DumpItems(us, fmt) + "]")
    ensures SeenItems(NormItems(vs), fmt) == SeenItems(NormItems(us), fmt) && |DumpItems(vs, fmt)| == |DumpItems(us, fmt)|
    decreases vs, 0
  {
    hide DumpItems, Dump, At, PrintsNumbers, Seen, EndsLexeme;
    FirstItem(vs, fmt);
    FirstItem(us, fmt);
    AtChar(text, i, DumpItems(vs, fmt) + "]");
    AtChar(text, i, DumpItems(us, fmt) + "]");
    if vs != [] && us != [] {
      var after := ItemsAt(text, i, vs, fmt);
      var after' := ItemsAt(text, i, us, fmt);
      EndsAtMark(text, after);
      EndsAtMark(text, after');
      PrintsAlike(text, i, vs[0], us[0], fmt);
      if |vs| > 1 && |us| > 1 { ItemsAlike(text, after + 1, vs[1..], us[1..], fmt); }
      SeenCons(vs, fmt);
      SeenCons(us, fmt);
    }
  }

  lemma SeenCons(vs: seq<Json>, fmt: real -> string)
    requires vs != []
    ensures SeenItems(NormItems(vs), fmt) == [Seen(Norm(vs[0]), fmt)] + SeenItems(NormItems(vs[1..]), fmt)
  {
    hide Seen;
    assert NormItems(vs)[1..] == NormItems(vs[1..]);
  }

  lemma FirstItem(vs: seq<Json>, fmt: real -> string)
    requires PrintsNumbers(fmt)
    ensures vs == [] ==> DumpItems(vs, fmt) == ""
    ensures vs != [] ==> DumpItems(vs, fmt) != "" && DumpItems(vs, fmt)[0] != ']'
  {
    hide Dump, PrintsNumbers;
    if vs != [] { Head(vs[0], fmt); }
  }

  /** States that print the same look the same to every client. */
  lemma SamePrint(a: Json, b: Json, fmt: real -> string)
    requires PrintsNumbers(fmt) && Dump(a, fmt) == Dump(b, fmt)
    ensures SameView(a, b, fmt)
  {
    hide Dump, PrintsNumbers, Seen, Strip;
    var text := Dump(a, fmt);
    assert text[0..|text|] == text;
    PrintsAlike(text, 0, a, b, fmt);
  }
}
