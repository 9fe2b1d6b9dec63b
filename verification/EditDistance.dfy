/** The one-row edit distance and the fuzzy map pick of plugins/essentials/essentials_rules.cpp. */
module EditDistance {
  import opened Basics

  /** The Levenshtein distance, by its recurrence on the last characters. */
  function Distance(a: string, b: string): nat
    decreases |a| + |b|
  {
    if a == [] then |b|
    else if b == [] then |a|
    else
      var a', b' := a[..|a| - 1], b[..|b| - 1];
      Min(Min(Distance(a', b) + 1, Distance(a, b') + 1), Distance(a', b') + (if a[|a| - 1] == b[|b| - 1] then 0 else 1))
  }

  /** The distance to the first `j` characters of `b`. */
  function ToPrefix(a: string, b: string, j: nat): nat
    requires j <= |b|
  {
    Distance(a, b[..j])
  }

  /** Distances of `a` to the prefixes of `b`, up to length `n`. */
  ghost predicate RowIs(row: seq<nat>, a: string, b: string, from: nat, n: nat)
    requires n <= |row| && n <= |b| + 1
  {
    forall j | from <= j < n :: row[j] == ToPrefix(a, b, j)
  }

  /** One array row, updated in place for each character of `a`. */
  method Compute(a: string, b: string) returns (d: nat)
    ensures d == Distance(a, b)
  {
    var row := new nat[|b| + 1];
    for j := 0 to |b| + 1
      invariant RowIs(row[..], [], b, 0, j)
    {
      row[j] := j;
      assert Distance([], b[..j]) == j;
    }
    assert a[..0] == [];
    for i := 1 to |a| + 1
      invariant RowIs(row[..], a[..i - 1], b, 0, |b| + 1)
    {
      assert a[..i][..i - 1] == a[..i - 1];
      NextRow(a[..i], b, row);
    }
    assert a[..|a|] == a && b[..|b|] == b;
    d := row[|b|];
  }

  /** From the distances of `a` without its last character to those of `a`. */
  method NextRow(a: string, b: string, row: array<nat>)
    requires a != [] && row.Length == |b| + 1 && RowIs(row[..], a[..|a| - 1], b, 0, |b| + 1)
    modifies row
    ensures RowIs(row[..], a, b, 0, |b| + 1)
  {
    ghost var a' := a[..|a| - 1];
    var diag := row[0];
    row[0] := |a|;
    hide ToPrefix, Min;
    Corner(a, b);
    for j := 1 to |b| + 1
      invariant forall k | 0 <= k < j :: row[k] == ToPrefix(a, b, k)
      invariant forall k | j <= k <= |b| :: row[k] == ToPrefix(a', b, k)
      invariant diag == ToPrefix(a', b, j - 1)
    {
      var up := row[j];
      Recurrence(a, b, j);
      row[j] := Min(Min(row[j] + 1, row[j - 1] + 1), diag + (if a[|a| - 1] == b[j - 1] then 0 else 1));
      diag := up;
    }
  }

  lemma Corner(a: string, b: string)
    requires a != []
    ensures ToPrefix(a, b, 0) == |a| && ToPrefix(a[..|a| - 1], b, 0) == |a| - 1
  {}

  lemma Recurrence(a: string, b: string, j: nat)
    requires a != [] && 0 < j <= |b|
    ensures var a' := a[..|a| - 1];
      ToPrefix(a, b, j) == Min(Min(ToPrefix(a', b, j) + 1, ToPrefix(a, b, j - 1) + 1),
                               ToPrefix(a', b, j - 1) + (if a[|a| - 1] == b[j - 1] then 0 else 1))
  {
    assert b[..j][..j - 1] == b[..j - 1];
  }

  // ---- what the distance means -------------------------------------------------------------------

  /** Edits from left to right: keep a character, or put, drop or change one. */
  datatype Edit = Keep(c: char) | Put(c: char) | Drop(c: char) | Change(c: char, d: char)

  function Before(es: seq<Edit>): string {
    if es == [] then []
    else
      var e := es[|es| - 1];
      Before(es[..|es| - 1]) + (if e.Put? then [] else [e.c])
  }

  function After(es: seq<Edit>): string {
    if es == [] then []
    else
      var e := es[|es| - 1];
      After(es[..|es| - 1]) + (match e case Keep(c) => [c] case Put(c) => [c] case Drop(_) => [] case Change(_, d) => [d])
  }

  function Cost(es: seq<Edit>): nat {
    if es == [] then 0 else Cost(es[..|es| - 1]) + (if es[|es| - 1].Keep? then 0 else 1)
  }

  ghost predicate Turns(es: seq<Edit>, a: string, b: string) { Before(es) == a && After(es) == b }

  lemma PushEdit(es: seq<Edit>, e: Edit, a: string, b: string)
    requires Turns(es, a, b)
    ensures Turns(es + [e], a + (if e.Put? then [] else [e.c]),
                  b + (match e case Keep(c) => [c] case Put(c) => [c] case Drop(_) => [] case Change(_, d) => [d]))
    ensures Cost(es + [e]) == Cost(es) + (if e.Keep? then 0 else 1)
  {
    assert (es + [e])[..|es|] == es;
  }

  lemma Whole(s: string)
    requires s != []
    ensures s[..|s| - 1] + [s[|s| - 1]] == s
  {}

  /** Some edits reach the distance... */
  lemma {:induction false} Reaches(a: string, b: string) returns (es: seq<Edit>)
    ensures Turns(es, a, b) && Cost(es) == Distance(a, b)
    decreases |a| + |b|
  {
    hide Turns, Before, After, Cost;
    if a == [] && b == [] {
      es := [];
      NoEdits();
    } else {
      var a', b' := if a == [] then a else a[..|a| - 1], if b == [] then b else b[..|b| - 1];
      if a != [] { Whole(a); }
      if b != [] { Whole(b); }
      if a == [] || (b != [] && Distance(a, b) == Distance(a, b') + 1) {
        es := Reaches(a, b');
        PushEdit(es, Put(b[|b| - 1]), a, b');
        assert a + [] == a;
        es := es + [Put(b[|b| - 1])];
      } else if b == [] || Distance(a, b) == Distance(a', b) + 1 {
        es := Reaches(a', b);
        PushEdit(es, Drop(a[|a| - 1]), a', b);
        assert b + [] == b;
        es := es + [Drop(a[|a| - 1])];
      } else {
        es := Reaches(a', b');
        var e := if a[|a| - 1] == b[|b| - 1] then Keep(a[|a| - 1]) else Change(a[|a| - 1], b[|b| - 1]);
        PushEdit(es, e, a', b');
        es := es + [e];
      }
    }
  }

  lemma NoEdits()
    ensures Turns([], [], []) && Cost([]) == 0
  {}

  /** ...and no edits are cheaper. */
  lemma {:induction false} Cheapest(es: seq<Edit>, a: string, b: string)
    requires Turns(es, a, b)
    ensures Distance(a, b) <= Cost(es)
    decreases |es|
  {
    if es != [] {
      var before, e := es[..|es| - 1], es[|es| - 1];
      Cheapest(before, Before(before), After(before));
      hide Before, After;
      match e
      case Put(c) => assert b[..|b| - 1] == After(before) && a == Before(before); Grow(a, b);
      case Drop(c) => assert a[..|a| - 1] == Before(before) && b == After(before); Grow(a, b);
      case Keep(c) => assert a[..|a| - 1] == Before(before) && b[..|b| - 1] == After(before); Grow(a, b);
      case Change(c, d) => assert a[..|a| - 1] == Before(before) && b[..|b| - 1] == After(before); Grow(a, b);
    }
  }

  /** The recurrence also bounds the distance at the edges. */
  lemma Grow(a: string, b: string)
    ensures a != [] ==> Distance(a, b) <= Distance(a[..|a| - 1], b) + 1
    ensures b != [] ==> Distance(a, b) <= Distance(a, b[..|b| - 1]) + 1
    ensures a != [] && b != [] ==>
      Distance(a, b) <= Distance(a[..|a| - 1], b[..|b| - 1]) + (if a[|a| - 1] == b[|b| - 1] then 0 else 1)
  {}

  // ---- the fuzzy pick ----------------------------------------------------------------------------

  /** "de_mirage" becomes "mirage": a leading two or three letters and an underscore. */
  function StripPrefix(m: string): string {
    var u := FirstUnderscore(m);
    if u == 2 || u == 3 then m[u + 1..] else m
  }

  function FirstUnderscore(m: string): (u: int)
    ensures -1 <= u < |m|
    ensures u == -1 <==> '_' !in m
    ensures u >= 0 ==> m[u] == '_' && '_' !in m[..u]
  {
    if m == [] then -1
    else if m[0] == '_' then 0
    else
      var u := FirstUnderscore(m[1..]);
      if u < 0 then -1 else assert m[..u + 1] == [m[0]] + m[1..][..u]; u + 1
  }

  /** A prefix of two or three characters and its underscore go... */
  lemma StripsPrefix(p: string, rest: string)
    requires '_' !in p && 2 <= |p| <= 3
    ensures StripPrefix(p + "_" + rest) == rest
  {
    var m := p + "_" + rest;
    var u := FirstUnderscore(m);
    assert m[|p|] == '_' && m[..|p|] == p;
    assert m[|p| + 1..] == rest;
  }

  /** ...and every other name stays as it is. */
  lemma StripsNothingElse(m: string)
    requires forall u | 2 <= u <= 3 && u < |m| && m[u] == '_' :: '_' in m[..u]
    ensures StripPrefix(m) == m
  {}

  function Apart(q: string, map_: string): nat { Distance(StripPrefix(q), StripPrefix(map_)) }

  /** The places of a value, in order. */
  function Places(ds: seq<nat>, d: nat): seq<nat> {
    if ds == [] then [] else Places(ds[..|ds| - 1], d) + (if ds[|ds| - 1] == d then [|ds| - 1] else [])
  }

  lemma {:induction false} PlacesAre(ds: seq<nat>, d: nat, i: nat)
    ensures i in Places(ds, d) <==> i < |ds| && ds[i] == d
  {
    if ds != [] { PlacesAre(ds[..|ds| - 1], d, i); }
  }

  lemma {:induction false} NoPlaces(ds: seq<nat>, d: nat)
    requires forall i | 0 <= i < |ds| :: ds[i] != d
    ensures Places(ds, d) == []
  {
    if ds != [] { NoPlaces(ds[..|ds| - 1], d); }
  }

  function Distances(q: string, maps: seq<string>): (r: seq<nat>)
    ensures |r| == |maps| && forall i | 0 <= i < |maps| :: r[i] == Apart(q, maps[i])
  {
    if maps == [] then [] else Distances(q, maps[..|maps| - 1]) + [Apart(q, maps[|maps| - 1])]
  }

  predicate Least(ds: seq<nat>, d: nat) {
    d in ds && forall j | 0 <= j < |ds| :: d <= ds[j]
  }

  /** Map `i` is close enough to the query, and none is closer. */
  predicate IsClosest(q: string, maps: seq<string>, i: int) {
    && 0 <= i < |maps| && (Apart(q, maps[i]) <= 1 || 3 * Apart(q, maps[i]) <= |StripPrefix(q)|)
    && forall j | 0 <= j < |maps| :: Apart(q, maps[i]) <= Apart(q, maps[j])
  }

  /** The closest maps, if they are close enough: all of them. One answer alone is strictly the closest. */
  method Closest(q: string, maps: seq<string>) returns (best: seq<nat>)
    ensures forall i | 0 <= i < |best| :: IsClosest(q, maps, best[i])
    ensures forall i | IsClosest(q, maps, i) :: i in best
    ensures |best| == 1 ==> best[0] < |maps| && forall j | 0 <= j < |maps| && j != best[0] :: Apart(q, maps[best[0]]) < Apart(q, maps[j])
  {
    hide Apart, Places;
    best := [];
    if maps == [] { return; }
    var least, all := Nearest(q, maps);
    var limit := if |StripPrefix(q)| / 3 > 1 then |StripPrefix(q)| / 3 else 1;
    ghost var ds := Distances(q, maps);
    if least <= limit {
      best := all;
      forall i: int | 0 <= i < |maps| ensures i in best <==> ds[i] == least { PlacesAre(ds, least, i); }
      forall i | 0 <= i < |best| ensures IsClosest(q, maps, best[i]) { PlacesAre(ds, least, best[i]); }
    }
  }

  method Nearest(q: string, maps: seq<string>) returns (least: nat, best: seq<nat>)
    requires maps != []
    ensures best == Places(Distances(q, maps), least) && Least(Distances(q, maps), least)
  {
    hide Apart, Places, Distance;
    var qs := StripPrefix(q);
    ghost var ds := Distances(q, maps);
    best, least := [], 0;
    for i := 0 to |maps|
      invariant i == 0 <==> best == []
      invariant i > 0 ==> best == Places(ds[..i], least) && Least(ds[..i], least)
    {
      var d := Compute(qs, StripPrefix(maps[i]));
      assert d == ds[i] by { ApartIs(q, maps[i]); }
      PlacesNext(ds, i, least);
      PlacesNext(ds, i, d);
      LeastNext(ds, i, least);
      if best == [] || d < least {
        BelowAll(ds[..i], d, least);
        least, best := d, [i];
      } else if d == least {
        best := best + [i];
      }
    }
    assert ds[..|maps|] == ds;
  }

  lemma LeastNext(ds: seq<nat>, i: nat, least: nat)
    requires i < |ds| && (i > 0 ==> Least(ds[..i], least))
    ensures i == 0 || ds[i] < least ==> Least(ds[..i + 1], ds[i])
    ensures i > 0 && least <= ds[i] ==> Least(ds[..i + 1], least)
  {
    assert ds[..i + 1] == ds[..i] + [ds[i]];
  }

  lemma BelowAll(ds: seq<nat>, d: nat, least: nat)
    requires ds == [] || (Least(ds, least) && d < least)
    ensures Places(ds, d) == []
  {
    NoPlaces(ds, d);
  }

  lemma ApartIs(q: string, m: string)
    ensures Apart(q, m) == Distance(StripPrefix(q), StripPrefix(m))
  {}

  lemma PlacesNext(ds: seq<nat>, i: nat, d: nat)
    requires i < |ds|
    ensures Places(ds[..i + 1], d) == Places(ds[..i], d) + (if ds[i] == d then [i] else [])
  {
    assert ds[..i + 1][..i] == ds[..i];
  }
}
