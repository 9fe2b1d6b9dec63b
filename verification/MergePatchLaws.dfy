/** What the merge patch functions promise, for all values with unique keys. */
module MergePatchLaws {
  import opened JsonValue
  import opened MergePatch

  // ---- laws of trees -------------------------------------------------------------------------

  lemma {:induction false} StripIdempotent(t: Tree)
    ensures Strip(Strip(t)) == Strip(t)
  {
    if t.TObj? {
      forall k | k in t.m ensures Strip(Strip(t.m[k])) == Strip(t.m[k]) { StripIdempotent(t.m[k]); }
    }
  }

  /** Applied to anything that is not an object, a patch gives itself without its nulls. */
  lemma {:induction false} ApplyToScalar(target: Tree, patch: Tree)
    requires !target.TObj?
    ensures TApply(target, patch) == Strip(patch)
    decreases patch
  {
    if patch.TObj? {
      forall k | k in patch.m ensures TApply(TNull, patch.m[k]) == Strip(patch.m[k]) {
        ApplyToScalar(TNull, patch.m[k]);
      }
    }
  }

  lemma DiffNull(from: Tree, goal: Tree)
    ensures TDiff(from, goal).TNull? ==> goal.TNull?
  {}

  /** The value of a key after the patch. */
  function Patched(from: Tree, goal: Tree, k: string): Option<Tree>
    requires from.TObj? && goal.TObj?
  {
    var r := TApply(from, TDiff(from, goal)).m;
    if k in r then Some(r[k]) else None
  }

  lemma PatchedCases(from: Tree, goal: Tree, k: string)
    requires from.TObj? && goal.TObj?
    ensures Patched(from, goal, k) ==
      if k !in goal.m then None
      else if k in from.m && from.m[k] == goal.m[k] then Some(goal.m[k])
      else if goal.m[k].TNull? then None
      else if k !in from.m then Some(Strip(goal.m[k]))
      else Some(TApply(from.m[k], TDiff(from.m[k], goal.m[k])))
  {
    var d := TDiff(from, goal);
    if k in goal.m && !goal.m[k].TNull? {
      if k in from.m { DiffNull(from.m[k], goal.m[k]); }
      if k !in from.m { ApplyToScalar(TNull, goal.m[k]); }
    }
  }

  /** Applying the diff gives the new state up to null members. */
  lemma {:induction false} ApplyDiff(from: Tree, goal: Tree)
    requires from != goal
    ensures Strip(TApply(from, TDiff(from, goal))) == Strip(goal)
    decreases goal
  {
    if !from.TObj? || !goal.TObj? {
      if goal.TObj? {
        ApplyToScalar(from, goal);
        StripIdempotent(goal);
      }
    } else {
      var r := TApply(from, TDiff(from, goal));
      assert r.TObj?;
      var sr, st := Strip(r).m, Strip(goal).m;
      forall k
        ensures k in sr <==> k in st
        ensures k in sr ==> sr[k] == st[k]
      {
        PatchedCases(from, goal, k);
        if k in goal.m && !goal.m[k].TNull? {
          if k !in from.m {
            StripIdempotent(goal.m[k]);
          } else if from.m[k] != goal.m[k] {
            ApplyDiff(from.m[k], goal.m[k]);
          }
        }
      }
      assert sr == st;
    }
  }

  /** A patch cannot tell two targets apart that differ only in null members. */
  lemma {:induction false} ApplyRespectsStrip(a: Tree, b: Tree, patch: Tree)
    requires Strip(a) == Strip(b)
    ensures Strip(TApply(a, patch)) == Strip(TApply(b, patch))
    decreases patch
  {
    if patch.TObj? {
      var ta := if a.TObj? then a.m else map[];
      var tb := if b.TObj? then b.m else map[];
      var ra, rb := TApply(a, patch).m, TApply(b, patch).m;
      var sa, sb := Strip(TApply(a, patch)).m, Strip(TApply(b, patch)).m;
      forall k
        ensures k in sa <==> k in sb
        ensures k in sa ==> sa[k] == sb[k]
      {
        SameMember(a, b, k);
        var ca := if k in ta then ta[k] else TNull;
        var cb := if k in tb then tb[k] else TNull;
        if k in patch.m && !patch.m[k].TNull? {
          ApplyRespectsStrip(ca, cb, patch.m[k]);
        }
      }
      assert sa == sb;
    }
  }

  lemma SameMember(a: Tree, b: Tree, k: string)
    requires Strip(a) == Strip(b)
    ensures a.TObj? == b.TObj?
    ensures a.TObj? ==>
      Strip(if k in a.m then a.m[k] else TNull) == Strip(if k in b.m then b.m[k] else TNull)
  {
    if a.TObj? {
      assert k in Strip(a).m <==> k in Strip(b).m;
    }
  }

  // ---- when the patched value is exactly the new one -----------------------------------------

  /** The value at a path of object keys. */
  function AtPath(t: Tree, path: seq<string>): Option<Tree> {
    if path == [] then Some(t)
    else if t.TObj? && path[0] in t.m then AtPath(t.m[path[0]], path[1..])
    else None
  }

  /** Every null member of `goal` already stands, as null, at the same place in `from`. */
  ghost predicate NullsAlreadyThere(from: Tree, goal: Tree) {
    forall path: seq<string> | path != [] :: AtPath(goal, path) == Some(TNull) ==> AtPath(from, path) == Some(TNull)
  }

  function Child(t: Tree, k: string): Tree {
    if t.TObj? && k in t.m then t.m[k] else TNull
  }

  /** The same, by recursion over the objects of `goal`. */
  predicate NullsKept(from: Tree, goal: Tree)
    decreases goal
  {
    goal.TObj? ==>
      forall k | k in goal.m ::
        (goal.m[k].TNull? ==> from.TObj? && k in from.m && from.m[k].TNull?) && NullsKept(Child(from, k), goal.m[k])
  }

  lemma {:induction false} NullsKeptPath(from: Tree, goal: Tree, path: seq<string>)
    requires NullsKept(from, goal) && path != [] && AtPath(goal, path) == Some(TNull)
    ensures AtPath(from, path) == Some(TNull)
    decreases path
  {
    var k := path[0];
    if |path| == 1 {
      assert goal.m[k].TNull?;
    } else {
      NullsKeptPath(Child(from, k), goal.m[k], path[1..]);
      assert AtPath(Child(from, k), path[1..]) == Some(TNull);
      assert from.TObj? && k in from.m;
    }
  }

  lemma {:induction false} NullsPathKept(from: Tree, goal: Tree)
    requires NullsAlreadyThere(from, goal)
    ensures NullsKept(from, goal)
    decreases goal
  {
    if goal.TObj? {
      forall k | k in goal.m
        ensures (goal.m[k].TNull? ==> from.TObj? && k in from.m && from.m[k].TNull?) && NullsKept(Child(from, k), goal.m[k])
      {
        if goal.m[k].TNull? {
          assert [k][1..] == [];
          assert AtPath(goal, [k]) == Some(TNull);
          assert AtPath(from, [k]) == Some(TNull);
          assert from.TObj? && k in from.m && AtPath(from.m[k], []) == Some(TNull);
        }
        forall path: seq<string> | path != [] && AtPath(goal.m[k], path) == Some(TNull)
          ensures AtPath(Child(from, k), path) == Some(TNull)
        {
          var full := [k] + path;
          assert full[1..] == path;
          assert AtPath(goal, full) == Some(TNull);
          assert AtPath(from, full) == Some(TNull);
        }
        NullsPathKept(Child(from, k), goal.m[k]);
      }
    }
  }

  lemma NullsKeptIff(from: Tree, goal: Tree)
    ensures NullsKept(from, goal) <==> NullsAlreadyThere(from, goal)
  {
    if NullsKept(from, goal) {
      forall path: seq<string> | path != [] && AtPath(goal, path) == Some(TNull)
        ensures AtPath(from, path) == Some(TNull)
      {
        NullsKeptPath(from, goal, path);
      }
    }
    if NullsAlreadyThere(from, goal) { NullsPathKept(from, goal); }
  }

  lemma {:induction false} NullsKeptSame(t: Tree)
    ensures NullsKept(t, t)
  {
    if t.TObj? {
      forall k | k in t.m ensures NullsKept(t.m[k], t.m[k]) { NullsKeptSame(t.m[k]); }
    }
  }

  lemma {:induction false} StripExact(from: Tree, t: Tree)
    requires !from.TObj?
    ensures Strip(t) == t <==> NullsKept(from, t)
    decreases t
  {
    if t.TObj? {
      forall k | k in t.m ensures Strip(t.m[k]) == t.m[k] <==> NullsKept(TNull, t.m[k]) {
        StripExact(TNull, t.m[k]);
      }
      if Strip(t) == t {
        forall k | k in t.m ensures !t.m[k].TNull? && Strip(t.m[k]) == t.m[k] {
          assert k in Strip(t).m;
        }
      }
      if NullsKept(from, t) {
        assert forall k | k in t.m :: !t.m[k].TNull?;
        assert Strip(t).m == t.m;
      }
    }
  }

  lemma {:induction false} ApplyDiffExact(from: Tree, goal: Tree)
    requires from != goal
    ensures TApply(from, TDiff(from, goal)) == goal <==> NullsKept(from, goal)
    decreases goal
  {
    if !from.TObj? || !goal.TObj? {
      if goal.TObj? {
        ApplyToScalar(from, goal);
        StripExact(from, goal);
      }
    } else {
      var r := TApply(from, TDiff(from, goal)).m;
      forall k
        ensures (k in r <==> k in goal.m) && (k in r ==> r[k] == goal.m[k]) <==>
                (k in goal.m ==> (goal.m[k].TNull? ==> k in from.m && from.m[k].TNull?) && NullsKept(Child(from, k), goal.m[k]))
      {
        PatchedCases(from, goal, k);
        if k in goal.m {
          if k !in from.m {
            StripExact(TNull, goal.m[k]);
          } else if from.m[k] == goal.m[k] {
            NullsKeptSame(goal.m[k]);
          } else if !goal.m[k].TNull? {
            ApplyDiffExact(from.m[k], goal.m[k]);
          }
        }
      }
      assert r == goal.m <==> forall k :: (k in r <==> k in goal.m) && (k in r ==> r[k] == goal.m[k]);
    }
  }

  // ---- the source's functions compute the tree operations ------------------------------------

  lemma {:induction false} NormFind(ms: seq<Member>, k: string)
    ensures k in NormMembers(ms) <==> HasKey(ms, k)
    ensures k in NormMembers(ms) ==> Find(ms, k).Some? && NormMembers(ms)[k] == Norm(Find(ms, k).value)
  {
    hide Norm;
    if ms != [] {
      NormFind(ms[1..], k);
      assert ms[0].key != k ==> (HasKey(ms, k) <==> HasKey(ms[1..], k)) by {
        if ms[0].key != k && HasKey(ms, k) {
          var i :| 0 <= i < |ms| && ms[i].key == k;
          assert ms[1..][i - 1].key == k;
        }
      }
    }
  }

  lemma {:induction false} NormSet(ms: seq<Member>, k: string, v: Json)
    ensures NormMembers(SetMember(ms, k, v)) == NormMembers(ms)[k := Norm(v)]
  {
    hide Norm;
    if ms == [] {
      assert [Member(k, v)][1..] == [];
    } else if ms[0].key == k {
      assert ([Member(k, v)] + ms[1..])[1..] == ms[1..];
    } else {
      NormSet(ms[1..], k, v);
      assert ([ms[0]] + SetMember(ms[1..], k, v))[1..] == SetMember(ms[1..], k, v);
    }
  }

  lemma {:induction false} NormSize(ms: seq<Member>)
    requires DistinctKeys(ms)
    ensures |NormMembers(ms)| == |ms|
  {
    if ms != [] {
      NormSize(ms[1..]);
      NormFind(ms[1..], ms[0].key);
    }
  }

  lemma {:induction false} NormItemsAt(vs: seq<Json>)
    ensures |NormItems(vs)| == |vs| && forall i | 0 <= i < |vs| :: NormItems(vs)[i] == Norm(vs[i])
  {
    hide Norm;
    if vs != [] { NormItemsAt(vs[1..]); }
  }

  lemma {:induction false} EqualMeansSame(a: Json, b: Json)
    requires UniqueKeys(a) && UniqueKeys(b)
    ensures Equal(a, b) <==> Norm(a) == Norm(b)
    decreases a
  {
    match a
    case Obj(ms) =>
      if b.Obj? {
        EqualObjects(ms, b.members);
      }
    case Arr(vs) =>
      if b.Arr? {
        NormItemsAt(vs);
        NormItemsAt(b.items);
        if |vs| == |b.items| {
          forall i | 0 <= i < |vs| ensures Equal(vs[i], b.items[i]) <==> NormItems(vs)[i] == NormItems(b.items)[i] {
            EqualMeansSame(vs[i], b.items[i]);
          }
        }
      }
    case _ =>
  }

  lemma {:induction false} EqualObjects(ms: seq<Member>, ns: seq<Member>)
    requires UniqueKeys(Obj(ms)) && UniqueKeys(Obj(ns))
    ensures Equal(Obj(ms), Obj(ns)) <==> NormMembers(ms) == NormMembers(ns)
    decreases Obj(ms), 0
  {
    var m, n := NormMembers(ms), NormMembers(ns);
    NormSize(ms);
    NormSize(ns);
    forall i | 0 <= i < |ms|
      ensures Find(ns, ms[i].key).Some? <==> ms[i].key in n
      ensures ms[i].key in m && m[ms[i].key] == Norm(ms[i].value)
      ensures ms[i].key in n ==> (Equal(ms[i].value, Find(ns, ms[i].key).value) <==> m[ms[i].key] == n[ms[i].key])
    {
      var k := ms[i].key;
      NormFind(ns, k);
      NormFind(ms, k);
      FindAt(ms, i);
      if k in n {
        FoundUnique(ns, k);
        EqualMeansSame(ms[i].value, Find(ns, k).value);
      }
    }
    if Equal(Obj(ms), Obj(ns)) {
      forall k | k in m ensures k in n && m[k] == n[k] {
        NormFind(ms, k);
        var i :| 0 <= i < |ms| && ms[i].key == k;
      }
      SameKeys(m, n);
    }
  }

  lemma SameKeys(m: map<string, Tree>, n: map<string, Tree>)
    requires |m| == |n| && forall k | k in m :: k in n && m[k] == n[k]
    ensures m == n
  {
    assert m.Keys <= n.Keys;
    assert n.Keys - m.Keys == {} by {
      assert n.Keys == m.Keys + (n.Keys - m.Keys);
      assert |n.Keys| == |m.Keys| + |n.Keys - m.Keys|;
    }
    assert m.Keys == n.Keys;
  }

  lemma {:induction false} FindAt(ms: seq<Member>, i: nat)
    requires i < |ms| && DistinctKeys(ms)
    ensures Find(ms, ms[i].key) == Some(ms[i].value)
  {
    if i > 0 {
      assert ms[0].key != ms[i].key;
      FindAt(ms[1..], i - 1);
    }
  }

  lemma FoundUnique(ms: seq<Member>, k: string)
    requires UniqueKeys(Obj(ms)) && Find(ms, k).Some?
    ensures UniqueKeys(Find(ms, k).value)
  {
    var i :| 0 <= i < |ms| && ms[i] == Member(k, Find(ms, k).value);
  }

  lemma SetUnique(ms: seq<Member>, k: string, v: Json)
    requires UniqueKeys(Obj(ms)) && UniqueKeys(v)
    ensures UniqueKeys(Obj(SetMember(ms, k, v)))
  {
    SetMemberDistinct(ms, k, v);
    var r := SetMember(ms, k, v);
    forall i | 0 <= i < |r| ensures UniqueKeys(r[i].value) { SetMemberIn(ms, k, v, r[i]); }
  }

  /** Member lookup in a list taken apart at its head. */
  lemma HeadTail(ms: seq<Member>, k: string)
    requires ms != [] && DistinctKeys(ms)
    ensures HasKey(ms, k) <==> ms[0].key == k || HasKey(ms[1..], k)
    ensures ms[0].key == k ==> !HasKey(ms[1..], k) && Find(ms, k) == Some(ms[0].value)
    ensures ms[0].key != k ==> Find(ms, k) == Find(ms[1..], k)
  {
    if HasKey(ms[1..], k) {
      var i :| 0 <= i < |ms[1..]| && ms[1..][i].key == k;
      assert ms[i + 1].key == k;
    }
    if HasKey(ms, k) && ms[0].key != k {
      var i :| 0 <= i < |ms| && ms[i].key == k;
      assert ms[1..][i - 1].key == k;
    }
  }

  lemma {:induction false} RemovedMeans(from: seq<Member>, goal: seq<Member>, patch: seq<Member>, k: string)
    requires DistinctKeys(from) && UniqueKeys(Obj(patch))
    ensures var r, p := NormMembers(PatchRemoved(from, goal, patch)), NormMembers(patch);
      if HasKey(from, k) && !HasKey(goal, k) then k in r && r[k] == TNull
      else (k in r <==> k in p) && (k in r ==> r[k] == p[k])
    ensures UniqueKeys(Obj(PatchRemoved(from, goal, patch)))
    decreases from
  {
    hide Norm, NormMembers, SetMember, UniqueKeys;
    if from != [] {
      HeadTail(from, k);
      var key := from[0].key;
      if !HasKey(goal, key) {
        assert UniqueKeys(Null) by { Scalars(); }
        assert Norm(Null) == TNull by { Scalars(); }
        SetUnique(patch, key, Null);
        NormSet(patch, key, Null);
        RemovedMeans(from[1..], goal, SetMember(patch, key, Null), k);
      } else {
        RemovedMeans(from[1..], goal, patch, k);
      }
    }
  }

  lemma Scalars()
    ensures UniqueKeys(Null) && Norm(Null) == TNull && forall v :: Norm(v) == TNull <==> v == Null
    ensures UniqueKeys(Obj([])) && NormMembers([]) == map[]
  {}

  /** What the patch says about one key present in `goal`. */
  function Change(f: Option<Json>, g: Json): Option<Tree> {
    match f
    case None => Some(Norm(g))
    case Some(v) =>
      if Norm(v) == Norm(g) then None
      else if g.Null? then Some(TNull)
      else Some(TDiff(Norm(v), Norm(g)))
  }

  lemma {:induction false} ChangedMeans(from: seq<Member>, goal: seq<Member>, patch: seq<Member>, k: string)
    requires UniqueKeys(Obj(from)) && UniqueKeys(Obj(goal)) && UniqueKeys(Obj(patch))
    ensures var r, p := NormMembers(PatchChanged(from, goal, patch)), NormMembers(patch);
      if HasKey(goal, k) && Change(Find(from, k), Find(goal, k).value).Some?
      then k in r && r[k] == Change(Find(from, k), Find(goal, k).value).value
      else (k in r <==> k in p) && (k in r ==> r[k] == p[k])
    ensures UniqueKeys(Obj(PatchChanged(from, goal, patch)))
    decreases goal, 0
  {
    hide Norm, NormMembers, SetMember, MergeDiff, TDiff, Find;
    if goal != [] {
      HeadTail(goal, k);
      var key, value := goal[0].key, goal[0].value;
      assert UniqueKeys(value) && UniqueKeys(Obj(goal[1..]));
      var f := Find(from, key);
      var next := patch;
      Scalars();
      if f.None? {
        next := SetMember(patch, key, value);
        SetUnique(patch, key, value);
        NormSet(patch, key, value);
      } else {
        FoundUnique(from, key);
        if value.Null? {
          if !f.value.Null? {
            next := SetMember(patch, key, Null);
            SetUnique(patch, key, Null);
            NormSet(patch, key, Null);
          }
        } else {
          DiffMeans(f.value, value);
          var sub := MergeDiff(f.value, value);
          if sub.Some? {
            next := SetMember(patch, key, sub.value);
            SetUnique(patch, key, sub.value);
            NormSet(patch, key, sub.value);
          }
        }
      }
      ChangedMeans(from, goal[1..], next, k);
    }
  }

  /** `MergeDiff` returns nothing exactly for equal values, and otherwise the tree diff. */
  lemma {:induction false} DiffMeans(from: Json, goal: Json)
    requires UniqueKeys(from) && UniqueKeys(goal)
    ensures MergeDiff(from, goal).None? <==> Norm(from) == Norm(goal)
    ensures MergeDiff(from, goal).Some? ==>
      UniqueKeys(MergeDiff(from, goal).value) && Norm(MergeDiff(from, goal).value) == TDiff(Norm(from), Norm(goal))
    decreases goal, 1
  {
    EqualMeansSame(from, goal);
    if !Equal(from, goal) && from.Obj? && goal.Obj? {
      var f, g := from.members, goal.members;
      var p0 := PatchRemoved(f, g, []);
      var p := PatchChanged(f, g, p0);
      var d := TDiff(Norm(from), Norm(goal)).m;
      var r := NormMembers(p);
      Scalars();
      forall k
        ensures k in r <==> k in d
        ensures k in r ==> r[k] == d[k]
      {
        RemovedMeans(f, g, [], k);
        ChangedMeans(f, g, p0, k);
        NormFind(f, k);
        NormFind(g, k);
      }
      assert r == d;
      RemovedMeans(f, g, [], "");
      ChangedMeans(f, g, p0, "");
      assert p != [] by {
        if p == [] {
          assert forall k :: k !in d;
          SameMaps(NormMembers(f), NormMembers(g), d);
        }
      }
    }
  }

  lemma SameMaps(f: map<string, Tree>, g: map<string, Tree>, d: map<string, Tree>)
    requires forall k | k in f.Keys + g.Keys :: (k !in f || k !in g || f[k] != g[k]) ==> k in d
    requires d == map[]
    ensures f == g
  {
    assert forall k | k in f :: k in f.Keys + g.Keys;
    assert forall k | k in g :: k in f.Keys + g.Keys;
  }

  lemma {:induction false} KeptMeans(target: seq<Member>, patch: seq<Member>, out: seq<Member>, k: string)
    requires UniqueKeys(Obj(target)) && UniqueKeys(Obj(patch)) && UniqueKeys(Obj(out))
    ensures var r, o := NormMembers(KeepMembers(target, patch, out)), NormMembers(out);
      if HasKey(target, k) && Find(patch, k) != Some(Null) then
        k in r && r[k] == (match Find(patch, k)
                           case None => Norm(Find(target, k).value)
                           case Some(p) => TApply(Norm(Find(target, k).value), Norm(p)))
      else (k in r <==> k in o) && (k in r ==> r[k] == o[k])
    ensures UniqueKeys(Obj(KeepMembers(target, patch, out)))
    decreases patch, 0, target
  {
    hide Norm, NormMembers, SetMember, TApply, MergePatchApply, Find;
    if target != [] {
      HeadTail(target, k);
      var key, value := target[0].key, target[0].value;
      assert UniqueKeys(value) && UniqueKeys(Obj(target[1..]));
      var next := out;
      match Find(patch, key) {
        case None =>
          next := SetMember(out, key, value);
          SetUnique(out, key, value);
          NormSet(out, key, value);
        case Some(Null) =>
        case Some(p) =>
          FoundUnique(patch, key);
          assert Member(key, p) in patch;
          ApplyMeans(value, p);
          next := SetMember(out, key, MergePatchApply(value, p));
          SetUnique(out, key, MergePatchApply(value, p));
          NormSet(out, key, MergePatchApply(value, p));
      }
      KeptMeans(target[1..], patch, next, k);
    }
  }

  lemma {:induction false} AddedMeans(target: seq<Member>, patch: seq<Member>, out: seq<Member>, k: string)
    requires UniqueKeys(Obj(patch)) && UniqueKeys(Obj(out))
    ensures var r, o := NormMembers(AddMembers(target, patch, out)), NormMembers(out);
      if !HasKey(target, k) && HasKey(patch, k) && !Find(patch, k).value.Null? then
        k in r && r[k] == TApply(TNull, Norm(Find(patch, k).value))
      else (k in r <==> k in o) && (k in r ==> r[k] == o[k])
    ensures UniqueKeys(Obj(AddMembers(target, patch, out)))
    decreases patch, 0, 0
  {
    hide Norm, NormMembers, SetMember, TApply, MergePatchApply, Find;
    if patch != [] {
      HeadTail(patch, k);
      var key, value := patch[0].key, patch[0].value;
      assert UniqueKeys(value) && UniqueKeys(Obj(patch[1..]));
      var next := out;
      if !HasKey(target, key) && !value.Null? {
        Scalars();
        ApplyMeans(Null, value);
        next := SetMember(out, key, MergePatchApply(Null, value));
        SetUnique(out, key, MergePatchApply(Null, value));
        NormSet(out, key, MergePatchApply(Null, value));
      }
      AddedMeans(target, patch[1..], next, k);
    }
  }

  /** `MergePatchApply` is section 2 of RFC 7386. */
  lemma {:induction false} ApplyMeans(target: Json, patch: Json)
    requires UniqueKeys(target) && UniqueKeys(patch)
    ensures Norm(MergePatchApply(target, patch)) == TApply(Norm(target), Norm(patch))
    ensures UniqueKeys(MergePatchApply(target, patch))
    decreases patch, 1
  {
    if patch.Obj? {
      var t := if target.Obj? then target.members else [];
      var p := patch.members;
      Scalars();
      var kept := KeepMembers(t, p, []);
      var r := NormMembers(AddMembers(t, p, kept));
      var e := TApply(Norm(target), Norm(patch)).m;
      forall k
        ensures k in r <==> k in e
        ensures k in r ==> r[k] == e[k]
      {
        KeptMeans(t, p, [], k);
        AddedMeans(t, p, kept, k);
        NormFind(t, k);
        NormFind(p, k);
      }
      assert r == e;
      KeptMeans(t, p, [], "");
      AddedMeans(t, p, kept, "");
    }
  }

  // ---- the theorems --------------------------------------------------------------------------

  /** The same state to a consumer that treats null members as absent ones. */
  ghost predicate SameState(a: Json, b: Json) { Strip(Norm(a)) == Strip(Norm(b)) }

  /** A patch is sent exactly when the states differ; applied, it gives the new state up to null
      members, and gives it exactly when every null member of the new state was null before. */
  lemma PatchCorrect(from: Json, goal: Json)
    requires UniqueKeys(from) && UniqueKeys(goal)
    ensures MergeDiff(from, goal).None? <==> Equal(from, goal)
    ensures MergeDiff(from, goal).Some? ==>
      var patched := MergePatchApply(from, MergeDiff(from, goal).value);
      && SameState(patched, goal)
      && (Equal(patched, goal) <==> NullsAlreadyThere(Norm(from), Norm(goal)))
  {
    hide Norm, Strip, Equal, MergeDiff, MergePatchApply, UniqueKeys;
    EqualMeansSame(from, goal);
    DiffMeans(from, goal);
    if MergeDiff(from, goal).Some? {
      var patch := MergeDiff(from, goal).value;
      ApplyMeans(from, patch);
      ApplyDiff(Norm(from), Norm(goal));
      ApplyDiffExact(Norm(from), Norm(goal));
      NullsKeptIff(Norm(from), Norm(goal));
      EqualMeansSame(MergePatchApply(from, patch), goal);
    }
  }

  /** A consumer whose copy differs from the sender's only in null members stays in that relation. */
  lemma PatchFollows(copy: Json, from: Json, goal: Json)
    requires UniqueKeys(copy) && UniqueKeys(from) && UniqueKeys(goal)
    requires SameState(copy, from) && MergeDiff(from, goal).Some?
    ensures UniqueKeys(MergePatchApply(copy, MergeDiff(from, goal).value))
    ensures SameState(MergePatchApply(copy, MergeDiff(from, goal).value), goal)
  {
    hide Norm, Strip, Equal, MergeDiff, MergePatchApply, UniqueKeys;
    DiffMeans(from, goal);
    var patch := MergeDiff(from, goal).value;
    ApplyMeans(copy, patch);
    ApplyMeans(from, patch);
    ApplyRespectsStrip(Norm(copy), Norm(from), Norm(patch));
    PatchCorrect(from, goal);
  }

  /** A new null member cannot be carried: the patch that should set it removes it. */
  lemma NullIsLost() returns (from: Json, goal: Json)
    ensures UniqueKeys(from) && UniqueKeys(goal) && MergeDiff(from, goal).Some?
    ensures !Equal(MergePatchApply(from, MergeDiff(from, goal).value), goal)
  {
    from, goal := Obj([]), Obj([Member("a", Null)]);
    assert !Equal(from, goal);
    PatchCorrect(from, goal);
    hide MergeDiff, MergePatchApply, Equal;
    assert Norm(goal) == TObj(map["a" := TNull]) && Norm(from) == TObj(map[]);
    assert AtPath(Norm(goal), ["a"]) == Some(TNull) && AtPath(Norm(from), ["a"]) == None;
  }
}
