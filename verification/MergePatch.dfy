/** JSON merge patches (libs/readyup/status_snapshot.cpp; section 2 of RFC 7386): a patch computed
    between two states, and what applying it gives. */
module MergePatch {
  import opened JsonValue

  // ---- the source's functions ----------------------------------------------------------------

  /** Equality of values; the order of an object's members does not matter. */
  predicate Equal(a: Json, b: Json)
    decreases a
  {
    match a
    case Obj(ms) =>
      b.Obj? && |ms| == |b.members| &&
      forall i | 0 <= i < |ms| ::
        Find(b.members, ms[i].key).Some? && Equal(ms[i].value, Find(b.members, ms[i].key).value)
    case Arr(vs) => b.Arr? && |vs| == |b.items| && forall i | 0 <= i < |vs| :: Equal(vs[i], b.items[i])
    case _ => a == b
  }

  /** Keys of `from` that `goal` lacks, set to null in the patch. */
  function PatchRemoved(from: seq<Member>, goal: seq<Member>, patch: seq<Member>): seq<Member> {
    if from == [] then patch
    else PatchRemoved(from[1..], goal,
                      if Find(goal, from[0].key).None? then SetMember(patch, from[0].key, Null) else patch)
  }

  /** Members of `goal` that are new or differ from `from`. */
  function PatchChanged(from: seq<Member>, goal: seq<Member>, patch: seq<Member>): seq<Member>
    decreases goal, 0
  {
    if goal == [] then patch
    else
      var key, value := goal[0].key, goal[0].value;
      var next :=
        match Find(from, key)
        case None => SetMember(patch, key, value)
        case Some(was) =>
          if value.Null? then (if was.Null? then patch else SetMember(patch, key, Null))
          else match MergeDiff(was, value)
               case None => patch
               case Some(sub) => SetMember(patch, key, sub);
      PatchChanged(from, goal[1..], next)
  }

  /** The patch that turns `from` into `goal`; None when there is nothing to send. */
  function MergeDiff(from: Json, goal: Json): Option<Json>
    decreases goal, 1
  {
    if Equal(from, goal) then None
    else if !from.Obj? || !goal.Obj? then Some(goal)
    else
      var p := PatchChanged(from.members, goal.members, PatchRemoved(from.members, goal.members, []));
      if p == [] then None else Some(Obj(p))
  }

  /** Target members the patch keeps or changes, in the target's order. */
  function KeepMembers(target: seq<Member>, patch: seq<Member>, out: seq<Member>): seq<Member>
    decreases patch, 0, target
  {
    if target == [] then out
    else
      var key, value := target[0].key, target[0].value;
      match Find(patch, key)
      case None => KeepMembers(target[1..], patch, SetMember(out, key, value))
      case Some(Null) => KeepMembers(target[1..], patch, out)
      case Some(p) =>
        assert Member(key, p) in patch;
        KeepMembers(target[1..], patch, SetMember(out, key, MergePatchApply(value, p)))
  }

  /** Patch members the target lacks. */
  function AddMembers(target: seq<Member>, patch: seq<Member>, out: seq<Member>): seq<Member>
    decreases patch, 0, 0
  {
    if patch == [] then out
    else if Find(target, patch[0].key).Some? || patch[0].value.Null? then AddMembers(target, patch[1..], out)
    else AddMembers(target, patch[1..], SetMember(out, patch[0].key, MergePatchApply(Null, patch[0].value)))
  }

  function MergePatchApply(target: Json, patch: Json): Json
    decreases patch, 1
  {
    if !patch.Obj? then patch
    else
      var t := if target.Obj? then target.members else [];
      Obj(AddMembers(t, patch.members, KeepMembers(t, patch.members, [])))
  }

  // ---- values without member order -----------------------------------------------------------

  /** What a value means: an object is a map. */
  datatype Tree =
    | TNull
    | TBool(b: bool)
    | TInt(i: Int64)
    | TNum(n: real)
    | TStr(s: string)
    | TObj(m: map<string, Tree>)
    | TArr(items: seq<Tree>)
    | TToken(text: string)

  function Norm(v: Json): Tree
    decreases v, 1
  {
    match v
    case Null => TNull
    case Bool(b) => TBool(b)
    case Int(i) => TInt(i)
    case Num(n) => TNum(n)
    case Str(s) => TStr(s)
    case Obj(ms) => TObj(NormMembers(ms))
    case Arr(vs) => TArr(NormItems(vs))
  }

  function NormMembers(ms: seq<Member>): map<string, Tree>
    decreases ms, 0
  {
    if ms == [] then map[] else NormMembers(ms[1..])[ms[0].key := Norm(ms[0].value)]
  }

  function NormItems(vs: seq<Json>): seq<Tree>
    decreases vs, 0
  {
    if vs == [] then [] else [Norm(vs[0])] + NormItems(vs[1..])
  }

  /** The patch between two different values, as a map from key to change. */
  function TDiff(from: Tree, goal: Tree): Tree
    decreases goal
  {
    if !from.TObj? || !goal.TObj? then goal
    else
      TObj(map k | k in from.m.Keys + goal.m.Keys && (k !in from.m || k !in goal.m || from.m[k] != goal.m[k]) ::
             if k !in goal.m then TNull
             else if k !in from.m || goal.m[k].TNull? then goal.m[k]
             else TDiff(from.m[k], goal.m[k]))
  }

  /** Section 2 of RFC 7386. */
  function TApply(target: Tree, patch: Tree): Tree
    decreases patch
  {
    if !patch.TObj? then patch
    else
      var t := if target.TObj? then target.m else map[];
      TObj(map k | k in t.Keys + patch.m.Keys && (k in patch.m ==> !patch.m[k].TNull?) ::
             if k !in patch.m then t[k]
             else TApply(if k in t then t[k] else TNull, patch.m[k]))
  }

  /** Null members dropped, at every depth outside arrays: a consumer treats absent and null alike. */
  function Strip(t: Tree): Tree {
    if !t.TObj? then t else TObj(map k | k in t.m && !t.m[k].TNull? :: Strip(t.m[k]))
  }
}
