/** JSON values as both JSON components of the repository keep them: objects are member lists in
    insertion order, integers are exact 64-bit values, strings are byte strings (one `char` per
    byte) and doubles are `real` numbers (no NaN, no infinities, no rounding). */
module JsonValue {
  import opened Basics

  const INT64_MIN: int := -0x8000_0000_0000_0000
  const INT64_MAX: int := 0x7fff_ffff_ffff_ffff

  type Int64 = i: int | INT64_MIN <= i <= INT64_MAX

  datatype Option<+T> = None | Some(value: T)

  datatype Member = Member(key: string, value: Json)

  datatype Json =
    | Null
    | Bool(b: bool)
    | Int(i: Int64)
    | Num(n: real)
    | Str(s: string)
    | Obj(members: seq<Member>)
    | Arr(items: seq<Json>)

  /** The first member with the given key. */
  function Find(ms: seq<Member>, key: string): (r: Option<Json>)
    ensures r.Some? <==> HasKey(ms, key)
    ensures r.Some? ==> Member(key, r.value) in ms
  {
    if ms == [] then None
    else if ms[0].key == key then Some(ms[0].value)
    else Find(ms[1..], key)
  }

  /** Replaces the first member with the given key, or appends a new one. */
  function SetMember(ms: seq<Member>, key: string, value: Json): (r: seq<Member>)
    ensures !HasKey(ms, key) ==> r == ms + [Member(key, value)]
  {
    if ms == [] then [Member(key, value)]
    else if ms[0].key == key then [Member(key, value)] + ms[1..]
    else [ms[0]] + SetMember(ms[1..], key, value)
  }

  predicate HasKey(ms: seq<Member>, key: string) {
    exists i | 0 <= i < |ms| :: ms[i].key == key
  }

  predicate DistinctKeys(ms: seq<Member>) {
    forall i, j | 0 <= i < j < |ms| :: ms[i].key != ms[j].key
  }

  /** No object anywhere in the value repeats a key. */
  predicate UniqueKeys(v: Json) {
    match v
    case Obj(ms) => DistinctKeys(ms) && forall i | 0 <= i < |ms| :: UniqueKeys(ms[i].value)
    case Arr(vs) => forall i | 0 <= i < |vs| :: UniqueKeys(vs[i])
    case _ => true
  }

  /** The value holds no double. */
  predicate NoNum(v: Json) {
    match v
    case Obj(ms) => forall i | 0 <= i < |ms| :: NoNum(ms[i].value)
    case Arr(vs) => forall i | 0 <= i < |vs| :: NoNum(vs[i])
    case Num(_) => false
    case _ => true
  }

  /** How many levels of non-empty containers enclose the innermost value. */
  function Depth(v: Json): nat
    decreases v, 1
  {
    match v
    case Obj(ms) => MembersDepth(ms)
    case Arr(vs) => ItemsDepth(vs)
    case _ => 0
  }

  function MembersDepth(ms: seq<Member>): nat
    decreases ms, 0
  {
    if ms == [] then 0 else Max(1 + Depth(ms[0].value), MembersDepth(ms[1..]))
  }

  function ItemsDepth(vs: seq<Json>): nat
    decreases vs, 0
  {
    if vs == [] then 0 else Max(1 + Depth(vs[0]), ItemsDepth(vs[1..]))
  }

  lemma {:induction false} SetMemberDistinct(ms: seq<Member>, key: string, value: Json)
    requires DistinctKeys(ms)
    ensures DistinctKeys(SetMember(ms, key, value))
  {
    if ms != [] && ms[0].key != key {
      SetMemberDistinct(ms[1..], key, value);
      var r := SetMember(ms[1..], key, value);
      forall j | 0 <= j < |r|
        ensures r[j].key != ms[0].key
      {
        SetMemberIn(ms[1..], key, value, r[j]);
      }
    }
  }

  /** Which members a set touches. */
  lemma {:induction false} SetMemberIn(ms: seq<Member>, key: string, value: Json, m: Member)
    requires m in SetMember(ms, key, value)
    ensures m in ms || m == Member(key, value)
  {
    if ms != [] && ms[0].key != key && m != ms[0] {
      SetMemberIn(ms[1..], key, value, m);
    }
  }
}
