/** The message envelope of the fleet link (plugins/fleet/fleet_proto.cpp): its text form, and
    when decoding an encoded envelope gives it back. */
module Envelope {
  import opened JsonValue
  import opened JsonText
  import opened JsonRoundTrip

  const MAX_FRAME_BYTES: nat := 0x10_0000
  const MAX_DEPTH: nat := 64

  type Int32 = i: int | -0x8000_0000 <= i < 0x8000_0000

  /** `seqNo` 0: no sequence number (ephemeral); `ack` -1: no ack; `epoch` 0: none; `ref` "": none. */
  datatype Envelope = Envelope(version: Int32, kind: string, id: string, seqNo: Int64, ack: Int64,
                               ts: Int64, ref: string, epoch: Int64, payload: Json)

  // ---- message types -----------------------------------------------------------------------

  predicate IsLower(c: char) { 'a' <= c <= 'z' }

  predicate StartsSegment(t: string, i: nat)
    requires i <= |t|
  {
    i == 0 || t[i - 1] == '.'
  }

  /** Dot-separated segments, each a lower-case letter followed by letters, digits and `_`. */
  predicate ValidType(t: string) {
    0 < |t| <= 64 && !StartsSegment(t, |t|) &&
    forall i | 0 <= i < |t| ::
      if t[i] == '.' then !StartsSegment(t, i)
      else IsLower(t[i]) || (!StartsSegment(t, i) && (IsDigit(t[i]) || t[i] == '_'))
  }

  method IsValidType(t: string) returns (ok: bool)
    ensures ok <==> ValidType(t)
  {
    if t == "" || |t| > 64 { return false; }
    var segStart := true;
    for k := 0 to |t|
      invariant segStart <==> StartsSegment(t, k)
      invariant forall i | 0 <= i < k ::
        if t[i] == '.' then !StartsSegment(t, i)
        else IsLower(t[i]) || (!StartsSegment(t, i) && (IsDigit(t[i]) || t[i] == '_'))
    {
      var c := t[k];
      if c == '.' {
        if segStart { return false; }
        segStart := true;
        continue;
      }
      var rest := IsDigit(c) || c == '_';
      if !(IsLower(c) || (!segStart && rest)) { return false; }
      segStart := false;
    }
    return !segStart;
  }

  // ---- encoding ----------------------------------------------------------------------------

  function Key(name: string): string { ",\"" + name + "\":" }

  function Part(present: bool, name: string, text: string): string {
    if present then Key(name) + text else ""
  }

  function Head(e: Envelope): string {
    "{\"v\":" + PrintInt(e.version) +
    Part(true, "type", Quote(e.kind)) +
    Part(true, "id", Quote(e.id)) +
    Part(e.seqNo > 0, "seq", PrintInt(e.seqNo)) +
    Part(e.ack >= 0, "ack", PrintInt(e.ack)) +
    Part(true, "ts", PrintInt(e.ts)) +
    Part(true, "ref", if e.ref == "" then "null" else Quote(e.ref)) +
    Part(e.epoch > 0, "epoch", PrintInt(e.epoch)) +
    Key("payload")
  }

  function Encode(e: Envelope, fmt: real -> string): string {
    Head(e) + Dump(if e.payload.Obj? then e.payload else Obj([]), fmt) + "}"
  }

  /** The payload is spliced in as text. */
  function EncodeRaw(e: Envelope, payloadText: string): string {
    Head(e) + (if payloadText == "" then "{}" else payloadText) + "}"
  }

  /** Splicing in an object's dump is encoding the object. */
  lemma RawIsEncode(e: Envelope, fmt: real -> string)
    requires e.payload.Obj?
    ensures EncodeRaw(e, Dump(e.payload, fmt)) == Encode(e, fmt)
  {
    hide Head, DumpMembers;
    assert Dump(e.payload, fmt)[0] == '{';
  }

  // ---- decoding ----------------------------------------------------------------------------

  function Get(v: Json, key: string): Option<Json> {
    if v.Obj? then Find(v.members, key) else None
  }

  /** The low 32 bits as a signed number. */
  function Wrap32(i: int): Int32 {
    var m := i % 0x1_0000_0000;
    if m < 0x8000_0000 then m else m - 0x1_0000_0000
  }

  /** An integer, or a double truncated toward zero; out of the 64-bit range the conversion is
      undefined in the source and taken as the least value here. */
  function AsInt(v: Json, def: Int64): Int64 {
    match v
    case Int(i) => i
    case Num(n) =>
      var t := if n >= 0.0 then n.Floor else -((-n).Floor);
      if INT64_MIN <= t <= INT64_MAX then t else INT64_MIN
    case _ => def
  }

  /** An optional integer field with a lower bound; `null` counts as absent. */
  function BoundedInt(f: Option<Json>, low: Int64, def: Int64): Option<Int64> {
    match f
    case None => Some(def)
    case Some(Null) => Some(def)
    case Some(Int(i)) => if i < low then None else Some(i)
    case Some(_) => None
  }

  function StrField(f: Option<Json>): string {
    match f
    case Some(Str(s)) => s
    case _ => ""
  }

  function IntField(f: Option<Json>): Int64 {
    match f
    case Some(v) => AsInt(v, 0)
    case None => 0
  }

  function FromJson(v: Json): Option<Envelope> {
    match Get(v, "v")
    case Some(Int(version)) =>
      var kind := Get(v, "type");
      var sq := BoundedInt(Get(v, "seq"), 1, 0);
      var ack := BoundedInt(Get(v, "ack"), 0, -1);
      var payload := Get(v, "payload");
      if !(kind.Some? && kind.value.Str? && ValidType(kind.value.s)) then None
      else if sq.None? || ack.None? || payload.None? || !payload.value.Obj? then None
      else Some(Envelope(Wrap32(version), kind.value.s, StrField(Get(v, "id")), sq.value, ack.value,
                         IntField(Get(v, "ts")), StrField(Get(v, "ref")), IntField(Get(v, "epoch")), payload.value))
    case _ => None
  }

  function Decode(text: string): Option<Envelope> {
    if |text| > MAX_FRAME_BYTES then None
    else
      match Parse(text, MAX_DEPTH)
      case None => None
      case Some(v) => FromJson(v)
  }

  // ---- an encoded envelope is the dump of an object ----------------------------------------

  function Opt(present: bool, m: Member): seq<Member> { if present then [m] else [] }

  function Fields(e: Envelope): seq<Member> {
    [Member("v", Int(e.version))] + (
    [Member("type", Str(e.kind))] + (
    [Member("id", Str(e.id))] + (
    Opt(e.seqNo > 0, Member("seq", Int(e.seqNo))) + (
    Opt(e.ack >= 0, Member("ack", Int(e.ack))) + (
    [Member("ts", Int(e.ts))] + (
    [Member("ref", if e.ref == "" then Null else Str(e.ref))] + (
    Opt(e.epoch > 0, Member("epoch", Int(e.epoch))) +
    [Member("payload", if e.payload.Obj? then e.payload else Obj([]))])))))))
  }

  /** The text of members after the first: each with a comma before it. */
  function Tail(ms: seq<Member>, fmt: real -> string): string {
    if ms == [] then "" else "," + DumpMembers(ms, fmt)
  }

  lemma {:induction false} TailConcat(a: seq<Member>, b: seq<Member>, fmt: real -> string)
    ensures Tail(a + b, fmt) == Tail(a, fmt) + Tail(b, fmt)
  {
    hide DumpMembers;
    if a == [] {
      assert a + b == b;
      assert "" + Tail(b, fmt) == Tail(b, fmt);
    } else {
      hide Tail;
      TailConcat(a[1..], b, fmt);
      assert (a + b)[1..] == a[1..] + b && (a + b)[0] == a[0];
      TailFirst(a, fmt);
      TailFirst(a + b, fmt);
      Assoc3(Tail([a[0]], fmt), Tail(a[1..], fmt), Tail(b, fmt));
    }
  }

  lemma TailFirst(ms: seq<Member>, fmt: real -> string)
    requires ms != []
    ensures Tail(ms, fmt) == Tail([ms[0]], fmt) + Tail(ms[1..], fmt)
  {
    hide Quote, Dump;
    var head := Quote(ms[0].key) + ":" + Dump(ms[0].value, fmt);
    assert Tail([ms[0]], fmt) == "," + head by { assert head + "" == head; }
    assert DumpMembers(ms, fmt) == head + Tail(ms[1..], fmt);
    Assoc3(",", head, Tail(ms[1..], fmt));
  }

  predicate PlainName(s: string) { forall k | 0 <= k < |s| :: IsLower(s[k]) }

  lemma {:induction false} EscapePlain(s: string)
    requires PlainName(s)
    ensures Escape(s) == s
  {
    if s != "" {
      assert EscapeChar(s[0]) == [s[0]];
      EscapePlain(s[1..]);
    }
  }

  lemma TailField(name: string, v: Json, fmt: real -> string)
    requires PlainName(name)
    ensures Tail([Member(name, v)], fmt) == Key(name) + Dump(v, fmt)
  {
    hide Dump;
    EscapePlain(name);
    var q := "\"" + name + "\"";
    var t := Dump(v, fmt);
    assert DumpMembers([Member(name, v)], fmt) == q + ":" + t by { assert q + ":" + t + "" == q + ":" + t; }
    Assoc3(",", q + ":", t);
    assert "," + (q + ":") == Key(name);
  }

  lemma TailOpt(present: bool, name: string, v: Json, fmt: real -> string)
    requires PlainName(name)
    ensures Tail(Opt(present, Member(name, v)), fmt) == Part(present, name, Dump(v, fmt))
  {
    TailField(name, v, fmt);
  }

  /** Appending a member's text and then the rest writes the members in order. */
  lemma Write(written: string, present: bool, m: Member, ms: seq<Member>, rest: seq<Member>, fmt: real -> string)
      returns (next: string)
    requires PlainName(m.key) && ms == Opt(present, m) + rest
    ensures next == written + Part(present, m.key, Dump(m.value, fmt))
    ensures written + Tail(ms, fmt) == next + Tail(rest, fmt)
  {
    hide Tail, Dump;
    var piece := Part(present, m.key, Dump(m.value, fmt));
    TailConcat(Opt(present, m), rest, fmt);
    TailOpt(present, m.key, m.value, fmt);
    Assoc3(written, piece, Tail(rest, fmt));
    next := written + piece;
  }

  lemma EncodeIsDump(e: Envelope, fmt: real -> string)
    ensures Encode(e, fmt) == Dump(Obj(Fields(e)), fmt)
  {
    hide Tail, Dump, DumpMembers, Quote, PrintInt, Part, Key, Opt, PlainName;
    Names();
    Singles();
    var p := Member("payload", if e.payload.Obj? then e.payload else Obj([]));
    var ep, rf := Member("epoch", Int(e.epoch)), Member("ref", if e.ref == "" then Null else Str(e.ref));
    var ts, ak, sq := Member("ts", Int(e.ts)), Member("ack", Int(e.ack)), Member("seq", Int(e.seqNo));
    var id, ty := Member("id", Str(e.id)), Member("type", Str(e.kind));
    var f7 := Opt(e.epoch > 0, ep) + [p];
    var f6 := [rf] + f7;
    var f5 := [ts] + f6;
    var f4 := Opt(e.ack >= 0, ak) + f5;
    var f3 := Opt(e.seqNo > 0, sq) + f4;
    var f2 := [id] + f3;
    var f1 := [ty] + f2;
    assert Fields(e) == [Member("v", Int(e.version))] + f1;
    var w0 := "{\"v\":" + PrintInt(e.version);
    var w1 := Write(w0, true, ty, f1, f2, fmt);
    var w2 := Write(w1, true, id, f2, f3, fmt);
    var w3 := Write(w2, e.seqNo > 0, sq, f3, f4, fmt);
    var w4 := Write(w3, e.ack >= 0, ak, f4, f5, fmt);
    var w5 := Write(w4, true, ts, f5, f6, fmt);
    var w6 := Write(w5, true, rf, f6, f7, fmt);
    var w7 := Write(w6, e.epoch > 0, ep, f7, [p], fmt);
    LastPiece(w7, p, fmt);
    assert Head(e) == w7 + Key("payload") by { ScalarDumps(e, fmt); }
    FirstPiece(e.version, f1, fmt);
  }

  lemma Singles()
    ensures forall m: Member :: Opt(true, m) == [m]
  {}

  lemma Names()
    ensures PlainName("type") && PlainName("id") && PlainName("seq") && PlainName("ack")
    ensures PlainName("ts") && PlainName("ref") && PlainName("epoch")
  {}

  lemma ScalarDumps(e: Envelope, fmt: real -> string)
    ensures forall i: Int64 :: Dump(Int(i), fmt) == PrintInt(i)
    ensures forall t: string :: Dump(Str(t), fmt) == Quote(t)
    ensures Dump(Null, fmt) == "null"
  {}

  lemma LastPiece(written: string, p: Member, fmt: real -> string)
    requires p.key == "payload"
    ensures written + Tail([p], fmt) == (written + Key("payload")) + Dump(p.value, fmt)
  {
    hide Tail, Dump;
    TailField("payload", p.value, fmt);
    Assoc3(written, Key("payload"), Dump(p.value, fmt));
  }

  /** The opening brace and the version, then the other members, is an object's text. */
  lemma FirstPiece(version: Int64, rest: seq<Member>, fmt: real -> string)
    ensures Dump(Obj([Member("v", Int(version))] + rest), fmt) ==
            "{\"v\":" + PrintInt(version) + Tail(rest, fmt) + "}"
  {
    hide PrintInt;
    var ms := [Member("v", Int(version))] + rest;
    var n, t := PrintInt(version), Tail(rest, fmt);
    assert ms[1..] == rest;
    EscapePlain("v");
    var q := "\"" + "v" + "\"" + ":";
    assert DumpMembers(ms, fmt) == q + n + t;
    Assoc3("{", q + n, t);
    Assoc3("{", q, n);
    assert "{" + q == "{\"v\":";
  }

  // ---- decoding what was encoded -----------------------------------------------------------

  /** The order in which an envelope's members are written. */
  function Rank(name: string): nat {
    if name == "v" then 1 else if name == "type" then 2 else if name == "id" then 3
    else if name == "seq" then 4 else if name == "ack" then 5 else if name == "ts" then 6
    else if name == "ref" then 7 else if name == "epoch" then 8 else if name == "payload" then 9 else 0
  }

  /** Members in the order of their keys' ranks, all above `low`. */
  predicate Ranked(rank: string -> nat, ms: seq<Member>, low: nat) {
    (forall i | 0 <= i < |ms| :: low < rank(ms[i].key)) &&
    forall i, j | 0 <= i < j < |ms| :: rank(ms[i].key) < rank(ms[j].key)
  }

  lemma RankedCons(rank: string -> nat, present: bool, m: Member, rest: seq<Member>, low: nat)
    requires low < rank(m.key) && Ranked(rank, rest, rank(m.key))
    ensures Ranked(rank, Opt(present, m) + rest, low)
  {}

  lemma Ranks()
    ensures Rank("v") == 1 && Rank("type") == 2 && Rank("id") == 3 && Rank("seq") == 4 && Rank("ack") == 5
    ensures Rank("ts") == 6 && Rank("ref") == 7 && Rank("epoch") == 8 && Rank("payload") == 9
  {
    assert "seq"[0] != "ack"[0] && "seq"[0] != "ref"[0] && "ack"[0] != "ref"[0] && "id"[0] != "ts"[0];
  }

  lemma FieldsDistinct(e: Envelope)
    ensures DistinctKeys(Fields(e))
  {
    Ranks();
    Singles();
    hide Rank, Opt, Ranked;
    var p := Member("payload", if e.payload.Obj? then e.payload else Obj([]));
    assert Ranked(Rank, [p], 8) by { Single(Rank, p, 8); }
    var f7 := Opt(e.epoch > 0, Member("epoch", Int(e.epoch))) + [p];
    RankedCons(Rank, e.epoch > 0, Member("epoch", Int(e.epoch)), [p], 7);
    var rf := Member("ref", if e.ref == "" then Null else Str(e.ref));
    RankedCons(Rank, true, rf, f7, 6);
    var f5 := [Member("ts", Int(e.ts))] + ([rf] + f7);
    RankedCons(Rank, true, Member("ts", Int(e.ts)), [rf] + f7, 5);
    var f4 := Opt(e.ack >= 0, Member("ack", Int(e.ack))) + f5;
    RankedCons(Rank, e.ack >= 0, Member("ack", Int(e.ack)), f5, 4);
    var f3 := Opt(e.seqNo > 0, Member("seq", Int(e.seqNo))) + f4;
    RankedCons(Rank, e.seqNo > 0, Member("seq", Int(e.seqNo)), f4, 3);
    var f2 := [Member("id", Str(e.id))] + f3;
    RankedCons(Rank, true, Member("id", Str(e.id)), f3, 2);
    var f1 := [Member("type", Str(e.kind))] + f2;
    RankedCons(Rank, true, Member("type", Str(e.kind)), f2, 1);
    RankedCons(Rank, true, Member("v", Int(e.version)), f1, 0);
    RankedDistinct(Rank, Fields(e));
  }

  lemma Single(rank: string -> nat, m: Member, low: nat)
    requires low < rank(m.key)
    ensures Ranked(rank, [m], low)
  {}

  lemma RankedDistinct(rank: string -> nat, ms: seq<Member>)
    requires Ranked(rank, ms, 0)
    ensures DistinctKeys(ms)
  {}

  lemma {:induction false} FindUnique(ms: seq<Member>, m: Member)
    requires DistinctKeys(ms) && m in ms
    ensures Find(ms, m.key) == Some(m.value)
  {
    if ms[0] != m {
      var i :| 0 <= i < |ms| && ms[i] == m;
      assert ms[1..][i - 1] == m;
      FindUnique(ms[1..], m);
    }
  }

  /** What survives the trip: negative numbers that mean "absent" are absent, a payload that is
      not an object is the empty object. */
  function Normal(e: Envelope): Envelope {
    e.(seqNo := if e.seqNo > 0 then e.seqNo else 0,
       ack := if e.ack >= 0 then e.ack else -1,
       epoch := if e.epoch > 0 then e.epoch else 0,
       payload := if e.payload.Obj? then e.payload else Obj([]))
  }

  lemma FieldsPresent(e: Envelope)
    ensures Member("v", Int(e.version)) in Fields(e) && Member("type", Str(e.kind)) in Fields(e)
    ensures Member("id", Str(e.id)) in Fields(e) && Member("ts", Int(e.ts)) in Fields(e)
    ensures Member("ref", if e.ref == "" then Null else Str(e.ref)) in Fields(e)
    ensures Member("payload", Normal(e).payload) in Fields(e)
    ensures e.seqNo > 0 ==> Member("seq", Int(e.seqNo)) in Fields(e)
    ensures e.ack >= 0 ==> Member("ack", Int(e.ack)) in Fields(e)
    ensures e.epoch > 0 ==> Member("epoch", Int(e.epoch)) in Fields(e)
  {}

  lemma NoKeyCons(present: bool, m: Member, rest: seq<Member>, key: string)
    requires !present || Rank(m.key) != Rank(key)
    requires !HasKey(rest, key)
    ensures !HasKey(Opt(present, m) + rest, key)
  {
    hide Rank;
  }

  lemma FieldAbsent(e: Envelope, key: string)
    requires || (Rank(key) == 4 && e.seqNo <= 0) || (Rank(key) == 5 && e.ack < 0) || (Rank(key) == 8 && e.epoch <= 0)
    ensures Find(Fields(e), key) == None
  {
    Ranks();
    Singles();
    hide Rank, Opt, HasKey, Find;
    var p := Member("payload", if e.payload.Obj? then e.payload else Obj([]));
    assert !HasKey([], key) by { Empty(key); }
    NoKeyCons(true, p, [], key);
    assert [p] + [] == [p];
    var f7 := Opt(e.epoch > 0, Member("epoch", Int(e.epoch))) + [p];
    NoKeyCons(e.epoch > 0, Member("epoch", Int(e.epoch)), [p], key);
    var rf := Member("ref", if e.ref == "" then Null else Str(e.ref));
    NoKeyCons(true, rf, f7, key);
    var f5 := [Member("ts", Int(e.ts))] + ([rf] + f7);
    NoKeyCons(true, Member("ts", Int(e.ts)), [rf] + f7, key);
    var f4 := Opt(e.ack >= 0, Member("ack", Int(e.ack))) + f5;
    NoKeyCons(e.ack >= 0, Member("ack", Int(e.ack)), f5, key);
    var f3 := Opt(e.seqNo > 0, Member("seq", Int(e.seqNo))) + f4;
    NoKeyCons(e.seqNo > 0, Member("seq", Int(e.seqNo)), f4, key);
    var f2 := [Member("id", Str(e.id))] + f3;
    NoKeyCons(true, Member("id", Str(e.id)), f3, key);
    NoKeyCons(true, Member("type", Str(e.kind)), f2, key);
    NoKeyCons(true, Member("v", Int(e.version)), [Member("type", Str(e.kind))] + f2, key);
    assert !HasKey(Fields(e), key);
  }

  lemma Empty(key: string)
    ensures !HasKey([], key)
  {}

  lemma {:induction false} FromFields(e: Envelope)
    ensures FromJson(Obj(Fields(e))) == if ValidType(e.kind) then Some(Normal(e)) else None
  {
    FieldsDistinct(e);
    FieldsPresent(e);
    Ranks();
    hide Fields, ValidType, Find, Rank, DistinctKeys;
    var ms := Fields(e);
    FindUnique(ms, Member("v", Int(e.version)));
    FindUnique(ms, Member("type", Str(e.kind)));
    FindUnique(ms, Member("id", Str(e.id)));
    FindUnique(ms, Member("ts", Int(e.ts)));
    FindUnique(ms, Member("ref", if e.ref == "" then Null else Str(e.ref)));
    FindUnique(ms, Member("payload", Normal(e).payload));
    if e.seqNo > 0 { FindUnique(ms, Member("seq", Int(e.seqNo))); } else { FieldAbsent(e, "seq"); }
    if e.ack >= 0 { FindUnique(ms, Member("ack", Int(e.ack))); } else { FieldAbsent(e, "ack"); }
    if e.epoch > 0 { FindUnique(ms, Member("epoch", Int(e.epoch))); } else { FieldAbsent(e, "epoch"); }
    assert Wrap32(e.version) == e.version;
  }

  // ---- the theorem -------------------------------------------------------------------------

  /** What a sender may rely on: the envelopes that arrive as they were sent. */
  predicate Deliverable(e: Envelope, fmt: real -> string) {
    && ValidType(e.kind)
    && e.seqNo >= 0 && e.ack >= -1 && e.epoch >= 0
    && e.payload.Obj? && UniqueKeys(e.payload)
    && Depth(e.payload) < MAX_DEPTH
    && |Encode(e, fmt)| <= MAX_FRAME_BYTES
  }

  lemma FieldsShape(e: Envelope)
    requires NoNum(e.payload)
    ensures NoNum(Obj(Fields(e)))
    ensures UniqueKeys(Normal(e).payload) ==> UniqueKeys(Obj(Fields(e)))
  {
    FieldsDistinct(e);
    forall i | 0 <= i < |Fields(e)|
      ensures NoNum(Fields(e)[i].value)
      ensures UniqueKeys(Normal(e).payload) ==> UniqueKeys(Fields(e)[i].value)
    {
      FieldKind(e, Fields(e)[i]);
    }
  }

  lemma FieldKind(e: Envelope, m: Member)
    requires m in Fields(e)
    ensures m.value.Int? || m.value.Str? || m.value.Null? || m.value == Normal(e).payload
  {
    Singles();
    hide Opt;
    var p := Member("payload", if e.payload.Obj? then e.payload else Obj([]));
    var ep, rf := Member("epoch", Int(e.epoch)), Member("ref", if e.ref == "" then Null else Str(e.ref));
    var ts, ak, sq := Member("ts", Int(e.ts)), Member("ack", Int(e.ack)), Member("seq", Int(e.seqNo));
    var f7 := Opt(e.epoch > 0, ep) + [p];
    var f4 := Opt(e.ack >= 0, ak) + ([ts] + ([rf] + f7));
    OneOf(e.epoch > 0, ep, [p], m);
    OneOf(e.ack >= 0, ak, [ts] + ([rf] + f7), m);
    OneOf(e.seqNo > 0, sq, f4, m);
  }

  lemma OneOf(present: bool, first: Member, rest: seq<Member>, m: Member)
    ensures m in Opt(present, first) + rest ==> m == first || m in rest
  {}

  lemma {:induction false} MembersDepthBound(ms: seq<Member>, low: nat, high: nat)
    requires forall m | m in ms :: 1 + Depth(m.value) <= high
    requires exists m | m in ms :: 1 + Depth(m.value) == low
    ensures low <= MembersDepth(ms) <= high
  {
    hide Depth;
    if |ms| > 1 && exists m | m in ms[1..] :: 1 + Depth(m.value) == low {
      MembersDepthBound(ms[1..], low, high);
    } else {
      var m :| m in ms && 1 + Depth(m.value) == low;
      assert ms[0] == m;
      if |ms| > 1 { MembersDepthBound(ms[1..], 1 + Depth(ms[1].value), high); }
    }
  }

  lemma FieldsDepth(e: Envelope)
    ensures Depth(Obj(Fields(e))) == 1 + Depth(Normal(e).payload)
  {
    hide Fields;
    FieldsPresent(e);
    var d := 1 + Depth(Normal(e).payload);
    forall m | m in Fields(e) ensures 1 + Depth(m.value) <= d { FieldKind(e, m); }
    MembersDepthBound(Fields(e), d, d);
  }

  /** A payload found in a parsed object has unique keys and leaves room for the envelope. */
  lemma FoundShape(v: Json, key: string)
    requires v.Obj? && UniqueKeys(v) && Depth(v) <= MAX_DEPTH && Find(v.members, key).Some?
    ensures UniqueKeys(Find(v.members, key).value) && Depth(Find(v.members, key).value) < MAX_DEPTH
  {
    FindDepth(v.members, key);
  }

  lemma {:induction false} FindDepth(ms: seq<Member>, key: string)
    requires Find(ms, key).Some?
    ensures 1 + Depth(Find(ms, key).value) <= MembersDepth(ms)
  {
    hide Depth;
    if ms[0].key != key { FindDepth(ms[1..], key); }
  }

  /** Decoding an encoded envelope gives it back exactly when it is deliverable. */
  lemma EnvelopeRoundTrip(e: Envelope, fmt: real -> string)
    requires NoNum(e.payload)
    ensures Decode(Encode(e, fmt)) == Some(e) <==> Deliverable(e, fmt)
  {
    hide Encode, Dump, Parse, Fields, UniqueKeys, Depth, NoNum, ValidType, FromJson, Find;
    EncodeIsDump(e, fmt);
    FieldsShape(e);
    FieldsDepth(e);
    FromFields(e);
    RoundTrip(Obj(Fields(e)), fmt, MAX_DEPTH);
    var text := Encode(e, fmt);
    if Decode(text) == Some(e) {
      var v := Parse(text, MAX_DEPTH).value;
      ParsedValue(text, MAX_DEPTH);
      DecodedShape(v, e);
      FoundShape(v, "payload");
      assert Normal(e).payload == e.payload;
      assert v == Obj(Fields(e));
    }
  }

  lemma DecodedShape(v: Json, e: Envelope)
    requires FromJson(v) == Some(e)
    ensures v.Obj? && Find(v.members, "payload") == Some(e.payload) && e.payload.Obj?
    ensures ValidType(e.kind) && e.seqNo >= 0 && e.ack >= -1
  {
    hide Find, ValidType;
  }

  lemma ParsedValue(text: string, maxDepth: nat)
    requires Parse(text, maxDepth).Some?
    ensures UniqueKeys(Parse(text, maxDepth).value) && Depth(Parse(text, maxDepth).value) <= maxDepth
  {
    hide ParseVal;
    ParsedShape(text, 0, 0, maxDepth);
  }
}
