/** The text of the spool's log (plugins/fleet/fleet_spool.cpp: RecordLine and LoadLog): what is written is
    read back, and a line that a crash cut anywhere is the record or is noticed. */
module RecordText {
  import opened JsonValue
  import opened JsonText
  import opened JsonRoundTrip
  import opened JsonPrefix
  import opened Env = Envelope
  import opened Spool
  import opened SpoolLaws
  import opened SpoolFiles

  // ---- one line ----------------------------------------------------------------------------------

  /** The numbers of a record fit 64 bits. */
  predicate Fits(r: Record) {
    && INT64_MIN <= r.seqNo <= INT64_MAX && INT64_MIN <= r.ts <= INT64_MAX && INT64_MIN <= r.epoch <= INT64_MAX
  }

  /** The members of a record's line up to the payload, and then `rest`. */
  function HeadThen(r: Record, rest: seq<Member>): seq<Member>
    requires Fits(r)
  {
    [Member("seq", Int(r.seqNo))] + (
    [Member("type", Str(r.kind))] + (
    [Member("id", Str(r.id))] + (
    Opt(r.ref != "", Member("ref", Str(r.ref))) + LaterThen(r, rest))))
  }

  function LaterThen(r: Record, rest: seq<Member>): seq<Member>
    requires Fits(r)
  {
    [Member("ts", Int(r.ts))] + ([Member("epoch", Int(r.epoch))] + ([Member("crit", Bool(r.critical))] + rest))
  }

  function RecordFields(r: Record, payload: Json): seq<Member>
    requires Fits(r)
  {
    HeadThen(r, [Member("payload", payload)])
  }

  /** What the loader makes of a line; the numbering is checked later. */
  function ReadLine(line: string, fmt: real -> string): LogLine {
    match Parse(line, MAX_DEPTH)
    case None => Torn
    case Some(v) => FromValue(v, fmt)
  }

  function FromValue(v: Json, fmt: real -> string): LogLine {
    var p := Get(v, "payload");
    if !v.Obj? || p.None? || !p.value.Obj? then Torn
    else
      var crit := Get(v, "crit");
      Line(Record(IntField(Get(v, "seq")), StrField(Get(v, "type")), StrField(Get(v, "id")), StrField(Get(v, "ref")),
                  IntField(Get(v, "ts")), IntField(Get(v, "epoch")),
                  crit.Some? && crit.value.Bool? && crit.value.b, Dump(p.value, fmt)))
  }

  /** The head of a line is the start of an object's dump, whatever follows. */
  lemma HeadWritten(r: Record, rest: seq<Member>, fmt: real -> string) returns (w: string)
    requires Fits(r)
    ensures RecordHead(r) == w + Key("payload")
    ensures "{" + DumpMembers(HeadThen(r, rest), fmt) == w + Tail(rest, fmt)
  {
    hide Tail, Dump, DumpMembers, Quote, PrintInt, Part, Key, Opt, PlainName;
    RecordNames();
    Singles();
    var cr := Member("crit", Bool(r.critical));
    var ep, ts, rf := Member("epoch", Int(r.epoch)), Member("ts", Int(r.ts)), Member("ref", Str(r.ref));
    var id, ty := Member("id", Str(r.id)), Member("type", Str(r.kind));
    var f6 := [cr] + rest;
    var f5 := [ep] + f6;
    var f4 := [ts] + f5;
    var f3 := Opt(r.ref != "", rf) + f4;
    var f2 := [id] + f3;
    var f1 := [ty] + f2;
    assert HeadThen(r, rest) == [Member("seq", Int(r.seqNo))] + f1;
    var w0 := "{\"seq\":" + PrintInt(r.seqNo);
    var w1 := Write(w0, true, ty, f1, f2, fmt);
    var w2 := Write(w1, true, id, f2, f3, fmt);
    var w3 := Write(w2, r.ref != "", rf, f3, f4, fmt);
    var w4 := Write(w3, true, ts, f4, f5, fmt);
    var w5 := Write(w4, true, ep, f5, f6, fmt);
    w := Write(w5, true, cr, f6, rest, fmt);
    assert RecordHead(r) == w + Key("payload") by { FieldDumps(fmt); }
    FirstSeq(r.seqNo, f1, fmt);
  }

  /** A line whose payload is a dump is, without its newline, the dump of an object. */
  lemma LineIsDump(r: Record, p: Json, fmt: real -> string)
    requires Fits(r) && r.payload == Dump(p, fmt)
    ensures RecordLine(r) == Dump(Obj(RecordFields(r, p)), fmt) + "\n"
  {
    hide Tail, DumpMembers, RecordHead, HeadThen, Key;
    var pl := Member("payload", p);
    var w := HeadWritten(r, [pl], fmt);
    LastPiece(w, pl, fmt);
    var d := Dump(p, fmt);
    assert Dump(Obj(RecordFields(r, p)), fmt) == "{" + DumpMembers(RecordFields(r, p), fmt) + "}";
    hide Dump;
  }

  lemma RecordNames()
    ensures PlainName("type") && PlainName("id") && PlainName("ref") && PlainName("ts")
    ensures PlainName("epoch") && PlainName("crit")
  {}

  lemma FieldDumps(fmt: real -> string)
    ensures forall i: Int64 :: Dump(Int(i), fmt) == PrintInt(i)
    ensures forall t: string :: Dump(Str(t), fmt) == Quote(t)
    ensures Dump(Bool(true), fmt) == "true" && Dump(Bool(false), fmt) == "false"
  {}

  lemma FirstSeq(n: Int64, rest: seq<Member>, fmt: real -> string)
    ensures "{" + DumpMembers([Member("seq", Int(n))] + rest, fmt) == "{\"seq\":" + PrintInt(n) + Tail(rest, fmt)
  {
    hide PrintInt, Escape;
    var ms := [Member("seq", Int(n))] + rest;
    var d, t := PrintInt(n), Tail(rest, fmt);
    assert ms[1..] == rest;
    var q := Quote("seq") + ":";
    assert DumpMembers(ms, fmt) == q + d + t;
    hide DumpMembers, Quote, Tail;
    Assoc3("{", q + d, t);
    Assoc3("{", q, d);
    assert "{" + q == "{\"seq\":" by { QuotedSeq(); }
  }

  lemma QuotedSeq()
    ensures Quote("seq") == "\"seq\""
  {
    hide Escape;
    var name := "seq";
    EscapePlain(name);
    assert "\"" + name + "\"" == "\"seq\"";
  }

  // ---- the members of a line ---------------------------------------------------------------------

  function Place(name: string): nat {
    if name == "seq" then 1 else if name == "type" then 2 else if name == "id" then 3 else if name == "ref" then 4
    else if name == "ts" then 5 else if name == "epoch" then 6 else if name == "crit" then 7
    else if name == "payload" then 8 else 0
  }

  lemma Places()
    ensures Place("seq") == 1 && Place("type") == 2 && Place("id") == 3 && Place("ref") == 4
    ensures Place("ts") == 5 && Place("epoch") == 6 && Place("crit") == 7 && Place("payload") == 8
  {
    assert "seq"[0] != "ref"[0] && "id"[0] != "ts"[0] && "type"[0] != "crit"[0];
  }

  lemma LaterRanked(r: Record, p: Json)
    requires Fits(r)
    ensures Ranked(Place, LaterThen(r, [Member("payload", p)]), 4)
  {
    Places();
    Singles();
    hide Place, Opt, Ranked;
    var pl, cr, ep := Member("payload", p), Member("crit", Bool(r.critical)), Member("epoch", Int(r.epoch));
    Single(Place, pl, 7);
    RankedCons(Place, true, cr, [pl], 6);
    RankedCons(Place, true, ep, [cr] + [pl], 5);
    RankedCons(Place, true, Member("ts", Int(r.ts)), [ep] + ([cr] + [pl]), 4);
  }

  lemma RecordDistinct(r: Record, p: Json)
    requires Fits(r)
    ensures DistinctKeys(RecordFields(r, p))
  {
    Places();
    Singles();
    LaterRanked(r, p);
    var later := LaterThen(r, [Member("payload", p)]);
    var sq, rf := Member("seq", Int(r.seqNo)), Member("ref", Str(r.ref));
    var id, ty := Member("id", Str(r.id)), Member("type", Str(r.kind));
    assert RecordFields(r, p) == [sq] + ([ty] + ([id] + (Opt(r.ref != "", rf) + later)));
    hide Place, Opt, Ranked, LaterThen, RecordFields, DistinctKeys;
    var f3 := Opt(r.ref != "", rf) + later;
    assert Ranked(Place, f3, 3) by { RankedCons(Place, r.ref != "", rf, later, 3); }
    RankedCons(Place, true, id, f3, 2);
    RankedCons(Place, true, ty, [id] + f3, 1);
    RankedCons(Place, true, sq, [ty] + ([id] + f3), 0);
    RankedDistinct(Place, RecordFields(r, p));
  }

  lemma RecordPresent(r: Record, p: Json)
    requires Fits(r)
    ensures var ms := RecordFields(r, p);
      && Member("seq", Int(r.seqNo)) in ms && Member("type", Str(r.kind)) in ms && Member("id", Str(r.id)) in ms
      && Member("ts", Int(r.ts)) in ms && Member("epoch", Int(r.epoch)) in ms && Member("crit", Bool(r.critical)) in ms
      && Member("payload", p) in ms && (r.ref != "" ==> Member("ref", Str(r.ref)) in ms)
  {}

  lemma SplitFields(r: Record, p: Json)
    requires Fits(r)
    ensures RecordFields(r, p) == HeadThen(r, []) + [Member("payload", p)] && HeadThen(r, []) != []
  {}

  /** Every member before the payload is a number, a string or a flag. */
  lemma HeadKind(r: Record, m: Member)
    requires Fits(r) && m in HeadThen(r, [])
    ensures m.value.Int? || m.value.Str? || m.value.Bool?
    ensures r.ref == "" ==> Place(m.key) != 4
  {
    Places();
    hide Place;
  }

  lemma RecordKind(r: Record, p: Json, m: Member)
    requires Fits(r) && m in RecordFields(r, p)
    ensures m.value.Int? || m.value.Str? || m.value.Bool? || m == Member("payload", p)
    ensures r.ref == "" ==> Place(m.key) != 4
  {
    Places();
    SplitFields(r, p);
    hide Place, HeadThen;
    if m != Member("payload", p) { HeadKind(r, m); }
  }

  lemma NoRef(r: Record, p: Json)
    requires Fits(r) && r.ref == ""
    ensures Find(RecordFields(r, p), "ref") == None
  {
    hide RecordFields, Place;
    Places();
    var ms := RecordFields(r, p);
    forall i | 0 <= i < |ms| ensures ms[i].key != "ref" { RecordKind(r, p, ms[i]); }
  }

  lemma RecordFound(r: Record, p: Json)
    requires Fits(r)
    ensures var ms := RecordFields(r, p);
      && Find(ms, "seq") == Some(Int(r.seqNo)) && Find(ms, "type") == Some(Str(r.kind)) && Find(ms, "id") == Some(Str(r.id))
      && Find(ms, "ts") == Some(Int(r.ts)) && Find(ms, "epoch") == Some(Int(r.epoch))
      && Find(ms, "crit") == Some(Bool(r.critical)) && Find(ms, "payload") == Some(p)
      && Find(ms, "ref") == (if r.ref != "" then Some(Str(r.ref)) else None)
  {
    RecordDistinct(r, p);
    RecordPresent(r, p);
    var ms := RecordFields(r, p);
    hide RecordFields, Find, DistinctKeys;
    FindUnique(ms, Member("seq", Int(r.seqNo)));
    FindUnique(ms, Member("type", Str(r.kind)));
    FindUnique(ms, Member("id", Str(r.id)));
    FindUnique(ms, Member("ts", Int(r.ts)));
    FindUnique(ms, Member("epoch", Int(r.epoch)));
    FindUnique(ms, Member("crit", Bool(r.critical)));
    FindUnique(ms, Member("payload", p));
    if r.ref != "" { FindUnique(ms, Member("ref", Str(r.ref))); } else { NoRef(r, p); }
  }

  /** The members of a record give the record, its payload printed again. */
  lemma FromRecordFields(r: Record, p: Json, fmt: real -> string)
    requires Fits(r) && p.Obj?
    ensures FromValue(Obj(RecordFields(r, p)), fmt) == Line(r.(payload := Dump(p, fmt)))
  {
    hide RecordFields, Find, Dump;
    RecordFound(r, p);
  }

  // ---- reading a line back -----------------------------------------------------------------------

  /** A line as it stands in the log (without its newline). */
  function LineText(r: Record): string { RecordHead(r) + r.payload + "}" }

  predicate OneLine(s: string) { forall k | 0 <= k < |s| :: s[k] != '\n' }

  /** The value of a payload text as it nests in a line, one level down. */
  function Value(payload: string): Option<Json> { Parse(payload, MAX_DEPTH - 1) }

  /** Records the log can keep: any payload text of one line that is an object within the nesting limit. */
  predicate Storable(r: Record) {
    Fits(r) && OneLine(r.payload) && Value(r.payload).Some? && Value(r.payload).value.Obj?
  }

  /** What a restart makes of a stored record: the same, its payload printed canonically. */
  function Reread(r: Record, fmt: real -> string): Record {
    if Value(r.payload).Some? then r.(payload := Dump(Value(r.payload).value, fmt)) else r
  }

  /** Inside a line the payload is read as it is alone; the whitespace after it is skipped. */
  lemma PayloadInLine(line: string, at: nat, payload: string, v: Json)
    requires Holds(line, at, payload) && CharAt(line, at + |payload|, '}') && Value(payload) == Some(v) && v.Obj?
    ensures ParseVal(line, at, 1, MAX_DEPTH).Ok? && ParseVal(line, at, 1, MAX_DEPTH).value == v
    ensures SkipWs(line, ParseVal(line, at, 1, MAX_DEPTH).next) == at + |payload|
  {
    DeeperVal(payload, 0, 0, MAX_DEPTH - 1);
    ObjectBrace(payload, 0, MAX_DEPTH - 1);
    hide ParseVal;
    SameVal(payload, line, at, 0, 1, MAX_DEPTH);
    var n := ParseVal(payload, 0, 0, MAX_DEPTH - 1).next;
    SkipToEnd(payload, line, at, n);
  }

  lemma ObjectBrace(p: string, depth: nat, maxDepth: nat)
    requires ParseVal(p, 0, depth, maxDepth).Ok? && ParseVal(p, 0, depth, maxDepth).value.Obj?
    ensures CharAt(p, SkipWs(p, 0), '{')
  {
    hide ObjLoop, ParseStr;
    ArrNoObj(p, depth, maxDepth);
    hide ArrLoop;
  }

  lemma ArrNoObj(p: string, depth: nat, maxDepth: nat)
    ensures forall i: nat, acc: seq<Json> | i <= |p| && ArrLoop(p, i, depth, maxDepth, acc).Ok? :: ArrLoop(p, i, depth, maxDepth, acc).value.Arr?
  {
    forall i: nat, acc: seq<Json> | i <= |p| && ArrLoop(p, i, depth, maxDepth, acc).Ok?
      ensures ArrLoop(p, i, depth, maxDepth, acc).value.Arr?
    {
      ArrIsArr(p, i, depth, maxDepth, acc);
    }
  }

  lemma {:induction false} ArrIsArr(p: string, i: nat, depth: nat, maxDepth: nat, acc: seq<Json>)
    requires i <= |p| && ArrLoop(p, i, depth, maxDepth, acc).Ok?
    ensures ArrLoop(p, i, depth, maxDepth, acc).value.Arr?
    decreases |p| - i
  {
    hide ParseVal;
    var r := ParseVal(p, i, depth + 1, maxDepth);
    if CharAt(p, SkipWs(p, r.next), ',') { ArrIsArr(p, SkipWs(p, r.next) + 1, depth, maxDepth, acc + [r.value]); }
  }

  lemma {:induction false} SkipToEnd(p: string, line: string, at: nat, i: nat)
    requires Holds(line, at, p) && i <= |p| && SkipWs(p, i) == |p| && CharAt(line, at + |p|, '}')
    ensures SkipWs(line, at + i) == at + |p|
    decreases |p| - i
  {
    if i < |p| { SkipToEnd(p, line, at, i + 1); }
  }

  /** A stored record's line parses to its members, to the very end. */
  lemma LineParses(r: Record)
    requires Storable(r)
    ensures LineText(r) != "" && LineText(r)[0] == '{'
    ensures ParseVal(LineText(r), 0, 0, MAX_DEPTH) == Ok(Obj(RecordFields(r, Value(r.payload).value)), |LineText(r)|)
  {
    hide ParseVal, ObjLoop, ParseMember, Dump, DumpMembers, Parse, RecordHead, Key, HeadThen, At, RecordFields;
    var fmt: real -> string := x => "";
    var head, v := HeadThen(r, []), Value(r.payload).value;
    var line := LineText(r);
    SplitFields(r, v);
    RecordDistinct(r, v);
    var w := HeadWritten(r, [], fmt);
    var members := DumpMembers(head, fmt);
    HeadParts(r, w, members, fmt);
    var walked := 1 + |members| + 1;
    HeadShallow(r);
    HeadDistinct(r, v);
    WalkMembers(line, 1, head, [], fmt, 0, MAX_DEPTH);
    assert [] + head == head;
    LastMember(line, walked, r.payload, v, head);
    MembersHead(head, fmt);
    AtChar(line, 1, members + ",");
    OpenBracket(line, 0, 0, MAX_DEPTH, '\"');
  }

  /** How a line is put together. */
  lemma HeadParts(r: Record, w: string, members: string, fmt: real -> string)
    requires RecordHead(r) == w + Key("payload") && "{" + members == w + Tail([], fmt)
    ensures var line := LineText(r);
      && CharAt(line, 0, '{') && At(line, 1, members + ",") && At(line, 1 + |members| + 1, "\"payload\":")
      && Holds(line, 1 + |members| + 1 + 10, r.payload)
      && 1 + |members| + 1 + 10 + |r.payload| + 1 == |line| && CharAt(line, |line| - 1, '}')
  {
    hide RecordHead;
    var line := LineText(r);
    assert w == "{" + members;
    assert Key("payload") == "," + "\"payload\":";
    assert line == "{" + (members + ",") + "\"payload\":" + r.payload + "}";
  }

  lemma HeadShallow(r: Record)
    requires Fits(r)
    ensures MembersDepth(HeadThen(r, [])) <= 1 && forall k | 0 <= k < |HeadThen(r, [])| :: Plain(HeadThen(r, [])[k].value)
  {
    hide HeadThen, Place;
    var head := HeadThen(r, []);
    forall k | 0 <= k < |head| ensures Plain(head[k].value) && Depth(head[k].value) == 0 { HeadKind(r, head[k]); }
    Shallow(head);
  }

  lemma {:induction false} Shallow(ms: seq<Member>)
    requires forall k | 0 <= k < |ms| :: Depth(ms[k].value) == 0
    ensures MembersDepth(ms) <= 1
  {
    hide Depth;
    if ms != [] { Shallow(ms[1..]); }
  }

  /** The payload member closes the line's object. */
  lemma LastMember(line: string, i: nat, payload: string, v: Json, acc: seq<Member>)
    requires At(line, i, "\"payload\":") && Holds(line, i + 10, payload) && CharAt(line, i + 10 + |payload|, '}')
    requires Value(payload) == Some(v) && v.Obj? && !HasKey(acc, "payload")
    ensures ObjLoop(line, i, 0, MAX_DEPTH, acc) == Ok(Obj(acc + [Member("payload", v)]), i + 10 + |payload| + 1)
  {
    hide ParseVal, ParseStr, Parse, Quote, At;
    PayloadKey(line, i);
    PayloadInLine(line, i + 10, payload, v);
    assert SkipWs(line, i) == i && SkipWs(line, i + 9) == i + 9;
  }

  lemma PayloadKey(line: string, i: nat)
    requires At(line, i, "\"payload\":")
    ensures ParseStr(line, i) == Ok("payload", i + 9) && CharAt(line, i, '\"') && CharAt(line, i + 9, ':')
  {
    hide ParseStr, Quote, At;
    var q := Quote("payload");
    assert q == "\"payload\"" by { QuotedPayload(); }
    assert "\"payload\":" == q + ":";
    AtConcat(line, i, q, ":");
    AtChar(line, i, q);
    AtChar(line, i + 9, ":");
    ParseQuoted(line, i, "payload");
  }

  lemma QuotedPayload()
    ensures Quote("payload") == "\"payload\""
  {
    hide Escape;
    var name := "payload";
    EscapePlain(name);
    assert "\"" + name + "\"" == "\"payload\"";
  }

  lemma HeadDistinct(r: Record, v: Json)
    requires Fits(r)
    ensures DistinctKeys([] + HeadThen(r, [])) && !HasKey([] + HeadThen(r, []), "payload")
  {
    RecordDistinct(r, v);
    SplitFields(r, v);
    hide HeadThen, RecordFields;
    var head, ms := HeadThen(r, []), RecordFields(r, v);
    assert [] + head == head && ms[|head|].key == "payload";
    assert forall k | 0 <= k < |head| :: ms[k] == head[k];
  }

  /** A written line reads back as its record, the payload printed again; cut short anywhere it reads as torn;
      and it is one line. */
  lemma LineReadsBack(r: Record, fmt: real -> string)
    requires Storable(r)
    ensures ReadLine(LineText(r), fmt) == Line(Reread(r, fmt))
    ensures forall n: nat | n < |LineText(r)| :: ReadLine(LineText(r)[..n], fmt) == Torn
    ensures OneLine(LineText(r)) && LineText(r) != ""
  {
    hide ParseVal, RecordFields, RecordHead, Dump;
    LineParses(r);
    var line, v := LineText(r), Value(r.payload).value;
    assert SkipWs(line, |line|) == |line|;
    FromRecordFields(r, v, fmt);
    hide FromValue, LineText;
    forall n: nat | n < |line| ensures ReadLine(line[..n], fmt) == Torn { CutFails(line, n, MAX_DEPTH); }
    HeadOneLine(r);
  }

  lemma HeadOneLine(r: Record)
    requires Fits(r) && OneLine(r.payload)
    ensures OneLine(LineText(r))
  {
    hide RecordHead, DumpMembers, HeadThen, Key;
    var fmt: real -> string := x => "";
    var w := HeadWritten(r, [], fmt);
    HeadShallow(r);
    PlainNoNum(HeadThen(r, []));
    MembersNoControl(HeadThen(r, []), fmt);
    HeadParts(r, w, DumpMembers(HeadThen(r, []), fmt), fmt);
    assert w + Tail([], fmt) == w;
    LineChars(r, w);
  }

  lemma PlainNoNum(ms: seq<Member>)
    requires forall k | 0 <= k < |ms| :: Plain(ms[k].value)
    ensures forall k | 0 <= k < |ms| :: NoNum(ms[k].value)
  {
    hide NoNum;
  }

  lemma LineChars(r: Record, w: string)
    requires RecordHead(r) == w + Key("payload") && OneLine(w) && OneLine(r.payload)
    ensures OneLine(LineText(r))
  {
    hide RecordHead;
  }

  /** Canonical payloads, nested as deep as a sender may nest them: kept exactly below the limit, and lost
      to a restart at it, for a line adds one level. */
  lemma CanonicalKept(r: Record, p: Json, fmt: real -> string)
    requires Fits(r) && p.Obj? && Plain(p) && r.payload == Dump(p, fmt)
    ensures Depth(p) < MAX_DEPTH ==> Storable(r) && Reread(r, fmt) == r
    ensures ReadLine(LineText(r), fmt) == if Depth(p) < MAX_DEPTH then Line(r) else Torn
  {
    hide ParseVal, RecordFields, RecordHead, Dump, Parse, NoNum, UniqueKeys, Depth;
    if Depth(p) < MAX_DEPTH {
      RoundTrip(p, fmt, MAX_DEPTH - 1);
      DumpNoControl(p, fmt);
      LineReadsBack(r, fmt);
    } else {
      LineIsDump(r, p, fmt);
      RecordDepth(r, p);
      RecordPlain(r, p);
      var v := Obj(RecordFields(r, p));
      SameButLast(LineText(r), Dump(v, fmt), '\n');
      TooDeep(v, fmt);
    }
  }

  lemma TooDeep(v: Json, fmt: real -> string)
    requires Plain(v) && Depth(v) > MAX_DEPTH
    ensures Parse(Dump(v, fmt), MAX_DEPTH) == None
  {
    hide ParseVal, Dump, Depth, NoNum, UniqueKeys;
    var t := Dump(v, fmt);
    assert t[0..|t|] == t;
    ParseTooDeep(t, 0, v, fmt, 0, MAX_DEPTH);
  }

  lemma RecordPlain(r: Record, p: Json)
    requires Fits(r) && Plain(p)
    ensures Plain(Obj(RecordFields(r, p)))
  {
    hide RecordFields, Place;
    RecordDistinct(r, p);
    var ms := RecordFields(r, p);
    forall i | 0 <= i < |ms| ensures NoNum(ms[i].value) && UniqueKeys(ms[i].value) { RecordKind(r, p, ms[i]); }
  }

  lemma RecordDepth(r: Record, p: Json)
    requires Fits(r)
    ensures Depth(Obj(RecordFields(r, p))) == 1 + Depth(p)
  {
    hide RecordFields, Place;
    RecordPresent(r, p);
    var d := 1 + Depth(p);
    forall m | m in RecordFields(r, p) ensures 1 + Depth(m.value) <= d { RecordKind(r, p, m); }
    MembersDepthBound(RecordFields(r, p), d, d);
  }

  lemma SameButLast(a: string, b: string, c: char)
    requires a + [c] == b + [c]
    ensures a == b
  {
    assert (a + [c])[..|a + [c]| - 1] == a && (b + [c])[..|b + [c]| - 1] == b;
  }

  // ---- the whole file ----------------------------------------------------------------------------

  /** The position of the first newline, or the end. */
  function LineEnd(text: string, i: nat): (r: nat)
    requires i <= |text|
    ensures i <= r <= |text| && (r < |text| ==> text[r] == '\n') && forall k | i <= k < r :: text[k] != '\n'
    decreases |text| - i
  {
    if i == |text| || text[i] == '\n' then i else LineEnd(text, i + 1)
  }

  /** The lines from position `i` on, read; empty lines are skipped. */
  function ReadFrom(text: string, i: nat, fmt: real -> string): seq<LogLine>
    requires i <= |text|
    decreases |text| - i
  {
    if i == |text| then []
    else
      var nl := LineEnd(text, i);
      (if nl == i then [] else [ReadLine(text[i..nl], fmt)]) + (if nl == |text| then [] else ReadFrom(text, nl + 1, fmt))
  }

  lemma ReadStep(text: string, i: nat, fmt: real -> string)
    requires i < |text|
    ensures var nl := LineEnd(text, i);
      ReadFrom(text, i, fmt) ==
      (if nl == i then [] else [ReadLine(text[i..nl], fmt)]) + (if nl == |text| then [] else ReadFrom(text, nl + 1, fmt))
  {}

  method ReadText(text: string, fmt: real -> string) returns (log: seq<LogLine>)
    ensures log == ReadFrom(text, 0, fmt)
  {
    hide ReadLine, ReadFrom, LineEnd;
    log := [];
    var pos := 0;
    ReadEnd(text, fmt);
    while pos < |text|
      invariant pos <= |text| + 1
      invariant ReadFrom(text, 0, fmt) == log + (if pos < |text| then ReadFrom(text, pos, fmt) else [])
    {
      var nl := FindEnd(text, pos);
      ReadStep(text, pos, fmt);
      ReadEnd(text, fmt);
      ghost var rest := if nl < |text| then ReadFrom(text, nl + 1, fmt) else [];
      if nl > pos {
        assert (log + [ReadLine(text[pos..nl], fmt)]) + rest == log + ([ReadLine(text[pos..nl], fmt)] + rest);
        log := log + [ReadLine(text[pos..nl], fmt)];
      } else {
        assert [] + rest == rest;
      }
      pos := nl + 1;
    }
    assert log + [] == log;
  }

  lemma ReadEnd(text: string, fmt: real -> string)
    ensures ReadFrom(text, |text|, fmt) == []
  {}

  method FindEnd(text: string, pos: nat) returns (nl: nat)
    requires pos <= |text|
    ensures nl == LineEnd(text, pos)
  {
    nl := pos;
    while nl < |text| && text[nl] != '\n'
      invariant pos <= nl <= |text| && LineEnd(text, nl) == LineEnd(text, pos)
    {
      nl := nl + 1;
    }
  }

  function LogText(recs: seq<Record>): string {
    if recs == [] then "" else RecordLine(recs[0]) + LogText(recs[1..])
  }

  /** The first line of a text, and what follows it. */
  lemma FirstLine(line: string, rest: string, fmt: real -> string)
    requires OneLine(line) && line != ""
    ensures ReadFrom(line + "\n" + rest, 0, fmt) == [ReadLine(line, fmt)] + ReadFrom(rest, 0, fmt)
  {
    hide ReadLine, ReadFrom, LineEnd;
    var text := line + "\n" + rest;
    EndsAt(text, 0, |line|);
    ReadStep(text, 0, fmt);
    assert text[0..|line|] == line;
    Shift(line + "\n", rest, 0, fmt);
  }

  lemma EndsAt(text: string, i: nat, e: nat)
    requires i <= e < |text| && text[e] == '\n' && forall k | i <= k < e :: text[k] != '\n'
    ensures LineEnd(text, i) == e
  {}

  /** Reading starts afresh after a newline. */
  lemma {:induction false} Shift(before: string, rest: string, i: nat, fmt: real -> string)
    requires i <= |rest|
    ensures |before| + i <= |before + rest|
    ensures ReadFrom(before + rest, |before| + i, fmt) == ReadFrom(rest, i, fmt)
    decreases |rest| - i
  {
    hide ReadLine, ReadFrom, LineEnd;
    var text := before + rest;
    if i < |rest| {
      ShiftEnd(before, rest, i);
      var nl := LineEnd(rest, i);
      assert text[|before| + i..|before| + nl] == rest[i..nl];
      ReadStep(text, |before| + i, fmt);
      ReadStep(rest, i, fmt);
      if nl < |rest| { Shift(before, rest, nl + 1, fmt); }
    } else {
      ReadEnd(text, fmt);
      ReadEnd(rest, fmt);
    }
  }

  lemma {:induction false} ShiftEnd(before: string, rest: string, i: nat)
    requires i <= |rest|
    ensures |before| + i <= |before + rest| && LineEnd(before + rest, |before| + i) == |before| + LineEnd(rest, i)
    decreases |rest| - i
  {
    if i < |rest| && rest[i] != '\n' { ShiftEnd(before, rest, i + 1); }
  }

  /** The records of a log as a restart reads them. */
  function RereadAll(recs: seq<Record>, fmt: real -> string): (r: seq<Record>)
    ensures |r| == |recs| && forall i | 0 <= i < |recs| :: r[i] == Reread(recs[i], fmt)
  {
    if recs == [] then [] else [Reread(recs[0], fmt)] + RereadAll(recs[1..], fmt)
  }

  /** A log of records, followed by any text. */
  lemma {:induction false} ReadLog(recs: seq<Record>, rest: string, fmt: real -> string)
    requires forall i | 0 <= i < |recs| :: Storable(recs[i])
    ensures ReadFrom(LogText(recs) + rest, 0, fmt) == Lines(RereadAll(recs, fmt)) + ReadFrom(rest, 0, fmt)
  {
    hide Storable, LineText, ReadLine, ReadFrom, LogText, Lines, RecordLine, Reread;
    NoLog();
    if recs == [] {
      assert "" + rest == rest;
      assert [] + ReadFrom(rest, 0, fmt) == ReadFrom(rest, 0, fmt);
    } else {
      var r, tail := recs[0], recs[1..];
      ReadLog(tail, rest, fmt);
      assert [r] + tail == recs;
      LineReadsBack(r, fmt);
      LogCons(r, tail, rest);
      FirstLine(LineText(r), LogText(tail) + rest, fmt);
      LinesCons(Reread(r, fmt), RereadAll(tail, fmt));
      Join3([Line(Reread(r, fmt))], Lines(RereadAll(tail, fmt)), ReadFrom(rest, 0, fmt));
    }
  }

  lemma Join3(a: seq<LogLine>, b: seq<LogLine>, c: seq<LogLine>)
    ensures a + (b + c) == (a + b) + c
  {}

  lemma NoLog()
    ensures LogText([]) == "" && Lines([]) == []
  {}

  lemma LogCons(r: Record, tail: seq<Record>, rest: string)
    ensures LogText([r] + tail) + rest == LineText(r) + "\n" + (LogText(tail) + rest)
  {
    hide RecordLine, LineText;
    var recs := [r] + tail;
    assert recs[1..] == tail && recs[0] == r;
    LineOf(r);
    Assoc3(LineText(r) + "\n", LogText(tail), rest);
  }

  lemma LineOf(r: Record)
    ensures RecordLine(r) == LineText(r) + "\n"
  {}

  lemma {:induction false} LinesCons(r: Record, recs: seq<Record>)
    ensures Lines([r] + recs) == [Line(r)] + Lines(recs)
  {
    if recs == [] {
      assert [r] + recs == [r];
      assert [r][..0] == [];
    } else {
      LinesCons(r, recs[..|recs| - 1]);
      assert ([r] + recs)[..|recs|] == [r] + recs[..|recs| - 1];
    }
  }

  /** What a restart reads when the process died while appending a record, `n` bytes into its line:
      the log as it was, or with a torn line, or with the whole record (its newline may be missing). */
  lemma CutAppend(recs: seq<Record>, r: Record, n: nat, fmt: real -> string)
    requires (forall i | 0 <= i < |recs| :: Storable(recs[i])) && Storable(r) && n <= |RecordLine(r)|
    ensures ReadFrom(LogText(recs) + RecordLine(r)[..n], 0, fmt) ==
      if n == 0 then Lines(RereadAll(recs, fmt))
      else if n < |LineText(r)| then Lines(RereadAll(recs, fmt)) + [Torn]
      else Lines(RereadAll(recs, fmt) + [Reread(r, fmt)])
  {
    hide Storable, ReadLine, LineText, ReadFrom, Lines, LogText, RecordLine, Reread, RereadAll;
    ReadLog(recs, RecordLine(r)[..n], fmt);
    CutLine(r, n, fmt);
    var read := RereadAll(recs, fmt);
    LinesPush(read, Reread(r, fmt));
    assert Lines(read) + [] == Lines(read);
  }

  lemma CutLine(r: Record, n: nat, fmt: real -> string)
    requires Storable(r) && n <= |RecordLine(r)|
    ensures ReadFrom(RecordLine(r)[..n], 0, fmt) ==
      if n == 0 then [] else if n < |LineText(r)| then [Torn] else [Line(Reread(r, fmt))]
  {
    hide Storable, ReadLine, LineText, ReadFrom, RecordLine, Reread;
    var line, cut := LineText(r), RecordLine(r)[..n];
    LineReadsBack(r, fmt);
    LineOf(r);
    ReadNothing(fmt);
    if n > |line| {
      assert cut == line + "\n" + "";
      FirstLine(line, "", fmt);
    } else if n > 0 {
      assert cut == line[..n];
      assert line[..|line|] == line;
      LastLine(cut, fmt);
    }
  }

  lemma ReadNothing(fmt: real -> string)
    ensures ReadFrom("", 0, fmt) == [] && forall ls: seq<LogLine> :: ls + [] == ls
  {}

  lemma LastLine(line: string, fmt: real -> string)
    requires OneLine(line) && line != ""
    ensures ReadFrom(line, 0, fmt) == [ReadLine(line, fmt)]
  {
    hide ReadLine;
    EndsLast(line, 0);
    assert line[0..|line|] == line;
  }

  lemma EndsLast(text: string, i: nat)
    requires i <= |text| && forall k | i <= k < |text| :: text[k] != '\n'
    ensures LineEnd(text, i) == |text|
  {}

  // ---- a crash at any byte -----------------------------------------------------------------------

  /** The state with its payloads printed again. */
  function Reprinted(s: State, fmt: real -> string): State { s.(recs := RereadAll(s.recs, fmt)) }

  lemma RereadSame(r: Record, fmt: real -> string)
    ensures Reread(r, fmt).seqNo == r.seqNo && Reread(r, fmt).kind == r.kind
  {}

  /** Printing payloads again changes nothing in how the files follow the memory. */
  lemma FollowsReread(d: Disk, s: State, all: seq<Record>, fmt: real -> string)
    requires Follows(d, s, all)
    ensures var again := RereadAll(all, fmt); Follows(d.(log := Lines(again)), Reprinted(s, fmt), again)
  {
    hide Lines, Reread, EndsWith;
    RereadEnds(all, s.recs, fmt);
    var again := RereadAll(all, fmt);
    forall i | 0 <= i < |all| ensures again[i].seqNo == all[i].seqNo && again[i].kind == all[i].kind { RereadSame(all[i], fmt); }
  }

  lemma RereadEnds(all: seq<Record>, recs: seq<Record>, fmt: real -> string)
    requires EndsWith(all, recs)
    ensures EndsWith(RereadAll(all, fmt), RereadAll(recs, fmt))
  {
    hide Reread;
    var k := |all| - |recs|;
    assert forall i | 0 <= i < |recs| :: all[k..][i] == all[k + i];
    assert RereadAll(all, fmt)[k..] == RereadAll(recs, fmt);
  }

  /** The process dies at any byte of the line it is appending: the text it leaves recovers to the spool
      before the message, or, once all but the newline is there, after it. */
  lemma AnyByteRecovers(d: Disk, s: State, all: seq<Record>, m: Message, t: State, n: nat, fmt: real -> string)
    requires Follows(d, s, all) && m.kind != "" && t.acked == s.acked && t.streamId == s.streamId
    requires t.recs == s.recs + [MakeRecord(m, s.nextSeq)] && t.nextSeq == s.nextSeq + 1
    requires (forall i | 0 <= i < |all| :: Storable(all[i])) && Storable(MakeRecord(m, s.nextSeq))
    requires n <= |RecordLine(MakeRecord(m, s.nextSeq))|
    ensures var line := MakeRecord(m, s.nextSeq);
      var files := d.(log := ReadFrom(LogText(all) + RecordLine(line)[..n], 0, fmt));
      Recovers(files, Reprinted(if n < |LineText(line)| then s else t, fmt), "")
  {
    hide Follows, Recovers, Storable, ReadLine, LineText, ReadFrom, Lines, LogText, RecordLine, Reread, RereadAll, MakeRecord;
    var r, again := MakeRecord(m, s.nextSeq), RereadAll(all, fmt);
    CutAppend(all, r, n, fmt);
    FollowsReread(d, s, all, fmt);
    var e, s' := d.(log := Lines(again)), Reprinted(s, fmt);
    FollowsRecovers(e, s', again, false, "");
    FollowsRecovers(e, s', again, true, "");
    if n >= |LineText(r)| {
      var r' := Reread(r, fmt);
      MadeFor(m, s.nextSeq, fmt);
      RereadPush(s.recs, r, fmt);
      var full := e.(log := Lines(again + [r']));
      FollowsPush(e, s', again, r', full, Reprinted(t, fmt));
      FollowsRecovers(full, Reprinted(t, fmt), again + [r'], false, "");
      LineReadsBack(r, fmt);
    }
  }

  lemma MadeFor(m: Message, n: int, fmt: real -> string)
    ensures Reread(MakeRecord(m, n), fmt).seqNo == n && Reread(MakeRecord(m, n), fmt).kind == m.kind
  {}

  lemma {:induction false} RereadPush(recs: seq<Record>, r: Record, fmt: real -> string)
    ensures RereadAll(recs + [r], fmt) == RereadAll(recs, fmt) + [Reread(r, fmt)]
  {
    hide Reread;
    assert forall i | 0 <= i <= |recs| :: RereadAll(recs + [r], fmt)[i] == Reread((recs + [r])[i], fmt);
  }
}
