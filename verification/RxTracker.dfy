/** The inbound side of the reliable stream (plugins/fleet/fleet_proto.cpp, class RxTracker):
    accepts platform messages in order, drops duplicates by sequence number and by id, lets
    handlers finish in any order, and acknowledges only a finished prefix. */
module RxTracker {

  const DEDUPE_WINDOW: nat := 10000

  datatype Verdict = Accept | Duplicate | OutOfOrder

  /** What the tracker remembers; `ids` are the remembered ids, oldest first. */
  datatype Rx = Rx(received: int, processed: int, pending: map<int, bool>, ids: seq<string>)

  function Remember(ids: seq<string>, id: string): seq<string> {
    if id == "" || id in ids then ids
    else
      var all := ids + [id];
      if |all| > DEDUPE_WINDOW then all[1..] else all
  }

  function Judge(rx: Rx, seqNo: int, id: string): Verdict {
    if seqNo <= rx.received then Duplicate
    else if id != "" && id in rx.ids then Duplicate
    else if seqNo != rx.received + 1 then OutOfOrder
    else Accept
  }

  function Arrived(rx: Rx, seqNo: int, id: string): Rx {
    if Judge(rx, seqNo, id) != Accept then rx
    else Rx(seqNo, rx.processed, rx.pending[seqNo := false], Remember(rx.ids, id))
  }

  /** Moves the processed mark over finished messages. */
  function Advance(processed: int, pending: map<int, bool>): (int, map<int, bool>)
    decreases |pending|
  {
    if processed + 1 in pending && pending[processed + 1]
    then
      assert |pending - {processed + 1}| < |pending| by {
        assert pending.Keys == (pending - {processed + 1}).Keys + {processed + 1};
      }
      Advance(processed + 1, pending - {processed + 1})
    else (processed, pending)
  }

  function Finished(rx: Rx, seqNo: int): Rx {
    if seqNo !in rx.pending then rx
    else
      var (p, rest) := Advance(rx.processed, rx.pending[seqNo := true]);
      rx.(processed := p, pending := rest)
  }

  lemma NotEmpty(pending: map<int, bool>, processed: int, received: int)
    requires pending != map[] && forall k | k in pending :: processed < k <= received
    ensures processed < received
  {
    assert (forall k :: k !in pending) ==> pending == map[];
  }

  lemma AdvanceStep(processed: int, pending: map<int, bool>)
    ensures Advance(processed, pending) ==
            if processed + 1 in pending && pending[processed + 1] then Advance(processed + 1, pending - {processed + 1})
            else (processed, pending)
  {}

  /** Received but not yet part of the processed prefix: exactly the messages in between. */
  ghost predicate Ordered(rx: Rx) {
    && 0 <= rx.processed <= rx.received
    && (forall k :: k in rx.pending <==> rx.processed < k <= rx.received)
    && (rx.processed < rx.received ==> !rx.pending[rx.processed + 1])
  }

  class Tracker {
    var received: int
    var processed: int
    var lastAckSent: int
    var firstUnackedAt: int
    var pending: map<int, bool>
    var ids: seq<string>

    function State(): Rx
      reads this
    {
      Rx(received, processed, pending, ids)
    }

    constructor ()
      ensures Ordered(State()) && State() == Rx(0, 0, map[], [])
    {
      received, processed, lastAckSent, firstUnackedAt, pending, ids := 0, 0, -1, -1, map[], [];
    }

    method Reset(processedSeq: int)
      modifies this
      ensures Ordered(State()) && lastAckSent == firstUnackedAt == -1
      ensures State() == Rx(received, received, map[], old(ids))
      ensures received == if processedSeq > 0 then processedSeq else 0
    {
      received := if processedSeq > 0 then processedSeq else 0;
      processed := received;
      lastAckSent, firstUnackedAt, pending := -1, -1, map[];
    }

    method OnReliable(seqNo: int, id: string) returns (v: Verdict)
      requires Ordered(State())
      modifies this
      ensures Ordered(State())
      ensures v == Judge(old(State()), seqNo, id) && State() == Arrived(old(State()), seqNo, id)
      ensures unchanged(`lastAckSent, `firstUnackedAt)
    {
      if seqNo <= received { return Duplicate; }
      if id != "" && id in ids { return Duplicate; }
      if seqNo != received + 1 { return OutOfOrder; }
      received := seqNo;
      pending := pending[seqNo := false];
      RememberId(id);
      return Accept;
    }

    method RememberId(id: string)
      modifies `ids
      ensures ids == Remember(old(ids), id)
    {
      if id == "" { return; }
      if id !in ids {
        ids := ids + [id];
        if |ids| > DEDUPE_WINDOW { ids := ids[1..]; }
      }
    }

    method OnEphemeralId(id: string) returns (isNew: bool)
      modifies `ids
      ensures isNew <==> id == "" || id !in old(ids)
      ensures ids == Remember(old(ids), id)
    {
      if id == "" { return true; }
      if id in ids { return false; }
      RememberId(id);
      return true;
    }

    method MarkDone(seqNo: int, nowMs: int) returns (advanced: bool)
      requires Ordered(State())
      modifies this
      ensures Ordered(State()) && State() == Finished(old(State()), seqNo)
      ensures advanced <==> processed != old(processed)
      ensures processed >= old(processed) && received == old(received) && lastAckSent == old(lastAckSent)
      ensures firstUnackedAt == if advanced && old(firstUnackedAt) < 0 then nowMs else old(firstUnackedAt)
    {
      if seqNo !in pending { return false; }
      pending := pending[seqNo := true];
      var before := processed;
      ghost var marked := pending;
      hide Advance;
      while pending != map[]
        invariant before <= processed <= received
        invariant forall k :: k in pending <==> processed < k <= received
        invariant unchanged(`received, `ids, `lastAckSent, `firstUnackedAt)
        invariant Advance(processed, pending) == Advance(before, marked)
        decreases received - processed
      {
        assert processed < received by { NotEmpty(pending, processed, received); }
        AdvanceStep(processed, pending);
        assert processed + 1 in pending;
        var first :| first in pending && forall k | k in pending :: first <= k;
        if !(pending[first] && first == processed + 1) { break; }
        processed := first;
        pending := pending - {first};
      }
      AdvanceStep(processed, pending);
      if processed != before && firstUnackedAt < 0 { firstUnackedAt := nowMs; }
      return processed != before;
    }

    method OnAckSent(ackedSeq: int)
      modifies `lastAckSent, `firstUnackedAt
      ensures lastAckSent == if ackedSeq > old(lastAckSent) then ackedSeq else old(lastAckSent)
      ensures firstUnackedAt == if lastAckSent >= processed then -1 else old(firstUnackedAt)
    {
      if ackedSeq > lastAckSent { lastAckSent := ackedSeq; }
      if lastAckSent >= processed { firstUnackedAt := -1; }
    }

    /** A standalone ack is due: 32 messages, or one second, after the last. */
    predicate AckDue(nowMs: int)
      reads this
    {
      processed > lastAckSent && processed != 0 &&
      (processed - (if lastAckSent > 0 then lastAckSent else 0) >= 32 ||
       (firstUnackedAt >= 0 && nowMs - firstUnackedAt >= 1000))
    }
  }

  // ---- whole runs ----------------------------------------------------------------------------

  /** What can happen to the tracker: a platform message (new or resent), a handler that finished,
      an ephemeral message with an id. */
  datatype RxEvent = Message(seqNo: int) | Done(seqNo: int) | Ephemeral(id: string)

  /** The tracker together with what happened so far: the accepted sequence numbers in order, the accepted
      messages whose handlers finished, and the ids of accepted and of new ephemeral messages, in order. */
  datatype History = History(rx: Rx, accepted: seq<int>, done: set<int>, noted: seq<string>)

  /** The last ids of a sequence, as many as the window holds. */
  function LastIds(noted: seq<string>): seq<string> {
    if |noted| > DEDUPE_WINDOW then noted[|noted| - DEDUPE_WINDOW..] else noted
  }

  function Next(h: History, e: RxEvent, idOf: int -> string): History {
    match e
    case Message(n) =>
      if Judge(h.rx, n, idOf(n)) != Accept then h
      else History(Arrived(h.rx, n, idOf(n)), h.accepted + [n], h.done, if idOf(n) == "" then h.noted else h.noted + [idOf(n)])
    case Done(n) => h.(rx := Finished(h.rx, n), done := if n in h.rx.pending then h.done + {n} else h.done)
    case Ephemeral(id) =>
      h.(rx := h.rx.(ids := Remember(h.rx.ids, id)), noted := if id == "" || id in h.rx.ids then h.noted else h.noted + [id])
  }

  function Run(h: History, es: seq<RxEvent>, idOf: int -> string): History {
    if es == [] then h else Next(Run(h, es[..|es| - 1], idOf), es[|es| - 1], idOf)
  }

  /** Right after Reset(start) of a fresh tracker. */
  function Start(start: nat): History { History(Rx(start, start, map[], []), [], {}, []) }

  function Upwards(from: int, count: nat): seq<int> {
    if count == 0 then [] else Upwards(from, count - 1) + [from + count - 1]
  }

  /** In-order, exactly-once acceptance, and a processed mark at the end of the longest prefix of
      finished messages. */
  ghost predicate Sound(start: int, h: History) {
    && Ordered(h.rx) && start <= h.rx.processed
    && h.accepted == Upwards(start + 1, h.rx.received - start)
    && (forall k | start < k <= h.rx.processed :: k in h.done)
    && (h.rx.processed < h.rx.received ==> h.rx.processed + 1 !in h.done)
    && (forall k | k in h.rx.pending :: h.rx.pending[k] <==> k in h.done)
    && (forall k | k in h.done :: start < k <= h.rx.received)
  }

  lemma {:induction false} AdvanceSound(processed: int, pending: map<int, bool>, received: int)
    requires processed <= received && forall k :: k in pending <==> processed < k <= received
    ensures var (p, rest) := Advance(processed, pending);
      && processed <= p <= received
      && (forall k :: k in rest <==> p < k <= received)
      && (forall k | k in rest :: rest[k] == pending[k])
      && (forall k | processed < k <= p :: pending[k])
      && (p < received ==> !rest[p + 1])
    decreases received - processed
  {
    if processed + 1 in pending && pending[processed + 1] {
      var sub := pending - {processed + 1};
      AdvanceSound(processed + 1, sub, received);
      forall k | processed < k <= Advance(processed, pending).0 ensures pending[k] {
        if k != processed + 1 { assert sub[k]; }
      }
    }
  }

  lemma NextSound(start: int, h: History, e: RxEvent, idOf: int -> string)
    requires Sound(start, h)
    ensures Sound(start, Next(h, e, idOf))
  {
    hide Remember;
    match e
    case Message(n) =>
      hide Advance;
      if Judge(h.rx, n, idOf(n)) == Accept {
        assert n !in h.done;
      }
    case Done(n) =>
      if n in h.rx.pending {
        var marked := h.rx.pending[n := true];
        AdvanceSound(h.rx.processed, marked, h.rx.received);
        var p := Advance(h.rx.processed, marked).0;
        forall k | start < k <= p ensures k in h.done + {n} {
          if k > h.rx.processed { assert marked[k]; }
        }
      }
    case Ephemeral(_) =>
  }

  /** The tracker's whole contract over every run: any interleaving, any resends. */
  lemma {:induction false} RunSound(start: nat, es: seq<RxEvent>, idOf: int -> string)
    ensures Sound(start, Run(Start(start), es, idOf))
  {
    hide Next;
    if es != [] {
      RunSound(start, es[..|es| - 1], idOf);
      NextSound(start, Run(Start(start), es[..|es| - 1], idOf), es[|es| - 1], idOf);
    }
  }

  /** Every id the tracker remembers belongs to an accepted message or an ephemeral one. */
  ghost predicate IdsFrom(h: History, idOf: int -> string, start: int, ephemeral: set<string>) {
    forall id | id in h.rx.ids :: id in ephemeral || exists k | start < k <= h.rx.received :: idOf(k) == id
  }

  predicate EphemeralIn(e: RxEvent, ephemeral: set<string>) { e.Ephemeral? ==> e.id in ephemeral }

  lemma {:induction false} RunIds(start: nat, es: seq<RxEvent>, idOf: int -> string, ephemeral: set<string>)
    requires forall i | 0 <= i < |es| :: EphemeralIn(es[i], ephemeral)
    ensures IdsFrom(Run(Start(start), es, idOf), idOf, start, ephemeral)
    decreases |es|
  {
    if es != [] {
      var before := es[..|es| - 1];
      RunIds(start, before, idOf, ephemeral);
      RunSound(start, before, idOf);
      var h, e := Run(Start(start), before, idOf), es[|es| - 1];
      hide Run, Finished;
      assert EphemeralIn(e, ephemeral);
      var r := Next(h, e, idOf);
      assert h.rx.received <= r.rx.received by { FinishedReceived(h.rx, e); }
      forall id | id in r.rx.ids && id !in ephemeral
        ensures exists k | start < k <= r.rx.received :: idOf(k) == id
      {
        if id !in h.rx.ids {
          assert e.Message? && id == idOf(e.seqNo) && e.seqNo == r.rx.received by { NewId(h.rx, e, id, idOf); }
        }
      }
    }
  }

  lemma FinishedReceived(rx: Rx, e: RxEvent)
    ensures e.Done? ==> Finished(rx, e.seqNo).received == rx.received && Finished(rx, e.seqNo).ids == rx.ids
  {}

  lemma NewId(rx: Rx, e: RxEvent, id: string, idOf: int -> string)
    requires id !in rx.ids && id in Next(History(rx, [], {}, []), e, idOf).rx.ids && !(e.Ephemeral? && e.id == id)
    ensures e.Message? && id == idOf(e.seqNo) && Judge(rx, e.seqNo, id) == Accept
  {
    hide Advance;
  }

  /** With one id per platform message, and no ephemeral message borrowing one, nothing new is ever
      mistaken for a duplicate: after any run the next message in order, and only it, is accepted. */
  lemma AcceptsExactlyNext(start: nat, es: seq<RxEvent>, idOf: int -> string, ephemeral: set<string>, n: int)
    requires forall i | 0 <= i < |es| :: EphemeralIn(es[i], ephemeral)
    requires forall j: int, k: int | j != k :: idOf(j) != idOf(k)
    requires forall k: int :: idOf(k) !in ephemeral
    ensures var rx := Run(Start(start), es, idOf).rx;
      Judge(rx, n, idOf(n)) == if n <= rx.received then Duplicate else if n == rx.received + 1 then Accept else OutOfOrder
  {
    RunIds(start, es, idOf, ephemeral);
    RunSound(start, es, idOf);
    hide Run;
  }

  /** Over every run the tracker remembers exactly the last ids it noted. */
  lemma {:induction false} RunWindow(start: nat, es: seq<RxEvent>, idOf: int -> string)
    ensures var h := Run(Start(start), es, idOf); h.rx.ids == LastIds(h.noted)
  {
    if es != [] {
      RunWindow(start, es[..|es| - 1], idOf);
      var h, e := Run(Start(start), es[..|es| - 1], idOf), es[|es| - 1];
      hide Run, Advance;
      WindowPush(h.noted, if e.Message? then idOf(e.seqNo) else if e.Ephemeral? then e.id else "");
      if e.Done? { FinishedReceived(h.rx, e); }
    }
  }

  /** Remembering one more id of a full window forgets the oldest. */
  lemma WindowPush(noted: seq<string>, id: string)
    ensures id != "" && id !in LastIds(noted) ==> Remember(LastIds(noted), id) == LastIds(noted + [id])
  {
    if |noted| >= DEDUPE_WINDOW {
      var all := LastIds(noted) + [id];
      assert all[1..] == LastIds(noted + [id]);
    }
  }

  /** When the next message in order is accepted: exactly when it has no id, or one that is not among the
      last 10000 noted. An id may be used again once 10000 others came after it. */
  lemma AcceptedExactlyWhen(start: nat, es: seq<RxEvent>, idOf: int -> string, id: string)
    ensures var h := Run(Start(start), es, idOf);
      && (Judge(h.rx, h.rx.received + 1, id) == Accept <==> id == "" || id !in LastIds(h.noted))
      && (id in LastIds(h.noted) <==> exists k | 0 <= k < |h.noted| && |h.noted| - 10000 <= k :: h.noted[k] == id)
  {
    RunWindow(start, es, idOf);
    hide Run;
  }

  function Repeat(e: RxEvent, times: nat): seq<RxEvent> {
    if times == 0 then [] else Repeat(e, times - 1) + [e]
  }

  lemma RunPush(h: History, es: seq<RxEvent>, e: RxEvent, idOf: int -> string)
    ensures Run(h, es + [e], idOf) == Next(Run(h, es, idOf), e, idOf)
  {
    assert (es + [e])[..|es|] == es;
  }

  /** Otherwise the stream stops there: however often the message is sent again, nothing changes. */
  lemma {:induction false} RepeatedIdBlocks(start: nat, es: seq<RxEvent>, idOf: int -> string, times: nat)
    requires var h := Run(Start(start), es, idOf);
      var id := idOf(h.rx.received + 1);
      id != "" && id in LastIds(h.noted)
    ensures var h := Run(Start(start), es, idOf);
      Run(Start(start), es + Repeat(Message(h.rx.received + 1), times), idOf) == h
  {
    hide Run, LastIds;
    var h := Run(Start(start), es, idOf);
    var e := Message(h.rx.received + 1);
    if times == 0 {
      assert es + [] == es;
    } else {
      RepeatedIdBlocks(start, es, idOf, times - 1);
      assert es + Repeat(e, times) == (es + Repeat(e, times - 1)) + [e];
      RunPush(Start(start), es + Repeat(e, times - 1), e, idOf);
      AcceptedExactlyWhen(start, es, idOf, idOf(e.seqNo));
    }
  }

  /** A run that stops: two messages under one id. */
  lemma TwoUnderOneId(times: nat)
    ensures var h := Run(Start(0), [Message(1)] + Repeat(Message(2), times), n => "a");
      h.accepted == [1] && h.rx.received == 1
  {
    var idOf: int -> string := n => "a";
    var es := [Message(1)];
    assert es[..0] == [];
    var h := Run(Start(0), es, idOf);
    assert h == Next(Start(0), Message(1), idOf);
    assert h.noted == ["a"] && h.rx.received == 1 && h.accepted == [1];
    hide Run;
    RepeatedIdBlocks(0, es, idOf, times);
  }
}
