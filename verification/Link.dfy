/** The fleet link (plugins/fleet/fleet_client.cpp): sessions that replay and send, inbound messages,
    acks that never run ahead of the disk, and restarts. Sockets and threads are left out; the network
    thread's work is the methods below. */
module Link {
  import opened Basics
  import opened JsonValue
  import opened Spool
  import opened SpoolLaws
  import opened SpoolFiles
  import RxTracker
  import opened WireOrder

  /** A frame on the wire with the ack stamped on it. */
  datatype Frame = Frame(item: Item, ack: int)

  function Stamp(items: seq<Item>, ack: int): seq<Frame> {
    if items == [] then [] else Stamp(items[..|items| - 1], ack) + [Frame(items[|items| - 1], ack)]
  }

  /** The stored records among the frames. */
  function SentRecords(fs: seq<Frame>): seq<Record> {
    if fs == [] then []
    else SentRecords(fs[..|fs| - 1]) + (if fs[|fs| - 1].item.Stored? then [fs[|fs| - 1].item.rec] else [])
  }

  /** Reliable messages of a session are sent in increasing order, none twice. */
  predicate InSequence(wire: seq<Frame>, lastSent: int) {
    Increasing(SentRecords(wire)) && forall i | 0 <= i < |SentRecords(wire)| :: SentRecords(wire)[i].seqNo <= lastSent
  }

  lemma SentPush(wire: seq<Frame>, f: Frame)
    ensures SentRecords(wire + [f]) == SentRecords(wire) + (if f.item.Stored? then [f.item.rec] else [])
  {
    assert (wire + [f])[..|wire|] == wire;
  }

  lemma SequencePush(wire: seq<Frame>, f: Frame, lastSent: int)
    requires InSequence(wire, lastSent) && (f.item.Stored? ==> lastSent < f.item.rec.seqNo)
    ensures InSequence(wire + [f], if f.item.Stored? then f.item.rec.seqNo else lastSent)
  {
    hide SentRecords;
    SentPush(wire, f);
  }

  class Client {
    var spool: Store
    var rx: RxTracker.Tracker
    var outbox: seq<Out>
    /** Accepted messages handed to the game thread. */
    var inbox: seq<int>
    var lastSent: int
    var persistedRx: int
    var ackNow: bool
    var broken: bool
    /** How many more frames the socket takes before a send fails. */
    var sendable: nat
    /** The frames of the current session. */
    ghost var wire: seq<Frame>
    /** Every ack ever put on a wire, over all sessions and restarts. */
    ghost var acks: seq<int>

    /** What a restart would remember covers every ack that was sent. */
    ghost predicate AcksDurable()
      reads `spool, `rx, `acks, `persistedRx, spool, rx
    {
      && Usable(spool.disk.meta) && spool.disk.meta.value.rxSeq == spool.rxSeq
      && 0 <= spool.rxSeq <= rx.processed
      && (persistedRx == -1 || persistedRx == spool.rxSeq)
      && forall i | 0 <= i < |acks| :: acks[i] <= spool.rxSeq
    }

    ghost predicate Valid()
      reads this, spool, rx
    {
      && spool.Valid() && RxTracker.Ordered(rx.State())
      && AcksDurable()
      && lastSent < spool.nextSeq && InSequence(wire, lastSent)
    }

    /** Nothing stored waits to be sent. */
    ghost predicate AllSent()
      reads this, spool
    {
      forall i | 0 <= i < |spool.recs| :: spool.recs[i].seqNo <= lastSent
    }

    /** Loads the spool and resumes the inbound count from it. */
    constructor (disk: Disk, limits: Limits, freshId: string)
      requires freshId != ""
      ensures fresh(spool) && fresh(rx) && acks == [] && outbox == [] && (Plausible(disk.meta) ==> Valid())
      ensures spool.Mem() == Recover(disk, freshId) && rx.received == rx.processed == spool.rxSeq
      ensures AcksDurable()
    {
      hide Follows, Core, Recover, Plausible, Store.Base, Lines, EndsWith, Named, Recovers, Gapless, GapSound, InSequence, RxTracker.Ordered;
      spool := new Store(disk);
      rx := new RxTracker.Tracker();
      outbox, inbox, lastSent, persistedRx, ackNow, broken, sendable, wire, acks := [], [], 0, -1, false, false, 0, [], [];
      new;
      var _ := spool.Open(limits, freshId);
      Bounds(disk, freshId);
      if Plausible(disk.meta) { RecoverCore(disk, freshId); Positive(Recover(disk, freshId)); }
      rx.Reset(spool.rxSeq);
    }

    /** The process dies and starts again: memory is lost, the files stay, the log in whatever state the
        crash left it, holes and all. No message whose ack was ever sent, in this life of the process
        or an earlier one, is new to the restarted tracker. */
    method Restart(log: seq<LogLine>, limits: Limits, freshId: string) returns (c: Client)
      requires Valid() && freshId != ""
      ensures c.Valid() && fresh(c) && fresh(c.spool) && fresh(c.rx) && c.acks == acks
      ensures c.spool.Mem() == Recover(spool.disk.(log := log), freshId)
      ensures forall i, n, id | 0 <= i < |acks| && n <= acks[i] ::
        RxTracker.Judge(c.rx.State(), n, id) == RxTracker.Duplicate
    {
      hide Follows, Core, Recover, RxTracker.Ordered, Lines, EndsWith, Named, InSequence;
      c := new Client(spool.disk.(log := log), limits, freshId);
      RecoverRx(spool.disk.(log := log), freshId);
      c.acks := acks;
    }

    /** Makes the processed count durable before it is acknowledged. */
    method Persist()
      requires Valid()
      modifies `persistedRx, spool
      ensures Valid() && persistedRx == rx.processed == spool.rxSeq
      ensures spool.Mem() == old(spool.Mem()).(rxSeq := spool.rxSeq) && spool.limits == old(spool.limits)
    {
      hide Follows, Core, Lines, EndsWith, Named, InSequence, RxTracker.Ordered;
      if rx.processed != persistedRx {
        spool.SetRxSeq(rx.processed);
        spool.FlushMeta();
        persistedRx := rx.processed;
      }
    }

    /** Sends one frame, its ack persisted first. */
    method Send(item: Item) returns (ok: bool)
      requires Valid()
      requires item.Stored? ==> lastSent < item.rec.seqNo < spool.nextSeq
      modifies this, spool, rx
      ensures Valid() && spool == old(spool) && rx == old(rx)
      ensures ok <==> old(sendable) > 0
      ensures broken == (old(broken) || !ok) && sendable == old(sendable) - (if ok then 1 else 0)
      ensures wire == old(wire) + (if ok then [Frame(item, rx.processed)] else [])
      ensures lastSent == if ok && item.Stored? then item.rec.seqNo else old(lastSent)
      ensures rx.State() == old(rx.State()) && spool.Mem() == old(spool.Mem()).(rxSeq := spool.rxSeq)
      ensures unchanged(`outbox, `inbox, `ackNow) && spool.limits == old(spool.limits)
      ensures ok ==> rx.lastAckSent >= rx.processed
    {
      hide Follows, Core, Lines, EndsWith, Named, InSequence, RxTracker.Ordered, Store.Base;
      Persist();
      ok := sendable > 0;
      if !ok {
        broken := true;
        assert wire + [] == wire;
        return;
      }
      sendable := sendable - 1;
      SequencePush(wire, Frame(item, rx.processed), lastSent);
      wire := wire + [Frame(item, rx.processed)];
      acks := acks + [rx.processed];
      if item.Stored? { lastSent := item.rec.seqNo; }
      rx.OnAckSent(rx.processed);
    }

    /** Since the wire was `w0` and the socket took `s0` more frames, the first `n` items went out. */
    ghost predicate Progress(w0: seq<Frame>, s0: nat, items: seq<Item>, n: nat)
      reads this, rx
    {
      && n <= |items| && n <= s0 && sendable == s0 - n
      && wire == w0 + Stamp(items[..n], rx.processed)
      && (broken ==> n == s0 && n < |items|)
    }

    /** Sends the next item of a planned sequence. */
    method Emit(item: Item, ghost w0: seq<Frame>, ghost s0: nat, ghost items: seq<Item>, ghost n: nat)
        returns (ghost next: nat)
      requires Valid() && !broken && Progress(w0, s0, items, n) && n < |items| && items[n] == item
      requires item.Stored? ==> lastSent < item.rec.seqNo < spool.nextSeq
      modifies this, spool, rx
      ensures Valid() && spool == old(spool) && rx == old(rx) && Progress(w0, s0, items, next)
      ensures broken <==> next == n
      ensures !broken ==> next == n + 1
      ensures lastSent == if !broken && item.Stored? then item.rec.seqNo else old(lastSent)
      ensures rx.State() == old(rx.State()) && spool.Mem() == old(spool.Mem()).(rxSeq := spool.rxSeq)
      ensures unchanged(`outbox, `inbox, `ackNow) && spool.limits == old(spool.limits)
    {
      hide Follows, Core, Lines, EndsWith, Named, InSequence, RxTracker.Ordered, Store.Base, AcksDurable, Stamp;
      var ok := Send(item);
      next := if ok then n + 1 else n;
      if ok { StampPush(items, n, rx.processed); }
    }

    /** Sends the waiting ephemeral messages that were queued before the first record `ahead`. */
    method SendWaiting(eph: seq<Out>, start: nat, ahead: seq<Record>, ghost w0: seq<Frame>, ghost s0: nat, ghost items: seq<Item>, ghost n0: nat)
        returns (ei: nat, ghost n: nat)
      requires Valid() && !broken && start <= |eph| && Progress(w0, s0, items, n0) && Left(items, n0, ahead, eph[start..])
      modifies this, spool, rx
      ensures Valid() && spool == old(spool) && rx == old(rx) && Progress(w0, s0, items, n) && lastSent == old(lastSent)
      ensures rx.State() == old(rx.State()) && spool.Mem() == old(spool.Mem()).(rxSeq := spool.rxSeq)
      ensures unchanged(`outbox, `inbox, `ackNow) && spool.limits == old(spool.limits)
      ensures !broken ==> start <= ei <= |eph| && Left(items, n, ahead, eph[ei..]) && Settled(ahead, eph[ei..])
    {
      hide Follows, Core, Lines, EndsWith, Named, InSequence, RxTracker.Ordered, Store.Base, AcksDurable, Stamp, Merge, Left;
      ei, n := start, n0;
      while ei < |eph| && (ahead == [] || eph[ei].afterSeq < ahead[0].seqNo) && !broken
        invariant start <= ei <= |eph| && Valid() && Progress(w0, s0, items, n) && lastSent == old(lastSent)
        invariant !broken ==> Left(items, n, ahead, eph[ei..])
        invariant spool == old(spool) && rx == old(rx) && spool.limits == old(spool.limits)
        invariant rx.State() == old(rx.State()) && spool.Mem() == old(spool.Mem()).(rxSeq := spool.rxSeq)
        invariant unchanged(`outbox, `inbox, `ackNow)
      {
        LeftHead(items, n, ahead, eph[ei..]);
        assert eph[ei..][1..] == eph[ei + 1..];
        n := Emit(Direct(eph[ei].msg), w0, s0, items, n);
        ei := ei + 1;
      }
    }

    /** Everything unsent, merged: stored records in order, each ephemeral message after the reliable
        ones queued before it. If the socket fails, what went out is a prefix. */
    method SendMerged(eph: seq<Out>)
      requires Valid() && !broken
      modifies this, spool, rx
      ensures Valid() && spool == old(spool) && rx == old(rx)
      ensures rx.State() == old(rx.State()) && spool.Mem() == old(spool.Mem()).(rxSeq := spool.rxSeq)
      ensures unchanged(`outbox, `inbox, `ackNow) && spool.limits == old(spool.limits)
      ensures var items := Merge(After(old(spool.recs), old(lastSent)), eph);
        var n := Min(|items|, old(sendable));
        && wire == old(wire) + Stamp(items[..n], rx.processed)
        && (broken <==> n < |items|)
      ensures !broken ==> AllSent()
    {
      hide Follows, Core, Lines, EndsWith, Named, InSequence, RxTracker.Ordered, Store.Base, AcksDurable, Stamp, Merge, After, Left;
      var recs := spool.recs;
      StoreInv(spool);
      ghost var items, w0, s0, n := Merge(After(recs, lastSent), eph), wire, sendable, 0;
      NothingSent(wire, items, rx.processed, After(recs, lastSent), eph);
      var k, ei := 0, 0;
      assert recs[0..] == recs && eph[0..] == eph;
      while k < |recs| && !broken
        invariant k <= |recs| && ei <= |eph| && Valid() && Progress(w0, s0, items, n)
        invariant !broken ==> Left(items, n, After(recs[k..], lastSent), eph[ei..])
        invariant forall i | 0 <= i < k :: recs[i].seqNo <= lastSent
        invariant spool == old(spool) && rx == old(rx) && spool.limits == old(spool.limits)
        invariant rx.State() == old(rx.State()) && spool.Mem() == old(spool.Mem()).(rxSeq := spool.rxSeq)
        invariant unchanged(`outbox, `inbox, `ackNow)
        decreases |recs| - k
      {
        AfterHead(recs, k, lastSent);
        if recs[k].seqNo > lastSent {
          ei, n := SendWaiting(eph, ei, recs[k..], w0, s0, items, n);
          if broken { break; }
          LeftHead(items, n, recs[k..], eph[ei..]);
          assert recs[k..][1..] == recs[k + 1..];
          StoreInv(spool);
          n := Emit(Stored(recs[k]), w0, s0, items, n);
          if broken { break; }
        }
        k := k + 1;
      }
      if !broken {
        assert recs[k..] == [];
        AfterNone(lastSent);
        ei, n := SendWaiting(eph, ei, [], w0, s0, items, n);
        if !broken { assert n == |items| by { LeftNone(items, n, eph[ei..]); } }
      }
    }

    /** Moves the queue into the spool; ephemeral messages wait for the reliable ones before them. */
    method DrainOutbox() returns (eph: seq<Out>)
      requires Valid() && forall i | 0 <= i < |outbox| :: outbox[i].msg.kind != ""
      modifies this, spool
      ensures Valid() && outbox == [] && spool == old(spool) && rx == old(rx)
      ensures (spool.Mem(), eph) == Drain(old(spool.Mem()), old(outbox), spool.limits)
      ensures unchanged(`wire, `acks, `lastSent, `sendable, `broken, `inbox, `ackNow, `persistedRx)
      ensures spool.limits == old(spool.limits)
    {
      hide Follows, Core, InSequence, RxTracker.Ordered, Append, Recovers, Store.Base, AcksDurable;
      var q := outbox;
      outbox, eph := [], [];
      for i := 0 to |q|
        invariant Valid() && spool == old(spool) && rx == old(rx) && spool.limits == old(spool.limits) && outbox == []
        invariant (spool.Mem(), eph) == Drain(old(spool.Mem()), q[..i], spool.limits)
        invariant unchanged(`wire, `acks, `lastSent, `sendable, `broken, `inbox, `ackNow, `persistedRx)
      {
        assert q[..i + 1][..i] == q[..i];
        if !q[i].reliable {
          eph := eph + [q[i].(afterSeq := spool.nextSeq - 1)];
        } else {
          Keep(q[i].msg);
        }
      }
      assert q[..|q|] == q;
    }

    /** One pass of the steady state: take the queue over, then send all there is. Unless something was
        dropped or refused, or the socket failed, the wire gets the older unsent records and then the
        queue, in exactly the order the plugins queued it. */
    method Pass()
      requires Valid() && !broken && forall i | 0 <= i < |outbox| :: outbox[i].msg.kind != ""
      modifies this, spool, rx
      ensures Valid() && outbox == [] && spool == old(spool) && rx == old(rx) && rx.State() == old(rx.State())
      ensures spool.Mem() == Drain(old(spool.Mem()), old(outbox), spool.limits).0.(rxSeq := spool.rxSeq)
      ensures spool.limits == old(spool.limits) && unchanged(`inbox, `ackNow)
      ensures !broken && spool.dropped == old(spool.dropped) ==>
        wire == old(wire) + Stamp(AsItems(After(old(spool.recs), old(lastSent))) + InOrder(old(outbox), old(spool.nextSeq)), rx.processed)
      ensures !broken ==> AllSent()
      ensures !broken && spool.dropped == old(spool.dropped) && old(AllSent()) ==>
        wire == old(wire) + Stamp(InOrder(old(outbox), old(spool.nextSeq)), rx.processed)
    {
      hide Follows, Core, Lines, EndsWith, Named, InSequence, RxTracker.Ordered, Store.Base, AcksDurable, Stamp, Merge, After, Drain, InOrder, AsItems;
      StoreInv(spool);
      ghost var before, q := spool.Mem(), outbox;
      var eph := DrainOutbox();
      ghost var items := Merge(After(spool.recs, lastSent), eph);
      if spool.dropped == before.dropped {
        QueueOrder(before, lastSent, q, spool.limits);
        if old(AllSent()) { NothingOlder(before.recs, lastSent, InOrder(q, before.nextSeq)); }
      }
      SendMerged(eph);
      if !broken { assert items[..|items|] == items; }
    }

    /** Opens a session: a new stream if something was lost, hello, answers to early pings, the platform's
        resume point, the replay, and a snapshot if the stream starts over. The replay is exactly the
        unacknowledged records; unless an earlier crash hid a loss, they are numbered without a hole
        from the resume point on. */
    method StartSession(freshId: string, hello: Message, pongs: seq<Message>, platformRx: int, reset: bool,
                        snapshot: Message, capacity: nat)
        returns (rotated: bool)
      requires Valid() && freshId != ""
      modifies this, spool, rx
      ensures Valid() && spool == old(spool) && rx == old(rx) && rx.State() == old(rx.State())
      ensures unchanged(`outbox, `inbox, `ackNow) && spool.limits == old(spool.limits) && rotated == old(spool.gap)
      ensures !broken ==>
        && spool.Mem() == Ack(Rotate(old(spool.Mem()), freshId), platformRx).(rxSeq := spool.rxSeq)
        && (old(spool.gap || GapSound(spool.Mem())) ==> Gapless(spool.Mem())) && !spool.gap && AllSent()
        && wire == Stamp(Directs([hello] + pongs) + AsItems(spool.recs) + (if reset || rotated then [Direct(snapshot)] else []),
                         rx.processed)
    {
      hide Follows, Lines, EndsWith, Named, RxTracker.Ordered, Stamp, AsItems, Rotate, Ack, Core, GapSound, Gapless, InSequence,
           Store.Base, AcksDurable, Directs;
      rotated := Greet(freshId, hello, pongs, capacity);
      if broken { return; }
      AckRx(Rotate(old(spool.Mem()), freshId), platformRx, spool.rxSeq);
      DirectsSend([hello] + pongs, rx.processed);
      Resume(platformRx);
      if broken { return; }
      ghost var before := spool.Mem();
      if reset || rotated {
        var _ := Send(Direct(snapshot));
      }
      GaplessRx(before, spool.rxSeq);
      SessionFrames(Directs([hello] + pongs), AsItems(spool.recs), snapshot, rx.processed);
    }

    /** The first frames of a session, after starting a new stream if something was lost. */
    method Greet(freshId: string, hello: Message, pongs: seq<Message>, capacity: nat) returns (rotated: bool)
      requires Valid() && freshId != ""
      modifies this, spool, rx
      ensures Valid() && spool == old(spool) && rx == old(rx) && rx.State() == old(rx.State())
      ensures unchanged(`outbox, `inbox, `ackNow) && spool.limits == old(spool.limits) && rotated == old(spool.gap)
      ensures spool.Mem() == Rotate(old(spool.Mem()), freshId).(rxSeq := spool.rxSeq) && !spool.gap
      ensures old(spool.gap || GapSound(spool.Mem())) ==> GapSound(spool.Mem())
      ensures !broken ==> wire == Stamp(Directs([hello] + pongs), rx.processed)
    {
      hide Follows, Lines, EndsWith, Named, RxTracker.Ordered, Rotate, Core, GapSound, InSequence, Store.Base, AcksDurable, Stamp, Directs;
      rotated := NewSession(freshId, capacity);
      ghost var before := spool.Mem();
      SendDirect([hello] + pongs);
      GapSoundRx(before, spool.rxSeq);
      assert [] + Stamp(Directs([hello] + pongs), rx.processed) == Stamp(Directs([hello] + pongs), rx.processed);
    }

    /** Ephemeral messages in order, until one fails. */
    method SendDirect(msgs: seq<Message>)
      requires Valid() && !broken
      modifies this, spool, rx
      ensures Valid() && spool == old(spool) && rx == old(rx) && rx.State() == old(rx.State())
      ensures unchanged(`outbox, `inbox, `ackNow, `lastSent) && spool.limits == old(spool.limits)
      ensures spool.Mem() == old(spool.Mem()).(rxSeq := spool.rxSeq)
      ensures !broken ==> wire == old(wire) + Stamp(Directs(msgs), rx.processed)
    {
      hide Follows, Lines, EndsWith, Named, RxTracker.Ordered, Core, InSequence, Store.Base, AcksDurable, Stamp, Directs;
      NoDirects(wire, rx.processed);
      for i := 0 to |msgs|
        invariant Valid() && spool == old(spool) && rx == old(rx) && rx.State() == old(rx.State()) && !broken
        invariant unchanged(`outbox, `inbox, `ackNow, `lastSent) && spool.limits == old(spool.limits)
        invariant spool.Mem() == old(spool.Mem()).(rxSeq := spool.rxSeq)
        invariant wire == old(wire) + Stamp(Directs(msgs[..i]), rx.processed)
      {
        DirectsPush(msgs, i, rx.processed);
        var ok := Send(Direct(msgs[i]));
        if !ok { return; }
      }
      assert msgs[..|msgs|] == msgs;
    }

    method NewSession(freshId: string, capacity: nat) returns (rotated: bool)
      requires Valid() && freshId != ""
      modifies this, spool
      ensures Valid() && spool == old(spool) && rx == old(rx)
      ensures unchanged(`outbox, `inbox, `ackNow) && spool.limits == old(spool.limits) && rotated == old(spool.gap)
      ensures spool.Mem() == Rotate(old(spool.Mem()), freshId) && !spool.gap
      ensures old(spool.gap || GapSound(spool.Mem())) ==> GapSound(spool.Mem())
      ensures wire == [] && !broken && sendable == capacity && persistedRx == -1
    {
      hide Follows, Lines, EndsWith, Named, RxTracker.Ordered, Rotate, Core, GapSound, InSequence, SentRecords;
      wire, lastSent, persistedRx, broken, sendable := [], 0, -1, false, capacity;
      NoneSent(0);
      StoreInv(spool);
      RotateKeeps(spool.Mem(), freshId, spool.limits);
      RotateRx(spool.Mem(), freshId);
      var isNew, _ := spool.RotateIfGap(freshId);
      rotated := isNew;
      StoreInv(spool);
    }

    /** Drops what the platform has and sends the rest. */
    method Resume(platformRx: int)
      requires Valid() && !broken && !spool.gap && SentRecords(wire) == []
      modifies this, spool, rx
      ensures Valid() && spool == old(spool) && rx == old(rx) && rx.State() == old(rx.State())
      ensures unchanged(`outbox, `inbox, `ackNow) && spool.limits == old(spool.limits)
      ensures spool.Mem() == Ack(old(spool.Mem()), platformRx).(rxSeq := spool.rxSeq)
      ensures !spool.gap && (old(GapSound(spool.Mem())) ==> Gapless(spool.Mem()))
      ensures !broken ==> AllSent() && wire == old(wire) + Stamp(AsItems(spool.recs), rx.processed)
    {
      hide Follows, Lines, EndsWith, Named, RxTracker.Ordered, Stamp, Merge, After, AsItems, Ack, Core;
      StoreInv(spool);
      AckKeeps(spool.Mem(), platformRx, spool.limits);
      AckRx(spool.Mem(), platformRx, spool.rxSeq);
      var _ := spool.AckUpTo(platformRx);
      StoreInv(spool);
      hide AcksDurable, Store.Base;
      lastSent := spool.acked;
      ReplayPlan(spool.Mem());
      SendMerged([]);
      if !broken { assert AsItems(spool.recs)[..|AsItems(spool.recs)|] == AsItems(spool.recs); }
    }

    /** A message from the platform. Its ack clears the spool; a repeat asks for an ack; an accepted one
        goes to the game thread, unless nothing handles it: then it counts as done at once. */
    method Receive(seqNo: int, id: string, ack: int, handling: Handling, nowMs: int) returns (verdict: RxTracker.Verdict)
      requires Valid() && seqNo != 0
      requires handling.NewToken? && handling.reply.Some? ==> handling.reply.value.kind != ""
      modifies this, spool, rx
      ensures Valid() && spool == old(spool) && rx == old(rx) && spool.limits == old(spool.limits)
      ensures verdict == RxTracker.Judge(old(rx.State()), seqNo, id)
      ensures rx.State() == var arrived := RxTracker.Arrived(old(rx.State()), seqNo, id);
        if verdict == RxTracker.Accept && !handling.ToGame? then RxTracker.Finished(arrived, seqNo) else arrived
      ensures inbox == old(inbox) + (if verdict == RxTracker.Accept && handling.ToGame? then [seqNo] else [])
      ensures ackNow == (old(ackNow) || verdict == RxTracker.Duplicate)
      ensures var cleared := if ack > 0 then Ack(old(spool.Mem()), ack) else old(spool.Mem());
        spool.Mem() == (if verdict == RxTracker.Accept && handling.NewToken? && handling.reply.Some?
                        then Append(cleared, handling.reply.value, spool.limits).0 else cleared).(rxSeq := spool.rxSeq)
      ensures outbox == old(outbox)
      ensures !broken ==>
        wire == old(wire) + (if verdict == RxTracker.Accept && handling.Unknown? then [Frame(Direct(handling.error), rx.processed)] else [])
    {
      hide Follows, Core, Lines, EndsWith, Named, InSequence, RxTracker.Ordered, Append, Ack, RxTracker.Finished;
      TakeAck(ack);
      hide Store.Base;
      ghost var cleared := spool.Mem();
      verdict := rx.OnReliable(seqNo, id);
      assert wire + [] == wire && inbox + [] == inbox;
      if verdict == RxTracker.Duplicate { ackNow := true; }
      if verdict != RxTracker.Accept { return; }
      match handling
      case ToGame => inbox := inbox + [seqNo];
      case Unknown(error) =>
        var _ := rx.MarkDone(seqNo, nowMs);
        var _ := Send(Direct(error));
      case NewToken(reply) =>
        if reply.Some? { Keep(reply.value); }
        var _ := rx.MarkDone(seqNo, nowMs);
    }

    /** A message from the platform without a number. Its ack counts all the same; a ping is always answered,
        a request or a game message only under a new id. */
    method ReceiveEphemeral(id: string, ack: int, casual: Casual) returns (isNew: bool)
      requires Valid()
      modifies this, spool, rx
      ensures Valid() && spool == old(spool) && rx == old(rx) && spool.limits == old(spool.limits)
      ensures isNew <==> !casual.Silent? && !casual.Ping? && (id == "" || id !in old(rx.ids))
      ensures rx.State() == if isNew then old(rx.State()).(ids := RxTracker.Remember(old(rx.ids), id)) else old(rx.State())
      ensures inbox == old(inbox) + (if isNew && casual.ForGame? then [0] else []) && unchanged(`outbox, `ackNow, `lastSent)
      ensures spool.Mem() == (if ack > 0 then Ack(old(spool.Mem()), ack) else old(spool.Mem())).(rxSeq := spool.rxSeq)
      ensures !broken ==>
        wire == old(wire) + (if casual.Ping? || (isNew && casual.Request?) then [Frame(Direct(casual.answer), rx.processed)] else [])
    {
      hide Follows, Core, Lines, EndsWith, Named, InSequence, RxTracker.Ordered, Ack, RxTracker.Remember, Store.Base, AcksDurable;
      TakeAck(ack);
      isNew := false;
      assert wire + [] == wire && inbox + [] == inbox;
      match casual
      case Silent =>
      case Ping(answer) =>
        var _ := Send(Direct(answer));
      case Request(answer) =>
        isNew := NoteId(id);
        if isNew { var _ := Send(Direct(answer)); }
      case ForGame =>
        isNew := NoteId(id);
        if isNew { inbox := inbox + [0]; }
      case Unhandled =>
        isNew := NoteId(id);
    }

    method NoteId(id: string) returns (isNew: bool)
      requires Valid()
      modifies rx
      ensures Valid() && (isNew <==> id == "" || id !in old(rx.ids))
      ensures rx.State() == if isNew then old(rx.State()).(ids := RxTracker.Remember(old(rx.ids), id)) else old(rx.State())
    {
      hide Follows, Core, Lines, EndsWith, Named, InSequence, Store.Base;
      isNew := rx.OnEphemeralId(id);
    }

    method TakeAck(ack: int)
      requires Valid()
      modifies spool
      ensures Valid() && spool.Mem() == (if ack > 0 then Ack(old(spool.Mem()), ack) else old(spool.Mem()))
      ensures spool.limits == old(spool.limits)
    {
      hide Follows, Lines, EndsWith, Named, RxTracker.Ordered, Core, Ack, InSequence;
      if ack > 0 {
        StoreInv(spool);
        AckKeeps(spool.Mem(), ack, spool.limits);
        AckRx(spool.Mem(), ack, spool.rxSeq);
        var _ := spool.AckUpTo(ack);
      }
    }

    /** Stores a reliable message. */
    method Keep(m: Message)
      requires Valid() && m.kind != ""
      modifies spool
      ensures Valid() && spool.Mem() == Append(old(spool.Mem()), m, spool.limits).0 && spool.limits == old(spool.limits)
    {
      hide Follows, Lines, EndsWith, Named, RxTracker.Ordered, Core, Append, InSequence;
      AppendMoves(spool.Mem(), m, spool.limits);
      AppendRx(spool.Mem(), m, spool.limits);
      var _, _ := spool.Append(m);
    }

    /** A standalone ack, asked for by a repeat or due by count or time. */
    method AckIfDue(ack: Message, nowMs: int)
      requires Valid() && !broken
      modifies this, spool, rx
      ensures Valid() && spool == old(spool) && rx == old(rx) && rx.State() == old(rx.State())
      ensures spool.Mem() == old(spool.Mem()).(rxSeq := spool.rxSeq) && unchanged(`outbox, `inbox, `lastSent)
      ensures !ackNow
      ensures !broken ==>
        wire == old(wire) + (if old(ackNow) || old(rx.AckDue(nowMs)) then [Frame(Direct(ack), rx.processed)] else [])
      ensures !broken ==>
        || rx.processed <= rx.lastAckSent || rx.processed == 0
        || (rx.processed - Max(0, rx.lastAckSent) < 32 && (rx.firstUnackedAt < 0 || nowMs - rx.firstUnackedAt < 1000))
      ensures !broken && !old(ackNow) && (old(rx.processed) <= old(rx.lastAckSent) || old(rx.processed) == 0) ==> wire == old(wire)
    {
      hide Follows, Core, Lines, EndsWith, Named, InSequence, RxTracker.Ordered, Store.Base, AcksDurable;
      assert wire + [] == wire;
      if ackNow || rx.AckDue(nowMs) {
        ackNow := false;
        var _ := Send(Direct(ack));
      }
    }

    /** The game thread finished some messages, in any order. */
    method FinishAll(done: seq<int>, nowMs: int)
      requires Valid()
      modifies rx
      ensures Valid() && rx.received == old(rx.received) && rx.State() == FinishedAll(old(rx.State()), done)
    {
      hide Follows, Core, Lines, EndsWith, Named, InSequence, RxTracker.Ordered, Store.Base, RxTracker.Finished;
      for i := 0 to |done|
        invariant Valid() && rx.received == old(rx.received) && rx.State() == FinishedAll(old(rx.State()), done[..i])
      {
        assert done[..i + 1][..i] == done[..i];
        var _ := rx.MarkDone(done[i], nowMs);
      }
      assert done[..|done|] == done;
    }
  }

  /** What becomes of an accepted message. */
  datatype Handling = ToGame | Unknown(error: Message) | NewToken(reply: Option<Message>)

  /** Messages without a number: pings, requests for the state, those for the game, those nothing handles,
      and those that say nothing more (pong, ack, welcome, error). */
  datatype Casual = Ping(answer: Message) | Request(answer: Message) | ForGame | Unhandled | Silent

  function FinishedAll(rx: RxTracker.Rx, done: seq<int>): RxTracker.Rx {
    if done == [] then rx else RxTracker.Finished(FinishedAll(rx, done[..|done| - 1]), done[|done| - 1])
  }

  /** Whatever a crash leaves of the log, a restart remembers every ack that was ever sent. */
  lemma AckedIsRemembered(c: Client, log: seq<LogLine>, freshId: string)
    requires c.AcksDurable()
    ensures forall i | 0 <= i < |c.acks| :: c.acks[i] <= Recover(c.spool.disk.(log := log), freshId).rxSeq
  {
    RecoverRx(c.spool.disk.(log := log), freshId);
  }

  // ---- planned frames --------------------------------------------------------------------------

  /** From `n` on, the items are the records ahead merged with the waiting ephemeral messages. */
  ghost predicate Left(items: seq<Item>, n: nat, ahead: seq<Record>, eph: seq<Out>) {
    n <= |items| && items[n..] == Merge(ahead, eph)
  }

  /** No waiting message has to go before the next record. */
  predicate Settled(ahead: seq<Record>, eph: seq<Out>) {
    eph == [] || (ahead != [] && eph[0].afterSeq >= ahead[0].seqNo)
  }

  lemma StampPush(items: seq<Item>, n: nat, ack: int)
    requires n < |items|
    ensures Stamp(items[..n + 1], ack) == Stamp(items[..n], ack) + [Frame(items[n], ack)]
  {
    assert items[..n + 1][..n] == items[..n];
  }

  lemma NothingSent(wire: seq<Frame>, items: seq<Item>, ack: int, ahead: seq<Record>, eph: seq<Out>)
    requires items == Merge(ahead, eph)
    ensures wire + Stamp(items[..0], ack) == wire && Left(items, 0, ahead, eph)
  {
    assert items[0..] == items;
  }

  /** The next item is the one the loop sends. */
  lemma LeftHead(items: seq<Item>, n: nat, ahead: seq<Record>, eph: seq<Out>)
    requires Left(items, n, ahead, eph) && (ahead != [] || eph != [])
    ensures n < |items|
    ensures !Settled(ahead, eph) ==> items[n] == Direct(eph[0].msg) && Left(items, n + 1, ahead, eph[1..])
    ensures Settled(ahead, eph) ==> items[n] == Stored(ahead[0]) && Left(items, n + 1, ahead[1..], eph)
  {
    assert items[n..][1..] == items[n + 1..];
    assert items[n] == items[n..][0];
  }

  lemma LeftNone(items: seq<Item>, n: nat, eph: seq<Out>)
    requires Left(items, n, [], eph) && Settled([], eph)
    ensures n == |items|
  {}

  /** Skipping an already sent record, or reaching the first unsent one. */
  lemma AfterHead(recs: seq<Record>, k: nat, sent: int)
    requires k < |recs| && Increasing(recs)
    ensures recs[k].seqNo <= sent ==> After(recs[k..], sent) == After(recs[k + 1..], sent)
    ensures recs[k].seqNo > sent ==>
      After(recs[k..], sent) == recs[k..] && After(recs[k + 1..], recs[k].seqNo) == recs[k + 1..]
  {
    assert recs[k..][1..] == recs[k + 1..];
  }

  lemma AfterNone(sent: int)
    ensures After([], sent) == []
  {}

  lemma NothingOlder(recs: seq<Record>, sent: int, items: seq<Item>)
    requires forall i | 0 <= i < |recs| :: recs[i].seqNo <= sent
    ensures AsItems(After(recs, sent)) + items == items
  {
    AllAfter(recs, sent);
  }

  lemma {:induction false} AllAfter(recs: seq<Record>, sent: int)
    requires forall i | 0 <= i < |recs| :: recs[i].seqNo <= sent
    ensures After(recs, sent) == []
  {
    if recs != [] { AllAfter(recs[1..], sent); }
  }

  lemma NoneSent(lastSent: int)
    ensures InSequence([], lastSent)
  {}

  lemma AckRx(s: State, n: int, x: int)
    ensures Ack(s.(rxSeq := x), n) == Ack(s, n).(rxSeq := x) && Ack(s, n).rxSeq == s.rxSeq
  {}

  lemma RotateRx(s: State, freshId: string)
    ensures Rotate(s, freshId).rxSeq == s.rxSeq
  {}

  lemma ReplayPlan(s: State)
    requires Core(s)
    ensures Merge(After(s.recs, s.acked), []) == AsItems(s.recs) && (!s.gap && GapSound(s) ==> Gapless(s))
  {
    MergeRecords(s.recs);
  }

  lemma SessionFrames(greeting: seq<Item>, replay: seq<Item>, snapshot: Message, ack: int)
    ensures Stamp(greeting, ack) + Stamp(replay, ack) == Stamp(greeting + replay, ack)
    ensures Stamp(greeting + replay, ack) + [Frame(Direct(snapshot), ack)] == Stamp(greeting + replay + [Direct(snapshot)], ack)
    ensures greeting + replay + [] == greeting + replay
  {
    StampConcat(greeting, replay, ack);
    var all := greeting + replay + [Direct(snapshot)];
    assert all[..|all| - 1] == greeting + replay;
  }

  lemma {:induction false} StampConcat(a: seq<Item>, b: seq<Item>, ack: int)
    ensures Stamp(a + b, ack) == Stamp(a, ack) + Stamp(b, ack)
  {
    if b == [] {
      assert a + b == a;
    } else {
      StampConcat(a, b[..|b| - 1], ack);
      assert (a + b)[..|a + b| - 1] == a + b[..|b| - 1];
    }
  }

  function Directs(msgs: seq<Message>): seq<Item> {
    if msgs == [] then [] else Directs(msgs[..|msgs| - 1]) + [Direct(msgs[|msgs| - 1])]
  }

  lemma NoDirects(wire: seq<Frame>, ack: int)
    ensures forall msgs: seq<Message> :: wire + Stamp(Directs(msgs[..0]), ack) == wire
  {}

  lemma DirectsPush(msgs: seq<Message>, i: nat, ack: int)
    requires i < |msgs|
    ensures Stamp(Directs(msgs[..i + 1]), ack) == Stamp(Directs(msgs[..i]), ack) + [Frame(Direct(msgs[i]), ack)]
  {
    assert msgs[..i + 1][..i] == msgs[..i];
    var items := Directs(msgs[..i]) + [Direct(msgs[i])];
    assert items[..|items| - 1] == Directs(msgs[..i]);
  }

  lemma {:induction false} DirectsSend(msgs: seq<Message>, ack: int)
    ensures SentRecords(Stamp(Directs(msgs), ack)) == []
  {
    if msgs != [] {
      var before := msgs[..|msgs| - 1];
      DirectsSend(before, ack);
      var items := Directs(before) + [Direct(msgs[|msgs| - 1])];
      assert items[..|items| - 1] == Directs(before);
      SentPush(Stamp(Directs(before), ack), Frame(Direct(msgs[|msgs| - 1]), ack));
    }
  }

  lemma GaplessRx(s: State, x: int)
    ensures Gapless(s.(rxSeq := x)) == Gapless(s)
  {}

  lemma GapSoundRx(s: State, x: int)
    ensures GapSound(s.(rxSeq := x)) == GapSound(s)
  {}

  lemma StoreInv(st: Store)
    requires st.Valid()
    ensures Core(st.Mem()) && 0 <= st.acked < st.nextSeq
    ensures Increasing(st.recs) && forall k | 0 <= k < |st.recs| :: st.recs[k].seqNo < st.nextSeq
  {
    Ordered(st.Mem());
  }

  lemma Bounds(d: Disk, freshId: string)
    ensures Recover(d, freshId).rxSeq >= 0 && (freshId != "" ==> Recover(d, freshId).streamId != "") && InSequence([], 0)
  {}

  /** The inbound count comes from the meta file alone. */
  lemma RecoverRx(d: Disk, freshId: string)
    requires d.meta.Some? && d.meta.value.streamId != "" && d.meta.value.rxSeq >= 0
    ensures Recover(d, freshId).rxSeq == d.meta.value.rxSeq
  {}

  lemma AppendRx(s: State, m: Message, lim: Limits)
    ensures Append(s, m, lim).0.rxSeq == s.rxSeq
  {}
}
