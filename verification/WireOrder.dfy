/** How the session loop (plugins/fleet/fleet_client.cpp) merges stored and ephemeral messages onto one
    wire: the values and their laws. */
module WireOrder {
  import opened Spool
  import opened SpoolLaws

  /** A queued message. A reliable one goes through the spool under `id`; an ephemeral one waits for the
      reliable messages queued before it (`afterSeq`). */
  datatype Out = Out(msg: Message, reliable: bool, afterSeq: int)

  /** What goes onto the wire. */
  datatype Item = Stored(rec: Record) | Direct(msg: Message)

  /** The spool and the ephemeral messages after taking over a queue, in order. */
  function Drain(s: State, q: seq<Out>, lim: Limits): (State, seq<Out>) {
    if q == [] then (s, [])
    else
      var (t, eph) := Drain(s, q[..|q| - 1], lim);
      var o := q[|q| - 1];
      if o.reliable then (Append(t, o.msg, lim).0, eph)
      else (t, eph + [o.(afterSeq := t.nextSeq - 1)])
  }

  /** Records in order, each ephemeral message before the first record numbered after it. */
  function Merge(recs: seq<Record>, eph: seq<Out>): seq<Item>
    decreases |recs| + |eph|
  {
    if recs == [] then (if eph == [] then [] else [Direct(eph[0].msg)] + Merge(recs, eph[1..]))
    else if eph != [] && eph[0].afterSeq < recs[0].seqNo then [Direct(eph[0].msg)] + Merge(recs, eph[1..])
    else [Stored(recs[0])] + Merge(recs[1..], eph)
  }

  /** The queue itself, as it should appear on the wire when its first reliable message gets `next`. */
  function InOrder(q: seq<Out>, next: int): seq<Item> {
    if q == [] then []
    else
      var o := q[|q| - 1];
      var before := q[..|q| - 1];
      InOrder(before, next) + [if o.reliable then Stored(MakeRecord(o.msg, next + ReliableCount(before))) else Direct(o.msg)]
  }

  function ReliableCount(q: seq<Out>): nat {
    if q == [] then 0 else ReliableCount(q[..|q| - 1]) + (if q[|q| - 1].reliable then 1 else 0)
  }

  function AsItems(recs: seq<Record>): seq<Item> {
    if recs == [] then [] else AsItems(recs[..|recs| - 1]) + [Stored(recs[|recs| - 1])]
  }

  // ---- merging -------------------------------------------------------------------------------

  lemma {:induction false} MergePushRecord(recs: seq<Record>, eph: seq<Out>, r: Record)
    requires forall i | 0 <= i < |eph| :: eph[i].afterSeq < r.seqNo
    ensures Merge(recs + [r], eph) == Merge(recs, eph) + [Stored(r)]
    decreases |recs| + |eph|
  {
    if recs == [] {
      assert recs + [r] == [r];
      if eph == [] {
        assert [r][1..] == [];
      } else {
        MergePushRecord(recs, eph[1..], r);
      }
    } else if eph != [] && eph[0].afterSeq < recs[0].seqNo {
      MergePushRecord(recs, eph[1..], r);
    } else {
      assert (recs + [r])[1..] == recs[1..] + [r];
      MergePushRecord(recs[1..], eph, r);
    }
  }

  lemma {:induction false} MergePushEphemeral(recs: seq<Record>, eph: seq<Out>, o: Out)
    requires forall i | 0 <= i < |recs| :: recs[i].seqNo <= o.afterSeq
    ensures Merge(recs, eph + [o]) == Merge(recs, eph) + [Direct(o.msg)]
    decreases |recs| + |eph|
  {
    if eph == [] {
      assert eph + [o] == [o];
      if recs == [] { assert [o][1..] == []; } else { MergePushEphemeral(recs[1..], eph, o); }
    } else {
      assert (eph + [o])[1..] == eph[1..] + [o];
      if recs == [] || eph[0].afterSeq < recs[0].seqNo {
        MergePushEphemeral(recs, eph[1..], o);
      } else {
        MergePushEphemeral(recs[1..], eph, o);
      }
    }
  }

  lemma {:induction false} MergeRecords(recs: seq<Record>)
    ensures Merge(recs, []) == AsItems(recs)
  {
    if recs != [] {
      MergeRecords(recs[..|recs| - 1]);
      MergePushRecord(recs[..|recs| - 1], [], recs[|recs| - 1]);
      assert recs[..|recs| - 1] + [recs[|recs| - 1]] == recs;
    }
  }

  function RecordsOf(items: seq<Item>): seq<Record> {
    if items == [] then [] else (if items[0].Stored? then [items[0].rec] else []) + RecordsOf(items[1..])
  }

  /** Merging never reorders or loses records. */
  lemma {:induction false} MergeKeepsRecords(recs: seq<Record>, eph: seq<Out>)
    ensures RecordsOf(Merge(recs, eph)) == recs
    decreases |recs| + |eph|
  {
    if recs == [] {
      if eph != [] { MergeKeepsRecords(recs, eph[1..]); }
    } else if eph != [] && eph[0].afterSeq < recs[0].seqNo {
      MergeKeepsRecords(recs, eph[1..]);
    } else {
      MergeKeepsRecords(recs[1..], eph);
    }
  }

  // ---- draining ------------------------------------------------------------------------------

  lemma {:induction false} DrainKeeps(s: State, q: seq<Out>, lim: Limits)
    requires Core(s)
    ensures Core(Drain(s, q, lim).0) && s.nextSeq <= Drain(s, q, lim).0.nextSeq
    ensures GapSound(s) ==> GapSound(Drain(s, q, lim).0)
    ensures Drain(s, q, lim).0.dropped >= s.dropped && Drain(s, q, lim).0.acked == s.acked
    ensures forall i | 0 <= i < |Drain(s, q, lim).1| :: Drain(s, q, lim).1[i].afterSeq < Drain(s, q, lim).0.nextSeq
  {
    hide Append, Core, GapSound;
    if q != [] {
      var before := q[..|q| - 1];
      DrainKeeps(s, before, lim);
      var t := Drain(s, before, lim).0;
      if q[|q| - 1].reliable {
        AppendKeeps(t, q[|q| - 1].msg, lim);
        AppendMoves(t, q[|q| - 1].msg, lim);
      }
    }
  }

  lemma AppendMoves(s: State, m: Message, lim: Limits)
    ensures var t := Append(s, m, lim).0;
      s.nextSeq <= t.nextSeq && t.dropped >= s.dropped && t.acked == s.acked
  {
    hide Kept, Refused, IsCritical, Total;
    KeptShorter(s.recs, Size(MakeRecord(m, s.nextSeq)), lim);
  }

  /** When nothing is dropped or refused, the wire gets the older unsent records and then the queue,
      reliable and ephemeral messages exactly in the order they were queued. */
  lemma {:induction false} QueueOrder(s: State, sent: int, q: seq<Out>, lim: Limits)
    requires Core(s) && sent < s.nextSeq
    requires Drain(s, q, lim).0.dropped == s.dropped
    ensures var (t, eph) := Drain(s, q, lim);
      && Merge(After(t.recs, sent), eph) == AsItems(After(s.recs, sent)) + InOrder(q, s.nextSeq)
      && t.nextSeq == s.nextSeq + ReliableCount(q)
  {
    hide Append, Core, After, IsCritical, Merge;
    if q == [] {
      MergeRecords(After(s.recs, sent));
      assert AsItems(After(s.recs, sent)) + [] == AsItems(After(s.recs, sent));
    } else {
      var before, o := q[..|q| - 1], q[|q| - 1];
      var (t, eph) := Drain(s, before, lim);
      DrainKeeps(s, before, lim);
      if o.reliable { AppendMoves(t, o.msg, lim); }
      QueueOrder(s, sent, before, lim);
      var (u, eph') := Drain(s, q, lim);
      DrainStep(t, eph, o, sent, lim);
      assert Merge(After(u.recs, sent), eph') == Merge(After(t.recs, sent), eph) + [StepItem(t, o)];
      hide Drain;
      var head := AsItems(After(s.recs, sent));
      assert InOrder(q, s.nextSeq) == InOrder(before, s.nextSeq) + [StepItem(t, o)];
      assert (head + InOrder(before, s.nextSeq)) + [StepItem(t, o)] == head + (InOrder(before, s.nextSeq) + [StepItem(t, o)]);
    }
  }

  /** What one queued message adds to the wire. */
  function StepItem(s: State, o: Out): Item {
    if o.reliable then Stored(MakeRecord(o.msg, s.nextSeq)) else Direct(o.msg)
  }

  lemma DrainStep(s: State, eph: seq<Out>, o: Out, sent: int, lim: Limits)
    requires Core(s) && sent < s.nextSeq && forall i | 0 <= i < |eph| :: eph[i].afterSeq < s.nextSeq
    ensures o.reliable && Append(s, o.msg, lim).0.dropped == s.dropped ==>
      && Merge(After(Append(s, o.msg, lim).0.recs, sent), eph) == Merge(After(s.recs, sent), eph) + [StepItem(s, o)]
      && Append(s, o.msg, lim).0.nextSeq == s.nextSeq + 1
    ensures !o.reliable ==>
      Merge(After(s.recs, sent), eph + [o.(afterSeq := s.nextSeq - 1)]) == Merge(After(s.recs, sent), eph) + [StepItem(s, o)]
  {
    hide Append, Core, After, IsCritical, Merge;
    if o.reliable {
      AppendKeeps(s, o.msg, lim);
      if Append(s, o.msg, lim).0.dropped == s.dropped {
        var r := MakeRecord(o.msg, s.nextSeq);
        AfterPush(s.recs, sent, r);
        MergePushRecord(After(s.recs, sent), eph, r);
      }
    } else {
      AfterBelow(s, sent);
      MergePushEphemeral(After(s.recs, sent), eph, o.(afterSeq := s.nextSeq - 1));
    }
  }

  lemma {:induction false} AfterPush(recs: seq<Record>, sent: int, r: Record)
    requires sent < r.seqNo
    ensures After(recs + [r], sent) == After(recs, sent) + [r]
  {
    if recs == [] {
      assert recs + [r] == [r];
    } else if recs[0].seqNo <= sent {
      assert (recs + [r])[1..] == recs[1..] + [r];
      AfterPush(recs[1..], sent, r);
    }
  }

  lemma AfterBelow(s: State, sent: int)
    requires Core(s)
    ensures forall i | 0 <= i < |After(s.recs, sent)| :: After(s.recs, sent)[i].seqNo <= s.nextSeq - 1
  {
    Ordered(s);
    var k := AfterSuffix(s.recs, sent);
  }
}
