/** End to end: the spool with its drops, refusals, rotations and crashes, the sessions, the wire, and a
    platform that takes what comes next in order. In every stream the platform has a beginning of what the
    spool numbered, each message once; and over all streams no accepted message goes missing unless
    compaction dropped it, which it never does to a critical one. */
module Delivery {
  import opened Basics
  import opened JsonValue
  import opened Spool
  import opened SpoolLaws
  import opened SpoolFiles
  import opened SpoolCrashes

  /** `given`: the records of the current stream in order, dropped ones included. `got`, `delivered`: what
      the platform took of it. `wire`: frames on their way in this session. `known`: the largest ack the
      spool ever heard in this stream. Over all streams and without their numbers: `taken` is what the
      spool accepted, `lost` what it dropped later, `arrived` what the platform took. */
  datatype Net = Net(s: State, given: seq<Record>, got: nat, delivered: seq<Record>, known: int,
                     online: bool, wire: seq<Record>, lastSent: int,
                     taken: set<Record>, lost: set<Record>, arrived: set<Record>)

  /** A new installation. */
  function Empty(streamId: string): Net {
    Net(State([], 0, 1, 0, 0, false, streamId, 0), [], 0, [], 0, false, [], 0, {}, {}, {})
  }

  // ---- steps -----------------------------------------------------------------------------------

  datatype Event =
    | Offered(m: Message, lim: Limits)
    | Connected(freshId: string)
    | Sent(count: nat)
    | Received
    | Confirmed(n: int)
    | Cut
    | Crashed(files: Disk)

  /** A restart from `files` goes on where `s` was: nothing unacknowledged is missing, no number is given
      out twice, and a hole in the numbers is flagged. */
  ghost predicate Survives(files: Disk, s: State) {
    var r := Recover(files, "");
    && Inv(r) && r.nextSeq == s.nextSeq && r.acked <= s.acked && EndsWith(r.recs, s.recs)
    && forall i | 0 <= i < |r.recs| - |s.recs| :: r.recs[i].seqNo <= s.acked
  }

  /** Sends come in a session, acks name what the platform has, and a crash leaves files that survive it. All
      else may happen at any time. */
  ghost predicate May(a: Net, e: Event) {
    match e
    case Sent(count) => a.online
    case Confirmed(n) => n <= a.got
    case Crashed(files) => Survives(files, a.s)
    case _ => true
  }

  /** A lost number makes the spool begin a new stream, of which the platform has nothing. */
  function Turned(a: Net, freshId: string): Net {
    if !a.s.gap then a
    else
      var t := Rotate(a.s, freshId);
      a.(s := t, given := t.recs, got := 0, delivered := [], known := 0)
  }

  function Heard(a: Net, n: int): Net { a.(s := Ack(a.s, n), known := Max(a.known, Ack(a.s, n).acked)) }

  /** What compaction took out of `before`. */
  function Gone(before: seq<Record>, after: seq<Record>): set<Record> {
    set r | r in before && r !in after :: Content(r)
  }

  function Next(a: Net, e: Event): Net {
    match e
    case Offered(m, lim) =>
      var (t, n) := Append(a.s, m, lim);
      var b := a.(s := t, lost := a.lost + Gone(a.s.recs, t.recs));
      if n == 0 then b
      else b.(given := a.given + [MakeRecord(m, n)], taken := a.taken + {Content(MakeRecord(m, n))})
    case Connected(freshId) =>
      var b := Heard(Turned(a, freshId), Turned(a, freshId).got);
      b.(online := true, wire := [], lastSent := b.s.acked)
    case Sent(count) =>
      var due := After(a.s.recs, a.lastSent);
      var out := due[..Min(count, |due|)];
      a.(wire := a.wire + out, lastSent := if out == [] then a.lastSent else out[|out| - 1].seqNo)
    case Received =>
      if a.wire == [] then a
      else if a.wire[0].seqNo != a.got + 1 then a.(wire := a.wire[1..])
      else
        a.(wire := a.wire[1..], got := a.got + 1, delivered := a.delivered + [a.wire[0]],
           arrived := a.arrived + {Content(a.wire[0])})
    case Confirmed(n) => Heard(a, n)
    case Cut => a.(online := false, wire := [])
    case Crashed(files) => a.(s := Recover(files, ""), online := false, wire := [])
  }

  function Run(a: Net, es: seq<Event>): Net {
    if es == [] then a else Next(Run(a, es[..|es| - 1]), es[|es| - 1])
  }

  ghost predicate MayRun(a: Net, es: seq<Event>) {
    forall i | 0 <= i < |es| :: May(Run(a, es[..i]), es[i])
  }

  // ---- what every run keeps --------------------------------------------------------------------

  /** The record has its number's place among the given ones. */
  predicate Backed(r: Record, given: seq<Record>) { 1 <= r.seqNo <= |given| && r == given[r.seqNo - 1] }

  /** The spool's records are the given ones under their numbers, at least those that may be sent. */
  ghost predicate Stored(a: Net) {
    && Inv(a.s) && a.s.acked <= a.known <= |a.given|
    && |a.given| == a.s.nextSeq - 1 && Contiguous(a.given, 1)
    && forall r | r in a.s.recs && r.seqNo > a.known :: Backed(r, a.given)
  }

  /** The platform has a beginning of the given records, and so has the wire, frame by frame. */
  ghost predicate Matched(a: Net) {
    && a.known <= a.got <= |a.given| && a.delivered == a.given[..a.got]
    && (a.online ==> a.got <= a.lastSent <= |a.given|)
    && (!a.online ==> a.wire == [])
    && forall r | r in a.wire :: Backed(r, a.given) && r.seqNo <= a.lastSent
  }

  /** While no number is lost, the frames on the wire go on without a hole from what the platform has. */
  ghost predicate Chained(a: Net) {
    a.online && !a.s.gap ==>
      var first := a.lastSent - |a.wire|;
      0 <= first <= a.got && a.lastSent <= |a.given| && a.wire == a.given[first..a.lastSent]
  }

  /** A record that is still to be delivered. */
  ghost predicate Waiting(a: Net, x: Record) {
    exists r | r in a.s.recs :: r.seqNo > a.known && Content(r) == x
  }

  /** No accepted message goes missing, and what was dropped was not critical. */
  ghost predicate Settled(a: Net) {
    && (forall i | 0 <= i < |a.delivered| :: Content(a.delivered[i]) in a.arrived)
    && (forall x | x in a.lost :: !x.critical)
    && forall x | x in a.taken :: x in a.lost || x in a.arrived || Waiting(a, x)
  }

  ghost predicate Good(a: Net) { Stored(a) && Matched(a) && Chained(a) && Settled(a) }

  lemma Begins(streamId: string)
    ensures Good(Empty(streamId))
  {}

  // ---- a message is offered --------------------------------------------------------------------

  lemma OfferedStored(a: Net, m: Message, lim: Limits)
    requires Stored(a)
    ensures Stored(Next(a, Offered(m, lim)))
  {
    hide Inv;
    AppendRecords(a.s, m, lim);
    hide Append;
    var b := Next(a, Offered(m, lim));
    forall r | r in b.s.recs && r.seqNo > b.known ensures Backed(r, b.given) {
      if r in a.s.recs { assert Backed(r, a.given); }
    }
  }

  /** What an append leaves: old records, the new one, and every critical one. */
  lemma AppendRecords(s: State, m: Message, lim: Limits)
    requires Inv(s)
    ensures var (t, n) := Append(s, m, lim);
      && Inv(t) && t.acked == s.acked && t.nextSeq == (if n == 0 then s.nextSeq else s.nextSeq + 1)
      && (forall r | r in t.recs :: r in s.recs || (n != 0 && r == MakeRecord(m, n)))
      && (forall r | r in s.recs && r.critical :: r in t.recs)
      && (n != 0 ==> n == s.nextSeq && MakeRecord(m, n) in t.recs)
      && (s.gap ==> t.gap)
  {
    var add := Size(MakeRecord(m, s.nextSeq));
    forall r ensures r in Kept(s.recs, add, lim) ==> r in s.recs
             ensures r in s.recs && r.critical ==> r in Kept(s.recs, add, lim) {
      KeptMembers(s.recs, add, lim, r);
    }
    KeptShorter(s.recs, add, lim);
    AppendKeeps(s, m, lim);
    hide Core, GapSound;
    hide Kept, Refused, IsCritical, Total;
  }

  lemma OfferedWire(a: Net, m: Message, lim: Limits)
    requires Stored(a) && Matched(a) && Chained(a)
    ensures Matched(Next(a, Offered(m, lim))) && Chained(Next(a, Offered(m, lim)))
  {
    hide Inv;
    AppendRecords(a.s, m, lim);
    hide Append, Matched, Chained;
    var b := Next(a, Offered(m, lim));
    assert b.given[..|a.given|] == a.given;
    MoreGiven(a, b);
  }

  /** More given records, or a raised flag, change nothing on the wire. */
  lemma MoreGiven(a: Net, b: Net)
    requires Matched(a) && Chained(a) && |a.given| <= |b.given| && b.given[..|a.given|] == a.given
    requires b == a.(s := b.s, given := b.given, taken := b.taken, lost := b.lost) && (a.s.gap ==> b.s.gap)
    ensures Matched(b) && Chained(b)
  {
    assert forall i | 0 <= i < |a.given| :: b.given[i] == b.given[..|a.given|][i];
    assert b.given[..a.got] == a.given[..a.got];
    if a.online && !a.s.gap {
      var first := a.lastSent - |a.wire|;
      assert b.given[first..a.lastSent] == a.given[first..a.lastSent];
    }
  }

  lemma OfferedSettled(a: Net, m: Message, lim: Limits)
    requires Stored(a) && Settled(a)
    ensures Settled(Next(a, Offered(m, lim)))
  {
    hide Inv;
    AppendRecords(a.s, m, lim);
    hide Append;
    var b := Next(a, Offered(m, lim));
    forall x | x in b.taken ensures x in b.lost || x in b.arrived || Waiting(b, x) {
      if x in a.taken {
        if Waiting(a, x) {
          var r :| r in a.s.recs && r.seqNo > a.known && Content(r) == x;
          assert r in b.s.recs || x in Gone(a.s.recs, b.s.recs);
        }
      } else {
        var r := MakeRecord(m, a.s.nextSeq);
        assert r in b.s.recs && r.seqNo > a.known && Content(r) == x;
      }
    }
  }

  // ---- acks and new streams --------------------------------------------------------------------

  lemma HeardStored(a: Net, n: int)
    requires Stored(a) && n <= |a.given|
    ensures Stored(Heard(a, n)) && Heard(a, n).known <= Max(a.known, n)
  {
    hide Inv, Total;
    AckParts(a.s, n);
    hide Ack;
    var b := Heard(a, n);
    assert forall r | r in b.s.recs && r.seqNo > b.known :: r in a.s.recs;
  }

  lemma AckParts(s: State, n: int)
    requires Inv(s)
    ensures var t := Ack(s, n);
      && Inv(t) && t.gap == s.gap && t.nextSeq == s.nextSeq && t.acked == Max(s.acked, Min(n, s.nextSeq - 1))
      && (forall r :: r in t.recs <==> r in s.recs && r.seqNo > t.acked)
  {
    hide Total, After;
    AckKeeps(s, n, Limits(0, 0));
  }

  lemma HeardSettled(a: Net, n: int)
    requires Stored(a) && Matched(a) && Settled(a) && n <= a.got
    ensures Settled(Heard(a, n))
  {
    AckParts(a.s, n);
    hide Ack, Inv, Total;
    var b := Heard(a, n);
    forall x | x in a.taken && Waiting(a, x) ensures x in a.arrived || Waiting(b, x) {
      var r :| r in a.s.recs && r.seqNo > a.known && Content(r) == x;
      if r.seqNo > b.known {
        assert r in b.s.recs;
      } else {
        assert Backed(r, a.given) && a.delivered[r.seqNo - 1] == r;
      }
    }
  }

  lemma HeardWire(a: Net, n: int)
    requires Stored(a) && Matched(a) && Chained(a) && n <= a.got
    ensures Matched(Heard(a, n)) && Chained(Heard(a, n))
  {
    AckParts(a.s, n);
    HeardStored(a, n);
    hide Ack, Inv, Total;
  }

  /** A new stream has everything the spool holds still to be delivered. */
  lemma TurnedKeeps(a: Net, freshId: string)
    requires Stored(a) && Matched(a) && Settled(a)
    ensures var b := Turned(a, freshId);
      Stored(b) && Settled(b) && !b.s.gap && b.known <= b.got <= |b.given| && b.delivered == b.given[..b.got]
  {
    hide Inv;
    if a.s.gap {
      RotatedParts(a.s, freshId);
      hide Rotate;
      TurnedSettled(a, freshId);
    }
  }

  lemma RotatedParts(s: State, freshId: string)
    requires Inv(s) && s.gap
    ensures var t := Rotate(s, freshId);
      && Inv(t) && !t.gap && t.acked == 0 && |t.recs| == |s.recs| == t.nextSeq - 1 && Contiguous(t.recs, 1)
      && (forall r | r in t.recs :: Backed(r, t.recs))
      && (forall r | r in s.recs :: exists q | q in t.recs :: Content(q) == Content(r))
  {
    RotateKeeps(s, freshId, Limits(0, 0));
    hide Rotate, Core, GapSound;
    var t := Rotate(s, freshId);
    forall r | r in s.recs ensures exists q | q in t.recs :: Content(q) == Content(r) {
      var i :| 0 <= i < |s.recs| && s.recs[i] == r;
      assert t.recs[i] in t.recs;
    }
  }

  lemma TurnedSettled(a: Net, freshId: string)
    requires Inv(a.s) && Settled(a) && a.s.gap
    ensures Settled(Turned(a, freshId))
  {
    hide Inv;
    RotatedParts(a.s, freshId);
    hide Rotate;
    var b := Turned(a, freshId);
    forall x | x in a.taken && Waiting(a, x) ensures Waiting(b, x) {
      var r :| r in a.s.recs && r.seqNo > a.known && Content(r) == x;
      var q :| q in b.s.recs && Content(q) == Content(r);
      assert Backed(q, b.given);
    }
  }

  lemma KeepConnected(a: Net, freshId: string)
    requires Good(a)
    ensures Good(Next(a, Connected(freshId)))
    ensures var b := Next(a, Connected(freshId)); b.online && !b.s.gap && b.wire == [] && b.lastSent == b.got
  {
    TurnedKeeps(a, freshId);
    hide Turned, Stored, Matched, Settled, Chained, Heard;
    Joined(Turned(a, freshId));
  }

  /** A session begins where the platform says, with nothing on its wire. */
  lemma Joined(a: Net)
    requires Stored(a) && Settled(a) && !a.s.gap && a.known <= a.got <= |a.given| && a.delivered == a.given[..a.got]
    ensures var h := Heard(a, a.got);
      var b := h.(online := true, wire := [], lastSent := h.s.acked);
      Good(b) && !b.s.gap && b.lastSent == b.got
  {
    hide Inv, Ack;
    AckParts(a.s, a.got);
    HeardStored(a, a.got);
    var h := Heard(a, a.got);
    var b := h.(online := true, wire := [], lastSent := h.s.acked);
    assert h.s.acked == a.got;
    assert Matched(b) && Chained(b);
    hide Matched, Chained;
    SameStored(a, a.(online := false, wire := []));
    HeardSettled(a.(online := false, wire := []), a.got);
    SameStored(Heard(a.(online := false, wire := []), a.got), b);
  }

  /** Neither the spool nor the ledgers depend on the session. */
  lemma SameStored(a: Net, b: Net)
    requires b == a.(online := b.online, wire := b.wire, lastSent := b.lastSent)
    ensures Stored(a) ==> Stored(b)
    ensures Settled(a) ==> Settled(b)
  {
    hide Inv;
    if Settled(a) {
      forall x | x in a.taken && Waiting(a, x) ensures Waiting(b, x) {}
    }
  }

  // ---- the wire --------------------------------------------------------------------------------

  lemma {:induction false} AfterIs(recs: seq<Record>, first: int, sent: int)
    requires Contiguous(recs, first) && first <= sent + 1 <= first + |recs|
    ensures After(recs, sent) == recs[sent + 1 - first..]
  {
    if first <= sent {
      assert recs[0].seqNo == first;
      assert forall i | 0 <= i < |recs| - 1 :: recs[1..][i] == recs[i + 1];
      AfterIs(recs[1..], first + 1, sent);
    }
  }

  /** What goes out are given records, and all of them from the last one sent on if no number is lost. */
  lemma Due(a: Net)
    requires Stored(a) && a.known <= a.lastSent <= |a.given|
    ensures var due := After(a.s.recs, a.lastSent);
      && (forall i, j | 0 <= i <= j < |due| :: due[i].seqNo <= due[j].seqNo)
      && (forall r | r in due :: a.lastSent < r.seqNo && Backed(r, a.given))
      && (!a.s.gap ==> due == a.given[a.lastSent..])
  {
    hide Total;
    if !a.s.gap { DueAll(a); }
    var k := AfterSuffix(a.s.recs, a.lastSent);
    hide After, Contiguous;
    var due := a.s.recs[k..];
    forall r | r in due ensures a.lastSent < r.seqNo && Backed(r, a.given) {
      var i :| 0 <= i < |due| && due[i] == r;
      assert a.s.recs[k + i] == r && r in a.s.recs;
    }
  }

  lemma DueAll(a: Net)
    requires Stored(a) && a.known <= a.lastSent <= |a.given| && !a.s.gap
    ensures After(a.s.recs, a.lastSent) == a.given[a.lastSent..]
  {
    hide Total;
    AfterIs(a.s.recs, a.s.acked + 1, a.lastSent);
    hide After;
    var k := a.lastSent - a.s.acked;
    var out := a.s.recs[k..];
    forall i | 0 <= i < |out| ensures out[i] == a.given[a.lastSent..][i] { assert out[i] == a.s.recs[k + i]; }
  }

  lemma KeepSent(a: Net, count: nat)
    requires Good(a) && a.online
    ensures Good(Next(a, Sent(count)))
  {
    Due(a);
    hide After, Stored, Settled;
    var b := Next(a, Sent(count));
    SameStored(a, b);
    if !a.s.gap { SentChained(a, count); }
    SentMatched(a, count);
    hide Matched, Chained, Next;
  }

  lemma SentMatched(a: Net, count: nat)
    requires Matched(a) && a.online
    requires var due := After(a.s.recs, a.lastSent);
      && (forall i, j | 0 <= i <= j < |due| :: due[i].seqNo <= due[j].seqNo)
      && (forall r | r in due :: a.lastSent < r.seqNo && Backed(r, a.given))
    ensures Matched(Next(a, Sent(count)))
  {
    hide After;
    var due := After(a.s.recs, a.lastSent);
    var out := due[..Min(count, |due|)];
    forall r | r in out ensures r in due && r.seqNo <= out[|out| - 1].seqNo {
      var i :| 0 <= i < |out| && out[i] == r;
      assert due[i] == r && due[|out| - 1] == out[|out| - 1];
    }
  }

  lemma SentChained(a: Net, count: nat)
    requires Stored(a) && Chained(a) && a.online && !a.s.gap && After(a.s.recs, a.lastSent) == a.given[a.lastSent..]
    requires 0 <= a.lastSent <= |a.given|
    ensures Chained(Next(a, Sent(count)))
    ensures count >= |a.given| - a.lastSent ==> Next(a, Sent(count)).lastSent == |a.given|
  {
    hide After, Inv;
    var first := a.lastSent - |a.wire|;
    var b := Next(a, Sent(count));
    var n := Min(count, |a.given| - a.lastSent);
    assert a.given[a.lastSent..][..n] == a.given[a.lastSent..a.lastSent + n];
    assert n > 0 ==> a.given[a.lastSent + n - 1].seqNo == a.lastSent + n;
    assert b.lastSent == a.lastSent + n;
    assert a.given[first..a.lastSent] + a.given[a.lastSent..a.lastSent + n] == a.given[first..a.lastSent + n];
  }

  lemma KeepReceived(a: Net)
    requires Good(a)
    ensures Good(Next(a, Received))
  {
    ReceivedStored(a);
    ReceivedWire(a);
  }

  lemma ReceivedStored(a: Net)
    requires Stored(a) && Settled(a)
    ensures Stored(Next(a, Received)) && Settled(Next(a, Received))
  {
    hide Inv;
    assert forall x | x in a.taken && Waiting(a, x) :: Waiting(Next(a, Received), x);
  }

  lemma ReceivedWire(a: Net)
    requires Contiguous(a.given, 1) && Matched(a) && Chained(a)
    ensures Matched(Next(a, Received)) && Chained(Next(a, Received))
  {
    if a.wire != [] {
      var r := a.wire[0];
      assert r in a.wire && Backed(r, a.given);
      assert forall x | x in a.wire[1..] :: x in a.wire;
      if r.seqNo == a.got + 1 { assert a.given[..a.got] + [a.given[a.got]] == a.given[..a.got + 1]; }
      if a.online && !a.s.gap {
        var first := a.lastSent - |a.wire|;
        assert a.given[first..a.lastSent][1..] == a.given[first + 1..a.lastSent];
        assert r == a.given[first];
      }
    }
  }

  // ---- crashes ---------------------------------------------------------------------------------

  lemma KeepCrashed(a: Net, files: Disk)
    requires Good(a) && Survives(files, a.s)
    ensures Good(Next(a, Crashed(files)))
  {
    hide Recover, Inv;
    var b := Next(a, Crashed(files));
    SuffixMembership(b.s.recs, a.s.recs);
    forall x | x in a.taken && Waiting(a, x) ensures Waiting(b, x) {
      var r :| r in a.s.recs && r.seqNo > a.known && Content(r) == x;
      assert r in b.s.recs;
    }
  }

  lemma SuffixMembership(all: seq<Record>, recs: seq<Record>)
    requires EndsWith(all, recs)
    ensures forall r | r in recs :: r in all
    ensures forall r | r in all :: r in recs || exists i | 0 <= i < |all| - |recs| :: all[i] == r
  {
    var k := |all| - |recs|;
    assert all == all[..k] + recs;
  }

  /** A crash while a record is appended, acknowledged records are cut off or the spool is opened. */
  lemma RecoveredSurvives(files: Disk, s: State)
    requires Recovers(files, s, "")
    ensures Survives(files, s)
  {}

  /** A crash once the flag of a loss is in the meta file. */
  lemma FlushedSurvives(s: State)
    requires Inv(s) && Named(s.recs) && s.streamId != ""
    ensures Survives(Disk(Some(MetaOf(s)), Lines(s.recs)), s)
  {
    FlushedBack(s);
    hide Recover, Lines, Core, GapSound;
    var r := Recover(Disk(Some(MetaOf(s)), Lines(s.recs)), "");
    assert Inv(r) by { SameInv(s, r); }
  }

  lemma FlushedBack(s: State)
    requires Core(s) && Named(s.recs) && s.streamId != ""
    ensures var r := Recover(Disk(Some(MetaOf(s)), Lines(s.recs)), ""); r == s.(dropped := 0, rxSeq := r.rxSeq)
  {
    hide Total;
    ReloadRecords(s.recs, s.acked);
    hide LoadRecords, Lines, HasUnreadable, After, Increasing;
  }

  lemma SameInv(s: State, r: State)
    requires Inv(s) && r == s.(dropped := r.dropped, rxSeq := r.rxSeq)
    ensures Inv(r)
  {
    hide Total;
  }

  /** A crash right after a message is survived exactly when nothing had to be dropped for it, or the meta
      file already had the flag and the numbers go on; they do if the message was stored. */
  lemma OfferThenCrash(d: Disk, s: State, all: seq<Record>, m: Message, lim: Limits)
    requires Core(s) && Follows(d, s, all) && Named(s.recs) && m.kind != ""
    ensures var (t, n) := Append(s, m, lim);
      var files := Written(d, s, all, m, lim);
      && (Survives(files, t) <==>
            !MustDrop(s, m, lim) || (d.meta.value.gap && Recover(files, "").nextSeq == t.nextSeq))
      && (n != 0 && MustDrop(s, m, lim) ==> Recover(files, "").nextSeq == t.nextSeq)
  {
    hide Append, Written, Recover, MustDrop, Total;
    DropThenCrash(d, s, all, m, lim);
    var t, files := Append(s, m, lim).0, Written(d, s, all, m, lim);
    if MustDrop(s, m, lim) {
      RecoveredNext(d, s, all, m, lim);
      RecoveredCore(d, s, all, m, lim);
      AppendRest(s, m, lim);
      assert d.meta.value.acked <= s.acked;
      hide Follows, Core;
    } else {
      hide Follows, Core, Recovers;
      RecoveredSurvives(files, t);
    }
  }

  lemma RecoveredCore(d: Disk, s: State, all: seq<Record>, m: Message, lim: Limits)
    requires Core(s) && Follows(d, s, all) && Named(s.recs) && m.kind != "" && MustDrop(s, m, lim)
    ensures Core(Recover(Written(d, s, all, m, lim), ""))
  {
    hide Append, Written, Recover, MustDrop, Total;
    RecoveredNext(d, s, all, m, lim);
    AppendKeeps(s, m, lim);
    AppendRest(s, m, lim);
    RecoverBytes(Written(d, s, all, m, lim));
  }

  lemma AppendRest(s: State, m: Message, lim: Limits)
    ensures Append(s, m, lim).0.acked == s.acked
  {
    hide Kept, Refused, IsCritical, Total;
  }

  lemma RecoverBytes(d: Disk)
    ensures Recover(d, "").bytes == Total(Recover(d, "").recs)
  {}

  // ---- every run -------------------------------------------------------------------------------

  lemma Keeps(a: Net, e: Event)
    requires Good(a) && May(a, e)
    ensures Good(Next(a, e))
  {
    hide Stored, Matched, Chained, Settled, Survives, Next;
    match e
    case Offered(m, lim) =>
      OfferedStored(a, m, lim);
      OfferedWire(a, m, lim);
      OfferedSettled(a, m, lim);
    case Connected(freshId) => KeepConnected(a, freshId);
    case Sent(count) => KeepSent(a, count);
    case Received => KeepReceived(a);
    case Confirmed(n) => KeepConfirmed(a, n);
    case Cut => KeepCut(a);
    case Crashed(files) => KeepCrashed(a, files);
  }

  lemma KeepConfirmed(a: Net, n: int)
    requires Good(a) && n <= a.got
    ensures Good(Next(a, Confirmed(n)))
  {
    Bounds(a);
    HeardStored(a, n);
    HeardWire(a, n);
    HeardSettled(a, n);
    hide Stored, Matched, Chained, Settled, Heard;
  }

  lemma Bounds(a: Net)
    requires Matched(a)
    ensures a.known <= a.got <= |a.given| && a.delivered == a.given[..a.got]
  {}

  lemma KeepCut(a: Net)
    requires Good(a)
    ensures Good(Next(a, Cut))
  {
    hide Stored, Settled;
    SameStored(a, Next(a, Cut));
  }

  /** After any run the platform has a beginning of the stream, each message once and in order; and every
      message ever accepted was dropped by compaction, has arrived, or is still in the spool. A critical
      one is never dropped. */
  lemma {:induction false} EveryRun(streamId: string, es: seq<Event>)
    requires MayRun(Empty(streamId), es)
    ensures var a := Run(Empty(streamId), es);
      && Good(a)
      && a.got <= |a.given| && a.delivered == a.given[..a.got]
      && (forall x | x in a.taken :: x in a.lost || x in a.arrived || Waiting(a, x))
      && (forall x | x in a.taken && x.critical :: x in a.arrived || Waiting(a, x))
  {
    hide Next, May, Stored, Matched, Chained, Settled, Waiting;
    if es == [] {
      Begins(streamId);
    } else {
      var before := es[..|es| - 1];
      assert MayRun(Empty(streamId), before) by {
        forall i | 0 <= i < |before| ensures May(Run(Empty(streamId), before[..i]), before[i]) {
          assert before[..i] == es[..i];
          assert May(Run(Empty(streamId), es[..i]), es[i]);
        }
      }
      EveryRun(streamId, before);
      assert May(Run(Empty(streamId), es[..|es| - 1]), es[|es| - 1]);
      Keeps(Run(Empty(streamId), before), es[|es| - 1]);
    }
    Bounds(Run(Empty(streamId), es));
    NoneMissing(Run(Empty(streamId), es));
  }

  lemma NoneMissing(a: Net)
    requires Settled(a)
    ensures forall x | x in a.taken :: x in a.lost || x in a.arrived || Waiting(a, x)
    ensures forall x | x in a.taken && x.critical :: x in a.arrived || Waiting(a, x)
  {
    hide Waiting;
  }

  // ---- catching up -----------------------------------------------------------------------------

  /** Once no number is lost, all was sent and nothing is in flight, the platform has all. */
  lemma AllDelivered(a: Net)
    requires Good(a) && a.online && !a.s.gap && a.lastSent == |a.given| && a.wire == []
    ensures a.delivered == a.given
    ensures forall x | x in a.taken :: x in a.lost || x in a.arrived
  {
    hide Inv;
    assert a.given[..|a.given|] == a.given;
    forall x | x in a.taken && Waiting(a, x) ensures x in a.arrived {
      var r :| r in a.s.recs && r.seqNo > a.known && Content(r) == x;
      assert Backed(r, a.given) && a.delivered[r.seqNo - 1] == r;
    }
  }

  /** From every state a session that holds brings the platform everything: connect, send, let it arrive.
      Then nothing accepted is missing but what compaction had dropped. */
  lemma CatchesUp(a: Net, freshId: string) returns (es: seq<Event>)
    requires Good(a)
    ensures MayRun(a, es)
    ensures var b := Run(a, es);
      && b.delivered == b.given && b.taken == a.taken && b.lost == a.lost
      && (forall x | x in b.taken :: x in b.lost || x in b.arrived)
      && (forall x | x in b.taken && x.critical :: x in b.arrived)
  {
    hide Good, Next, May, Waiting;
    var b := Next(a, Connected(freshId));
    KeepConnected(a, freshId);
    SameLedger(a, Connected(freshId));
    var count := |b.given|;
    var c := Next(b, Sent(count));
    Keeps(b, Sent(count)) by { MayAlways(b, Sent(count)); }
    SentAll(b, count);
    SameLedger(b, Sent(count));
    var rest := Drain(c);
    MayAlways(b, Sent(count));
    MayAlways(a, Connected(freshId));
    es := [Connected(freshId)] + ([Sent(count)] + rest);
    RunFirst(b, Sent(count), rest);
    RunFirst(a, Connected(freshId), [Sent(count)] + rest);
    LossNotCritical(a);
  }

  lemma MayAlways(a: Net, e: Event)
    requires e.Connected? || e.Received? || (e.Sent? && a.online)
    ensures May(a, e)
  {}

  lemma SameLedger(a: Net, e: Event)
    requires e.Connected? || e.Received? || e.Sent?
    ensures Next(a, e).taken == a.taken && Next(a, e).lost == a.lost
  {}

  lemma LossNotCritical(a: Net)
    requires Good(a)
    ensures forall x | x in a.lost :: !x.critical
  {}

  lemma SentAll(b: Net, count: nat)
    requires Good(b) && b.online && !b.s.gap && count == |b.given|
    ensures var c := Next(b, Sent(count)); c.online && !c.s.gap && c.lastSent == |c.given|
  {
    Due(b);
    SentChained(b, count);
    hide After, Stored;
  }

  /** The frames in flight arrive one by one. */
  lemma {:induction false} Drain(a: Net) returns (es: seq<Event>)
    requires Good(a) && a.online && !a.s.gap && a.lastSent == |a.given|
    ensures MayRun(a, es)
    ensures var b := Run(a, es);
      && b.delivered == b.given && b.taken == a.taken && b.lost == a.lost
      && forall x | x in b.taken :: x in b.lost || x in b.arrived
    decreases |a.wire|
  {
    if a.wire == [] {
      AllDelivered(a);
      es := [];
    } else {
      KeepReceived(a);
      var b := Next(a, Received);
      assert b.online && !b.s.gap && b.lastSent == |b.given| && |b.wire| == |a.wire| - 1;
      SameLedger(a, Received);
      MayAlways(a, Received);
      hide Good, Next, May;
      var rest := Drain(b);
      es := [Received] + rest;
      RunFirst(a, Received, rest);
    }
  }

  /** A run that starts with one event. */
  lemma {:induction false} RunFirst(a: Net, e: Event, rest: seq<Event>)
    ensures Run(a, [e] + rest) == Run(Next(a, e), rest)
    ensures May(a, e) && MayRun(Next(a, e), rest) ==> MayRun(a, [e] + rest)
  {
    hide Next, May;
    RunSplit(a, e, rest);
    var es := [e] + rest;
    if May(a, e) && MayRun(Next(a, e), rest) {
      forall i | 0 <= i < |es| ensures May(Run(a, es[..i]), es[i]) {
        if i > 0 {
          assert es[..i] == [e] + rest[..i - 1];
          RunSplit(a, e, rest[..i - 1]);
          assert May(Run(Next(a, e), rest[..i - 1]), rest[i - 1]);
        }
      }
    }
  }

  lemma {:induction false} RunSplit(a: Net, e: Event, rest: seq<Event>)
    ensures Run(a, [e] + rest) == Run(Next(a, e), rest)
  {
    hide Next;
    if rest == [] {
      assert [e] + rest == [e];
      assert [e][..0] == [];
    } else {
      RunSplit(a, e, rest[..|rest| - 1]);
      assert ([e] + rest)[..|rest|] == [e] + rest[..|rest| - 1];
    }
  }
}
