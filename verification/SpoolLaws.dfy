/** What the spool keeps in every reachable state: numbering, the gap flag, capacity, and which
    records may be lost. */
module SpoolLaws {
  import opened Spool

  // ---- the invariant -------------------------------------------------------------------------

  /** Record numbers increase and lie between the acknowledged and the next number. */
  predicate Numbered(s: State) {
    && 0 <= s.acked < s.nextSeq
    && (forall i | 0 <= i < |s.recs| :: s.acked < s.recs[i].seqNo < s.nextSeq)
    && Increasing(s.recs)
  }

  predicate Increasing(recs: seq<Record>) {
    forall i, j | 0 <= i < j < |recs| :: recs[i].seqNo < recs[j].seqNo
  }

  /** The records carry the numbers from `first` on, without a hole. */
  predicate Contiguous(recs: seq<Record>, first: int) {
    forall i | 0 <= i < |recs| :: recs[i].seqNo == first + i
  }

  /** Without the gap flag, the records are exactly the unacknowledged numbers, in order. */
  predicate GapSound(s: State) {
    !s.gap ==> Contiguous(s.recs, s.acked + 1) && |s.recs| == s.nextSeq - 1 - s.acked
  }

  /** What holds even when the gap flag cannot be trusted. */
  predicate Core(s: State) { Numbered(s) && s.bytes == Total(s.recs) }

  predicate Inv(s: State) { Core(s) && GapSound(s) }

  predicate AllCritical(recs: seq<Record>) { forall i | 0 <= i < |recs| :: recs[i].critical }

  predicate Within(recs: seq<Record>, lim: Limits) { |recs| <= lim.maxMsgs && Total(recs) <= lim.maxBytes }

  /** Never more than twice the limits; above the limits only critical records. */
  predicate Bounded(recs: seq<Record>, lim: Limits) {
    && |recs| <= 2 * lim.maxMsgs && Total(recs) <= 2 * lim.maxBytes
    && (!Within(recs, lim) ==> AllCritical(recs))
  }

  // ---- which records compaction drops --------------------------------------------------------

  function CriticalOf(recs: seq<Record>): seq<Record> {
    if recs == [] then []
    else CriticalOf(recs[..|recs| - 1]) + (if recs[|recs| - 1].critical then [recs[|recs| - 1]] else [])
  }

  /** Without the compactable records before `cut`. */
  function Without(recs: seq<Record>, cut: nat): seq<Record>
    requires cut <= |recs|
  {
    CriticalOf(recs[..cut]) + recs[cut..]
  }

  /** Compactable records dropped oldest first: none kept before `cut`, none lost after it. */
  predicate DroppedUpTo(recs: seq<Record>, left: seq<Record>, cut: nat) { cut <= |recs| && left == Without(recs, cut) }

  /** One more message of `add` bytes is within the limits. */
  predicate Fits(left: seq<Record>, add: nat, lim: Limits) { |left| + 1 <= lim.maxMsgs && Total(left) + add <= lim.maxBytes }

  /** At most nine tenths of the limits are used. */
  predicate Eased(left: seq<Record>, lim: Limits) { 10 * |left| <= 9 * lim.maxMsgs && 10 * Total(left) <= 9 * lim.maxBytes }

  /** Dropping only what is before an earlier cut is not enough. */
  predicate NoLess(recs: seq<Record>, cut: nat, add: nat, lim: Limits)
    requires cut <= |recs|
  {
    forall c | 0 <= c < cut :: !(Fits(Without(recs, c), add, lim) && Eased(Without(recs, c), lim))
  }

  lemma {:induction false} CriticalOfAll(recs: seq<Record>)
    ensures AllCritical(CriticalOf(recs)) && |CriticalOf(recs)| <= |recs|
  {
    if recs != [] { CriticalOfAll(recs[..|recs| - 1]); }
  }

  lemma {:induction false} DropAfter(a: seq<Record>, x: Record, b: seq<Record>)
    requires AllCritical(a) && !x.critical
    ensures DropOldest(a + [x] + b) == a + b
  {
    var all := a + [x] + b;
    if a == [] {
      assert all[0] == x && all[1..] == b;
      assert a + b == b;
    } else {
      assert all[0] == a[0] && all[1..] == a[1..] + [x] + b;
      DropAfter(a[1..], x, b);
      assert [a[0]] + (a[1..] + b) == a + b;
    }
  }

  lemma Regroup(kept: seq<Record>, recs: seq<Record>, cut: nat)
    requires cut < |recs|
    ensures kept + [recs[cut]] + recs[cut + 1..] == kept + recs[cut..]
  {
    assert recs[cut..] == [recs[cut]] + recs[cut + 1..];
  }

  lemma {:induction false} DropMovesCut(recs: seq<Record>, left: seq<Record>, cut: nat) returns (next: nat)
    requires DroppedUpTo(recs, left, cut) && HasCompactable(left)
    ensures DroppedUpTo(recs, DropOldest(left), next) && cut < next && !recs[next - 1].critical
    ensures forall c | cut <= c < next :: DroppedUpTo(recs, left, c)
    decreases |recs| - cut
  {
    var kept := CriticalOf(recs[..cut]);
    CriticalOfAll(recs[..cut]);
    assert cut < |recs| by { assert recs[|recs|..] == [] && kept + [] == kept; }
    assert recs[..cut + 1][..cut] == recs[..cut];
    Regroup(kept, recs, cut);
    if recs[cut].critical {
      assert CriticalOf(recs[..cut + 1]) == kept + [recs[cut]];
      next := DropMovesCut(recs, left, cut + 1);
    } else {
      next := cut + 1;
      assert CriticalOf(recs[..cut + 1]) == kept + [] == kept;
      DropAfter(kept, recs[cut], recs[cut + 1..]);
    }
  }

  lemma GuardsMean(left: seq<Record>, add: nat, lim: Limits)
    ensures Over(|left|, Total(left), add, lim, 1.0) <==> !Fits(left, add, lim)
    ensures Crowded(|left|, Total(left), lim) <==> !Eased(left, lim)
  {
    hide Total;
  }

  /** One more drop, if what is left was not enough. */
  lemma DropNoLess(recs: seq<Record>, left: seq<Record>, cut: nat, add: nat, lim: Limits) returns (next: nat)
    requires DroppedUpTo(recs, left, cut) && HasCompactable(left) && NoLess(recs, cut, add, lim)
    requires !(Fits(left, add, lim) && Eased(left, lim))
    ensures DroppedUpTo(recs, DropOldest(left), next) && cut < next && !recs[next - 1].critical && NoLess(recs, next, add, lim)
  {
    hide HasCompactable, DropOldest, Fits, Eased, Without;
    next := DropMovesCut(recs, left, cut);
    forall c | 0 <= c < next ensures !(Fits(Without(recs, c), add, lim) && Eased(Without(recs, c), lim)) {
      if c >= cut { assert DroppedUpTo(recs, left, c); }
    }
  }

  lemma {:induction false} RoomCut(recs: seq<Record>, left: seq<Record>, cut: nat, add: nat, lim: Limits) returns (next: nat)
    requires DroppedUpTo(recs, left, cut) && NoLess(recs, cut, add, lim) && (cut > 0 ==> !recs[cut - 1].critical)
    ensures DroppedUpTo(recs, MakeRoom(left, add, lim), next) && NoLess(recs, next, add, lim)
    ensures cut <= next && (next > 0 ==> !recs[next - 1].critical)
    ensures Fits(MakeRoom(left, add, lim), add, lim) || !HasCompactable(MakeRoom(left, add, lim))
    decreases |left|
  {
    GuardsMean(left, add, lim);
    hide DroppedUpTo, Over, NoLess, Fits, Eased, HasCompactable;
    next := cut;
    if Over(|left|, Total(left), add, lim, 1.0) && HasCompactable(left) {
      next := DropNoLess(recs, left, cut, add, lim);
      next := RoomCut(recs, DropOldest(left), next, add, lim);
    }
  }

  lemma {:induction false} EaseCut(recs: seq<Record>, left: seq<Record>, cut: nat, add: nat, lim: Limits) returns (next: nat)
    requires DroppedUpTo(recs, left, cut) && NoLess(recs, cut, add, lim) && (cut > 0 ==> !recs[cut - 1].critical)
    requires Fits(left, add, lim) || !HasCompactable(left)
    ensures DroppedUpTo(recs, Ease(left, lim), next) && NoLess(recs, next, add, lim)
    ensures cut <= next && (next > 0 ==> !recs[next - 1].critical)
    ensures (Fits(Ease(left, lim), add, lim) && Eased(Ease(left, lim), lim)) || !HasCompactable(Ease(left, lim))
    decreases |left|
  {
    GuardsMean(left, add, lim);
    hide DroppedUpTo, Crowded, NoLess, Eased, HasCompactable;
    next := cut;
    if Crowded(|left|, Total(left), lim) && HasCompactable(left) {
      next := DropNoLess(recs, left, cut, add, lim);
      DropTotal(left);
      next := EaseCut(recs, DropOldest(left), next, add, lim);
    }
  }

  /** Making room drops compactable records, oldest first, and no more than needed: nothing if the message
      fits or nothing can go; otherwise up to the least cut after which it fits and a tenth of both
      limits is free, or everything that can go. */
  lemma KeptCut(recs: seq<Record>, add: nat, lim: Limits) returns (cut: nat)
    ensures DroppedUpTo(recs, Kept(recs, add, lim), cut)
    ensures Fits(recs, add, lim) || AllCritical(recs) ==> Kept(recs, add, lim) == recs
    ensures !Fits(recs, add, lim) && !AllCritical(recs) ==>
      && cut > 0 && !recs[cut - 1].critical && NoLess(recs, cut, add, lim)
      && (AllCritical(Without(recs, cut)) || (Fits(Without(recs, cut), add, lim) && Eased(Without(recs, cut), lim)))
  {
    GuardsMean(recs, add, lim);
    hide MakeRoom, Ease, Fits, Eased, NoLess, Without, Over, Total;
    NothingBefore(recs, add, lim);
    cut := 0;
    if !Fits(recs, add, lim) && !AllCritical(recs) {
      cut := RoomCut(recs, recs, 0, add, lim);
      FirstDrop(recs, add, lim);
      cut := EaseCut(recs, MakeRoom(recs, add, lim), cut, add, lim);
      DropsSome(recs, add, lim, cut);
    } else {
      NoDrop(recs, add, lim);
    }
  }

  lemma NothingBefore(recs: seq<Record>, add: nat, lim: Limits)
    ensures DroppedUpTo(recs, recs, 0) && NoLess(recs, 0, add, lim)
  {
    assert recs[..0] == [] && recs[0..] == recs;
  }

  lemma FirstDrop(recs: seq<Record>, add: nat, lim: Limits)
    requires Over(|recs|, Total(recs), add, lim, 1.0) && HasCompactable(recs)
    ensures |MakeRoom(recs, add, lim)| < |recs|
  {
    MakeRoomShorter(DropOldest(recs), add, lim);
  }

  lemma NoDrop(recs: seq<Record>, add: nat, lim: Limits)
    requires !(Over(|recs|, Total(recs), add, lim, 1.0) && HasCompactable(recs))
    ensures Kept(recs, add, lim) == recs
  {}

  /** Something was dropped, so the cut is not 0. */
  lemma DropsSome(recs: seq<Record>, add: nat, lim: Limits, cut: nat)
    requires |MakeRoom(recs, add, lim)| < |recs| && DroppedUpTo(recs, Ease(MakeRoom(recs, add, lim), lim), cut)
    ensures cut > 0
  {
    EaseShorter(MakeRoom(recs, add, lim), lim);
    hide Ease, MakeRoom;
    assert recs[..0] == [] && recs[0..] == recs;
  }

  lemma {:induction false} CriticalOfIn(recs: seq<Record>, r: Record)
    ensures r in CriticalOf(recs) <==> r in recs && r.critical
  {
    if recs != [] {
      CriticalOfIn(recs[..|recs| - 1], r);
      assert recs == recs[..|recs| - 1] + [recs[|recs| - 1]];
    }
  }

  /** Records kept are records there were; every critical one is kept. */
  lemma KeptMembers(recs: seq<Record>, add: nat, lim: Limits, r: Record)
    ensures r in Kept(recs, add, lim) ==> r in recs
    ensures r in recs && r.critical ==> r in Kept(recs, add, lim)
  {
    hide Kept;
    var cut := KeptCut(recs, add, lim);
    CriticalOfIn(recs[..cut], r);
    assert recs == recs[..cut] + recs[cut..];
  }

  lemma {:induction false} CriticalOfIncreasing(recs: seq<Record>)
    requires Increasing(recs)
    ensures Increasing(CriticalOf(recs))
  {
    if recs != [] {
      var before, last := recs[..|recs| - 1], recs[|recs| - 1];
      CriticalOfIncreasing(before);
      forall i | 0 <= i < |CriticalOf(before)| ensures CriticalOf(before)[i].seqNo < last.seqNo {
        CriticalOfIn(before, CriticalOf(before)[i]);
      }
    }
  }

  lemma KeptIncreasing(recs: seq<Record>, add: nat, lim: Limits)
    requires Increasing(recs)
    ensures Increasing(Kept(recs, add, lim))
  {
    hide Kept;
    var cut := KeptCut(recs, add, lim);
    var head := CriticalOf(recs[..cut]);
    CriticalOfIncreasing(recs[..cut]);
    forall i | 0 <= i < |head| ensures head[i] in recs[..cut] { CriticalOfIn(recs[..cut], head[i]); }
  }

  lemma {:induction false} TotalPush(recs: seq<Record>, r: Record)
    ensures Total(recs + [r]) == Total(recs) + Size(r)
  {
    if recs == [] {
      assert recs + [r] == [r];
    } else {
      assert (recs + [r])[1..] == recs[1..] + [r];
      TotalPush(recs[1..], r);
    }
  }

  // ---- one operation -------------------------------------------------------------------------

  /** Records after compaction are still numbered; without a loss they are the same. */
  lemma KeptNumbered(s: State, add: nat, lim: Limits)
    requires Core(s)
    ensures var kept := Kept(s.recs, add, lim);
      && Numbered(s.(recs := kept)) && |kept| <= |s.recs| && (|kept| == |s.recs| ==> kept == s.recs)
  {
    hide Kept;
    KeptShorter(s.recs, add, lim);
    KeptIncreasing(s.recs, add, lim);
    var kept := Kept(s.recs, add, lim);
    forall i | 0 <= i < |kept| ensures kept[i] in s.recs { KeptMembers(s.recs, add, lim, kept[i]); }
  }

  lemma PushNumbered(s: State, r: Record)
    requires Numbered(s) && r.seqNo == s.nextSeq
    ensures Numbered(s.(recs := s.recs + [r], nextSeq := s.nextSeq + 1))
    ensures Contiguous(s.recs, s.acked + 1) && |s.recs| == s.nextSeq - 1 - s.acked ==>
              Contiguous(s.recs + [r], s.acked + 1)
  {}

  /** Appending keeps the invariant, and any loss raises the gap flag. */
  lemma AppendKeeps(s: State, m: Message, lim: Limits)
    requires Core(s)
    ensures var (t, n) := Append(s, m, lim);
      && Core(t) && (GapSound(s) ==> GapSound(t))
      && (n == 0 || (n == s.nextSeq && t.recs != [] && t.recs[|t.recs| - 1] == MakeRecord(m, n)))
      && (n == 0 || t.dropped > s.dropped ==> t.gap)
      && (s.gap ==> t.gap)
      && (t.dropped == s.dropped ==> n == s.nextSeq && t == s.(recs := s.recs + [MakeRecord(m, n)],
                                        bytes := s.bytes + Size(MakeRecord(m, n)), nextSeq := n + 1))
  {
    hide Kept, Refused, IsCritical, Total, Numbered, Contiguous;
    var r := MakeRecord(m, s.nextSeq);
    var kept := Kept(s.recs, Size(r), lim);
    KeptNumbered(s, Size(r), lim);
    PushNumbered(s.(recs := kept), r);
    TotalPush(kept, r);
    if Refused(kept, r, lim) {
      NumberedIgnores(s.(recs := kept), Append(s, m, lim).0);
    } else {
      NumberedIgnores(s.(recs := kept + [r], nextSeq := s.nextSeq + 1), Append(s, m, lim).0);
    }
  }

  /** Numbering depends on the records and the two marks only. */
  lemma NumberedIgnores(s: State, t: State)
    requires Numbered(s) && s.recs == t.recs && s.acked == t.acked && s.nextSeq == t.nextSeq
    ensures Numbered(t)
  {}

  lemma {:induction false} DropBounded(recs: seq<Record>, lim: Limits)
    requires Bounded(recs, lim)
    ensures Bounded(DropOldest(recs), lim) && Total(DropOldest(recs)) <= Total(recs)
  {
    DropTotal(recs);
    if !Within(DropOldest(recs), lim) { AllCriticalKeeps(recs); }
  }

  lemma AllCriticalKeeps(recs: seq<Record>)
    requires AllCritical(recs)
    ensures DropOldest(recs) == recs
  {}

  lemma {:induction false} DropTotal(recs: seq<Record>)
    ensures Total(DropOldest(recs)) <= Total(recs) && |DropOldest(recs)| <= |recs|
  {
    if recs != [] && recs[0].critical {
      DropTotal(recs[1..]);
      assert ([recs[0]] + DropOldest(recs[1..]))[1..] == DropOldest(recs[1..]);
    }
  }

  lemma {:induction false} RoomBounded(recs: seq<Record>, add: nat, lim: Limits)
    requires Bounded(recs, lim)
    ensures Bounded(MakeRoom(recs, add, lim), lim)
    ensures var left := MakeRoom(recs, add, lim);
            !HasCompactable(left) || !Over(|left|, Total(left), add, lim, 1.0)
    decreases |recs|
  {
    if Over(|recs|, Total(recs), add, lim, 1.0) && HasCompactable(recs) {
      DropBounded(recs, lim);
      RoomBounded(DropOldest(recs), add, lim);
    }
  }

  lemma {:induction false} EaseBounded(recs: seq<Record>, add: nat, lim: Limits)
    requires Bounded(recs, lim) && (!HasCompactable(recs) || !Over(|recs|, Total(recs), add, lim, 1.0))
    ensures Bounded(Ease(recs, lim), lim)
    ensures var left := Ease(recs, lim);
            !HasCompactable(left) || !Over(|left|, Total(left), add, lim, 1.0)
    decreases |recs|
  {
    if Crowded(|recs|, Total(recs), lim) && HasCompactable(recs) {
      DropBounded(recs, lim);
      DropTotal(recs);
      EaseBounded(DropOldest(recs), add, lim);
    }
  }

  /** The capacity discipline survives every message, stored or refused. */
  lemma AppendBounded(s: State, m: Message, lim: Limits)
    requires Bounded(s.recs, lim) && s.nextSeq > 0
    ensures Bounded(Append(s, m, lim).0.recs, lim)
    ensures Append(s, m, lim).1 == 0 ==>
      !Within(Append(s, m, lim).0.recs + [MakeRecord(m, s.nextSeq)], lim)
  {
    var r := MakeRecord(m, s.nextSeq);
    var add := Size(r);
    RoomBounded(s.recs, add, lim);
    EaseBounded(MakeRoom(s.recs, add, lim), add, lim);
    MakeRoomShorter(s.recs, add, lim);
    var kept := Kept(s.recs, add, lim);
    assert Bounded(kept, lim) && (!HasCompactable(kept) || !Over(|kept|, Total(kept), add, lim, 1.0));
    hide Kept, IsCritical, MakeRoom, Ease, Within;
    OverLimits(kept, r, lim);
  }

  /** Refused exactly when even what compaction keeps leaves no room, and the message is not critical or
      would pass twice the limits. */
  lemma RefusedExactly(s: State, m: Message, lim: Limits)
    requires s.nextSeq > 0
    ensures var r := MakeRecord(m, s.nextSeq);
      var kept := Kept(s.recs, Size(r), lim);
      && (Append(s, m, lim).1 == 0 <==>
            && !Fits(kept, Size(r), lim)
            && (!r.critical || |kept| + 1 > 2 * lim.maxMsgs || Total(kept) + Size(r) > 2 * lim.maxBytes))
      && Append(s, m, lim).0.recs == (if Append(s, m, lim).1 == 0 then kept else kept + [r])
  {
    hide Kept, IsCritical, Total, Size;
    GuardsMean(Kept(s.recs, Size(MakeRecord(m, s.nextSeq)), lim), Size(MakeRecord(m, s.nextSeq)), lim);
  }

  lemma OverLimits(kept: seq<Record>, r: Record, lim: Limits)
    ensures Over(|kept|, Total(kept), Size(r), lim, 1.0) <==> !Within(kept + [r], lim)
    ensures !Over(|kept|, Total(kept), Size(r), lim, 2.0) <==>
            |kept + [r]| <= 2 * lim.maxMsgs && Total(kept + [r]) <= 2 * lim.maxBytes
  {
    TotalPush(kept, r);
  }

  lemma {:induction false} AfterSuffix(recs: seq<Record>, acked: int) returns (k: nat)
    requires Increasing(recs)
    ensures k <= |recs| && After(recs, acked) == recs[k..] && Total(recs[k..]) <= Total(recs)
    ensures forall i | 0 <= i < |recs| :: i < k <==> recs[i].seqNo <= acked
  {
    k := 0;
    assert recs[0..] == recs;
    if recs != [] && recs[0].seqNo <= acked {
      var j := AfterSuffix(recs[1..], acked);
      k := j + 1;
      assert recs[1..][j..] == recs[k..];
      forall i | 0 <= i < |recs| ensures i < k <==> recs[i].seqNo <= acked {
        if i > 0 { assert recs[1..][i - 1] == recs[i]; }
      }
    }
  }

  lemma AckCount(s: State, n: int, k: nat)
    requires Core(s) && GapSound(s) && !s.gap && s.acked <= n < s.nextSeq && k <= |s.recs|
    requires forall i | 0 <= i < |s.recs| :: i < k <==> s.recs[i].seqNo <= n
    ensures k == n - s.acked
  {
    var d := n - s.acked;
    assert d < |s.recs| ==> s.recs[d].seqNo == n + 1;
    assert d > 0 ==> s.recs[d - 1].seqNo == n;
  }

  /** An ack removes exactly the records up to it, and keeps everything else. */
  lemma AckKeeps(s: State, n: int, lim: Limits)
    requires Core(s)
    ensures Core(Ack(s, n)) && (GapSound(s) ==> GapSound(Ack(s, n)))
    ensures Ack(s, n).gap == s.gap && Ack(s, n).nextSeq == s.nextSeq
    ensures forall r :: r in Ack(s, n).recs <==> r in s.recs && r.seqNo > Ack(s, n).acked
    ensures Bounded(s.recs, lim) ==> Bounded(Ack(s, n).recs, lim)
  {
    hide After, Total, Core, GapSound, Bounded, Increasing;
    Ordered(s);
    var t := Ack(s, n);
    if n > s.acked {
      var k := AfterSuffix(s.recs, t.acked);
      assert t == s.(recs := s.recs[k..], bytes := Total(s.recs[k..]), acked := t.acked);
      hide Ack;
      SuffixInv(s, k, t.acked);
      SuffixMembers(s.recs, k, t.acked);
      SuffixBounded(s.recs, k, lim);
    }
  }

  lemma Ordered(s: State)
    requires Core(s)
    ensures 0 <= s.acked < s.nextSeq && Increasing(s.recs)
    ensures forall r | r in s.recs :: r.seqNo > s.acked
  {}

  lemma SuffixInv(s: State, k: nat, acked: int)
    requires Core(s) && k <= |s.recs| && s.acked <= acked < s.nextSeq
    requires forall i | 0 <= i < |s.recs| :: i < k <==> s.recs[i].seqNo <= acked
    ensures var t := s.(recs := s.recs[k..], bytes := Total(s.recs[k..]), acked := acked);
      Core(t) && (GapSound(s) ==> GapSound(t))
  {
    hide Total;
    if !s.gap && GapSound(s) { AckCount(s, acked, k); }
  }

  lemma SuffixBounded(recs: seq<Record>, k: nat, lim: Limits)
    requires k <= |recs| && Total(recs[k..]) <= Total(recs)
    ensures Bounded(recs, lim) ==> Bounded(recs[k..], lim)
  {
    hide Total;
  }

  lemma SuffixMembers(recs: seq<Record>, k: nat, acked: int)
    requires k <= |recs| && forall i | 0 <= i < |recs| :: i < k <==> recs[i].seqNo <= acked
    ensures forall r :: r in recs[k..] <==> r in recs && r.seqNo > acked
  {
    assert recs == recs[..k] + recs[k..];
  }

  /** A record without its number. */
  function Content(r: Record): Record { r.(seqNo := 0) }

  lemma {:induction false} RenumberKeeps(recs: seq<Record>, from: int)
    ensures |Renumber(recs, from)| == |recs| && Contiguous(Renumber(recs, from), from)
    ensures Total(Renumber(recs, from)) == Total(recs)
    ensures forall i | 0 <= i < |recs| :: Renumber(recs, from)[i] == recs[i].(seqNo := from + i)
  {
    if recs != [] { RenumberKeeps(recs[1..], from + 1); }
  }

  /** A new stream keeps content and order, numbers 1..n, and clears the flag. */
  lemma RotateKeeps(s: State, freshId: string, lim: Limits)
    requires Core(s)
    ensures var t := Rotate(s, freshId);
      && Core(t) && (s.gap || GapSound(s) ==> GapSound(t)) && !t.gap && |t.recs| == |s.recs|
      && (forall i | 0 <= i < |s.recs| :: Content(t.recs[i]) == Content(s.recs[i]))
      && (s.gap ==> Contiguous(t.recs, 1) && t.acked == 0 && t.nextSeq == |t.recs| + 1)
      && (Bounded(s.recs, lim) ==> Bounded(t.recs, lim))
  {
    RenumberKeeps(s.recs, 1);
  }

  // ---- whole runs ----------------------------------------------------------------------------

  datatype Op = Add(m: Message) | Acked(n: int) | Rotated(freshId: string) | RxSet(n: int)

  function Step(s: State, op: Op, lim: Limits): State {
    match op
    case Add(m) => Append(s, m, lim).0
    case Acked(n) => Ack(s, n)
    case Rotated(id) => Rotate(s, id)
    case RxSet(n) => s.(rxSeq := n)
  }

  function Run(s: State, ops: seq<Op>, lim: Limits): State {
    if ops == [] then s else Step(Run(s, ops[..|ops| - 1], lim), ops[|ops| - 1], lim)
  }

  /** Every reachable state is numbered and within the capacity discipline, and the gap flag is sound in
      it if it was to begin with. */
  lemma {:induction false} RunSafe(s: State, ops: seq<Op>, lim: Limits)
    requires Core(s)
    ensures Core(Run(s, ops, lim)) && (GapSound(s) ==> GapSound(Run(s, ops, lim)))
    ensures Bounded(s.recs, lim) ==> Bounded(Run(s, ops, lim).recs, lim)
  {
    hide Append, Ack, Rotate, Core, GapSound, Bounded;
    if ops != [] {
      var before, op := Run(s, ops[..|ops| - 1], lim), ops[|ops| - 1];
      RunSafe(s, ops[..|ops| - 1], lim);
      match op
      case Add(m) =>
        AppendKeeps(before, m, lim);
        if Bounded(s.recs, lim) {
          assert before.nextSeq > 0 by { Positive(before); }
          AppendBounded(before, m, lim);
        }
      case Acked(n) => AckKeeps(before, n, lim);
      case Rotated(id) => RotateKeeps(before, id, lim);
      case RxSet(n) => RxKeeps(before, n);
    }
  }

  lemma Positive(s: State)
    requires Core(s)
    ensures s.nextSeq > 0
  {}

  lemma RxKeeps(s: State, n: int)
    requires Core(s)
    ensures Core(s.(rxSeq := n)) && (GapSound(s) ==> GapSound(s.(rxSeq := n)))
  {}

  predicate NoRotation(ops: seq<Op>) { forall i | 0 <= i < |ops| :: !ops[i].Rotated? }

  /** Until the next rotation, a loss anywhere in a run leaves the gap flag up, and a critical record
      leaves only by being acknowledged. */
  lemma {:induction false} LossIsFlagged(s: State, ops: seq<Op>, lim: Limits)
    requires Core(s) && NoRotation(ops)
    ensures s.acked <= Run(s, ops, lim).acked && s.dropped <= Run(s, ops, lim).dropped
    ensures Run(s, ops, lim).dropped > s.dropped || s.gap ==> Run(s, ops, lim).gap
    ensures forall r | r in s.recs && r.critical :: r in Run(s, ops, lim).recs || r.seqNo <= Run(s, ops, lim).acked
  {
    if ops != [] {
      var before, op := Run(s, ops[..|ops| - 1], lim), ops[|ops| - 1];
      LossIsFlagged(s, ops[..|ops| - 1], lim);
      RunSafe(s, ops[..|ops| - 1], lim);
      hide Run, Ack, Core, GapSound;
      match op
      case Add(m) =>
        AppendKeeps(before, m, lim);
        AppendCritical(before, m, lim);
        hide Append;
      case Acked(n) =>
        AckKeeps(before, n, lim);
        AckMonotone(before, n);
      case RxSet(_) =>
    }
  }

  lemma AckMonotone(s: State, n: int)
    requires Core(s)
    ensures s.acked <= Ack(s, n).acked && Ack(s, n).dropped == s.dropped
  {}

  lemma AppendCritical(s: State, m: Message, lim: Limits)
    ensures forall r | r in s.recs && r.critical :: r in Append(s, m, lim).0.recs
    ensures Append(s, m, lim).0.acked == s.acked && Append(s, m, lim).0.dropped >= s.dropped
  {
    hide Kept, Refused, IsCritical;
    KeptShorter(s.recs, Size(MakeRecord(m, s.nextSeq)), lim);
    forall r | r in s.recs && r.critical ensures r in Append(s, m, lim).0.recs {
      KeptMembers(s.recs, Size(MakeRecord(m, s.nextSeq)), lim, r);
    }
  }
}
