/** The status hub (libs/readyup/status_snapshot.cpp, class Hub): state snapshots with a revision
    number, patches between them, and a bounded ring of events that a client can resume from. */
module StatusHub {
  import opened JsonValue
  import opened JsonText
  import opened JsonRoundTrip
  import opened MergePatch
  import opened MergePatchLaws
  import opened PrintedState
  import opened StatusParts

  /** `rev` is 0 for status events. */
  datatype Event = Event(seqNo: nat, rev: nat, frame: Frame)

  function FrameRev(f: Frame): nat { if f.PatchFrame? then f.rev else 0 }

  /** The events of a history, numbered from 1. */
  function Log(history: seq<Frame>): seq<Event> {
    if history == [] then []
    else
      var last := |history| - 1;
      Log(history[..last]) + [Event(|history|, FrameRev(history[last]), history[last])]
  }

  lemma {:induction false} LogAt(history: seq<Frame>)
    ensures |Log(history)| == |history|
    ensures forall i | 0 <= i < |history| :: Log(history)[i] == Event(i + 1, FrameRev(history[i]), history[i])
  {
    if history != [] { LogAt(history[..|history| - 1]); }
  }

  lemma LogPush(history: seq<Frame>, f: Frame)
    ensures Log(history + [f]) == Log(history) + [Event(|history| + 1, FrameRev(f), f)]
  {
    assert (history + [f])[..|history|] == history;
  }

  function PatchCount(fs: seq<Frame>): nat {
    if fs == [] then 0 else PatchCount(fs[..|fs| - 1]) + (if fs[|fs| - 1].PatchFrame? then 1 else 0)
  }

  function RevCount(es: seq<Event>): nat {
    if es == [] then 0 else (if es[0].rev != 0 then 1 else 0) + RevCount(es[1..])
  }

  lemma NoEvents()
    ensures RevCount([]) == 0
  {}

  lemma RevCountHead(es: seq<Event>)
    requires es != []
    ensures RevCount(es) == (if es[0].rev != 0 then 1 else 0) + RevCount(es[1..])
  {}

  /** Drops the oldest events until at most `cap` patches and `2 * cap` events are left. */
  function Trim(es: seq<Event>, cap: nat): seq<Event> {
    if es != [] && (RevCount(es) > cap || |es| > 2 * cap) then Trim(es[1..], cap) else es
  }

  predicate Fits(es: seq<Event>, cap: nat) { RevCount(es) <= cap && |es| <= 2 * cap }

  /** What is left is the longest tail within the bounds. */
  lemma {:induction false} TrimLongest(es: seq<Event>, cap: nat) returns (dropped: nat)
    ensures dropped <= |es| && Trim(es, cap) == es[dropped..] && RevCount(es[dropped..]) <= cap && |es[dropped..]| <= 2 * cap
    ensures forall j | 0 <= j < dropped :: RevCount(es[j..]) > cap || |es[j..]| > 2 * cap
  {
    assert es[0..] == es;
    if es != [] && !Fits(es, cap) {
      var d := TrimLongest(es[1..], cap);
      dropped := d + 1;
      hide RevCount;
      assert es[1..][d..] == es[dropped..];
      forall j | 0 <= j < dropped ensures RevCount(es[j..]) > cap || |es[j..]| > 2 * cap {
        if j > 0 { assert es[1..][j - 1..] == es[j..]; }
      }
    } else {
      dropped := 0;
    }
  }

  lemma TrimDrop(es: seq<Event>, cap: nat)
    requires es != [] && (RevCount(es) > cap || |es| > 2 * cap)
    ensures Trim(es, cap) == Trim(es[1..], cap)
  {}

  lemma {:induction false} RevCountPush(es: seq<Event>, e: Event)
    ensures RevCount(es + [e]) == RevCount(es) + (if e.rev != 0 then 1 else 0)
  {
    if es == [] {
      assert es + [e] == [e];
    } else {
      RevCountPush(es[1..], e);
      assert (es + [e])[1..] == es[1..] + [e];
    }
  }

  /** Trimming after every event keeps what trimming once at the end would keep. */
  lemma {:induction false} TrimPush(es: seq<Event>, e: Event, cap: nat)
    ensures Trim(Trim(es, cap) + [e], cap) == Trim(es + [e], cap)
  {
    if es != [] && !Fits(es, cap) {
      TrimPush(es[1..], e, cap);
      RevCountPush(es, e);
      assert (es + [e])[1..] == es[1..] + [e];
      TrimDrop(es, cap);
      TrimDrop(es + [e], cap);
    } else if es != [] {
      TrimKeep(es, cap);
    }
  }

  lemma TrimKeep(es: seq<Event>, cap: nat)
    requires !(es != [] && (RevCount(es) > cap || |es| > 2 * cap))
    ensures Trim(es, cap) == es
  {}

  function PatchPart(a: Json, b: Json, rev: nat, fmt: real -> string): seq<Frame> {
    if Dump(a, fmt) == Dump(b, fmt) then []
    else match MergeDiff(a, b)
         case None => []
         case Some(p) => [PatchFrame(rev + 1, p)]
  }

  function StatusPart(parts: seq<Member>): seq<Frame> { if parts == [] then [] else [StatusFrame(parts)] }

  /** The events one submission adds after another. */
  function NewFrames(a: Inputs, b: Inputs, rev: nat, fmt: real -> string): seq<Frame> {
    PatchPart(a.state, b.state, rev, fmt) + StatusPart(ChangedParts(a, b, fmt))
  }

  /** A client's copy of the state after a run of events. */
  function Replay(copy: Json, fs: seq<Frame>): Json {
    if fs == [] then copy
    else
      var before := Replay(copy, fs[..|fs| - 1]);
      match fs[|fs| - 1]
      case PatchFrame(_, p) => MergePatchApply(before, p)
      case StatusFrame(_) => before
  }

  class Hub {
    const cap: nat
    const fmt: real -> string
    var pending: Option<Inputs>
    var submissions: nat
    var cur: Option<Inputs>
    var rev: nat
    var lastSeq: nat
    var oldestDropped: nat
    var events: seq<Event>
    /** The serialized pieces of `cur`. */
    var texts: Texts
    /** Every frame ever appended, oldest first; frame number `n` is `history[n - 1]`. */
    ghost var history: seq<Frame>
    /** Every (frame count, state) at which a client could have taken a snapshot. */
    ghost var snapshots: seq<(nat, Json)>
    /** What each of those snapshots told of the other parts. */
    ghost var shown: seq<Known>

    ghost predicate RingValid()
      reads this
    {
      && cap >= 1
      && Aligned()
      && Fits(events, cap) && events == Trim(Log(history), cap)
    }

    /** The ring holds the events after the dropped ones, numbered without a hole. */
    ghost predicate Aligned()
      reads this
    {
      && oldestDropped <= lastSeq == |history| == |Log(history)|
      && events == Log(history)[oldestDropped..]
    }

    ghost predicate RevsValid()
      reads this
    {
      && ConsecutiveRevs(history)
      && (cur.None? ==> rev == 0 && history == [])
      && (cur.Some? ==> rev == 1 + PatchCount(history))
    }

    ghost predicate CopiesValid()
      reads this
    {
      && (pending.Some? ==> UniqueKeys(pending.value.state))
      && (cur.None? ==> snapshots == [])
      && (cur.Some? ==>
            && UniqueKeys(cur.value.state) && snapshots != [] && snapshots[|snapshots| - 1].1 == cur.value.state
            && Followed(snapshots, history, cur.value.state, fmt))
    }

    ghost predicate PartsValid()
      reads this
    {
      |shown| == |snapshots| && (cur.Some? ==> AllInformed(snapshots, shown, history, cur.value, fmt))
    }

    ghost predicate TextsValid()
      reads this
    {
      cur.Some? ==> texts == TextsOf(cur.value, fmt)
    }

    ghost predicate Valid()
      reads this
    {
      RingValid() && RevsValid() && CopiesValid() && PartsValid() && TextsValid() && PrintsNumbers(fmt)
    }

    constructor (patchRing: nat, fmt: real -> string)
      requires PrintsNumbers(fmt)
      ensures Valid() && cap == (if patchRing > 0 then patchRing else 1)
      ensures cur == None && pending == None && history == [] && this.fmt == fmt
    {
      this.fmt := fmt;
      cap := if patchRing > 0 then patchRing else 1;
      pending, cur, submissions, rev, lastSeq, oldestDropped, events := None, None, 0, 0, 0, 0, [];
      texts := Texts("", "", "", "", "");
      history, snapshots, shown := [], [], [];
    }

    /** The latest submission wins; the source's values never repeat a key. */
    method Submit(inputs: Inputs)
      requires Valid() && UniqueKeys(inputs.state)
      modifies this
      ensures Valid() && pending == Some(inputs) && submissions == old(submissions) + 1
      ensures unchanged(`cur, `rev, `lastSeq, `oldestDropped, `events, `history, `snapshots, `shown)
    {
      hide Dump, UniqueKeys, NoNum, PatchCount, RevCount, Log, ConsecutiveRevs, AllConverged;
      pending := Some(inputs);
      submissions := submissions + 1;
    }

    method Append(eventRev: nat, frame: Frame)
      requires RingValid() && eventRev == FrameRev(frame)
      modifies `lastSeq, `oldestDropped, `events, `history
      ensures RingValid() && |events| <= 2 * cap && RevCount(events) <= cap
      ensures history == old(history) + [frame]
      ensures events == Trim(old(events) + [Event(old(lastSeq) + 1, eventRev, frame)], cap)
    {
      hide Trim, Log;
      LogPush(history, frame);
      lastSeq := lastSeq + 1;
      events := events + [Event(lastSeq, eventRev, frame)];
      history := history + [frame];
      var patches := CountPatches(events);
      TrimPush(Log(old(history)), Event(lastSeq, eventRev, frame), cap);
      DropOld(patches);
    }

    /** The patch event for a new state, if it prints and compares differently. */
    method PublishState(state: Json, text: string) returns (appended: bool)
      requires Valid() && cur.Some? && UniqueKeys(state) && text == Dump(state, fmt)
      modifies `rev, `lastSeq, `oldestDropped, `events, `history
      ensures RingValid() && ConsecutiveRevs(history) && rev == 1 + PatchCount(history)
      ensures history == old(history) + PatchPart(cur.value.state, state, old(rev), fmt)
      ensures appended <==> history != old(history)
      ensures Followed(snapshots, history, state, fmt) && AllInformed(snapshots, shown, history, cur.value, fmt)
    {
      hide Dump, UniqueKeys, NoNum, PatchCount, RevCount, Log, Trim, ConsecutiveRevs, AllConverged, MergeDiff, AllInformed;
      appended := false;
      ghost var was := cur.value.state;
      if text != texts.state {
        var patch := MergeDiff(cur.value.state, state);
        if patch.Some? {
          rev := rev + 1;
          ghost var h := history;
          Append(rev, PatchFrame(rev, patch.value));
          appended := true;
          RevsPush(h, PatchFrame(rev, patch.value));
          PartsPatch(snapshots, shown, h, PatchFrame(rev, patch.value), cur.value, fmt);
          FollowPatch(snapshots, h, was, state, rev, fmt, false);
          if NoDoubles(snapshots) { FollowPatch(snapshots, h, was, state, rev, fmt, true); }
          return;
        }
      }
      assert history + [] == history;
      FollowEqual(snapshots, history, was, state, fmt, false);
      if NoDoubles(snapshots) && NoNum(state) { FollowEqual(snapshots, history, was, state, fmt, true); }
    }

    /** The status event for the parts that changed. */
    method PublishStatus(b: Inputs, t: Texts) returns (appended: bool)
      requires RingValid() && cur.Some? && TextsValid() && ConsecutiveRevs(history) && t == TextsOf(b, fmt)
      requires AllInformed(snapshots, shown, history, cur.value, fmt)
      modifies `lastSeq, `oldestDropped, `events, `history
      ensures RingValid() && ConsecutiveRevs(history) && PatchCount(history) == PatchCount(old(history))
      ensures history == old(history) + StatusPart(ChangedParts(cur.value, b, fmt))
      ensures appended <==> history != old(history)
      ensures Followed(snapshots, old(history), b.state, fmt) ==> Followed(snapshots, history, b.state, fmt)
      ensures AllInformed(snapshots, shown, history, b, fmt)
    {
      hide Dump, PatchCount, RevCount, Log, Trim, ConsecutiveRevs, AllConverged, AllInformed;
      var a := cur.value;
      var data := Part(t.platform != texts.platform, "platform", b.platform);
      data := data + Part(b.updateSafe != a.updateSafe, "update_safe", Bool(b.updateSafe));
      data := data + Part(t.summary != texts.summary, "summary", b.summary);
      data := data + Part(t.versions != texts.versions, "versions", b.versions);
      data := data + Part(t.selftest != texts.selftest, "selftest", b.selftest);
      data := data + Part(b.healthy != a.healthy, "healthy", Bool(b.healthy));
      assert data == ChangedParts(a, b, fmt);
      hide ChangedParts, Part;
      PartsStatus(snapshots, shown, history, a, b, fmt);
      appended := data != [];
      if appended {
        ghost var h := history;
        Append(0, StatusFrame(data));
        RevsPush(h, StatusFrame(data));
        FollowStatus(snapshots, h, StatusFrame(data), b.state, fmt, true);
        FollowStatus(snapshots, h, StatusFrame(data), b.state, fmt, false);
      } else {
        assert history + [] == history;
      }
    }

    /** Takes up the latest submission: one patch event if the state changed, one status event if
        anything else did. */
    method Process() returns (news: bool)
      requires Valid()
      modifies this
      ensures Valid() && pending == None
      ensures old(pending).None? ==>
        !news && unchanged(`cur, `rev, `lastSeq, `oldestDropped, `events, `history, `snapshots, `shown)
      ensures old(pending).Some? ==>
        && cur == old(pending)
        && history == old(history) +
             (if old(cur).None? then [] else NewFrames(old(cur).value, cur.value, old(rev), fmt))
        && snapshots == old(snapshots) + [(|history|, cur.value.state)] && shown == old(shown) + [Snapshot(cur.value, fmt)]
        && (forall i | 0 <= i < |snapshots| :: Knows(Overlay(shown[i], history[snapshots[i].0..], fmt), cur.value, fmt))
        && (news <==> old(cur).None? || history != old(history))
    {
      hide Dump, UniqueKeys, NoNum, PatchCount, RevCount, Log, Trim, ConsecutiveRevs, AllConverged, TextsOf,
           NewFrames, Fits, PrintsNumbers, Followed, AllInformed, Snapshot, Knows;
      var inputs := pending;
      pending := None;
      if inputs.None? { return false; }
      var next := inputs.value;
      var t := TextsOf(next, fmt);
      var first, appended := cur.None?, false;
      if first {
        rev := 1;
        NoFrames(next.state);
        NoParts(next, fmt);
        assert history + [] == history;
      } else {
        appended := Publish(next, t);
      }
      cur, texts := Some(next), t;
      TakenNow(snapshots, history, next.state, fmt);
      PartsNow(snapshots, shown, history, next, fmt);
      snapshots, shown := snapshots + [(|history|, next.state)], shown + [Snapshot(next, fmt)];
      PartsKnown(snapshots, shown, history, next, fmt);
      news := appended || first;
    }

    /** The events for a submission after another. */
    method Publish(next: Inputs, t: Texts) returns (appended: bool)
      requires Valid() && cur.Some? && UniqueKeys(next.state) && t == TextsOf(next, fmt)
      modifies `rev, `lastSeq, `oldestDropped, `events, `history
      ensures RingValid() && ConsecutiveRevs(history) && rev == 1 + PatchCount(history)
      ensures history == old(history) + NewFrames(cur.value, next, old(rev), fmt)
      ensures appended <==> history != old(history)
      ensures Followed(snapshots, history, next.state, fmt) && AllInformed(snapshots, shown, history, next, fmt)
    {
      hide Dump, UniqueKeys, NoNum, PatchCount, RevCount, Log, Trim, ConsecutiveRevs, AllConverged, TextsOf,
           PatchPart, StatusPart, ChangedParts, Fits, PrintsNumbers, Followed, AllInformed;
      assert t.state == Dump(next.state, fmt) by { StateText(next, fmt); }
      appended := PublishState(next.state, t.state);
      ghost var patchPart := PatchPart(cur.value.state, next.state, old(rev), fmt);
      var more := PublishStatus(next, t);
      ghost var statusPart := StatusPart(ChangedParts(cur.value, next, fmt));
      assert (old(history) + patchPart) + statusPart == old(history) + (patchPart + statusPart);
      assert appended || more <==> patchPart + statusPart != [];
      appended := appended || more;
    }

    /** What a new client is sent: the revision, the state and the other parts, as printed. */
    method SnapshotFrame() returns (at: nat, state: string, parts: Known)
      requires Valid()
      ensures cur.None? ==> at == 0 && state == "" && parts == map[]
      ensures cur.Some? ==> at == rev && state == Dump(cur.value.state, fmt) && Knows(parts, cur.value, fmt) && "healthy" !in parts
      ensures cur.Some? ==> parts == Snapshot(cur.value, fmt)
    {
      hide Dump, Fits, PrintsNumbers, Followed, AllInformed, ConsecutiveRevs, PatchCount, Log, Trim;
      if cur.None? { return 0, "", map[]; }
      at, state := rev, texts.state;
      parts := map["summary" := texts.summary, "platform" := texts.platform, "update_safe" := Flag(cur.value.updateSafe),
                   "versions" := texts.versions, "selftest" := texts.selftest];
    }

    /** Every frame after `afterSeq`, or nothing at all when some of them are gone. */
    method FramesAfter(afterSeq: nat) returns (ok: bool, out: seq<Frame>, newest: nat)
      requires RingValid()
      ensures newest == lastSeq
      ensures ok <==> afterSeq >= oldestDropped
      ensures !ok ==> out == []
      ensures ok ==> out == if afterSeq >= |history| then [] else history[afterSeq..]
    {
      hide RevCount, Trim;
      out, newest := [], lastSeq;
      if afterSeq >= lastSeq { return true, out, newest; }
      if afterSeq < oldestDropped { return false, out, newest; }
      ok := true;
      LogAt(history);
      out := Collect(events, oldestDropped, afterSeq, history);
    }

    /** The number of the first event in the ring with this revision. */
    method SeqForRev(r: nat) returns (ok: bool, seqNo: nat)
      requires RingValid()
      ensures ok <==> exists i | oldestDropped <= i < |history| :: FrameRev(history[i]) == r
      ensures ok ==> oldestDropped < seqNo <= |history| && FrameRev(history[seqNo - 1]) == r
      ensures ok ==> forall i | oldestDropped <= i < seqNo - 1 :: FrameRev(history[i]) != r
    {
      hide RevCount, Trim;
      ok, seqNo := false, 0;
      LogAt(history);
      hide Log;
      for i := 0 to |events|
        invariant forall j | oldestDropped <= j < oldestDropped + i :: FrameRev(history[j]) != r
      {
        var e := events[i];
        assert e == Log(history)[oldestDropped + i];
        if e.rev == r { return true, e.seqNo; }
      }
    }

    method DropOld(count: nat)
      requires Aligned() && cap >= 1 && count == RevCount(events)
      modifies `oldestDropped, `events
      ensures Aligned() && Fits(events, cap) && events == Trim(old(events), cap)
    {
      hide Trim, Log, RevCount;
      var patches := count;
      while events != [] && (patches > cap || |events| > cap * 2)
        invariant patches == RevCount(events)
        invariant old(oldestDropped) <= oldestDropped <= lastSeq
        invariant events == old(events)[oldestDropped - old(oldestDropped)..]
        invariant Trim(events, cap) == Trim(old(events), cap)
        decreases |events|
      {
        RevCountHead(events);
        TrimDrop(events, cap);
        LogAt(history);
        assert events[0] == Log(history)[oldestDropped];
        if events[0].rev != 0 { patches := patches - 1; }
        oldestDropped := events[0].seqNo;
        events := events[1..];
      }
      TrimKeep(events, cap);
      NoEvents();
      SliceTwice(Log(history), old(oldestDropped), oldestDropped);
    }
  }

  lemma SliceTwice(es: seq<Event>, a: nat, b: nat)
    requires a <= b <= |es|
    ensures es[a..][b - a..] == es[b..]
  {}

  /** The frames of the ring's events numbered above `afterSeq`. */
  method Collect(events: seq<Event>, dropped: nat, afterSeq: nat, ghost history: seq<Frame>) returns (out: seq<Frame>)
    requires dropped <= afterSeq < |history| == dropped + |events|
    requires forall i | 0 <= i < |events| :: events[i].seqNo == dropped + 1 + i && events[i].frame == history[dropped + i]
    ensures out == history[afterSeq..]
  {
    out := [];
    for i := 0 to |events|
      invariant out == if dropped + i <= afterSeq then [] else history[afterSeq..dropped + i]
    {
      if events[i].seqNo > afterSeq { out := out + [events[i].frame]; }
    }
  }

  method CountPatches(es: seq<Event>) returns (n: nat)
    ensures n == RevCount(es)
  {
    n := 0;
    for i := 0 to |es|
      invariant n + RevCount(es[i..]) == RevCount(es)
    {
      assert es[i..][1..] == es[i + 1..];
      n := n + (if es[i].rev != 0 then 1 else 0);
    }
    assert es[|es|..] == [];
  }

  /** Patch frames carry the revisions 2, 3, ... in order. */
  ghost predicate ConsecutiveRevs(history: seq<Frame>) {
    forall i | 0 <= i < |history| && history[i].PatchFrame? :: history[i].rev == 2 + PatchCount(history[..i])
  }

  /** The same to a client, as prints; or, if asked for, as values. Both up to null members. */
  ghost predicate Alike(a: Json, b: Json, fmt: real -> string, values: bool) {
    if values then SameState(a, b) else SameView(a, b, fmt)
  }

  ghost predicate AllConverged(snapshots: seq<(nat, Json)>, history: seq<Frame>, state: Json, fmt: real -> string, values: bool) {
    forall i | 0 <= i < |snapshots| :: Converged(snapshots[i], history, state, fmt, values)
  }

  /** A client that took this snapshot and applied every frame since holds the current state. */
  ghost predicate Converged(snapshot: (nat, Json), history: seq<Frame>, state: Json, fmt: real -> string, values: bool) {
    snapshot.0 <= |history| && UniqueKeys(snapshot.1) &&
    UniqueKeys(Replay(snapshot.1, history[snapshot.0..])) &&
    Alike(Replay(snapshot.1, history[snapshot.0..]), state, fmt, values)
  }

  /** Every client follows: it sees the current state as printed, and if no state ever held a double, has its
      values. */
  ghost predicate Followed(snapshots: seq<(nat, Json)>, history: seq<Frame>, state: Json, fmt: real -> string) {
    && AllConverged(snapshots, history, state, fmt, false)
    && (NoDoubles(snapshots) && NoNum(state) ==> AllConverged(snapshots, history, state, fmt, true))
  }

  /** No state there ever was holds a double. */
  predicate NoDoubles(snapshots: seq<(nat, Json)>) { forall i | 0 <= i < |snapshots| :: NoNum(snapshots[i].1) }

  lemma PatchCountPush(h: seq<Frame>, f: Frame)
    ensures PatchCount(h + [f]) == PatchCount(h) + (if f.PatchFrame? then 1 else 0)
  {
    assert (h + [f])[..|h|] == h;
  }

  lemma RevsPush(h: seq<Frame>, f: Frame)
    requires ConsecutiveRevs(h) && (f.PatchFrame? ==> f.rev == 2 + PatchCount(h))
    ensures ConsecutiveRevs(h + [f])
    ensures PatchCount(h + [f]) == PatchCount(h) + (if f.PatchFrame? then 1 else 0)
  {
    PatchCountPush(h, f);
    hide PatchCount;
    var g := h + [f];
    forall i | 0 <= i < |g| && g[i].PatchFrame? ensures g[i].rev == 2 + PatchCount(g[..i]) {
      assert g[..i] == h[..i];
      assert h[..|h|] == h;
    }
  }

  lemma ReplayPush(copy: Json, fs: seq<Frame>, f: Frame)
    ensures Replay(copy, fs + [f]) ==
            if f.PatchFrame? then MergePatchApply(Replay(copy, fs), f.patch) else Replay(copy, fs)
  {
    assert (fs + [f])[..|fs|] == fs;
  }

  /** Every follower of the old state follows the patch to the new one. */
  lemma FollowPatch(snapshots: seq<(nat, Json)>, h: seq<Frame>, was: Json, state: Json, rev: nat, fmt: real -> string, values: bool)
    requires AllConverged(snapshots, h, was, fmt, values) && UniqueKeys(was) && UniqueKeys(state)
    requires MergeDiff(was, state).Some?
    ensures AllConverged(snapshots, h + [PatchFrame(rev, MergeDiff(was, state).value)], state, fmt, values)
  {
    hide MergeDiff, MergePatchApply, UniqueKeys, SameState, SameView, Replay;
    var f := PatchFrame(rev, MergeDiff(was, state).value);
    forall i | 0 <= i < |snapshots| ensures Converged(snapshots[i], h + [f], state, fmt, values) {
      var (n, copy) := snapshots[i];
      assert Converged(snapshots[i], h, was, fmt, values);
      assert (h + [f])[n..] == h[n..] + [f];
      ReplayPush(copy, h[n..], f);
      if values { PatchFollows(Replay(copy, h[n..]), was, state); } else { ViewFollows(Replay(copy, h[n..]), was, state, fmt); }
    }
  }

  lemma FollowStatus(snapshots: seq<(nat, Json)>, h: seq<Frame>, f: Frame, state: Json, fmt: real -> string, values: bool)
    requires f.StatusFrame?
    ensures AllConverged(snapshots, h, state, fmt, values) ==> AllConverged(snapshots, h + [f], state, fmt, values)
  {
    hide MergePatchApply, UniqueKeys, Alike, Replay;
    if AllConverged(snapshots, h, state, fmt, values) {
      forall i | 0 <= i < |snapshots| ensures Converged(snapshots[i], h + [f], state, fmt, values) {
        var (n, copy) := snapshots[i];
        assert Converged(snapshots[i], h, state, fmt, values);
        assert (h + [f])[n..] == h[n..] + [f];
        ReplayPush(copy, h[n..], f);
      }
    }
  }

  /** Without a patch the states look the same, so followers need none. */
  lemma FollowEqual(snapshots: seq<(nat, Json)>, h: seq<Frame>, was: Json, state: Json, fmt: real -> string, values: bool)
    requires AllConverged(snapshots, h, was, fmt, values) && UniqueKeys(was) && UniqueKeys(state) && PrintsNumbers(fmt)
    requires values ==> NoNum(was) && NoNum(state)
    requires Dump(was, fmt) == Dump(state, fmt) || MergeDiff(was, state).None?
    ensures AllConverged(snapshots, h, state, fmt, values)
  {
    hide MergeDiff, Dump, Equal, Replay, Norm, Strip, Seen, PrintsNumbers, UniqueKeys, NoNum;
    if Dump(was, fmt) != Dump(state, fmt) {
      DiffMeans(was, state);
      SameStateSameView(was, state, fmt);
    } else {
      SamePrint(was, state, fmt);
      if values { DumpInjective(was, state, fmt); }
    }
    forall i | 0 <= i < |snapshots| ensures Converged(snapshots[i], h, state, fmt, values) {
      assert Converged(snapshots[i], h, was, fmt, values);
    }
  }

  /** Every client with the events since its snapshot is informed, and so is one that gets some again. */
  ghost predicate AllInformed(snapshots: seq<(nat, Json)>, shown: seq<Known>, h: seq<Frame>, i: Inputs, fmt: real -> string) {
    && LastWord(h, i, fmt) && |shown| == |snapshots|
    && forall j | 0 <= j < |snapshots| :: Informed(snapshots[j].0, shown[j], h, i, fmt)
  }

  lemma PartsPatch(snapshots: seq<(nat, Json)>, shown: seq<Known>, h: seq<Frame>, f: Frame, i: Inputs, fmt: real -> string)
    requires AllInformed(snapshots, shown, h, i, fmt) && f.PatchFrame?
    ensures AllInformed(snapshots, shown, h + [f], i, fmt)
  {
    hide LastWord, Informed;
    WordPatch(h, f, i, fmt);
    forall j | 0 <= j < |snapshots| ensures Informed(snapshots[j].0, shown[j], h + [f], i, fmt) {
      InformedPatch(snapshots[j].0, shown[j], h, f, i, fmt);
    }
  }

  lemma PartsStatus(snapshots: seq<(nat, Json)>, shown: seq<Known>, h: seq<Frame>, a: Inputs, b: Inputs, fmt: real -> string)
    requires AllInformed(snapshots, shown, h, a, fmt)
    ensures AllInformed(snapshots, shown, h + [StatusFrame(ChangedParts(a, b, fmt))], b, fmt)
    ensures ChangedParts(a, b, fmt) == [] ==> AllInformed(snapshots, shown, h, b, fmt)
  {
    hide LastWord, Informed, ChangedParts;
    WordStatus(h, a, b, fmt);
    var g := h + [StatusFrame(ChangedParts(a, b, fmt))];
    forall j | 0 <= j < |snapshots|
      ensures Informed(snapshots[j].0, shown[j], g, b, fmt)
      ensures ChangedParts(a, b, fmt) == [] ==> Informed(snapshots[j].0, shown[j], h, b, fmt)
    {
      InformedStatus(snapshots[j].0, shown[j], h, a, b, fmt);
    }
  }

  lemma PartsNow(snapshots: seq<(nat, Json)>, shown: seq<Known>, h: seq<Frame>, i: Inputs, fmt: real -> string)
    requires AllInformed(snapshots, shown, h, i, fmt)
    ensures AllInformed(snapshots + [(|h|, i.state)], shown + [Snapshot(i, fmt)], h, i, fmt)
  {
    hide LastWord, Informed, Snapshot;
    InformedNow(h, i, fmt);
  }

  lemma NoParts(i: Inputs, fmt: real -> string)
    ensures AllInformed([], [], [], i, fmt)
  {
    NoWord(i, fmt);
    hide Parts;
    var none: seq<Frame> := [];
    assert forall q | 0 <= q <= |none| :: none[q..] == none;
  }

  lemma PartsKnown(snapshots: seq<(nat, Json)>, shown: seq<Known>, h: seq<Frame>, i: Inputs, fmt: real -> string)
    requires AllInformed(snapshots, shown, h, i, fmt)
    ensures forall j | 0 <= j < |snapshots| ::
      snapshots[j].0 <= |h| && Knows(Overlay(shown[j], h[snapshots[j].0..], fmt), i, fmt)
  {
    hide LastWord, Knows;
    forall j | 0 <= j < |snapshots| ensures snapshots[j].0 <= |h| && Knows(Overlay(shown[j], h[snapshots[j].0..], fmt), i, fmt) {
      assert Informed(snapshots[j].0, shown[j], h, i, fmt);
      InformedKnows(snapshots[j].0, shown[j], h, i, fmt);
    }
  }

  /** A snapshot taken now needs no patch. */
  lemma FollowNow(snapshots: seq<(nat, Json)>, h: seq<Frame>, state: Json, fmt: real -> string, values: bool)
    requires UniqueKeys(state)
    ensures AllConverged(snapshots, h, state, fmt, values) ==> AllConverged(snapshots + [(|h|, state)], h, state, fmt, values)
  {
    hide UniqueKeys, Alike;
    if AllConverged(snapshots, h, state, fmt, values) {
      assert h[|h|..] == [];
      Reflexive(state, fmt, values);
      var all := snapshots + [(|h|, state)];
      forall i | 0 <= i < |all| ensures Converged(all[i], h, state, fmt, values) {
        if i < |snapshots| { assert Converged(snapshots[i], h, state, fmt, values); }
      }
    }
  }

  lemma TakenNow(snapshots: seq<(nat, Json)>, h: seq<Frame>, state: Json, fmt: real -> string)
    requires UniqueKeys(state) && Followed(snapshots, h, state, fmt)
    ensures Followed(snapshots + [(|h|, state)], h, state, fmt)
  {
    hide UniqueKeys, AllConverged;
    var all := snapshots + [(|h|, state)];
    assert NoDoubles(all) ==> NoDoubles(snapshots) by { assert forall i | 0 <= i < |snapshots| :: all[i] == snapshots[i]; }
    FollowNow(snapshots, h, state, fmt, false);
    FollowNow(snapshots, h, state, fmt, true);
  }

  lemma Reflexive(state: Json, fmt: real -> string, values: bool)
    ensures Alike(state, state, fmt, values)
  {}

  lemma NoFrames(state: Json)
    ensures PatchCount([]) == 0 && ConsecutiveRevs([]) && NoDoubles([])
    ensures forall fmt: real -> string :: Followed([], [], state, fmt)
  {}

  // ---- resuming ------------------------------------------------------------------------------

  /** The revisions of the patch frames, in order. */
  function PatchRevs(fs: seq<Frame>): seq<nat> {
    if fs == [] then []
    else PatchRevs(fs[..|fs| - 1]) + (if fs[|fs| - 1].PatchFrame? then [fs[|fs| - 1].rev] else [])
  }

  function Range(low: nat, count: nat): seq<nat> {
    if count == 0 then [] else Range(low, count - 1) + [low + count - 1]
  }

  lemma {:induction false} PatchCountConcat(a: seq<Frame>, b: seq<Frame>)
    ensures PatchCount(a + b) == PatchCount(a) + PatchCount(b)
  {
    if b == [] {
      assert a + b == a;
    } else {
      PatchCountConcat(a, b[..|b| - 1]);
      assert (a + b)[..|a + b| - 1] == a + b[..|b| - 1];
    }
  }

  lemma {:induction false} ReplayConcat(copy: Json, a: seq<Frame>, b: seq<Frame>)
    ensures Replay(copy, a + b) == Replay(Replay(copy, a), b)
  {
    hide MergePatchApply;
    if b == [] {
      assert a + b == a;
    } else {
      ReplayConcat(copy, a, b[..|b| - 1]);
      assert (a + b)[..|a + b| - 1] == a + b[..|b| - 1];
    }
  }

  lemma {:induction false} ReplayNoPatch(copy: Json, fs: seq<Frame>)
    requires PatchCount(fs) == 0
    ensures Replay(copy, fs) == copy
  {
    if fs != [] { ReplayNoPatch(copy, fs[..|fs| - 1]); }
  }

  /** The patches after any point carry consecutive revisions up to the newest. */
  lemma {:induction false} RevsAfter(h: seq<Frame>, q: nat)
    requires ConsecutiveRevs(h) && q <= |h|
    ensures PatchCount(h[..q]) <= PatchCount(h)
    ensures PatchRevs(h[q..]) == Range(2 + PatchCount(h[..q]), PatchCount(h) - PatchCount(h[..q]))
  {
    hide PatchCount, PatchRevs, ConsecutiveRevs;
    if q == |h| {
      assert h[..q] == h && h[q..] == [];
      NoPatchRevs();
    } else {
      var last := |h| - 1;
      var g := h[..last];
      assert h == g + [h[last]];
      RevsPrefix(h, last);
      RevsAfter(g, q);
      PatchCountPush(g, h[last]);
      assert g[..q] == h[..q];
      PatchRevsPush(g[q..], h[last]);
      assert h[q..] == g[q..] + [h[last]];
    }
  }

  lemma NoPatchRevs()
    ensures PatchRevs([]) == []
  {}

  lemma PatchRevsPush(fs: seq<Frame>, f: Frame)
    ensures PatchRevs(fs + [f]) == PatchRevs(fs) + (if f.PatchFrame? then [f.rev] else [])
  {
    assert (fs + [f])[..|fs|] == fs;
  }

  lemma RevsPrefix(h: seq<Frame>, n: nat)
    requires ConsecutiveRevs(h) && n <= |h|
    ensures ConsecutiveRevs(h[..n])
    ensures n < |h| && h[n].PatchFrame? ==> h[n].rev == 2 + PatchCount(h[..n])
  {
    hide PatchCount;
    assert forall i | 0 <= i < n :: h[..n][..i] == h[..i];
  }

  /** A client at revision `r`, however it got there, is brought up to date by the frames after the
      patch event of revision `r`. */
  lemma ResumeExact(h: seq<Frame>, n: nat, copy: Json, t: nat, q: nat)
    requires ConsecutiveRevs(h) && n <= t <= |h| && 1 <= q <= |h|
    requires h[q - 1].PatchFrame? && h[q - 1].rev == 1 + PatchCount(h[..t])
    ensures Replay(Replay(copy, h[n..t]), h[q..]) == Replay(copy, h[n..])
  {
    hide Replay, MergePatchApply, PatchCount;
    assert h[..q] == h[..q - 1] + [h[q - 1]];
    PatchCountPush(h[..q - 1], h[q - 1]);
    NotAhead(h, t, q);
    assert h[..t] == h[..q] + h[q..t];
    PatchCountConcat(h[..q], h[q..t]);
    var x := Replay(copy, h[n..t]);
    ReplayNoPatch(x, h[q..t]);
    assert h[q..] == h[q..t] + h[t..];
    ReplayConcat(x, h[q..t], h[t..]);
    assert h[n..] == h[n..t] + h[t..];
    ReplayConcat(copy, h[n..t], h[t..]);
  }

  /** A client that took snapshot `s`, has applied the frames up to `t` and is at revision `r`. */
  ghost predicate ClientAt(s: (nat, Json), h: seq<Frame>, t: nat, r: nat) {
    s.0 <= t <= |h| && r == 1 + PatchCount(h[..t])
  }

  /** A stream request with `Last-Event-ID: r`: the missed frames, or nothing (then a fresh
      snapshot is sent). For `r >= 1` the frames bring exactly the patches after `r`, and every
      client at revision `r` ends up with the current state. */
  method Resume(hub: Hub, r: nat) returns (resumed: bool, frames: seq<Frame>, newest: nat)
    requires hub.Valid()
    ensures newest == hub.lastSeq
    ensures resumed <==> exists i | hub.oldestDropped <= i < |hub.history| :: FrameRev(hub.history[i]) == r
    ensures resumed ==>
      exists q | hub.oldestDropped < q <= |hub.history| :: FrameRev(hub.history[q - 1]) == r && frames == hub.history[q..]
    ensures resumed && r >= 1 ==> r <= hub.rev && PatchRevs(frames) == Range(r + 1, hub.rev - r)
    ensures resumed && r >= 1 ==>
      forall i, t: nat | 0 <= i < |hub.snapshots| && ClientAt(hub.snapshots[i], hub.history, t, r) ::
        var copy := Replay(Replay(hub.snapshots[i].1, hub.history[hub.snapshots[i].0..t]), frames);
        SameView(copy, hub.cur.value.state, hub.fmt) && (NoDoubles(hub.snapshots) ==> SameState(copy, hub.cur.value.state))
    ensures resumed && r >= 1 ==>
      forall i, t: nat | 0 <= i < |hub.snapshots| && ClientAt(hub.snapshots[i], hub.history, t, r) ::
        Knows(Overlay(Overlay(hub.shown[i], hub.history[hub.snapshots[i].0..t], hub.fmt), frames, hub.fmt), hub.cur.value, hub.fmt)
  {
    hide RevCount, Log, Trim, Replay, Dump, NoNum, UniqueKeys, SameState, SameView, PatchRevs, PatchCount, ClientAt,
         AllConverged, ConsecutiveRevs, PrintsNumbers, AllInformed, Knows, Overlay;
    var q := 0;
    frames, newest := [], hub.lastSeq;
    resumed, q := hub.SeqForRev(r);
    if !resumed { return; }
    resumed, frames, newest := hub.FramesAfter(q);
    assert frames == hub.history[q..];
    if r >= 1 {
      ResumeRevs(hub.history, q);
      ResumeParts(hub.snapshots, hub.shown, hub.history, hub.cur.value, q, hub.fmt);
      ResumeAll(hub.snapshots, hub.history, hub.cur.value.state, q, hub.fmt, false);
      if NoDoubles(hub.snapshots) { ResumeAll(hub.snapshots, hub.history, hub.cur.value.state, q, hub.fmt, true); }
    }
  }

  lemma ResumeRevs(h: seq<Frame>, q: nat)
    requires ConsecutiveRevs(h) && 1 <= q <= |h| && h[q - 1].PatchFrame?
    ensures h[q - 1].rev <= 1 + PatchCount(h)
    ensures PatchRevs(h[q..]) == Range(h[q - 1].rev + 1, 1 + PatchCount(h) - h[q - 1].rev)
  {
    hide PatchCount, PatchRevs, ConsecutiveRevs, Range;
    RevsPrefix(h, q - 1);
    assert h[..q - 1] + [h[q - 1]] == h[..q];
    PatchCountPush(h[..q - 1], h[q - 1]);
    RevsAfter(h, q);
  }

  lemma ResumeAll(snapshots: seq<(nat, Json)>, h: seq<Frame>, state: Json, q: nat, fmt: real -> string, values: bool)
    requires ConsecutiveRevs(h) && 1 <= q <= |h| && h[q - 1].PatchFrame? && AllConverged(snapshots, h, state, fmt, values)
    ensures forall i, t: nat | 0 <= i < |snapshots| && ClientAt(snapshots[i], h, t, h[q - 1].rev) ::
        Alike(Replay(Replay(snapshots[i].1, h[snapshots[i].0..t]), h[q..]), state, fmt, values)
  {
    hide Replay, Alike, ConsecutiveRevs, UniqueKeys;
    forall i, t: nat | 0 <= i < |snapshots| && ClientAt(snapshots[i], h, t, h[q - 1].rev)
      ensures Alike(Replay(Replay(snapshots[i].1, h[snapshots[i].0..t]), h[q..]), state, fmt, values)
    {
      ResumeExact(h, snapshots[i].0, snapshots[i].1, t, q);
      assert Converged(snapshots[i], h, state, fmt, values);
    }
  }

  lemma ResumeParts(snapshots: seq<(nat, Json)>, shown: seq<Known>, h: seq<Frame>, i: Inputs, q: nat, fmt: real -> string)
    requires ConsecutiveRevs(h) && 1 <= q <= |h| && h[q - 1].PatchFrame? && AllInformed(snapshots, shown, h, i, fmt)
    ensures forall j, t: nat | 0 <= j < |snapshots| && ClientAt(snapshots[j], h, t, h[q - 1].rev) ::
        Knows(Overlay(Overlay(shown[j], h[snapshots[j].0..t], fmt), h[q..], fmt), i, fmt)
  {
    hide LastWord, Informed, Overlay, Knows, ConsecutiveRevs, PatchCount;
    forall j, t: nat | 0 <= j < |snapshots| && ClientAt(snapshots[j], h, t, h[q - 1].rev)
      ensures Knows(Overlay(Overlay(shown[j], h[snapshots[j].0..t], fmt), h[q..], fmt), i, fmt)
    {
      NotAhead(h, t, q);
      ResumedKnows(snapshots[j].0, shown[j], h, t, q, i, fmt);
    }
  }

  /** A client at a revision has the patch event of that revision. */
  lemma NotAhead(h: seq<Frame>, t: nat, q: nat)
    requires ConsecutiveRevs(h) && t <= |h| && 1 <= q <= |h| && h[q - 1].PatchFrame? && h[q - 1].rev == 1 + PatchCount(h[..t])
    ensures q <= t
  {
    hide PatchCount;
    if q > t {
      assert h[..q - 1] == h[..t] + h[t..q - 1];
      PatchCountConcat(h[..t], h[t..q - 1]);
      assert false;
    }
  }

  /** Revision 0 is no revision, yet `Last-Event-ID: 0` is answered as a resume once a status event
      is in the ring: a client without any state then gets no snapshot. */
  method ResumeFromZero(fmt: real -> string) returns (hub: Hub, resumed: bool, frames: seq<Frame>)
    requires PrintsNumbers(fmt)
    ensures hub.Valid() && hub.rev == 1 && resumed && frames == []
  {
    hide UniqueKeys, NoNum, PatchCount, RevCount, ConsecutiveRevs, AllConverged, MergeDiff, Dump, TextsOf, PatchRevs,
         Replay, Trim, Log, NewFrames, AllInformed, Knows, Overlay, Snapshot, Followed;
    Scalars();
    hub := new Hub(256, fmt);
    var first := Inputs(Null, Null, Null, Null, Null, true, true);
    hub.Submit(first);
    var _ := hub.Process();
    hub.Submit(first.(updateSafe := false));
    OnlySafety(first, hub.rev, fmt);
    var _ := hub.Process();
    assert hub.history == [StatusFrame([Member("update_safe", Bool(false))])];
    OneStatus(hub.history);
    NothingDropped(hub);
    assert FrameRev(hub.history[0]) == 0;
    var newest;
    resumed, frames, newest := Resume(hub, 0);
  }

  lemma OnlySafety(a: Inputs, rev: nat, fmt: real -> string)
    requires a.updateSafe
    ensures NewFrames(a, a.(updateSafe := false), rev, fmt) == [StatusFrame([Member("update_safe", Bool(false))])]
  {
    hide Dump;
    assert ChangedParts(a, a.(updateSafe := false), fmt) == [Member("update_safe", Bool(false))];
  }

  lemma OneStatus(h: seq<Frame>)
    ensures |h| == 1 && h[0].StatusFrame? ==> PatchCount(h) == 0
  {}

  /** Up to `cap` events the ring holds the whole history. */
  lemma NothingDropped(hub: Hub)
    requires hub.RingValid() && |hub.history| <= hub.cap
    ensures hub.oldestDropped == 0
  {
    RevCountBound(Log(hub.history));
    TrimKeep(Log(hub.history), hub.cap);
  }

  lemma {:induction false} RevCountBound(es: seq<Event>)
    ensures RevCount(es) <= |es|
  {
    if es != [] { RevCountBound(es[1..]); }
  }
}
