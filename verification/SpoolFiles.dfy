/** The spool with its two files: `meta.json`, replaced as a whole, and `stream.log`, appended to and
    now and then rewritten. What a restart finds after a crash at any write. */
module SpoolFiles {
  import opened Basics
  import opened JsonValue
  import opened JsonText
  import Envelope
  import opened Spool
  import opened SpoolLaws

  datatype Meta = Meta(streamId: string, nextSeq: int, acked: int, rxSeq: int, gap: bool)

  /** A line of the log: a record, or what a crash left of one. */
  datatype LogLine = Line(rec: Record) | Torn

  datatype Disk = Disk(meta: Option<Meta>, log: seq<LogLine>)

  // ---- loading -------------------------------------------------------------------------------

  predicate Readable(line: LogLine, prev: int) { line.Line? && line.rec.seqNo > prev && line.rec.kind != "" }

  /** The records of a log, in order; unreadable lines are skipped. */
  function LoadRecords(log: seq<LogLine>, prev: int): seq<Record> {
    if log == [] then []
    else if Readable(log[0], prev) then [log[0].rec] + LoadRecords(log[1..], log[0].rec.seqNo)
    else LoadRecords(log[1..], prev)
  }

  predicate HasUnreadable(log: seq<LogLine>, prev: int) {
    log != [] && (!Readable(log[0], prev) || HasUnreadable(log[1..], log[0].rec.seqNo))
  }

  /** The state a restart begins with. */
  function Recover(d: Disk, freshId: string): State {
    var loaded := LoadRecords(d.log, 0);
    var haveMeta := d.meta.Some? && d.meta.value.streamId != "";
    var acked := if haveMeta then Max(0, d.meta.value.acked) else 0;
    var recs := After(loaded, acked);
    var next := if haveMeta then Max(1, d.meta.value.nextSeq) else 1;
    var last := if loaded == [] then 0 else loaded[|loaded| - 1].seqNo;
    State(recs, Total(recs),
          if recs != [] || !haveMeta then Max(next, last + 1) else next,
          acked,
          if haveMeta then Max(0, d.meta.value.rxSeq) else 0,
          if haveMeta then d.meta.value.gap || HasUnreadable(d.log, 0) else loaded != [],
          if haveMeta then d.meta.value.streamId else freshId,
          0)
  }

  // ---- writing -------------------------------------------------------------------------------

  function MetaOf(s: State): Meta { Meta(s.streamId, s.nextSeq, s.acked, s.rxSeq, s.gap) }

  function Lines(recs: seq<Record>): (r: seq<LogLine>)
    ensures |r| == |recs|
  {
    if recs == [] then [] else Lines(recs[..|recs| - 1]) + [Line(recs[|recs| - 1])]
  }

  function RecordHead(r: Record): string {
    "{\"seq\":" + PrintInt(r.seqNo) +
    Envelope.Part(true, "type", Quote(r.kind)) +
    Envelope.Part(true, "id", Quote(r.id)) +
    Envelope.Part(r.ref != "", "ref", Quote(r.ref)) +
    Envelope.Part(true, "ts", PrintInt(r.ts)) +
    Envelope.Part(true, "epoch", PrintInt(r.epoch)) +
    Envelope.Part(true, "crit", if r.critical then "true" else "false") +
    Envelope.Key("payload")
  }

  /** A record's line in the log file. */
  function RecordLine(r: Record): string { RecordHead(r) + r.payload + "}" + "\n" }

  function LogBytes(recs: seq<Record>): nat {
    if recs == [] then 0 else |RecordLine(recs[0])| + LogBytes(recs[1..])
  }

  // ---- what the files must hold --------------------------------------------------------------

  /** Every record has a type (the log reader skips records without one). */
  predicate Named(recs: seq<Record>) { forall i | 0 <= i < |recs| :: recs[i].kind != "" }

  predicate EndsWith(all: seq<Record>, recs: seq<Record>) {
    |recs| <= |all| && all[|all| - |recs|..] == recs
  }

  /** The log holds records `all`, numbered without a hole up to the newest; the unacknowledged ones
      are its end. The meta file may be behind, but never behind the start of the log. */
  ghost predicate Follows(d: Disk, s: State, all: seq<Record>) {
    && d.meta.Some?
    && d.log == Lines(all) && Named(all)
    && EndsWith(all, s.recs)
    && Contiguous(all, s.nextSeq - |all|)
    && var m := d.meta.value;
       && m.streamId == s.streamId != ""
       && 0 <= m.acked <= s.acked && m.acked < m.nextSeq <= s.nextSeq
       && 1 <= s.nextSeq - |all| <= m.acked + 1
       && |s.recs| == s.nextSeq - 1 - s.acked
       && (all == [] ==> m.nextSeq == s.nextSeq && m.acked == s.acked)
  }

  /** Numbered from the acknowledged mark to the newest without a hole. */
  predicate Gapless(s: State) {
    Contiguous(s.recs, s.acked + 1) && |s.recs| == s.nextSeq - 1 - s.acked
  }

  /** A restart finds every unacknowledged record, in order and under its number, after at most some
      already acknowledged ones, and gives out no number twice. */
  ghost predicate Recovers(d: Disk, s: State, freshId: string) {
    var r := Recover(d, freshId);
    && Inv(r) && Gapless(r)
    && r.nextSeq == s.nextSeq && r.streamId == s.streamId && r.acked <= s.acked
    && EndsWith(r.recs, s.recs)
    && forall i | 0 <= i < |r.recs| - |s.recs| :: r.recs[i].seqNo <= s.acked
  }

  // ---- from the files back to the state ------------------------------------------------------

  lemma {:induction false} LinesAt(recs: seq<Record>)
    ensures forall i | 0 <= i < |recs| :: Lines(recs)[i] == Line(recs[i])
  {
    if recs != [] { LinesAt(recs[..|recs| - 1]); }
  }

  lemma LinesPush(recs: seq<Record>, r: Record)
    ensures Lines(recs + [r]) == Lines(recs) + [Line(r)]
  {
    assert (recs + [r])[..|recs|] == recs;
  }

  /** A log of records in order is read back whole; a torn tail is noticed and skipped. */
  lemma {:induction false} LoadAll(log: seq<LogLine>, recs: seq<Record>, prev: int, torn: bool)
    requires |log| == |recs| + (if torn then 1 else 0)
    requires forall i | 0 <= i < |recs| :: log[i] == Line(recs[i]) && recs[i].kind != ""
    requires torn ==> log[|recs|] == Torn
    requires Increasing(recs) && (recs != [] ==> prev < recs[0].seqNo)
    ensures LoadRecords(log, prev) == recs && HasUnreadable(log, prev) == torn
    decreases |recs|
  {
    if recs != [] {
      LoadAll(log[1..], recs[1..], recs[0].seqNo, torn);
    } else if torn {
      assert log[1..] == [];
    }
  }

  lemma ContiguousIncreases(recs: seq<Record>, first: int)
    requires Contiguous(recs, first)
    ensures Increasing(recs)
  {}

  /** The records after `acked` of a log without a hole. */
  lemma AfterContiguous(all: seq<Record>, first: int, acked: int)
    requires Contiguous(all, first) && first <= acked + 1
    ensures var k := if acked + 1 - first < |all| then acked + 1 - first else |all|;
            After(all, acked) == all[k..]
  {
    ContiguousIncreases(all, first);
    var j := AfterSuffix(all, acked);
    var k := if acked + 1 - first < |all| then acked + 1 - first else |all|;
    assert k < |all| ==> all[k].seqNo == acked + 1;
    assert k > 0 ==> all[k - 1].seqNo <= acked;
  }

  /** What a restart computes from files that follow the state. */
  lemma RecoverForm(d: Disk, s: State, all: seq<Record>, torn: bool, freshId: string) returns (k: nat)
    requires Follows(d, s, all)
    ensures k <= |all| && (k == |all| || all[k].seqNo == d.meta.value.acked + 1)
    ensures k == |all| ==> d.meta.value.acked == s.nextSeq - 1
    ensures var r := Recover(if torn then d.(log := d.log + [Torn]) else d, freshId);
      && r.recs == all[k..] && r.bytes == Total(all[k..]) && r.acked == d.meta.value.acked
      && r.nextSeq == s.nextSeq && r.streamId == s.streamId && r.gap == (d.meta.value.gap || torn)
  {
    hide After, LoadRecords, HasUnreadable, Total, Increasing, Recover;
    var e := if torn then d.(log := d.log + [Torn]) else d;
    var first, m := s.nextSeq - |all|, d.meta.value;
    ReadBack(all, first, torn);
    assert e.log == if torn then Lines(all) + [Torn] else Lines(all);
    hide Lines;
    AfterContiguous(all, first, m.acked);
    k := if m.acked + 1 - first < |all| then m.acked + 1 - first else |all|;
    assert all != [] ==> all[|all| - 1].seqNo == s.nextSeq - 1;
    RecoverLoaded(e, all, torn, freshId);
  }

  /** The log of contiguous records is read back whole. */
  lemma ReadBack(all: seq<Record>, first: int, torn: bool)
    requires Contiguous(all, first) && first >= 1 && Named(all)
    ensures var log := if torn then Lines(all) + [Torn] else Lines(all);
            LoadRecords(log, 0) == all && HasUnreadable(log, 0) == torn
  {
    LinesAt(all);
    ContiguousIncreases(all, first);
    LoadAll(if torn then Lines(all) + [Torn] else Lines(all), all, 0, torn);
  }

  lemma RecoverLoaded(e: Disk, all: seq<Record>, torn: bool, freshId: string)
    requires e.meta.Some? && e.meta.value.streamId != "" && e.meta.value.acked >= 0 && e.meta.value.nextSeq >= 1
    requires LoadRecords(e.log, 0) == all && HasUnreadable(e.log, 0) == torn
    ensures var r, m := Recover(e, freshId), e.meta.value;
      && r.recs == After(all, m.acked) && r.bytes == Total(r.recs) && r.acked == m.acked
      && r.streamId == m.streamId && r.gap == (m.gap || torn)
      && r.nextSeq == if r.recs == [] then m.nextSeq else Max(m.nextSeq, all[|all| - 1].seqNo + 1)
  {
    assert After(all, e.meta.value.acked) != [] ==> all != [];
    hide After, LoadRecords, HasUnreadable, Total;
  }

  /** The end of a hole-free log, from the acknowledged mark on, is a sound spool. */
  lemma SuffixSound(all: seq<Record>, r: State, k: nat)
    requires Contiguous(all, r.nextSeq - |all|) && 1 <= r.nextSeq - |all| <= r.acked + 1 && 0 <= r.acked < r.nextSeq
    requires k <= |all| && r.recs == all[k..] && r.bytes == Total(r.recs) && k == r.acked + 1 - (r.nextSeq - |all|)
    ensures Inv(r) && Gapless(r)
  {
    hide Total;
    forall i | 0 <= i < |r.recs| ensures r.recs[i].seqNo == r.acked + 1 + i { assert r.recs[i] == all[k + i]; }
  }

  /** It ends with the unacknowledged records; before them are only acknowledged ones. */
  lemma SuffixEnds(all: seq<Record>, recs: seq<Record>, k: nat, next: int, acked: int)
    requires Contiguous(all, next - |all|) && EndsWith(all, recs) && |recs| == next - 1 - acked && k <= |all| - |recs|
    ensures EndsWith(all[k..], recs) && forall i | 0 <= i < |all[k..]| - |recs| :: all[k..][i].seqNo <= acked
  {
    var n := |all| - |recs|;
    assert all[k..][n - k..] == all[n..];
  }

  /** Files that follow the state recover it, with or without a torn last line. */
  lemma FollowsRecovers(d: Disk, s: State, all: seq<Record>, torn: bool, freshId: string)
    requires Follows(d, s, all)
    ensures Recovers(if torn then d.(log := d.log + [Torn]) else d, s, freshId)
    ensures Recover(if torn then d.(log := d.log + [Torn]) else d, freshId).gap == (d.meta.value.gap || torn)
  {
    hide Recover, Lines, Total, EndsWith, Inv, Gapless, Named;
    var k := RecoverForm(d, s, all, torn, freshId);
    var r := Recover(if torn then d.(log := d.log + [Torn]) else d, freshId);
    assert k == r.acked + 1 - (r.nextSeq - |all|);
    SuffixLength(all, s.recs);
    SuffixSound(all, r, k);
    SuffixEnds(all, s.recs, k, s.nextSeq, s.acked);
  }

  lemma SuffixLength(all: seq<Record>, recs: seq<Record>)
    requires EndsWith(all, recs)
    ensures |recs| <= |all|
  {}

  // ---- the class -----------------------------------------------------------------------------

  class Store {
    var limits: Limits
    var recs: seq<Record>
    var bytes: nat
    var nextSeq: int
    var acked: int
    var rxSeq: int
    var gap: bool
    var streamId: string
    var dropped: nat
    var metaDirty: bool
    var lastFlushMs: int
    var logBytes: nat
    /** The two files. */
    var disk: Disk
    /** The records in the log file. */
    ghost var all: seq<Record>
    /** No record was dropped since the files were last in step: they follow the memory. */
    ghost var intact: bool

    /** Not open yet; `disk` is what the directory holds. */
    constructor (disk: Disk)
      ensures this.disk == disk && !intact
    {
      this.disk, limits := disk, Limits(50000, 0x400_0000);
      recs, bytes, nextSeq, acked, rxSeq, gap, streamId, dropped := [], 0, 1, 0, 0, false, "", 0;
      metaDirty, lastFlushMs, logBytes, all, intact := false, 0, 0, [], false;
    }

    function Mem(): State
      reads this
    {
      State(recs, bytes, nextSeq, acked, rxSeq, gap, streamId, dropped)
    }

    /** The memory is numbered, the meta file makes sense, and the log ends with the memory's records.
        Whether the gap flag is sound is another matter: see `GapSound`. */
    ghost predicate Base()
      reads this
    {
      && Core(Mem()) && Named(recs)
      && streamId != "" && SaneMeta(disk.meta)
      && disk.log == Lines(all) && EndsWith(all, recs)
    }

    ghost predicate Valid()
      reads this
    {
      Base() && (intact ==> Follows(disk, Mem(), all))
    }

    /** Loads the files (or starts a new stream) and writes them back. `images`: the files a crash during
        the call may leave, apart from those it found. */
    method Open(lim: Limits, freshId: string) returns (ghost images: seq<Disk>)
      requires freshId != ""
      modifies this
      ensures limits == lim && Mem() == Recover(old(disk), freshId)
      ensures disk == Disk(Some(MetaOf(Mem())), Lines(recs))
      ensures Plausible(old(disk).meta) ==> Valid()
      ensures intact <==> Inv(Mem()) && Gapless(Mem())
      ensures images == [old(disk).(log := Lines(recs)), disk]
      ensures intact && SaneMeta(old(disk).meta) ==> forall i | 0 <= i < |images| :: Recovers(images[i], Mem(), "")
      ensures !Usable(old(disk).meta) ==> forall id | id != "" :: Recover(images[0], id) == Mem().(streamId := id)
    {
      hide Core, GapSound, Lines, Gapless, Recover, Follows, Named, EndsWith, Recovers, Plausible;
      limits := lim;
      Load(freshId);
      Rewrite();
      images := [disk];
      FlushMeta();
      images := images + [disk];
      Whole(recs);
      intact := Inv(Mem()) && Gapless(Mem());
      if Plausible(old(disk).meta) { RecoverCore(old(disk), freshId); }
      if Core(Mem()) { CoreMeta(Mem()); }
      if intact { OpenImages(old(disk), Mem(), freshId); }
      if !Usable(old(disk).meta) { OpenFresh(old(disk), Mem(), freshId); }
    }

    method Load(freshId: string)
      requires freshId != ""
      modifies `recs, `bytes, `nextSeq, `acked, `rxSeq, `gap, `streamId, `dropped
      ensures Mem() == Recover(disk, freshId) && Named(recs) && streamId != ""
    {
      hide Total, After, LoadRecords, HasUnreadable, Named;
      dropped := 0;
      var haveMeta := LoadMeta();
      var loaded, size, bad := ReadLog(disk.log);
      recs, bytes := loaded, size;
      if bad { gap := true; }
      if !haveMeta {
        streamId, acked, rxSeq := freshId, 0, 0;
        nextSeq := if recs == [] then 1 else recs[|recs| - 1].seqNo + 1;
        gap := recs != [];
      }
      PopAcked();
      AfterLast(loaded, acked);
      NamedAfter(loaded, acked);
      if !haveMeta { AfterPositive(disk.log, 0); }
      if recs != [] && recs[|recs| - 1].seqNo >= nextSeq { nextSeq := recs[|recs| - 1].seqNo + 1; }
    }

    method LoadMeta() returns (ok: bool)
      modifies `streamId, `nextSeq, `acked, `rxSeq, `gap
      ensures ok <==> disk.meta.Some? && disk.meta.value.streamId != ""
      ensures ok ==> var m := disk.meta.value;
        && streamId == m.streamId && nextSeq == Max(1, m.nextSeq) && acked == Max(0, m.acked)
        && rxSeq == Max(0, m.rxSeq) && gap == m.gap
    {
      if disk.meta.None? { return false; }
      var m := disk.meta.value;
      streamId, gap := m.streamId, m.gap;
      nextSeq, acked, rxSeq := Max(1, m.nextSeq), Max(0, m.acked), Max(0, m.rxSeq);
      return streamId != "";
    }

    method FlushMeta()
      modifies `disk, `metaDirty
      ensures disk == old(disk).(meta := Some(MetaOf(Mem()))) && (old(Valid()) ==> Valid())
    {
      hide Core, Follows, Lines, EndsWith, Named;
      if Valid() { CoreMeta(Mem()); }
      if Valid() && intact { FollowsFlush(disk, Mem(), all); }
      disk := disk.(meta := Some(Meta(streamId, nextSeq, acked, rxSeq, gap)));
      metaDirty := false;
    }

    method MaybeFlush(nowMs: int)
      modifies `disk, `metaDirty, `lastFlushMs
      ensures disk == if old(metaDirty) && nowMs - old(lastFlushMs) >= 1000
        then old(disk).(meta := Some(MetaOf(Mem()))) else old(disk)
      ensures old(Valid()) ==> Valid()
    {
      if !metaDirty || nowMs - lastFlushMs < 1000 { return; }
      lastFlushMs := nowMs;
      FlushMeta();
    }

    /** Replaces the log by the records in memory. */
    method Rewrite()
      modifies `disk, `logBytes, `all
      ensures all == recs && disk == old(disk).(log := Lines(recs))
    {
      hide RecordLine;
      var data: seq<LogLine> := [];
      logBytes := 0;
      for i := 0 to |recs|
        invariant data == Lines(recs[..i]) && unchanged(`disk, `all)
      {
        assert recs[..i + 1][..i] == recs[..i];
        data := data + [Line(recs[i])];
        logBytes := logBytes + |RecordLine(recs[i])|;
      }
      assert recs[..|recs|] == recs;
      disk := disk.(log := data);
      all := recs;
    }

    method AppendLine(r: Record)
      requires disk.log == Lines(all)
      modifies `disk, `logBytes, `all
      ensures all == old(all) + [r] && disk == old(disk).(log := Lines(all))
    {
      hide RecordLine;
      LinesPush(all, r);
      disk := disk.(log := disk.log + [Line(r)]);
      all := all + [r];
      logBytes := logBytes + |RecordLine(r)|;
    }

    /** Drops the oldest compactable record, if there is one. */
    method DropOneCompactable() returns (ok: bool)
      requires bytes == Total(recs)
      modifies `recs, `bytes, `dropped, `gap, `metaDirty
      ensures ok <==> HasCompactable(old(recs))
      ensures recs == DropOldest(old(recs)) && bytes == Total(recs)
      ensures gap == (old(gap) || ok) && dropped == old(dropped) + (if ok then 1 else 0)
    {
      hide Total, DropOldest;
      for i := 0 to |recs|
        invariant unchanged(this) && AllCritical(recs[..i])
      {
        if !recs[i].critical {
          DropAt(recs, i);
          bytes := bytes - Size(recs[i]);
          recs := recs[..i] + recs[i + 1..];
          dropped, gap, metaDirty := dropped + 1, true, true;
          return true;
        }
      }
      assert recs[..|recs|] == recs;
      return false;
    }

    /** Makes room for `add` bytes; reports whether anything was dropped. */
    method Compact(add: nat) returns (droppedAny: bool)
      requires bytes == Total(recs)
      modifies `recs, `bytes, `dropped, `gap, `metaDirty
      ensures recs == Kept(old(recs), add, limits) && bytes == Total(recs)
      ensures droppedAny <==> |recs| < |old(recs)|
      ensures |recs| <= |old(recs)| && dropped == old(dropped) + |old(recs)| - |recs|
      ensures gap == (old(gap) || droppedAny)
    {
      hide Total, DropOldest, Over, Crowded;
      droppedAny := false;
      ghost var start := recs;
      while Over(|recs|, bytes, add, limits, 1.0)
        invariant bytes == Total(recs) && limits == old(limits)
        invariant MakeRoom(recs, add, limits) == MakeRoom(start, add, limits)
        invariant |recs| <= |start| && dropped == old(dropped) + |start| - |recs|
        invariant (droppedAny <==> |recs| < |start|) && gap == (old(gap) || droppedAny)
        invariant !droppedAny ==> recs == start
        decreases |recs|
      {
        ghost var before := recs;
        var more := DropOneCompactable();
        DropLength(before);
        if !more { break; }
        droppedAny := true;
      }
      assert recs == MakeRoom(start, add, limits);
      if droppedAny {
        ghost var room := recs;
        while Crowded(|recs|, bytes, limits)
          invariant bytes == Total(recs) && limits == old(limits)
          invariant Ease(recs, limits) == Ease(room, limits)
          invariant |recs| <= |room| && dropped == old(dropped) + |start| - |recs| && gap
          decreases |recs|
        {
          ghost var before := recs;
          var more := DropOneCompactable();
          DropLength(before);
          if !more { break; }
        }
        assert recs == Ease(room, limits);
      }
    }

    /** Numbers and stores a message, or refuses it. `images`: the files a crash during the call may
        leave when nothing has to be dropped (the line may be torn). */
    method Append(m: Message) returns (seqNo: int, ghost images: seq<Disk>)
      requires Valid() && m.kind != ""
      modifies this
      ensures Valid() && limits == old(limits)
      ensures (Mem(), seqNo) == Spool.Append(old(Mem()), m, limits)
      ensures disk == Written(old(disk), old(Mem()), old(all), m, limits)
      ensures intact <==> old(intact) && !MustDrop(old(Mem()), m, limits)
      ensures images == [old(disk), old(disk).(log := old(disk).log + [Torn]), disk]
      ensures intact ==> forall i | 0 <= i < |images| ::
        Recovers(images[i], old(Mem()), "") || Recovers(images[i], Mem(), "")
    {
      hide Core, Follows, Kept, Lines, Total, Over, IsCritical, Recovers, Spool.Append, EndsWith, Named, MakeRecord, Size,
           HasCompactable;
      ghost var before, log := Mem(), all;
      AppendForms(before, m, limits);
      DropGuard(before, m, limits);
      Positive(before);
      var droppedAny;
      seqNo, droppedAny := AppendRecord(m);
      intact := intact && !droppedAny;
      images := [old(disk), old(disk).(log := old(disk).log + [Torn]), disk];
      if intact { var _ := CrashImages(old(disk), before, log, m, disk, Mem(), all); }
    }

    method AppendRecord(m: Message) returns (seqNo: int, droppedAny: bool)
      requires Base() && m.kind != ""
      modifies `recs, `bytes, `nextSeq, `gap, `dropped, `metaDirty, `disk, `logBytes, `all
      ensures Base() && disk.meta == old(disk).meta
      ensures (Mem(), seqNo) == Spool.Append(old(Mem()), m, limits)
      ensures droppedAny <==> |Kept(old(recs), Size(MakeRecord(m, old(nextSeq))), limits)| != |old(recs)|
      ensures !droppedAny && nextSeq == old(nextSeq) ==> disk == old(disk) && all == old(all)
      ensures !droppedAny && nextSeq != old(nextSeq) ==> all == old(all) + [MakeRecord(m, old(nextSeq))] && disk.log == Lines(all)
      ensures droppedAny ==> disk.log == Lines(recs)
    {
      hide Core, Kept, Lines, Total, Over, IsCritical, Spool.Append, EndsWith, Named, MakeRecord, Size;
      ghost var before := Mem();
      BytesOf(before);
      AppendKeeps(before, m, limits);
      AppendForms(before, m, limits);
      NamedAppend(before, m, limits);
      var r := MakeRecord(m, nextSeq);
      droppedAny := Compact(Size(r));
      if Over(|recs|, bytes, Size(r), limits, 1.0) && (!r.critical || Over(|recs|, bytes, Size(r), limits, 2.0)) {
        Refuse(droppedAny);
        seqNo := 0;
      } else {
        Push(r, droppedAny);
        seqNo := nextSeq - 1;
      }
    }

    method Refuse(droppedAny: bool)
      requires disk.log == Lines(all) && (droppedAny || EndsWith(all, recs))
      modifies `gap, `metaDirty, `dropped, `disk, `logBytes, `all
      ensures gap && dropped == old(dropped) + 1 && disk.meta == old(disk).meta
      ensures disk.log == Lines(all) && EndsWith(all, recs)
      ensures !droppedAny ==> disk == old(disk) && all == old(all)
      ensures droppedAny ==> disk.log == Lines(recs)
    {
      gap, metaDirty, dropped := true, true, dropped + 1;
      if droppedAny { Rewrite(); }
    }

    method Push(r: Record, droppedAny: bool)
      requires disk.log == Lines(all) && (droppedAny || EndsWith(all, recs))
      modifies `recs, `bytes, `nextSeq, `metaDirty, `disk, `logBytes, `all
      ensures recs == old(recs) + [r] && bytes == old(bytes) + Size(r) && nextSeq == old(nextSeq) + 1
      ensures disk == old(disk).(log := Lines(all))
      ensures EndsWith(all, recs)
      ensures !droppedAny ==> all == old(all) + [r]
      ensures droppedAny ==> disk.log == Lines(recs)
    {
      hide Lines;
      nextSeq, metaDirty, bytes, recs := nextSeq + 1, true, bytes + Size(r), recs + [r];
      if droppedAny {
        Rewrite();
        Whole(recs);
      } else {
        SuffixPush(all, old(recs), r);
        AppendLine(r);
      }
    }

    /** The platform has everything up to `n`. The log is shortened when it has become mostly waste;
        `images`: the files a crash during the call may leave. */
    method AckUpTo(n: int) returns (ghost images: seq<Disk>)
      requires Valid()
      modifies this
      ensures Valid() && Mem() == Ack(old(Mem()), n) && intact == old(intact) && limits == old(limits)
      ensures if n > old(acked) && Wasteful(old(logBytes), recs, bytes)
        then disk == Disk(Some(MetaOf(Mem())), Lines(recs)) && images == [old(disk), old(disk).(meta := Some(MetaOf(Mem()))), disk]
        else disk == old(disk) && images == [disk]
      ensures intact ==> forall i | 0 <= i < |images| :: Recovers(images[i], Mem(), "")
      ensures n > old(acked) ==>
        || disk.log == Lines(recs)
        || ((recs == [] ==> logBytes <= 65536) && (logBytes <= 1048576 || logBytes <= 2 * bytes + 1048576))
      ensures disk != old(disk) ==> (recs == [] && old(logBytes) > 65536) || old(logBytes) > 2 * bytes + 1048576
    {
      hide Core, Follows, Lines, Total, Recovers, EndsWith, After, Named;
      ghost var before := Mem();
      BytesOf(before);
      AckKeeps(before, n, limits);
      AckSuffix(all, before, n);
      NamedAck(before, n, limits);
      if intact { FollowsAck(disk, before, all, n); }
      var advances := n > acked;
      if advances {
        acked, metaDirty := Min(n, nextSeq - 1), true;
        PopAcked();
      }
      assert Mem() == Ack(before, n);
      hide Ack;
      if advances && Wasteful(logBytes, recs, bytes) {
        images := Shrink();
      } else {
        images := [disk];
        if intact { FollowsRecovers(disk, Mem(), all, false, ""); }
      }
    }

    /** Meta file first, then the log without the acknowledged records: a crash between the two only
        brings acknowledged records back. */
    method Shrink() returns (ghost images: seq<Disk>)
      requires Valid()
      modifies `disk, `metaDirty, `logBytes, `all
      ensures Valid() && disk == Disk(Some(MetaOf(Mem())), Lines(recs))
      ensures images == [old(disk), old(disk).(meta := Some(MetaOf(Mem()))), disk]
      ensures intact ==> forall i | 0 <= i < |images| :: Recovers(images[i], Mem(), "")
    {
      hide Core, Follows, Lines, Recovers, EndsWith, Named;
      ghost var log := all;
      if intact { var _ := ShrinkImages(disk, Mem(), log); }
      images := [disk];
      FlushMeta();
      images := images + [disk];
      Rewrite();
      images := images + [disk];
      Whole(recs);
    }

    method PopAcked()
      requires bytes == Total(recs)
      modifies `recs, `bytes
      ensures recs == After(old(recs), acked) && bytes == Total(recs)
    {
      while recs != [] && recs[0].seqNo <= acked
        invariant After(recs, acked) == After(old(recs), acked) && bytes == Total(recs)
        decreases |recs|
      {
        bytes := bytes - Size(recs[0]);
        recs := recs[1..];
      }
    }

    method SetRxSeq(n: int)
      requires Valid()
      modifies this
      ensures Valid() && Mem() == old(Mem()).(rxSeq := n) && intact == old(intact) && disk == old(disk)
      ensures limits == old(limits)
    {
      hide Core, GapSound, Follows, Lines, EndsWith, Named;
      if n == rxSeq { return; }
      RxKeeps(Mem(), n);
      rxSeq, metaDirty := n, true;
      if intact { FollowsFlags(disk, old(Mem()), Mem(), all); }
    }

    /** Starts a new stream if something was lost. */
    method RotateIfGap(freshId: string) returns (rotated: bool, ghost between: Disk)
      requires Valid() && freshId != ""
      modifies this
      ensures Valid() && Mem() == Rotate(old(Mem()), freshId) && rotated == old(gap) && limits == old(limits)
      ensures rotated ==> intact && between == Disk(Some(MetaOf(Mem())), old(disk).log)
      ensures rotated ==> disk == Disk(Some(MetaOf(Mem())), Lines(recs))
      ensures !rotated ==> intact == old(intact) && disk == old(disk)
    {
      hide Core, GapSound, Follows, Lines, EndsWith, Named, Renumber, Rotate, Gapless;
      between := disk;
      ghost var before := Mem();
      RotateForms(before, freshId, limits);
      if !gap { return false, between; }
      var renumbered, s := RenumberAll(recs);
      recs, streamId, nextSeq, acked, gap, metaDirty := renumbered, freshId, s + 1, 0, false, true;
      assert Mem() == Rotate(before, freshId);
      FlushMeta();
      between := disk;
      Rewrite();
      Whole(recs);
      FreshFollows(disk, Mem());
      intact := true;
      return true, between;
    }
  }

  /** The readable records of a log file, their size, and whether a line had to be skipped. */
  method ReadLog(log: seq<LogLine>) returns (recs: seq<Record>, bytes: nat, bad: bool)
    ensures recs == LoadRecords(log, 0) && bytes == Total(recs) && bad == HasUnreadable(log, 0) && Named(recs)
  {
    hide Total, Size;
    recs, bytes, bad := [], 0, false;
    NoBytes();
    var prev := 0;
    assert log[0..] == log && [] + LoadRecords(log, 0) == LoadRecords(log, 0);
    for i := 0 to |log|
      invariant recs + LoadRecords(log[i..], prev) == LoadRecords(log, 0)
      invariant bad || (HasUnreadable(log[i..], prev) == HasUnreadable(log, 0))
      invariant bad ==> HasUnreadable(log, 0)
      invariant bytes == Total(recs) && Named(recs)
    {
      LoadStep(log, i, prev, recs);
      if log[i].Line? && log[i].rec.seqNo > prev && log[i].rec.kind != "" {
        TotalPush(recs, log[i].rec);
        bytes := bytes + Size(log[i].rec);
        recs := recs + [log[i].rec];
        prev := log[i].rec.seqNo;
      } else {
        bad := true;
      }
      hide LoadRecords, HasUnreadable;
    }
    assert log[|log|..] == [] && recs + [] == recs;
  }

  lemma LoadStep(log: seq<LogLine>, i: nat, prev: int, recs: seq<Record>)
    requires i < |log|
    ensures Readable(log[i], prev) ==>
      && recs + LoadRecords(log[i..], prev) == (recs + [log[i].rec]) + LoadRecords(log[i + 1..], log[i].rec.seqNo)
      && HasUnreadable(log[i..], prev) == HasUnreadable(log[i + 1..], log[i].rec.seqNo)
    ensures !Readable(log[i], prev) ==>
      LoadRecords(log[i..], prev) == LoadRecords(log[i + 1..], prev) && HasUnreadable(log[i..], prev)
  {
    assert log[i..][0] == log[i] && log[i..][1..] == log[i + 1..];
  }

  /** Numbers in a log are positive, so nothing in it counts as acknowledged at 0. */
  lemma {:induction false} AfterPositive(log: seq<LogLine>, prev: int)
    requires prev >= 0
    ensures var r := LoadRecords(log, prev);
      After(r, 0) == r && (r != [] ==> r[|r| - 1].seqNo > 0)
  {
    if log != [] {
      if Readable(log[0], prev) { AfterPositive(log[1..], log[0].rec.seqNo); } else { AfterPositive(log[1..], prev); }
    }
  }

  method RenumberAll(recs: seq<Record>) returns (r: seq<Record>, s: int)
    ensures r == Renumber(recs, 1) && s == |recs|
  {
    r, s := [], 0;
    for i := 0 to |recs|
      invariant s == i && r == Renumber(recs[..i], 1)
    {
      s := s + 1;
      assert recs[..i + 1] == recs[..i] + [recs[i]];
      RenumberPush(recs[..i], recs[i], 1);
      r := r + [recs[i].(seqNo := s)];
    }
    assert recs[..|recs|] == recs;
  }

  lemma DropLength(recs: seq<Record>)
    ensures HasCompactable(recs) ==> |DropOldest(recs)| == |recs| - 1
  {}

  /** The two outcomes of appending. */
  lemma AppendForms(s: State, m: Message, lim: Limits)
    ensures var r := MakeRecord(m, s.nextSeq);
      var kept := Kept(s.recs, Size(r), lim);
      && |kept| <= |s.recs| && (|kept| == |s.recs| ==> kept == s.recs)
      && var lost := |s.recs| - |kept|;
      Spool.Append(s, m, lim) ==
        if Over(|kept|, Total(kept), Size(r), lim, 1.0) && (!r.critical || Over(|kept|, Total(kept), Size(r), lim, 2.0)) then
          (State(kept, Total(kept), s.nextSeq, s.acked, s.rxSeq, true, s.streamId, s.dropped + lost + 1), 0)
        else
          (State(kept + [r], Total(kept) + Size(r), s.nextSeq + 1, s.acked, s.rxSeq, s.gap || lost > 0, s.streamId,
                 s.dropped + lost), s.nextSeq)
  {
    hide Kept, Over, Total, IsCritical;
    KeptShorter(s.recs, Size(MakeRecord(m, s.nextSeq)), lim);
  }

  /** The files before, while and after a record is appended, or when it is refused. */
  lemma CrashImages(d: Disk, s: State, all: seq<Record>, m: Message, e: Disk, t: State, all': seq<Record>)
      returns (images: seq<Disk>)
    requires Follows(d, s, all) && m.kind != "" && t.acked == s.acked && t.streamId == s.streamId
    requires
      || (e == d && all' == all && t.recs == s.recs && t.nextSeq == s.nextSeq)
      || (all' == all + [MakeRecord(m, s.nextSeq)] && e == d.(log := Lines(all')) &&
          t.recs == s.recs + [MakeRecord(m, s.nextSeq)] && t.nextSeq == s.nextSeq + 1)
    ensures Follows(e, t, all') && images == [d, d.(log := d.log + [Torn]), e]
    ensures forall i | 0 <= i < |images| :: Recovers(images[i], s, "") || Recovers(images[i], t, "")
  {
    FollowsRecovers(d, s, all, false, "");
    FollowsRecovers(d, s, all, true, "");
    if t.nextSeq == s.nextSeq {
      FollowsFlags(d, s, t, all);
    } else {
      FollowsPush(d, s, all, MakeRecord(m, s.nextSeq), e, t);
    }
    hide Follows, Recovers, Lines;
    FollowsRecovers(e, t, all', false, "");
    images := [d, d.(log := d.log + [Torn]), e];
  }

  lemma NamedAppend(s: State, m: Message, lim: Limits)
    requires Named(s.recs) && m.kind != ""
    ensures Named(Spool.Append(s, m, lim).0.recs)
  {
    hide Kept, Over, Total, IsCritical;
    AppendForms(s, m, lim);
    var kept := Kept(s.recs, Size(MakeRecord(m, s.nextSeq)), lim);
    forall i | 0 <= i < |kept| ensures kept[i] in s.recs {
      KeptMembers(s.recs, Size(MakeRecord(m, s.nextSeq)), lim, kept[i]);
    }
  }

  lemma NamedAck(s: State, n: int, lim: Limits)
    requires Core(s) && Named(s.recs)
    ensures Named(Ack(s, n).recs)
  {
    AckKeeps(s, n, lim);
    hide Ack;
    forall i | 0 <= i < |Ack(s, n).recs| ensures Ack(s, n).recs[i].kind != "" {
      assert Ack(s, n).recs[i] in s.recs;
    }
  }

  lemma RotateForms(s: State, freshId: string, lim: Limits)
    requires Core(s) && Named(s.recs)
    ensures Core(Rotate(s, freshId)) && Named(Rotate(s, freshId).recs) && (!s.gap ==> Rotate(s, freshId) == s)
    ensures s.gap ==> Gapless(Rotate(s, freshId))
    ensures s.gap ==> Rotate(s, freshId) ==
                      State(Renumber(s.recs, 1), s.bytes, |s.recs| + 1, 0, s.rxSeq, false, freshId, s.dropped)
  {
    hide Total;
    RotateKeeps(s, freshId, lim);
    RenumberKeeps(s.recs, 1);
  }

  lemma BytesOf(s: State)
    requires Core(s)
    ensures s.bytes == Total(s.recs)
  {}

  lemma Whole(recs: seq<Record>)
    ensures EndsWith(recs, recs)
  {}

  lemma SuffixPush(all: seq<Record>, recs: seq<Record>, r: Record)
    requires EndsWith(all, recs)
    ensures EndsWith(all + [r], recs + [r])
  {}

  /** Flags, byte counts and the inbound mark do not matter to the log. */
  lemma FollowsFlags(d: Disk, s: State, t: State, all: seq<Record>)
    requires Follows(d, s, all) && t.recs == s.recs && t.nextSeq == s.nextSeq && t.acked == s.acked
    requires t.streamId == s.streamId
    ensures Follows(d, t, all)
  {}

  lemma FollowsPush(d: Disk, s: State, all: seq<Record>, r: Record, e: Disk, t: State)
    requires Follows(d, s, all) && r.seqNo == s.nextSeq && r.kind != ""
    requires e == d.(log := Lines(all + [r]))
    requires t.recs == s.recs + [r] && t.nextSeq == s.nextSeq + 1 && t.acked == s.acked && t.streamId == s.streamId
    ensures Follows(e, t, all + [r])
  {
    hide Lines;
    SuffixPush(all, s.recs, r);
  }

  lemma DropAt(recs: seq<Record>, i: nat)
    requires i < |recs| && AllCritical(recs[..i]) && !recs[i].critical
    ensures DropOldest(recs) == recs[..i] + recs[i + 1..]
    ensures Total(recs) == Total(recs[..i] + recs[i + 1..]) + Size(recs[i])
  {
    hide Total, DropOldest;
    var a, x, b := recs[..i], recs[i], recs[i + 1..];
    assert recs == a + [x] + b;
    DropAfter(a, x, b);
    hide AllCritical;
    TotalSplit(a + [x], b);
    TotalPush(a, x);
    TotalSplit(a, b);
  }

  lemma {:induction false} TotalSplit(a: seq<Record>, b: seq<Record>)
    ensures Total(a + b) == Total(a) + Total(b)
  {
    if a == [] {
      assert a + b == b;
    } else {
      assert (a + b)[1..] == a[1..] + b;
      TotalSplit(a[1..], b);
    }
  }

  /** The unacknowledged records stay the end of the log. */
  lemma AckSuffix(all: seq<Record>, s: State, n: int)
    requires Core(s) && EndsWith(all, s.recs)
    ensures EndsWith(all, Ack(s, n).recs)
  {
    if n > s.acked {
      var k := AfterSuffix(s.recs, Min(n, s.nextSeq - 1));
      var m := |all| - |s.recs|;
      assert all[m..][k..] == all[m + k..];
    }
  }

  lemma FollowsAck(d: Disk, s: State, all: seq<Record>, n: int)
    requires Core(s) && Follows(d, s, all)
    ensures Follows(d, Ack(s, n), all)
  {
    hide Lines, Total, After, EndsWith;
    AckSuffix(all, s, n);
    if n > s.acked {
      UnackedGapless(all, s);
      AckLength(s, n);
    }
  }

  lemma UnackedGapless(all: seq<Record>, s: State)
    requires EndsWith(all, s.recs) && Contiguous(all, s.nextSeq - |all|) && |s.recs| == s.nextSeq - 1 - s.acked
    ensures Gapless(s)
  {
    assert forall i | 0 <= i < |s.recs| :: s.recs[i] == all[|all| - |s.recs| + i];
  }

  lemma AckLength(s: State, n: int)
    requires Core(s) && Gapless(s)
    ensures var t := Ack(s, n); |t.recs| == t.nextSeq - 1 - t.acked
  {
    hide After, Total;
    var t := s.(gap := false);
    if n > s.acked {
      var k := AfterSuffix(s.recs, Min(n, s.nextSeq - 1));
      AckCount(t, Min(n, s.nextSeq - 1), k);
    }
  }

  /** Writing the meta file brings it up to date. */
  lemma FollowsFlush(d: Disk, s: State, all: seq<Record>)
    requires Core(s) && Follows(d, s, all)
    ensures Follows(d.(meta := Some(MetaOf(s))), s, all)
  {
    hide Lines, Total;
  }

  /** With the meta file up to date the log may shrink to the unacknowledged records. */
  lemma FollowsRewrite(d: Disk, s: State, all: seq<Record>)
    requires Core(s) && Follows(d, s, all) && d.meta == Some(MetaOf(s))
    ensures Follows(d.(log := Lines(s.recs)), s, s.recs)
  {
    hide Lines, Total;
    Whole(s.recs);
    assert forall i | 0 <= i < |s.recs| :: s.recs[i] == all[|all| - |s.recs| + i];
  }

  lemma ShrinkImages(d: Disk, s: State, all: seq<Record>) returns (images: seq<Disk>)
    requires Core(s) && Follows(d, s, all)
    ensures images == [d, d.(meta := Some(MetaOf(s))), Disk(Some(MetaOf(s)), Lines(s.recs))]
    ensures Follows(images[2], s, s.recs)
    ensures forall i | 0 <= i < |images| :: Recovers(images[i], s, "")
  {
    hide Core, Follows, Lines, Recovers;
    var e := d.(meta := Some(MetaOf(s)));
    FollowsRecovers(d, s, all, false, "");
    FollowsFlush(d, s, all);
    FollowsRecovers(e, s, all, false, "");
    FollowsRewrite(e, s, all);
    FollowsRecovers(e.(log := Lines(s.recs)), s, s.recs, false, "");
    images := [d, e, e.(log := Lines(s.recs))];
  }

  lemma {:induction false} RenumberPush(recs: seq<Record>, r: Record, from: int)
    ensures Renumber(recs + [r], from) == Renumber(recs, from) + [r.(seqNo := from + |recs|)]
  {
    if recs == [] {
      assert recs + [r] == [r];
      assert Renumber([r], from) == [r.(seqNo := from)] + Renumber([], from + 1);
    } else {
      assert (recs + [r])[1..] == recs[1..] + [r];
      RenumberPush(recs[1..], r, from + 1);
    }
  }

  /** Files just written for a gapless state. */
  lemma FreshFollows(d: Disk, s: State)
    requires Core(s) && Gapless(s) && s.streamId != "" && d == Disk(Some(MetaOf(s)), Lines(s.recs))
    requires Named(s.recs)
    ensures Follows(d, s, s.recs)
  {
    hide Lines, Total;
    Whole(s.recs);
  }

  /** A meta file the loader takes its numbers from. */
  predicate Usable(m: Option<Meta>) { m.Some? && m.value.streamId != "" }

  predicate SaneMeta(m: Option<Meta>) {
    Usable(m) && 0 <= m.value.acked < m.value.nextSeq
  }

  /** No meta file, one the loader ignores, or one whose numbers make sense after raising them to their
      floors. */
  predicate Plausible(m: Option<Meta>) {
    Usable(m) ==> Max(0, m.value.acked) < Max(1, m.value.nextSeq)
  }

  lemma CoreMeta(s: State)
    requires Core(s)
    ensures s.streamId != "" ==> SaneMeta(Some(MetaOf(s)))
  {}

  /** Numbers read from a log increase, and start above the given one. */
  lemma {:induction false} LoadedIncreasing(log: seq<LogLine>, prev: int)
    ensures var r := LoadRecords(log, prev); Increasing(r) && Named(r) && forall i | 0 <= i < |r| :: r[i].seqNo > prev
  {
    if log != [] {
      if Readable(log[0], prev) {
        LoadedIncreasing(log[1..], log[0].rec.seqNo);
      } else {
        LoadedIncreasing(log[1..], prev);
      }
    }
  }

  /** Whatever the log holds, a restart begins numbered. */
  lemma RecoverCore(d: Disk, freshId: string)
    requires Plausible(d.meta)
    ensures Core(Recover(d, freshId))
  {
    hide LoadRecords, HasUnreadable, Total, After;
    var loaded := LoadRecords(d.log, 0);
    LoadedIncreasing(d.log, 0);
    var r := Recover(d, freshId);
    AboveMark(loaded, r.acked);
    AfterLast(loaded, r.acked);
    hide Increasing;
    assert 0 <= r.acked < r.nextSeq;
  }

  /** The records after the mark increase and lie above it, up to the last. */
  lemma AboveMark(loaded: seq<Record>, acked: int)
    requires Increasing(loaded)
    ensures var r := After(loaded, acked);
      && Increasing(r) && forall i | 0 <= i < |r| :: acked < r[i].seqNo <= r[|r| - 1].seqNo
  {
    hide After;
    var k := AfterSuffix(loaded, acked);
    assert forall i | 0 <= i < |loaded[k..]| :: loaded[k..][i] == loaded[k + i];
  }

  /** Opened without a meta file to go by, and cut short before one was written: the next opening finds
      the same records and numbers. */
  lemma OpenFresh(d: Disk, s: State, freshId: string)
    requires !Usable(d.meta) && s == Recover(d, freshId)
    ensures forall id | id != "" :: Recover(d.(log := Lines(s.recs)), id) == s.(streamId := id)
  {
    LoadedIncreasing(d.log, 0);
    AfterPositive(d.log, 0);
    ReloadRecords(s.recs, 0);
    hide LoadRecords, HasUnreadable, Total, After, Lines;
  }

  /** The log is mostly acknowledged records. */
  predicate Wasteful(logBytes: nat, recs: seq<Record>, bytes: nat) {
    (recs == [] && logBytes > 0x1_0000) || (logBytes > 0x10_0000 && logBytes > 2 * bytes + 0x10_0000)
  }

  /** Storing or refusing the message drops something: it does not fit, and something can go. */
  predicate MustDrop(s: State, m: Message, lim: Limits) {
    Over(|s.recs|, Total(s.recs), Size(MakeRecord(m, s.nextSeq)), lim, 1.0) && HasCompactable(s.recs)
  }

  lemma DropGuard(s: State, m: Message, lim: Limits)
    ensures MustDrop(s, m, lim) <==> |Kept(s.recs, Size(MakeRecord(m, s.nextSeq)), lim)| < |s.recs|
  {
    hide Total, Over, IsCritical, HasCompactable;
    var add := Size(MakeRecord(m, s.nextSeq));
    if MustDrop(s, m, lim) {
      assert MakeRoom(s.recs, add, lim) == MakeRoom(DropOldest(s.recs), add, lim);
      MakeRoomShorter(DropOldest(s.recs), add, lim);
      EaseShorter(MakeRoom(s.recs, add, lim), lim);
    }
  }

  /** The files after a message was appended or refused, with the meta file as it was: one more line; or,
      after a drop, a rewritten log. */
  function Written(d: Disk, s: State, all: seq<Record>, m: Message, lim: Limits): Disk {
    var (t, n) := Append(s, m, lim);
    if MustDrop(s, m, lim) then d.(log := Lines(t.recs))
    else if n != 0 then d.(log := Lines(all + [MakeRecord(m, s.nextSeq)]))
    else d
  }

  lemma NoBytes()
    ensures Total([]) == 0
  {}

  lemma {:induction false} AfterLast(recs: seq<Record>, acked: int)
    ensures After(recs, acked) != [] ==> recs != [] && After(recs, acked)[|After(recs, acked)| - 1] == recs[|recs| - 1]
  {
    if recs != [] && recs[0].seqNo <= acked { AfterLast(recs[1..], acked); }
  }

  lemma {:induction false} NamedAfter(recs: seq<Record>, acked: int)
    requires Named(recs)
    ensures Named(After(recs, acked))
  {
    if recs != [] && recs[0].seqNo <= acked { NamedAfter(recs[1..], acked); }
  }

  /** The files while the spool is opened: the log is rewritten before the meta file. */
  lemma OpenImages(d: Disk, s: State, freshId: string)
    requires Core(s) && Gapless(s) && Named(s.recs) && s.streamId != ""
    ensures Follows(Disk(Some(MetaOf(s)), Lines(s.recs)), s, s.recs)
    ensures SaneMeta(d.meta) && s == Recover(d, freshId) ==>
      Recovers(d.(log := Lines(s.recs)), s, "") && Recovers(Disk(Some(MetaOf(s)), Lines(s.recs)), s, "")
  {
    hide Lines, Total, Recovers, Named;
    FreshFollows(Disk(Some(MetaOf(s)), Lines(s.recs)), s);
    FollowsRecovers(Disk(Some(MetaOf(s)), Lines(s.recs)), s, s.recs, false, "");
    if SaneMeta(d.meta) && s == Recover(d, freshId) {
      Whole(s.recs);
      hide LoadRecords, HasUnreadable, After;
      assert Follows(d.(log := Lines(s.recs)), s, s.recs);
      FollowsRecovers(d.(log := Lines(s.recs)), s, s.recs, false, "");
    }
  }

  // ---- crashes -------------------------------------------------------------------------------

  /** After a crash that left any of the files above, the reopened spool is again in step with its
      files, and the next message gets a number never given out before. */
  lemma CrashThenOpen(d: Disk, s: State, freshId: string)
    requires Recovers(d, s, "") && s.streamId != ""
    ensures Recovers(d, s, freshId) && Inv(Recover(d, freshId)) && Gapless(Recover(d, freshId))
    ensures Recover(d, freshId).nextSeq == s.nextSeq
  {
    hide LoadRecords, HasUnreadable, After, Total, Inv, Gapless;
    assert Recover(d, freshId) == Recover(d, "");
  }

  /** A line that is no record, has no type, or does not count on from every record before it. */
  predicate Odd(log: seq<LogLine>, i: nat)
    requires i < |log|
  {
    log[i].Torn? || log[i].rec.kind == "" || log[i].rec.seqNo <= 0 ||
    exists j | 0 <= j < i :: log[j].Line? && log[j].rec.seqNo >= log[i].rec.seqNo
  }

  /** What a restart thinks of a loss: with a meta file, its flag or an odd line; without one, any record at all. */
  lemma GapExactly(d: Disk, freshId: string)
    ensures d.meta.Some? && d.meta.value.streamId != "" ==>
      (Recover(d, freshId).gap <==> d.meta.value.gap || exists i | 0 <= i < |d.log| :: Odd(d.log, i))
    ensures (d.meta.None? || d.meta.value.streamId == "") ==>
      (Recover(d, freshId).gap <==> exists i | 0 <= i < |d.log| :: d.log[i].Line? && d.log[i].rec.kind != "" && d.log[i].rec.seqNo > 0)
  {
    AnyReadable(d.log, 0);
    AllReadable(d.log, 0);
    hide LoadRecords, HasUnreadable, Odd, After, Total;
  }

  lemma {:induction false} AnyReadable(log: seq<LogLine>, prev: int)
    ensures LoadRecords(log, prev) != [] <==>
      exists i | 0 <= i < |log| :: log[i].Line? && log[i].rec.kind != "" && log[i].rec.seqNo > prev
  {
    if log != [] && !Readable(log[0], prev) {
      AnyReadable(log[1..], prev);
      assert forall i | 0 <= i < |log| - 1 :: log[1..][i] == log[i + 1];
      if i :| 0 <= i < |log| && log[i].Line? && log[i].rec.kind != "" && log[i].rec.seqNo > prev {
        assert log[1..][i - 1] == log[i];
      }
    }
  }

  predicate OddAfter(log: seq<LogLine>, i: nat, prev: int)
    requires i < |log|
  {
    Odd(log, i) || log[i].rec.seqNo <= prev
  }

  lemma {:induction false} AllReadable(log: seq<LogLine>, prev: int)
    requires prev >= 0
    ensures HasUnreadable(log, prev) <==> exists i | 0 <= i < |log| :: OddAfter(log, i, prev)
    ensures prev == 0 ==> ((exists i | 0 <= i < |log| :: OddAfter(log, i, prev)) <==> exists i | 0 <= i < |log| :: Odd(log, i))
  {
    if log != [] {
      assert Readable(log[0], prev) <==> !OddAfter(log, 0, prev);
      if Readable(log[0], prev) {
        var rest, first := log[1..], log[0].rec.seqNo;
        AllReadable(rest, first);
        forall i | 0 <= i < |rest| ensures OddAfter(rest, i, first) <==> OddAfter(log, i + 1, prev) { OddShift(log, i, prev); }
        if i :| 0 <= i < |log| && OddAfter(log, i, prev) { assert OddAfter(rest, i - 1, first); }
        if i :| 0 <= i < |rest| && OddAfter(rest, i, first) { assert OddAfter(log, i + 1, prev); }
      }
      if prev == 0 {
        if i :| 0 <= i < |log| && OddAfter(log, i, prev) { assert Odd(log, i); }
        if i :| 0 <= i < |log| && Odd(log, i) { assert OddAfter(log, i, prev); }
      }
    }
  }

  lemma OddShift(log: seq<LogLine>, i: nat, prev: int)
    requires i + 1 < |log| && Readable(log[0], prev) && prev >= 0
    ensures OddAfter(log[1..], i, log[0].rec.seqNo) <==> OddAfter(log, i + 1, prev)
  {
    var rest := log[1..];
    assert forall j | 0 <= j < |rest| :: rest[j] == log[j + 1];
    if OddAfter(log, i + 1, prev) && log[i + 1].Line? && log[i + 1].rec.kind != "" && log[i + 1].rec.seqNo > log[0].rec.seqNo {
      var j :| 0 <= j < i + 1 && log[j].Line? && log[j].rec.seqNo >= log[i + 1].rec.seqNo;
      assert rest[j - 1].Line? && rest[j - 1].rec.seqNo >= rest[i].rec.seqNo;
    }
    if Odd(rest, i) && rest[i].Line? && rest[i].rec.kind != "" && rest[i].rec.seqNo > 0 {
      var j :| 0 <= j < i && rest[j].Line? && rest[j].rec.seqNo >= rest[i].rec.seqNo;
      assert log[j + 1].Line? && log[j + 1].rec.seqNo >= log[i + 1].rec.seqNo;
    }
  }

  /** Increasing records above the mark are all kept when reloaded. */
  lemma ReloadRecords(recs: seq<Record>, acked: int)
    requires Increasing(recs) && Named(recs) && acked >= 0 && forall i | 0 <= i < |recs| :: recs[i].seqNo > acked
    ensures LoadRecords(Lines(recs), 0) == recs && !HasUnreadable(Lines(recs), 0) && After(recs, acked) == recs
  {
    LinesAt(recs);
    LoadAll(Lines(recs), recs, 0, false);
  }

}
