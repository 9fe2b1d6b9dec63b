/** Crashes that the order of the two file writes does not survive: exactly when, and on which inputs. */
module SpoolCrashes {
  import opened Basics
  import opened JsonValue
  import opened Spool
  import opened SpoolLaws
  import opened SpoolFiles

  /** A restart in place of state `t` may go on numbering: it knows that something was lost, or it has no
      hole and gives out no number again. */
  predicate NumbersHold(r: State, t: State) { r.gap || (GapSound(r) && r.nextSeq == t.nextSeq) }

  /** The drop path writes the log before the gap flag reaches the meta file. A crash right after a message
      was stored or refused is recovered exactly when nothing had to be dropped for it; otherwise the
      numbers hold exactly when the meta file already had the flag. The flag itself is what the meta file
      has: also a message refused without a drop is forgotten unless the flag was already there. */
  lemma DropThenCrash(d: Disk, s: State, all: seq<Record>, m: Message, lim: Limits)
    requires Core(s) && Follows(d, s, all) && Named(s.recs) && m.kind != ""
    ensures var t, files := Append(s, m, lim).0, Written(d, s, all, m, lim);
      && (Recovers(files, t, "") <==> !MustDrop(s, m, lim))
      && (NumbersHold(Recover(files, ""), t) <==> d.meta.value.gap || !MustDrop(s, m, lim))
      && Recover(files, "").gap == d.meta.value.gap
      && (Recover(files, "").gap == t.gap <==> d.meta.value.gap == (s.gap || MustDrop(s, m, lim) || Append(s, m, lim).1 == 0))
  {
    hide Kept, Lines, Total, Over, IsCritical, HasCompactable, Recovers, Recover, Follows, EndsWith, MustDrop;
    AppendForms(s, m, lim);
    DropGuard(s, m, lim);
    Positive(s);
    hide Append;
    if MustDrop(s, m, lim) { Dropped(d, s, all, m, lim); } else { NotDropped(d, s, all, m, lim); }
  }

  lemma NotDropped(d: Disk, s: State, all: seq<Record>, m: Message, lim: Limits)
    requires Core(s) && Follows(d, s, all) && Named(s.recs) && m.kind != "" && !MustDrop(s, m, lim)
    ensures var t, files := Append(s, m, lim).0, Written(d, s, all, m, lim);
      && Recovers(files, t, "") && NumbersHold(Recover(files, ""), t) && Recover(files, "").gap == d.meta.value.gap
  {
    hide Kept, Lines, Total, Over, IsCritical, Append, HasCompactable, Recover, Follows, EndsWith, MustDrop;
    var r := MakeRecord(m, s.nextSeq);
    AppendForms(s, m, lim);
    DropGuard(s, m, lim);
    Positive(s);
    var (t, n) := Append(s, m, lim);
    var files := Written(d, s, all, m, lim);
    if n != 0 {
      FollowsPush(d, s, all, r, files, t);
      FollowsRecovers(files, t, all + [r], false, "");
    } else {
      FollowsFlags(d, s, t, all);
      FollowsRecovers(files, t, all, false, "");
    }
  }

  lemma Dropped(d: Disk, s: State, all: seq<Record>, m: Message, lim: Limits)
    requires Core(s) && Follows(d, s, all) && Named(s.recs) && m.kind != "" && MustDrop(s, m, lim)
    ensures var t, files := Append(s, m, lim).0, Written(d, s, all, m, lim);
      && !Recovers(files, t, "") && Recover(files, "").gap == d.meta.value.gap
      && (NumbersHold(Recover(files, ""), t) <==> d.meta.value.gap)
  {
    hide Kept, Lines, Total, Over, IsCritical, Append, HasCompactable, Recover, MustDrop, LoadRecords, HasUnreadable, After;
    AppendForms(s, m, lim);
    DropGuard(s, m, lim);
    AppendKeeps(s, m, lim);
    NamedAppend(s, m, lim);
    var t, files := Append(s, m, lim).0, Written(d, s, all, m, lim);
    assert |t.recs| < t.nextSeq - 1 - s.acked;
    ReloadRecords(t.recs, d.meta.value.acked);
    RecoverLoaded(files, t.recs, false, "");
  }

  /** A rotation writes the meta file before the renumbered log: a crash between the two is recovered
      soundly exactly when the records already carried the numbers 1..n. */
  lemma RotateThenCrash(s: State, freshId: string)
    requires Core(s) && Named(s.recs) && s.gap && freshId != ""
    ensures var between := Disk(Some(MetaOf(Rotate(s, freshId))), Lines(s.recs));
      && (GapSound(Recover(between, "")) <==> Contiguous(s.recs, 1))
      && (NumbersHold(Recover(between, ""), Rotate(s, freshId)) <==> Contiguous(s.recs, 1))
  {
    hide Lines, Total, Renumber;
    var t := Rotate(s, freshId);
    var between := Disk(Some(MetaOf(t)), Lines(s.recs));
    ReloadRecords(s.recs, 0);
    RecoverLoaded(between, s.recs, false, "");
    hide Recover, LoadRecords, HasUnreadable, After;
  }

  // ---- inputs on which it fails ----------------------------------------------------------------

  function Sample(seqNo: int, critical: bool): Record {
    Record(seqNo, if critical then "event.backup" else "x", "", "", 0, 0, critical, "{}")
  }

  function SpoolOf(recs: seq<Record>, next: int, gap: bool): State { State(recs, Total(recs), next, 0, 0, gap, "s", 0) }

  /** One compactable record, room for one message. The next message is stored as number 2, and a crash
      leaves number 1 missing without a flag. */
  lemma StoredThenHole() returns (d: Disk, s: State, all: seq<Record>, m: Message, lim: Limits)
    ensures Inv(s) && Bounded(s.recs, lim) && Follows(d, s, all) && Named(s.recs) && m.kind != ""
    ensures Append(s, m, lim).1 != 0 && !Recover(Written(d, s, all, m, lim), "").gap
    ensures !GapSound(Recover(Written(d, s, all, m, lim), ""))
  {
    all, m, lim := [Sample(1, false)], Message("x", "", "", 0, 0, ""), Limits(1, 1000);
    s := SpoolOf(all, 2, false);
    d := Disk(Some(MetaOf(s)), Lines(all));
    hide Recover, Follows, Kept, Append, IsCritical, Lines, MustDrop;
    FreshFollows(d, s);
    StoredDrop(all, m, lim);
    assert Bounded(all, lim) by { assert Total(all) == 99; }
    DropThenCrash(d, s, all, m, lim);
    RecoveredNext(d, s, all, m, lim);
  }

  lemma StoredDrop(all: seq<Record>, m: Message, lim: Limits)
    requires all == [Sample(1, false)] && m == Message("x", "", "", 0, 0, "") && lim == Limits(1, 1000)
    ensures MustDrop(SpoolOf(all, 2, false), m, lim) && Append(SpoolOf(all, 2, false), m, lim).1 == 2
  {
    hide IsCritical;
    var s, add := SpoolOf(all, 2, false), Size(MakeRecord(m, 2));
    assert Total(all) == 99 && !all[0].critical && HasCompactable(all);
    assert DropOldest(all) == [];
    assert MakeRoom(all, add, lim) == [] by { assert MakeRoom([], add, lim) == []; }
    assert Kept(all, add, lim) == [] by { assert Ease([], lim) == []; }
    hide Kept;
  }

  /** After a drop for a stored message the next number is not in doubt. */
  lemma RecoveredNext(d: Disk, s: State, all: seq<Record>, m: Message, lim: Limits)
    requires Core(s) && Follows(d, s, all) && Named(s.recs) && m.kind != "" && MustDrop(s, m, lim)
    ensures var (t, n) := Append(s, m, lim);
      var r := Recover(Written(d, s, all, m, lim), "");
      && r.recs == t.recs && r.acked == d.meta.value.acked
      && r.nextSeq == (if t.recs == [] then d.meta.value.nextSeq else Max(d.meta.value.nextSeq, t.recs[|t.recs| - 1].seqNo + 1))
      && (n != 0 ==> r.nextSeq == t.nextSeq)
  {
    hide Kept, Lines, Total, Over, IsCritical, Append, HasCompactable, Recover, MustDrop, LoadRecords, HasUnreadable, After;
    AppendForms(s, m, lim);
    AppendKeeps(s, m, lim);
    NamedAppend(s, m, lim);
    var t, files := Append(s, m, lim).0, Written(d, s, all, m, lim);
    ReloadRecords(t.recs, d.meta.value.acked);
    RecoverLoaded(files, t.recs, false, "");
  }

  /** A critical record and a compactable one, the meta file written between them, and a message too large
      to fit even without the compactable one: it is refused after the drop, and a crash makes the
      restart give out number 2 again, in the same stream and without a flag. */
  lemma RefusedThenReused() returns (d: Disk, s: State, all: seq<Record>, m: Message, lim: Limits)
    ensures Inv(s) && Bounded(s.recs, lim) && Follows(d, s, all) && Named(s.recs) && m.kind != ""
    ensures Append(s, m, lim).1 == 0
    ensures var r := Recover(Written(d, s, all, m, lim), "");
      !r.gap && GapSound(r) && r.nextSeq == 2 < s.nextSeq && r.streamId == s.streamId
  {
    all, lim := [Sample(1, true), Sample(2, false)], Limits(10, 215);
    m := Message("x", "", "", 0, 0, "0123456789");
    s := SpoolOf(all, 3, false);
    d := Disk(Some(Meta("s", 2, 0, 0, false)), Lines(all));
    hide Recover, Kept, Append, IsCritical, Lines, MustDrop, Total, HasUnreadable, LoadRecords;
    Whole(all);
    assert Follows(d, s, all);
    RefusedDrop(all, m, lim);
    hide Follows;
    RecoveredNext(d, s, all, m, lim);
    DropThenCrash(d, s, all, m, lim);
  }

  lemma RefusedDrop(all: seq<Record>, m: Message, lim: Limits)
    requires all == [Sample(1, true), Sample(2, false)] && lim == Limits(10, 215)
    requires m == Message("x", "", "", 0, 0, "0123456789")
    ensures MustDrop(SpoolOf(all, 3, false), m, lim) && Bounded(all, lim)
    ensures Append(SpoolOf(all, 3, false), m, lim).1 == 0
    ensures Append(SpoolOf(all, 3, false), m, lim).0.recs == [Sample(1, true)]
  {
    var s, kept, add := SpoolOf(all, 3, false), [Sample(1, true)], Size(MakeRecord(m, 3));
    assert !IsCritical("x");
    hide IsCritical;
    assert all[1..] == [Sample(2, false)] && kept[1..] == [] && all[2..] == [];
    assert Total(all[1..]) == 99 && Total(all) == 209 && Total(kept) == 110;
    hide Total;
    assert !all[1].critical && HasCompactable(all) && !HasCompactable(kept);
    assert DropOldest(all) == kept;
    assert MakeRoom(all, add, lim) == kept;
    assert Kept(all, add, lim) == kept;
    hide Kept;
  }

  /** Number 1 was dropped, number 2 is left, and the crash comes between the two writes of the rotation:
      the new stream starts with number 2 and without a flag. */
  lemma RotationThenHole() returns (s: State, freshId: string)
    ensures Inv(s) && Named(s.recs) && s.gap && freshId != ""
    ensures !NumbersHold(Recover(Disk(Some(MetaOf(Rotate(s, freshId))), Lines(s.recs)), ""), Rotate(s, freshId))
  {
    s, freshId := SpoolOf([Sample(2, false)], 3, true), "t";
    RotateThenCrash(s, freshId);
  }
}
