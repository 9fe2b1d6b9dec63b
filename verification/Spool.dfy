/** The outbound reliable stream (plugins/fleet/fleet_spool.cpp, class Spool): numbers messages,
    keeps them until acknowledged, and makes room under pressure. Values here; the class and its
    files are in `SpoolFiles`. */
module Spool {
  import opened Basics

  datatype Message = Message(kind: string, id: string, ref: string, ts: int, epoch: int, payload: string)

  datatype Record = Record(seqNo: int, kind: string, id: string, ref: string, ts: int, epoch: int,
                           critical: bool, payload: string)

  datatype Limits = Limits(maxMsgs: nat, maxBytes: nat)

  /** `acked`: everything up to it was acknowledged. `gap`: something was lost, the next connect must
      start a new stream. */
  datatype State = State(recs: seq<Record>, bytes: nat, nextSeq: int, acked: int, rxSeq: int, gap: bool,
                         streamId: string, dropped: nat)

  predicate IsCritical(kind: string) {
    kind in {"event.round_end", "event.backup", "event.map_result", "event.series_end", "event.demo", "cmd.result",
             "skins.stattrak", "auth.rotated", "event.rounds_voided", "event.match_restored", "event.forfeit"}
  }

  function Size(r: Record): nat { |r.payload| + |r.kind| + |r.id| + |r.ref| + 96 }

  function Total(recs: seq<Record>): nat {
    if recs == [] then 0 else Size(recs[0]) + Total(recs[1..])
  }

  function MakeRecord(m: Message, seqNo: int): Record {
    Record(seqNo, m.kind, m.id, m.ref, m.ts, m.epoch, IsCritical(m.kind), if m.payload == "" then "{}" else m.payload)
  }

  /** One more message of `add` bytes would pass `f` times the limits. */
  predicate Over(count: nat, bytes: nat, add: nat, lim: Limits, f: real) {
    (count + 1) as real > lim.maxMsgs as real * f || (bytes + add) as real > lim.maxBytes as real * f
  }

  /** Above nine tenths of the limits. */
  predicate Crowded(count: nat, bytes: nat, lim: Limits) {
    count as real > lim.maxMsgs as real * 0.9 || bytes as real > lim.maxBytes as real * 0.9
  }

  predicate HasCompactable(recs: seq<Record>) { exists i | 0 <= i < |recs| :: !recs[i].critical }

  /** Without the oldest compactable record. */
  function DropOldest(recs: seq<Record>): (r: seq<Record>)
    ensures HasCompactable(recs) ==> |r| == |recs| - 1
    ensures !HasCompactable(recs) ==> r == recs
  {
    if recs == [] then []
    else if !recs[0].critical then recs[1..]
    else
      assert HasCompactable(recs) <==> HasCompactable(recs[1..]) by {
        if i :| 0 <= i < |recs| && !recs[i].critical { assert recs[1..][i - 1] == recs[i]; }
      }
      [recs[0]] + DropOldest(recs[1..])
  }

  /** Drops the oldest compactable records until a message of `add` bytes fits. */
  function MakeRoom(recs: seq<Record>, add: nat, lim: Limits): seq<Record>
    decreases |recs|
  {
    if Over(|recs|, Total(recs), add, lim, 1.0) && HasCompactable(recs) then MakeRoom(DropOldest(recs), add, lim)
    else recs
  }

  /** Drops more, so that a full spool is not rewritten on every message. */
  function Ease(recs: seq<Record>, lim: Limits): seq<Record>
    decreases |recs|
  {
    if Crowded(|recs|, Total(recs), lim) && HasCompactable(recs) then Ease(DropOldest(recs), lim) else recs
  }

  /** The records kept when a message of `add` bytes comes in. */
  function Kept(recs: seq<Record>, add: nat, lim: Limits): seq<Record> {
    var room := MakeRoom(recs, add, lim);
    if |room| < |recs| then Ease(room, lim) else recs
  }

  predicate Refused(kept: seq<Record>, r: Record, lim: Limits) {
    Over(|kept|, Total(kept), Size(r), lim, 1.0) && (!r.critical || Over(|kept|, Total(kept), Size(r), lim, 2.0))
  }

  lemma {:induction false} MakeRoomShorter(recs: seq<Record>, add: nat, lim: Limits)
    ensures |MakeRoom(recs, add, lim)| <= |recs|
    ensures |MakeRoom(recs, add, lim)| == |recs| ==> MakeRoom(recs, add, lim) == recs
    decreases |recs|
  {
    if Over(|recs|, Total(recs), add, lim, 1.0) && HasCompactable(recs) {
      MakeRoomShorter(DropOldest(recs), add, lim);
    }
  }

  lemma {:induction false} EaseShorter(recs: seq<Record>, lim: Limits)
    ensures |Ease(recs, lim)| <= |recs|
    decreases |recs|
  {
    if Crowded(|recs|, Total(recs), lim) && HasCompactable(recs) { EaseShorter(DropOldest(recs), lim); }
  }

  lemma KeptShorter(recs: seq<Record>, add: nat, lim: Limits)
    ensures |Kept(recs, add, lim)| <= |recs|
    ensures |Kept(recs, add, lim)| == |recs| ==> Kept(recs, add, lim) == recs
  {
    MakeRoomShorter(recs, add, lim);
    EaseShorter(MakeRoom(recs, add, lim), lim);
  }

  /** The state after a message, and the number it got (0: refused). */
  function Append(s: State, m: Message, lim: Limits): (State, int) {
    var r := MakeRecord(m, s.nextSeq);
    var kept := Kept(s.recs, Size(r), lim);
    KeptShorter(s.recs, Size(r), lim);
    var lost := |s.recs| - |kept|;
    if Refused(kept, r, lim) then
      (s.(recs := kept, bytes := Total(kept), gap := true, dropped := s.dropped + lost + 1), 0)
    else
      (s.(recs := kept + [r], bytes := Total(kept) + Size(r), nextSeq := s.nextSeq + 1,
          gap := s.gap || lost > 0, dropped := s.dropped + lost), s.nextSeq)
  }

  /** Records after the acknowledged ones. */
  function After(recs: seq<Record>, acked: int): seq<Record> {
    if recs != [] && recs[0].seqNo <= acked then After(recs[1..], acked) else recs
  }

  function Ack(s: State, n: int): State {
    if n <= s.acked then s
    else
      var acked := Min(n, s.nextSeq - 1);
      var left := After(s.recs, acked);
      s.(recs := left, bytes := Total(left), acked := acked)
  }

  function Renumber(recs: seq<Record>, from: int): seq<Record> {
    if recs == [] then [] else [recs[0].(seqNo := from)] + Renumber(recs[1..], from + 1)
  }

  /** A new stream, if something was lost: what is left is numbered from 1. */
  function Rotate(s: State, freshId: string): State {
    if !s.gap then s
    else
      s.(recs := Renumber(s.recs, 1), nextSeq := |s.recs| + 1, acked := 0, gap := false, streamId := freshId)
  }
}
