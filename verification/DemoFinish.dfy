/** Transfers finish: once the recording is over and the file stays as it is, a platform that takes what it
    is sent and says how much it has ends up with the whole file, the stream is done, and after the keep
    time the local copy is gone. */
module DemoFinish {
  import opened Basics
  import opened JsonValue
  import opened Sha256
  import opened DemoCopy
  import opened DemoStream

  /** The recording is over, the file is the one last seen, and the platform has exactly what was sent. */
  ghost predicate Quiet<H>(st: Streamer<H>, now: int)
    reads st
  {
    && st.Valid() && st.w.trusted && st.s.phase == Streaming && st.s.session == st.link && !st.s.recording
    && st.file.Some? && st.s.inode == st.file.value.inode && st.s.lastSize == |st.file.value.bytes| <= st.cfg.maxDemoBytes
    && st.FileKept() && st.w.lane == [] && st.s.acked == st.s.sent == |st.w.peer| <= st.s.lastSize
    && now - st.s.stoppedAt >= st.cfg.settle && now - st.s.sizeSince >= st.cfg.settle
    && (st.s.endSentAt == 0 || now - st.s.endSentAt >= st.cfg.endRetry) && !st.s.deleted
  }

  /** The platform has the whole copy and demo.end. */
  ghost predicate Handed<H>(st: Streamer<H>)
    reads st
  {
    && st.Valid() && st.w.trusted && st.s.phase == Streaming && st.w.lane == [] && st.file.Some? && !st.s.deleted
    && st.w.sealed == st.file.value.bytes && st.s.finalSize == |st.w.sealed|
    && Complete(st.w.peer, st.w.sealed, st.chunk)
  }

  /** Nothing the platform has was ever changed in the file. */
  ghost predicate Plain<H>(st: Streamer<H>)
    reads st
  {
    && st.file.Some? && st.s.sent <= |st.file.value.bytes| && st.w.peer == st.file.value.bytes[..st.s.sent]
    && if st.s.finalSize < 0 then st.s.sent == 0 else st.s.rewrites == []
  }

  // ---- one round -------------------------------------------------------------------------------

  /** What is sent ahead is appended to what the platform has. */
  lemma {:induction false} DeliverPieces<H>(b: seq<Byte>, bytes: seq<Byte>, a: nat, z: nat, chunk: nat)
    requires |b| == a <= z <= |bytes| && chunk > 0
    ensures Deliver(b, Pieces<H>(bytes, a, z, chunk)) == b + bytes[a..z]
    decreases z - a
  {
    if a < z {
      var mid := Min(a + chunk, z);
      var data := bytes[a..mid];
      var first: Frame<H> := Chunk(a, data);
      var rest := Pieces<H>(bytes, mid, z, chunk);
      assert Pieces<H>(bytes, a, z, chunk) == [first] + rest;
      hide Pieces, Deliver;
      DeliverSplit(b, [first], rest);
      DeliverOne(b, first);
      Appended(b, data);
      hide Write;
      DeliverPieces<H>(b + data, bytes, mid, z, chunk);
      assert data + bytes[mid..z] == bytes[a..z];
      assert b + (data + bytes[mid..z]) == (b + data) + bytes[mid..z];
    }
  }

  lemma Appended(b: seq<Byte>, data: seq<Byte>)
    ensures Write(b, |b|, data) == b + data
  {}

  lemma NoneChanged(prints: seq<bv64>, file: seq<Byte>, chunk: nat, n: nat)
    ensures Changed(prints, file, 0, chunk, n) == []
  {}

  lemma SomePieces<H>(bytes: seq<Byte>, a: nat, b: nat, chunk: nat)
    ensures a >= b ==> Pieces<H>(bytes, a, b, chunk) == []
  {}

  /** A pass from `a` to `s` that queued `lane`: more bytes, or fewer chunks to send again, or the end. */
  ghost predicate Stepped<H>(e: Scene<H>, a: Demo<H>, s: Demo<H>, lane: seq<Frame<H>>) {
    var s1 := MaybeSealed(e, a);
    && s.finalSize == |e.file.bytes| && a.sent <= s.sent <= s.finalSize
    && s == s1.(sent := s.sent, prints := s.prints, rewrites := s.rewrites, endSentAt := s.endSentAt, lastAckAt := s.lastAckAt)
    && (s.sent < s.finalSize ==>
          && s.sent > a.sent && s.rewrites == s1.rewrites && s.endSentAt == a.endSentAt
          && lane == Pieces(e.file.bytes, a.sent, s.sent, e.chunk))
    && (s.sent == s.finalSize && s.rewrites != [] ==>
          && s.endSentAt == a.endSentAt && |s.rewrites| <= |s1.rewrites|
          && (a.sent == s.finalSize ==> |s.rewrites| < |s1.rewrites|))
    && (s.sent == s.finalSize && s.rewrites == [] ==>
          && lane != [] && lane[|lane| - 1].Finish?
          && (s1.rewrites == [] ==> lane[..|lane| - 1] == Pieces(e.file.bytes, a.sent, s.sent, e.chunk)))
  }

  /** What one pass of the stream phase does: more bytes, or fewer chunks to send again, or the end. */
  lemma Progress<H>(e: Scene<H>, a: Spot<H>, b: Spot<H>)
    requires Passed(e, a, b) && e.readable && a.room == 33 && a.lane == [] && 0 < e.chunk <= e.cfg.window
    requires a.s.sent == a.s.acked <= |e.file.bytes| && EndDue(e.cfg, a.s, e.nowMs)
    requires if a.s.finalSize < 0 then Settles(e.cfg, a.s, e.nowMs) else a.s.finalSize == |e.file.bytes|
    ensures Stepped(e, a.s, b.s, b.lane)
  {
    var s1 := MaybeSealed(e, a.s);
    SomePieces<H>(e.file.bytes, s1.sent, b.s.sent, e.chunk);
    RepeatsAreChunks<H>(e.file.bytes, s1.rewrites[..Max(0, Min(|s1.rewrites|, |s1.rewrites| - |b.s.rewrites|))], e.chunk, b.s.finalSize);
    hide Pieces, Repeats, Changed;
  }

  /** A quiet stream is looked at and goes on. */
  lemma Undisturbed<H>(e: Scene<H>, link: nat, a: Spot<H>, b: Spot<H>, begun: bool)
    requires Ticked(e, true, true, link, a, b, begun)
    requires a.s.phase == Streaming && a.s.session == link && !a.s.recording && a.s.acked == a.s.sent <= |e.file.bytes|
    requires a.s.inode == e.file.inode && a.s.lastSize == |e.file.bytes| <= e.cfg.maxDemoBytes
    ensures Passed(e, a, b)
  {
    hide Passed;
    assert Looked(e.cfg, a.s, e.file, e.nowMs) == a.s;
    assert Asked(e.cfg, a.s, link, e.nowMs) == a.s;
  }

  /** What a quiet stream's numbers are. */
  lemma QuietFacts<H>(st: Streamer<H>, now: int)
    requires Quiet(st, now)
    ensures 0 < st.chunk <= st.cfg.window && EndDue(st.cfg, st.s, now)
    ensures if st.s.finalSize < 0 then Settles(st.cfg, st.s, now) else st.s.finalSize == |st.file.value.bytes|
  {
    hide Sound, Deliver, Hash, CopySound;
  }

  /** One tick: the state it leaves, and the frames. */
  method Tick<H>(st: Streamer<H>, now: int)
    requires Quiet(st, now)
    modifies st
    ensures st.Valid() && st.Queued([]) && st.file == old(st.file) && st.link == old(st.link)
    ensures st.w == old(st.w).(lane := st.w.lane, sealed := st.file.value.bytes, checked := st.w.checked) && st.FileKept()
    ensures Stepped(st.Here(now), old(st.s), st.s, st.w.lane)
  {
    hide Sound, Deliver, Hash, CopySound, Safe, Complete, Extends, Ticked, Passed, MaybeSealed, Streamer.Queued;
    QuietFacts(st, now);
    ghost var a := st.At().(room := 33);
    var begun := st.Work(now, true, true, 33, true);
    ghost var e, b := st.Here(now), st.At();
    Undisturbed(e, st.link, a, b, begun);
    Progress(e, a, b);
  }

  /** The platform will have exactly what was sent. */
  lemma HeldIsSent<H>(st: Streamer<H>, e: Scene<H>, a: Demo<H>)
    requires st.Valid() && st.w.trusted && st.s.phase == Streaming && st.s.session == st.link
    requires Stepped(e, a, st.s, st.w.lane) && |st.w.peer| == a.sent && e.file.bytes == st.w.sealed && e.chunk == st.chunk
    ensures |Held(st.w)| == st.s.sent
  {
    hide Deliver, Hash, Matches, Stepped;
    if st.s.sent < st.s.finalSize {
      SteppedAhead(e, a, st.s, st.w.lane);
      DeliverPieces<H>(st.w.peer, e.file.bytes, a.sent, st.s.sent, e.chunk);
    } else {
      SteppedEnds(e, a, st.s, st.w.lane);
    }
  }

  lemma SteppedAhead<H>(e: Scene<H>, a: Demo<H>, s: Demo<H>, lane: seq<Frame<H>>)
    requires Stepped(e, a, s, lane) && s.sent < s.finalSize
    ensures a.sent <= s.sent <= |e.file.bytes| && lane == Pieces(e.file.bytes, a.sent, s.sent, e.chunk)
  {}

  lemma SteppedEnds<H>(e: Scene<H>, a: Demo<H>, s: Demo<H>, lane: seq<Frame<H>>)
    requires Stepped(e, a, s, lane)
    ensures s.finalSize == |e.file.bytes| && a.sent <= s.sent <= s.finalSize
    ensures s.sent == s.finalSize && s.rewrites == [] ==> lane != [] && lane[|lane| - 1].Finish?
  {}

  /** When demo.end is queued, the platform will have a complete copy. */
  lemma EndsComplete<H>(st: Streamer<H>)
    requires st.Queued([]) && st.w.trusted && st.w.lane != [] && st.w.lane[|st.w.lane| - 1].Finish?
    ensures Complete(Held(st.w), st.w.sealed, st.chunk)
  {
    hide Complete, Deliver, Hash;
    var n := |st.w.lane| - 1;
    assert st.w.lane == st.w.lane[..n] + [st.w.lane[n]];
    DeliverEnd(st.w.peer, st.w.lane[..n], st.w.lane[n]);
  }

  /** A copy of unchanged bytes goes on being one. */
  lemma StaysPlain<H>(e: Scene<H>, a: Demo<H>, s: Demo<H>, peer: seq<Byte>, lane: seq<Frame<H>>)
    requires Stepped(e, a, s, lane) && a.sent <= |e.file.bytes| && peer == e.file.bytes[..a.sent] && e.chunk > 0
    requires if a.finalSize < 0 then a.sent == 0 && Settles(e.cfg, a, e.nowMs) else a.rewrites == []
    ensures s.rewrites == [] && Deliver(peer, lane) == e.file.bytes[..s.sent]
  {
    NoneChanged(a.prints, e.file.bytes, e.chunk, |e.file.bytes|);
    hide Deliver, Pieces, Changed;
    assert s.rewrites == [] && a.sent <= s.sent <= |e.file.bytes|;
    assert if s.sent < s.finalSize then lane == Pieces(e.file.bytes, a.sent, s.sent, e.chunk)
           else lane != [] && lane[|lane| - 1].Finish? && lane[..|lane| - 1] == Pieces(e.file.bytes, a.sent, s.sent, e.chunk);
    hide Stepped;
    AllDelivered(e, a, s, peer, lane);
  }

  lemma AllDelivered<H>(e: Scene<H>, a: Demo<H>, s: Demo<H>, peer: seq<Byte>, lane: seq<Frame<H>>)
    requires a.sent <= s.sent <= |e.file.bytes| && peer == e.file.bytes[..a.sent] && e.chunk > 0
    requires var sent := Pieces(e.file.bytes, a.sent, s.sent, e.chunk);
      lane == sent || (lane != [] && lane[|lane| - 1].Finish? && lane[..|lane| - 1] == sent)
    ensures Deliver(peer, lane) == e.file.bytes[..s.sent]
  {
    hide Deliver, Pieces;
    DeliverPieces<H>(peer, e.file.bytes, a.sent, s.sent, e.chunk);
    assert peer + e.file.bytes[a.sent..s.sent] == e.file.bytes[..s.sent];
    if lane != Pieces(e.file.bytes, a.sent, s.sent, e.chunk) {
      var n := |lane| - 1;
      assert lane == lane[..n] + [lane[n]];
      DeliverEnd(peer, lane[..n], lane[n]);
    }
  }

  /** One tick, everything taken, and the platform says how much it has: nearer to the end. */
  method Round<H>(st: Streamer<H>, now: int) returns (ended: bool)
    requires Quiet(st, now)
    modifies st
    ensures st.file == old(st.file) && st.s.finalSize == |st.file.value.bytes| && st.s.sent <= st.s.finalSize
    ensures if ended then Handed(st) && st.s.sent == st.s.finalSize else Quiet(st, now)
    ensures !ended && old(st.s.finalSize) >= 0 ==>
      st.s.sent > old(st.s.sent) || (st.s.sent == old(st.s.sent) && |st.s.rewrites| < |old(st.s.rewrites)|)
    ensures old(Plain(st)) ==> Plain(st)
  {
    hide Sound, Deliver, Hash, CopySound, Safe, Complete, Extends, Streamer.Queued, Stepped, MaybeSealed;
    QuietFacts(st, now);
    ghost var a, peer := st.s, st.w.peer;
    Tick(st, now);
    ghost var e := st.Here(now);
    SteppedFrom(e, a, st.s, st.w.lane);
    HeldIsSent(st, e, a);
    if old(Plain(st)) { StaysPlain(e, a, st.s, peer, st.w.lane); }
    ended := st.s.sent == st.s.finalSize && st.s.rewrites == [];
    if ended {
      SteppedEnds(e, a, st.s, st.w.lane);
      EndsComplete(st);
    }
    TakesAll(st);
    if !ended {
      st.ApplyAck(DemoAck(st.s.sent, None, false), now);
    }
  }

  ghost method TakesAll<H>(st: Streamer<H>)
    requires st.Valid()
    modifies st`w
    ensures st.Valid() && st.w == old(st.w).(peer := Held(old(st.w)), lane := [])
  {
    hide Sound, Hash, Deliver;
    assert st.w.lane[..|st.w.lane|] == st.w.lane;
    st.PeerTakes(|st.w.lane|);
  }

  lemma SteppedFrom<H>(e: Scene<H>, a: Demo<H>, s: Demo<H>, lane: seq<Frame<H>>)
    requires Stepped(e, a, s, lane)
    ensures a.finalSize >= 0 && !Settles(e.cfg, a, e.nowMs) && !(s.sent == s.finalSize && s.rewrites == []) ==>
              s.sent > a.sent || (s.sent == a.sent && |s.rewrites| < |a.rewrites|)
    ensures s == a.(sent := s.sent, prints := s.prints, rewrites := s.rewrites, endSentAt := s.endSentAt, lastAckAt := s.lastAckAt,
                    finalSize := s.finalSize, digest := s.digest)
    ensures !(s.sent == s.finalSize && s.rewrites == []) ==> s.endSentAt == a.endSentAt
    ensures s.finalSize == |e.file.bytes| && a.sent <= s.sent <= s.finalSize
  {
    hide Pieces, Changed;
  }

  // ---- to the end ------------------------------------------------------------------------------

  lemma WholePlain<H>(st: Streamer<H>)
    requires Handed(st) && st.s.sent == st.s.finalSize
    ensures Plain(st) ==> st.w.peer == st.w.sealed
  {
    hide Hash, Complete, Sound, Deliver, CopySound, Safe;
    var bytes := st.file.value.bytes;
    assert bytes[..|bytes|] == bytes;
  }

  /** From every quiet state, whatever was sent and rewritten before, the platform gets a complete copy and
      demo.end; one that holds only unchanged bytes, or none, gets exactly the file. */
  method HandOver<H>(st: Streamer<H>, now: int)
    requires Quiet(st, now)
    modifies st
    ensures Handed(st) && st.file == old(st.file)
    ensures old(Plain(st)) ==> st.w.peer == st.w.sealed
  {
    hide Handed, Plain, Streamer.Valid;
    var ended := Round(st, now);
    while !ended
      invariant st.file == old(st.file) && st.file.Some? && st.s.finalSize == |st.file.value.bytes| && st.s.sent <= st.s.finalSize
      invariant if ended then Handed(st) && st.s.sent == st.s.finalSize else Quiet(st, now)
      invariant old(Plain(st)) ==> Plain(st)
      decreases !ended, st.s.finalSize - st.s.sent, |st.s.rewrites|
    {
      ended := Round(st, now);
    }
    WholePlain(st);
  }

  /** The platform stored the copy and says so: the stream is done, and after the keep time the local file is
      gone. */
  method Stored<H>(st: Streamer<H>, now: int, later: int)
    requires Handed(st) && later - now >= st.cfg.keepAfterStored > 0
    modifies st
    ensures st.Valid() && st.s.phase == Done && st.w.confirmed && st.s.doneAt == now && st.file == None
    ensures st.w.peer == old(st.w.peer) && st.w.sealed == old(st.w.sealed) == old(st.file).value.bytes
  {
    hide Sound, Deliver, Hash, CopySound, Safe, Extends, Streamer.Queued, Ticked;
    assert |st.w.peer| == st.s.finalSize;
    st.ApplyAck(DemoAck(st.s.finalSize, None, true), now);
    var begun := st.Work(later, true, true, 0, true);
  }

  /** Every demo: however the file grew and was rewritten while it recorded, once it is quiet the platform
      ends up with the file, unless chunks collide, and the local copy goes. */
  method Completes<H>(st: Streamer<H>, now: int, later: int)
    requires Quiet(st, now) && later - now >= st.cfg.keepAfterStored > 0
    modifies st
    ensures st.Valid() && st.s.phase == Done && st.w.confirmed && st.file == None
    ensures var bytes := old(st.file).value.bytes;
      && st.w.sealed == bytes && |st.w.peer| == |bytes|
      && (st.w.peer == bytes <==> !Collide(st.w.peer, bytes, st.chunk))
      && (old(Plain(st)) ==> st.w.peer == bytes)
  {
    hide Sound, Deliver, Hash, CopySound, Collide;
    HandOver(st, now);
    ghost var copy, bytes := st.w.peer, st.w.sealed;
    CompleteMeansEqual(copy, bytes, st.chunk);
    Stored(st, now, later);
  }

  /** A new stream of a finished file. */
  method FreshDemo<H>(cfg: Config, chunk: nat, block: (H, seq<Byte>) -> H, init: H, f: File, now: int, later: int) returns (st: Streamer<H>)
    requires chunk > 0 && |f.bytes| <= cfg.maxDemoBytes && now > 0 && now >= cfg.settle && later - now >= cfg.keepAfterStored > 0
    ensures fresh(st) && st.Valid() && st.s.phase == Done && st.file == None && st.w.peer == f.bytes
  {
    hide Sound, Deliver, Hash, CopySound, Safe, Collide, Complete, Ticked, Extends, Streamer.Queued;
    st := new Streamer(cfg, chunk, block, init);
    st.file := Some(f);
    st.Stop(0);
    var begun := st.Work(0, true, true, 0, true);
    Announced(st.Here(0), st.At(), begun);
    st.ApplyAck(DemoAck(0, None, false), 0);
    Completes(st, now, later);
  }

  function Shown<H>(f: File): Demo<H> {
    NewDemo<H>().(recording := false, lastSize := |f.bytes|, inode := f.inode)
  }

  lemma Announced<H>(e: Scene<H>, b: Spot<H>, begun: bool)
    requires e.nowMs == 0 && |e.file.bytes| <= e.cfg.maxDemoBytes
    requires Ticked(e, true, true, 0, Spot(NewDemo<H>().(recording := false), [], 0), b, begun)
    ensures b.s == Shown<H>(e.file).(announceTries := 1) && b.lane == []
  {
    hide Passed;
    assert Looked(e.cfg, NewDemo<H>().(recording := false), e.file, 0) == Shown<H>(e.file);
  }
}
