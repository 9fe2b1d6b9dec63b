/** A run of the demo stream that completes a wrong copy, although the platform keeps its contract and
    tells the truth in every ack. The checksum it sends is the file's, so the platform finds out. */
module DemoRuns {
  import opened Basics
  import opened JsonValue
  import opened Sha256
  import opened DemoCopy
  import opened DemoStream

  const CONFIG: Config := Config(1000, 15000, 300000, 3000, 300000, 10000, 0, 3, 1000000)

  /** The platform acknowledges exactly what it has. */
  method TrueAck<H>(st: Streamer<H>, offset: nat, nowMs: int)
    requires st.Valid() && !Terminal(st.s.phase) && offset == |st.w.peer|
    modifies st`s, st`w
    ensures st.Valid() && st.s == Heard(old(st.s), DemoAck(offset, None, false), st.link, nowMs)
    ensures st.w == old(st.w).(checked := st.w.checked, trusted := st.w.trusted)
  {
    hide Sound, Deliver, Hash, Usable, CopySound, Safe;
    st.ApplyAck(DemoAck(offset, None, false), nowMs);
  }

  // ---- the stream at each stage ----------------------------------------------------------------

  function Seen<H>(): Demo<H> { NewDemo<H>().(lastSize := 1, sizeSince := 1000, inode := 1) }

  function Answered<H>(): Demo<H> { Seen<H>().(phase := Streaming, announcedAt := 1000, lastAckAt := 1100) }

  /** After the platform was asked again and said 0 again, the recording over. */
  function Back<H>(prints: seq<bv64>): Demo<H> {
    Seen<H>().(phase := Streaming, prints := prints, announcedAt := 20000, lastAckAt := 20100, recording := false, stoppedAt := 20200)
  }

  function Closed<H>(prints: seq<bv64>, digest: H): Demo<H> {
    Back<H>(prints).(finalSize := 1, digest := Some(digest), lastAckAt := 24000)
  }

  /** One-byte chunks of a one-byte file. */
  function Of<H>(b: Byte, digest: H, nowMs: int): Scene<H> { Scene(CONFIG, 1, File(1, [b]), true, digest, nowMs) }

  lemma Announces<H>(digest: H, at: Spot<H>, begun: bool)
    requires Ticked(Of(5, digest, 1000), true, true, 0, Spot(NewDemo(), [], 1), at, begun)
    ensures at.s == Seen<H>().(announcedAt := 1000, announceTries := 1) && at.lane == []
  {
    hide Passed;
    assert Looked(CONFIG, NewDemo<H>(), File(1, [5]), 1000) == Seen<H>();
  }

  lemma SendsChunk<H>(digest: H, at: Spot<H>, begun: bool)
    requires Ticked(Of(5, digest, 2000), true, true, 0, Spot(Answered(), [], 1), at, begun)
    ensures at.s == Answered<H>().(sent := 1, lastAckAt := 2000, prints := at.s.prints) && at.lane == [Chunk(0, [5])]
  {
    var s0: Demo<H> := Answered();
    assert Looked(CONFIG, s0, File(1, [5]), 2000) == s0 && Asked(CONFIG, s0, 0, 2000) == s0;
    hide Wound;
    assert !Settles(CONFIG, s0, 2000) && Limit(s0) == 1 && MaySend(CONFIG, 1, s0);
    NoPieces<H>([], [5], 0, 1);
    OnePiece<H>([5]);
  }

  lemma OnePiece<H>(bytes: seq<Byte>)
    requires |bytes| == 1
    ensures Pieces<H>(bytes, 0, 1, 1) == [Chunk(0, bytes)]
  {
    assert Pieces<H>(bytes, 1, 1, 1) == [];
    assert bytes[0..1] == bytes;
  }

  lemma AsksAgain<H>(digest: H, prints: seq<bv64>, at: Spot<H>, begun: bool)
    requires var s0 := Answered<H>().(sent := 1, lastAckAt := 2000, prints := prints);
      Ticked(Of(5, digest, 20000), true, true, 0, Spot(s0, [Chunk(0, [5])], 1), at, begun)
    ensures at.s == Seen<H>().(sent := 1, lastAckAt := 2000, prints := prints, announcedAt := 20000, announceTries := 1)
    ensures at.lane == [Chunk(0, [5])]
  {
    hide Passed;
    var s0 := Answered<H>().(sent := 1, lastAckAt := 2000, prints := prints);
    assert Looked(CONFIG, s0, File(1, [5]), 20000) == s0;
  }

  lemma SealsOnly<H>(digest: H, prints: seq<bv64>, lane: seq<Frame<H>>, at: Spot<H>, begun: bool)
    requires Ticked(Of(7, digest, 24000), true, true, 0, Spot(Back(prints), lane, 0), at, begun)
    ensures at.s == Closed(at.s.prints, digest) && at.lane == lane
  {
    var s0 := Back<H>(prints);
    assert Looked(CONFIG, s0, File(1, [7]), 24000) == s0 && Asked(CONFIG, s0, 0, 24000) == s0;
    assert Settles(CONFIG, s0, 24000);
    NothingChanged(prints);
    var s1 := SealedDemo(s0, [7], 1, digest);
    assert s1 == s0.(finalSize := 1, digest := Some(digest), rewrites := []);
    hide Wound, SealedDemo;
    OnePiece<H>([7]);
    NoPieces<H>(lane, [7], 0, 1);
  }

  lemma NothingChanged(prints: seq<bv64>)
    ensures Changed(prints, [7], 0, 1, 1) == []
  {}

  lemma EndsIt<H>(digest: H, prints: seq<bv64>, at: Spot<H>, begun: bool)
    requires var s0 := Closed(prints, digest).(sent := 1, acked := 1, lastAckAt := 24100);
      Ticked(Of(7, digest, 25000), true, true, 0, Spot(s0, [], 1), at, begun)
    ensures at.lane == [Finish(1, digest)] && at.s.finalSize == 1 && at.s.phase == Streaming
  {
    var s0 := Closed(prints, digest).(sent := 1, acked := 1, lastAckAt := 24100);
    assert Looked(CONFIG, s0, File(1, [7]), 25000) == s0 && Asked(CONFIG, s0, 0, 25000) == s0;
    assert !Settles(CONFIG, s0, 25000) && Limit(s0) == 1;
    NoPieces<H>([], [7], 1, 1);
    var e, a := Of(7, digest, 25000), Spot(s0, [], 1);
    assert Passed(e, a, at);
    assert MaybeSealed(e, s0) == s0;
    hide Ticked, Pieces, Repeats, Looked, Asked, MaybeSealed, CanSend, TimerAt;
    assert at.s.sent == 1;
    NoRepeats<H>([], [7], [], 1, 1);
    assert Wound(e, a, 16, at);
    hide Passed;
  }

  // ---- the run ---------------------------------------------------------------------------------

  /** A one-byte demo whose chunk waits on the lane for so long that the platform is asked again. */
  method Begun<H>(block: (H, seq<Byte>) -> H, init: H) returns (st: Streamer<H>)
    ensures fresh(st) && st.Valid() && st.cfg == CONFIG && st.chunk == 1 && st.block == block && st.init == init && st.link == 0
    ensures st.file == Some(File(1, [5])) && st.w == World([], [Chunk(0, [5])], [], st.w.checked, st.w.trusted, false)
    ensures st.s == Seen<H>().(sent := 1, lastAckAt := 2000, prints := st.s.prints, announcedAt := 20000, announceTries := 1)
  {
    hide Sound, Deliver, Hash, CopySound, Safe, Complete, Extends, Streamer.Queued, Ticked;
    ghost var digest := Hash(block, init, [5]);
    st := new Streamer(CONFIG, 1, block, init);
    st.file := Some(File(1, [5]));
    var begun := st.Work(1000, true, true, 1, true);
    Announces(digest, st.At(), begun);
    TrueAck(st, 0, 1100);
    begun := st.Work(2000, true, true, 1, true);
    SendsChunk(digest, st.At(), begun);
    ghost var prints := st.s.prints;
    begun := st.Work(20000, true, true, 1, true);
    AsksAgain(digest, prints, st.At(), begun);
  }

  /** The platform still has nothing and says so; the file is rewritten in place as the recording stops; the
      final pass finds the lane full; the waiting chunk arrives, and the platform says that it has one
      byte. Nothing was sent since the final pass and nothing is left to send, so the end is queued over
      the old byte. */
  method CompletesWrongCopy<H>(block: (H, seq<Byte>) -> H, init: H) returns (st: Streamer<H>)
    ensures st.Valid() && st.w.peer == [5] && st.w.sealed == [7] && st.file == Some(File(1, [7]))
    ensures st.w.lane == [Finish(1, Hash(block, init, [7]))]
  {
    hide Sound, Deliver, Hash, CopySound, Safe, Complete, Extends, Streamer.Queued, Ticked;
    ghost var digest := Hash(block, init, [7]);
    st := Begun(block, init);
    TrueAck(st, 0, 20100);
    st.file := Some(File(1, [7]));
    st.Stop(20200);
    assert st.s == Back(st.s.prints);
    ghost var prints := st.s.prints;
    var begun := st.Work(24000, true, true, 0, true);
    SealsOnly(digest, prints, [Chunk(0, [5])], st.At(), begun);
    Arrives(st.w.lane[0]);
    assert st.w.lane == [st.w.lane[0]];
    st.PeerTakes(1);
    prints := st.s.prints;
    TrueAck(st, 1, 24100);
    assert st.s == Closed(prints, digest).(sent := 1, acked := 1, lastAckAt := 24100);
    begun := st.Work(25000, true, true, 1, true);
    EndsIt(digest, prints, st.At(), begun);
  }

  lemma Arrives<H>(f: Frame<H>)
    requires f == Chunk(0, [5])
    ensures Deliver([], [f][..1]) == [5] && [f][1..] == []
  {
    assert [f][..1] == [f];
    DeliverOne([], f);
  }
}
