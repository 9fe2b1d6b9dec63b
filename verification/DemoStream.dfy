/** Streaming a demo file to the platform while it records (plugins/fleet/fleet_demo.cpp, class Streams):
    one stream, the file it tails, the bulk lane and the platform's copy. */
module DemoStream {
  import opened Basics
  import opened JsonValue
  import opened Sha256
  import opened DemoCopy

  datatype Phase = Announce | Streaming | Done | Refused | Failed

  predicate Terminal(p: Phase) { p.Done? || p.Refused? || p.Failed? }

  /** All times in milliseconds. */
  datatype Config = Config(window: nat, ackTimeout: int, announceBackoffMax: int, settle: int, staleRecording: int,
                           endRetry: int, keepAfterStored: int, maxChecksumRetries: nat, maxDemoBytes: nat)

  /** One stream. `sent` is the next byte to send, `acked` the platform's last offset, `finalSize` -1 until
      the final pass; `restart`: the next demo.begin asks the platform to drop its copy. */
  datatype Demo<H> = Demo(
    phase: Phase, recording: bool, stoppedAt: int, sent: nat, acked: nat, prints: seq<bv64>, rewrites: seq<nat>,
    lastSize: int, sizeSince: int, inode: nat, finalSize: int, digest: Option<H>, restart: bool, session: nat,
    announcedAt: int, announceTries: nat, lastAckAt: int, endSentAt: int, checksumFailures: nat, doneAt: int,
    deleted: bool)

  datatype File = File(inode: nat, bytes: seq<Byte>)

  /** The error codes of a demo.ack: gap, checksum, unknown_demo, a refusal (not_assigned, stale_epoch,
      too_large, refused), or anything else. */
  datatype Fault = Gap | Checksum | UnknownDemo | Refusal | Other

  /** What the platform answers; `offset` is -1 when it is missing. */
  datatype DemoAck = DemoAck(offset: int, error: Option<Fault>, complete: bool)

  /** The ack makes the sender continue from its offset. */
  predicate Moves<H>(s: Demo<H>, ack: DemoAck) {
    && ack.offset >= 0
    && if ack.error.Some? then ack.error.value.Gap?
       else s.phase.Announce? || ack.offset < s.acked || ack.offset > s.sent
  }

  /** Outside the sender: the platform's bytes and the frames on their way to it; the bytes the final pass
      hashed and how far the copy was compared or sent since. `trusted`: since the copy was last
      started the file and the platform behaved (each step says how). `confirmed`: the platform
      said that the copy is complete. */
  datatype World<H> = World(peer: seq<Byte>, lane: seq<Frame<H>>, sealed: seq<Byte>, checked: nat, trusted: bool,
                            confirmed: bool)

  function Held<H>(w: World<H>): seq<Byte> { Deliver(w.peer, w.lane) }

  function View<H>(chunk: nat, s: Demo<H>, w: World<H>): Copy {
    Copy(chunk, s.sent, s.prints, s.rewrites, if s.finalSize < 0 then None else Some(w.sealed), w.checked, Held(w),
         Max(s.lastSize, 0))
  }

  /** Holds whatever the platform and the file do. */
  predicate Safe<H>(cfg: Config, chunk: nat, s: Demo<H>, w: World<H>) {
    && 0 < chunk <= cfg.window
    && s.acked <= s.sent && s.sent - s.acked <= cfg.window
    && (s.phase.Done? ==> s.acked == s.finalSize && w.confirmed)
    && (s.phase.Streaming? ==> !s.restart) && (s.restart ==> s.rewrites == [])
    && (s.finalSize >= 0 ==> s.finalSize == |w.sealed| <= s.lastSize && Starts(s.rewrites, chunk, |w.sealed|))
  }

  /** The copy is sound, and what is sent in this session leaves no hole. */
  ghost predicate CopySound<H>(chunk: nat, s: Demo<H>, w: World<H>, link: nat) {
    w.trusted && !s.restart && !Terminal(s.phase) ==>
      Sound(View(chunk, s, w)) && (s.phase.Streaming? && s.session == link ==> s.sent <= |Held(w)|)
  }

  /** An offset the platform has and the copy can continue from. */
  predicate Fair<H>(chunk: nat, s: Demo<H>, w: World<H>, offset: int) {
    0 <= offset <= |Held(w)| && Usable(View(chunk, s, w), offset)
  }

  function Hash<H>(block: (H, seq<Byte>) -> H, init: H, data: seq<Byte>): H { FoldBlocks(block, init, Padded(data)) }

  function NewDemo<H>(): Demo<H> { Demo(Announce, true, 0, 0, 0, [], [], -1, 0, 0, -1, None, false, 0, 0, 0, 0, 0, 0, 0, false) }

  class Streamer<H> {
    const cfg: Config
    const chunk: nat
    const block: (H, seq<Byte>) -> H
    const init: H
    var s: Demo<H>
    /** The demo file, the link's session, how many more frames the bulk lane takes now, and whether the file
        can be read now. */
    var file: Option<File>
    var link: nat
    var room: nat
    var readable: bool
    ghost var w: World<H>

    ghost predicate Valid()
      reads this
    {
      && Safe(cfg, chunk, s, w) && CopySound(chunk, s, w, link) && s.session <= link
      && (s.finalSize >= 0 ==> s.digest == Some(Hash(block, init, w.sealed)))
    }

    constructor (cfg: Config, chunk: nat, block: (H, seq<Byte>) -> H, init: H)
      requires chunk > 0
      ensures Valid() && s == NewDemo() && w == World([], [], [], 0, true, false) && link == 0
      ensures this.cfg == cfg.(window := Max(cfg.window, chunk)) && this.chunk == chunk && this.block == block && this.init == init
    {
      this.cfg, this.chunk, this.block, this.init := cfg.(window := Max(cfg.window, chunk)), chunk, block, init;
      s := NewDemo();
      file, link, room, readable, w := None, 0, 0, true, World([], [], [], 0, true, false);
    }

    // ---- the platform and the link ---------------------------------------------------------------

    /** The platform takes the oldest frames. */
    ghost method PeerTakes(n: nat)
      requires Valid() && n <= |w.lane|
      modifies `w
      ensures Valid() && w == old(w).(peer := Deliver(old(w).peer, old(w).lane[..n]), lane := old(w).lane[n..])
      ensures Held(w) == Held(old(w))
    {
      hide Sound, Deliver, Hash;
      assert w.lane[..n] + w.lane[n..] == w.lane;
      DeliverSplit(w.peer, w.lane[..n], w.lane[n..]);
      w := w.(peer := Deliver(w.peer, w.lane[..n]), lane := w.lane[n..]);
    }

    /** The session ends: the platform got the first `n` frames, the rest are lost, and it has only the
        first `keep` bytes when the next session begins. Trust survives unless a lost frame was
        to overwrite bytes the platform still has. */
    method SessionLost(ghost n: nat, ghost keep: nat)
      requires Valid() && n <= |w.lane| && keep <= |Deliver(w.peer, w.lane[..n])|
      modifies `w, `link
      ensures Valid() && link == old(link) + 1
      ensures w == old(w).(peer := Deliver(old(w).peer, old(w).lane[..n])[..keep], lane := [],
                           trusted := old(w).trusted && WritesFrom(old(w).lane[n..], keep))
    {
      hide Sound, WritesFrom, Hash;
      ghost var got := Deliver(w.peer, w.lane[..n]);
      ghost var still := w.trusted && WritesFrom(w.lane[n..], keep);
      if still {
        assert w.lane[..n] + w.lane[n..] == w.lane;
        DeliverSplit(w.peer, w.lane[..n], w.lane[n..]);
        PrefixSurvives(got, w.lane[n..], keep);
        if Sound(View(chunk, s, w)) { LoseEnd(View(chunk, s, w), keep); }
      }
      w := w.(peer := got[..keep], lane := [], trusted := still);
      link := link + 1;
    }

    /** The platform answers a restart by dropping the copy and what was still in flight. */
    ghost method PeerRestarts()
      requires Valid() && s.restart
      modifies `w
      ensures Valid() && Held(w) == [] && w == old(w).(peer := [], lane := [])
    {
      w := w.(peer := [], lane := []);
    }

    /** The recording stopped. */
    method Stop(nowMs: int)
      requires Valid()
      modifies `s
      ensures Valid() && s == (if old(s).recording then old(s).(recording := false, stoppedAt := nowMs) else old(s))
    {
      hide Sound, Deliver, Hash;
      if s.recording { s := s.(recording := false, stoppedAt := nowMs); }
    }

    /** A demo.ack. Trust survives an ack that moves the sender only to a fair offset, and starts afresh
        with the answer to a restart. */
    method ApplyAck(ack: DemoAck, nowMs: int)
      requires Valid()
      modifies `s, `w
      ensures Valid() && w == old(w).(checked := w.checked, trusted := w.trusted, confirmed := w.confirmed)
      ensures Terminal(old(s).phase) ==> s == old(s) && w == old(w)
      ensures w.confirmed == (old(w).confirmed || (s.phase.Done? && !old(s).phase.Done?))
      ensures !old(s).phase.Done? ==>
        (s.phase.Done? <==> !Terminal(old(s).phase) && ack.error.None? && ack.complete && 0 <= old(s).finalSize == ack.offset)
      ensures s.phase.Done? && !old(s).phase.Done? ==> s.doneAt == nowMs && s.finalSize == old(s).finalSize
      ensures !Terminal(old(s).phase) && Moves(old(s), ack) ==> s.sent == s.acked == ack.offset
      ensures !Terminal(old(s).phase) && ack.error.None? && ack.offset >= 0 ==> s == Heard(old(s), ack, link, nowMs)
      ensures !Terminal(old(s).phase) && ack.error.None? && ack.offset < 0 ==> s == old(s)
      ensures !Terminal(old(s).phase) ==>
        w.trusted == if !old(s).restart then old(w).trusted && (Moves(old(s), ack) ==> Fair(chunk, old(s), old(w), ack.offset))
        else if s.restart then old(w).trusted
        else ack.offset == 0 && Held(w) == []
    {
      hide Sound, Deliver, Usable, Hash;
      if Terminal(s.phase) { return; }
      if ack.error.Some? {
        OnError(ack.error.value, ack.offset, nowMs);
        return;
      }
      if ack.offset < 0 { return; }
      OnOffset(ack, nowMs);
    }

    method OnOffset(ack: DemoAck, nowMs: int)
      requires Valid() && !Terminal(s.phase) && ack.offset >= 0 && ack.error.None?
      modifies `s, `w
      ensures Valid() && w == old(w).(checked := w.checked, trusted := w.trusted, confirmed := w.confirmed)
      ensures s == Heard(old(s), ack, link, nowMs) && w.confirmed == (old(w).confirmed || s.phase.Done?)
      ensures (s.phase.Done? <==> ack.complete && 0 <= old(s).finalSize == ack.offset) && (s.phase.Done? ==> s.doneAt == nowMs)
      ensures w.trusted == if old(s).restart then ack.offset == 0 && Held(w) == []
        else old(w).trusted && (Moves(old(s), ack) ==> Fair(chunk, old(s), old(w), ack.offset))
    {
      hide Sound, Deliver, Usable, Hash;
      if s.phase == Announce {
        Resume(ack.offset, nowMs);
      } else {
        Advance(ack.offset, nowMs);
      }
      if ack.complete && s.finalSize >= 0 && ack.offset == s.finalSize {
        w := w.(confirmed := true);
        s := s.(phase := Done, doneAt := nowMs);
      }
    }

    /** An ack while streaming; one below the last means that the platform lost bytes. */
    method Advance(offset: nat, nowMs: int)
      requires Valid() && s.phase == Streaming
      modifies `s, `w
      ensures Valid()
      ensures s == old(s).(sent := if offset < old(s).acked || offset > old(s).sent then offset else old(s).sent,
                           acked := offset, lastAckAt := nowMs)
      ensures w == if offset < old(s).acked || offset > old(s).sent
        then old(w).(trusted := old(w).trusted && Fair(chunk, old(s), old(w), offset)) else old(w)
    {
      hide Sound, Deliver, Usable, Hash;
      if offset < s.acked || offset > s.sent { Move(offset); }
      s := s.(acked := offset, lastAckAt := nowMs);
    }

    /** Continue sending from an offset the platform named. */
    method Move(offset: nat)
      requires CopySound(chunk, s, w, link) && !Terminal(s.phase)
      modifies `s, `w
      ensures CopySound(chunk, s, w, link) && s == old(s).(sent := offset)
      ensures w == old(w).(trusted := old(w).trusted && (s.restart || Fair(chunk, old(s), old(w), offset)))
      ensures w.trusted && !s.restart ==> offset <= |Held(w)|
    {
      hide Sound, Deliver, Usable;
      if !s.restart {
        if w.trusted && Fair(chunk, s, w, offset) {
          MoveSent(View(chunk, s, w), offset);
        } else {
          w := w.(trusted := false);
        }
      }
      s := s.(sent := offset);
    }

    /** The answer to demo.begin: continue from what the platform has. */
    method Resume(offset: nat, nowMs: int)
      requires Valid() && s.phase == Announce
      modifies `s, `w
      ensures Valid()
      ensures s == old(s).(phase := Streaming, sent := offset, acked := offset, session := link, announceTries := 0,
                           restart := false, endSentAt := 0, lastAckAt := nowMs)
      ensures w == old(w).(checked := w.checked, trusted := if old(s).restart then offset == 0 && Held(w) == []
                             else old(w).trusted && Fair(chunk, old(s), old(w), offset))
    {
      hide Deliver, Usable, Hash, Sound;
      if s.restart {
        w := w.(checked := 0, trusted := offset == 0 && Held(w) == []);
        s := s.(sent := offset);
        if w.trusted { FreshCopy(View(chunk, s, w)); }
      } else {
        Move(offset);
      }
      s := s.(phase := Streaming, acked := offset, session := link, announceTries := 0, restart := false,
              endSentAt := 0, lastAckAt := nowMs);
    }

    method OnError(fault: Fault, offset: int, nowMs: int)
      requires Valid() && !Terminal(s.phase)
      modifies `s, `w
      ensures Valid() && !s.phase.Done? && (old(s).restart ==> s.restart)
      ensures w == if fault.Gap? && offset >= 0 && !s.restart
        then old(w).(trusted := old(w).trusted && Fair(chunk, old(s), old(w), offset)) else old(w)
      ensures s.restart == (old(s).restart || (fault.Checksum? && s.phase.Announce?))
      ensures fault.Gap? && offset >= 0 ==> s == old(s).(sent := offset, acked := offset, lastAckAt := nowMs)
      ensures fault.Checksum? ==>
        s == if old(s).checksumFailures < cfg.maxChecksumRetries
        then StartOver(old(s).(checksumFailures := old(s).checksumFailures + 1))
        else old(s).(checksumFailures := old(s).checksumFailures + 1, phase := Failed, doneAt := nowMs)
      ensures fault.Refusal? ==> s == old(s).(phase := Refused, doneAt := nowMs)
      ensures fault.UnknownDemo? ==> s == old(s).(phase := Announce, announcedAt := 0, announceTries := 0)
      ensures fault.Other? || (fault.Gap? && offset < 0) ==> s == old(s).(phase := Announce)
    {
      hide Sound, Deliver, Usable, Hash;
      if fault == Gap && offset >= 0 {
        Move(offset);
        s := s.(acked := offset, lastAckAt := nowMs);
      } else if fault == Checksum {
        s := s.(checksumFailures := s.checksumFailures + 1);
        if s.checksumFailures > cfg.maxChecksumRetries {
          s := s.(phase := Failed, doneAt := nowMs);
        } else {
          s := StartOver(s);
        }
      } else if fault == Refusal {
        s := s.(phase := Refused, doneAt := nowMs);
      } else {
        s := s.(phase := Announce);
        if fault == UnknownDemo { s := s.(announcedAt := 0, announceTries := 0); }
      }
    }

    // ---- sending ---------------------------------------------------------------------------------

    /** Since the final pass the file still holds the sealed bytes. */
    ghost predicate FileKept()
      reads `s, `file, `w
    {
      s.finalSize >= 0 && file.Some? ==> file.value.bytes == w.sealed
    }

    /** Reads the whole file in chunks: its digest, and the sent chunks that may have changed. */
    method Scan(bytes: seq<Byte>) returns (rewrites: seq<nat>, sha: H, total: nat, ghost n: nat)
      requires chunk > 0
      ensures total == |bytes| && sha == Hash(block, init, bytes)
      ensures rewrites == Changed(s.prints, bytes, s.sent, chunk, n)
      ensures (n > 0 ==> Start(n - 1, chunk) < |bytes|) && |bytes| <= Start(n, chunk)
    {
      hide Changed, Padded, FoldBlocks, Remainder;
      var hasher := new Hasher(block, init);
      rewrites, total := [], 0;
      var i, more := 0, true;
      NoChanges(s.prints, bytes, s.sent, chunk);
      while more
        invariant hasher.Valid() && fresh(hasher) && fresh(hasher.buf) && hasher.block == block && hasher.init == init
        invariant 0 <= total <= |bytes| && hasher.message == bytes[..total]
        invariant rewrites == Changed(s.prints, bytes, s.sent, chunk, i)
        invariant (i > 0 ==> Start(i - 1, chunk) < |bytes|) && if more then total == Start(i, chunk) else total == |bytes| <= Start(i, chunk)
        decreases |bytes| - total, more
      {
        var len := Min(chunk, |bytes| - total);
        if len == 0 {
          more := false;
        } else {
          hasher.Update(bytes[total..total + len]);
          assert bytes[..total] + bytes[total..total + len] == bytes[..total + len];
          var changed := IsChanged(bytes, i, total, len);
          if changed { rewrites := rewrites + [total]; }
          StartNext(i, chunk);
          ChangedNext(s.prints, bytes, s.sent, chunk, i);
          total, i := total + len, i + 1;
          if len < chunk { more := false; }
        }
      }
      assert bytes[..total] == bytes;
      n := i;
      sha := hasher.Finish();
    }

    method IsChanged(bytes: seq<Byte>, i: nat, off: nat, len: nat) returns (changed: bool)
      requires chunk > 0 && off == Start(i, chunk) < |bytes| && len == Min(chunk, |bytes| - off)
      ensures changed <==> off < s.sent && !Unchanged(s.prints, bytes, chunk, i)
    {
      hide Start, Print;
      if off >= s.sent { return false; }
      var full := len == chunk;
      var p: bv64 := 0;
      if full { p := Fingerprint(bytes[off..off + len]); }
      var known := full && i < |s.prints| && s.prints[i] != 0;
      return !known || s.prints[i] != p;
    }

    /** The recording is over: hash the file and find the chunks to send again. */
    method FinalPass()
      requires Valid() && s.phase == Streaming && s.session == link && s.finalSize < 0
      requires file.Some? && s.lastSize == |file.value.bytes| && s.sent <= s.lastSize
      modifies `s, `w
      ensures Valid() && FileKept() && w == old(w).(sealed := file.value.bytes, checked := s.sent)
      ensures s == SealedDemo(old(s), file.value.bytes, chunk, Hash(block, init, file.value.bytes))
    {
      hide Sound, Deliver, Hash, Changed, Start;
      var bytes := file.value.bytes;
      var rewrites, sha, total, n := Scan(bytes);
      ChangedStarts(s.prints, bytes, s.sent, chunk, n);
      ChangedEnough(s.prints, bytes, s.sent, chunk, n);
      if w.trusted { Seal(View(chunk, s, w), bytes, n); }
      w := w.(sealed := bytes, checked := s.sent);
      s := s.(finalSize := total, digest := Some(sha), rewrites := rewrites);
      s := s.(sent := Min(s.sent, total));
    }

    /** One chunk onto the bulk lane, if the file and the lane allow. */
    method SendChunk(off: nat, len: nat) returns (ok: bool)
      requires chunk > 0 && file.Some?
      modifies `s, `w, `room
      ensures ok <==> readable && off + len <= |file.value.bytes| && old(room) > 0
      ensures room == old(room) - (if ok then 1 else 0)
      ensures !ok ==> s == old(s) && w == old(w)
      ensures ok ==>
        && w == old(w).(lane := old(w).lane + [Chunk(off, file.value.bytes[off..off + len])])
        && Held(w) == Write(Held(old(w)), off, file.value.bytes[off..off + len])
        && s == old(s).(prints := if len == chunk
                                  then SetPrint(old(s).prints, Index(off, chunk), Print(file.value.bytes[off..off + len])) else old(s).prints)
    {
      hide Print, SetPrint, Write, Held, Index;
      if !readable || off + len > |file.value.bytes| { return false; }
      var data := file.value.bytes[off..off + len];
      if room == 0 { return false; }
      room := room - 1;
      HeldPush(w, off, data);
      w := w.(lane := w.lane + [Chunk(off, data)]);
      if len == chunk {
        var p := Fingerprint(data);
        s := s.(prints := SetPrint(s.prints, Index(off, chunk), p));
      }
      return true;
    }

    /** Streaming in the current session, with the file as last seen. */
    ghost predicate Ready()
      reads this
    {
      && Valid() && s.phase == Streaming && s.session == link && (w.trusted ==> FileKept())
      && file.Some? && s.lastSize == |file.value.bytes| && (s.finalSize < 0 ==> s.sent <= s.lastSize)
    }

    /** The next chunk, if the window, the lane and the recording allow. */
    method SendNext(nowMs: int) returns (ok: bool)
      requires Ready() && s.sent < Limit(s)
      modifies `s, `w, `room
      ensures Ready() && w == old(w).(lane := w.lane, checked := w.checked)
      ensures s == old(s).(sent := s.sent, lastAckAt := TimerAt(cfg, chunk, old(s), nowMs), prints := s.prints)
      ensures ok <==> CanSend(cfg, chunk, readable, old(s), old(room))
      ensures ok <==>
        && readable && old(room) > 0 && (old(s).finalSize >= 0 || old(s).lastSize - old(s).sent >= chunk)
        && (old(s).sent == old(s).acked || old(s).sent + Min(chunk, Limit(old(s)) - old(s).sent) <= old(s).acked + cfg.window)
      ensures s.sent == (if ok then Min(old(s).sent + chunk, Limit(s)) else old(s).sent) && room == old(room) - (if ok then 1 else 0)
      ensures if ok then w.lane == old(w).lane + [Chunk(old(s).sent, Slice(file.value.bytes, old(s).sent, s.sent))] else w == old(w)
    {
      hide Sound, Deliver, Hash, CopySound, Starts;
      var len := Min(chunk, Limit(s) - s.sent);
      if s.finalSize < 0 && len < chunk { return false; }
      if s.sent > s.acked && s.sent - s.acked + len > cfg.window { return false; }
      if s.sent == s.acked { StartTimer(nowMs); }
      ok := Forward(len);
    }

    /** The ack timeout counts from the first unacknowledged byte. */
    method StartTimer(nowMs: int)
      requires Ready()
      modifies `s
      ensures Ready() && s == old(s).(lastAckAt := nowMs)
    {
      hide Sound, Deliver, Hash, CopySound, Starts;
      SameCopy(chunk, s, s.(lastAckAt := nowMs), w, link);
      s := s.(lastAckAt := nowMs);
    }

    method Forward(len: nat) returns (ok: bool)
      requires Ready() && s.sent < Limit(s) && len == Min(chunk, Limit(s) - s.sent) && (s.finalSize < 0 ==> len == chunk)
      requires s.sent - s.acked + len <= cfg.window
      modifies `s, `w, `room
      ensures Ready() && w == old(w).(lane := w.lane, checked := w.checked)
      ensures s == old(s).(sent := s.sent, prints := s.prints)
      ensures ok <==> readable && old(room) > 0
      ensures s.sent == (if ok then old(s).sent + len else old(s).sent) && room == old(room) - (if ok then 1 else 0)
      ensures if ok then w.lane == old(w).lane + [Chunk(old(s).sent, Slice(file.value.bytes, old(s).sent, s.sent))] else w == old(w)
    {
      hide Sound, Deliver, Hash, Print, SetPrint, Write, CopySound, Starts;
      ghost var s0, w0 := s, w;
      ok := SendChunk(s.sent, len);
      if !ok { return; }
      s := s.(sent := s.sent + len);
      w := w.(checked := Max(w.checked, s.sent));
      NextSound(chunk, s0, w0, link, file.value.bytes, len, s, w);
    }

    /** Where the stream stands. */
    ghost function At(): Spot<H>
      reads `s, `w, `room
    {
      Spot(s, w.lane, room)
    }

    /** What a step at this time works with. */
    ghost function Here(nowMs: int): Scene<H>
      reads `file, `readable
      requires file.Some?
    {
      Scene(cfg, chunk, file.value, readable, Hash(block, init, file.value.bytes), nowMs)
    }

    /** Chunks until the window or the budget is used up. */
    method SendAhead(nowMs: int) returns (budget: nat)
      requires Ready()
      modifies `s, `w, `room
      ensures Ready() && w == old(w).(lane := w.lane, checked := w.checked)
      ensures s == old(s).(sent := s.sent, prints := s.prints, lastAckAt := TimerAfter(Here(nowMs), old(s)))
      ensures Ahead(Here(nowMs), old(At()), At())
      ensures s.sent >= Limit(s) ==> budget == 16 - (|w.lane| - |old(w).lane|)
    {
      hide Sound, Deliver, Hash, CopySound, Safe, MaySend, Slice, TimerAt, CanSend, Going, Ahead;
      budget := 16;
      var ok := true;
      ghost var here, start := Here(nowMs), At();
      GoingStart(here, start, w);
      while ok && s.sent < Limit(s) && budget > 0
        invariant Ready() && w == old(w).(lane := w.lane, checked := w.checked) && budget <= 16
        invariant Going(here, start, budget, ok, At())
        decreases budget
      {
        ghost var before, w1 := At(), w;
        budget := budget - 1;
        ok := SendNext(nowMs);
        GoingStep(here, start, budget, before, w1, ok, At());
      }
      GoingEnd(here, start, budget, ok, At());
    }

    /** One changed chunk again. */
    method SendAgain() returns (ok: bool)
      requires Ready() && 0 <= s.finalSize <= s.sent && s.rewrites != []
      modifies `s, `w, `room
      ensures Ready() && w == old(w).(lane := w.lane)
      ensures s == old(s).(rewrites := if ok then old(s).rewrites[1..] else old(s).rewrites, prints := s.prints)
      ensures ok <==> readable && old(room) > 0
      ensures room == old(room) - (if ok then 1 else 0)
      ensures if ok then w.lane == old(w).lane + [Again(file.value.bytes, old(s).rewrites[0], chunk, s.finalSize)] else w == old(w)
    {
      hide Sound, Deliver, Hash, Print, SetPrint, Write, CopySound;
      ghost var s0, w0 := s, w;
      var off := s.rewrites[0];
      var len := Min(chunk, s.finalSize - off);
      ok := SendChunk(off, len);
      if !ok { return; }
      s := s.(rewrites := s.rewrites[1..]);
      AgainSound(chunk, s0, w0, link, file.value.bytes, len, s, w);
    }

    /** Changed chunks until none is left, the budget is used up or one cannot be sent. */
    method SendChanged(budget: nat, ghost nowMs: int) returns (ok: bool)
      requires Ready() && 0 <= s.finalSize <= s.sent
      modifies `s, `w, `room
      ensures Ready() && w == old(w).(lane := w.lane)
      ensures s == old(s).(rewrites := s.rewrites, prints := s.prints) && (ok <==> s.rewrites == [])
      ensures Repeated(Here(nowMs), old(At()), budget, At())
    {
      hide Sound, Deliver, Hash, CopySound, Safe, Repeats, Again, Repeated;
      var left, more := budget, true;
      ghost var bytes, all, k := file.value.bytes, s.rewrites, 0;
      NoRepeats(w.lane, bytes, all, chunk, s.finalSize);
      assert all[0..] == all;
      while s.rewrites != [] && left > 0 && more
        invariant Ready() && w == old(w).(lane := w.lane)
        invariant s == old(s).(rewrites := s.rewrites, prints := s.prints)
        invariant 0 <= k <= |all| && s.rewrites == all[k..] && room + k == old(room)
        invariant w.lane == old(w).lane + Repeats(bytes, all[..k], chunk, s.finalSize)
        invariant if more then k + left == budget else k < |all| && k <= budget && (!readable || room == 0)
        decreases left
      {
        left := left - 1;
        more := SendAgain();
        if more {
          RepeatsPush<H>(bytes, all, k, chunk, s.finalSize);
          k := k + 1;
        }
      }
      ok := s.rewrites == [];
      RepeatedDone(Here(nowMs), old(At()), k, budget, At());
    }

    /** demo.end follows the chunks on the bulk lane. When it is queued, the platform will hold exactly the
        hashed bytes by the time it gets there (up to colliding fingerprints). */
    method SendEnd(nowMs: int)
      requires Ready() && 0 <= s.finalSize <= s.sent && s.rewrites == []
      modifies `s, `w, `room
      ensures Ready() && s == old(s).(endSentAt := if EndDue(cfg, old(s), nowMs) && old(room) > 0 then nowMs else old(s).endSentAt)
      ensures w == old(w).(lane := old(w).lane + (if EndDue(cfg, old(s), nowMs) && old(room) > 0 then [TheEnd(s)] else []))
      ensures room == old(room) - (if EndDue(cfg, old(s), nowMs) && old(room) > 0 then 1 else 0)
      ensures w != old(w) <==> (old(s).endSentAt == 0 || nowMs - old(s).endSentAt >= cfg.endRetry) && old(room) > 0
      ensures TheEnd(s) == Finish(|w.sealed|, Hash(block, init, w.sealed))
      ensures w.trusted ==> Complete(Held(w), w.sealed, chunk) && Held(w) == Held(old(w))
    {
      hide Sound, Deliver, Hash, Complete;
      if w.trusted { Finished(View(chunk, s, w)); }
      if s.endSentAt == 0 || nowMs - s.endSentAt >= cfg.endRetry {
        if room > 0 {
          room := room - 1;
          DeliverEnd(w.peer, w.lane, Finish(s.finalSize, s.digest.value));
          w := w.(lane := w.lane + [Finish(s.finalSize, s.digest.value)]);
          s := s.(endSentAt := nowMs);
          return;
        }
      }
      assert w.lane + [] == w.lane;
    }

    /** The frames a step queued: chunks, then at most one demo.end, which carries the size and digest of
        the sealed bytes. If trusted, the platform holds those bytes when it gets there. */
    ghost predicate Queued(before: seq<Frame<H>>)
      reads `s, `w
    {
      || Extends(before, w.lane)
      || (&& w.lane != [] && s.finalSize >= 0 && Extends(before, w.lane[..|w.lane| - 1])
          && w.lane[|w.lane| - 1] == Finish(|w.sealed|, Hash(block, init, w.sealed))
          && (w.trusted ==> Complete(Deliver(w.peer, w.lane[..|w.lane| - 1]), w.sealed, chunk)))
    }

    /** Chunks, the final pass once the file has settled, changed chunks, and the end. */
    method StreamOn(nowMs: int)
      requires Ready()
      modifies `s, `w, `room
      ensures Ready() && Queued(old(w).lane) && w == old(w).(lane := w.lane, sealed := w.sealed, checked := w.checked)
      ensures w.sealed == if Settles(cfg, old(s), nowMs) && readable then file.value.bytes else old(w).sealed
      ensures Passed(Here(nowMs), old(At()), At())
    {
      hide Sound, Deliver, Hash, Extends, Complete, Safe, CopySound, Ahead, Repeated, SealedDemo, Pieces, Repeats, TimerAt, Passed,
           Wound;
      ExtendsSame(w.lane);
      ghost var here, start := Here(nowMs), At();
      if !s.recording && s.finalSize < 0 && nowMs - s.stoppedAt >= cfg.settle && nowMs - s.sizeSince >= cfg.settle {
        if !readable {
          PassedNone(here, start);
          return;
        }
        SealedFields(s, file.value.bytes, chunk, here.digest);
        FinalPass();
      }
      ghost var sealed := At();
      var budget := SendAhead(nowMs);
      AheadForm(here, sealed, At());
      if s.finalSize < 0 || s.sent < s.finalSize {
        PassedAhead(here, start, sealed, At());
        return;
      }
      ghost var ahead := At();
      FinishUp(budget, nowMs, start.lane);
      PassedWound(here, start, sealed, ahead, At());
    }

    method FinishUp(budget: nat, nowMs: int, ghost before: seq<Frame<H>>)
      requires Ready() && 0 <= s.finalSize <= s.sent && Extends(before, w.lane)
      modifies `s, `w, `room
      ensures Ready() && Queued(before) && w == old(w).(lane := w.lane)
      ensures s == old(s).(rewrites := s.rewrites, prints := s.prints, endSentAt := s.endSentAt)
      ensures Wound(Here(nowMs), old(At()), budget, At())
    {
      hide Sound, Deliver, Hash, Extends, Complete, Safe, CopySound, Repeats, Again, Wound, Repeated;
      ghost var here, start := Here(nowMs), At();
      var ok := SendChanged(budget, nowMs);
      ghost var mid := At();
      RepeatedForm(here, start, budget, mid, before);
      if !ok {
        WoundNot(here, start, budget, mid);
        return;
      }
      QueueEnd(nowMs, before);
      WoundEnd(here, start, budget, mid, At());
    }

    method QueueEnd(nowMs: int, ghost before: seq<Frame<H>>)
      requires Ready() && 0 <= s.finalSize <= s.sent && s.rewrites == [] && Extends(before, w.lane)
      modifies `s, `w, `room
      ensures Ready() && Queued(before)
      ensures s == old(s).(endSentAt := if EndDue(cfg, old(s), nowMs) && old(room) > 0 then nowMs else old(s).endSentAt)
      ensures s.digest.Some?
      ensures w == old(w).(lane := old(w).lane + (if EndDue(cfg, old(s), nowMs) && old(room) > 0 then [TheEnd(s)] else []))
      ensures room == old(room) - (if EndDue(cfg, old(s), nowMs) && old(room) > 0 then 1 else 0)
    {
      hide Sound, Deliver, Hash, Extends, Complete, Safe, CopySound;
      ghost var all := w.lane;
      SendEnd(nowMs);
      if |w.lane| > |all| {
        assert w.lane[..|w.lane| - 1] == all;
        DeliverEnd(w.peer, all, w.lane[|w.lane| - 1]);
      } else {
        assert w.lane == all;
      }
    }

    // ---- one tick --------------------------------------------------------------------------------

    /** One tick of the stream. `lanes` frames fit the bulk lane, `canRead`: the file can be read, `sendOk`:
        the normal lane takes a message. Finished streams stay finished, and the file is deleted only
        under a stored copy. Trust survives unless the file changed after the final pass. */
    method Work(nowMs: int, online: bool, sendOk: bool, lanes: nat, canRead: bool) returns (begun: bool)
      requires Valid()
      modifies `s, `w, `file, `room, `readable
      ensures Valid() && Queued(old(w).lane) && w == old(w).(lane := w.lane, sealed := w.sealed, checked := w.checked, trusted := w.trusted)
      ensures readable == canRead
      ensures Terminal(old(s).phase) ==> s == old(s).(deleted := s.deleted) && w == old(w) && !begun
      ensures s.phase.Done? ==> old(s).phase.Done?
      ensures old(s).phase.Done? && nowMs - s.doneAt >= cfg.keepAfterStored > 0 && !old(s).deleted ==>
        s.deleted && (file.Some? ==> |file.value.bytes| != s.finalSize)
      ensures file != old(file) ==>
        && file.None? && s.phase.Done? && s.acked == s.finalSize == |old(file).value.bytes| && w.confirmed
        && nowMs - s.doneAt >= cfg.keepAfterStored > 0
      ensures !Terminal(old(s).phase) && file.None? ==>
        !begun && w == old(w) && s == (if Gone(old(s), nowMs) then old(s).(phase := Failed, doneAt := nowMs) else old(s))
      ensures !Terminal(old(s).phase) && file.Some? ==> w.trusted == (old(w).trusted && FileKept())
      ensures !Terminal(old(s).phase) && file.Some? ==>
        && w.sealed == (if old(s).finalSize < 0 && s.finalSize >= 0 then file.value.bytes else old(w).sealed)
        && Ticked(Here(nowMs), online, sendOk, link, old(At()).(room := lanes), At(), begun)
      ensures old(s).finalSize < 0 && s.finalSize >= 0 ==>
        !s.recording && nowMs - s.stoppedAt >= cfg.settle && nowMs - s.sizeSince >= cfg.settle
    {
      hide Sound, Deliver, Hash, Complete, CopySound, Extends, Ticked, Here, Safe;
      ExtendsSame(w.lane);
      room, readable, begun := lanes, canRead, false;
      if s.phase == Done {
        Expire(nowMs);
        return;
      }
      if s.phase == Refused || s.phase == Failed { return; }
      begun := WorkOn(nowMs, online, sendOk);
    }

    method WorkOn(nowMs: int, online: bool, sendOk: bool) returns (begun: bool)
      requires Valid() && !Terminal(s.phase)
      modifies `s, `w, `room
      ensures Valid() && Queued(old(w).lane) && w == old(w).(lane := w.lane, sealed := w.sealed, checked := w.checked, trusted := w.trusted)
      ensures !s.phase.Done?
      ensures file.None? ==> !begun && w == old(w) && s == (if Gone(old(s), nowMs) then old(s).(phase := Failed, doneAt := nowMs) else old(s))
      ensures file.Some? ==>
        && w.trusted == (old(w).trusted && FileKept())
        && w.sealed == (if old(s).finalSize < 0 && s.finalSize >= 0 then file.value.bytes else old(w).sealed)
        && Ticked(Here(nowMs), online, sendOk, link, old(At()), At(), begun)
      ensures old(s).finalSize < 0 && s.finalSize >= 0 ==>
        !s.recording && nowMs - s.stoppedAt >= cfg.settle && nowMs - s.sizeSince >= cfg.settle
    {
      hide Sound, Deliver, Hash, Complete, CopySound, Extends, Ticked, Here, Safe;
      ExtendsSame(w.lane);
      begun := false;
      if file.None? {
        Vanished(nowMs);
        return;
      }
      begun := Tail(nowMs, online, sendOk);
    }

    /** Deletes the local copy some time after the platform stored it. */
    method Expire(nowMs: int)
      requires Valid() && s.phase == Done
      modifies `s, `file
      ensures Valid() && s == old(s).(deleted := s.deleted) && s.acked == s.finalSize && w.confirmed
      ensures file == old(file) || (&& file.None? && |old(file).value.bytes| == s.finalSize
                                    && nowMs - s.doneAt >= cfg.keepAfterStored > 0)
      ensures nowMs - s.doneAt >= cfg.keepAfterStored > 0 && !old(s).deleted && file.Some? ==> |file.value.bytes| != s.finalSize
      ensures s.deleted <==> old(s).deleted || nowMs - s.doneAt >= cfg.keepAfterStored > 0
    {
      hide Sound, Deliver, Hash;
      if cfg.keepAfterStored > 0 && nowMs - s.doneAt >= cfg.keepAfterStored && !s.deleted {
        if file.Some? && (s.finalSize < 0 || |file.value.bytes| == s.finalSize) { file := None; }
        s := s.(deleted := true);
      }
    }

    /** The file is not there. */
    method Vanished(nowMs: int)
      requires Valid() && !Terminal(s.phase)
      modifies `s
      ensures Valid()
      ensures s == if Gone(old(s), nowMs) then old(s).(phase := Failed, doneAt := nowMs) else old(s)
    {
      hide Sound, Deliver, Hash;
      if s.lastSize >= 0 || (!s.recording && nowMs - s.stoppedAt > 60000) {
        s := s.(phase := Failed, doneAt := nowMs);
      }
    }

    method Tail(nowMs: int, online: bool, sendOk: bool) returns (begun: bool)
      requires Valid() && !Terminal(s.phase) && file.Some?
      modifies `s, `w, `room
      ensures Valid() && Queued(old(w).lane) && w == old(w).(lane := w.lane, sealed := w.sealed, checked := w.checked, trusted := w.trusted)
      ensures !s.phase.Done? && w.trusted == (old(w).trusted && FileKept())
      ensures w.sealed == (if old(s).finalSize < 0 && s.finalSize >= 0 then file.value.bytes else old(w).sealed)
      ensures Ticked(Here(nowMs), online, sendOk, link, old(At()), At(), begun)
      ensures old(s).finalSize < 0 && s.finalSize >= 0 ==>
        !s.recording && nowMs - s.stoppedAt >= cfg.settle && nowMs - s.sizeSince >= cfg.settle
    {
      hide Sound, Deliver, Hash, Complete, CopySound, Extends, Safe, Looked, Proceeded;
      ExtendsSame(w.lane);
      begun := false;
      LookedFinal(cfg, s, file.value, nowMs);
      var ok := Look(nowMs);
      if !ok || !online { return; }
      begun := Proceed(nowMs, sendOk);
    }

    /** Looks at the file, and loses trust in it if it changed after the final pass. */
    method Look(nowMs: int) returns (ok: bool)
      requires Valid() && !Terminal(s.phase) && file.Some?
      modifies `s, `w
      ensures Valid() && s == Looked(cfg, old(s), file.value, nowMs) && w == old(w).(trusted := old(w).trusted && FileKept())
      ensures (ok <==> !Terminal(s.phase)) && !s.phase.Done? && s.lastSize == |file.value.bytes|
      ensures ok && s.finalSize < 0 ==> s.sent <= s.lastSize
    {
      hide Sound, Deliver, Hash, CopySound, Safe, Looked;
      ok := Observe(nowMs);
      DistrustSound(chunk, s, w, link, w.trusted && FileKept(), cfg);
      w := w.(trusted := w.trusted && FileKept());
    }

    /** Asks where to continue, or streams on. */
    method Proceed(nowMs: int, sendOk: bool) returns (begun: bool)
      requires Valid() && !Terminal(s.phase) && file.Some? && s.lastSize == |file.value.bytes| && (s.finalSize < 0 ==> s.sent <= s.lastSize)
      requires w.trusted ==> FileKept()
      modifies `s, `w, `room
      ensures Valid() && Queued(old(w).lane) && w == old(w).(lane := w.lane, sealed := w.sealed, checked := w.checked)
      ensures !s.phase.Done? && (w.trusted ==> FileKept()) && (!old(FileKept()) ==> !FileKept())
      ensures w.sealed == (if old(s).finalSize < 0 && s.finalSize >= 0 then file.value.bytes else old(w).sealed)
      ensures old(s).phase != Streaming ==> s.finalSize == old(s).finalSize
      ensures Proceeded(Here(nowMs), sendOk, link, old(At()), At(), begun)
      ensures old(s).finalSize < 0 && s.finalSize >= 0 ==>
        !s.recording && nowMs - s.stoppedAt >= cfg.settle && nowMs - s.sizeSince >= cfg.settle
    {
      hide Sound, Deliver, Hash, Complete, CopySound, Extends, Safe, BeginDue, Passed, Asked;
      AskedForm(cfg, s, link, nowMs);
      CheckSession(nowMs);
      if s.phase == Announce {
        ExtendsSame(w.lane);
        begun := AnnounceIt(nowMs, sendOk);
      } else {
        begun := false;
        StreamTick(nowMs);
      }
    }

    method StreamTick(nowMs: int)
      requires Ready()
      modifies `s, `w, `room
      ensures Valid() && Queued(old(w).lane) && w == old(w).(lane := w.lane, sealed := w.sealed, checked := w.checked)
      ensures s.phase == Streaming && (w.trusted ==> FileKept()) && (!old(FileKept()) ==> !FileKept())
      ensures w.sealed == (if old(s).finalSize < 0 && s.finalSize >= 0 then file.value.bytes else old(w).sealed)
      ensures Passed(Here(nowMs), old(At()), At())
      ensures old(s).finalSize < 0 && s.finalSize >= 0 ==>
        !s.recording && nowMs - s.stoppedAt >= cfg.settle && nowMs - s.sizeSince >= cfg.settle
    {
      hide Sound, Deliver, Hash, Complete, CopySound, Extends, Safe, Passed;
      ghost var start := At();
      StreamOn(nowMs);
      PassedFinal(Here(nowMs), start, At());
    }

    /** Looks at the file: a replaced or shorter file means starting over. */
    method Observe(nowMs: int) returns (ok: bool)
      requires Valid() && !Terminal(s.phase) && file.Some?
      modifies `s
      ensures Valid() && !s.phase.Done? && s.lastSize == |file.value.bytes|
      ensures ok ==> (s.finalSize < 0 ==> s.sent <= s.lastSize)
      ensures ok <==> |file.value.bytes| <= cfg.maxDemoBytes
      ensures ok <==> !Terminal(s.phase)
      ensures s == Looked(cfg, old(s), file.value, nowMs)
      ensures (old(s).inode != 0 && file.value.inode != old(s).inode) || |file.value.bytes| < old(s).lastSize ==>
        s.restart && s.sent == s.acked == 0 && s.prints == [] && s.finalSize == -1 && s.phase != Streaming
      ensures ok && old(s).recording && |file.value.bytes| == old(s).lastSize ==>
        (s.recording <==> nowMs - old(s).sizeSince < cfg.staleRecording)
      ensures |file.value.bytes| != old(s).lastSize ==> s.sizeSince == nowMs
    {
      hide Sound, Deliver, Hash, CopySound, Starts;
      var size := |file.value.bytes|;
      NoteFile(nowMs);
      if size > cfg.maxDemoBytes {
        OverSound(chunk, s.(phase := Refused, doneAt := nowMs), w, link);
        s := s.(phase := Refused, doneAt := nowMs);
        return false;
      }
      SameCopy(chunk, s, s.(recording := false, stoppedAt := nowMs), w, link);
      if s.recording && nowMs - s.sizeSince >= cfg.staleRecording {
        s := s.(recording := false, stoppedAt := nowMs);
      }
      return true;
    }

    method NoteFile(nowMs: int)
      requires Valid() && !Terminal(s.phase) && file.Some?
      modifies `s
      ensures Valid() && !Terminal(s.phase) && s.lastSize == |file.value.bytes| && (s.finalSize < 0 ==> s.sent <= s.lastSize)
      ensures s == Noted(old(s), file.value, nowMs)
    {
      hide Sound, Deliver, Hash, Starts;
      var size := |file.value.bytes|;
      if (s.inode != 0 && file.value.inode != s.inode) || size < s.lastSize || (s.finalSize < 0 && size < s.sent) {
        s := StartOver(s).(finalSize := -1, digest := None);
      }
      if !s.restart { SeenGrows(View(chunk, s, w), size); }
      s := s.(inode := file.value.inode, sizeSince := if size != s.lastSize then nowMs else s.sizeSince, lastSize := size);
    }

    /** A new session, or a silent platform: ask again where to continue. */
    method CheckSession(nowMs: int)
      requires Valid() && !Terminal(s.phase)
      modifies `s
      ensures Valid() && s == Asked(cfg, old(s), link, nowMs)
    {
      hide Sound, Deliver, Hash;
      if s.phase == Streaming && s.session != link {
        s := s.(phase := Announce, announcedAt := 0, announceTries := 0);
      }
      if s.phase == Streaming && s.sent > s.acked && nowMs - s.lastAckAt > cfg.ackTimeout {
        s := s.(phase := Announce, announcedAt := 0);
      }
    }

    /** demo.begin, again and again with growing pauses. */
    method AnnounceIt(nowMs: int, sendOk: bool) returns (begun: bool)
      requires Valid() && s.phase == Announce
      modifies `s
      ensures Valid() && (begun <==> sendOk && BeginDue(cfg, old(s), nowMs))
      ensures s == if begun then old(s).(announcedAt := nowMs, announceTries := old(s).announceTries + 1) else old(s)
    {
      hide Sound, Deliver, Hash;
      if s.announcedAt != 0 && nowMs - s.announcedAt < Backoff(cfg, s.announceTries) { return false; }
      if sendOk {
        s := s.(announcedAt := nowMs, announceTries := s.announceTries + 1);
      }
      return sendOk;
    }
  }

  /** Full chunks only while recording, and no more in flight than the window (but always one chunk). */
  predicate MaySend<H>(cfg: Config, chunk: nat, s: Demo<H>) {
    && (s.finalSize >= 0 || s.sent + chunk <= Limit(s))
    && (s.sent <= s.acked || s.sent - s.acked + Min(chunk, Limit(s) - s.sent) <= cfg.window)
  }

  /** A file that was there is missing, or none came in the minute after the recording. */
  predicate Gone<H>(s: Demo<H>, nowMs: int) { s.lastSize >= 0 || (!s.recording && nowMs - s.stoppedAt > 60000) }

  /** Where sending stops for now. */
  function Limit<H>(s: Demo<H>): int { if s.finalSize >= 0 then s.finalSize else s.lastSize }

  predicate CanSend<H>(cfg: Config, chunk: nat, readable: bool, s: Demo<H>, room: int) {
    readable && MaySend(cfg, chunk, s) && room > 0
  }

  /** The ack timeout starts when a chunk is tried while nothing is unacknowledged. */
  function TimerAt<H>(cfg: Config, chunk: nat, s: Demo<H>, nowMs: int): int {
    if s.sent == s.acked && MaySend(cfg, chunk, s) then nowMs else s.lastAckAt
  }

  /** The recording has stopped, and neither it nor the file has changed for a while. */
  predicate Settles<H>(cfg: Config, s: Demo<H>, nowMs: int) {
    !s.recording && s.finalSize < 0 && nowMs - s.stoppedAt >= cfg.settle && nowMs - s.sizeSince >= cfg.settle
  }

  /** Where a stream stands: its state, the frames queued, and how many more the lane takes. */
  datatype Spot<H> = Spot(s: Demo<H>, lane: seq<Frame<H>>, room: int)

  /** What a step works with: the file, its digest, whether it can be read, and the time. */
  datatype Scene<H> = Scene(cfg: Config, chunk: nat, file: File, readable: bool, digest: H, nowMs: int)

  /** The stream after the final pass over the file. */
  function SealedDemo<H>(s: Demo<H>, bytes: seq<Byte>, chunk: nat, digest: H): Demo<H> {
    s.(finalSize := |bytes|, digest := Some(digest), rewrites := Changed(s.prints, bytes, s.sent, chunk, |bytes|))
  }

  predicate EndDue<H>(cfg: Config, s: Demo<H>, nowMs: int) { s.endSentAt == 0 || nowMs - s.endSentAt >= cfg.endRetry }

  function TheEnd<H>(s: Demo<H>): Frame<H>
    requires s.finalSize >= 0 && s.digest.Some?
  {
    Finish(s.finalSize, s.digest.value)
  }

  function Again<H>(bytes: seq<Byte>, off: nat, chunk: nat, size: int): Frame<H> {
    Chunk(off, Slice(bytes, off, Max(0, Min(off + chunk, size))))
  }

  /** After the final pass, if it is due. */
  function MaybeSealed<H>(e: Scene<H>, s: Demo<H>): Demo<H> {
    if Settles(e.cfg, s, e.nowMs) then SealedDemo(s, e.file.bytes, e.chunk, e.digest) else s
  }

  /** The ack timeout after the chunk loop. */
  function TimerAfter<H>(e: Scene<H>, s: Demo<H>): int {
    if s.sent < Limit(s) then TimerAt(e.cfg, e.chunk, s, e.nowMs) else s.lastAckAt
  }

  /** The chunk loop: the frames from the old mark to the new one, and why it stopped. */
  ghost predicate Ahead<H>(e: Scene<H>, a: Spot<H>, b: Spot<H>) {
    && a.s.sent <= b.s.sent && (b.s.sent > a.s.sent ==> b.s.sent <= Limit(b.s))
    && b.lane == a.lane + Pieces(e.file.bytes, a.s.sent, b.s.sent, e.chunk)
    && b.room >= 0 && b.room + |b.lane| == a.room + |a.lane| && |b.lane| - |a.lane| <= 16
    && (b.s.sent < Limit(b.s) ==> |b.lane| - |a.lane| == 16 || !CanSend(e.cfg, e.chunk, e.readable, b.s, b.room))
  }

  /** The rewrite loop: the frames of the chunks it took off the list, and why it stopped. */
  ghost predicate Repeated<H>(e: Scene<H>, a: Spot<H>, budget: int, b: Spot<H>) {
    var k := |a.s.rewrites| - |b.s.rewrites|;
    && 0 <= k <= Max(0, budget) && b.s.rewrites == a.s.rewrites[k..] && b.room >= 0 && b.room + k == a.room
    && b.lane == a.lane + Repeats(e.file.bytes, a.s.rewrites[..k], e.chunk, b.s.finalSize)
    && (b.s.rewrites != [] ==> k == budget || !e.readable || b.room == 0)
  }

  /** The rewrite loop and then the end, if it is due and the lane takes it. */
  ghost predicate Wound<H>(e: Scene<H>, a: Spot<H>, budget: int, b: Spot<H>) {
    var k := |a.s.rewrites| - |b.s.rewrites|;
    k >= 0 && b.s.finalSize >= 0 && b.s.digest.Some? &&
    var mid := Spot(b.s, a.lane + Repeats(e.file.bytes, a.s.rewrites[..k], e.chunk, b.s.finalSize), a.room - k);
    var end := b.s.rewrites == [] && EndDue(e.cfg, a.s, e.nowMs) && mid.room > 0;
    && Repeated(e, a, budget, mid)
    && b.lane == mid.lane + (if end then [TheEnd(b.s)] else [])
    && b.s.endSentAt == (if end then e.nowMs else a.s.endSentAt)
    && b.room == mid.room - (if end then 1 else 0)
  }

  /** One pass of the stream phase, exactly: the final pass if it is due, chunks ahead, changed chunks, and
      the end. */
  ghost predicate Passed<H>(e: Scene<H>, a: Spot<H>, b: Spot<H>) {
    if Settles(e.cfg, a.s, e.nowMs) && !e.readable then b == a
    else
      var s, s1 := b.s, MaybeSealed(e, a.s);
      var lane2 := a.lane + Pieces(e.file.bytes, s1.sent, s.sent, e.chunk);
      var sent := |lane2| - |a.lane|;
      && s == s1.(sent := s.sent, prints := s.prints, rewrites := s.rewrites, endSentAt := s.endSentAt, lastAckAt := TimerAfter(e, s1))
      && Ahead(e, a.(s := s1), Spot(s, lane2, a.room - sent))
      && if s.finalSize < 0 || s.sent < s.finalSize
         then s.rewrites == s1.rewrites && s.endSentAt == s1.endSentAt && b.lane == lane2 && b.room == a.room - sent
         else Wound(e, Spot(s1, lane2, a.room - sent), 16 - sent, b)
  }

  lemma PassedNone<H>(e: Scene<H>, a: Spot<H>)
    requires Settles(e.cfg, a.s, e.nowMs) && !e.readable
    ensures Passed(e, a, a)
  {}

  lemma PassedAhead<H>(e: Scene<H>, a: Spot<H>, a1: Spot<H>, b: Spot<H>)
    requires (Settles(e.cfg, a.s, e.nowMs) ==> e.readable) && a1 == a.(s := MaybeSealed(e, a.s))
    requires b.s == a1.s.(sent := b.s.sent, prints := b.s.prints, lastAckAt := TimerAfter(e, a1.s))
    requires Ahead(e, a1, b) && (b.s.finalSize < 0 || b.s.sent < b.s.finalSize)
    ensures Passed(e, a, b)
  {
    hide Pieces, SealedDemo, TimerAt, CanSend;
  }

  lemma PassedWound<H>(e: Scene<H>, a: Spot<H>, a1: Spot<H>, a2: Spot<H>, b: Spot<H>)
    requires (Settles(e.cfg, a.s, e.nowMs) ==> e.readable) && a1 == a.(s := MaybeSealed(e, a.s))
    requires a2.s == a1.s.(sent := a2.s.sent, prints := a2.s.prints, lastAckAt := TimerAfter(e, a1.s))
    requires b.s == a2.s.(rewrites := b.s.rewrites, prints := b.s.prints, endSentAt := b.s.endSentAt)
    requires !(b.s.finalSize < 0 || b.s.sent < b.s.finalSize)
    requires Ahead(e, a1, a2) && Wound(e, a2, 16 - (|a2.lane| - |a.lane|), b)
    ensures Passed(e, a, b)
  {
    hide MaybeSealed, TimerAfter, CanSend, Passed, Wound, Ahead;
    WoundForm(e, a1, a2, b);
    AheadForm(e, a1, a2.(s := b.s));
    PassedUp(e, a, a1, a2.(s := b.s), b);
  }

  lemma PassedUp<H>(e: Scene<H>, a: Spot<H>, a1: Spot<H>, a2: Spot<H>, b: Spot<H>)
    requires (Settles(e.cfg, a.s, e.nowMs) ==> e.readable) && a1 == a.(s := MaybeSealed(e, a.s)) && a2.s == b.s
    requires b.s == a1.s.(sent := b.s.sent, prints := b.s.prints, rewrites := b.s.rewrites, endSentAt := b.s.endSentAt,
                          lastAckAt := TimerAfter(e, a1.s))
    requires !(b.s.finalSize < 0 || b.s.sent < b.s.finalSize)
    requires a2.lane == a.lane + Pieces(e.file.bytes, a1.s.sent, b.s.sent, e.chunk) && a2.room == a.room - (|a2.lane| - |a.lane|)
    requires Ahead(e, a1, a2) && Wound(e, a2.(s := a1.s), 16 - (|a2.lane| - |a.lane|), b)
    ensures Passed(e, a, b)
  {
    hide MaybeSealed, TimerAfter, CanSend, Wound, Ahead, Pieces;
  }

  lemma SealedFields<H>(s: Demo<H>, bytes: seq<Byte>, chunk: nat, digest: H)
    ensures SealedDemo(s, bytes, chunk, digest) == s.(finalSize := |bytes|, digest := Some(digest),
                                                      rewrites := SealedDemo(s, bytes, chunk, digest).rewrites)
  {}

  lemma AheadForm<H>(e: Scene<H>, a: Spot<H>, b: Spot<H>)
    requires Ahead(e, a, b)
    ensures b.lane == a.lane + Pieces(e.file.bytes, a.s.sent, b.s.sent, e.chunk) && b.room == a.room - (|b.lane| - |a.lane|)
    ensures Extends(a.lane, b.lane)
  {
    PiecesAreChunks<H>(e.file.bytes, a.s.sent, b.s.sent, e.chunk);
  }

  lemma {:induction false} PiecesAreChunks<H>(bytes: seq<Byte>, a: nat, b: nat, chunk: nat)
    ensures forall i | 0 <= i < |Pieces<H>(bytes, a, b, chunk)| :: Pieces<H>(bytes, a, b, chunk)[i].Chunk?
    decreases b - a
  {
    if a < b && chunk > 0 { PiecesAreChunks<H>(bytes, Min(a + chunk, b), b, chunk); }
  }

  /** What the loop after the chunks did, seen from the start of the pass. */
  lemma WoundForm<H>(e: Scene<H>, a1: Spot<H>, a2: Spot<H>, b: Spot<H>)
    requires a2.s == a1.s.(sent := a2.s.sent, prints := a2.s.prints, lastAckAt := a2.s.lastAckAt)
    requires b.s == a2.s.(rewrites := b.s.rewrites, prints := b.s.prints, endSentAt := b.s.endSentAt)
    requires Ahead(e, a1, a2) && Wound(e, a2, 16 - (|a2.lane| - |a1.lane|), b)
    ensures Ahead(e, a1, a2.(s := b.s)) && Wound(e, a2.(s := a1.s), 16 - (|a2.lane| - |a1.lane|), b)
  {
    hide Pieces, Repeats;
  }

  lemma RepeatedDone<H>(e: Scene<H>, a: Spot<H>, k: nat, budget: int, b: Spot<H>)
    requires k <= |a.s.rewrites| && k <= budget && b.s.rewrites == a.s.rewrites[k..] && b.room >= 0 && b.room + k == a.room
    requires b.lane == a.lane + Repeats(e.file.bytes, a.s.rewrites[..k], e.chunk, b.s.finalSize)
    requires b.s.rewrites != [] ==> k == budget || !e.readable || b.room == 0
    ensures Repeated(e, a, budget, b)
  {
    hide Repeats;
    assert k == |a.s.rewrites| - |b.s.rewrites|;
  }

  lemma RepeatedForm<H>(e: Scene<H>, a: Spot<H>, budget: int, b: Spot<H>, before: seq<Frame<H>>)
    requires Repeated(e, a, budget, b) && Extends(before, a.lane)
    ensures Extends(before, b.lane)
  {
    hide Repeats, Extends;
    RepeatsExtend(before, a.lane, e.file.bytes, a.s.rewrites[..|a.s.rewrites| - |b.s.rewrites|], e.chunk, b.s.finalSize);
  }

  lemma WoundNot<H>(e: Scene<H>, a: Spot<H>, budget: int, b: Spot<H>)
    requires Repeated(e, a, budget, b) && b.s.rewrites != []
    requires b.s.finalSize >= 0 && b.s.digest.Some? && b.s.endSentAt == a.s.endSentAt
    ensures Wound(e, a, budget, b)
  {
    hide Repeats;
    assert b.lane + [] == b.lane;
  }

  lemma WoundEnd<H>(e: Scene<H>, a: Spot<H>, budget: int, mid: Spot<H>, b: Spot<H>)
    requires Repeated(e, a, budget, mid) && mid.s.rewrites == []
    requires mid.s.finalSize >= 0 && mid.s.digest.Some? && mid.s.endSentAt == a.s.endSentAt
    requires var end := EndDue(e.cfg, mid.s, e.nowMs) && mid.room > 0;
      && b.s == mid.s.(endSentAt := if end then e.nowMs else mid.s.endSentAt)
      && b.lane == mid.lane + (if end then [TheEnd(b.s)] else [])
      && b.room == mid.room - (if end then 1 else 0)
    ensures Wound(e, a, budget, b)
  {
    hide Repeats;
  }

  lemma RepeatsExtend<H>(before: seq<Frame<H>>, lane: seq<Frame<H>>, bytes: seq<Byte>, offs: seq<nat>, chunk: nat, size: int)
    requires Extends(before, lane)
    ensures Extends(before, lane + Repeats(bytes, offs, chunk, size))
  {
    RepeatsAreChunks<H>(bytes, offs, chunk, size);
  }

  lemma {:induction false} RepeatsAreChunks<H>(bytes: seq<Byte>, offs: seq<nat>, chunk: nat, size: int)
    ensures |Repeats<H>(bytes, offs, chunk, size)| == |offs|
    ensures forall i | 0 <= i < |offs| :: Repeats<H>(bytes, offs, chunk, size)[i].Chunk?
  {
    if offs != [] { RepeatsAreChunks<H>(bytes, offs[..|offs| - 1], chunk, size); }
  }

  lemma RepeatsPush<H>(bytes: seq<Byte>, all: seq<nat>, k: nat, chunk: nat, size: int)
    requires k < |all|
    ensures Repeats<H>(bytes, all[..k + 1], chunk, size) == Repeats(bytes, all[..k], chunk, size) + [Again(bytes, all[k], chunk, size)]
    ensures all[k..][1..] == all[k + 1..] && all[k..][0] == all[k]
  {
    assert all[..k + 1][..k] == all[..k];
  }

  lemma NoRepeats<H>(lane: seq<Frame<H>>, bytes: seq<Byte>, all: seq<nat>, chunk: nat, size: int)
    ensures lane + Repeats(bytes, all[..0], chunk, size) == lane
  {}

  lemma NoPieces<H>(lane: seq<Frame<H>>, bytes: seq<Byte>, from: nat, chunk: nat)
    ensures lane + Pieces(bytes, from, from, chunk) == lane && WholeChunks(from, from, chunk)
  {}

  /** Where the chunk loop stands after `16 - budget` rounds. */
  ghost predicate Going<H>(e: Scene<H>, a: Spot<H>, budget: int, ok: bool, b: Spot<H>) {
    && b.s == a.s.(sent := b.s.sent, prints := b.s.prints, lastAckAt := b.s.lastAckAt)
    && b.s.lastAckAt == (if budget < 16 then TimerAt(e.cfg, e.chunk, a.s, e.nowMs) else a.s.lastAckAt)
    && budget <= 16 && a.s.sent <= b.s.sent && (b.s.sent > a.s.sent ==> b.s.sent <= Limit(b.s)) && a.s.acked <= a.s.sent
    && (budget == 16 ==> ok && b.s.sent == a.s.sent)
    && (budget < 16 ==> a.s.sent < Limit(a.s)) && (ok && budget < 16 ==> b.s.sent > a.s.sent)
    && b.lane == a.lane + Pieces(e.file.bytes, a.s.sent, b.s.sent, e.chunk)
    && (ok && b.s.sent < Limit(b.s) ==> WholeChunks(a.s.sent, b.s.sent, e.chunk))
    && b.room >= 0 && b.room + |b.lane| == a.room + |a.lane|
    && |b.lane| - |a.lane| <= 16 - budget
    && if ok then |b.lane| - |a.lane| == 16 - budget
       else b.s.sent < Limit(b.s) && !CanSend(e.cfg, e.chunk, e.readable, b.s, b.room)
  }

  lemma GoingStart<H>(e: Scene<H>, a: Spot<H>, w: World<H>)
    requires Safe(e.cfg, e.chunk, a.s, w) && a.lane == w.lane && a.room >= 0
    ensures Going(e, a, 16, true, a)
  {
    NoPieces(a.lane, e.file.bytes, a.s.sent, e.chunk);
  }

  lemma GoingStep<H>(e: Scene<H>, a: Spot<H>, budget: nat, c: Spot<H>, w: World<H>, ok: bool, b: Spot<H>)
    requires Going(e, a, budget + 1, true, c)
    requires Safe(e.cfg, e.chunk, c.s, w) && c.s.sent < Limit(c.s) && (ok <==> CanSend(e.cfg, e.chunk, e.readable, c.s, c.room))
    requires b.s == c.s.(sent := b.s.sent, lastAckAt := TimerAt(e.cfg, e.chunk, c.s, e.nowMs), prints := b.s.prints)
    requires b.s.sent == (if ok then Min(c.s.sent + e.chunk, Limit(b.s)) else c.s.sent) && b.room == c.room - (if ok then 1 else 0)
    requires b.lane == if ok then c.lane + [Chunk(c.s.sent, Slice(e.file.bytes, c.s.sent, b.s.sent))] else c.lane
    ensures Going(e, a, budget, ok, b)
  {
    hide Pieces, Slice, WholeChunks, MaySend;
    SameChance(e.cfg, e.chunk, e.readable, c.s, b.s, b.room);
    if budget + 1 == 16 {
      SameChance(e.cfg, e.chunk, e.readable, a.s, c.s, b.room);
      SameTimer(e.cfg, e.chunk, a.s, c.s, e.nowMs);
    }
    if ok { PiecesPush<H>(e.file.bytes, a.s.sent, c.s.sent, b.s.sent, e.chunk); }
  }

  lemma SameTimer<H>(cfg: Config, chunk: nat, s: Demo<H>, t: Demo<H>, nowMs: int)
    requires t == s.(sent := t.sent, prints := t.prints, lastAckAt := t.lastAckAt) && t.sent == s.sent && t.lastAckAt == s.lastAckAt
    ensures TimerAt(cfg, chunk, t, nowMs) == TimerAt(cfg, chunk, s, nowMs)
  {}

  lemma GoingEnd<H>(e: Scene<H>, a: Spot<H>, budget: nat, ok: bool, b: Spot<H>)
    requires Going(e, a, budget, ok, b)
    requires !ok || b.s.sent >= Limit(b.s) || budget == 0
    ensures Ahead(e, a, b)
    ensures b.s == a.s.(sent := b.s.sent, prints := b.s.prints, lastAckAt := TimerAfter(e, a.s))
    ensures b.s.sent >= Limit(b.s) ==> budget == 16 - (|b.lane| - |a.lane|)
  {
    hide Pieces, WholeChunks, TimerAt, CanSend;
  }

  lemma SameChance<H>(cfg: Config, chunk: nat, readable: bool, s: Demo<H>, t: Demo<H>, room: int)
    requires t == s.(sent := t.sent, prints := t.prints, lastAckAt := t.lastAckAt)
    ensures t.sent == s.sent ==> CanSend(cfg, chunk, readable, t, room) == CanSend(cfg, chunk, readable, s, room)
  {}

  lemma SameCopy<H>(chunk: nat, s: Demo<H>, s': Demo<H>, w: World<H>, link: nat)
    requires CopySound(chunk, s, w, link)
    requires s' == s.(lastAckAt := s'.lastAckAt, endSentAt := s'.endSentAt, recording := s'.recording, stoppedAt := s'.stoppedAt)
    ensures CopySound(chunk, s', w, link)
  {
    hide Sound, Deliver;
  }

  lemma NextSound<H>(chunk: nat, s: Demo<H>, w: World<H>, link: nat, bytes: seq<Byte>, len: nat, s': Demo<H>, w': World<H>)
    requires CopySound(chunk, s, w, link) && s.phase.Streaming? && s.session == link && !s.restart && chunk > 0
    requires s.sent < Limit(s) && len == Min(chunk, Limit(s) - s.sent) && (s.finalSize < 0 ==> len == chunk)
    requires s.lastSize == |bytes| && s.sent + len <= |bytes|
    requires s.finalSize >= 0 ==> s.finalSize == |w.sealed| && (w.trusted ==> bytes == w.sealed)
    requires s' == s.(sent := s.sent + len, lastAckAt := s'.lastAckAt,
      prints := if len == chunk then SetPrint(s.prints, Index(s.sent, chunk), Print(bytes[s.sent..s.sent + len])) else s.prints)
    requires w' == w.(lane := w'.lane, checked := Max(w.checked, s'.sent))
    requires Held(w') == Write(Held(w), s.sent, bytes[s.sent..s.sent + len])
    ensures CopySound(chunk, s', w', link)
  {
    hide Sound, Deliver, Print, SetPrint, Write;
    if w.trusted {
      var c := View(chunk, s, w);
      if s.finalSize < 0 {
        SendFull(c, bytes[s.sent..s.sent + len], s.lastSize);
        CheckedFree(View(chunk, s', w'), w.checked);
      } else {
        SendSealed(c);
        PrintsFree(View(chunk, s', w'), s.prints);
      }
    }
  }

  lemma AgainSound<H>(chunk: nat, s: Demo<H>, w: World<H>, link: nat, bytes: seq<Byte>, len: nat, s': Demo<H>, w': World<H>)
    requires CopySound(chunk, s, w, link) && s.phase.Streaming? && s.session == link && !s.restart && chunk > 0
    requires 0 <= s.finalSize <= s.sent && s.rewrites != [] && s.rewrites[0] < s.finalSize
    requires len == Min(chunk, s.finalSize - s.rewrites[0]) && s.rewrites[0] + len <= |bytes|
    requires s.finalSize == |w.sealed| && (w.trusted ==> bytes == w.sealed)
    requires s' == s.(rewrites := s.rewrites[1..], prints := s'.prints)
    requires w' == w.(lane := w'.lane)
    requires Held(w') == Write(Held(w), s.rewrites[0], bytes[s.rewrites[0]..s.rewrites[0] + len])
    ensures CopySound(chunk, s', w', link)
  {
    hide Sound, Deliver, Print, SetPrint, Write;
    if w.trusted {
      SendRewrite(View(chunk, s, w));
      PrintsFree(View(chunk, s', w'), s.prints);
    }
  }

  lemma HeldPush<H>(w: World<H>, off: nat, data: seq<Byte>)
    ensures Held(w.(lane := w.lane + [Chunk(off, data)])) == Write(Held(w), off, data)
  {
    DeliverPush(w.peer, w.lane, Chunk(off, data));
  }

  lemma DeliverEnd<H>(peer: seq<Byte>, lane: seq<Frame<H>>, f: Frame<H>)
    requires f.Finish?
    ensures Deliver(peer, lane + [f]) == Deliver(peer, lane)
  {
    DeliverPush(peer, lane, f);
  }

  function Pow2(n: nat): nat { if n == 0 then 1 else 2 * Pow2(n - 1) }

  /** 5 s, 10 s, 20 s, ... */
  function Backoff(cfg: Config, tries: nat): int {
    if tries == 0 then 0 else Min(cfg.announceBackoffMax, 5000 * Pow2(Min(tries - 1, 12)))
  }

  /** The pause doubles with every try, up to its maximum. */
  lemma BackoffDoubles(cfg: Config, tries: nat)
    requires cfg.announceBackoffMax >= 0
    ensures Backoff(cfg, 0) == 0 && Backoff(cfg, 1) == Min(5000, cfg.announceBackoffMax)
    ensures 0 < tries < 13 ==> Backoff(cfg, tries + 1) == Min(2 * Backoff(cfg, tries), cfg.announceBackoffMax)
    ensures tries >= 13 ==> Backoff(cfg, tries + 1) == Backoff(cfg, tries)
  {
    assert Pow2(0) == 1;
    if 0 < tries < 13 { assert Pow2(tries) == 2 * Pow2(tries - 1); }
  }

  /** The stream after an ack that names an offset. */
  function Heard<H>(s: Demo<H>, ack: DemoAck, link: nat, nowMs: int): Demo<H>
    requires ack.offset >= 0
  {
    var t := if s.phase.Announce?
      then s.(phase := Streaming, sent := ack.offset, acked := ack.offset, session := link, announceTries := 0, restart := false,
              endSentAt := 0, lastAckAt := nowMs)
      else s.(sent := if ack.offset < s.acked || ack.offset > s.sent then ack.offset else s.sent, acked := ack.offset, lastAckAt := nowMs);
    if ack.complete && t.finalSize >= 0 && ack.offset == t.finalSize then t.(phase := Done, doneAt := nowMs) else t
  }

  /** The file is another one, or shorter than before, or than what was sent. */
  predicate Replaced<H>(s: Demo<H>, f: File) {
    || (s.inode != 0 && f.inode != s.inode) || |f.bytes| < s.lastSize
    || (s.finalSize < 0 && |f.bytes| < s.sent)
  }

  function Noted<H>(s: Demo<H>, f: File, nowMs: int): Demo<H> {
    (if Replaced(s, f) then StartOver(s).(finalSize := -1, digest := None) else s)
    .(inode := f.inode, sizeSince := if |f.bytes| != s.lastSize then nowMs else s.sizeSince, lastSize := |f.bytes|)
  }

  /** The stream after a look at the file. */
  function Looked<H>(cfg: Config, s: Demo<H>, f: File, nowMs: int): Demo<H> {
    var n := Noted(s, f, nowMs);
    if |f.bytes| > cfg.maxDemoBytes then n.(phase := Refused, doneAt := nowMs)
    else if n.recording && nowMs - n.sizeSince >= cfg.staleRecording then n.(recording := false, stoppedAt := nowMs)
    else n
  }

  /** In a new session, or after a silence, the platform is asked again. */
  function Asked<H>(cfg: Config, s: Demo<H>, link: nat, nowMs: int): Demo<H> {
    if s.phase != Streaming then s
    else if s.session != link then s.(phase := Announce, announcedAt := 0, announceTries := 0)
    else if s.sent > s.acked && nowMs - s.lastAckAt > cfg.ackTimeout then s.(phase := Announce, announcedAt := 0)
    else s
  }

  lemma AskedForm<H>(cfg: Config, s: Demo<H>, link: nat, nowMs: int)
    requires !Terminal(s.phase)
    ensures var a := Asked(cfg, s, link, nowMs);
      && (a.phase == Announce || (a.phase == Streaming && a == s && s.session == link))
      && a.finalSize == s.finalSize && a.lastSize == s.lastSize
  {}

  predicate BeginDue<H>(cfg: Config, s: Demo<H>, nowMs: int) {
    s.announcedAt == 0 || nowMs - s.announcedAt >= Backoff(cfg, s.announceTries)
  }

  /** One tick of a stream that is not finished and whose file is there, exactly. */
  ghost predicate Ticked<H>(e: Scene<H>, online: bool, sendOk: bool, link: nat, a: Spot<H>, b: Spot<H>, begun: bool) {
    var seen := Looked(e.cfg, a.s, e.file, e.nowMs);
    if Terminal(seen.phase) || !online then b.s == seen && b.lane == a.lane && !begun
    else Proceeded(e, sendOk, link, a.(s := seen), b, begun)
  }

  ghost predicate Proceeded<H>(e: Scene<H>, sendOk: bool, link: nat, a: Spot<H>, b: Spot<H>, begun: bool) {
    var asked := Asked(e.cfg, a.s, link, e.nowMs);
    if asked.phase.Announce? then
      && b.lane == a.lane && (begun <==> sendOk && BeginDue(e.cfg, asked, e.nowMs))
      && b.s == if begun then asked.(announcedAt := e.nowMs, announceTries := asked.announceTries + 1) else asked
    else !begun && Passed(e, a.(s := asked), b)
  }

  lemma LookedFinal<H>(cfg: Config, s: Demo<H>, f: File, nowMs: int)
    ensures var n := Looked(cfg, s, f, nowMs); n.finalSize == s.finalSize || (n.finalSize == -1 && n.phase != Streaming)
  {}

  /** Only the final pass sets the final size. */
  lemma PassedFinal<H>(e: Scene<H>, a: Spot<H>, b: Spot<H>)
    requires Passed(e, a, b)
    ensures b.s.finalSize == if Settles(e.cfg, a.s, e.nowMs) && e.readable then |e.file.bytes| else a.s.finalSize
    ensures a.s.finalSize < 0 && b.s.finalSize >= 0 ==>
      !b.s.recording && e.nowMs - b.s.stoppedAt >= e.cfg.settle && e.nowMs - b.s.sizeSince >= e.cfg.settle
    ensures b.s.phase == a.s.phase
  {
    hide Ahead, Wound, Pieces, TimerAt;
  }

  lemma SeenGrows(c: Copy, seen: nat)
    requires c.seal.None? ==> c.seen <= seen
    ensures Sound(c) ==> Sound(c.(seen := seen))
  {}

  lemma OverSound<H>(chunk: nat, s: Demo<H>, w: World<H>, link: nat)
    requires Terminal(s.phase)
    ensures CopySound(chunk, s, w, link)
  {}

  lemma DistrustSound<H>(chunk: nat, s: Demo<H>, w: World<H>, link: nat, trusted: bool, cfg: Config)
    requires CopySound(chunk, s, w, link) && Safe(cfg, chunk, s, w) && (trusted ==> w.trusted)
    ensures CopySound(chunk, s, w.(trusted := trusted), link) && Safe(cfg, chunk, s, w.(trusted := trusted))
  {
    hide Sound, Deliver;
  }

  /** Before the final pass `checked` does not matter; after it, fingerprints do not. */
  lemma CheckedFree(c: Copy, checked: nat)
    requires c.seal.None?
    ensures Sound(c.(checked := checked)) == Sound(c)
  {}

  lemma PrintsFree(c: Copy, prints: seq<bv64>)
    requires c.seal.Some?
    ensures Sound(c.(prints := prints)) == Sound(c)
  {}

  /** More frames, all of them chunks. */
  ghost predicate Extends<H>(a: seq<Frame<H>>, b: seq<Frame<H>>) {
    |a| <= |b| && b[..|a|] == a && forall i | |a| <= i < |b| :: b[i].Chunk?
  }

  lemma ExtendsSame<H>(a: seq<Frame<H>>)
    ensures Extends(a, a)
  {}

  /** The next demo.begin asks the platform to drop its copy. */
  function StartOver<H>(s: Demo<H>): Demo<H> {
    s.(restart := true, phase := Announce, announcedAt := 0, announceTries := 0, sent := 0, acked := 0, prints := [],
       rewrites := [], endSentAt := 0)
  }

  lemma FreshCopy(c: Copy)
    requires c.chunk > 0 && c.held == [] && c.sent == 0 && c.checked == 0 && c.rewrites == []
    ensures Sound(c)
  {
    hide Print;
    if c.seal.Some? {
      forall k: nat | Start(k, c.chunk) < 0 ensures false {}
    }
  }

  lemma NoChanges(prints: seq<bv64>, file: seq<Byte>, sent: nat, chunk: nat)
    ensures Changed(prints, file, sent, chunk, 0) == [] && Start(0, chunk) == 0
  {}

  lemma ChangedNext(prints: seq<bv64>, file: seq<Byte>, sent: nat, chunk: nat, n: nat)
    ensures Changed(prints, file, sent, chunk, n + 1) == Changed(prints, file, sent, chunk, n) +
      (if Start(n, chunk) < sent && !Unchanged(prints, file, chunk, n) then [Start(n, chunk)] else [])
  {}

  lemma StartNext(i: nat, chunk: nat)
    ensures Start(i + 1, chunk) == Start(i, chunk) + chunk
  {}

  // ---- the copy --------------------------------------------------------------------------------

  /** Demo copy correctness. Once demo.end is queued, the bytes the platform holds when it gets there have
      the length and the fingerprints of the file that was hashed, and are that file exactly
      unless two of its chunks collide; then the digest in demo.end is the digest of the copy. */
  lemma CopyCorrect<H>(st: Streamer<H>, before: seq<Frame<H>>)
    requires st.Valid() && st.w.trusted && st.Queued(before) && !Extends(before, st.w.lane)
    ensures var n := |st.w.lane| - 1;
      n >= 0 &&
      var copy := Deliver(st.w.peer, st.w.lane[..n]);
      && |copy| == |st.w.sealed|
      && (copy == st.w.sealed <==> !Collide(copy, st.w.sealed, st.chunk))
      && (copy == st.w.sealed ==> st.w.lane[n] == Finish(|copy|, Hash(st.block, st.init, copy)))
  {
    hide Sound, Deliver, Hash, Collide, Extends;
    CompleteMeansEqual(Deliver(st.w.peer, st.w.lane[..|st.w.lane| - 1]), st.w.sealed, st.chunk);
  }
}
