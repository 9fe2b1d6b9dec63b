/** The platform's copy of a demo that is being streamed to it (plugins/fleet/fleet_demo.cpp and section
    12.2 of docs/FLEET.md): the peer's byte buffer, the frames in flight, the chunk fingerprints, and what
    keeps the copy sound. The class that sends is in `DemoStream`. */
module DemoCopy {
  import opened Basics
  import opened JsonValue
  import opened Sha256

  // ---- fingerprints ----------------------------------------------------------------------------

  const FNV_BASIS: bv64 := 1469598103934665603

  function FnvStep(h: bv64, b: Byte): bv64 { Times(Mixed(h, Bits(b))) }

  predicate Odd(n: nat) { n % 2 == 1 }

  /** Halved `k` times. */
  function Half(n: nat, k: nat): nat { if k == 0 then n else Half(n, k - 1) / 2 }

  /** A byte as the low bits of a word. */
  function Bits(b: Byte): bv64 {
    Word(Odd(b), Odd(Half(b, 1)), Odd(Half(b, 2)), Odd(Half(b, 3)), Odd(Half(b, 4)), Odd(Half(b, 5)), Odd(Half(b, 6)), Odd(Half(b, 7)))
  }

  function Word(b0: bool, b1: bool, b2: bool, b3: bool, b4: bool, b5: bool, b6: bool, b7: bool): bv64 {
    (if b0 then 1 else 0) | (if b1 then 2 else 0) | (if b2 then 4 else 0) | (if b3 then 8 else 0) |
    (if b4 then 16 else 0) | (if b5 then 32 else 0) | (if b6 then 64 else 0) | (if b7 then 128 else 0)
  }

  function Mixed(h: bv64, x: bv64): bv64 { h ^ x }

  /** Times the FNV prime. */
  function Times(h: bv64): bv64 { h * 1099511628211 }

  function Fnv(data: seq<Byte>): bv64 {
    if data == [] then FNV_BASIS else FnvStep(Fnv(data[..|data| - 1]), data[|data| - 1])
  }

  /** The fingerprint of a chunk; never 0, which stands for "unknown". */
  function Print(data: seq<Byte>): (p: bv64)
    ensures p != 0
  {
    if Fnv(data) == 0 then 1 else Fnv(data)
  }

  function TimesBack(h: bv64): bv64 { h * 0xce965057aff6957b }

  lemma Undo(h: bv64)
    ensures TimesBack(Times(h)) == h
  {
    assert TimesBack(h * 1099511628211) == h;
    hide TimesBack;
    assert Times(h) == h * 1099511628211;
  }

  lemma Unmix(h: bv64, x: bv64)
    ensures Mixed(Mixed(h, x), x) == h && Mixed(x, h) == Mixed(h, x)
  {}

  lemma WordInjective(a0: bool, a1: bool, a2: bool, a3: bool, a4: bool, a5: bool, a6: bool, a7: bool,
                      b0: bool, b1: bool, b2: bool, b3: bool, b4: bool, b5: bool, b6: bool, b7: bool)
    requires Word(a0, a1, a2, a3, a4, a5, a6, a7) == Word(b0, b1, b2, b3, b4, b5, b6, b7)
    ensures a0 == b0 && a1 == b1 && a2 == b2 && a3 == b3 && a4 == b4 && a5 == b5 && a6 == b6 && a7 == b7
  {}

  lemma ByteBits(b: Byte, c: Byte)
    ensures Bits(b) == Bits(c) ==> b == c
  {
    hide Word, Half, Odd;
    if Bits(b) == Bits(c) {
      WordInjective(Odd(b), Odd(Half(b, 1)), Odd(Half(b, 2)), Odd(Half(b, 3)), Odd(Half(b, 4)), Odd(Half(b, 5)), Odd(Half(b, 6)), Odd(Half(b, 7)),
                    Odd(c), Odd(Half(c, 1)), Odd(Half(c, 2)), Odd(Half(c, 3)), Odd(Half(c, 4)), Odd(Half(c, 5)), Odd(Half(c, 6)), Odd(Half(c, 7)));
      hide Bits;
      SameBits(b, c);
    }
  }

  lemma SameBits(b: Byte, c: Byte)
    requires Odd(b) == Odd(c) && Odd(Half(b, 1)) == Odd(Half(c, 1)) && Odd(Half(b, 2)) == Odd(Half(c, 2))
    requires Odd(Half(b, 3)) == Odd(Half(c, 3)) && Odd(Half(b, 4)) == Odd(Half(c, 4)) && Odd(Half(b, 5)) == Odd(Half(c, 5))
    requires Odd(Half(b, 6)) == Odd(Half(c, 6)) && Odd(Half(b, 7)) == Odd(Half(c, 7))
    ensures b == c
  {
    NoneLeft(b);
    NoneLeft(c);
    hide Half, Odd;
    OneBit(b, c, 7);
    OneBit(b, c, 6);
    OneBit(b, c, 5);
    OneBit(b, c, 4);
    OneBit(b, c, 3);
    OneBit(b, c, 2);
    OneBit(b, c, 1);
    OneBit(b, c, 0);
  }

  lemma NoneLeft(b: Byte)
    ensures Half(b, 8) == 0
  {
    assert Pow(8) == 256 by { assert Pow(4) == 16; }
    HalvedAway(b, 256, 8);
  }

  /** Numbers with the same halves and last bit are the same. */
  lemma OneBit(b: nat, c: nat, k: nat)
    ensures Odd(Half(b, k)) == Odd(Half(c, k)) && Half(b, k + 1) == Half(c, k + 1) ==> Half(b, k) == Half(c, k)
    ensures Half(b, 0) == b && Half(c, 0) == c
  {}

  /** After eight halvings nothing is left of a byte. */
  lemma {:induction false} HalvedAway(b: nat, bound: nat, k: nat)
    requires b < bound && bound == Pow(k)
    ensures Half(b, k) == 0
  {
    if k > 0 {
      Halved(b, k - 1);
      HalvedAway(b / 2, bound / 2, k - 1);
    }
  }

  function Pow(k: nat): nat { if k == 0 then 1 else 2 * Pow(k - 1) }

  lemma {:induction false} Halved(b: nat, k: nat)
    ensures Half(b, k + 1) == Half(b / 2, k)
  {
    if k > 0 { Halved(b, k - 1); }
  }

  /** One step loses nothing, neither of what came before nor of the byte: its factor is odd. */
  lemma FnvStepInjective(h: bv64, g: bv64, b: Byte, c: Byte)
    ensures FnvStep(h, b) == FnvStep(g, b) ==> h == g
    ensures FnvStep(h, b) == FnvStep(h, c) ==> b == c
  {
    ByteBits(b, c);
    hide Times, TimesBack, Mixed, Bits;
    var x, y := Bits(b), Bits(c);
    Undo(Mixed(h, x));
    Undo(Mixed(g, x));
    Undo(Mixed(h, y));
    Unmix(h, x);
    Unmix(g, x);
    Unmix(x, h);
    Unmix(y, h);
  }

  /** A single changed byte always shows. */
  lemma {:induction false} OneByteShows(data: seq<Byte>, i: nat, c: Byte)
    requires i < |data| && c != data[i]
    ensures Fnv(data[i := c]) != Fnv(data)
  {
    hide FnvStep;
    var last, other := |data| - 1, data[i := c];
    FnvStepInjective(Fnv(data[..last]), Fnv(other[..last]), data[last], other[last]);
    if i < last {
      OneByteShows(data[..last], i, c);
      assert other[..last] == data[..last][i := c];
    } else {
      assert other[..last] == data[..last];
    }
  }

  method Fingerprint(data: seq<Byte>) returns (p: bv64)
    ensures p == Print(data)
  {
    hide FnvStep;
    var h := FNV_BASIS;
    for i := 0 to |data|
      invariant h == Fnv(data[..i])
    {
      assert data[..i + 1][..i] == data[..i];
      h := FnvStep(h, data[i]);
    }
    assert data[..|data|] == data;
    p := if h == 0 then 1 else h;
  }

  // ---- the peer --------------------------------------------------------------------------------

  datatype Frame<H> = Chunk(off: nat, data: seq<Byte>) | Finish(size: nat, digest: H)

  /** The peer stores a chunk unless it would leave a hole. */
  function Write(b: seq<Byte>, off: nat, data: seq<Byte>): (r: seq<Byte>)
    ensures |b| <= |r|
  {
    if off > |b| then b
    else b[..off] + data + (if off + |data| <= |b| then b[off + |data|..] else [])
  }

  function Take<H>(b: seq<Byte>, f: Frame<H>): seq<Byte> {
    if f.Chunk? then Write(b, f.off, f.data) else b
  }

  /** What the peer holds once everything in flight has arrived, in order. */
  function Deliver<H>(b: seq<Byte>, lane: seq<Frame<H>>): seq<Byte> {
    if lane == [] then b else Take(Deliver(b, lane[..|lane| - 1]), lane[|lane| - 1])
  }

  lemma DeliverPush<H>(b: seq<Byte>, lane: seq<Frame<H>>, f: Frame<H>)
    ensures Deliver(b, lane + [f]) == Take(Deliver(b, lane), f)
  {
    assert (lane + [f])[..|lane|] == lane;
  }

  /** The peer may take frames one by one or all later: it ends up with the same bytes. */
  lemma {:induction false} DeliverSplit<H>(b: seq<Byte>, first: seq<Frame<H>>, rest: seq<Frame<H>>)
    ensures Deliver(b, first + rest) == Deliver(Deliver(b, first), rest)
  {
    if rest == [] {
      assert first + rest == first;
    } else {
      var before, last := rest[..|rest| - 1], rest[|rest| - 1];
      DeliverSplit(b, first, before);
      assert first + rest == (first + before) + [last];
      DeliverPush(b, first + before, last);
    }
  }

  /** Frames that only write at `keep` or later leave the first `keep` bytes alone. */
  predicate WritesFrom<H>(lane: seq<Frame<H>>, keep: nat) {
    forall i | 0 <= i < |lane| :: lane[i].Chunk? ==> lane[i].off >= keep
  }

  lemma {:induction false} PrefixSurvives<H>(b: seq<Byte>, lane: seq<Frame<H>>, keep: nat)
    requires keep <= |b| && WritesFrom(lane, keep)
    ensures keep <= |Deliver(b, lane)| && Deliver(b, lane)[..keep] == b[..keep]
  {
    if lane != [] {
      PrefixSurvives(b, lane[..|lane| - 1], keep);
      assert lane[|lane| - 1].Chunk? ==> lane[|lane| - 1].off >= keep;
    }
  }

  // ---- chunks ----------------------------------------------------------------------------------

  function Start(k: nat, chunk: nat): nat { k * chunk }

  function Index(off: nat, chunk: nat): nat
    requires chunk > 0
  {
    off / chunk
  }

  /** The end of chunk `k` in a file of `size` bytes. */
  function End(k: nat, chunk: nat, size: nat): nat { Min(Start(k, chunk) + chunk, size) }

  lemma StartOrder(j: nat, k: nat, chunk: nat)
    requires j < k
    ensures Start(j, chunk) + chunk <= Start(k, chunk)
  {
    LessByOne(j, k, chunk);
  }

  lemma StartOf(off: nat, chunk: nat)
    requires chunk > 0 && off % chunk == 0
    ensures Start(off / chunk, chunk) == off && (off + chunk) % chunk == 0
  {
    var q := off / chunk;
    assert off == q * chunk;
    assert off + chunk == (q + 1) * chunk;
    MultipleOf(q + 1, chunk);
  }

  lemma MultipleOf(k: nat, chunk: nat)
    requires chunk > 0
    ensures k * chunk % chunk == 0 && k * chunk / chunk == k
  {
    var n := k * chunk;
    assert n == n / chunk * chunk + n % chunk;
    DivisionUnique(k, 0, n / chunk, n % chunk, chunk);
  }

  lemma DivisionUnique(q: int, r: int, q': int, r': int, chunk: nat)
    requires q * chunk + r == q' * chunk + r' && 0 <= r < chunk && 0 <= r' < chunk
    ensures q == q' && r == r'
  {
    if q > q' { LessByOne(q', q, chunk); }
    if q < q' { LessByOne(q, q', chunk); }
  }

  lemma LessByOne(q: int, p: int, chunk: nat)
    requires q < p
    ensures q * chunk + chunk <= p * chunk
  {
    assert (p - q - 1) * chunk >= 0;
  }

  // ---- the copy --------------------------------------------------------------------------------

  /** The sender's view together with what the peer will hold. `prints[k]` is the fingerprint of chunk
      `k` as sent (0: unknown), `rewrites` the chunks still to be sent again, `seal` the bytes the final
      pass hashed, `checked` how far the copy was compared or sent since, `held` the peer's bytes after
      everything in flight, `seen` the largest file size seen. */
  datatype Copy = Copy(chunk: nat, sent: nat, prints: seq<bv64>, rewrites: seq<nat>, seal: Option<seq<Byte>>,
                       checked: nat, held: seq<Byte>, seen: nat)

  predicate PrintsHold(prints: seq<bv64>, held: seq<Byte>, chunk: nat) {
    forall k | 0 <= k < |prints| && prints[k] != 0 && Start(k, chunk) + chunk <= |held| ::
      prints[k] == Print(held[Start(k, chunk)..Start(k, chunk) + chunk])
  }

  /** Chunk `k` of the copy equals the sealed one, or at least has its fingerprint. */
  predicate Same(held: seq<Byte>, sealed: seq<Byte>, k: nat, chunk: nat)
    requires Start(k, chunk) < |sealed| && End(k, chunk, |sealed|) <= |held|
  {
    var a, z := Start(k, chunk), End(k, chunk, |sealed|);
    held[a..z] == sealed[a..z] || (z - a == chunk && Print(held[a..z]) == Print(sealed[a..z]))
  }

  /** Every compared chunk the peer holds is right, or will be sent again. */
  ghost predicate Matches(held: seq<Byte>, sealed: seq<Byte>, rewrites: seq<nat>, checked: nat, chunk: nat) {
    && checked <= |sealed|
    && forall k: nat | Start(k, chunk) < checked && End(k, chunk, |sealed|) <= |held| ::
         Start(k, chunk) in rewrites || Same(held, sealed, k, chunk)
  }

  predicate Starts(rewrites: seq<nat>, chunk: nat, size: nat)
    requires chunk > 0
  {
    forall i | 0 <= i < |rewrites| :: rewrites[i] % chunk == 0 && rewrites[i] < size
  }

  ghost predicate Sound(c: Copy) {
    && c.chunk > 0
    && match c.seal
       case None => c.sent % c.chunk == 0 && |c.held| <= c.seen && PrintsHold(c.prints, c.held, c.chunk)
       case Some(sealed) =>
         && |c.held| <= |sealed| && c.sent <= c.checked
         && (c.sent % c.chunk == 0 || c.sent == |sealed|)
         && Starts(c.rewrites, c.chunk, |sealed|)
         && Matches(c.held, sealed, c.rewrites, c.checked, c.chunk)
  }

  /** Room for fingerprint `i`, and `i` set. */
  function SetPrint(prints: seq<bv64>, i: nat, p: bv64): seq<bv64> {
    if i < |prints| then prints[i := p] else prints + Unknown(i - |prints|) + [p]
  }

  function Unknown(n: nat): (r: seq<bv64>)
    ensures |r| == n && forall i | 0 <= i < n :: r[i] == 0
  {
    if n == 0 then [] else Unknown(n - 1) + [0]
  }

  /** A chunk written at its place is there; everything before and after it is as it was. */
  lemma WriteAt(held: seq<Byte>, at: nat, data: seq<Byte>)
    requires at <= |held|
    ensures var r := Write(held, at, data);
      && |r| == (if at + |data| > |held| then at + |data| else |held|)
      && r[at..at + |data|] == data && r[..at] == held[..at]
      && (at + |data| <= |held| ==> r[at + |data|..] == held[at + |data|..])
  {}

  lemma SliceKept(held: seq<Byte>, at: nat, data: seq<Byte>, a: nat, z: nat)
    requires at <= |held| && a <= z <= |held| && (z <= at || at + |data| <= a)
    ensures |held| <= |Write(held, at, data)| && Write(held, at, data)[a..z] == held[a..z]
  {
    var r := Write(held, at, data);
    if z <= at {
      assert r[..at][a..z] == held[..at][a..z];
    } else {
      var m := at + |data|;
      assert r[m..] == held[m..];
      assert r[m..][a - m..z - m] == r[a..z];
      assert held[m..][a - m..z - m] == held[a..z];
    }
  }

  /** Writing chunk `j` leaves every other chunk alone. */
  lemma OtherChunk(held: seq<Byte>, j: nat, data: seq<Byte>, chunk: nat, k: nat, z: nat)
    requires Start(j, chunk) <= |held| && |data| <= chunk && k != j
    requires Start(k, chunk) <= z <= Start(k, chunk) + chunk
    requires z <= |Write(held, Start(j, chunk), data)| && Start(k, chunk) < z
    ensures z <= |held| && Write(held, Start(j, chunk), data)[Start(k, chunk)..z] == held[Start(k, chunk)..z]
  {
    hide Start, Write;
    if k < j { StartOrder(k, j, chunk); } else { StartOrder(j, k, chunk); }
    WriteAt(held, Start(j, chunk), data);
    SliceKept(held, Start(j, chunk), data, Start(k, chunk), z);
  }

  // ---- what each step keeps --------------------------------------------------------------------

  lemma SetPrintAt(prints: seq<bv64>, i: nat, p: bv64)
    ensures var r := SetPrint(prints, i, p);
      i < |r| && r[i] == p && forall k | 0 <= k < |r| && k != i && r[k] != 0 :: k < |prints| && r[k] == prints[k]
  {}

  /** While recording: the next full chunk. */
  lemma SendFull(c: Copy, data: seq<Byte>, seen: nat)
    requires Sound(c) && c.seal.None? && c.sent <= |c.held| && |data| == c.chunk
    requires c.seen <= seen && c.sent + c.chunk <= seen
    ensures Sound(c.(held := Write(c.held, c.sent, data), sent := c.sent + c.chunk, seen := seen,
                     prints := SetPrint(c.prints, Index(c.sent, c.chunk), Print(data))))
    ensures c.sent + c.chunk <= |Write(c.held, c.sent, data)|
  {
    hide Print, SetPrint, Write;
    var j := Index(c.sent, c.chunk);
    StartOf(c.sent, c.chunk);
    WriteAt(c.held, c.sent, data);
    SetPrintAt(c.prints, j, Print(data));
    hide Start;
    var r, ps := Write(c.held, c.sent, data), SetPrint(c.prints, j, Print(data));
    forall k | 0 <= k < |ps| && ps[k] != 0 && Start(k, c.chunk) + c.chunk <= |r|
      ensures ps[k] == Print(r[Start(k, c.chunk)..Start(k, c.chunk) + c.chunk])
    {
      if k != j { OtherChunk(c.held, j, data, c.chunk, k, Start(k, c.chunk) + c.chunk); }
    }
  }

  /** Any chunk of the sealed file, at its place. */
  lemma WriteSealed(held: seq<Byte>, sealed: seq<Byte>, rewrites: seq<nat>, rewrites': seq<nat>, checked: nat, checked': nat, chunk: nat, j: nat)
    requires chunk > 0 && Start(j, chunk) < |sealed| && Start(j, chunk) <= |held| <= |sealed|
    requires Matches(held, sealed, rewrites, checked, chunk)
    requires checked <= checked' <= |sealed| && (checked' == checked || checked' <= Start(j, chunk) + chunk)
    requires Start(j, chunk) <= checked
    requires forall r | r in rewrites :: r in rewrites' || r == Start(j, chunk)
    ensures var r := Write(held, Start(j, chunk), sealed[Start(j, chunk)..End(j, chunk, |sealed|)]);
      && |held| <= |r| <= |sealed| && End(j, chunk, |sealed|) <= |r|
      && Matches(r, sealed, rewrites', checked', chunk)
  {
    hide Print, Write, Start;
    var a := Start(j, chunk);
    var data := sealed[a..End(j, chunk, |sealed|)];
    var r := Write(held, a, data);
    WriteAt(held, a, data);
    forall k: nat | Start(k, chunk) < checked' && End(k, chunk, |sealed|) <= |r|
      ensures Start(k, chunk) in rewrites' || Same(r, sealed, k, chunk)
    {
      if k != j {
        OtherChunk(held, j, data, chunk, k, End(k, chunk, |sealed|));
        if j < k { StartOrder(j, k, chunk); } else { StartOrder(k, j, chunk); }
        assert Start(k, chunk) in rewrites || Same(held, sealed, k, chunk);
      }
    }
  }

  /** After the final pass: the next chunk, from a file that still holds the sealed bytes. */
  lemma SendSealed(c: Copy)
    requires Sound(c) && c.seal.Some? && c.sent <= |c.held| && c.sent < |c.seal.value|
    ensures var sealed := c.seal.value;
      var z := Min(c.sent + c.chunk, |sealed|);
      var r := Write(c.held, c.sent, sealed[c.sent..z]);
      z <= |r| && Sound(c.(held := r, sent := z, checked := if z > c.checked then z else c.checked))
  {
    hide Print, Write, Matches;
    var sealed := c.seal.value;
    StartOf(c.sent, c.chunk);
    var z := Min(c.sent + c.chunk, |sealed|);
    MatchesBound(c.held, sealed, c.rewrites, c.checked, c.chunk);
    hide Start;
    WriteSealed(c.held, sealed, c.rewrites, c.rewrites, c.checked, if z > c.checked then z else c.checked, c.chunk, c.sent / c.chunk);
  }

  lemma MatchesBound(held: seq<Byte>, sealed: seq<Byte>, rewrites: seq<nat>, checked: nat, chunk: nat)
    requires Matches(held, sealed, rewrites, checked, chunk)
    ensures checked <= |sealed|
  {}

  /** A changed chunk, sent again. */
  lemma SendRewrite(c: Copy)
    requires Sound(c) && c.seal.Some? && c.rewrites != [] && |c.seal.value| <= c.sent <= |c.held|
    ensures var sealed, off := c.seal.value, c.rewrites[0];
      off < |sealed| && off <= |c.held| &&
      var r := Write(c.held, off, sealed[off..Min(off + c.chunk, |sealed|)]);
      c.sent <= |r| && Sound(c.(held := r, rewrites := c.rewrites[1..]))
  {
    hide Print, Write, Matches;
    var sealed, off := c.seal.value, c.rewrites[0];
    StartOf(off, c.chunk);
    MatchesBound(c.held, sealed, c.rewrites, c.checked, c.chunk);
    hide Start;
    WriteSealed(c.held, sealed, c.rewrites, c.rewrites[1..], c.checked, c.checked, c.chunk, off / c.chunk);
  }

  /** An offset the sender may continue from. */
  predicate Usable(c: Copy, off: nat) {
    && c.chunk > 0
    && (off % c.chunk == 0 || (c.seal.Some? && off == |c.seal.value|))
    && (c.seal.Some? ==> off <= c.checked)
  }

  lemma MoveSent(c: Copy, off: nat)
    requires Sound(c) && Usable(c, off)
    ensures Sound(c.(sent := off))
  {}

  /** The peer loses the end of what it had. */
  lemma LoseEnd(c: Copy, keep: nat)
    requires Sound(c) && keep <= |c.held|
    ensures Sound(c.(held := c.held[..keep]))
  {
    hide Print;
    if c.seal.None? {
      hide Start;
      forall k | 0 <= k < |c.prints| && c.prints[k] != 0 && Start(k, c.chunk) + c.chunk <= keep
        ensures c.prints[k] == Print(c.held[..keep][Start(k, c.chunk)..Start(k, c.chunk) + c.chunk])
      {
        PrefixSlice(c.held, keep, Start(k, c.chunk), Start(k, c.chunk) + c.chunk);
      }
    } else {
      LoseSealed(c.held, c.seal.value, c.rewrites, c.checked, c.chunk, keep);
    }
  }

  lemma PrefixSlice(b: seq<Byte>, keep: nat, a: nat, z: nat)
    requires a <= z <= keep <= |b|
    ensures b[..keep][a..z] == b[a..z]
  {}

  lemma LoseSealed(held: seq<Byte>, sealed: seq<Byte>, rewrites: seq<nat>, checked: nat, chunk: nat, keep: nat)
    requires Matches(held, sealed, rewrites, checked, chunk) && keep <= |held|
    ensures Matches(held[..keep], sealed, rewrites, checked, chunk)
  {
    hide Print, Start;
    forall k: nat | Start(k, chunk) < checked && End(k, chunk, |sealed|) <= keep
      ensures Start(k, chunk) in rewrites || Same(held[..keep], sealed, k, chunk)
    {
      assert Start(k, chunk) in rewrites || Same(held, sealed, k, chunk);
      PrefixSlice(held, keep, Start(k, chunk), End(k, chunk, |sealed|));
    }
  }

  // ---- the final pass --------------------------------------------------------------------------

  /** The chunk was sent and its fingerprint is known to be the one the file has now. */
  predicate Unchanged(prints: seq<bv64>, file: seq<Byte>, chunk: nat, k: nat) {
    && Start(k, chunk) + chunk <= |file| && k < |prints| && prints[k] != 0
    && prints[k] == Print(file[Start(k, chunk)..Start(k, chunk) + chunk])
  }

  /** The starts of the first `n` chunks that were sent and may have changed since. */
  function Changed(prints: seq<bv64>, file: seq<Byte>, sent: nat, chunk: nat, n: nat): seq<nat> {
    if n == 0 then []
    else
      Changed(prints, file, sent, chunk, n - 1) +
      (if Start(n - 1, chunk) < sent && !Unchanged(prints, file, chunk, n - 1) then [Start(n - 1, chunk)] else [])
  }

  lemma {:induction false} ChangedHas(prints: seq<bv64>, file: seq<Byte>, sent: nat, chunk: nat, n: nat, k: nat)
    requires k < n && Start(k, chunk) < sent && !Unchanged(prints, file, chunk, k)
    ensures Start(k, chunk) in Changed(prints, file, sent, chunk, n)
  {
    hide Start, Unchanged;
    if k < n - 1 { ChangedHas(prints, file, sent, chunk, n - 1, k); }
  }

  lemma {:induction false} ChangedStarts(prints: seq<bv64>, file: seq<Byte>, sent: nat, chunk: nat, n: nat)
    requires chunk > 0 && (n > 0 ==> Start(n - 1, chunk) < |file|)
    ensures Starts(Changed(prints, file, sent, chunk, n), chunk, |file|)
  {
    if n > 0 {
      MultipleOf(n - 1, chunk);
      if n > 1 { StartOrder(n - 2, n - 1, chunk); }
      hide Start, Unchanged;
      ChangedStarts(prints, file, sent, chunk, n - 1);
    }
  }

  /** The final pass compares every sent chunk; what it leaves out of the rewrites is already there. */
  lemma Seal(c: Copy, file: seq<Byte>, n: nat)
    requires Sound(c) && c.seal.None? && c.sent <= |c.held| && c.seen <= |file|
    requires n > 0 ==> Start(n - 1, c.chunk) < |file|
    requires |file| <= Start(n, c.chunk)
    ensures c.sent <= |file|
    ensures Sound(c.(seal := Some(file), checked := c.sent, rewrites := Changed(c.prints, file, c.sent, c.chunk, n)))
  {
    hide Print, Start;
    var rewrites := Changed(c.prints, file, c.sent, c.chunk, n);
    ChangedStarts(c.prints, file, c.sent, c.chunk, n);
    forall k: nat | Start(k, c.chunk) < c.sent && End(k, c.chunk, |file|) <= |c.held|
      ensures Start(k, c.chunk) in rewrites || Same(c.held, file, k, c.chunk)
    {
      if k >= n {
        if k > n { StartOrder(n, k, c.chunk); }
        assert false;
      }
      if !Unchanged(c.prints, file, c.chunk, k) {
        ChangedHas(c.prints, file, c.sent, c.chunk, n, k);
      }
    }
  }

  // ---- the end ---------------------------------------------------------------------------------

  /** The copy has the sealed length, and every chunk of it the sealed bytes or their fingerprint. */
  ghost predicate Complete(held: seq<Byte>, sealed: seq<Byte>, chunk: nat) {
    && |held| == |sealed|
    && forall k: nat | Start(k, chunk) < |sealed| :: Same(held, sealed, k, chunk)
  }

  /** Everything sent, nothing left to send again: the peer's bytes are the sealed ones. */
  lemma Finished(c: Copy)
    requires Sound(c) && c.seal.Some? && c.rewrites == [] && |c.seal.value| <= c.sent <= |c.held|
    ensures Complete(c.held, c.seal.value, c.chunk)
  {
    hide Print, Start;
  }

  /** Two different chunks under one fingerprint, at the same place of both files. */
  ghost predicate Collide(held: seq<Byte>, sealed: seq<Byte>, chunk: nat) {
    exists k: nat | Start(k, chunk) + chunk <= |held| && Start(k, chunk) + chunk <= |sealed| ::
      held[Start(k, chunk)..Start(k, chunk) + chunk] != sealed[Start(k, chunk)..Start(k, chunk) + chunk] &&
      Print(held[Start(k, chunk)..Start(k, chunk) + chunk]) == Print(sealed[Start(k, chunk)..Start(k, chunk) + chunk])
  }

  /** A complete copy is the sealed file, byte for byte, exactly unless fingerprints collide. */
  lemma CompleteMeansEqual(held: seq<Byte>, sealed: seq<Byte>, chunk: nat)
    requires chunk > 0 && Complete(held, sealed, chunk)
    ensures held == sealed <==> !Collide(held, sealed, chunk)
  {
    hide Print;
    if !Collide(held, sealed, chunk) {
      forall p | 0 <= p < |sealed| ensures held[p] == sealed[p] {
        var k := p / chunk;
        ChunkOf(p, chunk);
        hide Start;
        var a, z := Start(k, chunk), End(k, chunk, |sealed|);
        assert Same(held, sealed, k, chunk);
        assert held[a..z] == sealed[a..z];
        assert held[a..z][p - a] == held[p] && sealed[a..z][p - a] == sealed[p];
      }
    }
  }

  lemma ChunkOf(p: nat, chunk: nat)
    requires chunk > 0
    ensures Start(p / chunk, chunk) <= p < Start(p / chunk, chunk) + chunk
  {
    assert p == p / chunk * chunk + p % chunk;
  }

  // ---- the frames of a pass --------------------------------------------------------------------

  function Slice(bytes: seq<Byte>, a: nat, b: nat): seq<Byte> { if a <= b <= |bytes| then bytes[a..b] else [] }

  /** The bytes from `a` to `b`, chunk by chunk. */
  function Pieces<H>(bytes: seq<Byte>, a: nat, b: nat, chunk: nat): seq<Frame<H>>
    decreases b - a
  {
    if a >= b || chunk == 0 then []
    else [Chunk(a, Slice(bytes, a, Min(a + chunk, b)))] + Pieces(bytes, Min(a + chunk, b), b, chunk)
  }

  /** `b` is a whole number of chunks after `a`. */
  predicate WholeChunks(a: nat, b: nat, chunk: nat)
    decreases b - a
  {
    a == b || (chunk > 0 && a + chunk <= b && WholeChunks(a + chunk, b, chunk))
  }

  lemma {:induction false} PiecesPush<H>(bytes: seq<Byte>, a: nat, b: nat, c: nat, chunk: nat)
    requires WholeChunks(a, b, chunk) && b < c <= b + chunk
    ensures Pieces<H>(bytes, a, c, chunk) == Pieces(bytes, a, b, chunk) + [Chunk(b, Slice(bytes, b, c))]
    ensures c == b + chunk ==> WholeChunks(a, c, chunk)
    decreases b - a
  {
    if a < b { PiecesPush<H>(bytes, a + chunk, b, c, chunk); }
  }

  /** The chunks at the given starts. */
  function Repeats<H>(bytes: seq<Byte>, offs: seq<nat>, chunk: nat, size: int): seq<Frame<H>> {
    if offs == [] then []
    else
      var last := offs[|offs| - 1];
      Repeats(bytes, offs[..|offs| - 1], chunk, size) + [Chunk(last, Slice(bytes, last, Max(0, Min(last + chunk, size))))]
  }

  // ---- which unchecked offsets leave a wrong copy ----------------------------------------------

  /** What the platform ends up with when the sender goes on from `off`: the rest of the sealed bytes, and
      then the chunks still to be sent again. */
  function EndsUpWith(held: seq<Byte>, sealed: seq<Byte>, rewrites: seq<nat>, off: nat, chunk: nat): seq<Byte> {
    Deliver(held, Pieces<()>(sealed, off, |sealed|, chunk) + Repeats(sealed, rewrites, chunk, |sealed|))
  }

  lemma {:induction false} AfterPieces(held: seq<Byte>, sealed: seq<Byte>, off: nat, chunk: nat)
    requires chunk > 0 && off <= |held| <= |sealed|
    ensures var r := Deliver(held, Pieces<()>(sealed, off, |sealed|, chunk));
      |r| == |sealed| && r[..off] == held[..off] && r[off..] == sealed[off..]
    decreases |sealed| - off
  {
    if off < |sealed| {
      var z := Min(off + chunk, |sealed|);
      var f: Frame<()> := Chunk(off, sealed[off..z]);
      var rest := Pieces<()>(sealed, z, |sealed|, chunk);
      DeliverSplit(held, [f], rest);
      DeliverOne(held, f);
      WriteAt(held, off, sealed[off..z]);
      var once := Write(held, off, sealed[off..z]);
      hide Write, Deliver, Pieces;
      AfterPieces(once, sealed, z, chunk);
      var r := Deliver(once, rest);
      assert r[..off] == r[..z][..off] == once[..z][..off] == once[..off];
      assert r[off..] == r[off..z] + r[z..] && sealed[off..] == sealed[off..z] + sealed[z..];
      assert r[off..z] == r[..z][off..] == once[..z][off..] == once[off..z];
    }
  }

  lemma DeliverOne<H>(b: seq<Byte>, f: Frame<H>)
    ensures Deliver(b, [f]) == Take(b, f)
  {
    assert [f][..0] == [];
  }

  /** One chunk written again. */
  lemma RepeatStep(mid: seq<Byte>, sealed: seq<Byte>, last: nat, chunk: nat, k: nat)
    requires chunk > 0 && |mid| == |sealed| && last < |sealed| && last % chunk == 0 && Start(k, chunk) < |sealed|
    ensures var a, z, r := Start(k, chunk), End(k, chunk, |sealed|), Write(mid, last, sealed[last..Min(last + chunk, |sealed|)]);
      |r| == |sealed| && r[a..z] == if a == last then sealed[a..z] else mid[a..z]
  {
    var data, j := sealed[last..Min(last + chunk, |sealed|)], last / chunk;
    StartOf(last, chunk);
    hide Write, Start;
    WriteAt(mid, last, data);
    if k != j {
      if k < j { StartOrder(k, j, chunk); } else { StartOrder(j, k, chunk); }
      OtherChunk(mid, j, data, chunk, k, End(k, chunk, |sealed|));
    }
  }

  /** Sending chunks again puts the sealed ones in their place and leaves the others alone. */
  lemma {:induction false} AfterRepeats(held: seq<Byte>, sealed: seq<Byte>, rewrites: seq<nat>, chunk: nat, k: nat)
    requires chunk > 0 && |held| == |sealed| && Starts(rewrites, chunk, |sealed|) && Start(k, chunk) < |sealed|
    ensures var r := Deliver(held, Repeats<()>(sealed, rewrites, chunk, |sealed|));
      var a, z := Start(k, chunk), End(k, chunk, |sealed|);
      |r| == |sealed| && r[a..z] == if a in rewrites then sealed[a..z] else held[a..z]
  {
    hide Start, Write;
    if rewrites != [] {
      var before, last := rewrites[..|rewrites| - 1], rewrites[|rewrites| - 1];
      var sent := Repeats<()>(sealed, before, chunk, |sealed|);
      var f: Frame<()> := Chunk(last, sealed[last..Min(last + chunk, |sealed|)]);
      assert Repeats<()>(sealed, rewrites, chunk, |sealed|) == sent + [f];
      hide Repeats;
      AfterRepeats(held, sealed, before, chunk, k);
      DeliverPush(held, sent, f);
      hide Deliver;
      RepeatStep(Deliver(held, sent), sealed, last, chunk, k);
      assert Start(k, chunk) in rewrites <==> Start(k, chunk) in before || Start(k, chunk) == last;
    }
  }

  lemma {:induction false} RepeatsLength(held: seq<Byte>, sealed: seq<Byte>, rewrites: seq<nat>, chunk: nat)
    requires chunk > 0 && |held| == |sealed| && Starts(rewrites, chunk, |sealed|)
    ensures |Deliver(held, Repeats<()>(sealed, rewrites, chunk, |sealed|))| == |sealed|
  {
    if rewrites != [] {
      NoStart(chunk);
      assert rewrites[0] < |sealed|;
      AfterRepeats(held, sealed, rewrites, chunk, 0);
    }
  }

  lemma NoStart(chunk: nat)
    ensures Start(0, chunk) == 0
  {}

  /** How exact the condition on offsets is. From any sound copy and any chunk boundary the platform has,
      however far it was checked: going on from there completes the copy exactly when every chunk
      skipped without a check is right already, or is to be sent again. */
  lemma SkipExactly(c: Copy, off: nat)
    requires Sound(c) && c.seal.Some? && off <= |c.held| && (off % c.chunk == 0 || off == |c.seal.value|)
    ensures var sealed := c.seal.value;
      Complete(EndsUpWith(c.held, sealed, c.rewrites, off, c.chunk), sealed, c.chunk) <==>
      forall k: nat | c.checked <= Start(k, c.chunk) < off && Start(k, c.chunk) !in c.rewrites ::
        End(k, c.chunk, |sealed|) <= |c.held| && Same(c.held, sealed, k, c.chunk)
  {
    hide Print, Deliver, Pieces, Repeats;
    var sealed := c.seal.value;
    var f := EndsUpWith(c.held, sealed, c.rewrites, off, c.chunk);
    EndsUpLength(c.held, sealed, c.rewrites, off, c.chunk);
    forall k: nat | Start(k, c.chunk) < |sealed|
      ensures Start(k, c.chunk) >= off || Start(k, c.chunk) in c.rewrites ==> Same(f, sealed, k, c.chunk)
      ensures Start(k, c.chunk) < off && Start(k, c.chunk) !in c.rewrites ==>
        End(k, c.chunk, |sealed|) <= |c.held| && (Same(f, sealed, k, c.chunk) <==> Same(c.held, sealed, k, c.chunk))
    {
      EndsUpAt(c.held, sealed, c.rewrites, off, c.chunk, k);
      hide Start, EndsUpWith;
    }
    hide Start, EndsUpWith;
    forall k: nat | Start(k, c.chunk) < c.checked && Start(k, c.chunk) < off && Start(k, c.chunk) !in c.rewrites
      ensures End(k, c.chunk, |sealed|) <= |c.held| && Same(c.held, sealed, k, c.chunk)
    {
      assert Start(k, c.chunk) < |sealed|;
    }
  }

  /** A chunk that starts before a boundary ends by it. */
  lemma BoundaryBefore(k: nat, off: nat, chunk: nat, size: nat)
    requires chunk > 0 && Start(k, chunk) < off && (off % chunk == 0 || off == size)
    ensures End(k, chunk, size) <= off
  {
    if off % chunk == 0 {
      StartOf(off, chunk);
      var j := off / chunk;
      if j <= k && j < k { StartOrder(j, k, chunk); }
      if k < j { StartOrder(k, j, chunk); }
    }
  }

  lemma EndsUpAt(held: seq<Byte>, sealed: seq<Byte>, rewrites: seq<nat>, off: nat, chunk: nat, k: nat)
    requires chunk > 0 && off <= |held| <= |sealed| && Starts(rewrites, chunk, |sealed|) && (off % chunk == 0 || off == |sealed|)
    requires Start(k, chunk) < |sealed|
    ensures var f := EndsUpWith(held, sealed, rewrites, off, chunk);
      var a, z := Start(k, chunk), End(k, chunk, |sealed|);
      |f| == |sealed| &&
      if a >= off || a in rewrites then f[a..z] == sealed[a..z] else z <= |held| && f[a..z] == held[a..z]
  {
    hide Deliver, Pieces, Repeats;
    var pieces, again := Pieces<()>(sealed, off, |sealed|, chunk), Repeats<()>(sealed, rewrites, chunk, |sealed|);
    DeliverSplit(held, pieces, again);
    AfterPieces(held, sealed, off, chunk);
    var mid := Deliver(held, pieces);
    AfterRepeats(mid, sealed, rewrites, chunk, k);
    if Start(k, chunk) < off { BoundaryBefore(k, off, chunk, |sealed|); }
    hide Start;
    var a, z := Start(k, chunk), End(k, chunk, |sealed|);
    if a >= off { SliceOfTail(mid, sealed, off, a, z); } else { SliceOfHead(mid, held, off, a, z); }
  }

  lemma SliceOfTail(x: seq<Byte>, y: seq<Byte>, off: nat, a: nat, z: nat)
    requires off <= a <= z <= |x| == |y| && x[off..] == y[off..]
    ensures x[a..z] == y[a..z]
  {
    assert |x[a..z]| == |y[a..z]|;
    forall i | 0 <= i < z - a ensures x[a..z][i] == y[a..z][i] { assert x[off..][a - off + i] == y[off..][a - off + i]; }
  }

  lemma SliceOfHead(x: seq<Byte>, y: seq<Byte>, off: nat, a: nat, z: nat)
    requires a <= z <= off <= |x| && off <= |y| && x[..off] == y[..off]
    ensures x[a..z] == y[a..z]
  {
    assert x[a..z] == x[..off][a..z];
    assert y[a..z] == y[..off][a..z];
  }

  lemma EndsUpLength(held: seq<Byte>, sealed: seq<Byte>, rewrites: seq<nat>, off: nat, chunk: nat)
    requires chunk > 0 && off <= |held| <= |sealed| && Starts(rewrites, chunk, |sealed|)
    ensures |EndsUpWith(held, sealed, rewrites, off, chunk)| == |sealed|
  {
    hide Deliver, Pieces, Repeats;
    DeliverSplit(held, Pieces<()>(sealed, off, |sealed|, chunk), Repeats<()>(sealed, rewrites, chunk, |sealed|));
    AfterPieces(held, sealed, off, chunk);
    RepeatsLength(Deliver(held, Pieces<()>(sealed, off, |sealed|, chunk)), sealed, rewrites, chunk);
  }

  // ---- all chunks that changed -----------------------------------------------------------------

  /** Chunks past the end of what was sent add nothing. */
  lemma {:induction false} ChangedBeyond(prints: seq<bv64>, file: seq<Byte>, sent: nat, chunk: nat, n: nat, m: nat)
    requires n <= m && sent <= Start(n, chunk)
    ensures Changed(prints, file, sent, chunk, m) == Changed(prints, file, sent, chunk, n)
    decreases m
  {
    if n < m {
      ChangedBeyond(prints, file, sent, chunk, n, m - 1);
      if n < m - 1 { StartOrder(n, m - 1, chunk); }
      hide Start, Unchanged;
    }
  }

  /** Reading to the end of the file finds all of them. */
  lemma ChangedEnough(prints: seq<bv64>, file: seq<Byte>, sent: nat, chunk: nat, n: nat)
    requires chunk > 0 && sent <= |file| <= Start(n, chunk) && (n > 0 ==> Start(n - 1, chunk) < |file|)
    ensures Changed(prints, file, sent, chunk, n) == Changed(prints, file, sent, chunk, |file|)
  {
    if n > 0 { StartAtLeast(n - 1, chunk); }
    ChangedBeyond(prints, file, sent, chunk, n, |file|);
  }

  lemma StartAtLeast(k: nat, chunk: nat)
    requires chunk > 0
    ensures k <= Start(k, chunk)
  {
    assert k * (chunk - 1) >= 0;
  }
}
