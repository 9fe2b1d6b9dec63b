/** The streaming digest of plugins/fleet/fleet_demo.cpp (class Sha256): blocks of 64 bytes, a
    buffer for the remainder, and the padding of section 5.1.1 of FIPS 180-4. The compression
    function and the chaining value are parameters. */
module Sha256 {
  import opened Basics

  const WORD64: nat := 0x1_0000_0000_0000_0000

  /** The chaining value after the full blocks of the data. */
  function FoldBlocks<H>(block: (H, seq<Byte>) -> H, h: H, data: seq<Byte>): H
    decreases |data|
  {
    if |data| < 64 then h else FoldBlocks(block, block(h, data[..64]), data[64..])
  }

  /** The bytes after the last full block. */
  function Remainder(data: seq<Byte>): seq<Byte>
    decreases |data|
  {
    if |data| < 64 then data else Remainder(data[64..])
  }

  /** Only the chaining value and the remainder of what came before matter for what comes next. */
  lemma {:induction false} FoldSplit<H>(block: (H, seq<Byte>) -> H, h: H, a: seq<Byte>, b: seq<Byte>)
    ensures FoldBlocks(block, h, a + b) == FoldBlocks(block, FoldBlocks(block, h, a), Remainder(a) + b)
    ensures Remainder(a + b) == Remainder(Remainder(a) + b)
    decreases |a|
  {
    if |a| >= 64 {
      FoldSplit(block, block(h, a[..64]), a[64..], b);
      assert (a + b)[..64] == a[..64] && (a + b)[64..] == a[64..] + b;
    }
  }

  lemma {:induction false} RemainderLength(data: seq<Byte>)
    ensures |Remainder(data)| == |data| % 64
    decreases |data|
  {
    if |data| >= 64 { RemainderLength(data[64..]); }
  }

  function Zeros(n: nat): (r: seq<Byte>)
    ensures |r| == n
  {
    if n == 0 then [] else Zeros(n - 1) + [0]
  }

  function Pow256(k: nat): (r: nat)
    ensures r > 0
  {
    if k == 0 then 1 else 256 * Pow256(k - 1)
  }

  /** The low `k` bytes of a number, most significant first. */
  function BigEndian(n: nat, k: nat): (r: seq<Byte>)
    ensures |r| == k
  {
    if k == 0 then [] else BigEndian(n / 256, k - 1) + [n % 256]
  }

  function FromBigEndian(bytes: seq<Byte>): nat {
    if bytes == [] then 0 else FromBigEndian(bytes[..|bytes| - 1]) * 256 + bytes[|bytes| - 1]
  }

  lemma {:induction false} BigEndianValue(n: nat, k: nat)
    requires n < Pow256(k)
    ensures FromBigEndian(BigEndian(n, k)) == n
  {
    if k > 0 {
      BigEndianValue(n / 256, k - 1);
      assert BigEndian(n, k)[..k - 1] == BigEndian(n / 256, k - 1);
    }
  }

  /** How many zero bytes the padding has. */
  function PadZeros(length: nat): nat {
    if length % 64 <= 55 then 55 - length % 64 else 119 - length % 64
  }

  /** A message of this length, the marker byte and `zeros` zero bytes leave room for the length in
      the last block (448 modulo 512, in bits). */
  predicate LeavesRoom(length: nat, zeros: nat) { (length + 1 + zeros) % 64 == 56 }

  lemma PadZerosLeast(length: nat)
    ensures LeavesRoom(length, PadZeros(length))
    ensures forall k | 0 <= k < PadZeros(length) :: !LeavesRoom(length, k)
  {
    var q, r := length / 64, length % 64;
    forall k | 0 <= k <= PadZeros(length)
      ensures LeavesRoom(length, k) <==> k == PadZeros(length)
    {
      if r + 1 + k < 64 { Mod64(q, r + 1 + k); } else { Mod64(q + 1, r + 1 + k - 64); }
    }
  }

  lemma Mod64(q: nat, r: nat)
    requires r < 64
    ensures (64 * q + r) % 64 == r
  {}

  /** The padded message; its length field is the bit length (modulo 2^64). */
  function Padded(m: seq<Byte>): seq<Byte> {
    m + [0x80] + Zeros(PadZeros(|m|)) + BigEndian(|m| * 8 % WORD64, 8)
  }

  /** The padding fills whole blocks, with the fewest zero bytes that leave room for the length, and
      ends in the length in bits of any message below 2^61 bytes. */
  lemma PaddedBlocks(m: seq<Byte>)
    ensures |Padded(m)| == |m| + 1 + PadZeros(|m|) + 8 && Remainder(Padded(m)) == []
    ensures LeavesRoom(|m|, PadZeros(|m|)) && forall k | 0 <= k < PadZeros(|m|) :: !LeavesRoom(|m|, k)
    ensures |m| * 8 < WORD64 ==> FromBigEndian(Padded(m)[|Padded(m)| - 8..]) == |m| * 8
  {
    hide PadZeros, BigEndian, FromBigEndian, Remainder;
    PadZerosLeast(|m|);
    RemainderLength(Padded(m));
    assert (|m| + 1 + PadZeros(|m|) + 8) % 64 == 0;
    var n := |m| * 8 % WORD64;
    assert Padded(m)[|Padded(m)| - 8..] == BigEndian(n, 8);
    assert n < Pow256(8) by { assert Pow256(8) == WORD64 by { Pow256Eight(); } }
    BigEndianValue(n, 8);
  }

  lemma Pow256Eight()
    ensures Pow256(8) == WORD64
  {
    assert Pow256(2) == 0x1_0000;
    assert Pow256(4) == 0x1_0000_0000;
    assert Pow256(6) == 0x1_0000_0000_0000;
  }

  lemma Bits(n: nat)
    ensures n % WORD64 * 8 % WORD64 == n * 8 % WORD64
  {
    var q, r := n / WORD64, n % WORD64;
    var p, bits := r * 8 / WORD64, r * 8 % WORD64;
    ModIs(n * 8, q * 8 + p, bits);
  }

  lemma ModIs(x: nat, q: nat, r: nat)
    requires x == q * WORD64 + r && r < WORD64
    ensures x % WORD64 == r
  {}

  class Hasher<H> {
    const block: (H, seq<Byte>) -> H
    const init: H
    var h: H
    const buf: array<Byte>
    var bufLen: nat
    var total: nat
    /** Everything hashed so far. */
    ghost var message: seq<Byte>

    ghost predicate Valid()
      reads this, buf
    {
      && buf.Length == 64 && bufLen < 64
      && total == |message| % WORD64
      && h == FoldBlocks(block, init, message)
      && buf[..bufLen] == Remainder(message)
    }

    constructor (block: (H, seq<Byte>) -> H, init: H)
      ensures Valid() && message == [] && this.block == block && this.init == init && fresh(buf)
    {
      this.block, this.init, h := block, init, init;
      buf := new Byte[64](i => 0);
      bufLen, total, message := 0, 0, [];
    }

    method CopyIn(at: nat, piece: seq<Byte>)
      requires buf.Length == 64 && at + |piece| <= 64
      modifies buf
      ensures buf[..at + |piece|] == old(buf[..at]) + piece
    {
      for i := 0 to |piece|
        invariant buf[..at + i] == old(buf[..at]) + piece[..i]
      {
        buf[at + i] := piece[i];
      }
    }

    method Update(data: seq<Byte>)
      requires Valid()
      modifies this, buf
      ensures Valid() && message == old(message) + data
    {
      hide FoldBlocks, Remainder;
      total := (total + |data|) % WORD64;
      message := message + data;
      FoldSplit(block, init, old(message), data);
      var p := 0;
      if bufLen > 0 {
        p := Fill(data);
      } else {
        assert buf[..0] + data == data && data[0..] == data;
      }
      if bufLen > 0 {
        assert buf[..bufLen] + data[p..] == buf[..bufLen];
        Short(block, h, buf[..bufLen]);
        Short(block, h, []);
      }
      var next;
      next, p := Blocks(h, data, p);
      if bufLen == 0 { assert forall t: seq<Byte> :: buf[..0] + t == t; }
      h := next;
      RemainderLength(message);
      if p < |data| {
        CopyIn(0, data[p..]);
        bufLen := |data| - p;
      }
    }

    lemma Short(block: (H, seq<Byte>) -> H, h: H, data: seq<Byte>)
      requires |data| < 64
      ensures FoldBlocks(block, h, data) == h && Remainder(data) == data
    {}

    /** Tops up the buffer and hashes it once it is full. */
    method Fill(data: seq<Byte>) returns (p: nat)
      requires buf.Length == 64 && 0 < bufLen < 64
      modifies `h, `bufLen, buf
      ensures p <= |data| && bufLen < 64 && (bufLen == 0 || p == |data|)
      ensures FoldBlocks(block, h, buf[..bufLen] + data[p..]) == FoldBlocks(block, old(h), old(buf[..bufLen]) + data)
      ensures Remainder(buf[..bufLen] + data[p..]) == Remainder(old(buf[..bufLen]) + data)
    {
      ghost var all := buf[..bufLen] + data;
      p := if |data| < 64 - bufLen then |data| else 64 - bufLen;
      CopyIn(bufLen, data[..p]);
      bufLen := bufLen + p;
      assert all == buf[..bufLen] + data[p..];
      if bufLen == 64 {
        assert all[..64] == buf[..] && all[64..] == data[p..] == buf[..0] + data[p..];
        h := block(h, buf[..]);
        bufLen := 0;
      }
    }

    method Blocks(start: H, data: seq<Byte>, from: nat) returns (r: H, p: nat)
      requires from <= |data|
      ensures from <= p <= |data| && r == FoldBlocks(block, start, data[from..])
      ensures data[p..] == Remainder(data[from..])
    {
      r, p := start, from;
      while |data| - p >= 64
        invariant from <= p <= |data|
        invariant FoldBlocks(block, r, data[p..]) == FoldBlocks(block, start, data[from..])
        invariant Remainder(data[p..]) == Remainder(data[from..])
      {
        assert data[p..][..64] == data[p..p + 64] && data[p..][64..] == data[p + 64..];
        r := block(r, data[p..p + 64]);
        p := p + 64;
      }
    }

    /** Zero bytes until the buffer holds 56 bytes. */
    method PadZero(ghost m: seq<Byte>)
      requires Valid() && message == m + [0x80]
      modifies this, buf
      ensures Valid() && message == m + [0x80] + Zeros(PadZeros(|m|))
    {
      hide FoldBlocks, Remainder, PadZeros;
      ghost var n := 0;
      PadZerosLeast(|m|);
      assert message == m + [0x80] + Zeros(0);
      RemainderLength(message);
      while bufLen != 56
        invariant Valid() && message == m + [0x80] + Zeros(n)
        invariant bufLen == (|m| + 1 + n) % 64 && n <= PadZeros(|m|)
        decreases PadZeros(|m|) - n
      {
        Update([0]);
        assert m + [0x80] + Zeros(n) + [0] == m + [0x80] + (Zeros(n) + [0]);
        n := n + 1;
        RemainderLength(message);
      }
      assert LeavesRoom(|m|, n);
    }

    /** Pads and finishes: the digest is the chaining value over the padded message. */
    method Finish() returns (digest: H)
      requires Valid()
      modifies this, buf
      ensures message == Padded(old(message))
      ensures digest == FoldBlocks(block, init, Padded(old(message)))
    {
      hide FoldBlocks, Remainder, BigEndian, PadZeros;
      var bits := total * 8 % WORD64;
      Bits(|message|);
      Update([0x80]);
      PadZero(old(message));
      Update(BigEndian(bits, 8));
      digest := h;
    }
  }
}
