/** The streaming SHA-256 of the firmware loader, against sections 4.1.2, 5.1.1 and 6.2.2 of FIPS 180-4. */
module Sha256 {
  import opened Sequences

  const BLOCK := 64
  const LENGTH_MODULUS := 0x1_0000_0000_0000_0000

  // ------------------------------------------------- the standard's functions

  function Rotr(x: bv32, n: nat): bv32
    requires 0 < n < 32
  {
    (x >> n) | (x << (32 - n))
  }

  function Ch(x: bv32, y: bv32, z: bv32): bv32 {
    (x & y) ^ (!x & z)
  }

  function Maj(x: bv32, y: bv32, z: bv32): bv32 {
    (x & y) ^ (x & z) ^ (y & z)
  }

  function BigSigma0(x: bv32): bv32 {
    Rotr(x, 2) ^ Rotr(x, 13) ^ Rotr(x, 22)
  }

  function BigSigma1(x: bv32): bv32 {
    Rotr(x, 6) ^ Rotr(x, 11) ^ Rotr(x, 25)
  }

  function SmallSigma0(x: bv32): bv32 {
    Rotr(x, 7) ^ Rotr(x, 18) ^ (x >> 3)
  }

  function SmallSigma1(x: bv32): bv32 {
    Rotr(x, 17) ^ Rotr(x, 19) ^ (x >> 10)
  }

  /** Eight of the 64 round constants. */
  function ConstantRow(row: nat): (r: seq<bv32>)
    requires row < 8
    ensures |r| == 8
  {
    match row
    case 0 => [0x428a2f98, 0x71374491, 0xb5c0fbcf, 0xe9b5dba5, 0x3956c25b, 0x59f111f1, 0x923f82a4, 0xab1c5ed5]
    case 1 => [0xd807aa98, 0x12835b01, 0x243185be, 0x550c7dc3, 0x72be5d74, 0x80deb1fe, 0x9bdc06a7, 0xc19bf174]
    case 2 => [0xe49b69c1, 0xefbe4786, 0x0fc19dc6, 0x240ca1cc, 0x2de92c6f, 0x4a7484aa, 0x5cb0a9dc, 0x76f988da]
    case 3 => [0x983e5152, 0xa831c66d, 0xb00327c8, 0xbf597fc7, 0xc6e00bf3, 0xd5a79147, 0x06ca6351, 0x14292967]
    case 4 => [0x27b70a85, 0x2e1b2138, 0x4d2c6dfc, 0x53380d13, 0x650a7354, 0x766a0abb, 0x81c2c92e, 0x92722c85]
    case 5 => [0xa2bfe8a1, 0xa81a664b, 0xc24b8b70, 0xc76c51a3, 0xd192e819, 0xd6990624, 0xf40e3585, 0x106aa070]
    case 6 => [0x19a4c116, 0x1e376c08, 0x2748774c, 0x34b0bcb5, 0x391c0cb3, 0x4ed8aa4a, 0x5b9cca4f, 0x682e6ff3]
    case 7 => [0x748f82ee, 0x78a5636f, 0x84c87814, 0x8cc70208, 0x90befffa, 0xa4506ceb, 0xbef9a3f7, 0xc67178f2]
  }

  function RoundConstant(t: nat): bv32
    requires t < 64
  {
    ConstantRow(t / 8)[t % 8]
  }

  datatype Hash = Hash(a: bv32, b: bv32, c: bv32, d: bv32, e: bv32, f: bv32, g: bv32, h: bv32)

  const INITIAL := Hash(0x6a09e667, 0xbb67ae85, 0x3c6ef372, 0xa54ff53a, 0x510e527f, 0x9b05688c, 0x1f83d9ab, 0x5be0cd19)

  function BigEndian(b0: bv8, b1: bv8, b2: bv8, b3: bv8): bv32 {
    ((b0 as bv32) << 24) | ((b1 as bv32) << 16) | ((b2 as bv32) << 8) | (b3 as bv32)
  }

  function Sum4(a: bv32, b: bv32, c: bv32, d: bv32): bv32 {
    a + b + c + d
  }

  /** The t-th word of the message schedule. */
  function W(block: seq<bv8>, t: nat): bv32
    requires |block| == BLOCK && t < 64
  {
    if t < 16 then BigEndian(block[4 * t], block[4 * t + 1], block[4 * t + 2], block[4 * t + 3])
    else Sum4(SmallSigma1(W(block, t - 2)), W(block, t - 7), SmallSigma0(W(block, t - 15)), W(block, t - 16))
  }

  function T1(v: Hash, k: bv32, w: bv32): bv32 {
    v.h + BigSigma1(v.e) + Ch(v.e, v.f, v.g) + k + w
  }

  function T2(v: Hash): bv32 {
    BigSigma0(v.a) + Maj(v.a, v.b, v.c)
  }

  function Plus(x: bv32, y: bv32): bv32 {
    x + y
  }

  function Round(v: Hash, k: bv32, w: bv32): Hash {
    Hash(Plus(T1(v, k, w), T2(v)), v.a, v.b, v.c, Plus(v.d, T1(v, k, w)), v.e, v.f, v.g)
  }

  /** The working variables after t rounds. */
  function Rounds(v: Hash, block: seq<bv8>, t: nat): Hash
    requires |block| == BLOCK && t <= 64
  {
    if t == 0 then v else Round(Rounds(v, block, t - 1), RoundConstant(t - 1), W(block, t - 1))
  }

  function Sum(x: Hash, y: Hash): Hash {
    Hash(Plus(x.a, y.a), Plus(x.b, y.b), Plus(x.c, y.c), Plus(x.d, y.d),
         Plus(x.e, y.e), Plus(x.f, y.f), Plus(x.g, y.g), Plus(x.h, y.h))
  }

  /** The compression function: as many rounds as a block has bytes. */
  function Compress(v: Hash, block: seq<bv8>): Hash
    requires |block| == BLOCK
  {
    Sum(v, Rounds(v, block, |block|))
  }

  /** Compression of whole blocks, one after the other. */
  function Fold(v: Hash, m: seq<bv8>): Hash {
    if |m| < BLOCK then v else Compress(Fold(v, m[..|m| - BLOCK]), m[|m| - BLOCK..])
  }

  lemma FoldBlock(v: Hash, m: seq<bv8>, block: seq<bv8>)
    requires |block| == BLOCK
    ensures Fold(v, m + block) == Compress(Fold(v, m), block)
  {
    assert (m + block)[..|m|] == m && (m + block)[|m|..] == block;
  }

  // ------------------------------------------------------------------ padding

  function Zeros(n: nat): (z: seq<bv8>)
    ensures |z| == n && forall i :: 0 <= i < n ==> z[i] == 0
  {
    seq(n, _ => 0)
  }

  function Power256(n: nat): (p: nat)
    ensures p > 0
  {
    if n == 0 then 1 else 256 * Power256(n - 1)
  }

  /** The number in n bytes, most significant first. */
  function BigEndianBytes(v: nat, n: nat): (s: seq<bv8>)
    ensures |s| == n
  {
    if n == 0 then [] else BigEndianBytes(v / 256, n - 1) + [(v % 256) as bv8]
  }

  lemma DivDiv(v: nat, p: nat)
    requires p > 0
    ensures v / 256 / p == v / (256 * p)
  {
    var q, r := v / (256 * p), v % (256 * p);
    assert v == 256 * (p * q) + r;
    assert v / 256 == p * q + r / 256 && r / 256 < p;
    DivUnique(v / 256, p, q, r / 256);
  }

  lemma DivUnique(x: nat, p: nat, q: nat, r: nat)
    requires x == p * q + r && r < p
    ensures x / p == q
  {
    var d := x / p;
    assert x == p * d + x % p;
    if d < q {
      Multiples(p, d, q);
    } else if d > q {
      Multiples(p, q, d);
    }
  }

  lemma Multiples(p: nat, a: nat, b: nat)
    requires a < b
    ensures p * a + p <= p * b
  {
    var k: nat := b - a - 1;
    assert p * b == p * (a + 1 + k) == p * a + p + p * k;
  }

  /** The low byte of a number shifted right by k bytes. */
  function Shifted(v: nat, k: nat): bv8 {
    ((v / Power256(k)) % 256) as bv8
  }

  /** The i-th of n bytes is the number shifted right by the bytes behind it. */
  lemma {:induction false} ByteAt(v: nat, n: nat, i: nat)
    requires i < n
    ensures BigEndianBytes(v, n)[i] == Shifted(v, n - 1 - i)
  {
    if i < n - 1 {
      ByteAt(v / 256, n - 1, i);
      DivDiv(v, Power256(n - 2 - i));
    }
  }

  /** The zero bytes between the marker and the length. */
  function Gap(length: nat): nat {
    (119 - length % BLOCK) % BLOCK
  }

  /** The message, a one bit, the fewest zero bits that leave 64 bits in the last block, and the length in bits. */
  function Pad(m: seq<bv8>): seq<bv8> {
    PadWith(m, Gap(|m|), BigEndianBytes(BitLength(|m|), 8))
  }

  function PadWith(m: seq<bv8>, gap: nat, length: seq<bv8>): seq<bv8> {
    m + [0x80] + Zeros(gap) + length
  }

  /** The length in bits of a message of n bytes, as the program counts it. */
  function BitLength(n: nat): nat {
    8 * n % LENGTH_MODULUS
  }

  lemma GapFills(length: nat)
    ensures (length + 9 + Gap(length)) % BLOCK == 0
  {
    var q, r := length / BLOCK, length % BLOCK;
    if r < 56 {
      assert Gap(length) == 55 - r;
      assert length + 9 + Gap(length) == BLOCK * (q + 1);
    } else {
      assert Gap(length) == 119 - r;
      assert length + 9 + Gap(length) == BLOCK * (q + 2);
    }
  }

  /** A padded message is whole blocks. */
  lemma PadFills(m: seq<bv8>)
    ensures |Pad(m)| == |m| + 9 + Gap(|m|) && |Pad(m)| % BLOCK == 0
  {
    GapFills(|m|);
  }

  /** No smaller gap would leave exactly the room that the length takes. */
  lemma GapIsLeast(length: nat, k: nat)
    requires (length + 1 + k) % BLOCK == 56
    ensures (length + 1 + Gap(length)) % BLOCK == 56 && Gap(length) <= k
  {
    var q, r := length / BLOCK, length % BLOCK;
    WholeBlocksAside(q, r + 1 + k);
    WholeBlocksAside(q, r + 1 + Gap(length));
    GapOfRest(r, k);
  }

  lemma WholeBlocksAside(q: nat, x: nat)
    ensures (BLOCK * q + x) % BLOCK == x % BLOCK
  {
  }

  lemma GapOfRest(r: nat, k: nat)
    requires r < BLOCK && (r + 1 + k) % BLOCK == 56
    ensures Gap(r) == (if r < 56 then 55 - r else 119 - r) && (r + 1 + Gap(r)) % BLOCK == 56 && Gap(r) <= k
  {
  }

  function WordBytes(w: bv32): seq<bv8> {
    [((w >> 24) & 0xff) as bv8, ((w >> 16) & 0xff) as bv8, ((w >> 8) & 0xff) as bv8, (w & 0xff) as bv8]
  }

  function HashBytes(v: Hash): seq<bv8> {
    WordBytes(v.a) + WordBytes(v.b) + WordBytes(v.c) + WordBytes(v.d)
    + WordBytes(v.e) + WordBytes(v.f) + WordBytes(v.g) + WordBytes(v.h)
  }

  /** The digest of a message. */
  function Digest(m: seq<bv8>): seq<bv8> {
    PadFills(m);
    HashBytes(Fold(INITIAL, Pad(m)))
  }

  // -------------------------------------------------- the program's own steps

  function Extended(w16: bv32, w15: bv32, w7: bv32, w2: bv32): bv32 {
    w16 + SmallSigma0(w15) + w7 + SmallSigma1(w2)
  }

  /** The program adds the schedule's terms in another order. */
  lemma Reordered(a: bv32, b: bv32, c: bv32, d: bv32)
    ensures a + b + c + d == Sum4(d, c, b, a)
  {
  }

  lemma ExtendedSum(w16: bv32, w15: bv32, w7: bv32, w2: bv32)
    ensures Extended(w16, w15, w7, w2) == Sum4(SmallSigma1(w2), w7, SmallSigma0(w15), w16)
  {
    Reordered(w16, SmallSigma0(w15), w7, SmallSigma1(w2));
  }

  lemma ExtendedIsW(block: seq<bv8>, t: nat)
    requires |block| == BLOCK && 16 <= t < 64
    ensures Extended(W(block, t - 16), W(block, t - 15), W(block, t - 7), W(block, t - 2)) == W(block, t)
  {
    ExtendedSum(W(block, t - 16), W(block, t - 15), W(block, t - 7), W(block, t - 2));
  }

  predicate Scheduled(block: seq<bv8>, words: seq<bv32>, n: nat)
    requires |block| == BLOCK
  {
    n <= 64 && n <= |words| && forall t :: 0 <= t < n ==> words[t] == W(block, t)
  }

  method Schedule(block: array<bv8>) returns (words: array<bv32>)
    requires block.Length == BLOCK
    ensures fresh(words) && words.Length == 64 && Scheduled(block[..], words[..], 64)
  {
    words := new bv32[64];
    for i := 0 to 16
      invariant Scheduled(block[..], words[..], i)
    {
      words[i] := BigEndian(block[4 * i], block[4 * i + 1], block[4 * i + 2], block[4 * i + 3]);
      assert words[i] == W(block[..], i);
    }
    for i := 16 to 64
      invariant Scheduled(block[..], words[..], i)
    {
      ExtendedIsW(block[..], i);
      words[i] := Extended(words[i - 16], words[i - 15], words[i - 7], words[i - 2]);
    }
  }

  class Hasher {
    var state: Hash
    const block: array<bv8>
    var size: nat
    var bits: nat
    /** Every byte fed so far. */
    ghost var message: seq<bv8>
    /** The whole blocks of it that are in the state already. */
    ghost var done: seq<bv8>

    ghost predicate Valid()
      reads this, block
    {
      && block.Length == BLOCK && size < BLOCK && |done| % BLOCK == 0
      && state == Fold(INITIAL, done) && message == done + block[..size]
    }

    ghost predicate Counted()
      reads this
    {
      bits == BitLength(|message|)
    }

    constructor ()
      ensures Valid() && Counted() && message == [] && fresh(block)
    {
      state, block, size, bits, message, done := INITIAL, new bv8[BLOCK], 0, 0, [], [];
    }

    method Transform()
      requires block.Length == BLOCK
      modifies `state
      ensures state == Compress(old(state), block[..])
    {
      var words := Schedule(block);
      var v := state;
      for t := 0 to 64
        invariant v == Rounds(state, block[..], t)
      {
        assert words[..][t] == W(block[..], t);
        var t1 := T1(v, RoundConstant(t), words[t]);
        var t2 := T2(v);
        v := Hash(Plus(t1, t2), v.a, v.b, v.c, Plus(v.d, t1), v.e, v.f, v.g);
      }
      state := Sum(state, v);
    }

    method Copy(chunk: seq<bv8>)
      requires block.Length == BLOCK && size + |chunk| <= BLOCK
      modifies block
      ensures block[..size + |chunk|] == old(block[..size]) + chunk
    {
      for i := 0 to |chunk|
        invariant block[..size + i] == old(block[..size]) + chunk[..i]
      {
        block[size + i] := chunk[i];
        assert block[..size + i + 1] == block[..size + i] + [chunk[i]];
        assert chunk[..i + 1] == chunk[..i] + [chunk[i]];
      }
      assert chunk[..|chunk|] == chunk;
    }

    /** Takes at most what the block has room for. */
    method Absorb(chunk: seq<bv8>)
      requires Valid() && Counted() && 0 < |chunk| <= BLOCK - size
      modifies this, block
      ensures Valid() && Counted() && message == old(message) + chunk
    {
      CountMore(|message|, |chunk|);
      Fill(chunk);
      if size == BLOCK { CloseBlock(); }
    }

    /** Puts bytes behind those in the block, and counts them. */
    method Fill(chunk: seq<bv8>)
      requires block.Length == BLOCK && size + |chunk| <= BLOCK && message == done + block[..size]
      modifies `size, `bits, `message, block
      ensures size == old(size) + |chunk| && bits == (old(bits) + 8 * |chunk|) % LENGTH_MODULUS
      ensures message == old(message) + chunk && message == done + block[..size]
    {
      Copy(chunk);
      size := size + |chunk|;
      bits := (bits + 8 * |chunk|) % LENGTH_MODULUS;
      message := message + chunk;
    }

    /** A full block goes into the state. */
    method CloseBlock()
      requires block.Length == BLOCK && size == BLOCK && |done| % BLOCK == 0
      requires state == Fold(INITIAL, done) && message == done + block[..size]
      modifies this
      ensures Valid() && message == old(message) && bits == old(bits)
    {
      ghost var full := block[..];
      assert full == block[..BLOCK];
      BlockDone(done, full);
      Transform();
      FoldBlock(INITIAL, done, full);
      size, done := 0, done + full;
      assert block[..size] == [];
    }

    /** Appends data to the message. */
    method Update(data: seq<bv8>)
      requires Valid() && Counted()
      modifies this, block
      ensures Valid() && Counted() && message == old(message) + data
    {
      var offset := 0;
      while offset < |data|
        invariant Valid() && Counted() && offset <= |data| && message == old(message) + data[..offset]
      {
        var next := AbsorbSome(data, offset);
        Chopped(old(message), data, offset, next);
        offset := next;
      }
      assert data[..|data|] == data;
    }

    /** Takes as much from position `offset` on as the block has room for. */
    method AbsorbSome(data: seq<bv8>, offset: nat) returns (next: nat)
      requires Valid() && Counted() && offset < |data|
      modifies this, block
      ensures Valid() && Counted() && offset < next <= |data| && message == old(message) + data[offset..next]
    {
      var room := BLOCK - size;
      next := offset + if |data| - offset < room then |data| - offset else room;
      Absorb(data[offset..next]);
    }

    /** Zeroes the block from its size up to `limit`. */
    method ZeroUpTo(limit: nat)
      requires block.Length == BLOCK && size <= limit <= BLOCK
      modifies block, `size
      ensures size == limit && block[..limit] == old(block[..size]) + Zeros(limit - old(size))
    {
      while size < limit
        invariant old(size) <= size <= limit && block[..size] == old(block[..size]) + Zeros(size - old(size))
      {
        block[size] := 0;
        size := size + 1;
        assert block[..size] == block[..size - 1] + [0];
        assert Zeros(size - old(size)) == Zeros(size - 1 - old(size)) + [0];
      }
    }

    /** Writes the length into the last eight bytes. */
    method WriteLength()
      requires block.Length == BLOCK && bits < LENGTH_MODULUS
      modifies block
      ensures block[..56] == old(block[..56]) && block[56..] == BigEndianBytes(bits, 8)
    {
      forall i: nat | i < 8 ensures BigEndianBytes(bits, 8)[i] == Shifted(bits, 7 - i) { ByteAt(bits, 8, i); }
      ShiftOut(BigEndianBytes(bits, 8));
    }

    method ShiftOut(ghost length: seq<bv8>)
      requires block.Length == BLOCK && |length| == 8 && forall i: nat :: i < 8 ==> length[i] == Shifted(bits, 7 - i)
      modifies block
      ensures block[..56] == old(block[..56]) && block[56..] == length
    {
      for i: nat := 0 to 8
        invariant forall k :: 0 <= k < 56 ==> block[k] == old(block[k])
        invariant forall k :: 0 <= k < i ==> block[56 + k] == length[k]
      {
        block[56 + i] := Shifted(bits, 7 - i);
      }
    }

    /** Pads, compresses the last one or two blocks, and gives the digest; the hasher is spent. */
    method Finish() returns (digest: seq<bv8>)
      requires Valid() && Counted()
      modifies this, block
      ensures message == old(message) && digest == Digest(message)
    {
      DigestClosed(done, block[..size], BigEndianBytes(bits, 8));
      CloseWith(block[..size]);
      digest := HashBytes(state);
    }

    /** Puts the marker behind the last bytes and brings everything into the state. */
    method CloseWith(ghost tail: seq<bv8>)
      requires block.Length == BLOCK && size < BLOCK && tail == block[..size] && bits < LENGTH_MODULUS
      modifies block, `size, `state
      ensures state == CloseState(old(state), tail, BigEndianBytes(bits, 8))
    {
      PutMarker(tail);
      ghost var rest := tail + [0x80];
      if size > 56 {
        FlushZeros(rest);
        rest := [];
      }
      FlushLength(rest);
    }

    /** The marker left no room for the length: the block goes in with zeroes. */
    method FlushZeros(ghost rest: seq<bv8>)
      requires block.Length == BLOCK && size <= BLOCK && block[..size] == rest
      modifies block, `size, `state
      ensures size == 0 && block[..size] == [] && state == Compress(old(state), FullBlock(rest))
    {
      ZeroUpTo(BLOCK);
      assert block[..] == block[..BLOCK];
      Transform();
      size := 0;
    }

    method FlushLength(ghost rest: seq<bv8>)
      requires block.Length == BLOCK && size <= 56 && block[..size] == rest && bits < LENGTH_MODULUS
      modifies block, `size, `state
      ensures state == Compress(old(state), LastBlock(rest, BigEndianBytes(bits, 8)))
    {
      ZeroUpTo(56);
      WriteLength();
      assert block[..] == block[..56] + block[56..];
      Transform();
    }

    method PutMarker(ghost tail: seq<bv8>)
      requires block.Length == BLOCK && size < BLOCK && tail == block[..size]
      modifies block, `size
      ensures size == old(size) + 1 && block[..size] == tail + [0x80]
    {
      block[size] := 0x80;
      size := size + 1;
    }
  }

  lemma Chopped(m: seq<bv8>, data: seq<bv8>, i: nat, j: nat)
    requires i <= j <= |data|
    ensures m + data[..i] + data[i..j] == m + data[..j]
  {
    assert data[..j] == data[..i] + data[i..j];
  }

  lemma BlockDone(done: seq<bv8>, full: seq<bv8>)
    requires |done| % BLOCK == 0 && |full| == BLOCK
    ensures |done + full| % BLOCK == 0 && (done + full) + [] == done + full
  {
  }

  lemma CountMore(n: nat, k: nat)
    ensures (BitLength(n) + 8 * k) % LENGTH_MODULUS == BitLength(n + k)
  {
    ModAdd(8 * n, 8 * k);
  }

  lemma ModAdd(x: nat, y: nat)
    ensures (x % LENGTH_MODULUS + y) % LENGTH_MODULUS == (x + y) % LENGTH_MODULUS
  {
  }

  /** A block that has no room for the length. */
  function FullBlock(rest: seq<bv8>): (b: seq<bv8>)
    requires |rest| <= BLOCK
    ensures |b| == BLOCK
  {
    rest + Zeros(64 - |rest|)
  }

  /** The block that ends in the length. */
  function LastBlock(rest: seq<bv8>, length: seq<bv8>): (b: seq<bv8>)
    requires |rest| <= 56 && |length| == 8
    ensures |b| == BLOCK
  {
    rest + Zeros(56 - |rest|) + length
  }

  /** The last one or two blocks behind the whole ones. */
  function Closed(done: seq<bv8>, tail: seq<bv8>, length: seq<bv8>): seq<bv8>
    requires |tail| < BLOCK && |length| == 8
  {
    var rest := tail + [0x80];
    if |tail| < 56 then done + LastBlock(rest, length) else done + FullBlock(rest) + LastBlock([], length)
  }

  /** The state after the last one or two blocks. */
  function CloseState(v: Hash, tail: seq<bv8>, length: seq<bv8>): Hash
    requires |tail| < BLOCK && |length| == 8
  {
    var rest := tail + [0x80];
    if |tail| < 56 then Compress(v, LastBlock(rest, length)) else Compress(Compress(v, FullBlock(rest)), LastBlock([], length))
  }

  lemma FoldClosed(v: Hash, done: seq<bv8>, tail: seq<bv8>, length: seq<bv8>)
    requires |tail| < BLOCK && |length| == 8
    ensures Fold(v, Closed(done, tail, length)) == CloseState(Fold(v, done), tail, length)
  {
    var rest := tail + [0x80];
    if |tail| < 56 {
      FoldBlock(v, done, LastBlock(rest, length));
    } else {
      FoldBlock(v, done, FullBlock(rest));
      FoldBlock(v, done + FullBlock(rest), LastBlock([], length));
    }
  }

  /** The digest of a message of whole blocks and a tail. */
  lemma DigestClosed(done: seq<bv8>, tail: seq<bv8>, length: seq<bv8>)
    requires |done| % BLOCK == 0 && |tail| < BLOCK && length == BigEndianBytes(BitLength(|done + tail|), 8)
    ensures Digest(done + tail) == HashBytes(CloseState(Fold(INITIAL, done), tail, length))
  {
    GapAfter(|done|, |tail|);
    PadSplits(done, tail, Gap(|done + tail|), length);
    FoldClosed(INITIAL, done, tail, length);
  }

  /** How the padded message falls into blocks. */
  lemma PadSplits(done: seq<bv8>, tail: seq<bv8>, gap: nat, length: seq<bv8>)
    requires |tail| < BLOCK && |length| == 8 && gap == if |tail| < 56 then 55 - |tail| else 119 - |tail|
    ensures PadWith(done + tail, gap, length) == Closed(done, tail, length)
  {
    if |tail| < 56 {
      OneBlock(done, tail, [0x80], Zeros(gap), length);
    } else {
      assert Zeros(gap) == Zeros(63 - |tail|) + Zeros(56);
      TwoBlocks(done, tail, [0x80], Zeros(63 - |tail|), Zeros(56), length);
    }
  }

  lemma OneBlock(done: seq<bv8>, tail: seq<bv8>, mark: seq<bv8>, zeros: seq<bv8>, length: seq<bv8>)
    ensures done + tail + mark + zeros + length == done + (tail + mark + zeros + length)
  {
  }

  lemma TwoBlocks(done: seq<bv8>, tail: seq<bv8>, mark: seq<bv8>, zeros: seq<bv8>, more: seq<bv8>, length: seq<bv8>)
    ensures done + tail + mark + (zeros + more) + length == done + (tail + mark + zeros) + ([] + more + length)
  {
  }

  lemma GapAfter(done: nat, tail: nat)
    requires done % BLOCK == 0 && tail < BLOCK
    ensures Gap(done + tail) == if tail < 56 then 55 - tail else 119 - tail
  {
  }

  /** However a message is cut into pieces, feeding them and finishing gives its digest. */
  method HashPieces(chunks: seq<seq<bv8>>) returns (digest: seq<bv8>)
    ensures digest == Digest(Flatten(chunks))
  {
    var hasher := new Hasher();
    for i := 0 to |chunks|
      invariant fresh(hasher) && fresh(hasher.block) && hasher.Valid() && hasher.Counted()
      invariant hasher.message == Flatten(chunks[..i])
    {
      FlattenNext(chunks, i);
      hasher.Update(chunks[i]);
    }
    assert chunks[..|chunks|] == chunks;
    digest := hasher.Finish();
  }
}