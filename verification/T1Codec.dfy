/** Iteration of a step function, over an abstract carrier. */
module Iteration {
  function Iter<T>(f: T -> T, n: nat, x: T): T {
    if n == 0 then x else f(Iter(f, n - 1, x))
  }

  lemma Iter8<T>(f: T -> T, x: T)
    ensures Iter(f, 8, x) == f(f(f(f(f(f(f(f(x))))))))
  {
    assert Iter(f, 2, x) == f(f(x));
    assert Iter(f, 4, x) == f(f(f(f(x))));
    assert Iter(f, 6, x) == f(f(f(f(f(f(x))))));
  }

  /** Iterating an additive map is additive. */
  lemma {:induction false} IterAdditive<T(!new)>(f: T -> T, add: (T, T) -> T, n: nat, x: T, y: T)
    requires forall a, b :: f(add(a, b)) == add(f(a), f(b))
    ensures Iter(f, n, add(x, y)) == add(Iter(f, n, x), Iter(f, n, y))
  {
    if n > 0 {
      IterAdditive(f, add, n - 1, x, y);
    }
  }

  /** Iterating a map with trivial kernel has trivial kernel. */
  lemma {:induction false} IterKernel<T(!new)>(f: T -> T, zero: T, n: nat, x: T)
    requires forall a :: f(a) == zero <==> a == zero
    ensures Iter(f, n, x) == zero <==> x == zero
  {
    if n > 0 {
      IterKernel(f, zero, n - 1, x);
    }
  }

  /** If every pair step advances the sum of the pair by f, so do n pair steps. */
  lemma {:induction false} IterSum<T(!new)>(f: T -> T, step: ((T, T)) -> (T, T), sum: ((T, T)) -> T, n: nat, p: (T, T))
    requires forall q :: sum(step(q)) == f(sum(q))
    ensures sum(Iter(step, n, p)) == Iter(f, n, sum(p))
  {
    if n > 0 {
      IterSum(f, step, sum, n - 1, p);
    }
  }
}

/**
 The T=1 block layer: error-detection codes, block construction and block
 acceptance (section 11.3 of ISO/IEC 7816-3).
 */
module T1Codec {
  import opened Errors
  import opened Iteration

  type Byte = bv8

  /** Longest block the UART carries, error-detection code included. */
  const FRAME_MAX := 255

  /** An accepted block: its protocol control byte and its information field. */
  datatype Block = Block(pcb: Byte, inf: seq<Byte>)

  // ------------------------------------------------------------------ CRC

  /** Addition in GF(2)[x]. */
  function Add(a: bv16, b: bv16): bv16 {
    a ^ b
  }

  /** The reduction of t * x^16 modulo x^16 + x^12 + x^5 + 1, for a bit t. */
  function Reduce(t: bv16): bv16 {
    (t << 12) ^ (t << 5) ^ t
  }

  /** Multiplication by x in GF(2)[x] modulo x^16 + x^12 + x^5 + 1. */
  function MulX(c: bv16): bv16 {
    (c << 1) ^ Reduce(c >> 15)
  }

  function High(b: Byte): bv16 {
    (b as bv16) << 8
  }

  /** Byte-at-a-time CRC: add the byte into the high half, then multiply by x^8. */
  function ByteStep(crc: bv16, b: Byte): bv16 {
    Iter(MulX, 8, Add(crc, High(b)))
  }

  function Crc(init: bv16, data: seq<Byte>): bv16 {
    if data == [] then init
    else ByteStep(Crc(init, data[..|data| - 1]), data[|data| - 1])
  }

  lemma MulXXor(a: bv16, b: bv16)
    ensures MulX(a ^ b) == MulX(a) ^ MulX(b)
  {
  }

  lemma MulXKernel(c: bv16)
    ensures MulX(c) == 0 <==> c == 0
  {
  }

  lemma MulX8Low(b: Byte)
    ensures MulX(MulX(MulX(MulX(MulX(MulX(MulX(MulX(b as bv16)))))))) == High(b)
  {
  }

  lemma MulXAdditive()
    ensures forall a, b :: MulX(Add(a, b)) == Add(MulX(a), MulX(b))
  {
    forall a, b
      ensures MulX(Add(a, b)) == Add(MulX(a), MulX(b))
    {
      MulXXor(a, b);
    }
  }

  lemma X8Additive(a: bv16, b: bv16)
    ensures Iter(MulX, 8, Add(a, b)) == Add(Iter(MulX, 8, a), Iter(MulX, 8, b))
  {
    MulXAdditive();
    IterAdditive(MulX, Add, 8, a, b);
  }

  lemma X8Kernel(c: bv16)
    ensures Iter(MulX, 8, c) == 0 <==> c == 0
  {
    forall x: bv16
      ensures MulX(x) == 0 <==> x == 0
    {
      MulXKernel(x);
    }
    IterKernel(MulX, 0, 8, c);
  }

  /** The register after one round of the bit loop, v holding the message bits left. */
  function NextCrc(c: bv16, v: bv16): bv16 {
    if (c ^ v) & 0x8000 != 0 then (c << 1) ^ 0x1021 else c << 1
  }

  function Round(p: (bv16, bv16)): (bv16, bv16) {
    (NextCrc(p.0, p.1), Shl(p.1))
  }

  function Sum(p: (bv16, bv16)): bv16 {
    Add(p.0, p.1)
  }

  lemma RoundFoldsBit(c: bv16, v: bv16)
    ensures NextCrc(c, v) ^ (v << 1) == MulX(c ^ v)
  {
    TopBit(c ^ v);
    assert Reduce(0) == 0 && Reduce(1) == 0x1021;
    ShiftXor(c, v);
  }

  lemma RoundAdvances()
    ensures forall q :: Sum(Round(q)) == MulX(Sum(q))
  {
    forall q
      ensures Sum(Round(q)) == MulX(Sum(q))
    {
      RoundFoldsBit(q.0, q.1);
    }
  }

  lemma TopBit(c: bv16)
    ensures if c & 0x8000 != 0 then c >> 15 == 1 else c >> 15 == 0
  {
  }

  lemma ShiftXor(a: bv16, b: bv16)
    ensures (a ^ b) << 1 == (a << 1) ^ (b << 1)
    ensures (a ^ b) ^ 0x1021 == (a ^ 0x1021) ^ b
    ensures (a ^ b) ^ 0 == a ^ b
  {
  }

  lemma EightRounds(crc: bv16, b: Byte)
    ensures Iter(Round, 8, (crc, High(b))).0 == ByteStep(crc, b)
  {
    RoundAdvances();
    IterSum(MulX, Round, Sum, 8, (crc, High(b)));
    MessageShiftedOut(crc, b);
    XorZero(Iter(Round, 8, (crc, High(b))).0);
  }

  lemma XorZero(c: bv16)
    ensures c ^ 0 == c
  {
  }

  function Shl(v: bv16): bv16 {
    v << 1
  }

  lemma MessageShiftedOut(crc: bv16, b: Byte)
    ensures Iter(Round, 8, (crc, High(b))).1 == 0
  {
    SecondComponent(8, (crc, High(b)));
    Iter8(Shl, High(b));
    EightShifts(b);
  }

  lemma EightShifts(b: Byte)
    ensures Shl(Shl(Shl(Shl(Shl(Shl(Shl(Shl(High(b))))))))) == 0
  {
  }

  lemma {:induction false} SecondComponent(n: nat, p: (bv16, bv16))
    ensures Iter(Round, n, p).1 == Iter(Shl, n, p.1)
  {
    if n > 0 {
      SecondComponent(n - 1, p);
    }
  }

  /**
   The loop of the source: message bits are folded into the register one at a
   time, most significant first.
   */
  method CalculateCrc(data: seq<Byte>) returns (crc: bv16)
    ensures crc == Crc(0xffff, data)
  {
    crc := 0xffff;
    for i := 0 to |data|
      invariant crc == Crc(0xffff, data[..i])
    {
      var value := High(data[i]);
      ghost var start := (crc, value);
      for bit := 0 to 8
        invariant (crc, value) == Iter(Round, bit, start)
      {
        ghost var c, v := crc, value;
        if (crc ^ value) & 0x8000 != 0 {
          crc := (crc << 1) ^ 0x1021;
        } else {
          crc := crc << 1;
        }
        value := value << 1;
        assert crc == NextCrc(c, v) && value == Shl(v);
      }
      EightRounds(start.0, data[i]);
      assert data[..i + 1][..i] == data[..i];
    }
    assert data[..|data|] == data;
  }

  // ------------------------------------------------- algebra of the CRC

  function Word(h: Byte, l: Byte): bv16 {
    High(h) | (l as bv16)
  }

  lemma ByteStepAdditive(c: bv16, d: bv16, x: Byte, y: Byte)
    ensures ByteStep(Add(c, d), x ^ y) == Add(ByteStep(c, x), ByteStep(d, y))
  {
    AddShuffle(c, d, x, y);
    X8Additive(Add(c, High(x)), Add(d, High(y)));
  }

  lemma AddShuffle(c: bv16, d: bv16, x: Byte, y: Byte)
    ensures Add(Add(c, d), High(x ^ y)) == Add(Add(c, High(x)), Add(d, High(y)))
  {
  }

  lemma ByteStepZero(c: bv16)
    ensures ByteStep(c, 0) == 0 <==> c == 0
  {
    AddFacts(c, 0);
    assert High(0) == 0;
    X8Kernel(c);
  }

  lemma AddZero(c: bv16)
    ensures Add(c, 0) == c
  {
  }

  lemma AddZeroLeft(c: bv16)
    ensures Add(0, c) == c
  {
  }

  lemma AddSelf(c: bv16)
    ensures Add(c, c) == 0
  {
  }

  lemma AddFacts(c: bv16, d: bv16)
    ensures Add(c, 0) == c
    ensures Add(c, d) == 0 <==> c == d
  {
    AddZero(c);
    AddSelf(c);
    AddSelf(d);
    AddAssociative(c, d, d);
    AddZeroLeft(d);
  }

  /** Two code bytes clear the register exactly when they spell its value. */
  lemma CodeClears(c: bv16, h: Byte, l: Byte)
    ensures ByteStep(ByteStep(c, h), l) == 0 <==> c == Word(h, l)
  {
    var s := Add(c, High(h));
    X8Kernel(Add(ByteStep(c, h), High(l)));
    X8Low(l);
    X8Additive(s, l as bv16);
    X8Kernel(Add(s, l as bv16));
    WordSum(c, h, l);
  }

  lemma X8Low(l: Byte)
    ensures Iter(MulX, 8, l as bv16) == High(l)
  {
    Iter8(MulX, l as bv16);
    MulX8Low(l);
  }

  lemma WordSum(c: bv16, h: Byte, l: Byte)
    ensures Add(Add(c, High(h)), l as bv16) == 0 <==> c == Word(h, l)
  {
    WordIsSum(h, l);
    AddAssociative(c, High(h), l as bv16);
    AddFacts(c, Word(h, l));
  }

  lemma WordIsSum(h: Byte, l: Byte)
    ensures Word(h, l) == Add(High(h), l as bv16)
  {
  }

  lemma AddAssociative(a: bv16, b: bv16, c: bv16)
    ensures Add(Add(a, b), c) == Add(a, Add(b, c))
  {
  }

  lemma {:induction false} CrcConcat(init: bv16, a: seq<Byte>, b: seq<Byte>)
    ensures Crc(init, a + b) == Crc(Crc(init, a), b)
  {
    if b == [] {
      assert a + b == a;
    } else {
      var n := |b| - 1;
      assert (a + b)[..|a + b| - 1] == a + b[..n];
      CrcConcat(init, a, b[..n]);
    }
  }

  function Xor(a: seq<Byte>, b: seq<Byte>): (c: seq<Byte>)
    requires |a| == |b|
    ensures |c| == |a|
  {
    seq(|a|, i requires 0 <= i < |a| => a[i] ^ b[i])
  }

  lemma {:induction false} CrcAdditive(i: bv16, j: bv16, a: seq<Byte>, b: seq<Byte>)
    requires |a| == |b|
    ensures Crc(Add(i, j), Xor(a, b)) == Add(Crc(i, a), Crc(j, b))
  {
    if a != [] {
      var n := |a| - 1;
      CrcAdditive(i, j, a[..n], b[..n]);
      assert Xor(a, b)[..n] == Xor(a[..n], b[..n]);
      ByteStepAdditive(Crc(i, a[..n]), Crc(j, b[..n]), a[n], b[n]);
    }
  }

  lemma {:induction false} CrcZeros(c: bv16, z: seq<Byte>)
    requires forall i :: 0 <= i < |z| ==> z[i] == 0
    ensures Crc(c, z) == 0 <==> c == 0
  {
    if z != [] {
      CrcZeros(c, z[..|z| - 1]);
      ByteStepZero(Crc(c, z[..|z| - 1]));
    }
  }

  /** A frame whose last two bytes are its CRC leaves the register at zero, and conversely. */
  predicate CrcMatches(frame: seq<Byte>)
    requires |frame| >= 2
  {
    Crc(0xffff, frame[..|frame| - 2]) == Word(frame[|frame| - 2], frame[|frame| - 1])
  }

  lemma CrcResidue(frame: seq<Byte>)
    requires |frame| >= 2
    ensures CrcMatches(frame) <==> Crc(0xffff, frame) == 0
  {
    var n := |frame| - 2;
    assert frame[..n + 1][..n] == frame[..n];
    assert frame[..n + 1] == frame[..|frame| - 1];
    CodeClears(Crc(0xffff, frame[..n]), frame[n], frame[n + 1]);
  }

  /** Damage confined to bytes k and k+1 never carries a valid CRC into a valid CRC. */
  lemma CrcDetectsAdjacentDamage(f: seq<Byte>, g: seq<Byte>, k: nat)
    requires |f| == |g| && k + 1 < |f|
    requires forall i :: 0 <= i < |f| && i != k && i != k + 1 ==> f[i] == g[i]
    requires f != g && CrcMatches(f)
    ensures !CrcMatches(g)
  {
    XorBytes(f, g);
    BurstResidue(Xor(f, g), k);
    AddFacts(0xffff, 0xffff);
    CrcAdditive(0xffff, 0xffff, f, g);
    AddFacts(Crc(0xffff, f), Crc(0xffff, g));
    CrcResidue(f);
    CrcResidue(g);
  }

  lemma BurstResidue(e: seq<Byte>, k: nat)
    requires k + 1 < |e| && (e[k] != 0 || e[k + 1] != 0)
    requires forall i :: 0 <= i < |e| && i != k && i != k + 1 ==> e[i] == 0
    ensures Crc(0, e) != 0
  {
    var pre, mid, post := e[..k], e[k..k + 2], e[k + 2..];
    CrcZeros(0, pre);
    CrcConcat(0, pre, mid);
    BurstNonzero(mid);
    CrcZeros(Crc(0, pre + mid), post);
    CrcConcat(0, pre + mid, post);
    assert e == pre + mid + post;
  }

  lemma XorBytes(f: seq<Byte>, g: seq<Byte>)
    requires |f| == |g|
    ensures forall i :: 0 <= i < |f| ==> (Xor(f, g)[i] == 0 <==> f[i] == g[i])
  {
  }

  lemma BurstNonzero(mid: seq<Byte>)
    requires |mid| == 2 && (mid[0] != 0 || mid[1] != 0)
    ensures Crc(0, mid) != 0
  {
    assert mid[..1][..0] == [];
    assert Crc(0, mid[..1]) == ByteStep(0, mid[0]);
    CodeClears(0, mid[0], mid[1]);
    WordZero(mid[0], mid[1]);
  }

  lemma WordZero(h: Byte, l: Byte)
    ensures Word(h, l) == 0 <==> h == 0 && l == 0
  {
  }

  // ------------------------------------------------------------------ LRC

  function Lrc(data: seq<Byte>): Byte {
    if data == [] then 0 else Lrc(data[..|data| - 1]) ^ data[|data| - 1]
  }

  lemma LrcAppend(data: seq<Byte>, b: Byte)
    ensures Lrc(data + [b]) == Lrc(data) ^ b
    ensures Lrc(data + [b]) == 0 <==> b == Lrc(data)
  {
    assert (data + [b])[..|data|] == data;
    XorCancels(Lrc(data), b);
  }

  lemma XorCancels(a: Byte, b: Byte)
    ensures a ^ b == 0 <==> a == b
  {
  }

  // --------------------------------------------------------------- blocks

  function EdcLength(useCrc: bool): nat {
    if useCrc then 2 else 1
  }

  /** Longest information field that fits a UART frame. */
  function MaxInf(useCrc: bool): nat {
    FRAME_MAX - 3 - EdcLength(useCrc)
  }

  /** The byte of a number, by counting. */
  function ByteOf(n: nat): (b: Byte)
    requires n < 256
    ensures b as int == n
  {
    if n == 0 then 0 else Successor(ByteOf(n - 1)); ByteOf(n - 1) + 1
  }

  lemma Successor(b: Byte)
    requires b as int < 255
    ensures (b + 1) as int == b as int + 1
  {
  }

  lemma SameByte(a: Byte, b: Byte)
    requires a as int == b as int
    ensures a == b
  {
  }

  function Prologue(pcb: Byte, inf: seq<Byte>): seq<Byte>
    requires |inf| < 256
  {
    [0, pcb, ByteOf(|inf|)] + inf
  }

  function Edc(useCrc: bool, body: seq<Byte>): (e: seq<Byte>)
    ensures |e| == EdcLength(useCrc)
  {
    if useCrc then var crc := Crc(0xffff, body); [HighByte(crc), LowByte(crc)]
    else [Lrc(body)]
  }

  function HighByte(c: bv16): Byte {
    (c >> 8) as Byte
  }

  function LowByte(c: bv16): Byte {
    (c & 0xff) as Byte
  }

  /** A block with its error-detection code. */
  function FrameOf(useCrc: bool, b: Block): (f: seq<Byte>)
    requires |b.inf| < 256
    ensures |f| == 3 + |b.inf| + EdcLength(useCrc)
  {
    var body := Prologue(b.pcb, b.inf);
    body + Edc(useCrc, body)
  }

  /** The bytes put on the wire for a block, or INVALID_ARGUMENT when it cannot fit. */
  function EncodeBlock(useCrc: bool, b: Block): (r: Result<seq<Byte>>)
    ensures r.Success? <==> |b.inf| <= MaxInf(useCrc)
  {
    if |b.inf| > MaxInf(useCrc) then Failure(INVALID_ARGUMENT) else Success(FrameOf(useCrc, b))
  }

  /** The length announced by the third byte of a frame. */
  function AnnouncedLength(useCrc: bool, frame: seq<Byte>): nat
    requires |frame| >= 3
  {
    3 + frame[2] as int + EdcLength(useCrc)
  }

  predicate EdcMatches(useCrc: bool, frame: seq<Byte>)
    requires |frame| >= 2
  {
    if useCrc then CrcMatches(frame) else Lrc(frame) == 0
  }

  /** Acceptance of a frame that has exactly its announced length. */
  function ParseFrame(useCrc: bool, frame: seq<Byte>): Result<Block>
    requires |frame| >= 3 && |frame| == AnnouncedLength(useCrc, frame)
  {
    if frame[0] != 0 || !EdcMatches(useCrc, frame) then Failure(PROTOCOL_ERROR)
    else Success(Block(frame[1], frame[3..3 + frame[2] as int]))
  }

  lemma WordSplit(c: bv16)
    ensures Word(HighByte(c), LowByte(c)) == c
  {
  }

  /** The trailing bytes are accepted exactly when they are the code of what precedes them. */
  lemma EdcUnique(useCrc: bool, body: seq<Byte>, edc: seq<Byte>)
    requires |body| >= 1 && |edc| == EdcLength(useCrc)
    ensures EdcMatches(useCrc, body + edc) <==> edc == Edc(useCrc, body)
  {
    var frame := body + edc;
    if useCrc {
      assert frame[..|frame| - 2] == body;
      var crc := Crc(0xffff, body);
      WordSplit(crc);
      WordParts(edc[0], edc[1]);
    } else {
      assert edc == [edc[0]];
      LrcAppend(body, edc[0]);
    }
  }

  lemma WordParts(h: Byte, l: Byte)
    ensures HighByte(Word(h, l)) == h && LowByte(Word(h, l)) == l
  {
  }

  /** Every block that is sent announces its own length and is accepted as itself. */
  lemma ParseAfterEncode(useCrc: bool, b: Block)
    requires |b.inf| <= MaxInf(useCrc)
    ensures var frame := EncodeBlock(useCrc, b).value;
            && 3 <= |frame| <= FRAME_MAX && |frame| == AnnouncedLength(useCrc, frame)
            && ParseFrame(useCrc, frame) == Success(b)
  {
    var body := Prologue(b.pcb, b.inf);
    EdcUnique(useCrc, body, Edc(useCrc, body));
    var frame := EncodeBlock(useCrc, b).value;
    assert frame[3..3 + |b.inf|] == b.inf;
  }

  /** Every accepted frame is the encoding of the block it is accepted as. */
  lemma EncodeAfterParse(useCrc: bool, frame: seq<Byte>)
    requires 3 <= |frame| <= FRAME_MAX && |frame| == AnnouncedLength(useCrc, frame)
    requires ParseFrame(useCrc, frame).Success?
    ensures EncodeBlock(useCrc, ParseFrame(useCrc, frame).value) == Success(frame)
  {
    var n := 3 + frame[2] as int;
    FrameSplits(frame, n);
    EncodeFront(useCrc, frame[1], frame[3..n], frame[n..]);
  }

  lemma FrameSplits(frame: seq<Byte>, n: nat)
    requires |frame| >= 3 && frame[0] == 0 && n == 3 + frame[2] as int <= |frame|
    ensures frame == Prologue(frame[1], frame[3..n]) + frame[n..]
  {
    FrontIsPrologue(frame);
    assert frame == frame[..n] + frame[n..];
  }

  lemma EncodeFront(useCrc: bool, pcb: Byte, inf: seq<Byte>, edc: seq<Byte>)
    requires |inf| <= MaxInf(useCrc) && |edc| == EdcLength(useCrc) && EdcMatches(useCrc, Prologue(pcb, inf) + edc)
    ensures EncodeBlock(useCrc, Block(pcb, inf)) == Success(Prologue(pcb, inf) + edc)
  {
    EdcUnique(useCrc, Prologue(pcb, inf), edc);
  }

  lemma FrontIsPrologue(frame: seq<Byte>)
    requires |frame| >= 3 && frame[0] == 0 && 3 + frame[2] as int <= |frame|
    ensures frame[..3 + frame[2] as int] == Prologue(frame[1], frame[3..3 + frame[2] as int])
  {
    LengthByteBack(frame[2]);
  }

  lemma LengthByteBack(b: Byte)
    ensures b as int < 256 && ByteOf(b as int) == b
  {
    SameByte(ByteOf(b as int), b);
  }

  /** Any damage to at most two adjacent bytes that leaves LEN alone is rejected in CRC mode. */
  lemma AdjacentDamageRejected(frame: seq<Byte>, damaged: seq<Byte>, k: nat)
    requires 3 <= |frame| == |damaged| && k + 1 < |frame|
    requires |frame| == AnnouncedLength(true, frame) && ParseFrame(true, frame).Success?
    requires forall i :: 0 <= i < |frame| && i != k && i != k + 1 ==> frame[i] == damaged[i]
    requires damaged != frame && damaged[2] == frame[2]
    ensures ParseFrame(true, damaged) == Failure(PROTOCOL_ERROR)
  {
    CrcDetectsAdjacentDamage(frame, damaged, k);
  }
}
