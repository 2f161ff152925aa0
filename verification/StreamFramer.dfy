/** Reassembly of frames from a byte stream. */
module StreamFramer {
  import opened Errors
  import opened FrameCodec

  /** What the consumer says after the frames handed to it so far: an error stops the stream. */
  type Verdict = seq<Frame> -> Option<Error>

  /** A framer seen from outside: the bytes of the unfinished frame, the frames handed over, a sticky failure. */
  datatype View = View(buffer: seq<Byte>, delivered: seq<Frame>, failure: Option<Error>)

  const FRESH := View([], [], None)

  // ------------------------------------------------ the byte-wise automaton

  /** A complete frame goes to the consumer. */
  function Hand(verdict: Verdict, v: View, bytes: seq<Byte>): View {
    match DecodeFrame(bytes)
    case Failure(e) => View(bytes, v.delivered, Some(e))
    case Success(frame) =>
      var frames := v.delivered + [frame];
      if verdict(frames).Some? then View(bytes, frames, verdict(frames)) else View([], frames, None)
  }

  /** The full length announced by the header in front of `bytes`, or why there is none. */
  function Expected(capacity: nat, bytes: seq<Byte>): Result<nat>
    requires |bytes| >= HEADER_SIZE
  {
    match DecodeHeader(bytes[..HEADER_SIZE])
    case Failure(e) => Failure(e)
    case Success(h) => if HEADER_SIZE + h.length > capacity then Failure(BUFFER_TOO_SMALL) else Success(HEADER_SIZE + h.length)
  }

  function Grown(capacity: nat, verdict: Verdict, v: View, bytes: seq<Byte>): View {
    if |bytes| < HEADER_SIZE then v.(buffer := bytes)
    else
      match Expected(capacity, bytes)
      case Failure(e) => View(bytes, v.delivered, Some(e))
      case Success(n) => if |bytes| < n then v.(buffer := bytes) else Hand(verdict, v, bytes)
  }

  function Step(capacity: nat, verdict: Verdict, v: View, b: Byte): View {
    if v.failure.Some? then v else Grown(capacity, verdict, v, v.buffer + [b])
  }

  /** Feeding one byte at a time. */
  function Feed(capacity: nat, verdict: Verdict, v: View, input: seq<Byte>): View
    decreases |input|
  {
    if input == [] then v else Feed(capacity, verdict, Step(capacity, verdict, v, input[0]), input[1..])
  }

  /** Feeding a, then b, is feeding a + b: chunk boundaries do not matter. */
  lemma {:induction false} FeedConcat(capacity: nat, verdict: Verdict, v: View, a: seq<Byte>, b: seq<Byte>)
    ensures Feed(capacity, verdict, v, a + b) == Feed(capacity, verdict, Feed(capacity, verdict, v, a), b)
    decreases |a|
  {
    if a == [] {
      assert a + b == b;
    } else {
      assert (a + b)[1..] == a[1..] + b;
      FeedConcat(capacity, verdict, Step(capacity, verdict, v, a[0]), a[1..], b);
    }
  }

  /** A failure is sticky. */
  lemma {:induction false} FeedFailed(capacity: nat, verdict: Verdict, v: View, input: seq<Byte>)
    requires v.failure.Some?
    ensures Feed(capacity, verdict, v, input) == v
    decreases |input|
  {
    if input != [] {
      FeedFailed(capacity, verdict, v, input[1..]);
    }
  }

  /** The framer still waits for bytes of the frame that starts with `bytes`. */
  predicate Waiting(capacity: nat, bytes: seq<Byte>) {
    |bytes| >= HEADER_SIZE ==> Expected(capacity, bytes).Success? && |bytes| < Expected(capacity, bytes).value
  }

  lemma ExpectedPrefix(capacity: nat, a: seq<Byte>, b: seq<Byte>)
    requires HEADER_SIZE <= |a| && a <= b
    ensures Expected(capacity, a) == Expected(capacity, b)
  {
    assert a[..HEADER_SIZE] == b[..HEADER_SIZE];
  }

  /** Bytes that do not get past the frame in progress take effect all at once. */
  lemma {:induction false} FeedWithin(capacity: nat, verdict: Verdict, v: View, input: seq<Byte>)
    requires v.failure.None? && Waiting(capacity, v.buffer) && input != []
    requires |v.buffer| < HEADER_SIZE ==> |v.buffer| + |input| <= HEADER_SIZE
    requires |v.buffer| >= HEADER_SIZE ==> |v.buffer| + |input| <= Expected(capacity, v.buffer).value
    ensures Feed(capacity, verdict, v, input) == Grown(capacity, verdict, v, v.buffer + input)
    decreases |input|
  {
    var first := v.buffer + [input[0]];
    var w := Step(capacity, verdict, v, input[0]);
    if |input| == 1 {
      assert input[1..] == [] && v.buffer + input == first;
    } else {
      if |v.buffer| >= HEADER_SIZE { ExpectedPrefix(capacity, v.buffer, first); }
      assert w == v.(buffer := first);
      assert first + input[1..] == v.buffer + input;
      FeedWithin(capacity, verdict, w, input[1..]);
    }
  }

  // --------------------------------------------------- frames on the wire

  function Wire(f: Frame): seq<Byte> {
    HeaderBytes(f.header) + f.payload
  }

  /** The bytes of several frames, one after the other. */
  function WireAll(frames: seq<Frame>): seq<Byte> {
    if frames == [] then [] else WireAll(frames[..|frames| - 1]) + Wire(frames[|frames| - 1])
  }

  /** A frame that encoding accepts and a framer of this capacity can hold. */
  predicate Sendable(capacity: nat, f: Frame) {
    FrameOk(f) && Fits(capacity, f)
  }

  predicate Fits(capacity: nat, f: Frame) {
    Representable(f.header) && HEADER_SIZE + |f.payload| <= capacity
  }

  predicate AllSendable(capacity: nat, frames: seq<Frame>) {
    forall i :: 0 <= i < |frames| ==> Sendable(capacity, frames[i])
  }

  /** The consumer accepts these frames, one at a time. */
  predicate Welcomes(verdict: Verdict, frames: seq<Frame>) {
    frames != [] ==> verdict(frames) == None && Welcomes(verdict, frames[..|frames| - 1])
  }

  lemma WireGrows(frames: seq<Frame>, f: Frame)
    ensures WireAll(frames + [f]) == WireAll(frames) + Wire(f)
  {
    assert (frames + [f])[..|frames|] == frames;
  }

  lemma WireDecodes(capacity: nat, f: Frame)
    requires Sendable(capacity, f)
    ensures DecodeHeader(HeaderBytes(f.header)) == Success(f.header) && DecodeFrame(Wire(f)) == Success(f)
    ensures Expected(capacity, Wire(f)) == Success(|Wire(f)|)
  {
    DecodeHeaderBytes(f.header);
    DecodeAfterEncode(f, capacity);
    assert Wire(f)[..HEADER_SIZE] == HeaderBytes(f.header);
  }

  /** A framer between frames takes the bytes of one frame and hands over that frame. */
  lemma FeedFrame(capacity: nat, verdict: Verdict, v: View, f: Frame)
    requires v.failure == None && v.buffer == [] && Sendable(capacity, f)
    requires verdict(v.delivered + [f]) == None
    ensures Feed(capacity, verdict, v, Wire(f)) == View([], v.delivered + [f], None)
  {
    WireDecodes(capacity, f);
    var h := HeaderBytes(f.header);
    FeedWithin(capacity, verdict, v, h);
    assert v.buffer + h == h && (f.payload == [] ==> h + f.payload == h);
    ExpectedPrefix(capacity, h, Wire(f));
    FeedConcat(capacity, verdict, v, h, f.payload);
    if f.payload != [] {
      FeedWithin(capacity, verdict, v.(buffer := h), f.payload);
    }
  }

  /** The bytes of acceptable frames come out as exactly those frames. */
  lemma {:induction false} FramesRecovered(capacity: nat, verdict: Verdict, frames: seq<Frame>)
    requires AllSendable(capacity, frames) && Welcomes(verdict, frames)
    ensures Feed(capacity, verdict, FRESH, WireAll(frames)) == View([], frames, None)
  {
    if frames != [] {
      var before, f := frames[..|frames| - 1], frames[|frames| - 1];
      FramesRecovered(capacity, verdict, before);
      assert before + [f] == frames;
      FrameBehind(capacity, verdict, WireAll(before), before, f);
    }
  }

  lemma FrameBehind(capacity: nat, verdict: Verdict, bytes: seq<Byte>, before: seq<Frame>, f: Frame)
    requires Feed(capacity, verdict, FRESH, bytes) == View([], before, None)
    requires Sendable(capacity, f) && verdict(before + [f]) == None
    ensures Feed(capacity, verdict, FRESH, bytes + Wire(f)) == View([], before + [f], None)
  {
    FeedConcat(capacity, verdict, FRESH, bytes, Wire(f));
    FeedFrame(capacity, verdict, View([], before, None), f);
  }

  /** Bytes in, bytes accounted for: in frames handed over, or still in the buffer. */
  predicate Conserves(v: View, input: seq<Byte>) {
    v.failure == None ==> WireAll(v.delivered) + v.buffer == input
  }

  lemma DecodedWire(bytes: seq<Byte>)
    requires DecodeFrame(bytes).Success?
    ensures Wire(DecodeFrame(bytes).value) == bytes
  {
    EncodeAfterDecode(bytes, |bytes|);
  }

  lemma HandConserves(verdict: Verdict, v: View, bytes: seq<Byte>)
    ensures Conserves(Hand(verdict, v, bytes), WireAll(v.delivered) + bytes)
    ensures v.delivered <= Hand(verdict, v, bytes).delivered
  {
    var decoded := DecodeFrame(bytes);
    if decoded.Success? {
      DecodedWire(bytes);
      WireGrows(v.delivered, decoded.value);
    }
  }

  lemma StepConserves(capacity: nat, verdict: Verdict, v: View, input: seq<Byte>, b: Byte)
    requires Conserves(v, input)
    ensures Conserves(Step(capacity, verdict, v, b), input + [b])
    ensures v.delivered <= Step(capacity, verdict, v, b).delivered
  {
    var bytes := v.buffer + [b];
    assert v.failure == None ==> WireAll(v.delivered) + bytes == input + [b];
    HandConserves(verdict, v, bytes);
  }

  /** Whatever a framer without failure was fed, it has handed over or still holds; what it handed over stays so. */
  lemma {:induction false} FeedConserves(capacity: nat, verdict: Verdict, v: View, past: seq<Byte>, input: seq<Byte>)
    requires Conserves(v, past)
    ensures Conserves(Feed(capacity, verdict, v, input), past + input)
    ensures v.delivered <= Feed(capacity, verdict, v, input).delivered
    decreases |input|
  {
    if input == [] {
      assert past + input == past;
    } else {
      StepConserves(capacity, verdict, v, past, input[0]);
      assert past + [input[0]] + input[1..] == past + input;
      FeedConserves(capacity, verdict, Step(capacity, verdict, v, input[0]), past + [input[0]], input[1..]);
    }
  }

  /** Any part of the stream that has arrived yields the first frames, in order, and the start of the next. */
  lemma PartRecovered(capacity: nat, verdict: Verdict, frames: seq<Frame>, arrived: seq<Byte>)
    requires AllSendable(capacity, frames) && Welcomes(verdict, frames) && arrived <= WireAll(frames)
    ensures var v := Feed(capacity, verdict, FRESH, arrived);
            && v.failure == None && v.delivered <= frames && WireAll(v.delivered) + v.buffer == arrived
            && (arrived == WireAll(frames) ==> v == View([], frames, None))
  {
    var rest := WireAll(frames)[|arrived|..];
    var v := Feed(capacity, verdict, FRESH, arrived);
    assert arrived + rest == WireAll(frames);
    FramesRecovered(capacity, verdict, frames);
    FeedConcat(capacity, verdict, FRESH, arrived, rest);
    if v.failure.Some? { FeedFailed(capacity, verdict, v, rest); }
    assert WireAll([]) + [] == [];
    FeedConserves(capacity, verdict, FRESH, [], arrived);
    assert [] + arrived == arrived;
    FeedConserves(capacity, verdict, v, arrived, rest);
  }

  // ------------------------------------------------------------ the framer

  class Framer {
    const storage: array<Byte>
    const verdict: Verdict
    var buffered: nat
    var expected: nat
    var failed: bool
    var failure: Error
    var delivered: seq<Frame>

    ghost predicate Valid()
      reads this, storage
    {
      && buffered <= storage.Length
      && (storage.Length >= HEADER_SIZE && !failed ==>
            && Waiting(storage.Length, storage[..buffered])
            && (buffered >= HEADER_SIZE ==> Expected(storage.Length, storage[..buffered]) == Success(expected)))
    }

    ghost function Seen(): View
      reads this, storage
      requires Valid()
    {
      View(storage[..buffered], delivered, if failed then Some(failure) else None)
    }

    constructor (storage: array<Byte>, verdict: Verdict)
      ensures Valid() && Seen() == FRESH && this.storage == storage && this.verdict == verdict
    {
      this.storage, this.verdict := storage, verdict;
      buffered, expected, failed, failure, delivered := 0, 0, false, INTERNAL, [];
    }

    method Copy(input: seq<Byte>)
      requires buffered + |input| <= storage.Length
      modifies storage, `buffered
      ensures buffered == old(buffered) + |input| && storage[..buffered] == old(storage[..buffered]) + input
    {
      forall i | 0 <= i < |input| {
        storage[buffered + i] := input[i];
      }
      buffered := buffered + |input|;
    }

    /** Accepts any fragment of the stream and hands over every frame it completes. */
    method FeedChunk(input: seq<Byte>) returns (r: Result<nat>)
      requires Valid()
      modifies this, storage
      ensures old(failed) ==> r == Failure(old(failure)) && Valid() && Seen() == old(Seen())
      ensures !old(failed) && storage.Length < HEADER_SIZE ==> r == Failure(INVALID_ARGUMENT) && Valid() && Seen() == old(Seen())
      ensures !old(failed) && storage.Length >= HEADER_SIZE ==>
                && Valid() && Seen() == Feed(storage.Length, verdict, old(Seen()), input)
                && r == if failed then Failure(failure) else Success(|delivered| - |old(delivered)|)
    {
      if failed { return Failure(failure); }
      if storage.Length < HEADER_SIZE { return Failure(INVALID_ARGUMENT); }
      var offset, completed: nat, earlier := 0, 0, |delivered|;
      assert input[..0] == [];
      while offset < |input|
        invariant Valid() && !failed && offset <= |input|
        invariant Seen() == Feed(storage.Length, verdict, old(Seen()), input[..offset])
        invariant |delivered| == |old(delivered)| + completed
        decreases |input| - offset
      {
        var amount, stop := Take(input[offset..]);
        FeedConcat(storage.Length, verdict, old(Seen()), input[..offset], input[offset..][..amount]);
        assert input[..offset] + input[offset..][..amount] == input[..offset + amount];
        offset := offset + amount;
        if stop.Some? {
          assert input == input[..offset] + input[offset..];
          FeedConcat(storage.Length, verdict, old(Seen()), input[..offset], input[offset..]);
          FeedFailed(storage.Length, verdict, Seen(), input[offset..]);
          return Failure(stop.value);
        }
        completed := |delivered| - earlier;
      }
      assert input[..|input|] == input;
      r := Success(completed);
    }

    /** Takes as many bytes as the header, or the frame, in progress still needs. */
    method Take(input: seq<Byte>) returns (amount: nat, stop: Option<Error>)
      requires Valid() && !failed && storage.Length >= HEADER_SIZE && input != []
      modifies this, storage
      ensures 0 < amount <= |input|
      ensures Valid() && failed == stop.Some? && (failed ==> failure == stop.value)
      ensures |delivered| >= |old(delivered)|
      ensures Seen() == Feed(storage.Length, verdict, old(Seen()), input[..amount])
    {
      var room := if buffered < HEADER_SIZE then HEADER_SIZE - buffered else expected - buffered;
      amount := if room < |input| then room else |input|;
      ghost var v := Seen();
      FeedWithin(storage.Length, verdict, v, input[..amount]);
      Copy(input[..amount]);
      stop := Absorb(v, v.buffer + input[..amount]);
    }

    /** Acts on the bytes just copied behind those of the view `v`. */
    method Absorb(ghost v: View, ghost bytes: seq<Byte>) returns (stop: Option<Error>)
      requires HEADER_SIZE <= storage.Length && buffered <= storage.Length && bytes == storage[..buffered] && !failed
      requires v.buffer <= bytes && v.buffer != bytes && Waiting(storage.Length, v.buffer)
      requires v.delivered == delivered && v.failure == None
      requires if |v.buffer| < HEADER_SIZE then buffered <= HEADER_SIZE
               else Expected(storage.Length, v.buffer) == Success(expected) && buffered <= expected
      modifies this
      ensures Valid() && failed == stop.Some? && (failed ==> failure == stop.value)
      ensures |delivered| >= |old(delivered)|
      ensures Seen() == Grown(storage.Length, verdict, v, bytes)
    {
      stop := None;
      if buffered < HEADER_SIZE { return; }
      if buffered == HEADER_SIZE {
        assert bytes[..HEADER_SIZE] == storage[..HEADER_SIZE];
        var header := DecodeHeader(storage[..HEADER_SIZE]);
        if header.Failure? {
          failed, failure, stop := true, header.error, Some(header.error);
          return;
        }
        expected := HEADER_SIZE + header.value.length;
        if expected > storage.Length {
          failed, failure, stop := true, BUFFER_TOO_SMALL, Some(BUFFER_TOO_SMALL);
          return;
        }
      } else {
        ExpectedPrefix(storage.Length, v.buffer, bytes);
      }
      if buffered == expected { stop := Finish(v, bytes); }
    }

    /** A whole frame is there. */
    method Finish(ghost v: View, ghost bytes: seq<Byte>) returns (stop: Option<Error>)
      requires buffered == expected <= storage.Length && bytes == storage[..buffered] && !failed && v.delivered == delivered
      modifies this
      ensures Valid() && failed == stop.Some? && (failed ==> failure == stop.value)
      ensures |delivered| >= |old(delivered)|
      ensures Seen() == Hand(verdict, v, bytes)
    {
      stop := None;
      var frame := DecodeFrame(storage[..expected]);
      if frame.Failure? {
        failed, failure, stop := true, frame.error, Some(frame.error);
        return;
      }
      delivered := delivered + [frame.value];
      var consumed := verdict(delivered);
      if consumed.Some? {
        failed, failure, stop := true, consumed.value, consumed;
        return;
      }
      buffered, expected := 0, 0;
    }

    method Reset()
      modifies this
      ensures Valid() && Seen() == View([], old(delivered), None)
    {
      buffered, expected, failed, failure := 0, 0, false, INTERNAL;
    }
  }
}
