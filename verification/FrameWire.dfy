/** The cursors that write and read frames in buffers, among them a payload that already lies in the output buffer. */
module FrameWire {
  import opened Errors
  import opened FrameCodec

  class Writer {
    const output: array<Byte>
    var offset: nat

    ghost predicate Valid()
      reads this, output
    {
      offset <= output.Length
    }

    constructor (output: array<Byte>)
      ensures Valid() && this.output == output && offset == 0
    {
      this.output, offset := output, 0;
    }

    method U8(value: Byte)
      requires Valid() && offset < output.Length
      modifies `offset, output
      ensures Valid() && offset == old(offset) + 1
      ensures output[..offset] == old(output[..offset]) + [value] && output[offset..] == old(output[offset + 1..])
    {
      output[offset] := value;
      offset := offset + 1;
    }

    /** A number of the given width, low byte first. */
    method Number(width: nat, value: nat)
      requires Valid() && offset + width <= output.Length
      modifies `offset, output
      ensures Valid() && offset == old(offset) + width
      ensures output[..offset] == old(output[..offset]) + Le(width, value)
      ensures output[offset..] == old(output[offset + width..])
    {
      var rest, i := value, 0;
      ghost var start, before := offset, output[..];
      while i < width
        invariant i <= width && offset == start + i
        invariant output[..offset] + Le(width - i, rest) == before[..start] + Le(width, value)
        invariant output[offset..] == before[start + i..]
      {
        assert before[start + i..][1..] == before[start + i + 1..];
        ghost var done := output[..offset];
        U8(rest % 256);
        assert done + Le(width - i, rest) == (done + [rest % 256]) + Le(width - i - 1, rest / 256);
        rest, i := rest / 256, i + 1;
      }
      assert Le(0, rest) == [];
    }

    /** Moves n bytes that may lie anywhere in the buffer to the cursor. */
    method Move(from: nat, n: nat)
      requires Valid() && from + n <= output.Length && offset + n <= output.Length
      modifies `offset, output
      ensures Valid() && offset == old(offset) + n
      ensures output[..offset] == old(output[..offset]) + old(output[from..from + n])
      ensures output[offset..] == old(output[offset + n..])
    {
      ghost var before := output[..];
      forall i | 0 <= i < n {
        output[offset + i] := output[from + i];
      }
      offset := offset + n;
      assert output[..offset] == before[..offset - n] + before[from..from + n];
    }

    /** The header, behind the magic bytes. */
    method WriteHeader(h: Header)
      requires Valid() && offset == 0 && output.Length >= HEADER_SIZE
      modifies `offset, output
      ensures Valid() && offset == HEADER_SIZE
      ensures output[..offset] == HeaderBytes(h) && output[offset..] == old(output[HEADER_SIZE..])
    {
      ghost var before := output[..];
      WriteMagic();
      assert output[4..] == before[4..];
      NumberAfter(2, h.major, before);
      NumberAfter(2, h.minor, before);
      NumberAfter(2, h.mtype, before);
      NumberAfter(2, Flags(h.kind), before);
      NumberAfter(4, h.request, before);
      NumberAfter(4, h.length, before);
    }

    /** A number in a buffer whose rest is still as it was. */
    method NumberAfter(width: nat, value: nat, ghost before: seq<Byte>)
      requires Valid() && offset + width <= output.Length == |before| && output[offset..] == before[offset..]
      modifies `offset, output
      ensures Valid() && offset == old(offset) + width
      ensures output[..offset] == old(output[..offset]) + Le(width, value) && output[offset..] == before[offset..]
    {
      assert output[offset..][width..] == output[offset + width..] && before[offset..][width..] == before[offset + width..];
      Number(width, value);
    }

    method WriteMagic()
      requires Valid() && offset == 0 && output.Length >= HEADER_SIZE
      modifies `offset, output
      ensures Valid() && offset == 4 && output[..4] == MAGIC && output[4..] == old(output[4..])
    {
      forall i | 0 <= i < 4 {
        output[i] := MAGIC[i];
      }
      offset := 4;
    }
  }

  /** Frames a payload of n bytes that was staged behind the header's place in the same buffer. */
  method EncodeInPlace(h: Header, n: nat, output: array<Byte>) returns (r: Result<nat>)
    requires HEADER_SIZE + n <= output.Length
    modifies output
    ensures var f := Frame(h, old(output[HEADER_SIZE..HEADER_SIZE + n]));
            match EncodeFrame(f, output.Length)
            case Failure(e) => r == Failure(e) && output[..] == old(output[..])
            case Success(bytes) => r == Success(|bytes|) && |bytes| <= output.Length && output[..|bytes|] == bytes
  {
    var payload := output[HEADER_SIZE..HEADER_SIZE + n];
    if !FrameOk(Frame(h, payload)) { return Failure(INVALID_ARGUMENT); }
    var w := new Writer(output);
    w.WriteHeader(h);
    assert output[HEADER_SIZE..][..n] == payload;
    w.Move(HEADER_SIZE, n);
    r := Success(w.offset);
  }

  class Reader {
    const input: seq<Byte>
    var offset: nat

    ghost predicate Valid()
      reads this
    {
      offset <= |input|
    }

    constructor (input: seq<Byte>)
      ensures Valid() && this.input == input && offset == 0
    {
      this.input, offset := input, 0;
    }

    /** The next number of the given width, if the input holds it. */
    method Number(width: nat) returns (r: Option<nat>)
      requires Valid()
      modifies `offset
      ensures Valid()
      ensures if old(offset) + width <= |input| then r == Some(Num(input, old(offset), width)) && offset == old(offset) + width
              else r == None && offset == old(offset)
    {
      if offset + width > |input| { return None; }
      var value, i := 0, width;
      assert input[offset + width..offset + width] == [];
      while i > 0
        invariant 0 <= i <= width && offset == old(offset) && value == Value(input[offset + i..offset + width])
      {
        i := i - 1;
        assert input[offset + i..offset + width] == [input[offset + i]] + input[offset + i + 1..offset + width];
        value := input[offset + i] as nat + 256 * value;
      }
      offset := offset + width;
      r := Some(value);
    }
  }

  /** Reads a header field by field. */
  method ReadHeader(input: seq<Byte>) returns (r: Result<Header>)
    ensures r == DecodeHeader(input)
  {
    if |input| != HEADER_SIZE || input[..4] != MAGIC { return Failure(PROTOCOL_ERROR); }
    var reader := new Reader(input);
    reader.offset := 4;
    var major := reader.Number(2);
    var minor := reader.Number(2);
    var mtype := reader.Number(2);
    var flags := reader.Number(2);
    var request := reader.Number(4);
    var length := reader.Number(4);
    if major.value != MAJOR || minor.value != MINOR { return Failure(VERSION_MISMATCH); }
    var kind := KindOf(flags.value, mtype.value);
    if !IsKnown(mtype.value) || kind.None? { return Failure(PROTOCOL_ERROR); }
    var h := Header(MAJOR, MINOR, mtype.value, kind.value, request.value, length.value);
    r := if HeaderOk(h) then Success(h) else Failure(PROTOCOL_ERROR);
  }
}
