/** Loading firmware into the bridge and writing to its card UART: data cut into commands, in order. */
module BridgeTransfers {
  import opened Errors
  import opened Sequences
  import opened ScatterImage

  const WRITE_CHUNK := 48
  const UART_FRAME := 255

  datatype Command = SetSpeed | Scatter(bytes: seq<Byte>) | Boot | QueryVersion | RealSend | UartWrite(count: nat, bytes: seq<Byte>)

  /** The device's answer to one command: an error, or a payload. */
  datatype Answer = Answer(error: Option<Error>, payload: seq<Byte>)

  function BigEndian32(s: seq<Byte>): nat
    requires |s| == 4
  {
    ((s[0] as nat * 256 + s[1] as nat) * 256 + s[2] as nat) * 256 + s[3] as nat
  }

  /** The firmware version in an answer; none is no firmware. */
  function Version(payload: seq<Byte>): Option<nat> {
    if |payload| == 4 && BigEndian32(payload) != 0 then Some(BigEndian32(payload)) else None
  }

  // ----------------------------------------------------------- scatter writes

  /** The pieces that repeated parsing cuts off the front. */
  function Pieces(image: seq<Byte>): seq<seq<Byte>>
    decreases |image|
  {
    if image == [] || FrontSize(image).None? || FrontSize(image).value == 0 then []
    else [image[..FrontSize(image).value]] + Pieces(image[FrontSize(image).value..])
  }

  function Scatters(pieces: seq<seq<Byte>>): seq<Command> {
    if pieces == [] then [] else [Scatter(pieces[0])] + Scatters(pieces[1..])
  }

  predicate CommandSized(pieces: seq<seq<Byte>>) {
    forall i :: 0 <= i < |pieces| ==> 0 < |pieces[i]| <= MAX_BLOCK
  }

  /** A validated image is exactly its pieces, in order, each fit for one command. */
  lemma {:induction false} PiecesPartition(image: seq<Byte>)
    requires Partitions(image)
    ensures Flatten(Pieces(image)) == image && CommandSized(Pieces(image))
    decreases |image|
  {
    if image != [] {
      var n := FrontSize(image).value;
      FrontIsEncoded(image);
      PiecesPartition(image[n..]);
      assert Pieces(image)[1..] == Pieces(image[n..]);
      assert image == image[..n] + image[n..];
    }
  }

  /** The whole conversation of a successful load. */
  function LoadPlan(image: seq<Byte>): seq<Command> {
    [SetSpeed] + Scatters(Pieces(image)) + [Boot, QueryVersion]
  }

  // -------------------------------------------------------------- UART writes

  /** The commands for a nonempty frame. */
  function WritePlan(input: seq<Byte>): seq<Command>
    requires input != []
    decreases |input|
  {
    if |input| <= WRITE_CHUNK then [RealSend, UartWrite(|input|, input)]
    else [UartWrite(WRITE_CHUNK, input[..WRITE_CHUNK])] + WritePlan(input[WRITE_CHUNK..])
  }

  function Written(plan: seq<Command>): seq<Byte> {
    if plan == [] then [] else (if plan[0].UartWrite? then plan[0].bytes else []) + Written(plan[1..])
  }

  /** The chunks make up the input, and the one RealSend stands right before the last chunk. */
  lemma {:induction false} WritePlanShape(input: seq<Byte>)
    requires input != []
    ensures var plan := WritePlan(input);
            && Written(plan) == input && |plan| >= 2 && plan[|plan| - 2] == RealSend
            && forall i :: 0 <= i < |plan| && i != |plan| - 2 ==>
                 plan[i].UartWrite? && plan[i].count == |plan[i].bytes| && 0 < plan[i].count <= WRITE_CHUNK
    decreases |input|
  {
    var plan := WritePlan(input);
    if |input| <= WRITE_CHUNK {
      assert plan[1..] == [UartWrite(|input|, input)];
      assert plan[1..][1..] == [];
      assert Written(plan[1..]) == input;
    } else {
      var rest := WritePlan(input[WRITE_CHUNK..]);
      WritePlanShape(input[WRITE_CHUNK..]);
      assert plan[1..] == rest;
      assert input == input[..WRITE_CHUNK] + input[WRITE_CHUNK..];
      assert forall i :: 1 <= i < |plan| ==> plan[i] == rest[i - 1];
    }
  }

  class Bridge {
    const world: nat -> Answer
    var asked: nat
    ghost var log: seq<Command>

    /** Every command in the log had its answer, the i-th one the i-th. */
    ghost predicate Valid()
      reads this
    {
      asked == |log|
    }

    /** The answers from the i-th up to the j-th: no error, and nothing said. */
    ghost predicate Quiet(i: nat, j: nat) {
      forall n :: i <= n < j ==> world(n) == Answer(None, [])
    }

    /** Since then one answer, the last, was an error or said something, and that is the error reported. */
    ghost predicate Stopped(from: nat, e: Error)
      reads this
    {
      && from < asked && Quiet(from, asked - 1)
      && (world(asked - 1).error == Some(e) || (world(asked - 1).error.None? && e == PROTOCOL_ERROR))
    }

    constructor (world: nat -> Answer)
      ensures Valid() && log == [] && this.world == world
    {
      this.world, asked, log := world, 0, [];
    }

    method Transact(c: Command) returns (r: Result<seq<Byte>>)
      modifies this
      ensures log == old(log) + [c] && asked == old(asked) + 1
      ensures r == var a := world(old(asked)); if a.error.Some? then Failure(a.error.value) else Success(a.payload)
    {
      var a := world(asked);
      asked, log := asked + 1, log + [c];
      r := if a.error.Some? then Failure(a.error.value) else Success(a.payload);
    }

    /** A command whose answer must be empty. */
    method Order(c: Command) returns (r: Result<Unit>)
      modifies this
      ensures log == old(log) + [c] && asked == old(asked) + 1
      ensures r.Success? <==> world(old(asked)) == Answer(None, [])
      ensures r.Failure? ==> Stopped(old(asked), r.error)
    {
      var answer := Transact(c);
      if answer.Failure? { return Failure(answer.error); }
      r := if answer.value == [] then Success(Unit) else Failure(PROTOCOL_ERROR);
    }

    /** A transport that does not itself claim to reject firmware. */
    ghost predicate Impartial() {
      forall n :: world(n).error != Some(FIRMWARE_REJECTED)
    }

    /** What ended a load before its boot: an answer, or an image that does not parse. */
    ghost predicate BrokeOff(from: nat, image: seq<Byte>, e: Error)
      reads this
    {
      Stopped(from, e) || (!Partitions(image) && e == FIRMWARE_REJECTED && Quiet(from, asked))
    }

    /**
      * Sends an image block by block, then boots. A validated image never fails to parse, and booting happens only
      * after all of it was sent.
      */
    method LoadFirmware(image: seq<Byte>) returns (r: Result<nat>)
      requires Valid()
      modifies this
      ensures Valid()
      ensures r.Success? ==> Partitions(image) && log == old(log) + LoadPlan(image) && Booted(old(asked), r.value)
      ensures r.Failure? ==> BrokeOff(old(asked), image, r.error)
      ensures !Partitions(image) ==> old(log) + [SetSpeed] <= log <= old(log) + [SetSpeed] + Scatters(Pieces(image))
      ensures Partitions(image) ==> old(log) <= log <= old(log) + LoadPlan(image)
      ensures Partitions(image) && Impartial() ==> r != Failure(FIRMWARE_REJECTED)
    {
      ghost var all := old(log) + [SetSpeed] + Scatters(Pieces(image));
      assert old(log) + LoadPlan(image) == all + [Boot, QueryVersion];
      var sent := SendImage(image);
      if sent.Failure? { return Failure(sent.error); }
      r := BootAndQuery();
    }

    /** Everything was answered without error, and the last answer is the version that now runs. */
    ghost predicate Booted(from: nat, version: nat)
      reads this
    {
      from < asked && Quiet(from, asked - 1) && world(asked - 1).error.None? && Version(world(asked - 1).payload) == Some(version)
    }

    method SendImage(image: seq<Byte>) returns (r: Result<Unit>)
      requires Valid()
      modifies this
      ensures Valid() && old(log) + [SetSpeed] <= log <= old(log) + [SetSpeed] + Scatters(Pieces(image))
      ensures r.Success? ==> Partitions(image) && log == old(log) + [SetSpeed] + Scatters(Pieces(image)) && Quiet(old(asked), asked)
      ensures r.Failure? ==> BrokeOff(old(asked), image, r.error)
      ensures Partitions(image) && Impartial() ==> r != Failure(FIRMWARE_REJECTED)
    {
      r := Order(SetSpeed);
      if r.Failure? { return; }
      r := SendBlocks(image, log);
    }

    method BootAndQuery() returns (r: Result<nat>)
      requires Valid()
      modifies this
      ensures Valid() && old(log) <= log <= old(log) + [Boot, QueryVersion]
      ensures r.Success? ==> log == old(log) + [Boot, QueryVersion] && Booted(old(asked), r.value)
      ensures r.Failure? ==> Stopped(old(asked), r.error)
      ensures Impartial() ==> r != Failure(FIRMWARE_REJECTED)
    {
      var boot := Order(Boot);
      if boot.Failure? { return Failure(boot.error); }
      var version := Transact(QueryVersion);
      assert log == old(log) + [Boot, QueryVersion];
      if version.Failure? { return Failure(version.error); }
      if |version.value| != 4 || BigEndian32(version.value) == 0 { return Failure(PROTOCOL_ERROR); }
      r := Success(BigEndian32(version.value));
    }

    method SendBlocks(image: seq<Byte>, ghost start: seq<Command>) returns (r: Result<Unit>)
      requires Valid() && log == start
      modifies this
      ensures Valid() && (r.Success? ==> Quiet(old(asked), asked))
      ensures r.Failure? ==> BrokeOff(old(asked), image, r.error)
      ensures start <= log <= start + Scatters(Pieces(image))
      ensures r.Success? ==> Partitions(image) && log == start + Scatters(Pieces(image))
      ensures Partitions(image) && Impartial() ==> r != Failure(FIRMWARE_REJECTED)
    {
      ghost var goal, ok := start + Scatters(Pieces(image)), Partitions(image);
      var offset := 0;
      assert image[0..] == image;
      while offset < |image|
        invariant start <= log && ToSend(log, image, offset, goal, ok)
        invariant Valid() && old(asked) <= asked && Quiet(old(asked), asked)
      {
        var sent := SendBlock(image, offset, goal, ok);
        if sent.Failure? { return Failure(sent.error); }
        offset := offset + sent.value;
      }
      AllSent(log, image, offset, goal, ok);
      r := Success(Unit);
    }

    /** Sends the block at an offset and gives its size. */
    method SendBlock(image: seq<Byte>, offset: nat, ghost goal: seq<Command>, ghost ok: bool) returns (r: Result<nat>)
      requires Valid() && offset < |image| && ToSend(log, image, offset, goal, ok)
      modifies this
      ensures Valid() && old(log) <= log <= goal && asked >= old(asked)
      ensures r.Success? ==> 0 < r.value <= |image| - offset && ToSend(log, image, offset + r.value, goal, ok) && Quiet(old(asked), asked)
      ensures r.Failure? ==> Stopped(old(asked), r.error) || (!ok && r.error == FIRMWARE_REJECTED && asked == old(asked))
    {
      r := ParseBlock(image, offset);
      NextToSend(log, image, offset, goal, ok, r);
      if r.Failure? { return; }
      var sent := Order(Scatter(image[offset..offset + r.value]));
      if sent.Failure? { r := Failure(sent.error); }
    }

    /** Writes a frame to the card UART. */
    method WriteCardData(input: seq<Byte>) returns (r: Result<Unit>)
      requires Valid()
      modifies this
      ensures Valid() && (r.Success? ==> Quiet(old(asked), asked))
      ensures r.Failure? && input != [] && |input| <= UART_FRAME ==> Stopped(old(asked), r.error)
      ensures input == [] || |input| > UART_FRAME ==> r == Failure(INVALID_ARGUMENT) && log == old(log)
      ensures input != [] && |input| <= UART_FRAME ==> old(log) <= log <= old(log) + WritePlan(input)
      ensures r.Success? ==> input != [] && log == old(log) + WritePlan(input)
    {
      if input == [] || |input| > UART_FRAME { return Failure(INVALID_ARGUMENT); }
      ghost var start, goal := log, log + WritePlan(input);
      var offset := 0;
      assert input[0..] == input;
      while offset < |input|
        invariant offset <= |input| && start <= log <= goal
        invariant Valid() && old(asked) <= asked && Quiet(old(asked), asked)
        invariant if offset == |input| then log == goal else log + WritePlan(input[offset..]) == goal
      {
        var written, count := WriteChunk(input, offset, goal);
        if written.Failure? { return written; }
        offset := offset + count;
      }
      r := Success(Unit);
    }

    /** One chunk, the last one announced by RealSend. */
    method WriteChunk(input: seq<Byte>, offset: nat, ghost goal: seq<Command>) returns (r: Result<Unit>, count: nat)
      requires Valid() && offset < |input| && log + WritePlan(input[offset..]) == goal
      modifies this
      ensures Valid() && asked >= old(asked)
      ensures if r.Success? then Quiet(old(asked), asked) else Stopped(old(asked), r.error)
      ensures old(log) <= log <= goal && 0 < count <= |input| - offset
      ensures r.Success? ==> if offset + count == |input| then log == goal else log + WritePlan(input[offset + count..]) == goal
    {
      count := if |input| - offset < WRITE_CHUNK then |input| - offset else WRITE_CHUNK;
      Slices(input, offset, count);
      if offset + count == |input| {
        LastChunk(log, input[offset..], goal);
        r := Order(RealSend);
        if r.Failure? { return; }
      } else {
        FirstChunk(log, input[offset..], goal);
      }
      r := Order(UartWrite(count, input[offset..offset + count]));
    }
  }

  lemma Slices(s: seq<Byte>, i: nat, n: nat)
    requires i <= |s|
    ensures i + n <= |s| ==> s[i..][..n] == s[i..i + n] && s[i..][n..] == s[i + n..]
    ensures i + n == |s| ==> s[i..i + n] == s[i..]
  {
  }

  /** What was sent, and the commands for what is left, make up the goal. */
  predicate Remains(log: seq<Command>, rest: seq<Byte>, goal: seq<Command>) {
    log + Scatters(Pieces(rest)) == goal
  }

  lemma OneMore<T>(before: seq<T>, x: T, tail: seq<T>, goal: seq<T>)
    requires before + ([x] + tail) == goal
    ensures before + [x] <= goal && before + [x] + tail == goal
  {
    assert before + ([x] + tail) == before + [x] + tail;
  }

  lemma ScattersFirst(rest: seq<Byte>)
    requires FrontSize(rest).Some? && 0 < FrontSize(rest).value <= |rest|
    ensures Scatters(Pieces(rest)) == [Scatter(rest[..FrontSize(rest).value])] + Scatters(Pieces(rest[FrontSize(rest).value..]))
  {
    assert Pieces(rest)[1..] == Pieces(rest[FrontSize(rest).value..]);
  }

  lemma NextPiece(log: seq<Command>, rest: seq<Byte>, goal: seq<Command>)
    requires FrontSize(rest).Some? && Remains(log, rest, goal)
    ensures var n := FrontSize(rest).value;
            0 < n <= |rest| && Partitions(rest) == Partitions(rest[n..]) && log + [Scatter(rest[..n])] <= goal
            && Remains(log + [Scatter(rest[..n])], rest[n..], goal)
  {
    var n := FrontSize(rest).value;
    FrontIsEncoded(rest);
    ScattersFirst(rest);
    OneMore(log, Scatter(rest[..n]), Scatters(Pieces(rest[n..])), goal);
  }

  predicate Suffix(s: seq<Byte>, i: nat, rest: seq<Byte>) {
    i <= |s| && rest == s[i..]
  }

  /** What was sent, and the commands for the image from `offset` on, make up the goal; `ok` says whether that part is valid. */
  ghost predicate ToSend(log: seq<Command>, image: seq<Byte>, offset: nat, goal: seq<Command>, ok: bool) {
    offset <= |image| && forall rest :: Suffix(image, offset, rest) ==> Remains(log, rest, goal) && Partitions(rest) == ok
  }

  lemma AllSent(log: seq<Command>, image: seq<Byte>, offset: nat, goal: seq<Command>, ok: bool)
    requires ToSend(log, image, offset, goal, ok) && offset == |image|
    ensures ok && log == goal
  {
    assert Suffix(image, offset, image[offset..]);
  }

  lemma NextToSend(log: seq<Command>, image: seq<Byte>, offset: nat, goal: seq<Command>, ok: bool, size: Result<nat>)
    requires ToSend(log, image, offset, goal, ok) && offset < |image|
    requires size == match FrontSize(image[offset..]) case None => Failure(FIRMWARE_REJECTED) case Some(n) => Success(n)
    ensures log <= goal && (size.Failure? ==> !ok)
    ensures size.Success? ==>
              && 0 < size.value <= |image| - offset && log + [Scatter(image[offset..offset + size.value])] <= goal
              && ToSend(log + [Scatter(image[offset..offset + size.value])], image, offset + size.value, goal, ok)
  {
    var rest := image[offset..];
    assert Suffix(image, offset, rest);
    if size.Success? {
      NextPiece(log, rest, goal);
      Slices(image, offset, size.value);
    }
  }

  lemma LastChunk(before: seq<Command>, rest: seq<Byte>, goal: seq<Command>)
    requires 0 < |rest| <= WRITE_CHUNK && before + WritePlan(rest) == goal
    ensures before + [RealSend] <= goal && before + [RealSend] + [UartWrite(|rest|, rest)] == goal
  {
    OneMore(before, RealSend, [UartWrite(|rest|, rest)], goal);
  }

  lemma FirstChunk(before: seq<Command>, rest: seq<Byte>, goal: seq<Command>)
    requires |rest| > WRITE_CHUNK && before + WritePlan(rest) == goal
    ensures var chunk := UartWrite(WRITE_CHUNK, rest[..WRITE_CHUNK]);
            before + [chunk] <= goal && before + [chunk] + WritePlan(rest[WRITE_CHUNK..]) == goal
  {
    OneMore(before, UartWrite(WRITE_CHUNK, rest[..WRITE_CHUNK]), WritePlan(rest[WRITE_CHUNK..]), goal);
  }
}
