/** The bridge firmware's scatter image: its blocks and its validation. */
module ScatterImage {
  import opened Errors

  type Byte = b: int | 0 <= b < 256

  const HEADER := 4
  const SEGMENT := 3
  const MAX_BLOCK := 250

  // -------------------------------------------- the format, seen by a writer

  datatype Segment = Segment(high: Byte, low: Byte, length: Byte)

  /** A block: two header bytes of no interest here, the segments, and their data one after the other. */
  datatype Block = Block(second: Byte, third: Byte, segments: seq<Segment>, data: seq<Byte>)

  function Total(segments: seq<Segment>): nat {
    if segments == [] then 0 else segments[0].length + Total(segments[1..])
  }

  function Table(segments: seq<Segment>): (t: seq<Byte>)
    ensures |t| == SEGMENT * |segments|
  {
    if segments == [] then []
    else [segments[0].high, segments[0].low, segments[0].length] + Table(segments[1..])
  }

  predicate WellFormed(b: Block) {
    && |b.segments| < 256 && |b.data| == Total(b.segments) && b.data != []
    && HEADER + SEGMENT * |b.segments| + |b.data| <= MAX_BLOCK
  }

  function Encode(b: Block): seq<Byte>
    requires |b.segments| < 256
  {
    [3, b.second, b.third, |b.segments|] + Table(b.segments) + b.data
  }

  predicate AllWellFormed(blocks: seq<Block>) {
    forall i :: 0 <= i < |blocks| ==> WellFormed(blocks[i])
  }

  function EncodeAll(blocks: seq<Block>): seq<Byte>
    requires AllWellFormed(blocks)
  {
    if blocks == [] then [] else Encode(blocks[0]) + EncodeAll(blocks[1..])
  }

  // ------------------------------------------------- the format, being parsed

  /** The data length that a segment table announces. */
  function TableTotal(table: seq<Byte>): nat {
    if |table| < SEGMENT then 0 else table[2] + TableTotal(table[SEGMENT..])
  }

  /** The size of the block in front of `image`, if there is one. */
  function FrontSize(image: seq<Byte>): Option<nat> {
    if |image| < HEADER || image[0] != 3 then None
    else
      var metadata := HEADER + SEGMENT * image[3];
      if |image| < metadata then None
      else
        var data := TableTotal(image[HEADER..metadata]);
        if data == 0 || metadata + data > MAX_BLOCK || metadata + data > |image| then None else Some(metadata + data)
  }

  /** Repeated parsing uses up the image. */
  predicate Partitions(image: seq<Byte>)
    decreases |image|
  {
    image == [] || (FrontSize(image).Some? && FrontSize(image).value > 0 && Partitions(image[FrontSize(image).value..]))
  }

  lemma {:induction false} TotalOfTable(segments: seq<Segment>)
    ensures TableTotal(Table(segments)) == Total(segments)
  {
    if segments != [] {
      TotalOfTable(segments[1..]);
      assert Table(segments)[SEGMENT..] == Table(segments[1..]);
    }
  }

  /** Parsing finds the block that was written, whatever follows it. */
  lemma FrontOfEncoded(b: Block, rest: seq<Byte>)
    requires WellFormed(b)
    ensures FrontSize(Encode(b) + rest) == Some(|Encode(b)|)
  {
    var image := Encode(b) + rest;
    assert image[HEADER..HEADER + SEGMENT * |b.segments|] == Table(b.segments);
    TotalOfTable(b.segments);
  }

  function Segments(table: seq<Byte>): seq<Segment> {
    if |table| < SEGMENT then [] else [Segment(table[0], table[1], table[2])] + Segments(table[SEGMENT..])
  }

  lemma {:induction false} TableOfSegments(table: seq<Byte>, n: nat)
    requires |table| == SEGMENT * n
    ensures |Segments(table)| == n && Table(Segments(table)) == table && Total(Segments(table)) == TableTotal(table)
    decreases n
  {
    if n > 0 {
      TableOfSegments(table[SEGMENT..], n - 1);
      assert Segments(table)[1..] == Segments(table[SEGMENT..]);
      assert table == [table[0], table[1], table[2]] + table[SEGMENT..];
    }
  }

  /** The block in front of an image that parses. */
  function FrontBlock(image: seq<Byte>): Block
    requires FrontSize(image).Some?
  {
    var metadata := HEADER + SEGMENT * image[3];
    Block(image[1], image[2], Segments(image[HEADER..metadata]), image[metadata..FrontSize(image).value])
  }

  lemma FrontIsEncoded(image: seq<Byte>)
    requires FrontSize(image).Some?
    ensures WellFormed(FrontBlock(image)) && Encode(FrontBlock(image)) == image[..FrontSize(image).value]
    ensures 0 < FrontSize(image).value <= MAX_BLOCK
  {
    TableOfSegments(image[HEADER..HEADER + SEGMENT * image[3]], image[3]);
  }

  /** An image partitions exactly when it is what some sequence of well-formed blocks encodes to. */
  lemma {:induction false} EncodedPartitions(blocks: seq<Block>)
    requires AllWellFormed(blocks)
    ensures Partitions(EncodeAll(blocks))
  {
    if blocks != [] {
      var rest := EncodeAll(blocks[1..]);
      EncodedPartitions(blocks[1..]);
      FrontOfEncoded(blocks[0], rest);
      assert (Encode(blocks[0]) + rest)[|Encode(blocks[0])|..] == rest;
    }
  }

  lemma {:induction false} PartitionedIsEncoded(image: seq<Byte>) returns (blocks: seq<Block>)
    requires Partitions(image)
    ensures AllWellFormed(blocks) && EncodeAll(blocks) == image
    decreases |image|
  {
    if image == [] {
      blocks := [];
    } else {
      var n := FrontSize(image).value;
      var rest := PartitionedIsEncoded(image[n..]);
      FrontIsEncoded(image);
      blocks := [FrontBlock(image)] + rest;
      assert blocks[1..] == rest;
      assert image == image[..n] + image[n..];
    }
  }

  // --------------------------------------------------- the program's own steps

  /** The block at an offset. */
  method ParseBlock(image: seq<Byte>, offset: nat) returns (r: Result<nat>)
    ensures offset <= |image| && FrontSize(image[offset..]).Some? ==> r == Success(FrontSize(image[offset..]).value)
    ensures offset > |image| || FrontSize(image[offset..]).None? ==> r == Failure(FIRMWARE_REJECTED)
  {
    if offset > |image| || |image| - offset < HEADER { return Failure(FIRMWARE_REJECTED); }
    ghost var rest := image[offset..];
    if image[offset] != 3 { return Failure(FIRMWARE_REJECTED); }
    var segments := image[offset + 3];
    var metadata := HEADER + SEGMENT * segments;
    if metadata > |image| - offset { return Failure(FIRMWARE_REJECTED); }
    ghost var table := rest[HEADER..metadata];
    var data := 0;
    for i := 0 to segments
      invariant data + TableTotal(table[SEGMENT * i..]) == TableTotal(table)
      invariant data >= 0
    {
      assert table[SEGMENT * i..][SEGMENT..] == table[SEGMENT * (i + 1)..];
      assert table[SEGMENT * i..][2] == image[offset + HEADER + SEGMENT * i + 2];
      data := data + image[offset + HEADER + SEGMENT * i + 2];
    }
    if data == 0 { return Failure(FIRMWARE_REJECTED); }
    if metadata + data > MAX_BLOCK || metadata + data > |image| - offset { return Failure(FIRMWARE_REJECTED); }
    r := Success(metadata + data);
  }

  /** Accepts an image exactly when it is nonempty and falls into blocks. */
  method Validate(image: seq<Byte>) returns (r: Result<Unit>)
    ensures r.Success? <==> image != [] && Partitions(image)
    ensures r.Failure? ==> r.error == FIRMWARE_REJECTED
  {
    if image == [] { return Failure(FIRMWARE_REJECTED); }
    var offset := 0;
    assert image[0..] == image;
    while offset < |image|
      invariant offset <= |image| && Partitions(image[offset..]) == Partitions(image)
    {
      var block := ParseBlock(image, offset);
      if block.Failure? { return Failure(block.error); }
      FrontIsEncoded(image[offset..]);
      assert image[offset..][block.value..] == image[offset + block.value..];
      offset := offset + block.value;
    }
    r := Success(Unit);
  }
}
