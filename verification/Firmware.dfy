/** Reading the firmware file: bounded, hashed on the way, and accepted only if it is the expected image. */
module Firmware {
  import opened Errors
  import opened Sequences
  import Sha256
  import ScatterImage

  const SIZE := 2169
  const CHUNK := 512

  const DIGEST: seq<bv8> := [
    0x52, 0x13, 0xa5, 0xa3, 0x88, 0x72, 0x66, 0x12, 0x77, 0xa2, 0xcc, 0x1b, 0x2d, 0xfd, 0xfe, 0x88,
    0xfa, 0xf0, 0x6f, 0x41, 0x20, 0x5f, 0x46, 0x0f, 0x3b, 0x51, 0x85, 0x7f, 0x05, 0x68, 0xb4, 0x84]

  /** The bytes as numbers. */
  function Octets(data: seq<bv8>): seq<ScatterImage.Byte> {
    seq(|data|, i requires 0 <= i < |data| => data[i] as int)
  }

  /** The file is the image the policy names, and it falls into blocks. */
  predicate Acceptable(file: seq<bv8>, digest: seq<bv8>) {
    |file| == SIZE && digest == DIGEST && ScatterImage.Partitions(Octets(file))
  }

  lemma {:induction false} PartsLonger(parts: seq<seq<bv8>>, i: nat)
    requires i <= |parts|
    ensures |Flatten(parts[..i])| <= |Flatten(parts)|
    decreases |parts| - i
  {
    if i == |parts| {
      assert parts[..i] == parts;
    } else {
      FlattenNext(parts, i);
      PartsLonger(parts, i + 1);
    }
  }

  /** An open file: what its reads deliver, and whether they end in an error and not at the end. */
  datatype File = File(parts: seq<seq<bv8>>, broken: bool)

  /** What a file is taken for. */
  ghost function Verdict(file: seq<bv8>, broken: bool): Result<seq<bv8>> {
    if |file| > SIZE then Failure(FIRMWARE_REJECTED)
    else if broken then Failure(INTERNAL)
    else if Acceptable(file, Sha256.Digest(file)) then Success(file)
    else Failure(FIRMWARE_REJECTED)
  }

  predicate Chunked(parts: seq<seq<bv8>>) {
    forall i :: 0 <= i < |parts| ==> 0 < |parts[i]| <= CHUNK
  }

  /** Loads the image at a path; `disk` says what opening a path gives. */
  method Load(path: string, disk: string -> Option<File>) returns (r: Result<seq<bv8>>)
    requires disk(path).Some? ==> Chunked(disk(path).value.parts)
    ensures r == if path == [] || '\0' in path then Failure(INVALID_ARGUMENT)
                 else if disk(path).None? then Failure(NOT_FOUND)
                 else Verdict(Flatten(disk(path).value.parts), disk(path).value.broken)
  {
    if path == [] || '\0' in path { return Failure(INVALID_ARGUMENT); }
    var file := disk(path);
    if file.None? { return Failure(NOT_FOUND); }
    r := Read(file.value.parts, file.value.broken);
  }

  /** Reads the file chunk by chunk, hashing on the way, and stops as soon as it is too long. */
  method Read(parts: seq<seq<bv8>>, broken: bool) returns (r: Result<seq<bv8>>)
    requires Chunked(parts)
    ensures r == Verdict(Flatten(parts), broken)
  {
    var data: seq<bv8> := [];
    var hasher := new Sha256.Hasher();
    for i := 0 to |parts|
      invariant fresh(hasher) && fresh(hasher.block) && hasher.Valid() && hasher.Counted()
      invariant data == Flatten(parts[..i]) == hasher.message && |data| <= SIZE
    {
      var count := |parts[i]|;
      FlattenNext(parts, i);
      PartsLonger(parts, i + 1);
      if |data| > SIZE - (if count > SIZE then SIZE else count) { return Failure(FIRMWARE_REJECTED); }
      hasher.Update(parts[i]);
      data := data + parts[i];
    }
    assert parts[..|parts|] == parts;
    if broken { return Failure(INTERNAL); }
    var digest := hasher.Finish();
    if |data| != SIZE || digest != DIGEST { return Failure(FIRMWARE_REJECTED); }
    var valid := ScatterImage.Validate(Octets(data));
    r := if valid.Success? then Success(data) else Failure(FIRMWARE_REJECTED);
  }
}
