/** The binary frames of the local IPC protocol: headers, payload validation, encoding and decoding. */
module FrameCodec {
  import opened Errors
  import Utf8

  type Byte = Utf8.Byte

  const HEADER_SIZE := 20
  const MAJOR := 1
  const MINOR := 0
  const MAX_CONTROL_PAYLOAD := 65536
  const MAX_TS_BYTES := 1048576
  const MAX_TS_PAYLOAD := 1048596
  const MAX_CARD_PAYLOAD := 4096
  const MAX_ATR := 33
  const RECEIVERS := 8

  const MAGIC: seq<Byte> := [0x50, 0x58, 0x34, 0x55]

  // ----------------------------------------------------- message vocabulary

  const HELLO := 0x0001
  const LIST := 0x0010
  const STATUS := 0x0011
  const ACQUIRE := 0x0020
  const RELEASE := 0x0021
  const TUNE := 0x0022
  const START_STREAM := 0x0023
  const STOP_STREAM := 0x0024
  const STATS := 0x0025
  const CARD_STATUS := 0x0030
  const CARD_CONNECT := 0x0031
  const CARD_RECONNECT := 0x0032
  const CARD_DISCONNECT := 0x0033
  const CARD_RESET := 0x0034
  const CARD_TRANSMIT := 0x0035
  const BEGIN_TRANSACTION := 0x0036
  const END_TRANSACTION := 0x0037
  const CARD_HANDLE_STATUS := 0x0038
  const ATTACH_STREAM := 0x0040
  const TS_DATA := 0x8040
  const DEVICE_EVENT := 0x80f0
  const STREAM_END := 0x80ff

  datatype Kind = Request | Response | ErrorResponse | Event

  predicate IsEvent(t: int) {
    t == TS_DATA || t == DEVICE_EVENT || t == STREAM_END
  }

  predicate IsControlRequest(t: int) {
    || LIST <= t <= STATUS || ACQUIRE <= t <= STATS || CARD_STATUS <= t <= CARD_HANDLE_STATUS
  }

  predicate IsKnown(t: int) {
    t == HELLO || IsControlRequest(t) || t == ATTACH_STREAM || IsEvent(t)
  }

  predicate IsKnownError(code: int) {
    0 <= code <= 15 || code == 255
  }

  function PayloadLimit(t: int): nat {
    if t == TS_DATA then MAX_TS_PAYLOAD else MAX_CONTROL_PAYLOAD
  }

  datatype Header = Header(major: nat, minor: nat, mtype: nat, kind: Kind, request: nat, length: nat)

  datatype Frame = Frame(header: Header, payload: seq<Byte>)

  // ------------------------------------------------- little-endian numbers

  function Le(n: nat, v: nat): (s: seq<Byte>)
    ensures |s| == n
  {
    if n == 0 then [] else [v % 256] + Le(n - 1, v / 256)
  }

  function Value(s: seq<Byte>): nat {
    if s == [] then 0 else s[0] + 256 * Value(s[1..])
  }

  function Pow256(n: nat): nat {
    if n == 0 then 1 else 256 * Pow256(n - 1)
  }

  lemma {:induction false} ValueOfLe(n: nat, v: nat)
    requires v < Pow256(n)
    ensures Value(Le(n, v)) == v
  {
    if n > 0 {
      ValueOfLe(n - 1, v / 256);
      assert Le(n, v)[1..] == Le(n - 1, v / 256);
    }
  }

  lemma {:induction false} LeOfValue(s: seq<Byte>)
    ensures Value(s) < Pow256(|s|) && Le(|s|, Value(s)) == s
  {
    if s != [] {
      LeOfValue(s[1..]);
      assert Value(s) / 256 == Value(s[1..]) && Value(s) % 256 == s[0];
    }
  }

  /** The number of width w at offset o. */
  function Num(p: seq<Byte>, o: nat, w: nat): nat
    requires o + w <= |p|
  {
    Value(p[o..o + w])
  }

  // ----------------------------------------------------- payload validation

  predicate HelloRequestOk(p: seq<Byte>) {
    |p| == 12 && (Num(p, 0, 2) < Num(p, 4, 2) || (Num(p, 0, 2) == Num(p, 4, 2) && Num(p, 2, 2) <= Num(p, 6, 2)))
  }

  predicate HelloResponseOk(p: seq<Byte>) {
    |p| == 8 && Num(p, 0, 2) == MAJOR && Num(p, 2, 2) == MINOR
  }

  predicate ReceiverCountOk(n: int) {
    n == 1 || n == 3 || n == 4 || n == 5 || n == 8
  }

  /** The record table that belongs to a receiver count; one-bridge enclosures may declare dual-system receivers. */
  predicate ReceiverRecordOk(p: seq<Byte>, o: nat, count: int, i: nat)
    requires o + 4 <= |p|
  {
    var flexible := p[o] == i && p[o + 1] == 1 && p[o + 2] == i && p[o + 3] == 3;
    if count == 3 || count == 5 then flexible
    else if count == 1 then flexible || (p[o] == i && p[o + 1] == 1 && p[o + 2] == i && p[o + 3] == 1)
    else
      || (count != 8 && flexible)
      || (p[o] == i && p[o + 1] == i / 4 + 1 && p[o + 2] == i % 4 && p[o + 3] == if i % 4 < 2 then 2 else 1)
  }

  predicate ListResponseOk(p: seq<Byte>) {
    && 14 <= |p| <= MAX_CONTROL_PAYLOAD
    && var n := Num(p, 8, 2);
       && 14 + n <= |p| && Utf8.Valid(p[10..10 + n])
       && var o := 10 + n;
          var count := p[o + 2] as int;
          && p[o] <= 1 && ReceiverCountOk(count) && p[o + 1] <= (if count == 8 then 3 else 1) && p[o + 3] == 1
          && |p| == o + 4 + 4 * count
          && forall i: nat :: i < count ==> ReceiverRecordOk(p, o + 4 + 4 * i, count, i)
  }

  predicate StatusResponseOk(p: seq<Byte>) {
    && |p| == 36 && p[8] <= 1 && p[9] <= 3 && p[10] <= 1 && p[11] <= 1
    && forall i :: 12 <= i < 20 ==> p[i] <= 5
  }

  predicate TuneRequestOk(p: seq<Byte>) {
    |p| == 30 && (p[8] == 1 || p[8] == 2) && (p[25] == 0 || p[25] == 15)
  }

  predicate CardStatusResponseOk(p: seq<Byte>) {
    && |p| >= 11 && p[10] as int <= MAX_ATR && |p| == 11 + p[10] as int && p[0] <= 1 && p[1] <= 1
    && (if p[1] == 0 then p[10] == 0 else p[0] == 1 && p[10] != 0)
  }

  /** A counted byte string behind `o` bytes, its count of width w, at most `limit` long, ending the payload. */
  predicate BlobOk(p: seq<Byte>, o: nat, w: nat, limit: nat) {
    |p| >= o + w && Num(p, o, w) <= limit && |p| == o + w + Num(p, o, w)
  }

  predicate DeviceEventOk(p: seq<Byte>) {
    && |p| == 11 && 1 <= p[8] <= 5
    && (if p[9] == 1 then p[10] == 1 || p[10] == 2
        else if p[9] == 2 then p[10] as int < RECEIVERS
        else p[9] == 3 && p[10] == 0)
  }

  predicate StreamEndOk(p: seq<Byte>) {
    |p| == 68 && IsKnownError(Num(p, 64, 4))
  }

  predicate TsDataOk(p: seq<Byte>) {
    BlobOk(p, 16, 4, MAX_TS_BYTES) && Num(p, 16, 4) % 188 == 0
  }

  predicate ErrorResponseOk(p: seq<Byte>) {
    && |p| <= MAX_CONTROL_PAYLOAD && BlobOk(p, 4, 2, MAX_CONTROL_PAYLOAD) && Utf8.Valid(p[6..])
    && IsKnownError(Num(p, 0, 4)) && Num(p, 0, 4) != 0
  }

  predicate RequestOk(t: int, p: seq<Byte>) {
    if t == HELLO then HelloRequestOk(p)
    else if t == LIST || t == STATUS || t == CARD_STATUS then p == []
    else if t == ACQUIRE then |p| == 1 && p[0] as int < RECEIVERS
    else if t == RELEASE || t == START_STREAM || t == STOP_STREAM || t == STATS then |p| == 8
    else if t == BEGIN_TRANSACTION || t == CARD_RESET || t == CARD_HANDLE_STATUS then |p| == 8
    else if t == TUNE then TuneRequestOk(p)
    else if t == CARD_CONNECT then |p| == 1 && 1 <= p[0] <= 2
    else if t == CARD_RECONNECT then |p| == 10 && 1 <= p[8] <= 2 && p[9] <= 1
    else if t == CARD_DISCONNECT || t == END_TRANSACTION then |p| == 9 && p[8] <= 1
    else if t == CARD_TRANSMIT then BlobOk(p, 8, 4, MAX_CARD_PAYLOAD)
    else t == ATTACH_STREAM && |p| == 24
  }

  predicate ResponseOk(t: int, p: seq<Byte>) {
    if t == HELLO then HelloResponseOk(p)
    else if t == LIST then ListResponseOk(p)
    else if t == STATUS then StatusResponseOk(p)
    else if t == ACQUIRE then |p| == 24
    else if t == RELEASE || t == START_STREAM || t == BEGIN_TRANSACTION || t == ATTACH_STREAM then p == []
    else if t == CARD_DISCONNECT || t == END_TRANSACTION then p == []
    else if t == TUNE then |p| == 5 && p[0] <= 1
    else if t == STOP_STREAM || t == STATS then |p| == 64
    else if t == CARD_STATUS || t == CARD_HANDLE_STATUS then CardStatusResponseOk(p)
    else if t == CARD_CONNECT then BlobOk(p, 8, 1, MAX_ATR)
    else if t == CARD_RECONNECT || t == CARD_RESET then BlobOk(p, 0, 1, MAX_ATR)
    else t == CARD_TRANSMIT && BlobOk(p, 0, 4, MAX_CARD_PAYLOAD)
  }

  predicate EventOk(t: int, p: seq<Byte>) {
    if t == TS_DATA then TsDataOk(p) else if t == DEVICE_EVENT then DeviceEventOk(p) else StreamEndOk(p)
  }

  predicate PayloadOk(t: int, kind: Kind, p: seq<Byte>) {
    && IsKnown(t) && |p| <= PayloadLimit(t)
    && match kind
       case ErrorResponse => !IsEvent(t) && ErrorResponseOk(p)
       case Event => IsEvent(t) && EventOk(t, p)
       case Request => !IsEvent(t) && RequestOk(t, p)
       case Response => !IsEvent(t) && ResponseOk(t, p)
  }

  predicate HeaderOk(h: Header) {
    && IsKnown(h.mtype) && h.major == MAJOR && h.minor == MINOR && h.length <= PayloadLimit(h.mtype)
    && (if IsEvent(h.mtype) then h.kind == Event && h.request == 0 else h.kind != Event)
  }

  predicate FrameOk(f: Frame) {
    f.header.length == |f.payload| && HeaderOk(f.header) && PayloadOk(f.header.mtype, f.header.kind, f.payload)
  }

  /** Request ids are 32 bits wide. */
  predicate Representable(h: Header) {
    h.request < 0x1_0000_0000
  }

  // ------------------------------------------------------ frames on the wire

  function Flags(kind: Kind): nat {
    match kind case Response => 1 case ErrorResponse => 3 case _ => 0
  }

  function HeaderBytes(h: Header): (s: seq<Byte>)
    ensures |s| == HEADER_SIZE
  {
    MAGIC + Le(2, h.major) + Le(2, h.minor) + Le(2, h.mtype) + Le(2, Flags(h.kind)) + Le(4, h.request) + Le(4, h.length)
  }

  /** The header on the wire, byte by byte: each number with its low byte first, and the kind in two flags. */
  lemma HeaderLayout(h: Header)
    requires Representable(h) && h.major < 65536 && h.minor < 65536 && 0 <= h.mtype < 65536 && h.length < 0x1_0000_0000
    ensures var b := HeaderBytes(h);
            && b[..4] == [0x50, 0x58, 0x34, 0x55]
            && h.major == Two(b, 4) && h.minor == Two(b, 6) && h.mtype == Two(b, 8)
            && b[10] == (match h.kind case Request => 0 case Event => 0 case Response => 1 case ErrorResponse => 3) && b[11] == 0
            && h.request == Two(b, 12) + 65536 * Two(b, 14) && h.length == Two(b, 16) + 65536 * Two(b, 18)
  {
    LeTwo(h.major);
    LeTwo(h.minor);
    LeTwo(h.mtype);
    LeTwo(Flags(h.kind));
    LeFour(h.request);
    LeFour(h.length);
  }

  function Two(b: seq<Byte>, o: nat): nat
    requires o + 2 <= |b|
  {
    b[o] as int + 256 * b[o + 1] as int
  }

  lemma LeTwo(v: nat)
    ensures Le(2, v) == [v % 256, v / 256 % 256] && (v < 65536 ==> v == v % 256 + 256 * (v / 256 % 256))
  {
    assert Le(1, v / 256) == [v / 256 % 256] + Le(0, v / 256 / 256);
  }

  lemma LeFour(v: nat)
    ensures Le(4, v) == Le(2, v % 65536) + Le(2, v / 65536) && (v < 0x1_0000_0000 ==> v / 65536 < 65536)
  {
    var a, b, c := v / 256, v / 256 / 256, v / 256 / 256 / 256;
    assert b == v / 65536;
    assert Le(3, a) == [a % 256] + Le(2, b);
    LeTwo(v % 65536);
    assert v % 65536 % 256 == v % 256 && v % 65536 / 256 == a % 256;
  }

  function EncodeFrame(f: Frame, capacity: nat): Result<seq<Byte>> {
    if !FrameOk(f) then Failure(INVALID_ARGUMENT)
    else if capacity < HEADER_SIZE + |f.payload| then Failure(BUFFER_TOO_SMALL)
    else Success(HeaderBytes(f.header) + f.payload)
  }

  function KindOf(flags: nat, t: int): Option<Kind> {
    if flags == 3 then Some(ErrorResponse)
    else if flags == 1 then Some(Response)
    else if flags == 0 then Some(if IsEvent(t) then Event else Request)
    else None
  }

  function DecodeHeader(s: seq<Byte>): Result<Header> {
    if |s| != HEADER_SIZE || s[..4] != MAGIC then Failure(PROTOCOL_ERROR)
    else if Num(s, 4, 2) != MAJOR || Num(s, 6, 2) != MINOR then Failure(VERSION_MISMATCH)
    else
      var t := Num(s, 8, 2);
      var kind := KindOf(Num(s, 10, 2), t);
      if !IsKnown(t) || kind.None? then Failure(PROTOCOL_ERROR)
      else
        var h := Header(MAJOR, MINOR, t, kind.value, Num(s, 12, 4), Num(s, 16, 4));
        if HeaderOk(h) then Success(h) else Failure(PROTOCOL_ERROR)
  }

  function DecodeFrame(s: seq<Byte>): Result<Frame> {
    if |s| < HEADER_SIZE then Failure(PROTOCOL_ERROR)
    else
      match DecodeHeader(s[..HEADER_SIZE])
      case Failure(e) => Failure(e)
      case Success(h) =>
        var p := s[HEADER_SIZE..];
        if |p| != h.length || !PayloadOk(h.mtype, h.kind, p) then Failure(PROTOCOL_ERROR) else Success(Frame(h, p))
  }

  // ------------------------------------------------------------- properties

  lemma Widths(h: Header)
    requires HeaderOk(h) && Representable(h)
    ensures Pow256(2) == 65536 && Pow256(4) == 0x1_0000_0000
    ensures h.mtype < 65536 && h.length < 0x1_0000_0000 && Flags(h.kind) < 65536
  {
    assert Pow256(1) == 256 && Pow256(2) == 65536 && Pow256(3) == 16777216;
  }

  lemma HeaderFields(h: Header)
    ensures var s := HeaderBytes(h);
            && s[..4] == MAGIC && s[4..6] == Le(2, h.major) && s[6..8] == Le(2, h.minor) && s[8..10] == Le(2, h.mtype)
            && s[10..12] == Le(2, Flags(h.kind)) && s[12..16] == Le(4, h.request) && s[16..20] == Le(4, h.length)
  {
  }

  /** Decoding a header undoes encoding it. */
  lemma DecodeHeaderBytes(h: Header)
    requires HeaderOk(h) && Representable(h)
    ensures DecodeHeader(HeaderBytes(h)) == Success(h)
  {
    Widths(h);
    HeaderFields(h);
    ValueOfLe(2, h.major);
    ValueOfLe(2, h.minor);
    ValueOfLe(2, h.mtype);
    ValueOfLe(2, Flags(h.kind));
    ValueOfLe(4, h.request);
    ValueOfLe(4, h.length);
  }

  /** Decoding a frame undoes encoding it. */
  lemma DecodeAfterEncode(f: Frame, capacity: nat)
    requires EncodeFrame(f, capacity).Success? && Representable(f.header)
    ensures DecodeFrame(EncodeFrame(f, capacity).value) == Success(f)
  {
    var s := HeaderBytes(f.header) + f.payload;
    DecodeHeaderBytes(f.header);
    assert s[..HEADER_SIZE] == HeaderBytes(f.header);
    assert s[HEADER_SIZE..] == f.payload;
  }

  lemma NumBack(s: seq<Byte>, o: nat, w: nat)
    requires o + w <= |s|
    ensures Le(w, Num(s, o, w)) == s[o..o + w] && Num(s, o, w) < Pow256(w)
  {
    LeOfValue(s[o..o + w]);
  }

  lemma Pieces(s: seq<Byte>)
    requires |s| == HEADER_SIZE
    ensures s == s[..4] + s[4..6] + s[6..8] + s[8..10] + s[10..12] + s[12..16] + s[16..20]
  {
  }

  lemma NumsBack(s: seq<Byte>)
    requires |s| == HEADER_SIZE
    ensures Le(2, Num(s, 4, 2)) == s[4..6] && Le(2, Num(s, 6, 2)) == s[6..8] && Le(2, Num(s, 8, 2)) == s[8..10]
    ensures Le(2, Num(s, 10, 2)) == s[10..12] && Le(4, Num(s, 12, 4)) == s[12..16] && Le(4, Num(s, 16, 4)) == s[16..20]
    ensures Num(s, 12, 4) < 0x1_0000_0000
  {
    NumBack(s, 4, 2);
    NumBack(s, 6, 2);
    NumBack(s, 8, 2);
    NumBack(s, 10, 2);
    NumBack(s, 12, 4);
    NumBack(s, 16, 4);
    assert Pow256(2) == 65536 && Pow256(3) == 16777216 && Pow256(4) == 0x1_0000_0000;
  }

  lemma HeaderBytesOfDecoded(s: seq<Byte>)
    requires DecodeHeader(s).Success?
    ensures HeaderBytes(DecodeHeader(s).value) == s && Representable(DecodeHeader(s).value)
  {
    NumsBack(s);
    Pieces(s);
  }

  /** Encoding a decoded frame gives back exactly the bytes that were accepted. */
  lemma EncodeAfterDecode(s: seq<Byte>, capacity: nat)
    requires DecodeFrame(s).Success? && capacity >= |s|
    ensures EncodeFrame(DecodeFrame(s).value, capacity) == Success(s)
  {
    HeaderBytesOfDecoded(s[..HEADER_SIZE]);
    assert s == s[..HEADER_SIZE] + s[HEADER_SIZE..];
  }
}
