/** Answer-to-reset parsing (section 8.2 of ISO/IEC 7816-3). */
module CardAtr {
  import opened Errors
  import opened Sequences
  import opened T1Codec

  const ATR_MAX := 33
  const DEFAULT_TIMEOUT := 500
  const OPERATION_TIMEOUT := 3000

  datatype Baud = Baud9600 | Baud19200 | Baud38400

  datatype Params = Params(baud: Baud, ifsc: nat, useCrc: bool, blockTimeout: nat)

  datatype Atr = Atr(bytes: seq<Byte>, params: Params)

  const DEFAULTS := Params(Baud9600, 32, false, DEFAULT_TIMEOUT)

  /** Where the interface-byte walk stands before a group of interface bytes. */
  datatype Walk = Walk(offset: nat, group: nat, interfaces: Byte, t1: bool, nonT0: bool, params: Params)

  /** The optional bytes TA, TB and TC of one group and the offset behind them. */
  datatype Group = Group(ta: Option<Byte>, tb: Option<Byte>, tc: Option<Byte>, offset: nat)

  function Take(bytes: seq<Byte>, offset: nat, present: bool): Result<(Option<Byte>, nat)> {
    if !present then Success((None, offset))
    else if offset >= |bytes| then Failure(NOT_READY)
    else Success((Some(bytes[offset]), offset + 1))
  }

  function TakeGroup(bytes: seq<Byte>, offset: nat, interfaces: Byte): Result<Group> {
    match Take(bytes, offset, interfaces & 1 != 0)
    case Failure(e) => Failure(e)
    case Success((ta, o1)) =>
      match Take(bytes, o1, interfaces & 2 != 0)
      case Failure(e) => Failure(e)
      case Success((tb, o2)) =>
        match Take(bytes, o2, interfaces & 4 != 0)
        case Failure(e) => Failure(e)
        case Success((tc, o3)) => Success(Group(ta, tb, tc, o3))
  }

  function BaudOf(ta: Byte): Result<Baud> {
    if ta == 0x11 then Success(Baud9600)
    else if ta == 0x12 then Success(Baud19200)
    else if ta == 0x13 then Success(Baud38400)
    else Failure(UNSUPPORTED)
  }

  function Waiting(bwi: nat): nat {
    if bwi == 0 then 100 else if bwi == 1 then 200 else if bwi == 2 then 400
    else if bwi == 3 then 800 else if bwi == 4 then 1600 else OPERATION_TIMEOUT
  }

  function Clamp(low: nat, high: nat, x: nat): nat {
    if x < low then low else if x > high then high else x
  }

  /** The effect of one group on the parameters. */
  function Apply(w: Walk, g: Group): Result<Params> {
    var baud := if w.group == 1 && g.ta.Some? then BaudOf(g.ta.value) else Success(w.params.baud);
    if baud.Failure? then Failure(baud.error)
    else
      var p := w.params.(baud := baud.value);
      if !(w.t1 && w.group >= 3) then Success(p)
      else
        var p1 := if g.ta.Some? && 1 <= g.ta.value <= 254 then p.(ifsc := g.ta.value as int) else p;
        var p2 := if g.tb.Some?
                  then p1.(blockTimeout := Clamp(DEFAULT_TIMEOUT, OPERATION_TIMEOUT, Waiting((g.tb.value >> 4) as int)))
                  else p1;
        Success(if g.tc.Some? then p2.(useCrc := g.tc.value & 1 != 0) else p2)
  }

  /** One group of interface bytes: TA, TB and TC as far as present, and TD, which announces the next group. */
  function Step(bytes: seq<Byte>, w: Walk): Result<Walk> {
    match TakeGroup(bytes, w.offset, w.interfaces)
    case Failure(e) => Failure(e)
    case Success(g) =>
      match Apply(w, g)
      case Failure(e) => Failure(e)
      case Success(p) =>
        match Take(bytes, g.offset, w.interfaces & 8 != 0)
        case Failure(e) => Failure(e)
        case Success((None, o)) => Success(w.(offset := o, interfaces := 0, params := p))
        case Success((Some(td), o)) =>
          Success(Walk(o, w.group + 1, td >> 4, td & 0x0f == 1, w.nonT0 || td & 0x0f != 0, p))
  }

  /** The number of bytes in a group of interface bytes. */
  function Size(interfaces: Byte): nat {
    (if interfaces & 1 != 0 then 1 else 0) + (if interfaces & 2 != 0 then 1 else 0)
    + (if interfaces & 4 != 0 then 1 else 0) + if interfaces & 8 != 0 then 1 else 0
  }

  /** A group takes its bytes, and protocols once seen stay seen. */
  lemma StepTakes(bytes: seq<Byte>, w: Walk)
    requires Step(bytes, w).Success?
    ensures var w' := Step(bytes, w).value;
            && w'.offset == w.offset + Size(w.interfaces) && (w'.offset > w.offset ==> w'.offset <= |bytes|)
            && (w.nonT0 ==> w'.nonT0) && (w'.interfaces != 0 ==> w'.offset > w.offset) && (w'.group == w.group ==> w'.interfaces == 0)
  {
  }

  function WalkAll(bytes: seq<Byte>, w: Walk): Result<Walk>
    decreases |bytes| - w.offset, w.interfaces != 0
  {
    if w.interfaces == 0 then Success(w)
    else
      match Step(bytes, w)
      case Failure(e) => Failure(e)
      case Success(w') =>
        StepTakes(bytes, w);
        WalkAll(bytes, w')
  }

  function Start(bytes: seq<Byte>): Walk
    requires |bytes| >= 2
  {
    Walk(2, 1, bytes[1] >> 4, false, false, DEFAULTS)
  }

  function Expected(bytes: seq<Byte>, end: Walk): nat
    requires |bytes| >= 2
  {
    end.offset + (bytes[1] & 0x0f) as int + if end.nonT0 then 1 else 0
  }

  function Parse(bytes: seq<Byte>): Result<Atr> {
    if |bytes| > ATR_MAX then Failure(PROTOCOL_ERROR)
    else if |bytes| < 2 then Failure(NOT_READY)
    else if bytes[0] != 0x3b && bytes[0] != 0x3f then Failure(PROTOCOL_ERROR)
    else
      match WalkAll(bytes, Start(bytes))
      case Failure(e) => Failure(e)
      case Success(end) =>
        var expected := Expected(bytes, end);
        if expected > ATR_MAX then Failure(PROTOCOL_ERROR)
        else if |bytes| < expected then Failure(NOT_READY)
        else if |bytes| > expected then Failure(PROTOCOL_ERROR)
        else if end.nonT0 && Lrc(bytes[1..]) != 0 then Failure(PROTOCOL_ERROR)
        else Success(Atr(bytes, end.params))
  }

  predicate ValidParams(p: Params) {
    1 <= p.ifsc <= 254 && DEFAULT_TIMEOUT <= p.blockTimeout <= OPERATION_TIMEOUT
  }

  // ----------------------------------------------------------- properties

  lemma {:induction false} WalkKeepsBounds(bytes: seq<Byte>, w: Walk)
    requires ValidParams(w.params)
    ensures WalkAll(bytes, w).Success? ==> ValidParams(WalkAll(bytes, w).value.params)
    decreases |bytes| - w.offset, w.interfaces != 0
  {
    if w.interfaces != 0 && Step(bytes, w).Success? {
      StepTakes(bytes, w);
      ApplyKeepsBounds(w, TakeGroup(bytes, w.offset, w.interfaces).value);
      WalkKeepsBounds(bytes, Step(bytes, w).value);
    }
  }

  lemma ApplyKeepsBounds(w: Walk, g: Group)
    requires ValidParams(w.params)
    ensures Apply(w, g).Success? ==> ValidParams(Apply(w, g).value)
  {
    if g.ta.Some? { ByteRange(g.ta.value); }
  }

  lemma ByteRange(b: Byte)
    ensures 1 <= b <= 254 ==> 1 <= b as int <= 254
  {
  }

  /** A group reads the same in every input that holds it, and is incomplete in one that ends before it does. */
  lemma StepCut(bytes: seq<Byte>, n: nat, w: Walk)
    requires n <= |bytes| && w.offset <= n && Step(bytes, w).Success?
    ensures Step(bytes[..n], w) == if w.offset + Size(w.interfaces) <= n then Step(bytes, w) else Failure(NOT_READY)
  {
  }

  /** Cutting the input either leaves a finished walk as it was or makes it wait for more bytes. */
  lemma {:induction false} WalkPrefix(bytes: seq<Byte>, n: nat, w: Walk)
    requires n <= |bytes| && w.offset <= n
    requires WalkAll(bytes, w).Success?
    ensures var end := WalkAll(bytes, w).value;
            && w.offset <= end.offset <= |bytes|
            && WalkAll(bytes[..n], w) == if end.offset <= n then Success(end) else Failure(NOT_READY)
    decreases |bytes| - w.offset, w.interfaces != 0
  {
    if w.interfaces != 0 {
      StepTakes(bytes, w);
      StepCut(bytes, n, w);
      var next := Step(bytes, w).value;
      if next.offset <= n {
        WalkPrefix(bytes, n, next);
      } else {
        WalkPrefix(bytes, |bytes|, next);
      }
    }
  }

  /** Every strict prefix of an accepted answer-to-reset asks for more bytes. */
  lemma StrictPrefixNotReady(bytes: seq<Byte>, n: nat)
    requires Parse(bytes).Success? && n < |bytes|
    ensures Parse(bytes[..n]) == Failure(NOT_READY)
  {
    if n >= 2 {
      WalkPrefix(bytes, n, Start(bytes));
    }
  }

  /** No accepted answer-to-reset is a strict prefix of another. */
  lemma PrefixFree(a: seq<Byte>, b: seq<Byte>)
    requires Parse(a).Success? && Parse(b).Success? && a <= b
    ensures a == b
  {
    assert b[..|a|] == a;
    if |a| < |b| {
      StrictPrefixNotReady(b, |a|);
    }
  }

  lemma AcceptedParams(bytes: seq<Byte>)
    requires Parse(bytes).Success?
    ensures 2 <= |bytes| <= ATR_MAX && Parse(bytes).value.bytes == bytes
    ensures ValidParams(Parse(bytes).value.params)
  {
    WalkKeepsBounds(bytes, Start(bytes));
  }

  /** A whole answer to reset with its parameters: every strict prefix of it is incomplete, and it is accepted. */
  ghost predicate WholeAnswer(a: Atr) {
    ValidParams(a.params) && 2 <= |a.bytes| <= ATR_MAX && forall n :: 0 <= n <= |a.bytes| ==> AnswersAt(a, n)
  }

  ghost predicate AnswersAt(a: Atr, n: nat)
    requires n <= |a.bytes|
  {
    Parse(a.bytes[..n]) == if n < |a.bytes| then Failure(NOT_READY) else Success(a)
  }

  /** The answers are exactly what is accepted. */
  lemma AnswerParses(a: Atr)
    ensures WholeAnswer(a) <==> Parse(a.bytes) == Success(a)
  {
    assert a.bytes[..|a.bytes|] == a.bytes;
    if WholeAnswer(a) {
      assert AnswersAt(a, |a.bytes|);
    } else if Parse(a.bytes) == Success(a) {
      AcceptedParams(a.bytes);
      forall n | 0 <= n <= |a.bytes| ensures AnswersAt(a, n) {
        if n < |a.bytes| { StrictPrefixNotReady(a.bytes, n); }
      }
    }
  }

  // --------------------------------------------- what NOT_READY tells a caller

  /** Where the walk over an incomplete input stops: before the group it cannot finish, or behind the last. */
  function Stall(bytes: seq<Byte>, w: Walk): Walk
    decreases |bytes| - w.offset, w.interfaces != 0
  {
    if w.interfaces == 0 || Step(bytes, w).Failure? then w
    else
      StepTakes(bytes, w);
      Stall(bytes, Step(bytes, w).value)
  }

  /** The least length of an answer that begins with these bytes: the group begun, the historical bytes and the checksum. */
  function LeastLength(bytes: seq<Byte>): nat
    requires |bytes| >= 2
  {
    var s := Stall(bytes, Start(bytes));
    Expected(bytes, s) + Size(s.interfaces)
  }

  /** What tells that an incomplete input can still be completed. */
  predicate Completable(bytes: seq<Byte>) {
    && (|bytes| >= 1 ==> bytes[0] == 0x3b || bytes[0] == 0x3f)
    && (|bytes| >= 3 && bytes[1] & 0x10 != 0 ==> BaudOf(bytes[2]).Success?)
    && (|bytes| >= 2 ==> LeastLength(bytes) <= ATR_MAX)
  }

  /** What the walk stops at: nothing is left to walk, or the group is not all there. */
  lemma {:induction false} StallsAt(bytes: seq<Byte>, w: Walk)
    requires w.offset <= |bytes|
    ensures var s := Stall(bytes, w);
            && w.offset <= s.offset <= |bytes| && w.group <= s.group && ((s.group == w.group || s.offset == w.offset) && s.interfaces != 0 ==> s == w)
            && WalkAll(bytes, w) == (if s.interfaces == 0 then Success(s) else Failure(ErrorOf(Step(bytes, s))))
            && (s.interfaces != 0 ==> Step(bytes, s).Failure?)
    decreases |bytes| - w.offset, w.interfaces != 0
  {
    if w.interfaces != 0 && Step(bytes, w).Success? {
      StepTakes(bytes, w);
      StallsAt(bytes, Step(bytes, w).value);
    }
  }

  function ErrorOf(r: Result<Walk>): Error {
    if r.Failure? then r.error else INTERNAL
  }

  lemma StepExtends(bytes: seq<Byte>, rest: seq<Byte>, w: Walk)
    requires w.offset <= |bytes| && Step(bytes, w).Success?
    ensures Step(bytes + rest, w) == Step(bytes, w)
  {
  }

  /** More bytes change nothing up to where the walk stopped. */
  lemma {:induction false} StallExtends(bytes: seq<Byte>, rest: seq<Byte>, w: Walk)
    requires w.offset <= |bytes|
    ensures WalkAll(bytes + rest, w) == WalkAll(bytes + rest, Stall(bytes, w))
    decreases |bytes| - w.offset, w.interfaces != 0
  {
    if w.interfaces != 0 && Step(bytes, w).Success? {
      StepTakes(bytes, w);
      StepExtends(bytes, rest, w);
      StallExtends(bytes, rest, Step(bytes, w).value);
    }
  }

  /** A walk goes on at least to the end of the group it is at. */
  lemma {:induction false} WalkGoesOn(bytes: seq<Byte>, w: Walk)
    requires WalkAll(bytes, w).Success?
    ensures var end := WalkAll(bytes, w).value;
            (w.interfaces == 0 ==> end == w) && (w.interfaces != 0 ==> end.offset >= w.offset + Size(w.interfaces)) && (w.nonT0 ==> end.nonT0)
    decreases |bytes| - w.offset, w.interfaces != 0
  {
    if w.interfaces != 0 {
      StepTakes(bytes, w);
      WalkGoesOn(bytes, Step(bytes, w).value);
    }
  }

  lemma SizeOfNothing()
    ensures Size(0) == 0
  {
  }

  /** Whatever completes an input is at least as long as reckoned, and has a rate that is supported. */
  lemma CompletionIsLong(bytes: seq<Byte>, rest: seq<Byte>)
    requires |bytes| >= 2 && Parse(bytes + rest).Success?
    ensures LeastLength(bytes) <= ATR_MAX && (|bytes| >= 3 && bytes[1] & 0x10 != 0 ==> BaudOf(bytes[2]).Success?)
  {
    var all := bytes + rest;
    var w := Start(bytes);
    var s := Stall(bytes, w);
    StallsAt(bytes, w);
    StallExtends(bytes, rest, w);
    WalkGoesOn(all, s);
    SizeOfNothing();
    FirstBit(bytes[1]);
    if |bytes| >= 3 && bytes[1] & 0x10 != 0 { assert Step(all, w).Success?; }
  }

  /** TA1 is present exactly if the walk says so. */
  lemma FirstBit(t0: Byte)
    ensures (t0 & 0x10 != 0) == ((t0 >> 4) & 1 != 0)
    ensures t0 & 0x10 != 0 ==> t0 >> 4 != 0
  {
  }

  /** What to put at a position where bytes are missing: a rate that is supported, and else nothing that asks for more. */
  function Filler(t0: Byte, at: nat): Byte {
    if at == 2 && t0 & 0x10 != 0 then 0x11 else 0
  }

  function Filled(bytes: seq<Byte>, n: nat): (r: seq<Byte>)
    requires 2 <= |bytes| <= n
    ensures |r| == n && bytes <= r && forall i :: |bytes| <= i < n ==> r[i] == Filler(bytes[1], i)
  {
    bytes + seq(n - |bytes|, i requires 0 <= i < n - |bytes| => Filler(bytes[1], |bytes| + i))
  }

  /** A group that is waited for lacks bytes, its last one among them. */
  lemma GroupLacks(bytes: seq<Byte>, w: Walk)
    requires w.offset <= |bytes| && Step(bytes, w) == Failure(NOT_READY)
    ensures |bytes| < w.offset + Size(w.interfaces)
  {
  }

  lemma GroupWhole(bytes: seq<Byte>, offset: nat, interfaces: Byte)
    requires offset + Size(interfaces) <= |bytes|
    ensures TakeGroup(bytes, offset, interfaces).Success?
    ensures var g := TakeGroup(bytes, offset, interfaces).value;
            && g.offset == offset + Size(interfaces) - (if interfaces & 8 != 0 then 1 else 0)
            && g.ta == if interfaces & 1 != 0 then Some(bytes[offset]) else None
  {
  }

  lemma NothingFollows()
    ensures (0 as Byte) >> 4 == 0 && (0 as Byte) & 0x0f == 0
  {
  }

  /** Filled up, the group in which the walk stopped is the last one, and adds no protocol. */
  lemma GroupFilled(bytes: seq<Byte>, s: Walk, all: seq<Byte>, n: nat)
    requires 2 <= |bytes| && 2 <= s.offset <= |bytes| < s.offset + Size(s.interfaces) <= n <= |all| && Filled(bytes, n) == all[..n]
    requires s.group == 1 || s.offset == 2 ==> s == Start(bytes) && (|bytes| >= 3 && bytes[1] & 0x10 != 0 ==> BaudOf(bytes[2]).Success?)
    ensures Step(all, s).Success?
    ensures var w := Step(all, s).value; w.interfaces == 0 && w.offset == s.offset + Size(s.interfaces) && w.nonT0 == s.nonT0
  {
    GroupWhole(all, s.offset, s.interfaces);
    FirstBit(bytes[1]);
    NothingFollows();
    var g := TakeGroup(all, s.offset, s.interfaces).value;
    assert all[..n][s.offset] == all[s.offset];
    var td := s.offset + Size(s.interfaces) - 1;
    assert all[..n][td] == all[td];
    assert s.interfaces & 8 != 0 && td == 2 ==> s.interfaces & 1 == 0;
    assert s.interfaces & 8 != 0 ==> all[td] == 0;
    if s.group == 1 && g.ta.Some? {
      assert g.ta.value == if |bytes| >= 3 then bytes[2] else 0x11;
      assert BaudOf(0x11).Success?;
    }
    assert Apply(s, g).Success?;
  }

  /** The shortest completion of an input, where there is one. */
  function Completion(bytes: seq<Byte>): seq<Byte>
    requires |bytes| >= 2
  {
    var s := Stall(bytes, Start(bytes));
    var n := LeastLength(bytes) - if s.nonT0 then 1 else 0;
    if n < |bytes| then bytes
    else
      var body := Filled(bytes, n);
      if s.nonT0 then body + [Lrc(body[1..])] else body
  }

  /** Where the walk over a completion ends. */
  lemma CompletionWalks(bytes: seq<Byte>, all: seq<Byte>, n: nat)
    requires |bytes| >= 2 && Parse(bytes) == Failure(NOT_READY) && Completable(bytes)
    requires n == BodyLength(bytes) && |bytes| <= n <= |all| && Filled(bytes, n) == all[..n]
    ensures var s := Stall(bytes, Start(bytes));
            && WalkAll(all, Start(bytes)).Success?
            && var end := WalkAll(all, Start(bytes)).value; end.offset == s.offset + Size(s.interfaces) && end.nonT0 == s.nonT0
  {
    var w := Start(bytes);
    var s := Stall(bytes, w);
    StallsAt(bytes, w);
    SizeOfNothing();
    assert all == bytes + all[|bytes|..];
    StallExtends(bytes, all[|bytes|..], w);
    if s.interfaces != 0 {
      GroupLacks(bytes, s);
      GroupFilled(bytes, s, all, n);
    }
  }

  /** The length of an answer without its checksum, as far as the walk over its beginning tells. */
  function BodyLength(bytes: seq<Byte>): nat
    requires |bytes| >= 2
  {
    var s := Stall(bytes, Start(bytes));
    s.offset + Size(s.interfaces) + (bytes[1] & 0x0f) as int
  }

  /** An input that is waited for is no longer than that. */
  lemma RoomForBody(bytes: seq<Byte>)
    requires |bytes| >= 2 && Parse(bytes) == Failure(NOT_READY)
    ensures |bytes| <= BodyLength(bytes)
  {
    var s := Stall(bytes, Start(bytes));
    StallsAt(bytes, Start(bytes));
    SizeOfNothing();
    if s.interfaces != 0 { GroupLacks(bytes, s); }
  }

  lemma ChecksumCloses(body: seq<Byte>)
    requires |body| >= 1
    ensures Lrc((body + [Lrc(body[1..])])[1..]) == 0
  {
    assert (body + [Lrc(body[1..])])[1..] == body[1..] + [Lrc(body[1..])];
    LrcAppend(body[1..], Lrc(body[1..]));
  }

  lemma CompletionParses(bytes: seq<Byte>)
    requires |bytes| >= 2 && Parse(bytes) == Failure(NOT_READY) && Completable(bytes)
    ensures bytes <= Completion(bytes) && Parse(Completion(bytes)).Success?
  {
    RoomForBody(bytes);
    CompletionShape(bytes);
    CompletionWalks(bytes, Completion(bytes), BodyLength(bytes));
    WalkedParses(Completion(bytes), Start(bytes));
  }

  lemma CompletionShape(bytes: seq<Byte>)
    requires 2 <= |bytes| <= BodyLength(bytes)
    ensures var all := Completion(bytes);
            && |all| == LeastLength(bytes) && bytes <= all && BodyLength(bytes) <= |all| && all[..BodyLength(bytes)] == Filled(bytes, BodyLength(bytes))
            && (Stall(bytes, Start(bytes)).nonT0 ==> Lrc(all[1..]) == 0)
  {
    var body := Filled(bytes, BodyLength(bytes));
    assert (body + [Lrc(body[1..])])[..|body|] == body;
    ChecksumCloses(body);
  }

  /** The tests behind the walk. */
  lemma WalkedParses(all: seq<Byte>, w: Walk)
    requires 2 <= |all| <= ATR_MAX && (all[0] == 0x3b || all[0] == 0x3f) && w == Start(all) && WalkAll(all, w).Success?
    requires var end := WalkAll(all, w).value; |all| == Expected(all, end) && (end.nonT0 ==> Lrc(all[1..]) == 0)
    ensures Parse(all).Success?
  {
  }

  /**
   NOT_READY is returned for inputs that can be completed and for inputs that
   cannot; these are told apart by the first byte, the rate if it is there, and
   the least length of an answer that begins like this.
   */
  lemma NotReadyExactly(bytes: seq<Byte>)
    requires Parse(bytes) == Failure(NOT_READY)
    ensures (exists rest :: Parse(bytes + rest).Success?) <==> Completable(bytes)
  {
    if Completable(bytes) {
      if |bytes| >= 2 {
        CompletionParses(bytes);
        assert bytes + Completion(bytes)[|bytes|..] == Completion(bytes);
      } else {
        var rest: seq<Byte> := if bytes == [] then [0x3b, 0x00] else [0x00];
        ShortAnswer(bytes + rest);
      }
    }
    forall rest | Parse(bytes + rest).Success? ensures Completable(bytes) {
      if |bytes| >= 2 { CompletionIsLong(bytes, rest); }
    }
  }

  lemma ShortAnswer(bytes: seq<Byte>)
    requires |bytes| == 2 && (bytes[0] == 0x3b || bytes[0] == 0x3f) && bytes[1] == 0
    ensures Parse(bytes).Success?
  {
    NothingFollows();
    assert Start(bytes).interfaces == 0;
    assert Expected(bytes, Start(bytes)) == 2;
  }

  /** A first input that cannot be completed: one byte that begins no answer. */
  lemma OneByteIsNotReady(b: Byte)
    ensures Parse([b]) == Failure(NOT_READY)
    ensures (exists rest :: Parse([b] + rest).Success?) <==> b == 0x3b || b == 0x3f
  {
    NotReadyExactly([b]);
  }

  /** A second: a rate that is not supported, as long as another byte of its group is missing. */
  lemma BadRateIsNotReady(ta: Byte)
    ensures Parse([0x3b, 0x30, ta]) == Failure(NOT_READY)
    ensures (exists rest :: Parse([0x3b, 0x30, ta] + rest).Success?) <==> BaudOf(ta).Success?
  {
    var bytes := [0x3b, 0x30, ta];
    assert Start(bytes) == Walk(2, 1, 3, false, false, DEFAULTS);
    assert Step(bytes, Start(bytes)) == Failure(NOT_READY);
    assert Stall(bytes, Start(bytes)) == Start(bytes);
    assert Expected(bytes, Start(bytes)) == 2 && Size(3) == 2;
    NotReadyExactly(bytes);
  }

  /** The beginning of an answer with 15 historical bytes that announces one group of interface bytes after the other. */
  function Announcements(m: nat): seq<Byte> {
    [0x3b, 0x8f] + seq(m, _ => 0x80)
  }

  lemma {:induction false} AnnouncementsStall(m: nat, i: nat)
    requires i <= m
    ensures var w := Walk(2 + i, 1 + i, 8, false, false, DEFAULTS);
            && Stall(Announcements(m), w) == Walk(2 + m, 1 + m, 8, false, false, DEFAULTS)
            && WalkAll(Announcements(m), w) == Failure(NOT_READY)
    decreases m - i
  {
    var bytes, w := Announcements(m), Walk(2 + i, 1 + i, 8, false, false, DEFAULTS);
    OnlyAnother();
    assert TakeGroup(bytes, 2 + i, 8) == Success(Group(None, None, None, 2 + i));
    if i < m {
      assert bytes[2 + i] == 0x80;
      assert Step(bytes, w) == Success(Walk(3 + i, 2 + i, 8, false, false, DEFAULTS));
      AnnouncementsStall(m, i + 1);
    } else {
      assert Step(bytes, w) == Failure(NOT_READY);
    }
  }

  lemma OnlyAnother()
    ensures (8 as Byte) & 1 == 0 && (8 as Byte) & 2 == 0 && (8 as Byte) & 4 == 0 && (8 as Byte) & 8 != 0
    ensures (0x80 as Byte) >> 4 == 8 && (0x80 as Byte) & 0x0f == 0
    ensures (0x8f as Byte) >> 4 == 8 && ((0x8f as Byte) & 0x0f) as int == 15 && (0x8f as Byte) & 0x10 == 0
  {
  }

  /** A third: so many announcements that no room is left for what the first one promised. */
  lemma EndlessIsNotReady(m: nat)
    requires m <= 31
    ensures Parse(Announcements(m)) == Failure(NOT_READY)
    ensures (exists rest :: Parse(Announcements(m) + rest).Success?) <==> m <= 15
  {
    var bytes := Announcements(m);
    OnlyAnother();
    assert bytes[1] == 0x8f;
    assert Start(bytes) == Walk(2, 1, 8, false, false, DEFAULTS);
    AnnouncementsStall(m, 0);
    assert LeastLength(bytes) == 18 + m;
    NotReadyExactly(bytes);
  }

  // ------------------------------------------------------ reading in chunks

  /** What a reader makes of chunks arriving behind `bytes`: it parses after each nonempty one. */
  function Feed(bytes: seq<Byte>, chunks: seq<seq<Byte>>): Result<Atr>
    decreases |chunks|
  {
    if chunks == [] then Failure(NOT_READY)
    else if chunks[0] == [] then Feed(bytes, chunks[1..])
    else
      var r := Parse(bytes + chunks[0]);
      if r == Failure(NOT_READY) then Feed(bytes + chunks[0], chunks[1..]) else r
  }

  /** An answer-to-reset that arrives in any chunks is read as itself. */
  lemma {:induction false} AnyChunking(bytes: seq<Byte>, chunks: seq<seq<Byte>>)
    requires Parse(bytes + Flatten(chunks)).Success? && Flatten(chunks) != []
    ensures Feed(bytes, chunks) == Parse(bytes + Flatten(chunks))
    decreases |chunks|
  {
    var all := bytes + Flatten(chunks);
    var rest := Flatten(chunks[1..]);
    if chunks[0] == [] {
      assert Flatten(chunks) == rest;
      AnyChunking(bytes, chunks[1..]);
    } else {
      var head := bytes + chunks[0];
      assert all == head + rest;
      if rest == [] {
        assert all == head;
      } else {
        StrictPrefixNotReady(all, |head|);
        assert all[..|head|] == head;
        AnyChunking(head, chunks[1..]);
      }
    }
  }

  lemma {:induction false} FeedAppend(bytes: seq<Byte>, chunks: seq<seq<Byte>>, c: seq<Byte>)
    requires Feed(bytes, chunks) == Failure(NOT_READY)
    ensures Flatten(chunks + [c]) == Flatten(chunks) + c
    ensures Feed(bytes, chunks + [c]) == if c == [] then Failure(NOT_READY) else Parse(bytes + Flatten(chunks) + c)
    decreases |chunks|
  {
    if chunks == [] {
      assert chunks + [c] == [c];
      assert bytes + Flatten(chunks) == bytes;
      assert Feed(bytes + c, []) == Failure(NOT_READY);
    } else {
      assert (chunks + [c])[1..] == chunks[1..] + [c];
      assert bytes + Flatten(chunks) == (bytes + chunks[0]) + Flatten(chunks[1..]);
      if chunks[0] == [] {
        assert bytes + chunks[0] == bytes;
      }
      FeedAppend(if chunks[0] == [] then bytes else bytes + chunks[0], chunks[1..], c);
    }
  }

  /** One more chunk behind chunks that did not complete an answer. */
  lemma FeedOn(bytes: seq<Byte>, chunks: seq<seq<Byte>>, c: seq<Byte>)
    requires Feed([], chunks) == Failure(NOT_READY) && bytes == Flatten(chunks)
    ensures Flatten(chunks + [c]) == bytes + c
    ensures Feed([], chunks + [c]) == if c == [] then Failure(NOT_READY) else Parse(bytes + c)
  {
    FeedAppend([], chunks, c);
    assert [] + bytes + c == bytes + c;
  }

  // ------------------------------------------------------------- the code

  method ReadGroup(bytes: seq<Byte>, start: nat, interfaces: Byte) returns (r: Result<Group>)
    requires start <= |bytes|
    ensures r == TakeGroup(bytes, start, interfaces)
    ensures r.Success? ==> start <= r.value.offset <= |bytes|
  {
    var offset := start;
    var ta: Option<Byte>, tb: Option<Byte>, tc: Option<Byte> := None, None, None;
    if interfaces & 1 != 0 {
      if offset >= |bytes| { return Failure(NOT_READY); }
      ta, offset := Some(bytes[offset]), offset + 1;
    }
    if interfaces & 2 != 0 {
      if offset >= |bytes| { return Failure(NOT_READY); }
      tb, offset := Some(bytes[offset]), offset + 1;
    }
    if interfaces & 4 != 0 {
      if offset >= |bytes| { return Failure(NOT_READY); }
      tc, offset := Some(bytes[offset]), offset + 1;
    }
    r := Success(Group(ta, tb, tc, offset));
  }

  method Checksum(bytes: seq<Byte>) returns (checksum: Byte)
    requires |bytes| >= 1
    ensures checksum == Lrc(bytes[1..])
  {
    checksum := 0;
    for index := 1 to |bytes|
      invariant checksum == Lrc(bytes[1..index])
    {
      assert bytes[1..index + 1][..index - 1] == bytes[1..index];
      checksum := checksum ^ bytes[index];
    }
    assert bytes[1..|bytes|] == bytes[1..];
  }

  /** The walk of the source over the interface bytes. */
  method WalkInterfaces(bytes: seq<Byte>) returns (r: Result<Walk>)
    requires |bytes| >= 2
    ensures r == WalkAll(bytes, Start(bytes))
  {
    var w := Start(bytes);
    while w.interfaces != 0
      invariant w.offset <= |bytes|
      invariant WalkAll(bytes, Start(bytes)) == WalkAll(bytes, w)
      decreases |bytes| - w.offset, w.interfaces != 0
    {
      var g := ReadGroup(bytes, w.offset, w.interfaces);
      if g.Failure? { return Failure(g.error); }
      var params := Apply(w, g.value);
      if params.Failure? { return Failure(params.error); }
      if w.interfaces & 8 != 0 {
        if g.value.offset >= |bytes| { return Failure(NOT_READY); }
        var td := bytes[g.value.offset];
        w := Walk(g.value.offset + 1, w.group + 1, td >> 4, td & 0x0f == 1, w.nonT0 || td & 0x0f != 0, params.value);
      } else {
        w := w.(offset := g.value.offset, interfaces := 0, params := params.value);
      }
    }
    r := Success(w);
  }

  /** The parser of the source: one pass over the interface bytes, then the length and checksum tests. */
  method ParseAtr(bytes: seq<Byte>) returns (r: Result<Atr>)
    ensures r == Parse(bytes)
  {
    if |bytes| > ATR_MAX { return Failure(PROTOCOL_ERROR); }
    if |bytes| < 2 { return Failure(NOT_READY); }
    if bytes[0] != 0x3b && bytes[0] != 0x3f { return Failure(PROTOCOL_ERROR); }
    var walked := WalkInterfaces(bytes);
    if walked.Failure? { return Failure(walked.error); }
    var w := walked.value;
    var expected := w.offset + (bytes[1] & 0x0f) as int + if w.nonT0 then 1 else 0;
    if expected > ATR_MAX { return Failure(PROTOCOL_ERROR); }
    if |bytes| < expected { return Failure(NOT_READY); }
    if |bytes| > expected { return Failure(PROTOCOL_ERROR); }
    if w.nonT0 {
      var checksum := Checksum(bytes);
      if checksum != 0 { return Failure(PROTOCOL_ERROR); }
    }
    r := Success(Atr(bytes, w.params));
  }
}
