/** The stream connection's sender, and what a reader at the far end makes of its bytes. */
module StreamSender {
  import opened Errors
  import opened Sequences
  import opened FrameCodec
  import opened StreamFramer
  import opened Connection

  /** What the operating system answers to one send: bytes taken (0: the peer is gone), or an error. */
  datatype Answer = Took(n: nat) | Interrupted | WouldBlock | PeerReset | Broken

  class Sender {
    const state: ConnectionStateMachine
    const tx: array<Byte>
    var offset: nat
    var size: nat
    var ackPending: bool
    var closeAfterFlush: bool
    var removeRequested: bool
    /** The answers the operating system will give; a socket with none left blocks. */
    var script: seq<Answer>
    /** Everything the machine has let through, and every byte the operating system has taken. */
    ghost var log: seq<Hop>
    ghost var taken: seq<Byte>

    ghost predicate Valid()
      reads `offset, `size, `log, `taken, tx
    {
      && offset <= size <= tx.Length
      && Accounted(tx.Length, log, taken, tx[offset..size])
      && Legal(Start(StreamServer, NOTHING), log)
    }

    /** The machine is where the log brought it, unless a refused frame has poisoned it. */
    ghost predicate Current()
      reads `log, state
    {
      state.phase != Poisoned ==> state.Snapshot() == Follow(Start(StreamServer, NOTHING), log)
    }

    constructor (tx: array<Byte>, script: seq<Answer>)
      ensures Valid() && Current() && fresh(state) && this.tx == tx && offset == size && log == [] && taken == [] && this.script == script
    {
      this.state := new ConnectionStateMachine(StreamServer, NOTHING);
      this.tx, offset, size, this.script := tx, 0, 0, script;
      ackPending, closeAfterFlush, removeRequested := false, false, false;
      log, taken := [], [];
    }

    function TxPending(): bool
      reads `offset, `size
    {
      offset < size
    }

    /** Passes a frame from the peer to the machine. */
    method Receive(f: Frame) returns (r: Result<Accepted>)
      requires Valid() && Current()
      modifies this`log, state
      ensures Valid() && Current()
      ensures log == if r.Success? then old(log) + [Hop(false, f)] else old(log)
      ensures FrameOk(f) ==> r == Report(old(state.Snapshot()), false, f)
    {
      ghost var m := state.Snapshot();
      r := state.ProcessInbound(f);
      if r.Success? {
        LogGrows(Start(StreamServer, NOTHING), log, Hop(false, f));
        ReceiveGrows(tx.Length, log, taken, tx[offset..size], f);
        log := log + [Hop(false, f)];
      } else {
        assert m.phase == Closed ==> state.Snapshot() == m;
      }
    }

    method Store(bytes: seq<Byte>)
      requires |bytes| <= tx.Length
      modifies tx
      ensures tx[..|bytes|] == bytes
    {
      forall i | 0 <= i < |bytes| {
        tx[i] := bytes[i];
      }
    }

    /** Queues one frame; only a drained sender takes one. */
    method Queue(f: Frame, closing: bool) returns (r: Result<Unit>)
      requires Valid() && Current() && Representable(f.header)
      modifies this`log, this`offset, this`size, this`ackPending, this`closeAfterFlush, state, tx
      ensures Valid() && Current()
      ensures r == Admission(tx.Length, old(TxPending()), old(state.Snapshot()), f)
      ensures r.Success? ==> log == old(log) + [Hop(true, f)] && tx[offset..size] == Wire(f)
      ensures r.Failure? ==> log == old(log) && tx[offset..size] == old(tx[offset..size])
      ensures closeAfterFlush == (old(closeAfterFlush) || closing)
    {
      if closing { closeAfterFlush := true; }
      r := Enqueue(f);
    }

    method Enqueue(f: Frame) returns (r: Result<Unit>)
      requires Valid() && Current() && Representable(f.header)
      modifies this`log, this`offset, this`size, this`ackPending, state, tx
      ensures Valid() && Current()
      ensures r == Admission(tx.Length, old(TxPending()), old(state.Snapshot()), f)
      ensures r.Success? ==> log == old(log) + [Hop(true, f)] && tx[offset..size] == Wire(f)
      ensures r.Failure? ==> log == old(log) && tx[offset..size] == old(tx[offset..size])
    {
      if TxPending() { return Failure(BUSY); }
      NothingPending();
      var admitted := Prepare(f);
      NothingPending();
      if admitted.Failure? { return Failure(admitted.error); }
      Commit(f, admitted.value);
      r := Success(Unit);
    }

    lemma NothingPending()
      requires offset == size <= tx.Length
      ensures tx[offset..size] == []
    {
    }

    /** The buffer now holds a frame that is to go out. */
    method Commit(f: Frame, n: nat)
      requires n <= tx.Length && tx[..n] == Wire(f) && Fits(tx.Length, f) && Accounted(tx.Length, log, taken, [])
      requires Legal(Start(StreamServer, NOTHING), log + [Hop(true, f)])
      requires state.Snapshot() == Follow(Start(StreamServer, NOTHING), log + [Hop(true, f)])
      modifies this`log, this`offset, this`size, this`ackPending
      ensures Valid() && Current() && log == old(log) + [Hop(true, f)] && tx[offset..size] == Wire(f)
    {
      QueueGrows(tx.Length, log, taken, f);
      log := log + [Hop(true, f)];
      size, offset := n, 0;
      ackPending := f.header.mtype == ATTACH_STREAM && f.header.kind == Response;
      assert tx[offset..size] == tx[..n];
    }

    /** Encodes into the buffer, reads the frame back and asks the machine. */
    method Prepare(f: Frame) returns (r: Result<nat>)
      requires Representable(f.header) && Legal(Start(StreamServer, NOTHING), log) && Current()
      modifies state, tx
      ensures (if r.Success? then Success(Unit) else Failure(r.error)) == Admission(tx.Length, false, old(state.Snapshot()), f)
      ensures r.Success? ==> r.value <= tx.Length && tx[..r.value] == Wire(f) && Fits(tx.Length, f)
      ensures r.Success? ==> Legal(Start(StreamServer, NOTHING), log + [Hop(true, f)])
      ensures r.Success? ==> state.Snapshot() == Follow(Start(StreamServer, NOTHING), log + [Hop(true, f)])
      ensures r.Failure? ==> Current()
    {
      LogGrows(Start(StreamServer, NOTHING), log, Hop(true, f));
      var encoded := EncodeFrame(f, tx.Length);
      if encoded.Failure? { return Failure(encoded.error); }
      Store(encoded.value);
      DecodeAfterEncode(f, tx.Length);
      var decoded := DecodeFrame(tx[..|encoded.value|]);
      assert decoded == Success(f);
      var accepted := state.ProcessOutbound(decoded.value);
      if accepted.Failure? { return Failure(accepted.error); }
      r := Success(|encoded.value|);
    }

    /** Sends what it can, at most `budget` bytes; true means the frame is out. */
    method Flush(budget: nat) returns (r: Result<bool>)
      requires Valid()
      modifies this`offset, this`size, this`ackPending, this`removeRequested, this`script, this`taken
      ensures Valid()
      ensures old(taken) <= taken && |taken| - |old(taken)| <= budget
      ensures Consumed(old(script), script, |taken| - |old(taken)|, Min(budget, old(size - offset)))
      ensures r.Success? ==> r.value == !TxPending()
      ensures r.Success? && r.value ==> taken == WireAll(Passed(log, true))
      ensures r.Failure? ==> !Unbroken(old(script))
      ensures Flowing(old(script)) && |old(script)| >= budget ==>
                r.Success? && |taken| - |old(taken)| == Min(budget, old(size - offset))
    {
      var stopped := Push(budget);
      if stopped.Some? { return stopped.value; }
      if offset == size {
        assert taken + tx[offset..size] == taken;
        offset, size := 0, 0;
        ackPending := false;
        if closeAfterFlush { removeRequested := true; }
        return Success(true);
      }
      r := Success(false);
    }

    /** The bytes taken once those of the buffer from i to j are, too. */
    ghost function Moved(done: seq<Byte>, i: nat, j: nat): (moved: seq<Byte>)
      requires i <= j <= size <= tx.Length
      reads this, tx
      ensures done <= moved && |moved| == |done| + (j - i) && moved + tx[j..size] == done + tx[i..size]
    {
      assert tx[i..size] == tx[i..j] + tx[j..size];
      done + tx[i..j]
    }

    /** The send loop: every byte taken is the next one of the buffer. */
    method Push(budget: nat) returns (stopped: Option<Result<bool>>)
      requires offset <= size <= tx.Length
      modifies this`offset, this`script, this`taken
      ensures offset <= size && taken + tx[offset..size] == old(taken + tx[offset..size])
      ensures old(taken) <= taken && |taken| - |old(taken)| <= budget
      ensures Consumed(old(script), script, |taken| - |old(taken)|, Min(budget, old(size - offset)))
      ensures stopped.Some? ==> stopped.value.Failure? || (stopped.value == Success(false) && offset < size)
      ensures stopped.Some? && stopped.value.Failure? ==> !Unbroken(old(script))
      ensures Flowing(old(script)) && |old(script)| >= budget ==>
                stopped.None? && |taken| - |old(taken)| == Min(budget, old(size - offset))
    {
      var left: nat := budget;
      ghost var room, used := Min(budget, size - offset), 0;
      stopped := None;
      while offset < size && left != 0 && stopped.None?
        invariant old(offset) <= offset <= size && left <= budget && offset - old(offset) == budget - left
        invariant taken + tx[offset..size] == old(taken + tx[offset..size]) && old(taken) <= taken
        invariant used <= |old(script)| && script == old(script)[used..] && room == Min(budget, old(size - offset))
        invariant |taken| - |old(taken)| == budget - left == Progress(old(script)[..used], room)
        invariant stopped.Some? ==> stopped.value.Failure? || (stopped.value == Success(false) && offset < size)
        invariant stopped.Some? && stopped.value.Failure? ==> !Unbroken(old(script))
        invariant Flowing(old(script)) && |old(script)| >= budget ==> stopped.None? && |script| >= left
        decreases |script|, stopped.None?
      {
        if script == [] {
          stopped := Some(Success(false));
        } else {
          ProgressMore(old(script), used, room);
          var written;
          written, stopped := PushOnce(left);
          left, used := left - written, used + 1;
        }
      }
    }

    /** What one answer of the socket does. */
    method PushOnce(left: nat) returns (written: nat, stopped: Option<Result<bool>>)
      requires offset < size <= tx.Length && left > 0 && script != []
      modifies this`offset, this`script, this`taken
      ensures script == old(script)[1..] && offset == old(offset) + written <= size && old(taken) <= taken && |taken| == |old(taken)| + written
      ensures taken + tx[offset..size] == old(taken + tx[offset..size])
      ensures written == match old(script[0]) case Took(n) => Min(n, Min(old(size - offset), left)) case _ => 0
      ensures stopped.Some? ==> (stopped.value.Failure? && Breaks(old(script[0]))) || (stopped.value == Success(false) && offset < size)
      ensures old(script[0]).Took? && old(script[0]).n > 0 ==> stopped.None? && written > 0
    {
      var answer := script[0];
      script := script[1..];
      written, stopped := 0, None;
      match answer
      case Took(n) =>
        written := Min(n, Min(size - offset, left));
        if written == 0 { return 0, Some(Failure(DISCONNECTED)); }
        taken := Moved(taken, offset, offset + written);
        offset := offset + written;
      case Interrupted =>
      case WouldBlock => stopped := Some(Success(false));
      case PeerReset => stopped := Some(Failure(DISCONNECTED));
      case Broken => stopped := Some(Failure(INTERNAL));
    }
  }

  /** Whether a frame is taken: not while bytes are pending, only if it can be encoded, and only if the machine lets it out. */
  function Admission(capacity: nat, pending: bool, m: Machine, f: Frame): Result<Unit> {
    if pending then Failure(BUSY)
    else if EncodeFrame(f, capacity).Failure? then Failure(EncodeFrame(f, capacity).error)
    else if Report(m, true, f).Failure? then Failure(Report(m, true, f).error)
    else Success(Unit)
  }

  /** A drained sender with an attached client takes the next frame of the stream, and its end, whenever there is room. */
  lemma StreamGoesOn(capacity: nat, m: Machine, f: Frame)
    requires m.role == StreamServer && m.phase == Active && IsTs(f) && EncodeFrame(f, capacity).Success?
    ensures Admission(capacity, false, m, f) == Success(Unit) <==> TsInOrder(m.lastTs, f)
    ensures Admission(capacity, false, m, f).Failure? ==> Admission(capacity, false, m, f).error == PROTOCOL_ERROR
  {
  }

  /** Before that it takes an answer to the attach request, if there is one and it is not answered. */
  lemma AttachAnswered(capacity: nat, m: Machine, f: Frame)
    requires m.role == StreamServer && m.phase == Handshake && EncodeFrame(f, capacity).Success?
    ensures Admission(capacity, false, m, f) == Success(Unit) <==> Answers(m, f)
  {
  }

  /** How many of `room` bytes these answers of the socket took. */
  function Progress(answers: seq<Answer>, room: nat): (n: nat)
    ensures n <= room
  {
    if answers == [] then 0
    else
      var before := Progress(answers[..|answers| - 1], room);
      before + match answers[|answers| - 1] case Took(n) => Min(n, room - before) case _ => 0
  }

  lemma ProgressMore(answers: seq<Answer>, k: nat, room: nat)
    requires k < |answers|
    ensures var before := Progress(answers[..k], room);
            Progress(answers[..k + 1], room) == before + match answers[k] case Took(n) => Min(n, room - before) case _ => 0
  {
    assert answers[..k + 1][..k] == answers[..k];
  }

  /** The script is used up to some point, and the answers up to there took exactly so many bytes. */
  ghost predicate Consumed(before: seq<Answer>, after: seq<Answer>, moved: int, room: nat) {
    exists k :: 0 <= k <= |before| && after == before[k..] && moved == Progress(before[..k], room)
  }

  /** A socket that always takes something. */
  predicate Flowing(script: seq<Answer>) {
    forall i :: 0 <= i < |script| ==> script[i].Took? && script[i].n > 0
  }

  /** A socket that neither closes nor fails. */
  predicate Unbroken(script: seq<Answer>) {
    forall i :: 0 <= i < |script| ==> !Breaks(script[i])
  }

  predicate Breaks(a: Answer) {
    a == Took(0) || a.PeerReset? || a.Broken?
  }

  predicate AllFit(capacity: nat, frames: seq<Frame>) {
    forall i :: 0 <= i < |frames| ==> Fits(capacity, frames[i])
  }

  lemma FitGrows(capacity: nat, frames: seq<Frame>, f: Frame)
    requires AllFit(capacity, frames) && Fits(capacity, f)
    ensures AllFit(capacity, frames + [f])
  {
  }

  /** The sender's account: what is out and what is in the buffer make up the frames of the log. */
  predicate Accounted(capacity: nat, log: seq<Hop>, taken: seq<Byte>, buffered: seq<Byte>) {
    taken + buffered == WireAll(Passed(log, true)) && AllFit(capacity, Passed(log, true))
  }

  lemma QueueGrows(capacity: nat, log: seq<Hop>, taken: seq<Byte>, f: Frame)
    requires Accounted(capacity, log, taken, []) && Fits(capacity, f)
    ensures Accounted(capacity, log + [Hop(true, f)], taken, Wire(f))
  {
    Logged(log, Hop(true, f));
    WireGrows(Passed(log, true), f);
    FitGrows(capacity, Passed(log, true), f);
    assert taken + [] == taken;
  }

  lemma ReceiveGrows(capacity: nat, log: seq<Hop>, taken: seq<Byte>, buffered: seq<Byte>, f: Frame)
    requires Accounted(capacity, log, taken, buffered)
    ensures Accounted(capacity, log + [Hop(false, f)], taken, buffered)
  {
    Logged(log, Hop(false, f));
  }

  // ------------------------------------------------------------- end to end

  /** A reader that passes every frame to its own connection machine and stops at the first one refused. */
  function Judge(m: Machine, frames: seq<Frame>): Option<Error> {
    if frames == [] then None
    else
      match Report(Replay(m, frames[..|frames| - 1]), false, frames[|frames| - 1])
      case Success(_) => None
      case Failure(e) => Some(e)
  }

  function Reader(m: Machine): Verdict {
    (frames: seq<Frame>) => Judge(m, frames)
  }

  /** The client's machine once it has sent the attach request. */
  function Attached(attach: Frame): Machine {
    Advance(Start(StreamClient, NOTHING), true, attach)
  }

  /** The client that sent the attach request takes these frames, and then agrees with the server. */
  predicate Attends(attach: Frame, frames: seq<Frame>, s: Machine) {
    Takes(Attached(attach), frames) && Agree(Replay(Attached(attach), frames), s) && s.role == StreamServer && s.phase != Initial
  }

  /** A log, judged by the rules alone: its frames are taken to be valid. */
  function Course(start: Machine, log: seq<Hop>): Machine {
    if log == [] then start
    else Advance(Course(start, log[..|log| - 1]), log[|log| - 1].outbound, log[|log| - 1].frame)
  }

  predicate Obeys(start: Machine, log: seq<Hop>) {
    log != [] ==>
      var before, h := log[..|log| - 1], log[|log| - 1];
      Obeys(start, before) && Accepts(Course(start, before), h.outbound, h.frame)
  }

  lemma {:induction false} LegalObeys(start: Machine, log: seq<Hop>)
    requires Legal(start, log)
    ensures Obeys(start, log) && Course(start, log) == Follow(start, log)
  {
    if log != [] { LegalObeys(start, log[..|log| - 1]); }
  }

  /** Whatever a stream server has let through, the client that sent the attach request takes in that order. */
  lemma {:induction false} ClientFollows(log: seq<Hop>)
    requires log != [] && Obeys(Start(StreamServer, NOTHING), log)
    ensures Attends(log[0].frame, Passed(log, true), Course(Start(StreamServer, NOTHING), log))
  {
    var before, h := log[..|log| - 1], log[|log| - 1];
    assert log == before + [h];
    Logged(before, h);
    if before == [] {
      AttachTaken(h);
    } else {
      ClientFollows(before);
      ServerSpeaks(log[0].frame, Passed(before, true), Course(Start(StreamServer, NOTHING), before), h);
    }
  }

  lemma ClientTakes(log: seq<Hop>)
    requires log != [] && Legal(Start(StreamServer, NOTHING), log)
    ensures Attends(log[0].frame, Passed(log, true), Follow(Start(StreamServer, NOTHING), log))
  {
    LegalObeys(Start(StreamServer, NOTHING), log);
    ClientFollows(log);
  }

  lemma AttachTaken(h: Hop)
    requires Accepts(Start(StreamServer, NOTHING), h.outbound, h.frame)
    ensures !h.outbound && Attends(h.frame, [], Advance(Start(StreamServer, NOTHING), h.outbound, h.frame))
  {
    AgreeUp(Start(StreamClient, NOTHING), Start(StreamServer, NOTHING), h.frame);
  }

  /** After the attach request only the server speaks, and the client takes what it says. */
  lemma ServerSpeaks(attach: Frame, frames: seq<Frame>, s: Machine, h: Hop)
    requires Attends(attach, frames, s) && Accepts(s, h.outbound, h.frame)
    ensures h.outbound && Attends(attach, frames + [h.frame], Advance(s, h.outbound, h.frame))
  {
    AgreeDown(Replay(Attached(attach), frames), s, h.frame);
    Enqueued(Attached(attach), frames, h.frame);
  }

  lemma {:induction false} TakesWelcomes(m: Machine, frames: seq<Frame>)
    requires Takes(m, frames)
    ensures Welcomes(Reader(m), frames)
  {
    if frames != [] {
      var before, f := frames[..|frames| - 1], frames[|frames| - 1];
      assert frames == before + [f];
      Enqueued(m, before, f);
      TakesWelcomes(m, before);
    }
  }

  lemma {:induction false} LegalFramesOk(start: Machine, log: seq<Hop>, i: nat)
    requires Legal(start, log)
    ensures i < |Passed(log, true)| ==> FrameOk(Passed(log, true)[i])
  {
    if log != [] {
      var before, h := log[..|log| - 1], log[|log| - 1];
      assert log == before + [h];
      Logged(before, h);
      LegalFramesOk(start, before, i);
    }
  }

  lemma LegalSendable(capacity: nat, log: seq<Hop>)
    requires Legal(Start(StreamServer, NOTHING), log) && AllFit(capacity, Passed(log, true))
    ensures AllSendable(capacity, Passed(log, true))
  {
    forall i | 0 <= i < |Passed(log, true)| ensures Sendable(capacity, Passed(log, true)[i]) {
      LegalFramesOk(Start(StreamServer, NOTHING), log, i);
    }
  }

  /**
    * Whatever a sender has queued and however its socket split the bytes, a framer that has read any part of them,
    * in any chunks, has handed over the first queued frames in order, holds the start of the next, and its machine
    * refused nothing; once everything is out and read, it has handed over every frame.
    */
  lemma ReadsWhatWasQueued(capacity: nat, log: seq<Hop>, taken: seq<Byte>, buffered: seq<Byte>, arrived: seq<Byte>)
    requires log != [] && Legal(Start(StreamServer, NOTHING), log) && Accounted(capacity, log, taken, buffered)
    requires arrived <= taken
    ensures var v := Feed(capacity, Reader(Attached(log[0].frame)), FRESH, arrived);
            && v.failure == None && v.delivered <= Passed(log, true) && WireAll(v.delivered) + v.buffer == arrived
            && (arrived == taken && buffered == [] ==> v.delivered == Passed(log, true) && v.buffer == [])
  {
    var frames := Passed(log, true);
    ClientTakes(log);
    TakesWelcomes(Attached(log[0].frame), frames);
    LegalSendable(capacity, log);
    PartRecovered(capacity, Reader(Attached(log[0].frame)), frames, arrived);
    assert buffered == [] ==> taken == WireAll(frames);
  }
}
