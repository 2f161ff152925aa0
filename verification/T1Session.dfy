/** The host side of the T=1 link: block exchange, retransmission, chaining, reassembly and initialisation. */
module T1Session {
  import opened Errors
  import opened Sequences
  import opened T1Codec
  import opened CardAtr
  import opened T1Card
  import opened T1Link

  const MAX_RETRIES := 3
  const MAX_DISCARDS := 4
  const ATR_TIMEOUT := 1000
  // The longest a prompt card takes for its answer: 33 reads of one byte each.
  const ATR_COST := 231
  // The longest it takes to set a session up with a prompt card.
  const INIT_COST := 258

  /** The field size the host announces: 254 at 38400 baud, else the most its own frames hold. */
  function AdvertisedIfsd(acas: bool, useCrc: bool): Byte {
    if acas then 254 else if useCrc then 250 else 251
  }

  function IfsdFor(p: Params): Byte {
    AdvertisedIfsd(p.baud == Baud38400, p.useCrc)
  }

  /** What the host makes of the bytes of a frame so far, the last read having filled its buffer or not. */
  datatype Verdict = Incomplete | Complete | Malformed

  /** A ready signal announces a whole response, so a short read that misses its own length is malformed. */
  function Judge(useCrc: bool, frame: seq<Byte>, filled: bool): Verdict {
    if |frame| < 3 then Incomplete
    else if AnnouncedLength(useCrc, frame) > FRAME_MAX then Malformed
    else if |frame| >= AnnouncedLength(useCrc, frame) then Complete
    else if filled then Incomplete
    else Malformed
  }

  lemma JudgeOffered(useCrc: bool, x: Block)
    requires |x.inf| <= FIELD_MAX
    ensures var f := FrameOf(useCrc, x);
            var n := Min(FRAME_MAX, |f|);
            && 0 < n && Judge(useCrc, f[..n], n == FRAME_MAX) == (if |x.inf| <= MaxInf(useCrc) then Complete else Malformed)
            && (|x.inf| <= MaxInf(useCrc) ==> f[..n] == f)
  {
    FirstRead(useCrc, x);
  }

  /** A placeholder where no card is being tracked. */
  ghost const BLANK := Reader(_ => [], Atr([], DEFAULTS), Baud9600, Card(false, false, Receiving, [], 0, 1, None, [], [], false), None, [], false)

  class CardSession {
    var hw: Hardware
    var now: nat
    var initialized: bool
    var useCrc: bool
    var ifsc: nat
    var blockTimeout: nat
    var sendSeq: bool
    var recvSeq: bool
    var atr: Option<Atr>
    ghost var wire: seq<Event>
    // What the current command has done on the wire so far.
    ghost var books: Books
    // Set once a receive window or the operation deadline has run out since the session was set up.
    ghost var late: bool

    /** The card runs the same error-detection code as the session. */
    ghost predicate Linked()
      reads this
    {
      hw.peer.Conforming? ==> Genuine(hw.peer.reader) && hw.peer.reader.atr.params.useCrc == useCrc
    }

    constructor (hardware: Hardware, time: nat)
      requires hardware.peer.Conforming? ==> Genuine(hardware.peer.reader) && WholeAnswer(hardware.peer.reader.atr)
      ensures Valid() && hw == hardware && now == time && !initialized && !late && wire == []
    {
      hw, now, initialized, useCrc, ifsc, blockTimeout := hardware, time, false, false, 32, DEFAULT_TIMEOUT;
      sendSeq, recvSeq, atr, wire, late := false, false, None, [], false;
      books := Books([], [], [], []);
    }

    // ------------------------------------------------------ hardware calls

    method Poll() returns (r: Result<bool>)
      modifies `hw, `now, `wire
      ensures (hw, r) == DataReady(old(hw)) && now == old(now) + 1 + Elapsed(old(hw))
      ensures wire == old(wire) + if r.Failure? then [Fault(r.error)] else []
    {
      var (h, x) := DataReady(hw);
      now := now + 1 + Elapsed(hw);
      hw, r := h, x;
      wire := wire + if r.Failure? then [Fault(r.error)] else [];
    }

    method ReadChunk(room: nat) returns (r: Result<seq<Byte>>)
      modifies `hw, `now, `wire
      ensures (hw, r) == ReadData(old(hw), room) && now == old(now) + 1 + Elapsed(old(hw))
      ensures wire == old(wire) + [if r.Success? then Got(r.value) else Fault(r.error)]
    {
      var (h, x) := ReadData(hw, room);
      now := now + 1 + Elapsed(hw);
      hw, r := h, x;
      wire := wire + [if r.Success? then Got(r.value) else Fault(r.error)];
    }

    /** Writes the frame of b. */
    method WriteFrame(ghost b: Block, frame: seq<Byte>) returns (r: Result<Unit>)
      requires |b.inf| < 256 && frame == FrameOf(useCrc, b)
      requires hw.peer.Conforming? ==> Genuine(hw.peer.reader)
      modifies `hw, `now, `wire
      ensures (hw, r) == WriteData(old(hw), frame) && now == old(now) + 1 + Elapsed(old(hw))
      ensures wire == old(wire) + [Wrote(useCrc, b)]
    {
      var (h, x) := WriteData(hw, frame);
      now := now + 1 + Elapsed(hw);
      hw, r := h, x;
      wire := wire + [Wrote(useCrc, b)];
    }

    method DetectCard() returns (r: Result<bool>)
      modifies `hw, `now
      ensures (hw, r) == Detect(old(hw)) && now == old(now) + 1 + Elapsed(old(hw))
    {
      var (h, x) := Detect(hw);
      now := now + 1 + Elapsed(hw);
      hw, r := h, x;
    }

    method Reset() returns (r: Result<Unit>)
      modifies `hw, `now, `wire
      ensures (hw, r) == ResetCard(old(hw)) && now == old(now) + 1 + Elapsed(old(hw))
      ensures wire == old(wire) + [if r.Success? then DidReset else Fault(r.error)]
    {
      var (h, x) := ResetCard(hw);
      now := now + 1 + Elapsed(hw);
      hw, r := h, x;
      wire := wire + [if r.Success? then DidReset else Fault(r.error)];
    }

    method SetBaud(rate: Baud) returns (r: Result<Unit>)
      modifies `hw, `now, `wire
      ensures (hw, r) == SetRate(old(hw), rate) && now == old(now) + 1 + Elapsed(old(hw))
      ensures wire == old(wire) + [if r.Success? then SetTo(rate) else Fault(r.error)]
    {
      var (h, x) := SetRate(hw, rate);
      now := now + 1 + Elapsed(hw);
      hw, r := h, x;
      wire := wire + [if r.Success? then SetTo(rate) else Fault(r.error)];
    }

    // ---------------------------------------------------------- block layer

    /** Polls until data is there; a conforming card lets it fail only by letting the deadline pass. */
    method WaitDataReady(deadline: nat) returns (r: Result<Unit>)
      modifies `hw, `now, `wire
      ensures hw.peer == old(hw.peer) && now >= old(now)
      ensures r.Success? ==> wire == old(wire) && old(now) < deadline && (hw.peer.Conforming? ==> hw.peer.reader.pending != [])
      ensures r.Failure? ==> (r.error == TIMEOUT && now >= deadline && wire == old(wire)) || wire == old(wire) + [Fault(r.error)]
      ensures r.Failure? && hw.peer.Conforming? ==> r.error == TIMEOUT && now >= deadline && wire == old(wire)
      ensures Prompt(hw.peer) && hw.peer.reader.pending != [] && old(now) < deadline ==> r.Success? && now == old(now) + 1
    {
      while now < deadline
        invariant hw.peer == old(hw.peer) && now >= old(now) && wire == old(wire)
        invariant Prompt(hw.peer) && hw.peer.reader.pending != [] && old(now) < deadline ==> now == old(now)
        decreases Left(now, deadline)
      {
        var ready := Poll();
        if ready.Failure? { return Failure(ready.error); }
        if ready.value { return Success(Unit); }
        now := now + POLL_INTERVAL;
      }
      r := Failure(TIMEOUT);
    }

    /** The frame builder of the source, with its checksum loop. */
    method BuildFrame(b: Block) returns (r: Result<seq<Byte>>)
      ensures r == EncodeBlock(useCrc, b)
    {
      if |b.inf| > 254 || 3 + |b.inf| + EdcLength(useCrc) > FRAME_MAX {
        return Failure(INVALID_ARGUMENT);
      }
      var frame := Prologue(b.pcb, b.inf);
      if useCrc {
        var crc := CalculateCrc(frame);
        return Success(frame + [HighByte(crc), LowByte(crc)]);
      }
      var lrc: Byte := 0;
      for i := 0 to |frame|
        invariant lrc == Lrc(frame[..i])
      {
        assert frame[..i + 1][..i] == frame[..i];
        lrc := lrc ^ frame[i];
      }
      assert frame[..|frame|] == frame;
      r := Success(frame + [lrc]);
    }

    method SendBlock(b: Block) returns (r: Result<Unit>)
      requires Linked()
      modifies `hw, `now, `wire
      ensures SamePeer(old(hw.peer), hw.peer)
      ensures |b.inf| > MaxInf(useCrc) ==> r == Failure(INVALID_ARGUMENT) && hw == old(hw) && wire == old(wire) && now == old(now)
      ensures |b.inf| <= MaxInf(useCrc) ==>
                && (hw, r) == WriteData(old(hw), FrameOf(useCrc, b)) && now == old(now) + 1 + Elapsed(old(hw))
                && wire == old(wire) + [Wrote(useCrc, b)]
    {
      var frame := BuildFrame(b);
      if frame.Failure? { return Failure(frame.error); }
      WriteKeeps(hw, frame.value);
      r := WriteFrame(b, frame.value);
    }

    /** Reads one more chunk if there is one, and drops it; says whether there was. */
    method DiscardChunk() returns (r: Result<bool>)
      modifies `hw, `now, `wire
      ensures SamePeer(old(hw.peer), hw.peer) && now >= old(now)
      ensures old(wire) <= wire && NoWrites(wire, |old(wire)|) && Heard(old(wire)) <= Heard(wire)
      ensures old(hw.peer.Conforming? && hw.peer.reader.pending == []) ==> r == Success(false) && hw.peer == old(hw.peer)
      ensures old(Prompt(hw.peer) && hw.peer.reader.pending == []) ==> now == old(now) + 1
    {
      r := Success(false);
      var ready := Poll();
      HeardPoll(old(wire), ready);
      if ready.Failure? { return Failure(ready.error); }
      if !ready.value { return; }
      ReadKeeps(hw, FRAME_MAX);
      var read := ReadChunk(FRAME_MAX);
      HeardAppend(old(wire), wire[|old(wire)|]);
      if read.Failure? { return Failure(read.error); }
      if |read.value| > FRAME_MAX { return Failure(PROTOCOL_ERROR); }
      r := Success(read.value != []);
    }

    /** Drops what keeps arriving behind a complete frame. */
    method DiscardPendingData() returns (r: Result<Unit>)
      modifies `hw, `now, `wire
      ensures SamePeer(old(hw.peer), hw.peer) && now >= old(now)
      ensures old(wire) <= wire && NoWrites(wire, |old(wire)|) && Heard(old(wire)) <= Heard(wire)
      ensures old(hw.peer.Conforming? && hw.peer.reader.pending == []) ==> r.Success? && hw.peer == old(hw.peer)
      ensures old(Prompt(hw.peer) && hw.peer.reader.pending == []) ==> now == old(now) + 1
    {
      for count := 0 to MAX_DISCARDS
        invariant SamePeer(old(hw.peer), hw.peer) && now >= old(now)
        invariant old(wire) <= wire && NoWrites(wire, |old(wire)|) && Heard(old(wire)) <= Heard(wire)
        invariant old(hw.peer.Conforming? && hw.peer.reader.pending == []) ==> count == 0 && hw.peer == old(hw.peer) && now == old(now)
      {
        var more := DiscardChunk();
        if more.Failure? { return Failure(more.error); }
        if !more.value { return Success(Unit); }
      }
      r := Failure(PROTOCOL_ERROR);
    }

    /** Waits for data and reads what is there. */
    method ReadMore(deadline: nat) returns (r: Result<seq<Byte>>)
      modifies `hw, `now, `wire
      ensures SamePeer(old(hw.peer), hw.peer) && now >= old(now)
      ensures old(wire) <= wire && NoWrites(wire, |old(wire)|)
      ensures r.Success? ==> wire == old(wire) + [Got(r.value)] && |r.value| <= FRAME_MAX && old(now) < deadline
      ensures hw.peer.Conforming? && r.Failure? ==> r == Failure(TIMEOUT) && now >= deadline && hw.peer == old(hw.peer)
      ensures hw.peer.Conforming? && r.Success? && !old(hw.peer.reader.answering) ==>
                Taken(old(hw.peer.reader), FRAME_MAX, hw.peer.reader, r.value)
      ensures old(Prompt(hw.peer) && hw.peer.reader.pending != [] && now < deadline) ==> r.Success? && now == old(now) + 2
    {
      r := Failure(TIMEOUT);
      var ready := WaitDataReady(deadline);
      if ready.Failure? { return Failure(ready.error); }
      ReadKeeps(hw, FRAME_MAX);
      r := ReadChunk(FRAME_MAX);
      if r.Success? && |r.value| > FRAME_MAX { r := Failure(PROTOCOL_ERROR); }
    }

    /** One more read behind the bytes `frame`, and what the host makes of them now. */
    method ReadPart(deadline: nat, frame: seq<Byte>, ghost x: Option<Block>) returns (r: Result<seq<Byte>>, verdict: Verdict)
      requires Heard(wire) == frame
      requires x.Some? ==> frame == [] && Linked() && hw.peer.Conforming? && Offers(hw.peer.reader, x.value)
      modifies `hw, `now, `wire
      ensures SamePeer(old(hw.peer), hw.peer) && now >= old(now)
      ensures old(wire) <= wire && NoWrites(wire, |old(wire)|)
      ensures r.Success? ==> Heard(wire) == frame + r.value && old(now) < deadline
      ensures r.Success? ==> verdict == if r.value == [] then Incomplete else Judge(useCrc, frame + r.value, |r.value| == FRAME_MAX)
      ensures x.Some? ==>
                || (r == Failure(TIMEOUT) && now >= deadline)
                || (SameBut(old(hw.peer.reader), hw.peer.reader) && r.Success? && r.value != []
                    && Read(useCrc, x.value, r.value, verdict, hw.peer.reader.pending))
      ensures x.Some? && old(Prompt(hw.peer) && now < deadline) ==> r.Success? && now == old(now) + 2
    {
      verdict := Incomplete;
      if x.Some? { JudgeOffered(useCrc, x.value); }
      r := ReadMore(deadline);
      if r.Failure? { return; }
      HeardAppend(old(wire), Got(r.value));
      assert [] + r.value == r.value;
      if r.value != [] { verdict := Judge(useCrc, frame + r.value, |r.value| == FRAME_MAX); }
    }

    /**
     Reads until the announced length is reached; the flag tells whether the
     last read filled the buffer, so that more may follow. `x` is the block a
     tracked card has waiting.
     */
    method Accumulate(deadline: nat, ghost x: Option<Block>) returns (r: Result<(seq<Byte>, bool)>)
      requires Heard(wire) == []
      requires x.Some? ==> Linked() && hw.peer.Conforming? && Offers(hw.peer.reader, x.value)
      modifies `hw, `now, `wire
      ensures SamePeer(old(hw.peer), hw.peer) && now >= old(now)
      ensures old(wire) <= wire && NoWrites(wire, |old(wire)|)
      ensures r.Success? ==>
                && old(now) < deadline && Heard(wire) == r.value.0 && |r.value.0| >= 3
                && AnnouncedLength(useCrc, r.value.0) <= FRAME_MAX && AnnouncedLength(useCrc, r.value.0) <= |r.value.0|
      ensures x.Some? ==>
                || (r == Failure(TIMEOUT) && now >= deadline)
                || (SameBut(old(hw.peer.reader), hw.peer.reader) && r == Collected(useCrc, x.value)
                    && (r.Success? ==> hw.peer.reader.pending == []))
      ensures x.Some? && old(Prompt(hw.peer) && now < deadline) ==> r == Collected(useCrc, x.value) && now == old(now) + 2
    {
      var frame := [];
      while now < deadline
        invariant SamePeer(old(hw.peer), hw.peer) && now >= old(now)
        invariant old(wire) <= wire && NoWrites(wire, |old(wire)|) && Heard(wire) == frame
        invariant x.Some? ==> frame == [] && hw.peer == old(hw.peer) && now == old(now)
        decreases Left(now, deadline)
      {
        var read, verdict := ReadPart(deadline, frame, x);
        if read.Failure? { return Failure(read.error); }
        assert frame == [] ==> frame + read.value == read.value;
        frame := frame + read.value;
        if verdict == Malformed { return Failure(PROTOCOL_ERROR); }
        if verdict == Complete { return Success((frame, |read.value| == FRAME_MAX)); }
        now := now + POLL_INTERVAL;
      }
      r := Failure(TIMEOUT);
    }

    /** The acceptance tests of the source on a frame of exactly its announced length. */
    method CheckFrame(frame: seq<Byte>) returns (r: Result<Block>)
      requires |frame| >= 3 && |frame| == AnnouncedLength(useCrc, frame)
      ensures r == ParseFrame(useCrc, frame)
    {
      if frame[0] != 0 { return Failure(PROTOCOL_ERROR); }
      if useCrc {
        var crc := CalculateCrc(frame[..|frame| - 2]);
        if crc != Word(frame[|frame| - 2], frame[|frame| - 1]) { return Failure(PROTOCOL_ERROR); }
      } else {
        var lrc: Byte := 0;
        for i := 0 to |frame|
          invariant lrc == Lrc(frame[..i])
        {
          assert frame[..i + 1][..i] == frame[..i];
          lrc := lrc ^ frame[i];
        }
        assert frame[..|frame|] == frame;
        if lrc != 0 { return Failure(PROTOCOL_ERROR); }
      }
      r := Success(Block(frame[1], frame[3..3 + frame[2] as int]));
    }

    /** Receives one block. With a conforming card only a window that ran out keeps the waiting block from being judged. */
    method ReceiveBlock(deadline: nat, ghost x: Option<Block>) returns (r: Result<Block>)
      requires Heard(wire) == []
      requires x.Some? ==> Linked() && hw.peer.Conforming? && Offers(hw.peer.reader, x.value)
      modifies `hw, `now, `wire, `late
      ensures SamePeer(old(hw.peer), hw.peer) && now >= old(now)
      ensures old(wire) <= wire && NoWrites(wire, |old(wire)|)
      ensures (old(late) ==> late) && (late ==> old(late) || now >= deadline)
      ensures r.Success? ==> Answered(wire, useCrc, r.value) && old(now) < deadline
      ensures x.Some? ==> late || (SameBut(old(hw.peer.reader), hw.peer.reader) && r == Received(useCrc, x.value))
      ensures x.Some? && old(Prompt(hw.peer) && now < deadline) ==> now <= old(now) + 3 && late == old(late)
    {
      var read := Accumulate(deadline, x);
      if read.Failure? {
        late := late || (read.error == TIMEOUT && now >= deadline);
        return Failure(read.error);
      }
      if x.Some? { CollectedWhole(useCrc, x.value, read.value); }
      r := AcceptFrame(read.value.0, read.value.1, x);
    }

    /** Cuts a frame to its announced length, drops what follows it, and checks it. */
    method AcceptFrame(bytes: seq<Byte>, filled: bool, ghost x: Option<Block>) returns (r: Result<Block>)
      requires Heard(wire) == bytes && |bytes| >= 3
      requires AnnouncedLength(useCrc, bytes) <= FRAME_MAX && AnnouncedLength(useCrc, bytes) <= |bytes|
      requires x.Some? ==> hw.peer.Conforming? && hw.peer.reader.pending == []
                           && |bytes| == AnnouncedLength(useCrc, bytes) && ParseFrame(useCrc, bytes) == Success(x.value)
      modifies `hw, `now, `wire
      ensures SamePeer(old(hw.peer), hw.peer) && now >= old(now)
      ensures old(wire) <= wire && NoWrites(wire, |old(wire)|)
      ensures r.Success? ==> Answered(wire, useCrc, r.value)
      ensures x.Some? ==> r == Success(x.value) && hw.peer == old(hw.peer) && (old(Prompt(hw.peer)) ==> now <= old(now) + 1)
    {
      var expected := AnnouncedLength(useCrc, bytes);
      var frame := bytes[..expected];
      assert |bytes| == expected ==> frame == bytes;
      if |bytes| > expected || filled {
        var discarded := DiscardPendingData();
        if discarded.Failure? { return Failure(discarded.error); }
      }
      r := CheckFrame(frame);
      FrameHeard(wire, bytes, useCrc, r);
    }

    /** What a card that has emitted `reply` turns a receive into. */
    method ReceiveEmitted(deadline: nat, ghost tracked: bool, ghost base: Reader, ghost reply: Block) returns (r: Result<Block>)
      requires Heard(wire) == [] && Linked()
      requires tracked ==> !late && hw.peer.Conforming? && AboutToSend(base, reply) && Emitted(base, reply, hw.peer.reader)
      modifies `hw, `now, `wire, `late
      ensures SamePeer(old(hw.peer), hw.peer) && now >= old(now)
      ensures old(wire) <= wire && NoWrites(wire, |old(wire)|)
      ensures (old(late) ==> late) && (late ==> old(late) || now >= deadline)
      ensures r.Success? ==> Answered(wire, useCrc, r.value) && old(now) < deadline
      ensures tracked ==> late || Delivered(useCrc, base, reply, r, hw.peer.reader)
      ensures tracked && old(Prompt(hw.peer) && hw.peer.reader.held.None? && now < deadline) ==>
                now <= old(now) + 3 && !late && r == Received(useCrc, reply)
    {
      ghost var x := None;
      if tracked {
        var waiting := EmittedOffers(base, reply, hw.peer.reader);
        x := Some(waiting);
      }
      r := ReceiveBlock(deadline, x);
    }

    method GrantTime(multiplier: Byte, ghost tracked: bool, ghost base: Reader, ghost reply: Block) returns (r: Result<Unit>)
      requires Linked() && multiplier != 0 && Answered(wire, useCrc, Block(WTX_REQUEST, [multiplier]))
      requires tracked ==> hw.peer.Conforming? && AboutToSend(base, reply) && SameBut(base.(held := Some(Held(reply, multiplier))), hw.peer.reader)
      modifies `hw, `now, `wire
      ensures SamePeer(old(hw.peer), hw.peer) && now > old(now)
      ensures old(wire) <= wire && OnlyGrants(wire, |old(wire)|, useCrc) && Heard(wire) == []
      ensures tracked ==> r.Success? && hw.peer.Conforming? && Emitted(base, reply, hw.peer.reader)
    {
      var b := Block(WTX_RESPONSE, [multiplier]);
      HeardAppend(wire, Wrote(useCrc, b));
      GrantGranted(wire, useCrc, Block(WTX_REQUEST, [multiplier]));
      if tracked { GrantEmits(hw, base, reply, multiplier); }
      r := SendBlock(b);
    }

    /**
     Waits for the answer to the block just written, granting extensions on the
     way. `fatal` marks the failures that end the exchange without a retry.
     */
    method AwaitReply(window: nat, deadline: nat, ghost tracked: bool, ghost base: Reader, ghost reply: Block)
      returns (r: Result<Block>, fatal: bool)
      requires Heard(wire) == [] && Linked() && window <= deadline
      requires tracked ==> !late && hw.peer.Conforming? && AboutToSend(base, reply) && Emitted(base, reply, hw.peer.reader)
      modifies `hw, `now, `wire, `late
      ensures SamePeer(old(hw.peer), hw.peer) && now >= old(now)
      ensures old(wire) <= wire && OnlyGrants(wire, |old(wire)|, useCrc)
      ensures (old(late) ==> late) && (late ==> old(late) || now >= window)
      ensures r.Success? ==> Answered(wire, useCrc, r.value) && r.value.pcb != WTX_REQUEST && !fatal
      ensures tracked ==> late || (r == Received(useCrc, reply) && SameBut(base, hw.peer.reader) && !fatal)
      ensures tracked && old(Prompt(hw.peer) && hw.peer.reader.held.None? && now < window) ==> now <= old(now) + 3 && !late
    {
      fatal := false;
      r := ReceiveEmitted(window, tracked, base, reply);
      while r.Success? && r.value.pcb == WTX_REQUEST
        invariant SamePeer(old(hw.peer), hw.peer) && now >= old(now)
        invariant old(wire) <= wire && OnlyGrants(wire, |old(wire)|, useCrc)
        invariant (old(late) ==> late) && (late ==> old(late) || now >= window)
        invariant !fatal && (r.Success? ==> Answered(wire, useCrc, r.value))
        invariant tracked ==> late || Delivered(useCrc, base, reply, r, hw.peer.reader)
        invariant tracked && old(Prompt(hw.peer) && hw.peer.reader.held.None? && now < window) ==>
                    now <= old(now) + 3 && !late && r == Received(useCrc, reply)
        decreases Left(now, deadline), r.Success?
      {
        ghost var before := wire;
        r, fatal := Extend(r.value, deadline, tracked && !late, base, reply);
        GrantsThenMore(before, wire, |old(wire)|, useCrc);
        if fatal { return; }
      }
    }

    /** Grants the waiting time asked for in `request` and receives again. */
    method Extend(request: Block, deadline: nat, ghost tracked: bool, ghost base: Reader, ghost reply: Block)
      returns (r: Result<Block>, fatal: bool)
      requires Linked() && request.pcb == WTX_REQUEST && Answered(wire, useCrc, request)
      requires tracked ==> !late && hw.peer.Conforming? && AboutToSend(base, reply)
                           && AsksForTime(request) && SameBut(base.(held := Some(Held(reply, request.inf[0]))), hw.peer.reader)
      modifies `hw, `now, `wire, `late
      ensures SamePeer(old(hw.peer), hw.peer) && now >= old(now)
      ensures old(wire) <= wire && OnlyGrants(wire, |old(wire)|, useCrc)
      ensures (old(late) ==> late) && (late ==> old(late) || now >= deadline)
      ensures r.Success? ==> Answered(wire, useCrc, r.value) && !fatal && old(now) < deadline && now > old(now)
      ensures tracked ==> late || (Delivered(useCrc, base, reply, r, hw.peer.reader) && !fatal)
    {
      if |request.inf| != 1 || request.inf[0] == 0 {
        return Failure(PROTOCOL_ERROR), true;
      }
      assert request == Block(WTX_REQUEST, [request.inf[0]]);
      var sent := GrantTime(request.inf[0], tracked, base, reply);
      if sent.Failure? { return Failure(sent.error), true; }
      fatal := false;
      ghost var before := wire;
      r := ReceiveEmitted(deadline, tracked, base, reply);
      GrantsThenNone(before, wire, |old(wire)|, useCrc);
    }

    /** A conforming card at rest that will take b. */
    ghost predicate Tracks(b: Block)
      reads this
    {
      hw.peer.Conforming? && Idle(hw.peer.reader) && |b.inf| <= MaxInf(useCrc) && b.pcb != WTX_RESPONSE && !late
    }

    /** Since t0, being late means that a window or the deadline ran out, and a prompt card costs no more than this. */
    ghost predicate Timely(t0: nat, late0: bool, prompt: bool, slack: nat, cost: nat, deadline: nat)
      reads this
    {
      InTime(t0, late0, now, late, prompt, slack, cost, blockTimeout, deadline)
    }

    /** One round of an exchange: the block goes out and its answer comes back. */
    method Attempt(b: Block, deadline: nat, ghost tracked: bool) returns (r: Result<Block>, fatal: bool, ghost reply: Block)
      requires Linked() && (tracked ==> Tracks(b))
      modifies `hw, `now, `wire, `late
      ensures SamePeer(old(hw.peer), hw.peer) && old(wire) <= wire
      ensures |b.inf| <= MaxInf(useCrc) ==> Sends(wire, |old(wire)|, useCrc, b)
      ensures Timely(old(now), old(late), tracked && old(Prompt(hw.peer)), 4, 4, deadline)
      ensures r.Success? ==> Turn(wire, |old(wire)|, useCrc, b, r.value) && |b.inf| <= MaxInf(useCrc) && now > old(now)
      ensures tracked ==>
                || late
                || (&& Idle(hw.peer.reader) && r == Received(useCrc, reply) && !fatal
                    && Stepped(MakeOf(hw.peer.reader), old(hw.peer.reader.card), MessageOf(b), hw.peer.reader.card, MessageOf(reply)))
    {
      fatal := true;
      ghost var base := BLANK;
      reply := b;
      if tracked {
        var card, x := BlockEmits(hw, b);
        base, reply := hw.peer.reader.(card := card), x;
      }
      var sent := SendBlock(b);
      if sent.Failure? { return Failure(sent.error), true, reply; }
      HeardAppend(old(wire), Wrote(useCrc, b));
      var window := DeadlineAfter(now, blockTimeout);
      if deadline < window { window := deadline; }
      r, fatal := AwaitReply(window, deadline, tracked, base, reply);
      SendsThenGrants(old(wire), wire, useCrc, b);
    }

    /** The n-th attempt at an exchange that began with a tracked card in state c0. */
    method Pursue(b: Block, deadline: nat, ghost tracked: bool, ghost c0: Card, ghost x: Option<Message>, ghost n: nat)
      returns (r: Result<Block>, done: bool, ghost y: Option<Message>)
      requires Linked()
      requires tracked ==> Tracks(b) && Aligned(useCrc, c0, MessageOf(b))
                           && Pursued(MakeOf(hw.peer.reader), c0, MessageOf(b), hw.peer.reader.card, x, n)
      modifies `hw, `now, `wire, `late
      ensures SamePeer(old(hw.peer), hw.peer) && old(wire) <= wire
      ensures |b.inf| <= MaxInf(useCrc) ==> Sends(wire, |old(wire)|, useCrc, b)
      ensures Timely(old(now), old(late), tracked && old(Prompt(hw.peer)), 4, 4, deadline)
      ensures r.Success? ==> done && Turn(wire, |old(wire)|, useCrc, b, r.value) && |b.inf| <= MaxInf(useCrc) && now > old(now)
      ensures tracked ==> late || (Idle(hw.peer.reader) && (r.Success? && MessageOf(b).control.R? ==> n == 0))
      ensures tracked && done ==> late || Exchanged(MakeOf(hw.peer.reader), c0, MessageOf(b), hw.peer.reader.card, AsMessage(r))
      ensures tracked && !done ==> late || Pursued(MakeOf(hw.peer.reader), c0, MessageOf(b), hw.peer.reader.card, y, n + 1)
    {
      var fatal;
      ghost var reply;
      r, fatal, reply := Attempt(b, deadline, tracked);
      done := r.Success? || fatal || (r.error != TIMEOUT && r.error != PROTOCOL_ERROR);
      y := Some(MessageOf(reply));
      if tracked && !late {
        PursueOnce(MakeOf(hw.peer.reader), c0, MessageOf(b), old(hw.peer.reader.card), x, n, hw.peer.reader.card, MessageOf(reply));
      }
    }

    /** Where an exchange stands after some attempts, as far as a tracked card is concerned. */
    ghost predicate Stands(c0: Card, b: Block, r: Result<Block>, done: bool, x: Option<Message>, retry: nat)
      reads this
    {
      && hw.peer.Conforming? && Idle(hw.peer.reader) && (r.Success? && MessageOf(b).control.R? ==> retry == 1)
      && if done then Exchanged(MakeOf(hw.peer.reader), c0, MessageOf(b), hw.peer.reader.card, AsMessage(r))
         else Pursued(MakeOf(hw.peer.reader), c0, MessageOf(b), hw.peer.reader.card, x, retry)
    }

    /** Attempts an exchange until it is done, the retries are used up, or the deadline is past. */
    method Persist(b: Block, deadline: nat, maxRetries: nat, ghost tracked: bool, ghost c0: Card)
      returns (r: Result<Block>, done: bool, ghost retry: nat, ghost x: Option<Message>)
      requires Linked()
      requires tracked ==> Tracks(b) && Aligned(useCrc, c0, MessageOf(b)) && hw.peer.reader.card == c0
      modifies `hw, `now, `wire, `late
      ensures SamePeer(old(hw.peer), hw.peer) && old(wire) <= wire
      ensures retry <= maxRetries && (!done ==> retry == maxRetries || now >= deadline)
      ensures if retry == 0 then !done && wire == old(wire) && now == old(now)
              else old(now) < deadline && (|b.inf| <= MaxInf(useCrc) ==> Sends(wire, |old(wire)|, useCrc, b))
      ensures Timely(old(now), old(late), tracked && old(Prompt(hw.peer)), 4 * retry, 4 * retry, deadline)
      ensures r.Success? ==> done && retry > 0 && Turn(wire, |old(wire)|, useCrc, b, r.value) && now > old(now)
      ensures tracked && !late ==> Stands(c0, b, r, done, x, retry)
    {
      x, retry, done := None, 0, false;
      r := Failure(PROTOCOL_ERROR);
      var tries := 0;
      while tries < maxRetries && !done && now < deadline
        invariant tries == retry <= maxRetries && SamePeer(old(hw.peer), hw.peer) && old(wire) <= wire
        invariant if retry == 0 then !done && wire == old(wire) && now == old(now)
                  else old(now) < deadline && (|b.inf| <= MaxInf(useCrc) ==> Sends(wire, |old(wire)|, useCrc, b))
        invariant Timely(old(now), old(late), tracked && old(Prompt(hw.peer)), 4 * retry, 4 * retry, deadline)
        invariant r.Success? ==> done && retry > 0 && Turn(wire, |old(wire)|, useCrc, b, r.value) && now > old(now)
        invariant tracked && !late ==> Stands(c0, b, r, done, x, retry)
      {
        ghost var before := wire;
        r, done, x := Pursue(b, deadline, tracked && !late, c0, x, retry);
        if |b.inf| <= MaxInf(useCrc) { SendsAgain(before, wire, |old(wire)|, useCrc, b); }
        tries, retry := tries + 1, retry + 1;
      }
    }

    /** Sends a block and returns its answer, sending it again after a timeout or a damaged answer. */
    method ExchangeBlock(b: Block, deadline: nat, maxRetries: nat, ghost tracked: bool) returns (r: Result<Block>)
      requires Linked() && maxRetries > 0
      requires tracked ==> Tracks(b) && Aligned(useCrc, hw.peer.reader.card, MessageOf(b)) && (MessageOf(b).control.S? || maxRetries > 1)
      modifies `hw, `now, `wire, `late
      ensures SamePeer(old(hw.peer), hw.peer) && old(wire) <= wire
      ensures old(now) < deadline && |b.inf| <= MaxInf(useCrc) ==> Sends(wire, |old(wire)|, useCrc, b)
      ensures Timely(old(now), old(late), tracked && old(Prompt(hw.peer)), 4 * maxRetries, 4 * maxRetries, deadline)
      ensures r.Success? ==> Turn(wire, |old(wire)|, useCrc, b, r.value) && now > old(now) && old(now) < deadline
      ensures tracked ==>
                || late
                || (Idle(hw.peer.reader)
                    && Exchanged(MakeOf(hw.peer.reader), old(hw.peer.reader.card), MessageOf(b), hw.peer.reader.card, AsMessage(r)))
      ensures tracked && r.Success? && MessageOf(b).control.R? ==> Timely(old(now), old(late), old(Prompt(hw.peer)), 4 * maxRetries, 4, deadline)
    {
      ghost var c0 := if tracked then hw.peer.reader.card else BLANK.card;
      var done;
      ghost var retry, x;
      r, done, retry, x := Persist(b, deadline, maxRetries, tracked, c0);
      if !done {
        late := late || now >= deadline;
        r := Failure(if now >= deadline then TIMEOUT else PROTOCOL_ERROR);
        if tracked && !late { PursuedOut(MakeOf(hw.peer.reader), c0, MessageOf(b), hw.peer.reader.card, x, retry); }
      }
    }

    // -------------------------------------------------------- command layer

    /** Since the command began, the wire holds its rounds and nothing else, and the books agree with them. */
    ghost predicate Booked()
      reads this
    {
      Ledger(wire, useCrc, books)
    }

    /** A conforming card that is listening, and no window has run out. */
    ghost predicate Ready()
      reads this
    {
      hw.peer.Conforming? && Idle(hw.peer.reader) && hw.peer.reader.atr.params.useCrc == useCrc && !late
    }

    /** The card is the same, what is on the wire stays there, and the books are those of the same command. */
    ghost predicate Onward(peer: Peer, before: seq<Event>, was: Books)
      reads this
    {
      SamePeer(peer, hw.peer) && before <= wire && books.prelude == was.prelude
    }

    /** An exchange as the command layer sees it: what is booked and how a tracked card moves. */
    method Swap(m: Message, deadline: nat, ghost tracked: bool) returns (r: Result<Message>)
      requires Linked() && Plain(m) && Booked()
      requires tracked ==> Ready() && !m.control.S? && |m.inf| <= MaxInf(useCrc) && Aligned(useCrc, hw.peer.reader.card, m)
      modifies `hw, `now, `wire, `late, `books
      ensures Onward(old(hw.peer), old(wire), old(books))
      ensures r.Success? ==> Booked() && now > old(now) && old(now) < deadline
      ensures books.accepted == old(books.accepted) + if r.Success? && Accepts(m, r.value) then [m] else []
      ensures books.replies == old(books.replies) + if r.Success? && r.value.control.I? then [r.value] else []
      ensures Timely(old(now), old(late), tracked && old(Prompt(hw.peer)), 12, if r.Success? && m.control.R? then 4 else 12, deadline)
      ensures tracked ==> late || (Ready() && Exchanged(MakeOf(hw.peer.reader), old(hw.peer.reader.card), m, hw.peer.reader.card, r))
    {
      MessageOfBlock(m, 0);
      var b := BlockOf(m, 0);
      var x := ExchangeBlock(b, deadline, MAX_RETRIES, tracked);
      if x.Failure? { return Failure(x.error); }
      r := Success(MessageOf(x.value));
      Enter(old(wire), m, x.value);
    }

    /** Books the round that took the wire from `before` to where it is. */
    ghost method Enter(before: seq<Event>, m: Message, x: Block)
      requires before <= wire && Turn(wire, |before|, useCrc, BlockOf(m, 0), x) && Ledger(before, useCrc, books)
      modifies `books
      ensures Booked() && exists events :: books == Booking(old(books), Exchange(m, MessageOf(x), x, events))
    {
      var e := Exchange(m, MessageOf(x), x, wire[|before|..]);
      assert before + e.events == wire;
      TurnAlone(before, e.events, useCrc, m, x);
      LedgerGrows(before, useCrc, books, e);
      books := Booking(books, e);
    }

    /** A conforming card waits for the host's next I-block and both sides agree on the sequence bits. */
    ghost predicate InStep()
      reads this
    {
      && Ready()
      && var c := hw.peer.reader.card;
         c.phase == Receiving && c.rejects == 0 && c.nr == sendSeq && c.ns == recvSeq
    }

    /** A field that the host may send and the card takes. */
    ghost predicate Takable(data: seq<Byte>)
      reads this
    {
      |data| <= MaxInf(useCrc) && (hw.peer.Conforming? ==> |data| <= hw.peer.reader.atr.params.ifsc)
    }

    /** How a tracked card, in state c0 at first, stands after n refusals or after taking the block. */
    ghost predicate Offered(c0: Card, m: Message, n: nat, again: bool, r: Result<Message>)
      reads this
    {
      && Ready() && m.control.I? && r.Success?
      && if again then n < REJECT_LIMIT && hw.peer.reader.card == Refused(c0, n)
         else Took(MakeOf(hw.peer.reader), c0, m.inf, m.control.more, hw.peer.reader.card, r.value)
    }

    /** Offers an I-block once; `again` says that the card asked for the same block. */
    method OfferChunk(m: Message, deadline: nat, ghost tracked: bool, ghost c0: Card, ghost n: nat) returns (r: Result<Message>, again: bool)
      requires Linked() && Booked() && m.control.I? && m.control.ns == sendSeq
      requires tracked ==> InStepBut(c0, n) && Takable(m.inf)
      modifies `hw, `now, `wire, `late, `books
      ensures Onward(old(hw.peer), old(wire), old(books))
      ensures Timely(old(now), old(late), tracked && old(Prompt(hw.peer)), 12, 12, deadline)
      ensures r.Success? ==> Booked()
      ensures again ==> r.Success? && books.accepted == old(books.accepted) && books.replies == old(books.replies)
      ensures r.Success? && !again ==> books.accepted == old(books.accepted) + [m] && Acknowledged(old(books.replies), m, r.value)
      ensures tracked ==> late || Offered(c0, m, n + 1, again, r)
    {
      again := false;
      r := Swap(m, deadline, tracked);
      if tracked && !late { ChunkStep(MakeOf(hw.peer.reader), c0, n, m.inf, m.control.more, hw.peer.reader.card, r); }
      if r.Failure? { return; }
      match r.value.control
      case R(requested) => again := requested == sendSeq;
      case I(_, _) => if m.control.more { r := Failure(PROTOCOL_ERROR); }
      case S(_) => r := Failure(PROTOCOL_ERROR);
    }

    /** As in step with a card in state c0 that has refused the block n times. */
    ghost predicate InStepBut(c0: Card, n: nat)
      reads this
    {
      Ready() && hw.peer.reader.card == Refused(c0, n) && c0.phase == Receiving && c0.nr == sendSeq
    }

    /** Sends one I-block until the card accepts it. */
    method SendChunk(data: seq<Byte>, more: bool, deadline: nat, ghost tracked: bool) returns (r: Result<Message>)
      requires Linked() && Booked() && (tracked ==> InStep() && Takable(data))
      modifies `hw, `now, `wire, `late, `books
      ensures Onward(old(hw.peer), old(wire), old(books))
      ensures Timely(old(now), old(late), tracked && old(Prompt(hw.peer)), 36, 36, deadline)
      ensures r.Success? ==>
                && Booked() && books.accepted == old(books.accepted) + [Message(I(sendSeq, more), data)]
                && Acknowledged(old(books.replies), Message(I(sendSeq, more), data), r.value)
      ensures tracked ==> late || (Ready() && Placed(MakeOf(hw.peer.reader), old(hw.peer.reader.card), data, more, hw.peer.reader.card, r))
    {
      var m := Message(I(sendSeq, more), data);
      ghost var c0 := if tracked then hw.peer.reader.card else BLANK.card;
      var again;
      r, again := OfferRepeatedly(m, deadline, tracked, c0);
      if tracked && !late { TookMeans(MakeOf(hw.peer.reader), c0, data, more, hw.peer.reader.card, r.value); }
      if again { r := Failure(PROTOCOL_ERROR); }
    }

    /** Offers an I-block until it is accepted or the retries are used up. */
    method OfferRepeatedly(m: Message, deadline: nat, ghost tracked: bool, ghost c0: Card) returns (r: Result<Message>, again: bool)
      requires Linked() && Booked() && m.control.I? && m.control.ns == sendSeq
      requires tracked ==> InStepBut(c0, 0) && Takable(m.inf)
      modifies `hw, `now, `wire, `late, `books
      ensures Onward(old(hw.peer), old(wire), old(books))
      ensures Timely(old(now), old(late), tracked && old(Prompt(hw.peer)), 36, 36, deadline)
      ensures r.Success? && !again ==> Booked() && books.accepted == old(books.accepted) + [m] && Acknowledged(old(books.replies), m, r.value)
      ensures tracked ==> late || Offered(c0, m, MAX_RETRIES, again, r)
    {
      var retry := 0;
      r, again := Success(m), true;
      while retry < MAX_RETRIES && again
        invariant retry <= MAX_RETRIES && Onward(old(hw.peer), old(wire), old(books))
        invariant again ==> r.Success? && Booked() && books.accepted == old(books.accepted) && books.replies == old(books.replies)
        invariant r.Success? && !again ==> Booked() && books.accepted == old(books.accepted) + [m] && Acknowledged(old(books.replies), m, r.value)
        invariant Timely(old(now), old(late), tracked && old(Prompt(hw.peer)), 12 * retry, 12 * retry, deadline)
        invariant tracked && !late ==> Offered(c0, m, retry, again, r)
        decreases MAX_RETRIES - retry
      {
        r, again := OfferChunk(m, deadline, tracked && !late, c0, retry);
        retry := retry + 1;
      }
    }

    /** The answer that accepted m, and what it added to the replies. */
    ghost predicate Acknowledged(before: seq<Message>, m: Message, reply: Message)
      reads this
    {
      match reply.control
      case R(_) => books.replies == before
      case I(_, _) => m.control.I? && !m.control.more && books.replies == before + [reply]
      case S(_) => false
    }

    /** How a tracked card, in state c0 at first, stands after n deferrals or after replying. */
    ghost predicate Asked(c0: Card, total: seq<Byte>, n: nat, again: bool, r: Result<Message>)
      reads this
    {
      && Ready()
      && if again then n < REJECT_LIMIT && Deferring(useCrc, c0, total, n, hw.peer.reader.card)
         else Polled(MakeOf(hw.peer.reader), c0, total, hw.peer.reader.card, r)
    }

    /** Asks once for the reply; `again` says that the card deferred it. */
    method AskReply(deadline: nat, ghost tracked: bool, ghost c0: Card, ghost total: seq<Byte>, ghost n: nat) returns (r: Result<Message>, again: bool)
      requires Linked() && Booked() && (tracked ==> Wanted(c0) == recvSeq && Asked(c0, total, n, true, Failure(TIMEOUT)))
      modifies `hw, `now, `wire, `late, `books
      ensures Onward(old(hw.peer), old(wire), old(books)) && books.accepted == old(books.accepted)
      ensures Timely(old(now), old(late), tracked && old(Prompt(hw.peer)), 12, 12, deadline)
      ensures again ==> r == Failure(PROTOCOL_ERROR) && Booked() && books.replies == old(books.replies)
      ensures r.Success? ==> Booked() && r.value.control.I? && books.replies == old(books.replies) + [r.value]
      ensures tracked ==> late || Asked(c0, total, n + 1, again, r)
    {
      again := false;
      ghost var c := if tracked then hw.peer.reader.card else BLANK.card;
      r := Swap(Message(R(recvSeq), []), deadline, tracked);
      if tracked && !late { AskStep(MakeOf(hw.peer.reader), c0, total, n, c, hw.peer.reader.card, r); }
      if r.Success? && !r.value.control.I? {
        again := r.value.control.R?;
        r := Failure(PROTOCOL_ERROR);
      }
    }

    /** Asks for a response the card acknowledged but has not started, until it comes or the retries are used up. */
    method PollResponse(deadline: nat, ghost tracked: bool, ghost c0: Card, ghost total: seq<Byte>) returns (r: Result<Message>)
      requires Linked() && Booked() && (tracked ==> Wanted(c0) == recvSeq && Asked(c0, total, 0, true, Failure(TIMEOUT)))
      modifies `hw, `now, `wire, `late, `books
      ensures Onward(old(hw.peer), old(wire), old(books)) && books.accepted == old(books.accepted)
      ensures Timely(old(now), old(late), tracked && old(Prompt(hw.peer)), 36, 36, deadline)
      ensures r.Success? ==> Booked() && r.value.control.I? && books.replies == old(books.replies) + [r.value]
      ensures tracked ==> late || Asked(c0, total, MAX_RETRIES, false, r)
    {
      var retry, again := 0, true;
      r := Failure(PROTOCOL_ERROR);
      while retry < MAX_RETRIES && again
        invariant retry <= MAX_RETRIES && Onward(old(hw.peer), old(wire), old(books)) && books.accepted == old(books.accepted)
        invariant again ==> r == Failure(PROTOCOL_ERROR) && Booked() && books.replies == old(books.replies)
        invariant r.Success? ==> Booked() && r.value.control.I? && books.replies == old(books.replies) + [r.value]
        invariant Timely(old(now), old(late), tracked && old(Prompt(hw.peer)), 12 * retry, 12 * retry, deadline)
        invariant tracked && !late ==> Asked(c0, total, retry, again, r)
        decreases MAX_RETRIES - retry
      {
        r, again := AskReply(deadline, tracked && !late, c0, total, retry);
        retry := retry + 1;
      }
    }

    /** Gets one I-block accepted and, for the last one, the first block of the response. */
    method Deliver(data: seq<Byte>, more: bool, deadline: nat, ghost tracked: bool) returns (r: Result<Message>)
      requires Linked() && Booked() && (tracked ==> InStep() && Takable(data))
      modifies `hw, `now, `wire, `late, `books, `sendSeq
      ensures Onward(old(hw.peer), old(wire), old(books))
      ensures Timely(old(now), old(late), tracked && old(Prompt(hw.peer)), 72, 72, deadline)
      ensures r.Success? ==>
                && Booked() && sendSeq == !old(sendSeq) && books.accepted == old(books.accepted) + [Message(I(old(sendSeq), more), data)]
                && (if more then books.replies == old(books.replies) else r.value.control.I? && books.replies == old(books.replies) + [r.value])
      ensures tracked ==> late || (Ready() && Handed(MakeOf(hw.peer.reader), old(hw.peer.reader.card), data, more, hw.peer.reader.card, r))
    {
      ghost var c0 := if tracked then hw.peer.reader.card else BLANK.card;
      r := SendChunk(data, more, deadline, tracked);
      if r.Success? && !more && r.value.control.R? { r := FetchReply(deadline, tracked && !late, c0, data); }
      if r.Success? { sendSeq := !sendSeq; }
    }

    /** Gets the first block of a response that the card acknowledged but did not start. */
    method FetchReply(deadline: nat, ghost tracked: bool, ghost c0: Card, ghost data: seq<Byte>) returns (r: Result<Message>)
      requires Linked() && Booked()
      requires tracked ==> Ready() && c0.ns == recvSeq && Deferred(MakeOf(hw.peer.reader), c0, data, hw.peer.reader.card)
      modifies `hw, `now, `wire, `late, `books
      ensures Onward(old(hw.peer), old(wire), old(books)) && books.accepted == old(books.accepted)
      ensures Timely(old(now), old(late), tracked && old(Prompt(hw.peer)), 36, 36, deadline)
      ensures r.Success? ==> Booked() && r.value.control.I? && books.replies == old(books.replies) + [r.value]
      ensures tracked ==> late || (Ready() && Handed(MakeOf(hw.peer.reader), c0, data, false, hw.peer.reader.card, r))
    {
      ghost var c := if tracked then hw.peer.reader.card else BLANK.card;
      ghost var total := if tracked then ReplyTo(MakeOf(hw.peer.reader), c0, data) else [];
      if tracked { DeferredOwes(MakeOf(hw.peer.reader), c0, data, c); }
      r := PollResponse(deadline, tracked, c, total);
      if tracked && !late { PolledHands(MakeOf(hw.peer.reader), c0, data, c, hw.peer.reader.card, r); }
    }

    /** The largest field the host sends. */
    function FieldSize(): (n: nat)
      requires ifsc >= 1
      reads `ifsc, `useCrc
      ensures 1 <= n <= MaxInf(useCrc) && n <= ifsc
    {
      Min(ifsc, MaxInf(useCrc))
    }

    /** How a tracked card, in state c0 at first, stands with `offset` bytes of the command handed over. */
    ghost predicate Sending(c0: Card, apdu: seq<Byte>, offset: nat, r: Result<Message>)
      requires offset <= |apdu|
      reads this
    {
      && Ready() && ifsc == hw.peer.reader.atr.params.ifsc && Following(MakeOf(hw.peer.reader), c0, apdu, offset, hw.peer.reader.card, r)
      && c0.phase == Receiving && c0.rejects == 0 && c0.ns == recvSeq && (r.Success? ==> hw.peer.reader.card.nr == sendSeq)
    }

    /** The command is booked up to `offset`; with its last field came the first block of the response. */
    ghost predicate SentUpTo(apdu: seq<Byte>, offset: nat, ns: bool, r: Result<Message>)
      reads this
    {
      && Booked() && SentSoFar(books.accepted, ns, apdu, offset, sendSeq) && r.Success?
      && if offset < |apdu| then books.replies == [] else r.value.control.I? && books.replies == [r.value]
    }

    /** Hands over the next field of a command. */
    method SendPart(apdu: seq<Byte>, offset: nat, deadline: nat, ghost tracked: bool, ghost c0: Card, ghost ns: bool, ghost last: Result<Message>)
      returns (r: Result<Message>, next: nat)
      requires Linked() && ifsc >= 1 && offset < |apdu| && SentUpTo(apdu, offset, ns, last) && (tracked ==> Sending(c0, apdu, offset, last))
      modifies `hw, `now, `wire, `late, `books, `sendSeq
      ensures Onward(old(hw.peer), old(wire), old(books))
      ensures Timely(old(now), old(late), tracked && old(Prompt(hw.peer)), 72, 72, deadline)
      ensures next == offset + Min(FieldSize(), |apdu| - offset)
      ensures r.Success? ==> SentUpTo(apdu, next, ns, r)
      ensures tracked ==> late || (Sending(c0, apdu, next, r) && (next < |apdu| ==> r.Success?))
    {
      next := offset + Min(FieldSize(), |apdu| - offset);
      ghost var mid := if tracked then hw.peer.reader.card else BLANK.card;
      SentMore(books.accepted, ns, apdu, offset, next - offset, sendSeq);
      r := Deliver(apdu[offset..next], next < |apdu|, deadline, tracked);
      if tracked && !late { PartHanded(MakeOf(hw.peer.reader), c0, mid, apdu, offset, next, last, hw.peer.reader.card, r); }
    }

    /** Hands over a whole command and returns the first block of the response. */
    method SendCommand(apdu: seq<Byte>, deadline: nat, ghost tracked: bool, ghost c0: Card, ghost ns: bool) returns (r: Result<Message>)
      requires Linked() && ifsc >= 1 && apdu != [] && Booked() && books.accepted == [] && books.replies == [] && ns == sendSeq
      requires tracked ==> InStep() && hw.peer.reader.card == c0 && ifsc == hw.peer.reader.atr.params.ifsc
      modifies `hw, `now, `wire, `late, `books, `sendSeq
      ensures Onward(old(hw.peer), old(wire), old(books))
      ensures var cost := 72 * Chunks(|apdu|, FieldSize()); Timely(old(now), old(late), tracked && old(Prompt(hw.peer)), cost, cost, deadline)
      ensures r.Success? ==> SentUpTo(apdu, |apdu|, ns, r)
      ensures tracked ==> late || Sending(c0, apdu, |apdu|, r)
    {
      var offset := 0;
      r := Success(Message(R(false), []));
      ghost var parts, size := 0, FieldSize();
      CarriesNothing(ns);
      assert apdu[..0] == [];
      assert tracked ==> c0.received + apdu[..0] == c0.received;
      while r.Success? && offset < |apdu|
        invariant offset <= |apdu| && Onward(old(hw.peer), old(wire), old(books))
        invariant r.Success? ==> SentUpTo(apdu, offset, ns, r)
        invariant Timely(old(now), old(late), tracked && old(Prompt(hw.peer)), 72 * parts, 72 * parts, deadline)
        invariant parts + Chunks(|apdu| - offset, size) == Chunks(|apdu|, size)
        invariant tracked && !late ==> Sending(c0, apdu, offset, r) && (offset < |apdu| ==> r.Success?)
        decreases |apdu| - offset
      {
        r, offset := SendPart(apdu, offset, deadline, tracked && !late, c0, ns, r);
        parts := parts + 1;
      }
    }

    /** A tracked card whose reply to `base` is `total`: `out` is taken, `block` was just heard and begins `rest`. */
    ghost predicate Hearing(base: Card, total: seq<Byte>, out: seq<Byte>, rest: seq<Byte>, block: Message)
      reads this
    {
      Ready() && Answering(useCrc, base, total, out, rest, block, recvSeq, hw.peer.reader.card)
    }

    /** The response is booked as a chain from bit ns; `block` is the last of it, and those before it carry `out`. */
    ghost predicate HeardUpTo(ns: bool, out: seq<Byte>, block: Message)
      reads this
    {
      Booked() && block.control.I? && exists got :: books.replies == got + [block] && Carries(got, ns, recvSeq, out, false)
    }

    /** How a response ends for a tracked card. */
    ghost predicate HeardOut(base: Card, total: seq<Byte>, capacity: nat, r: Result<seq<Byte>>)
      reads this
    {
      && Ready() && Concluded(useCrc, base, total, capacity, hw.peer.reader.card, r)
      && (r.Success? ==> hw.peer.reader.card.phase == Receiving && hw.peer.reader.card.ns == recvSeq)
    }

    /** Asks for the block behind the one just taken. */
    method AskForMore(deadline: nat, ghost tracked: bool) returns (r: Result<Message>)
      requires Linked() && Booked() && (tracked ==> Ready() && hw.peer.reader.card.phase.Responding? && hw.peer.reader.card.ns == recvSeq)
      modifies `hw, `now, `wire, `late, `books
      ensures Onward(old(hw.peer), old(wire), old(books)) && books.accepted == old(books.accepted)
      ensures Timely(old(now), old(late), tracked && old(Prompt(hw.peer)), 12, if r.Success? then 4 else 12, deadline)
      ensures r.Success? ==> Booked() && r.value.control.I? && books.replies == old(books.replies) + [r.value] && now > old(now) && old(now) < deadline
      ensures tracked ==> late || (Ready() && Continued(MakeOf(hw.peer.reader), old(hw.peer.reader.card), old(hw.peer.reader.card.phase.rest), hw.peer.reader.card, r))
    {
      r := Swap(Message(R(recvSeq), []), deadline, tracked);
      if tracked && !late {
        ContinueStep(MakeOf(hw.peer.reader), old(hw.peer.reader.card), hw.peer.reader.card, r);
        assert Continues(MakeOf(hw.peer.reader), old(hw.peer.reader.card), old(hw.peer.reader.card.phase.rest), hw.peer.reader.card, r, hw.peer.reader.card.last.value);
      }
      if r.Success? && !r.value.control.I? { r := Failure(PROTOCOL_ERROR); }
    }

    /** Takes one block of a response: it must bear the next sequence bit, and there must be room for it. */
    method TakeBlock(block: Message, out: seq<Byte>, capacity: nat, ghost ns: bool) returns (r: Result<seq<Byte>>)
      requires HeardUpTo(ns, out, block)
      modifies `recvSeq
      ensures r.Success? ==>
                && r.value == out + block.inf && |r.value| <= capacity && recvSeq == !old(recvSeq) && block.control.ns == old(recvSeq)
                && Booked() && Carries(books.replies, ns, recvSeq, r.value, !block.control.more)
      ensures r.Failure? ==> if block.control.ns != old(recvSeq) then r.error == PROTOCOL_ERROR
                             else r.error == BUFFER_TOO_SMALL && |out| + |block.inf| > capacity
    {
      if block.control.ns != recvSeq { return Failure(PROTOCOL_ERROR); }
      if |out| + |block.inf| > capacity { return Failure(BUFFER_TOO_SMALL); }
      ghost var got :| books.replies == got + [block] && Carries(got, ns, recvSeq, out, false);
      CarriesMore(got, ns, recvSeq, out, block);
      recvSeq := !recvSeq;
      r := Success(out + block.inf);
    }

    /** Takes one block of a response and, unless it is the last, gets the next one. */
    method Absorb(block: Message, out: seq<Byte>, capacity: nat, deadline: nat, ghost tracked: bool, ghost base: Card, ghost total: seq<Byte>, ghost rest: seq<Byte>, ghost ns: bool)
      returns (r: Result<seq<Byte>>, next: Option<Message>, ghost left: seq<Byte>)
      requires Linked() && HeardUpTo(ns, out, block) && (tracked ==> Hearing(base, total, out, rest, block))
      modifies `hw, `now, `wire, `late, `books, `recvSeq
      ensures Onward(old(hw.peer), old(wire), old(books)) && books.accepted == old(books.accepted)
      ensures Timely(old(now), old(late), tracked && old(Prompt(hw.peer)), 12, if next.Some? then 4 else 12, deadline)
      ensures next.Some? ==> r.Success? && HeardUpTo(ns, r.value, next.value) && now > old(now) && old(now) < deadline
      ensures next.None? && r.Success? ==> Booked() && Carries(books.replies, ns, recvSeq, r.value, true)
      ensures r.Success? ==> |r.value| <= capacity
      ensures tracked && next.Some? ==> late || (|out| < |r.value| <= |total| && Hearing(base, total, r.value, left, next.value))
      ensures tracked && next.None? ==> late || HeardOut(base, total, capacity, r)
    {
      next, left := None, [];
      ghost var c := if tracked then hw.peer.reader.card else BLANK.card;
      if tracked { AnswerTaken(useCrc, base, total, out, rest, block, recvSeq, c, capacity); }
      r := TakeBlock(block, out, capacity, ns);
      if r.Failure? || !block.control.more { return; }
      var x := AskForMore(deadline, tracked);
      if tracked && !late {
        left := c.phase.rest;
        ReplyGoesOn(MakeOf(hw.peer.reader), base, total, out, rest, block, old(recvSeq), c, hw.peer.reader.card, x);
      }
      if x.Failure? { return Failure(x.error), None, left; }
      next := Some(x.value);
    }

    /** Gathers a response from its first block on. */
    method CollectResponse(first: Message, capacity: nat, deadline: nat, ghost tracked: bool, ghost base: Card, ghost total: seq<Byte>)
      returns (r: Result<seq<Byte>>)
      requires Linked() && HeardUpTo(recvSeq, [], first) && (tracked ==> Hearing(base, total, [], total, first))
      modifies `hw, `now, `wire, `late, `books, `recvSeq
      ensures Onward(old(hw.peer), old(wire), old(books)) && books.accepted == old(books.accepted)
      ensures var cost := 4 * |total| + 12; Timely(old(now), old(late), tracked && old(Prompt(hw.peer)), cost, cost, deadline)
      ensures r.Success? ==> |r.value| <= capacity && Booked() && Carries(books.replies, old(recvSeq), recvSeq, r.value, true)
      ensures tracked ==> late || HeardOut(base, total, capacity, r)
    {
      var block := Some(first);
      ghost var rest, spent := total, 0;
      r := Success([]);
      while block.Some?
        invariant Onward(old(hw.peer), old(wire), old(books)) && books.accepted == old(books.accepted)
        invariant block.Some? ==> r.Success? && HeardUpTo(old(recvSeq), r.value, block.value)
        invariant block.None? && r.Success? ==> |r.value| <= capacity && Booked() && Carries(books.replies, old(recvSeq), recvSeq, r.value, true)
        invariant Timely(old(now), old(late), tracked && old(Prompt(hw.peer)), 4 * |total| + 12, spent, deadline)
        invariant tracked && !late ==> if block.Some? then spent <= 4 * |r.value| <= 4 * |total| && Hearing(base, total, r.value, rest, block.value)
                                       else HeardOut(base, total, capacity, r) && spent <= 4 * |total| + 12
        decreases block.Some?, Left(now, deadline)
      {
        r, block, rest := Absorb(block.value, r.value, capacity, deadline, tracked && !late, base, total, rest, old(recvSeq));
        spent := spent + if block.Some? then 4 else 12;
      }
    }

    /** Between two commands: the link is in step and the card holds no part of a command. */
    ghost predicate AtRest()
      reads this
    {
      InStep() && hw.peer.reader.card.received == [] && ifsc == hw.peer.reader.atr.params.ifsc
    }

    /** The longest a command may keep a prompt card and its host. */
    ghost function Cost(apdu: seq<Byte>, total: seq<Byte>): nat
      requires ifsc >= 1
      reads `ifsc, `useCrc
    {
      CommandCost(ifsc, useCrc, |apdu|, |total|)
    }

    /** Sends a command; a tracked card has executed it then and begun its reply `total`, or spoilt it. */
    method BeginCommand(apdu: seq<Byte>, deadline: nat, ghost tracked: bool, ghost c0: Card, ghost total: seq<Byte>)
      returns (r: Result<Message>, ghost base: Card)
      requires Linked() && ifsc >= 1 && apdu != [] && Booked() && books.accepted == [] && books.replies == []
      requires tracked ==> InStep() && ifsc == hw.peer.reader.atr.params.ifsc && c0 == hw.peer.reader.card
                           && total == ReplyTo(MakeOf(hw.peer.reader), c0, apdu)
      modifies `hw, `now, `wire, `late, `books, `sendSeq
      ensures Onward(old(hw.peer), old(wire), old(books))
      ensures var cost := 72 * Chunks(|apdu|, FieldSize()); Timely(old(now), old(late), tracked && old(Prompt(hw.peer)), cost, cost, deadline)
      ensures r.Success? ==> HeardUpTo(recvSeq, [], r.value) && Carries(books.accepted, old(sendSeq), sendSeq, apdu, true)
      ensures tracked && !late ==> Ready() && base == Executed(c0, apdu, base.nr)
      ensures tracked && !late && r.Success? ==> Hearing(base, total, [], total, r.value) && base.nr == sendSeq
      ensures tracked && !late && r.Failure? ==> r.error == PROTOCOL_ERROR && Spoiled(useCrc, base, total, hw.peer.reader.card)
    {
      r := SendCommand(apdu, deadline, tracked, c0, sendSeq);
      base := if tracked && !late then Executed(c0, apdu, hw.peer.reader.card.nr) else BLANK.card;
      if tracked && !late { ReplyBegins(MakeOf(hw.peer.reader), base, total, hw.peer.reader.card, r); }
      CarriesNothing(recvSeq);
      assert r.Success? ==> books.replies == [] + [r.value];
      assert apdu[..|apdu|] == apdu;
    }

    /** Runs a command whose books are open. */
    method RunCommand(apdu: seq<Byte>, capacity: nat, deadline: nat, ghost tracked: bool, ghost c0: Card, ghost total: seq<Byte>)
      returns (r: Result<seq<Byte>>)
      requires Linked() && ifsc >= 1 && apdu != [] && Booked() && books.accepted == [] && books.replies == []
      requires tracked ==> InStep() && ifsc == hw.peer.reader.atr.params.ifsc && c0 == hw.peer.reader.card
                           && total == ReplyTo(MakeOf(hw.peer.reader), c0, apdu)
      modifies `hw, `now, `wire, `late, `books, `sendSeq, `recvSeq
      ensures Onward(old(hw.peer), old(wire), old(books))
      ensures var cost := Cost(apdu, total); Timely(old(now), old(late), tracked && old(Prompt(hw.peer)), cost, cost, deadline)
      ensures r.Success? ==>
                && |r.value| <= capacity && Booked() && Carries(books.accepted, old(sendSeq), sendSeq, apdu, true)
                && Carries(books.replies, old(recvSeq), recvSeq, r.value, true)
      ensures tracked ==> late || (exists nr: bool :: HeardOut(Executed(c0, apdu, nr), total, capacity, r) && (r.Success? ==> nr == sendSeq))
    {
      var first;
      ghost var base;
      first, base := BeginCommand(apdu, deadline, tracked, c0, total);
      if first.Failure? { return Failure(first.error); }
      r := CollectResponse(first.value, capacity, deadline, tracked && !late, base, total);
    }

    /** Opens the books of a command and runs it. */
    method BookCommand(apdu: seq<Byte>, capacity: nat, deadline: nat, ghost tracked: bool, ghost c0: Card, ghost total: seq<Byte>)
      returns (r: Result<seq<Byte>>)
      requires Linked() && ifsc >= 1 && apdu != []
      requires tracked ==> InStep() && ifsc == hw.peer.reader.atr.params.ifsc && c0 == hw.peer.reader.card
                           && total == ReplyTo(MakeOf(hw.peer.reader), c0, apdu)
      modifies `hw, `now, `wire, `late, `books, `sendSeq, `recvSeq
      ensures SamePeer(old(hw.peer), hw.peer) && old(wire) <= wire
      ensures var cost := Cost(apdu, total); Timely(old(now), old(late), tracked && old(Prompt(hw.peer)), cost, cost, deadline)
      ensures r.Success? ==> |r.value| <= capacity && Transcript(wire[|old(wire)|..], useCrc, old(sendSeq), old(recvSeq), apdu, r.value)
      ensures tracked ==> late || (exists nr: bool :: HeardOut(Executed(c0, apdu, nr), total, capacity, r) && (r.Success? ==> nr == sendSeq))
    {
      books := Books(wire, [], [], []);
      LedgerOpens(wire, useCrc);
      r := RunCommand(apdu, capacity, deadline, tracked, c0, total);
      if r.Success? { BooksTranscribe(wire, useCrc, books, old(sendSeq), old(recvSeq), sendSeq, recvSeq, apdu, r.value); }
    }

    /** One command over a session that is set up. */
    method TransmitInitialized(apdu: seq<Byte>, capacity: nat, deadline: nat) returns (r: Result<seq<Byte>>)
      requires Linked() && ifsc >= 1
      modifies `hw, `now, `wire, `late, `books, `sendSeq, `recvSeq
      ensures SamePeer(old(hw.peer), hw.peer) && old(wire) <= wire
      ensures apdu == [] ==> r == Failure(INVALID_ARGUMENT) && hw == old(hw) && wire == old(wire) && now == old(now) && late == old(late)
      ensures r.Success? ==> |r.value| <= capacity && Transcript(wire[|old(wire)|..], useCrc, old(sendSeq), old(recvSeq), apdu, r.value)
      ensures old(AtRest()) ==>
                var make, card := MakeOf(old(hw.peer.reader)), old(hw.peer.reader.card);
                && (late || (Settled(make, card.history, card.said, apdu, capacity, hw.peer.reader.card, r)
                             && hw.peer.reader.card.limit == card.limit && (r.Success? ==> AtRest())))
                && var cost := Cost(apdu, make.app(card.history + [Ran(apdu)])); Timely(old(now), old(late), old(Prompt(hw.peer)), cost, cost, deadline)
      ensures Timely(old(now), old(late), false, 0, 0, deadline)
    {
      if apdu == [] { return Failure(INVALID_ARGUMENT); }
      assert [] + apdu == apdu;
      ghost var tracked := AtRest();
      ghost var c0 := if tracked then hw.peer.reader.card else BLANK.card;
      ghost var total := if tracked then ReplyTo(MakeOf(hw.peer.reader), c0, apdu) else [];
      r := BookCommand(apdu, capacity, deadline, tracked, c0, total);
      if tracked && !late { CommandServed(MakeOf(hw.peer.reader), c0, apdu, capacity, hw.peer.reader.card, r); }
    }

    // ------------------------------------------------------- initialisation

    /** Waits for the next bytes of an answer to reset and reads them, if there is room behind the first `length`. */
    method ReadAtrChunk(deadline: nat, length: nat) returns (r: Result<seq<Byte>>)
      requires length <= ATR_MAX
      modifies `hw, `now, `wire
      ensures SamePeer(old(hw.peer), hw.peer) && now >= old(now)
      ensures r.Success? ==> wire == old(wire) + [Got(r.value)] && old(now) < deadline
      ensures r.Failure? ==>
                || (wire == old(wire) && r.error == TIMEOUT && now >= deadline)
                || (wire == old(wire) && r.error == PROTOCOL_ERROR && length == ATR_MAX)
                || wire == old(wire) + [Fault(r.error)]
      ensures old(hw.peer.Conforming? && hw.peer.reader.answering && 0 < |hw.peer.reader.pending| <= ATR_MAX - length) ==>
                || (r == Failure(TIMEOUT) && now >= deadline)
                || (&& r.Success? && r.value != [] && r.value <= old(hw.peer.reader.pending)
                    && hw.peer == Unread(old(hw.peer), old(hw.peer.reader.pending)[|r.value|..]))
      ensures old(Prompt(hw.peer) && hw.peer.reader.answering && 0 < |hw.peer.reader.pending| <= ATR_MAX - length && now < deadline) ==>
                r.Success? && now == old(now) + 2
    {
      var ready := WaitDataReady(deadline);
      if ready.Failure? { return Failure(ready.error); }
      if length == ATR_MAX { return Failure(PROTOCOL_ERROR); }
      ReadKeeps(hw, ATR_MAX - length);
      r := ReadChunk(ATR_MAX - length);
    }

    /** Reads on behind the first `bytes` of an answer; `done` says that nothing more is to be read. */
    method ReadAtrPart(deadline: nat, bytes: seq<Byte>, ghost tracked: bool)
      returns (r: Result<Atr>, chunk: seq<Byte>, done: bool, ghost read: bool)
      requires |bytes| <= ATR_MAX && (tracked ==> Replying(hw.peer, bytes))
      modifies `hw, `now, `wire
      ensures SamePeer(old(hw.peer), hw.peer) && now >= old(now)
      ensures read ==>
                && wire == old(wire) + [Got(chunk)] && old(now) < deadline && done == (r != Failure(NOT_READY))
                && r == (if chunk == [] then Failure(NOT_READY) else Parse(bytes + chunk)) && (!done ==> |bytes + chunk| <= ATR_MAX)
      ensures !read ==>
                && done && r.Failure?
                && (|| (wire == old(wire) && r.error == TIMEOUT && now >= deadline)
                    || (wire == old(wire) && r.error == PROTOCOL_ERROR && |bytes| == ATR_MAX)
                    || wire == old(wire) + [Fault(r.error)])
      ensures tracked ==>
                || (r == Failure(TIMEOUT) && now >= deadline)
                || (read && chunk != [] && if done then r == Success(hw.peer.reader.atr) && hw.peer == Unread(old(hw.peer), [])
                                           else Replying(hw.peer, bytes + chunk) && hw.peer == Unread(old(hw.peer), hw.peer.reader.pending))
      ensures tracked && old(Prompt(hw.peer) && now < deadline) ==> read && chunk != [] && now == old(now) + 2
                                                                    && (done ==> r == Success(hw.peer.reader.atr))
    {
      chunk, done, read := [], true, false;
      var got := ReadAtrChunk(deadline, |bytes|);
      if got.Failure? { return Failure(got.error), [], true, false; }
      chunk, read := got.value, true;
      if tracked {
        var pending := old(hw.peer.reader.pending);
        assert pending == chunk + pending[|chunk|..];
        ReplyRead(old(hw.peer), bytes, chunk, pending[|chunk|..]);
      }
      if |chunk| > ATR_MAX - |bytes| { return Failure(PROTOCOL_ERROR), chunk, true, true; }
      r := Failure(NOT_READY);
      if chunk != [] { r := ParseAtr(bytes + chunk); }
      done := r != Failure(NOT_READY);
    }

    /** One more step of reading an answer to reset. */
    method ReadAtrOn(deadline: nat, bytes: seq<Byte>, ghost tracked: bool, ghost before: seq<Event>, ghost chunks: seq<seq<Byte>>)
      returns (r: Result<Atr>, all: seq<Byte>, done: bool, ghost heard: seq<seq<Byte>>)
      requires |bytes| <= ATR_MAX && AtrBegun(chunks, bytes, before, wire) && (tracked ==> Replying(hw.peer, bytes))
      modifies `hw, `now, `wire
      ensures SamePeer(old(hw.peer), hw.peer) && now >= old(now)
      ensures !done ==> old(now) < deadline && |all| <= ATR_MAX && AtrBegun(heard, all, before, wire)
      ensures done ==> before <= wire && AtrLog(wire[|before|..], r, now >= deadline)
      ensures tracked && !done ==> Replying(hw.peer, all) && hw.peer == Unread(old(hw.peer), hw.peer.reader.pending) && |bytes| < |all| < ATR_MAX
      ensures tracked && done ==> (r == Failure(TIMEOUT) && now >= deadline) || (r == Success(hw.peer.reader.atr) && hw.peer == Unread(old(hw.peer), []))
      ensures tracked && old(Prompt(hw.peer) && now < deadline) ==> now == old(now) + 2 && (done ==> r == Success(hw.peer.reader.atr))
    {
      ghost var read;
      var chunk;
      r, chunk, done, read := ReadAtrPart(deadline, bytes, tracked);
      all, heard := bytes + chunk, chunks + [chunk];
      if read {
        AtrGoesOn(chunks, bytes, before, old(wire), chunk);
        if done { AtrLogWeakens(wire[|before|..], r, false, now >= deadline); }
      } else {
        AtrBreaksOff(chunks, bytes, before, old(wire), wire, r.error, now >= deadline);
      }
    }

    /** Reads an answer to reset in whatever chunks it arrives. */
    method ReadAtrOnce(ghost tracked: bool) returns (r: Result<Atr>)
      requires tracked ==> !late && Replying(hw.peer, [])
      modifies `hw, `now, `wire, `late
      ensures SamePeer(old(hw.peer), hw.peer) && old(wire) <= wire
      ensures AtrLog(wire[|old(wire)|..], r, now >= DeadlineAfter(old(now), ATR_TIMEOUT))
      ensures AtrTimely(old(now), old(late), tracked && old(Prompt(hw.peer)), ATR_COST)
      ensures tracked ==> (late && r == Failure(TIMEOUT)) || (r == Success(hw.peer.reader.atr) && hw.peer == Unread(old(hw.peer), []))
    {
      var bytes, done := [], false;
      var deadline := DeadlineAfter(now, ATR_TIMEOUT);
      ghost var chunks, prompt := [], tracked && Prompt(hw.peer) && deadline <= CLOCK_MAX && now + ATR_COST < deadline;
      r := Failure(TIMEOUT);
      while !done && now < deadline
        invariant SamePeer(old(hw.peer), hw.peer) && now >= old(now) && late == old(late)
        invariant !done ==> |bytes| <= ATR_MAX && r == Failure(TIMEOUT) && AtrBegun(chunks, bytes, old(wire), wire)
        invariant done ==> old(wire) <= wire && AtrLog(wire[|old(wire)|..], r, now >= deadline)
        invariant tracked && !done ==> Replying(hw.peer, bytes) && hw.peer == Unread(old(hw.peer), hw.peer.reader.pending)
        invariant tracked && done ==> (r == Failure(TIMEOUT) && now >= deadline) || (r == Success(hw.peer.reader.atr) && hw.peer == Unread(old(hw.peer), []))
        invariant prompt ==> |bytes| < ATR_MAX || done
        invariant prompt ==> now <= old(now) + if done then ATR_COST else 7 * |bytes|
        invariant prompt && done ==> r == Success(hw.peer.reader.atr)
        decreases !done, Left(now, deadline)
      {
        r, bytes, done, chunks := ReadAtrOn(deadline, bytes, tracked, old(wire), chunks);
        if !done {
          r := Failure(TIMEOUT);
          now := now + POLL_INTERVAL;
        }
      }
      if !done { AtrBreaksOff(chunks, bytes, old(wire), wire, wire, TIMEOUT, true); }
      late := late || (r == Failure(TIMEOUT) && now >= deadline);
    }

    /** What resetting the card and reading its answer may take. */
    ghost predicate AtrTimely(t0: nat, late0: bool, prompt: bool, cost: nat)
      reads this
    {
      InTime(t0, late0, now, late, prompt, cost, cost, ATR_TIMEOUT, DeadlineAfter(t0, ATR_TIMEOUT))
    }

    /** A conforming card whose answer to reset is one. */
    ghost predicate Presentable()
      reads this
    {
      hw.peer.Conforming? && Genuine(hw.peer.reader) && WholeAnswer(hw.peer.reader.atr)
    }

    /** One attempt at an answer to reset; `again` says that it was malformed. */
    method TryAtr(ghost tracked: bool) returns (r: Result<Atr>, again: bool)
      requires tracked ==> !late && Presentable()
      modifies `hw, `now, `wire, `late
      ensures SamePeer(old(hw.peer), hw.peer) && old(wire) <= wire
      ensures AtrAttempt(wire[|old(wire)|..], r, again, now >= DeadlineAfter(old(now), ATR_TIMEOUT))
      ensures r.Success? ==> WholeAnswer(r.value)
      ensures AtrTimely(old(now), old(late), tracked && old(Prompt(hw.peer)), ATR_COST + 1)
      ensures tracked ==> !again && ((late && r == Failure(TIMEOUT)) || (r == Success(hw.peer.reader.atr) && hw.peer == AfterReset(old(hw.peer))))
    {
      ResetKeeps(hw);
      if tracked {
        assert [] + hw.peer.reader.atr.bytes == hw.peer.reader.atr.bytes;
      }
      var reset := Reset();
      if reset.Failure? {
        assert wire[|old(wire)|..] == [Fault(reset.error)];
        return Failure(reset.error), false;
      }
      ghost var before, start := wire, now;
      r := ReadAtrOnce(tracked);
      again := r == Failure(PROTOCOL_ERROR);
      if r.Success? { AtrLogParses(wire[|before|..], r, now >= DeadlineAfter(start, ATR_TIMEOUT)); }
      AtrLogWeakens(wire[|before|..], r, now >= DeadlineAfter(start, ATR_TIMEOUT), now >= DeadlineAfter(old(now), ATR_TIMEOUT));
      assert wire[|old(wire)|..][1..] == wire[|before|..];
    }

    /** Attempts an answer to reset, a second time if the first is malformed. */
    method TryAtrTwice(ghost tracked: bool) returns (r: Result<Atr>)
      requires tracked ==> !late && Presentable()
      modifies `hw, `now, `wire, `late
      ensures SamePeer(old(hw.peer), hw.peer) && old(wire) <= wire
      ensures AtrTries(wire[|old(wire)|..], r, now >= DeadlineAfter(old(now), ATR_TIMEOUT))
      ensures r.Success? ==> WholeAnswer(r.value)
      ensures AtrTimely(old(now), old(late), tracked && old(Prompt(hw.peer)), ATR_COST + 1)
      ensures tracked ==> (late && r == Failure(TIMEOUT)) || (r == Success(hw.peer.reader.atr) && hw.peer == AfterReset(old(hw.peer)))
    {
      var attempt, again := 0, true;
      r := Failure(INTERNAL);
      while attempt < 2 && again
        invariant attempt <= 2 && SamePeer(old(hw.peer), hw.peer) && old(wire) <= wire
        invariant AtrTimely(old(now), old(late), tracked && old(Prompt(hw.peer)), if attempt == 0 then 0 else ATR_COST + 1)
        invariant attempt == 0 ==> again && wire == old(wire) && hw == old(hw) && now == old(now) && late == old(late)
        invariant attempt == 1 ==> AtrAttempt(wire[|old(wire)|..], r, again, now >= DeadlineAfter(old(now), ATR_TIMEOUT))
        invariant attempt == 2 ==> AtrTries(wire[|old(wire)|..], r, now >= DeadlineAfter(old(now), ATR_TIMEOUT))
        invariant r.Success? ==> WholeAnswer(r.value)
        invariant tracked && attempt > 0 ==> !again && ((late && r == Failure(TIMEOUT)) || (r == Success(hw.peer.reader.atr) && hw.peer == AfterReset(old(hw.peer))))
        decreases 2 - attempt
      {
        ghost var mid, t := wire, now;
        if attempt == 1 { MalformedBefore(wire[|old(wire)|..], r, now >= DeadlineAfter(old(now), ATR_TIMEOUT)); }
        r, again := TryAtr(tracked && !late && attempt == 0);
        if attempt == 1 {
          AttemptWeakens(wire[|mid|..], r, again, now >= DeadlineAfter(t, ATR_TIMEOUT), now >= DeadlineAfter(old(now), ATR_TIMEOUT));
          TriedAgain(old(wire), mid, wire, r, again, now >= DeadlineAfter(old(now), ATR_TIMEOUT));
        }
        attempt := attempt + 1;
      }
    }

    method ReadAtrAndRate(ghost tracked: bool) returns (r: Result<Atr>)
      requires tracked ==> !late && Presentable()
      modifies `hw, `now, `wire, `late
      ensures SamePeer(old(hw.peer), hw.peer) && old(wire) <= wire
      ensures ResetLog(wire[|old(wire)|..], r, now >= DeadlineAfter(old(now), ATR_TIMEOUT))
      ensures r.Success? ==> WholeAnswer(r.value)
      ensures AtrTimely(old(now), old(late), tracked && old(Prompt(hw.peer)), ATR_COST + 2)
      ensures tracked ==> (late && r == Failure(TIMEOUT)) || (r == Success(hw.peer.reader.atr) && hw.peer == Rated(AfterReset(old(hw.peer))))
    {
      r := TryAtrTwice(tracked);
      if r.Failure? { return; }
      ghost var before, t, answer := wire, now, r;
      var baud := SetBaud(r.value.params.baud);
      if baud.Failure? { r := Failure(baud.error); }
      TriesWeaken(before[|old(wire)|..], answer, t >= DeadlineAfter(old(now), ATR_TIMEOUT), now >= DeadlineAfter(old(now), ATR_TIMEOUT));
      RateSet(old(wire), before, answer.value, wire[|before|], now >= DeadlineAfter(old(now), ATR_TIMEOUT));
    }

    /** Resets the card, reads its answer and sets the rate it asks for. */
    method ResetAndReadAtr(ghost tracked: bool) returns (r: Result<Atr>)
      requires tracked ==> !late && Presentable()
      modifies `hw, `now, `wire, `late
      ensures SamePeer(old(hw.peer), hw.peer) && old(wire) <= wire
      ensures ResetLog(wire[|old(wire)|..], r, now >= DeadlineAfter(old(now), ATR_TIMEOUT))
      ensures r.Success? ==> WholeAnswer(r.value)
      ensures AtrTimely(old(now), old(late), tracked && old(Prompt(hw.peer)), ATR_COST + 3)
      ensures tracked ==> (late && r == Failure(TIMEOUT)) || (r == Success(hw.peer.reader.atr) && hw.peer == Rated(AfterReset(old(hw.peer))))
    {
      var detected := DetectCard();
      if detected.Failure? { return Failure(detected.error); }
      if !detected.value { return Failure(NO_CARD); }
      ghost var t := now;
      r := ReadAtrAndRate(tracked);
      ResetWeakens(wire[|old(wire)|..], r, now >= DeadlineAfter(t, ATR_TIMEOUT), now >= DeadlineAfter(old(now), ATR_TIMEOUT));
    }

    method Invalidate()
      modifies `initialized, `useCrc, `ifsc, `blockTimeout, `sendSeq, `recvSeq, `atr
      ensures !initialized && !useCrc && ifsc == 32 && blockTimeout == DEFAULT_TIMEOUT
      ensures !sendSeq && !recvSeq && atr.None?
    {
      initialized, useCrc, ifsc, blockTimeout := false, false, 32, DEFAULT_TIMEOUT;
      sendSeq, recvSeq, atr := false, false, None;
    }

    /** One supervisory request, whose answer must echo it with the response bit set. */
    method Supervise(request: Byte, response: Byte, inf: seq<Byte>, deadline: nat, retries: nat, ghost tracked: bool)
      returns (r: Result<Unit>, answered: bool)
      requires Linked() && 0 < retries <= MAX_RETRIES && |inf| <= 1 && request in {RESYNCH_REQUEST, IFS_REQUEST}
      requires tracked ==> Ready() && Supervised(hw.peer.reader.card, request, inf).1 == Message(S(response), inf)
      modifies `hw, `now, `wire, `late
      ensures SamePeer(old(hw.peer), hw.peer) && old(wire) <= wire
      ensures Timely(old(now), old(late), tracked && old(Prompt(hw.peer)), 12, 12, deadline)
      ensures r.Success? ==> Turn(wire, |old(wire)|, useCrc, Block(request, inf), Block(response, inf))
      ensures tracked ==> late || (r.Success? && Ready() && hw.peer.reader.card == Supervised(old(hw.peer.reader.card), request, inf).0)
    {
      SupervisoryBytes();
      var x := ExchangeBlock(Block(request, inf), deadline, retries, tracked);
      if tracked && !late {
        SupervisoryStep(MakeOf(hw.peer.reader), old(hw.peer.reader.card), request, inf, hw.peer.reader.card, AsMessage(x));
        ReadsAs(x.value, response);
      }
      if x.Failure? { return Failure(x.error), false; }
      if x.value.pcb != response || x.value.inf != inf { return Failure(PROTOCOL_ERROR), true; }
      r, answered := Success(Unit), true;
    }

    /** Brings the protocol to its initial state, then announces the field size. */
    method ResynchronizeAndAnnounce(ifsd: Byte, deadline: nat, retries: nat, ghost tracked: bool) returns (r: Result<Unit>)
      requires Linked() && 0 < retries <= MAX_RETRIES && 1 <= ifsd as int <= FIELD_MAX && (tracked ==> Ready())
      modifies `hw, `now, `wire, `late
      ensures SamePeer(old(hw.peer), hw.peer) && old(wire) <= wire
      ensures Timely(old(now), old(late), tracked && old(Prompt(hw.peer)), 24, 24, deadline)
      ensures r.Success? ==> Announced(old(wire), wire, useCrc, true, ifsd)
      ensures tracked ==> late || (r.Success? && Ready() && hw.peer.reader.card == Opened(old(hw.peer.reader.card), ifsd))
    {
      var answered;
      r, answered := Supervise(RESYNCH_REQUEST, RESYNCH_RESPONSE, [], deadline, retries, tracked);
      if r.Failure? { return; }
      ghost var mid := wire;
      r, answered := Supervise(IFS_REQUEST, IFS_RESPONSE, [ifsd], deadline, MAX_RETRIES, tracked && !late);
      if r.Success? { AnnouncedInTurn(old(wire), mid, wire, useCrc, ifsd); }
    }

    /** Announces the field size without resynchronising, unless that goes unanswered. */
    method AnnounceAtOnce(ifsd: Byte, deadline: nat, ghost tracked: bool) returns (r: Result<Unit>)
      requires Linked() && 1 <= ifsd as int <= FIELD_MAX && (tracked ==> Ready() && hw.peer.reader.card == Restarted(hw.peer.reader.card))
      modifies `hw, `now, `wire, `late
      ensures SamePeer(old(hw.peer), hw.peer) && old(wire) <= wire
      ensures Timely(old(now), old(late), tracked && old(Prompt(hw.peer)), 24, 24, deadline)
      ensures r.Success? ==> Announced(old(wire), wire, useCrc, false, ifsd)
      ensures tracked ==> late || (r.Success? && Ready() && hw.peer.reader.card == Opened(old(hw.peer.reader.card), ifsd))
    {
      var answered;
      r, answered := Supervise(IFS_REQUEST, IFS_RESPONSE, [ifsd], deadline, 1, tracked);
      if r.Success? { AnnouncedAtOnce(old(wire), wire, useCrc, ifsd); }
      if r.Failure? && !answered && (r.error == TIMEOUT || r.error == PROTOCOL_ERROR) {
        ghost var mid := wire;
        r := ResynchronizeAndAnnounce(ifsd, deadline, 1, false);
        if r.Success? { AnnouncedLater(old(wire), mid, wire, useCrc, ifsd); }
      }
    }

    method InitializeT1(resynchronize: bool, ifsd: Byte, ghost tracked: bool) returns (r: Result<Unit>)
      requires Linked() && 1 <= ifsd as int <= FIELD_MAX && (tracked ==> Ready() && hw.peer.reader.card == Restarted(hw.peer.reader.card))
      modifies `hw, `now, `wire, `late, `sendSeq, `recvSeq
      ensures SamePeer(old(hw.peer), hw.peer) && old(wire) <= wire && !sendSeq && !recvSeq
      ensures Timely(old(now), old(late), tracked && old(Prompt(hw.peer)), 24, 24, DeadlineAfter(old(now), OPERATION_TIMEOUT))
      ensures r.Success? ==> Announced(old(wire), wire, useCrc, resynchronize, ifsd)
      ensures tracked ==> late || (r.Success? && Ready() && hw.peer.reader.card == Opened(old(hw.peer.reader.card), ifsd))
    {
      sendSeq, recvSeq := false, false;
      var deadline := DeadlineAfter(now, OPERATION_TIMEOUT);
      if resynchronize {
        r := ResynchronizeAndAnnounce(ifsd, deadline, MAX_RETRIES, tracked);
      } else {
        r := AnnounceAtOnce(ifsd, deadline, tracked);
      }
    }

    /** Sets the session up with whatever answered to the reset. */
    method Configure(answer: Atr, ghost tracked: bool) returns (r: Result<Unit>)
      requires WholeAnswer(answer) && (hw.peer.Conforming? ==> Presentable() && answer == hw.peer.reader.atr)
      requires tracked ==> hw.peer.Conforming? && Idle(hw.peer.reader) && !late && hw.peer.reader.card == Restarted(hw.peer.reader.card)
      modifies `hw, `now, `wire, `late, `useCrc, `ifsc, `blockTimeout, `sendSeq, `recvSeq, `atr
      ensures SamePeer(old(hw.peer), hw.peer) && old(wire) <= wire && !sendSeq && !recvSeq
      ensures atr == Some(answer) && useCrc == answer.params.useCrc && ifsc == answer.params.ifsc && blockTimeout == answer.params.blockTimeout
      ensures r.Success? ==> Announced(old(wire), wire, useCrc, answer.params.baud != Baud38400, IfsdFor(answer.params))
      ensures Timely(old(now), old(late), tracked && old(Prompt(hw.peer)), 24, 24, DeadlineAfter(old(now), OPERATION_TIMEOUT))
      ensures tracked ==> late || (r.Success? && AtRest() && hw.peer.reader.card == Opened(old(hw.peer.reader.card), IfsdFor(answer.params)))
    {
      var p := answer.params;
      atr, useCrc, ifsc, blockTimeout := Some(answer), p.useCrc, p.ifsc, p.blockTimeout;
      var acas := p.baud == Baud38400;
      r := InitializeT1(!acas, AdvertisedIfsd(acas, useCrc), tracked);
    }

    /** Since t0, being late means that a window of half a second at least ran out; a prompt card costs no more than this. */
    ghost predicate OpensTimely(t0: nat, late0: bool, prompt: bool, cost: nat)
      reads this
    {
      InTime(t0, late0, now, late, prompt, cost, cost, DEFAULT_TIMEOUT, DeadlineAfter(t0, DEFAULT_TIMEOUT))
    }

    /** Gets an answer to a reset and sets the protocol up with it. */
    method Establish() returns (r: Result<Unit>)
      requires !late && (hw.peer.Conforming? ==> Presentable())
      modifies `hw, `now, `wire, `late, `useCrc, `ifsc, `blockTimeout, `sendSeq, `recvSeq, `atr
      ensures SamePeer(old(hw.peer), hw.peer) && old(wire) <= wire
      ensures OpensTimely(old(now), false, old(Prompt(hw.peer)), INIT_COST)
      ensures r.Success? ==>
                && !sendSeq && !recvSeq && atr.Some? && Follows(atr.value) && WholeAnswer(atr.value)
                && SetUp(old(wire), wire, atr.value, IfsdFor(atr.value.params))
      ensures hw.peer.Conforming? ==> late || (r.Success? && AtRest() && hw.peer.reader.card == Renewed(old(hw.peer.reader)))
    {
      ghost var tracked := hw.peer.Conforming?;
      var answer := ResetAndReadAtr(tracked);
      if answer.Failure? { return Failure(answer.error); }
      ghost var mid, t, wasLate := wire, now, late;
      r := Configure(answer.value, tracked && !late);
      OpensInTime(old(now), t, wasLate, now, late, old(Prompt(hw.peer)), blockTimeout);
      if r.Success? { SetUpLog(old(wire), mid, wire, answer.value, IfsdFor(answer.value.params), t >= DeadlineAfter(old(now), ATR_TIMEOUT)); }
    }

    /**
     Sets a session up from the reset on. A conforming card is at rest
     afterwards and has been told the host's field size.
     */
    method Initialize() returns (r: Result<Unit>)
      requires hw.peer.Conforming? ==> Presentable()
      modifies this
      ensures SamePeer(old(hw.peer), hw.peer) && old(wire) <= wire && !sendSeq && !recvSeq && initialized == r.Success?
      ensures OpensTimely(old(now), false, old(Prompt(hw.peer)), INIT_COST)
      ensures r.Success? ==>
                && atr.Some? && Follows(atr.value) && WholeAnswer(atr.value)
                && SetUp(old(wire), wire, atr.value, IfsdFor(atr.value.params))
      ensures r.Failure? ==> !useCrc && ifsc == 32 && blockTimeout == DEFAULT_TIMEOUT && atr.None?
      ensures hw.peer.Conforming? ==> late || (r.Success? && AtRest() && hw.peer.reader.card == Renewed(old(hw.peer.reader)))
    {
      Invalidate();
      late := false;
      r := Establish();
      if r.Failure? {
        Invalidate();
        return;
      }
      initialized := true;
    }

    /** The session keeps to the parameters of this answer to reset, and so does a conforming card. */
    ghost predicate Follows(a: Atr)
      reads this
    {
      && atr == Some(a) && useCrc == a.params.useCrc && ifsc == a.params.ifsc && blockTimeout == a.params.blockTimeout
      && (hw.peer.Conforming? ==> hw.peer.reader.atr == a)
    }

    // ----------------------------------------------------------- the session

    /** A conforming card between two commands, knowing the host's field size. */
    ghost predicate Settling()
      reads this
    {
      AtRest() && hw.peer.reader.card.limit == IfsdFor(hw.peer.reader.atr.params) as int
    }

    ghost predicate Valid()
      reads this
    {
      && 1 <= ifsc <= 254 && DEFAULT_TIMEOUT <= blockTimeout <= OPERATION_TIMEOUT && (hw.peer.Conforming? ==> Presentable())
      && (initialized ==> atr.Some? && Follows(atr.value) && (hw.peer.Conforming? && !late ==> Settling()))
    }

    /** What the application of a conforming card has gone through when the next command is sent. */
    ghost function HistoryNow(): seq<Happening>
      requires hw.peer.Conforming?
      reads this
    {
      if initialized then hw.peer.reader.card.history else hw.peer.reader.card.history + [WasReset]
    }

    /** Makes sure that a card is there and the session set up. */
    method Prepare() returns (r: Result<Unit>)
      requires Valid()
      modifies this
      ensures Valid() && SamePeer(old(hw.peer), hw.peer) && old(wire) <= wire && initialized == r.Success?
      ensures r.Success? && old(initialized) ==> wire == old(wire) && sendSeq == old(sendSeq) && recvSeq == old(recvSeq) && atr == old(atr)
      ensures r.Success? && !old(initialized) ==> !sendSeq && !recvSeq && SetUp(old(wire), wire, atr.value, IfsdFor(atr.value.params))
      ensures Detect(old(hw)).1.Failure? ==> r == Failure(Detect(old(hw)).1.error)
      ensures Detect(old(hw)).1 == Success(false) ==> r == Failure(if old(initialized) then CARD_REMOVED else NO_CARD)
      ensures OpensTimely(old(now), old(late && initialized), old(Prompt(hw.peer) && !(late && initialized)), INIT_COST + 1)
      ensures hw.peer.Conforming? ==>
                || late
                || (r.Success? && Settling() && hw.peer.reader.card.history == old(HistoryNow()) && hw.peer.reader.card.said == old(hw.peer.reader.card.said))
    {
      if !initialized { late := false; }
      var wasInitialized := initialized;
      var detected := DetectCard();
      if detected.Failure? {
        Invalidate();
        return Failure(detected.error);
      }
      if !detected.value {
        Invalidate();
        return Failure(if wasInitialized then CARD_REMOVED else NO_CARD);
      }
      r := Success(Unit);
      if !initialized { r := Initialize(); }
    }

    /** How a command ends with a conforming card. */
    ghost predicate Ended(history: seq<Happening>, said: seq<Message>, apdu: seq<Byte>, capacity: nat, r: Result<seq<Byte>>)
      reads this
    {
      && hw.peer.Conforming? && Settled(MakeOf(hw.peer.reader), history, said, apdu, capacity, hw.peer.reader.card, r)
      && hw.peer.reader.card.limit == IfsdFor(hw.peer.reader.atr.params) as int
    }

    /** Since t0, being late means that half a second at least went by, and a prompt card costs no more than this. */
    ghost predicate Ends(t0: nat, late0: bool, prompt: bool, cost: nat)
      reads this
    {
      EndsAt(t0, late0, now, late, prompt, cost)
    }

    /** What a command over a prompt card may cost. */
    ghost function CostNow(apdu: seq<Byte>): nat
      requires Valid()
      reads this
    {
      if hw.peer.Conforming? then CommandCost(hw.peer.reader.atr.params.ifsc, hw.peer.reader.atr.params.useCrc, |apdu|, |hw.peer.reader.app(HistoryNow() + [Ran(apdu)])|) else 0
    }

    /** One command over a session that is set up. */
    method RunOnce(apdu: seq<Byte>, capacity: nat) returns (r: Result<seq<Byte>>)
      requires Valid() && initialized
      modifies `hw, `now, `wire, `late, `books, `sendSeq, `recvSeq
      ensures SamePeer(old(hw.peer), hw.peer) && old(wire) <= wire && now >= old(now) && (old(late) ==> late)
      ensures r.Success? ==> |r.value| <= capacity && Transcript(wire[|old(wire)|..], useCrc, old(sendSeq), old(recvSeq), apdu, r.value)
      ensures Ends(old(now), old(late), old(Prompt(hw.peer) && !late), old(CostNow(apdu)))
      ensures hw.peer.Conforming? ==>
                late || (Ended(old(HistoryNow()), old(hw.peer.reader.card.said), apdu, capacity, r) && (r.Success? ==> Settling()))
    {
      r := TransmitInitialized(apdu, capacity, DeadlineAfter(now, OPERATION_TIMEOUT));
      EndsInTime(old(now), old(late), now, late, old(Prompt(hw.peer) && !late), old(CostNow(apdu)), blockTimeout);
    }

    /** As above; any failure drops the session. */
    method Perform(apdu: seq<Byte>, capacity: nat) returns (r: Result<seq<Byte>>)
      requires Valid() && initialized
      modifies this
      ensures Valid() && SamePeer(old(hw.peer), hw.peer) && old(wire) <= wire && now >= old(now) && (old(late) ==> late)
      ensures initialized == r.Success?
      ensures r.Success? ==>
                && |r.value| <= capacity && atr == old(atr)
                && Transcript(wire[|old(wire)|..], atr.value.params.useCrc, old(sendSeq), old(recvSeq), apdu, r.value)
      ensures Ends(old(now), old(late), old(Prompt(hw.peer) && !late), old(CostNow(apdu)))
      ensures hw.peer.Conforming? ==> late || Ended(old(HistoryNow()), old(hw.peer.reader.card.said), apdu, capacity, r)
    {
      r := RunOnce(apdu, capacity);
      if r.Failure? { Invalidate(); }
    }

    /** One command: the card must be there, a lost session is set up again, and any failure drops the session. */
    method Transmit(apdu: seq<Byte>, capacity: nat) returns (r: Result<seq<Byte>>)
      requires Valid()
      modifies this
      ensures Valid() && SamePeer(old(hw.peer), hw.peer) && old(wire) <= wire && initialized == r.Success?
      ensures r.Success? ==>
                |r.value| <= capacity && Carried(old(wire), wire, atr.value, old(initialized), old(sendSeq), old(recvSeq), apdu, r.value)
      ensures Detect(old(hw)).1.Failure? ==> r == Failure(Detect(old(hw)).1.error)
      ensures Detect(old(hw)).1 == Success(false) ==> r == Failure(if old(initialized) then CARD_REMOVED else NO_CARD)
      ensures hw.peer.Conforming? ==> late || Ended(old(HistoryNow()), old(hw.peer.reader.card.said), apdu, capacity, r)
      ensures Ends(old(now), old(late && initialized), old(Prompt(hw.peer) && !(late && initialized)), INIT_COST + 1 + old(CostNow(apdu)))
    {
      var ready := Prepare();
      if ready.Failure? { return Failure(ready.error); }
      ghost var mid := wire;
      r := Perform(apdu, capacity);
      if r.Success? { assert CarriedFrom(old(wire), mid, wire, atr.value, old(initialized), old(sendSeq), old(recvSeq), apdu, r.value); }
    }

    /** One command, and the entry it makes in the log of a conforming card. */
    method TransmitLogged(apdu: seq<Byte>, capacity: nat) returns (r: Result<seq<Byte>>, ghost e: Entry)
      requires Valid()
      modifies this
      ensures Valid() && SamePeer(old(hw.peer), hw.peer) && initialized == r.Success?
      ensures hw.peer.Conforming? ==> Entered(MakeOf(hw.peer.reader), old(Prompt(hw.peer)), capacity, apdu, r, e)
      ensures hw.peer.Conforming? ==> Begins(e, old(HistoryNow()), old(hw.peer.reader.card.said), old(late && initialized), old(now))
                                      && hw.peer.reader.card == e.card && late == e.late && now == e.ended
    {
      r := Transmit(apdu, capacity);
      if hw.peer.Conforming? {
        e := Entry(old(HistoryNow()), old(hw.peer.reader.card.said), old(late && initialized), old(now), hw.peer.reader.card, late, now);
      } else {
        e := Entry([], [], false, 0, BLANK.card, late, now);
      }
    }

    /**
     Any run of commands, each over whatever session the one before left. With a
     conforming card every command that ended within its windows is settled,
     whatever became of those before it; a failed one costs the card a reset.
     */
    method TransmitAll(apdus: seq<seq<Byte>>, capacity: nat) returns (outs: seq<Result<seq<Byte>>>, ghost log: seq<Entry>)
      requires Valid()
      modifies this
      ensures Valid() && |outs| == |log| == |apdus|
      ensures old(hw.peer.Conforming?) ==>
                && Logged(old(MakeOf(hw.peer.reader)), old(Prompt(hw.peer)), capacity, apdus, outs, log)
                && (log != [] ==> Begins(log[0], old(HistoryNow()), old(hw.peer.reader.card.said), old(late && initialized), old(now)))
    {
      outs, log := [], [];
      for n := 0 to |apdus|
        invariant Valid() && |outs| == |log| == n && SamePeer(old(hw.peer), hw.peer)
        invariant hw.peer.Conforming? ==> Logged(MakeOf(hw.peer.reader), Prompt(hw.peer), capacity, apdus[..n], outs, log)
        invariant hw.peer.Conforming? && n > 0 ==>
                    && Begins(log[0], old(HistoryNow()), old(hw.peer.reader.card.said), old(late && initialized), old(now))
                    && Leaves(log[n - 1], outs[n - 1].Success?, HistoryNow(), hw.peer.reader.card.said, late && initialized, now)
        invariant n == 0 ==> hw == old(hw) && initialized == old(initialized) && late == old(late) && now == old(now)
      {
        var r;
        ghost var e;
        r, e := TransmitLogged(apdus[n], capacity);
        if hw.peer.Conforming? { LogGrows(MakeOf(hw.peer.reader), Prompt(hw.peer), capacity, apdus[..n], outs, log, apdus[n], r, e); }
        assert apdus[..n] + [apdus[n]] == apdus[..n + 1];
        outs, log := outs + [r], log + [e];
      }
      assert apdus[..|apdus|] == apdus;
    }
  }

  /** A poll is heard only if it fails, and then as nothing. */
  lemma HeardPoll(wire: seq<Event>, r: Result<bool>)
    ensures Heard(wire + if r.Failure? then [Fault(r.error)] else []) == Heard(wire)
  {
    if r.Failure? { HeardAppend(wire, Fault(r.error)); } else { assert wire + [] == wire; }
  }

  /** A read of up to `room` bytes took the front of what was waiting. */
  ghost predicate Taken(r: Reader, room: nat, r': Reader, chunk: seq<Byte>) {
    var n := Min(room, |r.pending|);
    chunk == r.pending[..n] && r' == r.(pending := r.pending[n..])
  }

  /** The first read of a waiting block: all of it, or a part that shows it to be too long. */
  ghost predicate Read(useCrc: bool, x: Block, chunk: seq<Byte>, verdict: Verdict, left: seq<Byte>)
    requires |x.inf| <= FIELD_MAX
  {
    if |x.inf| <= MaxInf(useCrc) then verdict == Complete && chunk == FrameOf(useCrc, x) && left == [] else verdict == Malformed
  }

  /** What the host collects of a waiting block. */
  ghost function Collected(useCrc: bool, x: Block): Result<(seq<Byte>, bool)>
    requires |x.inf| <= FIELD_MAX
  {
    if |x.inf| <= MaxInf(useCrc) then Success((FrameOf(useCrc, x), |FrameOf(useCrc, x)| == FRAME_MAX)) else Failure(PROTOCOL_ERROR)
  }

  lemma CollectedWhole(useCrc: bool, x: Block, got: (seq<Byte>, bool))
    requires |x.inf| <= FIELD_MAX && Collected(useCrc, x) == Success(got)
    ensures |x.inf| <= MaxInf(useCrc) && |got.0| >= 3 && |got.0| == AnnouncedLength(useCrc, got.0)
    ensures ParseFrame(useCrc, got.0) == Success(x)
  {
    FirstRead(useCrc, x);
  }

  /** What the host makes of a waiting block: itself, unless it is too long for a frame. */
  ghost function Received(useCrc: bool, x: Block): Result<Block> {
    if |x.inf| <= MaxInf(useCrc) then Success(x) else Failure(PROTOCOL_ERROR)
  }

  /** The reader handed over `reply`, or a request for more time while it keeps `reply` back. */
  ghost predicate Delivered(useCrc: bool, base: Reader, reply: Block, r: Result<Block>, reader: Reader) {
    || (r == Received(useCrc, reply) && SameBut(base, reader))
    || (r.Success? && AsksForTime(r.value) && SameBut(base.(held := Some(Held(reply, r.value.inf[0]))), reader))
  }

  ghost function AsMessage(r: Result<Block>): Result<Message> {
    if r.Success? then Success(MessageOf(r.value)) else Failure(r.error)
  }

  /** A card in state c0 at first that has deferred its reply n times since, or is stuck with it. */
  ghost predicate Deferring(useCrc: bool, c0: Card, total: seq<Byte>, n: nat, c: Card) {
    if c0.phase.Owing? then c0.phase.reply == total && c == c0.(phase := Owing(total, n + 1)) else c == c0 && Stuck(useCrc, c0)
  }

  /** The sequence bit to ask such a card for. */
  ghost function Wanted(c: Card): bool {
    if c.phase.Owing? then c.ns else !c.ns
  }

  /** What asking for a reply leads to. */
  ghost predicate Polled(k: Make, c: Card, total: seq<Byte>, c': Card, r: Result<Message>) {
    if c.phase.Owing? then Continued(k, c, total, c', r) else c' == c && r == Failure(PROTOCOL_ERROR)
  }

  /** Asking a card that owes a reply, or is stuck with one: it defers it again, fewer than three times, or replies. */
  lemma AskStep(k: Make, c0: Card, total: seq<Byte>, n: nat, c: Card, c': Card, r: Result<Message>)
    requires Sane(c) && Deferring(k.params.useCrc, c0, total, n, c) && Exchanged(k, c, Message(R(Wanted(c0)), []), c', r)
    ensures if r.Success? && !r.value.control.I? then r.value.control.R? && n + 1 < REJECT_LIMIT && Deferring(k.params.useCrc, c0, total, n + 1, c')
            else Polled(k, c0, total, c', r)
  {
    if c0.phase.Owing? {
      PollStep(k, c, c', r);
      if Continued(k, c, total, c', r) {
        assert Continues(k, c, total, c', r, c'.last.value);
        assert Continues(k, c0, total, c', r, c'.last.value);
      }
    } else {
      StuckStep(k, c, c', r);
    }
  }

  /** What handing over one field of a command leads to: the card has it, and replies to the last. */
  ghost predicate Handed(k: Make, c: Card, data: seq<Byte>, more: bool, c': Card, r: Result<Message>) {
    if more then r.Success? && c' == c.(nr := !c.nr, rejects := 0, last := None, received := c.received + data)
    else Continued(k, Executing(c, data), ReplyTo(k, c, data), c', r)
  }

  /** The card took the last field without its reply reaching the host: it owes it, or it is too long. */
  ghost predicate Deferred(k: Make, c: Card, data: seq<Byte>, c': Card) {
    || c' == Executing(c, data).(phase := Owing(ReplyTo(k, c, data), 1))
    || (c'.last.Some? && forall m :: c'.last == Some(m) ==> StuckWith(k, c, data, c', m))
  }

  ghost predicate StuckWith(k: Make, c: Card, data: seq<Byte>, c': Card, m: Message) {
    Stuck(k.params.useCrc, c') && Sent(c', m, c.ns, ReplyTo(k, c, data)) && Composed(Executing(c, data), c', m)
  }

  /** Where a field that the card accepted leaves it. */
  ghost predicate Placed(k: Make, c: Card, data: seq<Byte>, more: bool, c': Card, r: Result<Message>) {
    r.Success? && if more || r.value.control.I? then Handed(k, c, data, more, c', r) else r.value.control.R? && Deferred(k, c, data, c')
  }

  lemma TookMeans(k: Make, c: Card, data: seq<Byte>, more: bool, c': Card, reply: Message)
    requires Took(k, c, data, more, c', reply)
    ensures Placed(k, c, data, more, c', Success(reply))
  {
  }

  /** A card that took the last field and was asked for its reply. */
  lemma PolledHands(k: Make, c0: Card, data: seq<Byte>, c: Card, c': Card, r: Result<Message>)
    requires Deferred(k, c0, data, c) && Polled(k, c, ReplyTo(k, c0, data), c', r)
    ensures Handed(k, c0, data, false, c', r)
  {
    if c.phase.Owing? {
      assert Continues(k, c, ReplyTo(k, c0, data), c', r, c'.last.value);
    } else {
      assert StuckWith(k, c0, data, c, c.last.value);
    }
  }

  lemma DeferredOwes(k: Make, c: Card, data: seq<Byte>, c': Card)
    requires Deferred(k, c, data, c')
    ensures Deferring(k.params.useCrc, c', ReplyTo(k, c, data), 0, c') && Wanted(c') == c.ns
  {
    if c'.last.Some? && !c'.phase.Owing? { assert StuckWith(k, c, data, c', c'.last.value); }
  }

  /** What one more field of a command does to a card that holds those before it. */
  lemma PartHanded(k: Make, c0: Card, mid: Card, apdu: seq<Byte>, offset: nat, next: nat, last: Result<Message>, c': Card, r: Result<Message>)
    requires offset < next <= |apdu| && c0.rejects == 0 && Following(k, c0, apdu, offset, mid, last)
    requires Handed(k, mid, apdu[offset..next], next < |apdu|, c', r)
    ensures Following(k, c0, apdu, next, c', r) && c'.nr == !mid.nr && (next < |apdu| ==> r.Success?)
  {
    if next < |apdu| {
      NextPart(k, c0, mid, apdu, offset, next - offset, c', r);
    } else {
      assert apdu[offset..next] == apdu[offset..];
      LastPart(k, c0, mid, apdu, offset, c', r);
    }
  }

  /** What the response of a card to a command in hand ends in. */
  ghost predicate Concluded(useCrc: bool, base: Card, total: seq<Byte>, capacity: nat, c: Card, r: Result<seq<Byte>>) {
    && Spoken(base, total, c)
    && match r
       case Success(out) => out == total && |total| <= capacity && AllFit(useCrc, c.said, |base.said|)
       case Failure(e) => (e == BUFFER_TOO_SMALL && |total| > capacity) || (e == PROTOCOL_ERROR && !AllFit(useCrc, c.said, |base.said|))
  }

  /** What taking one block of a card's reply leads to. */
  lemma AnswerTaken(useCrc: bool, base: Card, total: seq<Byte>, out: seq<Byte>, rest: seq<Byte>, m: Message, ns: bool, c: Card, capacity: nat)
    requires Answering(useCrc, base, total, out, rest, m, ns, c)
    ensures m.control.I? && m.control.ns == ns && c.ns == !ns && Spoken(base, total, c)
    ensures |out| + |m.inf| > capacity ==> Concluded(useCrc, base, total, capacity, c, Failure(BUFFER_TOO_SMALL))
    ensures if m.control.more then c.phase.Responding?
            else c.phase == Receiving && (|out| + |m.inf| <= capacity ==> Concluded(useCrc, base, total, capacity, c, Success(out + m.inf)))
  {
  }

  /** A command whose response is concluded is served. */
  lemma CommandServed(k: Make, c0: Card, apdu: seq<Byte>, capacity: nat, c: Card, r: Result<seq<Byte>>)
    requires c0.received == [] && exists nr: bool :: Concluded(k.params.useCrc, Executed(c0, apdu, nr), ReplyTo(k, c0, apdu), capacity, c, r)
    ensures Served(k, c0.history, c0.said, apdu, capacity, c, r) && c.rejects == 0 && c.received == [] && c.limit == c0.limit
  {
    assert c0.received + apdu == apdu;
  }

  /** The longest a command of n bytes with a reply of m may keep a prompt card and its host. */
  function CommandCost(ifsc: nat, useCrc: bool, n: nat, m: nat): nat
    requires ifsc >= 1
  {
    72 * Chunks(n, Min(ifsc, MaxInf(useCrc))) + 4 * m + 12
  }

  /** What a command may cost, together with setting the session up. */
  ghost function ExchangeCost(k: Make, history: seq<Happening>, apdu: seq<Byte>): nat
    requires k.params.ifsc >= 1
  {
    INIT_COST + 1 + CommandCost(k.params.ifsc, k.params.useCrc, |apdu|, |k.app(history + [Ran(apdu)])|)
  }

  /**
   What a successful command did on the wire: the session was set up first
   unless it was, then came the command and its response and nothing else.
   */
  ghost predicate Carried(before: seq<Event>, wire: seq<Event>, a: Atr, initialized: bool, ns: bool, nr: bool, apdu: seq<Byte>, out: seq<Byte>) {
    exists mid :: CarriedFrom(before, mid, wire, a, initialized, ns, nr, apdu, out)
  }

  ghost predicate CarriedFrom(before: seq<Event>, mid: seq<Event>, wire: seq<Event>, a: Atr, initialized: bool, ns: bool, nr: bool, apdu: seq<Byte>, out: seq<Byte>) {
    && before <= mid <= wire && Transcript(wire[|mid|..], a.params.useCrc, initialized && ns, initialized && nr, apdu, out)
    && if initialized then mid == before else SetUp(before, mid, a, IfsdFor(a.params))
  }

  // ---------------------------------------------------------- runs of commands

  /** One command of a run: what came before it, when it began, and what it left. */
  datatype Entry = Entry(history: seq<Happening>, said: seq<Message>, inherited: bool, began: nat, card: Card, late: bool, ended: nat)

  /** A command that ended within its windows is settled; it is late only by the clock, and never with a prompt card. */
  ghost predicate Entered(k: Make, prompt: bool, capacity: nat, apdu: seq<Byte>, r: Result<seq<Byte>>, e: Entry) {
    && (e.late || (Settled(k, e.history, e.said, apdu, capacity, e.card, r) && e.card.limit == IfsdFor(k.params) as int))
    && k.params.ifsc >= 1 && EndsAt(e.began, e.inherited, e.ended, e.late, prompt && !e.inherited, ExchangeCost(k, e.history, apdu))
  }

  ghost predicate Begins(e: Entry, history: seq<Happening>, said: seq<Message>, inherited: bool, now: nat) {
    e.history == history && e.said == said && e.inherited == inherited && e.began == now
  }

  /** What a command leaves to the next: the card as it is, or as a reset will find it, and its lateness unless there is one. */
  ghost predicate Leaves(e: Entry, success: bool, history: seq<Happening>, said: seq<Message>, inherited: bool, now: nat) {
    && history == (if success then e.card.history else e.card.history + [WasReset])
    && said == e.card.said && inherited == (e.late && success) && now == e.ended
  }

  ghost predicate Logged(k: Make, prompt: bool, capacity: nat, apdus: seq<seq<Byte>>, outs: seq<Result<seq<Byte>>>, log: seq<Entry>) {
    |outs| == |log| == |apdus| && forall i :: 0 <= i < |log| ==> LoggedAt(k, prompt, capacity, apdus, outs, log, i)
  }

  /** The i-th entry is that of the i-th command, and follows from the one before. */
  ghost predicate LoggedAt(k: Make, prompt: bool, capacity: nat, apdus: seq<seq<Byte>>, outs: seq<Result<seq<Byte>>>, log: seq<Entry>, i: nat)
    requires i < |outs| == |log| == |apdus|
  {
    && Entered(k, prompt, capacity, apdus[i], outs[i], log[i])
    && (i > 0 ==> Leaves(log[i - 1], outs[i - 1].Success?, log[i].history, log[i].said, log[i].inherited, log[i].began))
  }

  lemma LogGrows(k: Make, prompt: bool, capacity: nat, apdus: seq<seq<Byte>>, outs: seq<Result<seq<Byte>>>, log: seq<Entry>, apdu: seq<Byte>, r: Result<seq<Byte>>, e: Entry)
    requires Logged(k, prompt, capacity, apdus, outs, log) && Entered(k, prompt, capacity, apdu, r, e)
    requires log != [] ==> Leaves(log[|log| - 1], outs[|outs| - 1].Success?, e.history, e.said, e.inherited, e.began)
    ensures Logged(k, prompt, capacity, apdus + [apdu], outs + [r], log + [e])
  {
    var a, o, l := apdus + [apdu], outs + [r], log + [e];
    forall i | 0 <= i < |l| ensures LoggedAt(k, prompt, capacity, a, o, l, i) {
      if i < |log| { assert LoggedAt(k, prompt, capacity, apdus, outs, log, i); }
    }
  }

  /** What the application has gone through before the i-th command: the commands so far, with a reset behind each that failed. */
  ghost function Story(history: seq<Happening>, apdus: seq<seq<Byte>>, outs: seq<Result<seq<Byte>>>, i: nat): seq<Happening>
    requires i <= |apdus| && i <= |outs|
  {
    if i == 0 then history
    else
      Story(history, apdus, outs, i - 1) + (if apdus[i - 1] == [] then [] else [Ran(apdus[i - 1])])
      + if outs[i - 1].Success? then [] else [WasReset]
  }

  /** As long as nothing is late, the card has executed exactly the commands sent, in order and once each. */
  lemma {:induction false} RunTellsStory(k: Make, prompt: bool, capacity: nat, apdus: seq<seq<Byte>>, outs: seq<Result<seq<Byte>>>, log: seq<Entry>, i: nat)
    requires Logged(k, prompt, capacity, apdus, outs, log) && i < |log| && forall j :: 0 <= j < i ==> !log[j].late
    ensures log[i].history == Story(log[0].history, apdus, outs, i)
  {
    if i > 0 {
      RunTellsStory(k, prompt, capacity, apdus, outs, log, i - 1);
      assert LoggedAt(k, prompt, capacity, apdus, outs, log, i - 1);
      assert LoggedAt(k, prompt, capacity, apdus, outs, log, i);
      EntryTells(k, prompt, capacity, apdus[i - 1], outs[i - 1], log[i - 1], log[i]);
    }
  }

  /** What one command that is not late adds to the story. */
  lemma EntryTells(k: Make, prompt: bool, capacity: nat, apdu: seq<Byte>, r: Result<seq<Byte>>, e: Entry, next: Entry)
    requires Entered(k, prompt, capacity, apdu, r, e) && !e.late
    requires Leaves(e, r.Success?, next.history, next.said, next.inherited, next.began)
    ensures next.history == e.history + (if apdu == [] then [] else [Ran(apdu)]) + if r.Success? then [] else [WasReset]
  {
  }

  /** A prompt card whose commands fit the operation timeout never makes the host late. */
  lemma {:induction false} PromptNeverLate(k: Make, capacity: nat, apdus: seq<seq<Byte>>, outs: seq<Result<seq<Byte>>>, log: seq<Entry>, i: nat)
    requires Logged(k, true, capacity, apdus, outs, log) && i < |log| && !log[0].inherited && k.params.ifsc >= 1
    requires forall j :: 0 <= j <= i ==> Brief(k, log[j], apdus[j])
    ensures !log[i].late && !log[i].inherited && log[i].ended <= log[i].began + ExchangeCost(k, log[i].history, apdus[i])
  {
    assert LoggedAt(k, true, capacity, apdus, outs, log, i);
    if i > 0 { PromptNeverLate(k, capacity, apdus, outs, log, i - 1); }
    assert Brief(k, log[i], apdus[i]);
  }

  ghost predicate Brief(k: Make, e: Entry, apdu: seq<Byte>) {
    k.params.ifsc >= 1 && ExchangeCost(k, e.history, apdu) < OPERATION_TIMEOUT && e.began + ExchangeCost(k, e.history, apdu) < CLOCK_MAX
  }

  ghost function ReplyIn(k: Make, e: Entry, apdu: seq<Byte>): seq<Byte> {
    k.app(e.history + [Ran(apdu)])
  }

  /** Below 38400 baud the reply is returned whenever there is room for it. */
  lemma SlowCardsServed(k: Make, prompt: bool, capacity: nat, apdu: seq<Byte>, r: Result<seq<Byte>>, e: Entry)
    requires Entered(k, prompt, capacity, apdu, r, e) && !e.late && apdu != [] && k.params.baud != Baud38400
    ensures r == if |ReplyIn(k, e, apdu)| <= capacity then Success(ReplyIn(k, e, apdu)) else Failure(BUFFER_TOO_SMALL)
  {
  }

  /** At 38400 baud the host announces more than it can receive: a card that takes it at its word is heard only up to its frames. */
  lemma FastCardsServed(k: Make, prompt: bool, capacity: nat, apdu: seq<Byte>, r: Result<seq<Byte>>, e: Entry)
    requires Entered(k, prompt, capacity, apdu, r, e) && !e.late && apdu != [] && k.params.baud == Baud38400
    ensures var total := ReplyIn(k, e, apdu);
            && (|total| <= MaxInf(k.params.useCrc) ==> r == if |total| <= capacity then Success(total) else Failure(BUFFER_TOO_SMALL))
            && (e.card.greedy ==> (r == Success(total) <==> |total| <= capacity && |total| <= MaxInf(k.params.useCrc)))
            && (e.card.greedy && MaxInf(k.params.useCrc) < |total| <= capacity ==> r == Failure(PROTOCOL_ERROR))
  {
  }

  /** What a command must return: the card's reply to everything before it, if it has room. */
  ghost function Due(k: Make, history: seq<Happening>, apdu: seq<Byte>, capacity: nat): Result<seq<Byte>> {
    if apdu == [] then Failure(INVALID_ARGUMENT)
    else if |k.app(history + [Ran(apdu)])| <= capacity then Success(k.app(history + [Ran(apdu)]))
    else Failure(BUFFER_TOO_SMALL)
  }

  /**
   A whole run below 38400 baud in which nothing is late: every command returns
   exactly what is due from a card that has executed exactly the commands so far.
   */
  lemma RunServed(k: Make, prompt: bool, capacity: nat, apdus: seq<seq<Byte>>, outs: seq<Result<seq<Byte>>>, log: seq<Entry>)
    requires Logged(k, prompt, capacity, apdus, outs, log) && k.params.baud != Baud38400
    requires forall i :: 0 <= i < |log| ==> !log[i].late
    ensures forall i :: 0 <= i < |outs| ==> outs[i] == Due(k, Story(log[0].history, apdus, outs, i), apdus[i], capacity)
  {
    forall i | 0 <= i < |outs| ensures outs[i] == Due(k, Story(log[0].history, apdus, outs, i), apdus[i], capacity) {
      RunTellsStory(k, prompt, capacity, apdus, outs, log, i);
      assert LoggedAt(k, prompt, capacity, apdus, outs, log, i);
      if apdus[i] != [] { SlowCardsServed(k, prompt, capacity, apdus[i], outs[i], log[i]); }
    }
  }

  /** The same at any rate for a card that keeps each reply within one of the host's frames. */
  lemma ShortRepliesServed(k: Make, prompt: bool, capacity: nat, apdus: seq<seq<Byte>>, outs: seq<Result<seq<Byte>>>, log: seq<Entry>)
    requires Logged(k, prompt, capacity, apdus, outs, log) && forall h :: |k.app(h)| <= MaxInf(k.params.useCrc)
    requires forall i :: 0 <= i < |log| ==> !log[i].late
    ensures forall i :: 0 <= i < |outs| ==> outs[i] == Due(k, Story(log[0].history, apdus, outs, i), apdus[i], capacity)
  {
    forall i | 0 <= i < |outs| ensures outs[i] == Due(k, Story(log[0].history, apdus, outs, i), apdus[i], capacity) {
      RunTellsStory(k, prompt, capacity, apdus, outs, log, i);
      assert LoggedAt(k, prompt, capacity, apdus, outs, log, i);
      if apdus[i] != [] && k.params.baud != Baud38400 { SlowCardsServed(k, prompt, capacity, apdus[i], outs[i], log[i]); }
      if apdus[i] != [] && k.params.baud == Baud38400 { FastCardsServed(k, prompt, capacity, apdus[i], outs[i], log[i]); }
    }
  }

  /** The card behind a reset and the setting up of a session. */
  ghost function Renewed(r: Reader): Card {
    Opened(r.card, IfsdFor(r.atr.params)).(history := r.card.history + [WasReset])
  }

  /** A command from t0 to t: late only if half a second went by, and never with a prompt card whose cost fits the operation timeout. */
  predicate EndsAt(t0: nat, late0: bool, t: nat, late: bool, prompt: bool, cost: nat) {
    && (late ==> late0 || t >= DeadlineAfter(t0, DEFAULT_TIMEOUT))
    && (prompt && cost < OPERATION_TIMEOUT && t0 + cost < CLOCK_MAX ==> !late && t <= t0 + cost)
  }

  lemma EndsInTime(t0: nat, late0: bool, t: nat, late: bool, prompt: bool, cost: nat, window: nat)
    requires window >= DEFAULT_TIMEOUT && InTime(t0, late0, t, late, prompt, cost, cost, window, DeadlineAfter(t0, OPERATION_TIMEOUT))
    requires prompt ==> !late0
    ensures EndsAt(t0, late0, t, late, prompt, cost)
  {
  }

  lemma OpensInTime(t0: nat, t1: nat, late1: bool, t2: nat, late2: bool, prompt: bool, window: nat)
    requires InTime(t0, false, t1, late1, prompt, ATR_COST + 3, ATR_COST + 3, ATR_TIMEOUT, DeadlineAfter(t0, ATR_TIMEOUT))
    requires InTime(t1, late1, t2, late2, prompt && !late1, 24, 24, window, DeadlineAfter(t1, OPERATION_TIMEOUT)) && window >= DEFAULT_TIMEOUT
    ensures InTime(t0, false, t2, late2, prompt, INIT_COST, INIT_COST, DEFAULT_TIMEOUT, DeadlineAfter(t0, DEFAULT_TIMEOUT))
  {
  }

  /** The card behind a resynchronisation and the announcement of the host's field size. */
  ghost function Opened(c: Card, ifsd: Byte): Card {
    Restarted(c).(limit := ifsd as int)
  }

  /** Only the control byte itself reads as a supervisory one. */
  lemma ReadsAs(b: Block, code: Byte)
    requires MessageOf(b).control == S(code)
    ensures b.pcb == code
  {
  }

  // ------------------------------------------ a field the host cannot receive

  /** An answer to reset that asks for 38400 baud and T=1. */
  const FAST := Atr([0x3b, 0x90, 0x13, 0x01, 0x82], Params(Baud38400, 32, false, DEFAULT_TIMEOUT))

  lemma FastAnswers()
    ensures WholeAnswer(FAST)
  {
    var bytes := FAST.bytes;
    var w := Walk(4, 2, 0, true, true, FAST.params);
    assert Start(bytes) == Walk(2, 1, 9, false, false, DEFAULTS);
    assert TakeGroup(bytes, 2, 9) == Success(Group(Some(0x13), None, None, 3));
    assert WalkAll(bytes, w) == Success(w);
    assert WalkAll(bytes, Start(bytes)) == Success(w);
    assert bytes[1..] == [0x90, 0x13, 0x01, 0x82];
    FastChecksum();
    AnswerParses(FAST);
  }

  lemma FastChecksum()
    ensures Lrc([0x90, 0x13, 0x01, 0x82]) == 0
  {
    var s: seq<Byte> := [0x90, 0x13, 0x01, 0x82];
    assert s[..3][..2] == s[..2] && s[..2][..1] == s[..1] && s[..1][..0] == [];
    assert Lrc(s[..1]) == 0x90;
    assert Lrc(s[..2]) == 0x83;
    assert Lrc(s[..3]) == 0x82;
  }

  /** A prompt card that answers every command with 252 bytes, in as long fields as it may. */
  function Talkative(): Hardware {
    var card := Card(false, false, Receiving, [], 0, DEFAULT_LIMIT, None, [], [], true);
    var at := (n: nat) => Choice(false, false, 0, 0, 0, true, 0);
    Hardware(0, Conforming(at, Reader((h: seq<Happening>) => seq(252, i => 0), FAST, Baud9600, card, None, [], false)))
  }

  /** Within all its windows, a command to that card fails: its reply of 252 bytes comes in one block, as announced, and is refused. */
  method LongFieldRun(apdu: seq<Byte>) returns (r: Result<seq<Byte>>)
    requires 1 <= |apdu| <= 32
    ensures r == Failure(PROTOCOL_ERROR)
  {
    FastAnswers();
    var session := new CardSession(Talkative(), 0);
    ghost var e;
    r, e := session.TransmitLogged(apdu, 300);
    ghost var k := MakeOf(session.hw.peer.reader);
    assert Chunks(|apdu|, 32) == 1 by { assert Chunks(0, 32) == 0; }
    assert ExchangeCost(k, e.history, apdu) == INIT_COST + 1 + 72 + 4 * 252 + 12;
    FastCardsServed(k, true, 300, apdu, r, e);
  }
}
