/** The ordering rules of a connection: one state machine per endpoint, and two endpoints joined by FIFO channels. */
module Connection {
  import opened Errors
  import opened FrameCodec

  datatype Role = ControlClient | ControlServer | StreamClient | StreamServer

  datatype Phase = Initial | Handshake | Active | Closed | Poisoned

  datatype Notice = RequestAccepted | ResponseAccepted | EventAccepted | HelloResponseRequired
                  | VersionMismatchResponseRequired | AttachResponseRequired | TsDataAccepted | StreamEndAccepted

  datatype Accepted = Accepted(notice: Notice, mtype: nat, negotiated: Capabilities)

  /** A capability word: its four assigned bits, and the number the other bits make. */
  datatype Capabilities = Capabilities(events: bool, card: bool, stats: bool, binding: bool, others: nat)

  const NOTHING := Capabilities(false, false, false, false, 0)

  function Word(n: nat): (c: Capabilities)
    ensures n == Bit(c.events) + 2 * Bit(c.card) + 4 * Bit(c.stats) + 8 * Bit(c.binding) + 16 * c.others
  {
    var (a, b, c) := (n / 2, n / 2 / 2, n / 2 / 2 / 2);
    Capabilities(n % 2 == 1, a % 2 == 1, b % 2 == 1, c % 2 == 1, c / 2)
  }

  function Bit(b: bool): nat {
    if b then 1 else 0
  }

  function Known(c: Capabilities): Capabilities {
    c.(others := 0)
  }

  /** The assigned bits both sides have. */
  function Shared(a: Capabilities, b: Capabilities): Capabilities {
    Capabilities(a.events && b.events, a.card && b.card, a.stats && b.stats, a.binding && b.binding, 0)
  }

  predicate Within(a: Capabilities, b: Capabilities) {
    (a.events ==> b.events) && (a.card ==> b.card) && (a.stats ==> b.stats) && (a.binding ==> b.binding)
  }

  const MISMATCH := 2
  const LAST_SEQUENCE := 0xffff_ffff_ffff_ffff

  /** The negotiated capabilities allow a request of this type. */
  predicate Allowed(c: Capabilities, t: int) {
    && (CARD_STATUS <= t <= CARD_HANDLE_STATUS ==> c.card)
    && (t == CARD_HANDLE_STATUS ==> c.binding)
    && (t == STATS ==> c.stats)
  }

  /** The number of width w at offset o; 0 past the end, which a frame that passed validation never needs. */
  function Field(p: seq<Byte>, o: nat, w: nat): nat {
    if o + w <= |p| then Num(p, o, w) else 0
  }

  function Caps(p: seq<Byte>, o: nat): Capabilities {
    Word(Field(p, o, 4))
  }

  predicate AtMost(major: nat, minor: nat, major': nat, minor': nat) {
    major < major' || (major == major' && minor <= minor')
  }

  predicate IncludesV1(p: seq<Byte>) {
    AtMost(Field(p, 0, 2), Field(p, 2, 2), MAJOR, MINOR) && AtMost(MAJOR, MINOR, Field(p, 4, 2), Field(p, 6, 2))
  }

  /** A response that answers the request. */
  predicate Matches(request: Header, response: Header) {
    && !IsEvent(request.mtype) && request.kind == Request && (response.kind == Response || response.kind == ErrorResponse)
    && request.major == response.major && request.minor == response.minor
    && request.mtype == response.mtype && request.request == response.request
  }

  // ----------------------------------------------------- the rules, as values

  datatype Machine = Machine(role: Role, supported: Capabilities, phase: Phase, requested: Capabilities, negotiated: Capabilities,
                             pending: Option<Header>, compatible: bool, lastTs: Option<nat>)

  function Start(role: Role, supported: Capabilities): Machine {
    Machine(role, Known(supported), Initial, NOTHING, NOTHING, None, false, None)
  }

  predicate IsClient(role: Role) {
    role == ControlClient || role == StreamClient
  }

  predicate IsControl(role: Role) {
    role == ControlClient || role == ControlServer
  }

  /** Whether a frame this endpoint sends (or receives) travels from client to server. */
  predicate Upward(role: Role, outbound: bool) {
    IsClient(role) == outbound
  }

  predicate Answers(m: Machine, f: Frame) {
    m.pending.Some? && Matches(m.pending.value, f.header)
  }

  predicate IsTs(f: Frame) {
    f.header.kind == Event && (f.header.mtype == TS_DATA || f.header.mtype == STREAM_END)
  }

  predicate IsDeviceEvent(f: Frame) {
    f.header.kind == Event && f.header.mtype == DEVICE_EVENT
  }

  function Sequence(f: Frame): nat {
    Field(f.payload, 0, 8)
  }

  function Drops(f: Frame): nat {
    Field(f.payload, 8, 8)
  }

  predicate TsInOrder(last: Option<nat>, f: Frame) {
    f.header.mtype == TS_DATA ==>
      Drops(f) == 0 && (last.Some? ==> last.value != LAST_SEQUENCE && Sequence(f) == last.value + 1)
  }

  predicate OpensWith(role: Role, f: Frame) {
    f.header.kind == Request && f.header.mtype == if IsControl(role) then HELLO else ATTACH_STREAM
  }

  /** The extra conditions on the answer to HELLO, which differ on the two sides. */
  predicate HelloAnswerOk(m: Machine, f: Frame) {
    if m.role == ControlServer then
      if m.compatible then f.header.kind == Response && Caps(f.payload, 4) == m.negotiated
      else f.header.kind == ErrorResponse && Field(f.payload, 0, 4) == MISMATCH
    else
      f.header.kind == Response ==> Within(Caps(f.payload, 4), m.requested)
  }

  /** The frames an endpoint in good standing lets through, `up` being the direction from client to server. */
  predicate Admits(m: Machine, up: bool, f: Frame) {
    match m.phase
    case Initial => up && OpensWith(m.role, f)
    case Handshake => !up && Answers(m, f) && (IsControl(m.role) ==> HelloAnswerOk(m, f))
    case Active =>
      if IsControl(m.role) then
        if up then
          m.pending.None? && f.header.kind == Request && IsControlRequest(f.header.mtype)
          && Allowed(m.negotiated, f.header.mtype)
        else if IsDeviceEvent(f) then m.negotiated.events
        else Answers(m, f)
      else !up && IsTs(f) && TsInOrder(m.lastTs, f)
    case _ => false
  }

  /** The endpoint after a frame it lets through. */
  function After(m: Machine, f: Frame): Machine {
    match m.phase
    case Initial =>
      var begun := m.(phase := Handshake, pending := Some(f.header));
      if !IsControl(m.role) then begun
      else
        var asked := begun.(requested := Caps(f.payload, 8));
        if m.role == ControlClient then asked
        else asked.(compatible := IncludesV1(f.payload), negotiated := Shared(asked.requested, m.supported))
    case Handshake =>
      var settled := m.(phase := if f.header.kind == Response then Active else Closed, pending := None);
      if m.role == ControlClient && f.header.kind == Response then settled.(negotiated := Known(Caps(f.payload, 4))) else settled
    case Active =>
      if IsDeviceEvent(f) then m
      else if IsTs(f) then
        if f.header.mtype == STREAM_END then m.(phase := Closed) else m.(lastTs := Some(Sequence(f)))
      else if f.header.kind == Request then m.(pending := Some(f.header))
      else m.(pending := None)
    case _ => m
  }

  function Poison(m: Machine): Machine {
    m.(phase := Poisoned, pending := None)
  }

  /** A validated frame lies within the rules. */
  predicate Accepts(m: Machine, outbound: bool, f: Frame) {
    Admits(m, Upward(m.role, outbound), f)
  }

  /** One validated frame through an endpoint. */
  function Advance(m: Machine, outbound: bool, f: Frame): Machine {
    if m.phase == Poisoned || m.phase == Closed then m else if Accepts(m, outbound, f) then After(m, f) else Poison(m)
  }

  /** One frame through an endpoint. */
  function Process(m: Machine, outbound: bool, f: Frame): Machine {
    if m.phase == Poisoned || m.phase == Closed || FrameOk(f) then Advance(m, outbound, f) else Poison(m)
  }

  /** What an endpoint reports of a frame it let through. */
  function NoticeOf(m: Machine, f: Frame): Notice {
    match m.phase
    case Initial =>
      if m.role == ControlServer then
        if IncludesV1(f.payload) then HelloResponseRequired else VersionMismatchResponseRequired
      else if m.role == StreamServer then AttachResponseRequired
      else RequestAccepted
    case _ =>
      match f.header.kind
      case Request => RequestAccepted
      case Event =>
        if f.header.mtype == DEVICE_EVENT then EventAccepted
        else if f.header.mtype == TS_DATA then TsDataAccepted
        else StreamEndAccepted
      case _ => ResponseAccepted
  }

  /** The result of a call that met the validated frame f in state m. */
  function Report(m: Machine, outbound: bool, f: Frame): Result<Accepted> {
    if m.phase == Poisoned then Failure(PROTOCOL_ERROR)
    else if m.phase == Closed then Failure(DISCONNECTED)
    else if Accepts(m, outbound, f) then Success(Accepted(NoticeOf(m, f), f.header.mtype, After(m, f).negotiated))
    else Failure(PROTOCOL_ERROR)
  }

  // ---------------------------------------------------- the endpoint itself

  const NO_HEADER := Header(0, 0, HELLO, Request, 0, 0)

  class ConnectionStateMachine {
    const role: Role
    const supported: Capabilities
    var phase: Phase
    var requested: Capabilities
    var negotiated: Capabilities
    var pendingHeader: Header
    var pending: bool
    var compatible: bool
    var sequenceSeen: bool
    var lastSequence: nat

    function Snapshot(): Machine
      reads this
    {
      Machine(role, supported, phase, requested, negotiated, if pending then Some(pendingHeader) else None, compatible,
              if sequenceSeen then Some(lastSequence) else None)
    }

    constructor (role: Role, offered: Capabilities)
      ensures Snapshot() == Start(role, offered)
    {
      this.role, supported := role, Known(offered);
      phase, requested, negotiated := Initial, NOTHING, NOTHING;
      pendingHeader, pending, compatible, sequenceSeen, lastSequence := NO_HEADER, false, false, false, 0;
    }

    function Accept(notice: Notice, mtype: nat): Result<Accepted>
      reads this
    {
      Success(Accepted(notice, mtype, negotiated))
    }

    method SetPending(h: Header)
      modifies this
      ensures Snapshot() == old(Snapshot()).(pending := Some(h))
    {
      pendingHeader, pending := h, true;
    }

    method ClearPending()
      modifies this
      ensures Snapshot() == old(Snapshot()).(pending := None)
    {
      pendingHeader, pending := NO_HEADER, false;
    }

    method Violation() returns (r: Result<Accepted>)
      modifies this
      ensures r == Failure(PROTOCOL_ERROR) && Snapshot() == Poison(old(Snapshot()))
    {
      phase := Poisoned;
      ClearPending();
      r := Failure(PROTOCOL_ERROR);
    }

    /** A frame on its way out. */
    method ProcessOutbound(f: Frame) returns (r: Result<Accepted>)
      modifies this
      ensures Snapshot() == Process(old(Snapshot()), true, f)
      ensures FrameOk(f) ==> r == Report(old(Snapshot()), true, f)
      ensures !FrameOk(f) ==> r == Failure(if old(phase) == Closed then DISCONNECTED else PROTOCOL_ERROR)
    {
      if phase == Poisoned { return Failure(PROTOCOL_ERROR); }
      if phase == Closed { return Failure(DISCONNECTED); }
      if !FrameOk(f) { r := Violation(); return; }
      r := Dispatch(f, true);
    }

    /** A frame on its way in. */
    method ProcessInbound(f: Frame) returns (r: Result<Accepted>)
      modifies this
      ensures Snapshot() == Process(old(Snapshot()), false, f)
      ensures FrameOk(f) ==> r == Report(old(Snapshot()), false, f)
      ensures !FrameOk(f) ==> r == Failure(if old(phase) == Closed then DISCONNECTED else PROTOCOL_ERROR)
    {
      if phase == Poisoned { return Failure(PROTOCOL_ERROR); }
      if phase == Closed { return Failure(DISCONNECTED); }
      if !FrameOk(f) { r := Violation(); return; }
      r := Dispatch(f, false);
    }

    method Dispatch(f: Frame, outbound: bool) returns (r: Result<Accepted>)
      requires HeaderOk(f.header) && phase != Poisoned && phase != Closed
      modifies this
      ensures Snapshot() == Advance(old(Snapshot()), outbound, f) && r == Report(old(Snapshot()), outbound, f)
    {
      match role
      case ControlClient => r := ProcessControlClient(f, outbound);
      case ControlServer => r := ProcessControlServer(f, outbound);
      case StreamClient => r := ProcessStream(f, outbound, true);
      case StreamServer => r := ProcessStream(f, outbound, false);
    }

    method ProcessControlClient(f: Frame, outbound: bool) returns (r: Result<Accepted>)
      requires HeaderOk(f.header) && role == ControlClient && phase != Poisoned && phase != Closed
      modifies this
      ensures Snapshot() == Advance(old(Snapshot()), outbound, f) && r == Report(old(Snapshot()), outbound, f)
    {
      if phase == Initial {
        if !outbound || f.header.kind != Request || f.header.mtype != HELLO { r := Violation(); return; }
        requested := Caps(f.payload, 8);
        SetPending(f.header);
        phase := Handshake;
        return Accept(RequestAccepted, f.header.mtype);
      }
      if phase == Handshake {
        if outbound || !pending || !Matches(pendingHeader, f.header) { r := Violation(); return; }
        if f.header.kind == ErrorResponse {
          ClearPending();
          phase := Closed;
          return Accept(ResponseAccepted, f.header.mtype);
        }
        if !Within(Known(Caps(f.payload, 4)), Known(requested)) { r := Violation(); return; }
        negotiated := Known(Caps(f.payload, 4));
        ClearPending();
        phase := Active;
        return Accept(ResponseAccepted, f.header.mtype);
      }
      r := ProcessActiveControl(f, outbound, outbound);
    }

    method ProcessControlServer(f: Frame, outbound: bool) returns (r: Result<Accepted>)
      requires HeaderOk(f.header) && role == ControlServer && phase != Poisoned && phase != Closed
      modifies this
      ensures Snapshot() == Advance(old(Snapshot()), outbound, f) && r == Report(old(Snapshot()), outbound, f)
    {
      if phase == Initial {
        if outbound || f.header.kind != Request || f.header.mtype != HELLO { r := Violation(); return; }
        requested := Caps(f.payload, 8);
        compatible := IncludesV1(f.payload);
        negotiated := Shared(requested, supported);
        SetPending(f.header);
        phase := Handshake;
        return Accept(if compatible then HelloResponseRequired else VersionMismatchResponseRequired, f.header.mtype);
      }
      if phase == Handshake {
        if !outbound || !pending || !Matches(pendingHeader, f.header) { r := Violation(); return; }
        if compatible {
          if f.header.kind != Response || Caps(f.payload, 4) != negotiated { r := Violation(); return; }
          ClearPending();
          phase := Active;
        } else {
          if f.header.kind != ErrorResponse || Field(f.payload, 0, 4) != MISMATCH { r := Violation(); return; }
          ClearPending();
          phase := Closed;
        }
        return Accept(ResponseAccepted, f.header.mtype);
      }
      r := ProcessActiveControl(f, outbound, !outbound);
    }

    /** The rules both control endpoints share once active. */
    method ProcessActiveControl(f: Frame, ghost outbound: bool, up: bool) returns (r: Result<Accepted>)
      requires HeaderOk(f.header) && IsControl(role) && phase == Active && up == Upward(role, outbound)
      modifies this
      ensures Snapshot() == Advance(old(Snapshot()), outbound, f) && r == Report(old(Snapshot()), outbound, f)
    {
      if up {
        if pending || f.header.kind != Request || !IsControlRequest(f.header.mtype) || !Allowed(negotiated, f.header.mtype) {
          r := Violation();
          return;
        }
        SetPending(f.header);
        return Accept(RequestAccepted, f.header.mtype);
      }
      if f.header.kind == Event && f.header.mtype == DEVICE_EVENT {
        if !negotiated.events { r := Violation(); return; }
        return Accept(EventAccepted, f.header.mtype);
      }
      if !pending || !Matches(pendingHeader, f.header) { r := Violation(); return; }
      ClearPending();
      r := Accept(ResponseAccepted, f.header.mtype);
    }

    method ProcessStream(f: Frame, outbound: bool, client: bool) returns (r: Result<Accepted>)
      requires HeaderOk(f.header) && !IsControl(role) && client == IsClient(role) && phase != Poisoned && phase != Closed
      modifies this
      ensures Snapshot() == Advance(old(Snapshot()), outbound, f) && r == Report(old(Snapshot()), outbound, f)
    {
      if phase == Initial {
        if outbound != client || f.header.kind != Request || f.header.mtype != ATTACH_STREAM { r := Violation(); return; }
        SetPending(f.header);
        phase := Handshake;
        return Accept(if client then RequestAccepted else AttachResponseRequired, f.header.mtype);
      }
      if phase == Handshake {
        if outbound == client || !pending || !Matches(pendingHeader, f.header) { r := Violation(); return; }
        ClearPending();
        phase := if f.header.kind == Response then Active else Closed;
        return Accept(ResponseAccepted, f.header.mtype);
      }
      if outbound == client || !IsTs(f) { r := Violation(); return; }
      r := ProcessTsEvent(f, outbound);
    }

    method ProcessTsEvent(f: Frame, ghost outbound: bool) returns (r: Result<Accepted>)
      requires !IsControl(role) && phase == Active && IsTs(f) && !Upward(role, outbound)
      modifies this
      ensures Snapshot() == Advance(old(Snapshot()), outbound, f) && r == Report(old(Snapshot()), outbound, f)
    {
      if f.header.mtype == STREAM_END {
        phase := Closed;
        return Accept(StreamEndAccepted, f.header.mtype);
      }
      if Drops(f) != 0 { r := Violation(); return; }
      if sequenceSeen && (lastSequence == LAST_SEQUENCE || Sequence(f) != lastSequence + 1) { r := Violation(); return; }
      lastSequence, sequenceSeen := Sequence(f), true;
      r := Accept(TsDataAccepted, f.header.mtype);
    }

    method Reset()
      modifies this
      ensures Snapshot() == Start(role, supported).(supported := supported)
    {
      phase, requested, negotiated := Initial, NOTHING, NOTHING;
      ClearPending();
      compatible, sequenceSeen, lastSequence := false, false, 0;
    }
  }

  // ---------------------------------------------- two endpoints, in agreement

  predicate Paired(c: Machine, s: Machine) {
    (c.role == ControlClient && s.role == ControlServer) || (c.role == StreamClient && s.role == StreamServer)
  }

  /** Both endpoints have processed the same frames. */
  predicate Agree(c: Machine, s: Machine) {
    && Paired(c, s) && c.phase == s.phase && c.phase != Poisoned && c.pending == s.pending && c.lastTs == s.lastTs
    && (c.phase != Active ==> c.pending.Some? == (c.phase == Handshake))
    && (c.phase == Handshake ==> c.pending.value.mtype == if IsControl(c.role) then HELLO else ATTACH_STREAM)
    && (IsControl(c.role) && c.phase == Handshake ==>
          c.requested == s.requested && s.negotiated == Shared(s.requested, s.supported))
    && (IsControl(c.role) && c.phase == Active ==> c.negotiated == s.negotiated)
    && (!IsControl(c.role) && c.phase == Active ==> c.pending.None?)
  }

  /** What the client may send, the agreeing server takes, and they agree again. */
  lemma AgreeUp(c: Machine, s: Machine, f: Frame)
    requires Agree(c, s) && Accepts(c, true, f)
    ensures Accepts(s, false, f) && Agree(Advance(c, true, f), Advance(s, false, f))
    ensures Advance(s, false, f).pending.Some?
  {
  }

  /** What the server may send, the agreeing client takes, and they agree again. */
  lemma AgreeDown(c: Machine, s: Machine, f: Frame)
    requires Agree(c, s) && Accepts(s, true, f)
    ensures Accepts(c, false, f) && Agree(Advance(c, false, f), Advance(s, true, f))
  {
  }

  // --------------------------------------------------------- frames in flight

  /** The endpoint takes all of these frames in this order. */
  predicate Takes(m: Machine, queue: seq<Frame>)
    decreases |queue|
  {
    queue == [] || (Accepts(m, false, queue[0]) && Takes(Advance(m, false, queue[0]), queue[1..]))
  }

  function Replay(m: Machine, queue: seq<Frame>): Machine
    decreases |queue|
  {
    if queue == [] then m else Replay(Advance(m, false, queue[0]), queue[1..])
  }

  lemma {:induction false} Enqueued(m: Machine, queue: seq<Frame>, f: Frame)
    ensures Replay(m, queue + [f]) == Advance(Replay(m, queue), false, f)
    ensures Takes(m, queue + [f]) == (Takes(m, queue) && Accepts(Replay(m, queue), false, f))
    decreases |queue|
  {
    if queue == [] {
      assert [f][1..] == [];
    } else {
      assert (queue + [f])[0] == queue[0] && (queue + [f])[1..] == queue[1..] + [f];
      Enqueued(Advance(m, false, queue[0]), queue[1..], f);
    }
  }

  lemma {:induction false} ReplayKeepsRole(m: Machine, queue: seq<Frame>)
    ensures Replay(m, queue).role == m.role && Replay(m, queue).supported == m.supported
    decreases |queue|
  {
    if queue != [] { ReplayKeepsRole(Advance(m, false, queue[0]), queue[1..]); }
  }

  /** A client with no request outstanding has only events on their way to it, and they leave it as it is. */
  lemma {:induction false} OnlyEvents(c: Machine, queue: seq<Frame>)
    requires c.role == ControlClient && c.phase == Active && c.pending.None? && Takes(c, queue)
    ensures Replay(c, queue) == c && forall i :: 0 <= i < |queue| ==> IsDeviceEvent(queue[i])
    decreases |queue|
  {
    if queue != [] {
      assert Advance(c, false, queue[0]) == c;
      OnlyEvents(c, queue[1..]);
    }
  }

  lemma {:induction false} EventsPass(c: Machine, queue: seq<Frame>)
    requires c.role == ControlClient && c.phase == Active && (queue != [] ==> c.negotiated.events)
    requires forall i :: 0 <= i < |queue| ==> IsDeviceEvent(queue[i])
    ensures Takes(c, queue) && Replay(c, queue) == c
    decreases |queue|
  {
    if queue != [] {
      assert Advance(c, false, queue[0]) == c;
      EventsPass(c, queue[1..]);
    }
  }

  // -------------------------------------------------------------- whole runs

  /** A frame an endpoint let through, and its direction. */
  datatype Hop = Hop(outbound: bool, frame: Frame)

  /** Two endpoints, the frames in flight each way, and what each endpoint has let through so far. */
  datatype Link = Link(client: Machine, server: Machine, up: seq<Frame>, down: seq<Frame>,
                       clientLog: seq<Hop>, serverLog: seq<Hop>)

  datatype Move = ClientSends(f: Frame) | ServerSends(f: Frame) | ClientReceives | ServerReceives

  /** Senders send only what their own machine accepts; receivers take whatever comes next. */
  predicate Enabled(l: Link, m: Move) {
    match m
    case ClientSends(f) => FrameOk(f) && Accepts(l.client, true, f)
    case ServerSends(f) => FrameOk(f) && Accepts(l.server, true, f)
    case ClientReceives => l.down != []
    case ServerReceives => l.up != []
  }

  function Next(l: Link, m: Move): Link
    requires Enabled(l, m)
  {
    match m
    case ClientSends(f) => ClientSent(l, Process(l.client, true, f), f)
    case ServerSends(f) => ServerSent(l, Process(l.server, true, f), f)
    case ClientReceives => ClientGot(l, Process(l.client, false, l.down[0]))
    case ServerReceives => ServerGot(l, Process(l.server, false, l.up[0]))
  }

  function ClientSent(l: Link, client: Machine, f: Frame): Link {
    l.(client := client, up := l.up + [f], clientLog := l.clientLog + [Hop(true, f)])
  }

  function ServerSent(l: Link, server: Machine, f: Frame): Link {
    l.(server := server, down := l.down + [f], serverLog := l.serverLog + [Hop(true, f)])
  }

  function ClientGot(l: Link, client: Machine): Link
    requires l.down != []
  {
    l.(client := client, down := l.down[1..], clientLog := l.clientLog + [Hop(false, l.down[0])])
  }

  function ServerGot(l: Link, server: Machine): Link
    requires l.up != []
  {
    l.(server := server, up := l.up[1..], serverLog := l.serverLog + [Hop(false, l.up[0])])
  }

  predicate Runs(l: Link, moves: seq<Move>, last: Link)
    decreases |moves|
  {
    if moves == [] then l == last else Enabled(l, moves[0]) && Runs(Next(l, moves[0]), moves[1..], last)
  }

  function Begin(control: bool, offered: Capabilities, supported: Capabilities): Link {
    if control then Link(Start(ControlClient, offered), Start(ControlServer, supported), [], [], [], [])
    else Link(Start(StreamClient, offered), Start(StreamServer, supported), [], [], [], [])
  }

  /** Delivering everything in flight is possible, and brings the endpoints to agreement. */
  predicate InStep(client: Machine, server: Machine, up: seq<Frame>, down: seq<Frame>) {
    && Paired(client, server)
    && Takes(client, down) && Takes(server, up)
    && Agree(Replay(client, down), Replay(server, up))
    && |up| <= 1 && (up != [] ==> Replay(server, up).pending.Some?)
  }

  lemma OneInFlight(m: Machine, up: seq<Frame>)
    requires |up| == 1
    ensures Takes(m, up) == Accepts(m, false, up[0]) && Replay(m, up) == Advance(m, false, up[0])
  {
    assert up[1..] == [];
  }

  /** Before it sends, a client has nothing but events on their way to it; sending does not change how they are taken. */
  lemma SendingClient(c: Machine, down: seq<Frame>, f: Frame)
    requires IsClient(c.role) && Accepts(c, true, f) && Takes(c, down)
    ensures Replay(c, down) == c && Takes(Advance(c, true, f), down) && Replay(Advance(c, true, f), down) == Advance(c, true, f)
  {
    if c.phase == Initial {
      assert down == [];
    } else {
      OnlyEvents(c, down);
      EventsPass(Advance(c, true, f), down);
    }
  }

  lemma ClientSendKeeps(c: Machine, s: Machine, up: seq<Frame>, down: seq<Frame>, f: Frame)
    requires InStep(c, s, up, down) && Accepts(c, true, f)
    ensures InStep(Advance(c, true, f), s, up + [f], down)
  {
    SendingClient(c, down, f);
    assert c.pending.None?;
    assert up == [];
    AgreeUp(c, s, f);
    assert up + [f] == [f];
    OneInFlight(s, [f]);
  }

  lemma ServerSendKeeps(c: Machine, s: Machine, up: seq<Frame>, down: seq<Frame>, f: Frame)
    requires InStep(c, s, up, down) && Accepts(s, true, f)
    ensures InStep(c, Advance(s, true, f), up, down + [f])
  {
    Enqueued(c, down, f);
    if up == [] {
      AgreeDown(Replay(c, down), s, f);
    } else {
      OneInFlight(s, up);
      assert Advance(s, true, f) == s;
      assert Accepts(Replay(c, down), false, f) && Advance(Replay(c, down), false, f) == Replay(c, down);
    }
  }

  predicate AllOk(queue: seq<Frame>) {
    forall i :: 0 <= i < |queue| ==> FrameOk(queue[i])
  }

  /** The invariant of a link. */
  predicate Sound(l: Link) {
    && InStep(l.client, l.server, l.up, l.down) && AllOk(l.up) && AllOk(l.down)
    && Passed(l.clientLog, true) == Passed(l.serverLog, false) + l.up
    && Passed(l.serverLog, true) == Passed(l.clientLog, false) + l.down
  }

  /** The frames an endpoint let through in one direction. */
  function Passed(log: seq<Hop>, outbound: bool): seq<Frame> {
    if log == [] then []
    else
      var last := log[|log| - 1];
      Passed(log[..|log| - 1], outbound) + if last.outbound == outbound then [last.frame] else []
  }

  lemma Logged(log: seq<Hop>, h: Hop)
    ensures Passed(log + [h], h.outbound) == Passed(log, h.outbound) + [h.frame]
    ensures Passed(log + [h], !h.outbound) == Passed(log, !h.outbound)
  {
    assert (log + [h])[..|log|] == log;
  }

  lemma ClientSendSound(l: Link, f: Frame)
    requires Sound(l) && Enabled(l, ClientSends(f))
    ensures Sound(Next(l, ClientSends(f)))
  {
    ClientSendKeeps(l.client, l.server, l.up, l.down, f);
    Logged(l.clientLog, Hop(true, f));
  }

  lemma ServerSendSound(l: Link, f: Frame)
    requires Sound(l) && Enabled(l, ServerSends(f))
    ensures Sound(Next(l, ServerSends(f)))
  {
    ServerSendKeeps(l.client, l.server, l.up, l.down, f);
    Logged(l.serverLog, Hop(true, f));
  }

  lemma QueueShift(sent: seq<Frame>, got: seq<Frame>, queue: seq<Frame>)
    requires sent == got + queue && queue != []
    ensures sent == (got + [queue[0]]) + queue[1..]
  {
  }

  lemma ClientReceiveKeeps(c: Machine, s: Machine, up: seq<Frame>, down: seq<Frame>)
    requires InStep(c, s, up, down) && down != []
    ensures Accepts(c, false, down[0]) && InStep(Advance(c, false, down[0]), s, up, down[1..])
  {
  }

  lemma ServerReceiveKeeps(c: Machine, s: Machine, up: seq<Frame>, down: seq<Frame>)
    requires InStep(c, s, up, down) && up != []
    ensures Accepts(s, false, up[0]) && InStep(c, Advance(s, false, up[0]), up[1..], down)
  {
    OneInFlight(s, up);
  }

  lemma ClientReceiveSound(l: Link)
    requires Sound(l) && l.down != []
    ensures Sound(Next(l, ClientReceives)) && FrameOk(l.down[0]) && Accepts(l.client, false, l.down[0])
  {
    assert FrameOk(l.down[0]);
    ClientReceiveKeeps(l.client, l.server, l.up, l.down);
    Logged(l.clientLog, Hop(false, l.down[0]));
    QueueShift(Passed(l.serverLog, true), Passed(l.clientLog, false), l.down);
  }

  lemma ServerReceiveSound(l: Link)
    requires Sound(l) && l.up != []
    ensures Sound(Next(l, ServerReceives)) && FrameOk(l.up[0]) && Accepts(l.server, false, l.up[0])
  {
    assert FrameOk(l.up[0]);
    ServerReceiveKeeps(l.client, l.server, l.up, l.down);
    Logged(l.serverLog, Hop(false, l.up[0]));
    QueueShift(Passed(l.clientLog, true), Passed(l.serverLog, false), l.up);
  }

  // ------------------------------------------------ what one endpoint lets by

  /** The endpoint after the frames of its log. */
  function Follow(start: Machine, log: seq<Hop>): Machine {
    if log == [] then start
    else Process(Follow(start, log[..|log| - 1]), log[|log| - 1].outbound, log[|log| - 1].frame)
  }

  /** Every frame of the log was accepted when its turn came. */
  predicate Legal(start: Machine, log: seq<Hop>) {
    log != [] ==>
      var before, h := log[..|log| - 1], log[|log| - 1];
      Legal(start, before) && FrameOk(h.frame) && Accepts(Follow(start, before), h.outbound, h.frame)
  }

  lemma LogGrows(start: Machine, log: seq<Hop>, h: Hop)
    ensures Follow(start, log + [h]) == Process(Follow(start, log), h.outbound, h.frame)
    ensures Legal(start, log + [h]) ==
            (Legal(start, log) && FrameOk(h.frame) && Accepts(Follow(start, log), h.outbound, h.frame))
  {
    assert (log + [h])[..|log|] == log;
  }

  /** The request that the log leaves unanswered. */
  function Unanswered(log: seq<Hop>): Option<Header> {
    if log == [] then None
    else
      var h := log[|log| - 1].frame.header;
      match h.kind
      case Request => Some(h)
      case Event => Unanswered(log[..|log| - 1])
      case _ => None
  }

  /** A request comes only when none is unanswered, a response only to the unanswered one. */
  predicate Matched(log: seq<Hop>) {
    log != [] ==>
      var before, h := log[..|log| - 1], log[|log| - 1].frame.header;
      && Matched(before)
      && (h.kind == Request ==> Unanswered(before).None?)
      && (h.kind == Response || h.kind == ErrorResponse ==> Unanswered(before).Some? && Matches(Unanswered(before).value, h))
  }

  /** The sequence numbers of the TS frames of the log. */
  function Numbers(log: seq<Hop>): seq<nat> {
    if log == [] then []
    else
      var f := log[|log| - 1].frame;
      Numbers(log[..|log| - 1]) + if f.header.mtype == TS_DATA then [Sequence(f)] else []
  }

  predicate Consecutive(s: seq<nat>) {
    forall i :: 0 <= i < |s| ==> s[i] == s[0] + i
  }

  /** The frames that close a connection. */
  predicate Closing(f: Frame) {
    f.header.mtype == STREAM_END || (f.header.kind == ErrorResponse && (f.header.mtype == HELLO || f.header.mtype == ATTACH_STREAM))
  }

  predicate NothingAfterClose(log: seq<Hop>) {
    forall i :: 0 <= i < |log| - 1 ==> !Closing(log[i].frame)
  }

  /** The pending request of an endpoint is the unanswered one of its log. */
  predicate TracksRequests(m: Machine, log: seq<Hop>) {
    && m.pending == Unanswered(log) && Matched(log)
    && (m.phase == Initial ==> m.pending.None?)
    && (m.phase == Handshake ==> m.pending.Some? && (m.pending.value.mtype == HELLO || m.pending.value.mtype == ATTACH_STREAM))
    && (m.phase == Active && m.pending.Some? ==> IsControlRequest(m.pending.value.mtype))
  }

  /** A closing frame, if the log has one, is its last, and closed the endpoint. */
  predicate TracksClose(m: Machine, log: seq<Hop>) {
    m.phase != Poisoned && NothingAfterClose(log) && (log != [] && Closing(log[|log| - 1].frame) ==> m.phase == Closed)
  }

  predicate TracksNumbers(last: Option<nat>, numbers: seq<nat>) {
    && Consecutive(numbers)
    && if numbers == [] then last == None else last == Some(numbers[|numbers| - 1])
  }

  lemma TracksRequestsStep(m: Machine, log: seq<Hop>, h: Hop)
    requires TracksRequests(m, log) && Accepts(m, h.outbound, h.frame) && HeaderOk(h.frame.header)
    ensures TracksRequests(Advance(m, h.outbound, h.frame), log + [h])
  {
    var log' := log + [h];
    assert log'[..|log|] == log && log'[|log|] == h;
  }

  lemma TracksCloseStep(m: Machine, log: seq<Hop>, h: Hop)
    requires TracksRequests(m, log) && TracksClose(m, log) && Accepts(m, h.outbound, h.frame) && HeaderOk(h.frame.header)
    ensures TracksClose(Advance(m, h.outbound, h.frame), log + [h])
  {
    var log' := log + [h];
    assert forall i :: 0 <= i < |log| ==> log'[i] == log[i];
  }

  lemma NumbersGrow(log: seq<Hop>, h: Hop)
    ensures Numbers(log + [h]) == Numbers(log) + if h.frame.header.mtype == TS_DATA then [Sequence(h.frame)] else []
  {
    assert (log + [h])[..|log|] == log;
  }

  lemma TracksNumbersStep(m: Machine, log: seq<Hop>, h: Hop)
    requires TracksNumbers(m.lastTs, Numbers(log)) && Accepts(m, h.outbound, h.frame) && HeaderOk(h.frame.header)
    ensures TracksNumbers(Advance(m, h.outbound, h.frame).lastTs, Numbers(log + [h]))
  {
    NumbersGrow(log, h);
    if h.frame.header.mtype == TS_DATA {
      NumbersExtend(m.lastTs, Numbers(log), Sequence(h.frame));
    } else {
      assert Advance(m, h.outbound, h.frame).lastTs == m.lastTs && Numbers(log + [h]) == Numbers(log);
    }
  }

  lemma NumbersExtend(last: Option<nat>, numbers: seq<nat>, n: nat)
    requires TracksNumbers(last, numbers) && (last.Some? ==> n == last.value + 1)
    ensures TracksNumbers(Some(n), numbers + [n])
  {
  }

  /** Whatever sequence of frames an endpoint has let through, the rules of the protocol hold of it. */
  lemma {:induction false} LegalLog(start: Machine, log: seq<Hop>)
    requires start.phase == Initial && start.pending == None && start.lastTs == None && Legal(start, log)
    ensures TracksRequests(Follow(start, log), log) && TracksClose(Follow(start, log), log)
    ensures TracksNumbers(Follow(start, log).lastTs, Numbers(log))
  {
    if log != [] {
      var before, h := log[..|log| - 1], log[|log| - 1];
      assert log == before + [h];
      LegalLog(start, before);
      var m := Follow(start, before);
      TracksRequestsStep(m, before, h);
      TracksCloseStep(m, before, h);
      TracksNumbersStep(m, before, h);
      assert Follow(start, log) == Advance(m, h.outbound, h.frame);
    }
  }

  // ------------------------------------------------------- the main theorem

  /** The invariant together with the logs' account of both endpoints. */
  predicate Lawful(l: Link, begin: Link) {
    && Sound(l)
    && Legal(begin.client, l.clientLog) && l.client == Follow(begin.client, l.clientLog)
    && Legal(begin.server, l.serverLog) && l.server == Follow(begin.server, l.serverLog)
  }

  lemma MoveLawful(l: Link, begin: Link, m: Move)
    requires Lawful(l, begin) && Enabled(l, m)
    ensures Lawful(Next(l, m), begin)
  {
    match m
    case ClientSends(f) => ClientSendSound(l, f); LogGrows(begin.client, l.clientLog, Hop(true, f));
    case ServerSends(f) => ServerSendSound(l, f); LogGrows(begin.server, l.serverLog, Hop(true, f));
    case ClientReceives => ClientReceiveSound(l); LogGrows(begin.client, l.clientLog, Hop(false, l.down[0]));
    case ServerReceives => ServerReceiveSound(l); LogGrows(begin.server, l.serverLog, Hop(false, l.up[0]));
  }

  lemma {:induction false} RunLawful(l: Link, begin: Link, moves: seq<Move>, last: Link)
    requires Lawful(l, begin) && Runs(l, moves, last)
    ensures Lawful(last, begin)
    decreases |moves|
  {
    if moves != [] {
      MoveLawful(l, begin, moves[0]);
      RunLawful(Next(l, moves[0]), begin, moves[1..], last);
    }
  }

  /** Events and responses on their way never change what an active client negotiated, nor open a request. */
  lemma {:induction false} ReplaySettled(c: Machine, queue: seq<Frame>)
    requires IsClient(c.role) && Takes(c, queue)
    ensures Replay(c, queue).pending.Some? ==> Replay(c, queue).pending == c.pending
    ensures c.phase == Active ==>
              Replay(c, queue).negotiated == c.negotiated && (Replay(c, queue).phase == Active || Replay(c, queue).phase == Closed)
    ensures c.role == ControlClient && c.phase == Active ==> Replay(c, queue).phase == Active
    decreases |queue|
  {
    if queue != [] { ReplaySettled(Advance(c, false, queue[0]), queue[1..]); }
  }

  lemma ActiveAgree(c: Machine, s: Machine, up: seq<Frame>, down: seq<Frame>)
    requires InStep(c, s, up, down) && c.phase == Active && s.phase == Active && c.role == ControlClient
    ensures c.negotiated == s.negotiated
  {
    ReplaySettled(c, down);
    if up != [] { OneInFlight(s, up); }
  }

  lemma RequestInFlight(c: Machine, s: Machine, up: seq<Frame>, down: seq<Frame>)
    requires InStep(c, s, up, down) && up != [] && (s.phase == Initial ==> s.pending == None)
    ensures |up| == 1 && c.pending == Some(up[0].header) && s.pending == None
  {
    ReplaySettled(c, down);
    OneInFlight(s, up);
  }

  lemma QuietLawful(c: Machine, s: Machine)
    requires Agree(c, s)
    ensures Lawful(Link(c, s, [], [], [], []), Link(c, s, [], [], [], []))
  {
    assert Takes(c, []) && Takes(s, []) && Replay(c, []) == c && Replay(s, []) == s;
    assert InStep(c, s, [], []);
    assert Passed([], true) == [] && Passed([], false) == [];
  }

  lemma BeginLawful(control: bool, offered: Capabilities, supported: Capabilities)
    ensures Lawful(Begin(control, offered, supported), Begin(control, offered, supported))
  {
    if control {
      QuietLawful(Start(ControlClient, offered), Start(ControlServer, supported));
    } else {
      QuietLawful(Start(StreamClient, offered), Start(StreamServer, supported));
    }
  }

  lemma {:induction false} RolesStay(start: Machine, log: seq<Hop>)
    ensures Follow(start, log).role == start.role
  {
    if log != [] { RolesStay(start, log[..|log| - 1]); }
  }

  /** The rules, read off the log of one endpoint. */
  predicate RulesKept(m: Machine, log: seq<Hop>) {
    && m.phase != Poisoned && Matched(log) && m.pending == Unanswered(log)
    && Consecutive(Numbers(log)) && NothingAfterClose(log)
  }

  lemma LawfulMeans(l: Link, begin: Link)
    requires Lawful(l, begin) && begin.client.phase == Initial && begin.server.phase == Initial
    requires begin.client.pending == None && begin.server.pending == None
    requires begin.client.lastTs == None && begin.server.lastTs == None
    ensures RulesKept(l.client, l.clientLog) && RulesKept(l.server, l.serverLog)
    ensures l.up != [] ==> |l.up| == 1 && l.client.pending == Some(l.up[0].header) && l.server.pending == None
  {
    LegalLog(begin.client, l.clientLog);
    LegalLog(begin.server, l.serverLog);
    if l.up != [] { RequestInFlight(l.client, l.server, l.up, l.down); }
  }

  /**
    * On every run of either protocol: no endpoint is ever poisoned and every frame that arrives is accepted;
    * negotiated capabilities agree once both endpoints are active; at most one request is outstanding and
    * responses match it; TS sequence numbers are consecutive; nothing follows a closing frame; and each endpoint
    * has received a prefix of what the other has sent.
    */
  lemma EveryRun(control: bool, offered: Capabilities, supported: Capabilities, moves: seq<Move>, l: Link)
    requires Runs(Begin(control, offered, supported), moves, l)
    ensures RulesKept(l.client, l.clientLog) && RulesKept(l.server, l.serverLog)
    ensures Legal(Begin(control, offered, supported).client, l.clientLog)
    ensures Legal(Begin(control, offered, supported).server, l.serverLog)
    ensures l.up != [] ==> |l.up| == 1 && l.client.pending == Some(l.up[0].header) && l.server.pending == None
    ensures Passed(l.clientLog, false) <= Passed(l.serverLog, true) && Passed(l.serverLog, false) <= Passed(l.clientLog, true)
  {
    BeginLawful(control, offered, supported);
    RunLawful(Begin(control, offered, supported), Begin(control, offered, supported), moves, l);
    LawfulMeans(l, Begin(control, offered, supported));
  }

  /** On every run of the control protocol, the negotiated capabilities agree once both endpoints are active. */
  lemma NegotiationAgrees(offered: Capabilities, supported: Capabilities, moves: seq<Move>, l: Link)
    requires Runs(Begin(true, offered, supported), moves, l)
    requires l.client.phase == Active && l.server.phase == Active
    ensures l.client.negotiated == l.server.negotiated
  {
    var begin := Begin(true, offered, supported);
    BeginLawful(true, offered, supported);
    RunLawful(begin, begin, moves, l);
    RolesStay(begin.client, l.clientLog);
    ActiveAgree(l.client, l.server, l.up, l.down);
  }
}
