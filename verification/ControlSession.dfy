/**
 The control connections of the daemon: the protocol machine of each client
 beside the ownership steps that its requests lead to.
 */
module ControlSession {
  import opened Errors
  import opened FrameCodec
  import C = Connection
  import S = ControlServer

  /** The daemon with the machine of every live client's connection. */
  datatype Daemon = Daemon(state: S.State, machines: map<S.Id, C.Machine>)

  /** What becomes of an accepted request: a task for a lane, which may refuse it, or an answer at once. */
  datatype Plan = Ask(op: S.Op, receiver: nat, lease: S.Lease, accepted: bool, refusal: Frame) | Reply(answer: Frame)

  datatype Event =
    | Connects(supported: C.Capabilities)
    | Arrives(client: S.Id, frame: Frame, plan: Plan)
    | Completes(lane: S.LaneId, answer: Frame)
    | Notifies(client: S.Id, frame: Frame)
    | Leaves(client: S.Id)
    | Elsewhere(action: S.Action)

  const START := Daemon(S.INITIAL, map[])

  predicate IsAnswer(f: Frame) {
    f.header.kind == Response || f.header.kind == ErrorResponse
  }

  /** What the daemon itself looks at before it acts; that a client has no other request outstanding is not among it. */
  predicate Possible(d: Daemon, e: Event) {
    match e
    case Connects(_) => S.Enabled(d.state, S.Accept)
    case Arrives(c, f, Ask(op, receiver, lease, _, refusal)) =>
      && c in d.state.clients && op != S.Fence && IsAnswer(refusal)
      && (op == S.Acquire ==> receiver < S.RECEIVERS)
      && (op == S.Release || op == S.Tune ==> lease in d.state.clients[c].leases && d.state.clients[c].leases[lease] == receiver)
    case Arrives(c, f, Reply(answer)) => c in d.state.clients && IsAnswer(answer)
    case Completes(l, answer) => S.Enabled(d.state, S.Complete(l)) && IsAnswer(answer)
    case Notifies(c, f) => c in d.state.clients && C.IsDeviceEvent(f)
    case Leaves(c) => S.Enabled(d.state, S.Remove(c))
    case Elsewhere(a) => (a.Execute? || a.RetryLease? || a.RetryFence? || a.Reap?) && S.Enabled(d.state, a)
  }

  /** A request that the client's machine lets through. */
  predicate Requests(d: Daemon, c: S.Id, f: Frame) {
    c in d.machines && d.machines[c].phase == C.Active && FrameOk(f) && C.Accepts(d.machines[c], false, f)
  }

  function Submission(c: S.Id, f: Frame, plan: Plan): S.Action
    requires plan.Ask?
  {
    S.Submit(c, plan.op, f.header.request, plan.receiver, plan.lease, plan.accepted)
  }

  /** What an event asks of the ownership steps, if anything. */
  function ActionOf(d: Daemon, e: Event): Option<S.Action> {
    match e
    case Connects(_) => Some(S.Accept)
    case Arrives(c, f, plan) => if plan.Ask? && Requests(d, c, f) then Some(Submission(c, f, plan)) else None
    case Completes(l, _) => Some(S.Complete(l))
    case Notifies(_, _) => None
    case Leaves(c) => Some(S.Remove(c))
    case Elsewhere(a) => Some(a)
  }

  /** An action that is not enabled would not happen. */
  function Done(s: S.State, a: Option<S.Action>): S.State {
    if a.Some? && S.Enabled(s, a.value) then S.Next(s, a.value) else s
  }

  function Sent(machines: map<S.Id, C.Machine>, c: S.Id, f: Frame): map<S.Id, C.Machine> {
    if c in machines then machines[c := C.Process(machines[c], true, f)] else machines
  }

  function Heard(machines: map<S.Id, C.Machine>, c: S.Id, f: Frame): map<S.Id, C.Machine> {
    if c in machines then machines[c := C.Process(machines[c], false, f)] else machines
  }

  /** A request is answered at once unless a lane took it; a frame that is no request is not answered. */
  function Answering(d: Daemon, c: S.Id, f: Frame, plan: Plan): Option<Frame> {
    if c !in d.machines || !FrameOk(f) || !C.Accepts(d.machines[c], false, f) then None
    else
      match plan
      case Reply(answer) => Some(answer)
      case Ask(_, _, _, accepted, refusal) => if Requests(d, c, f) && accepted then None else Some(refusal)
  }

  /** The task whose completion a live client waits for. */
  predicate Awaited(s: S.State, l: S.LaneId)
    requires S.Enabled(s, S.Complete(l))
  {
    var t := s.lanes[l].work[0];
    t.kind == S.Request && t.client !in s.retired && t.client in s.clients && S.Matches(s.clients[t.client], t)
  }

  function MachinesAfter(d: Daemon, e: Event): map<S.Id, C.Machine>
    requires Possible(d, e)
  {
    match e
    case Connects(supported) => d.machines[d.state.nextId := C.Start(C.ControlServer, supported)]
    case Arrives(c, f, plan) =>
      var heard := Heard(d.machines, c, f);
      var answer := Answering(d, c, f, plan);
      if answer.Some? then Sent(heard, c, answer.value) else heard
    case Completes(l, answer) => if Awaited(d.state, l) then Sent(d.machines, d.state.lanes[l].work[0].client, answer) else d.machines
    case Notifies(c, f) => Sent(d.machines, c, f)
    case Leaves(c) => d.machines - {c}
    case Elsewhere(_) => d.machines
  }

  function After(d: Daemon, e: Event): Daemon
    requires Possible(d, e)
  {
    Daemon(Done(d.state, ActionOf(d, e)), MachinesAfter(d, e))
  }

  function Drive(d: Daemon, events: seq<Event>): Daemon {
    if events == [] then d
    else
      var before := Drive(d, events[..|events| - 1]);
      if Possible(before, events[|events| - 1]) then After(before, events[|events| - 1]) else before
  }

  // ------------------------------------------------------------ the coupling

  /**
   The machine waits for an answer to a request exactly if a lane has it; before
   the handshake is over none has.
   */
  predicate Tied(m: C.Machine, outstanding: Option<S.Task>) {
    && m.role == C.ControlServer
    && match m.phase
       case Active => m.pending.Some? == outstanding.Some? && (outstanding.Some? ==> m.pending.value.request == outstanding.value.request)
       case Initial | Handshake => outstanding.None?
       case _ => true
  }

  predicate Coupled(d: Daemon) {
    forall c :: c in d.state.clients ==> c in d.machines && Tied(d.machines[c], d.state.clients[c].outstanding)
  }

  /** A request that a machine lets through finds nothing outstanding. */
  lemma RequestFindsRoom(d: Daemon, c: S.Id, f: Frame, plan: Plan)
    requires Coupled(d) && S.WellFormed(d.state) && Possible(d, Arrives(c, f, plan)) && plan.Ask? && Requests(d, c, f)
    ensures d.state.clients[c].outstanding.None? && S.Enabled(d.state, Submission(c, f, plan))
  {
  }

  /** An event, the ownership steps being in order, always gets the action it asks for. */
  lemma ActionEnabled(d: Daemon, e: Event)
    requires Coupled(d) && S.WellFormed(d.state) && Possible(d, e)
    ensures ActionOf(d, e).Some? ==> S.Enabled(d.state, ActionOf(d, e).value)
  {
    match e
    case Arrives(c, f, plan) => if plan.Ask? && Requests(d, c, f) { RequestFindsRoom(d, c, f, plan); }
    case _ =>
  }

  // ----------------------------------------------------- one machine at a time

  /** Hearing a frame: a request that is let through is pending then, and nothing was before. */
  lemma HearingTies(m: C.Machine, outstanding: Option<S.Task>, f: Frame)
    requires Tied(m, outstanding)
    ensures var after := C.Process(m, false, f);
            if FrameOk(f) && C.Accepts(m, false, f)
            then outstanding.None? && after.role == m.role && after.pending == Some(f.header) && (after.phase == if m.phase == C.Active then C.Active else C.Handshake)
            else Tied(after, outstanding)
  {
  }

  /** Answering settles whatever was pending, one way or the other. */
  lemma AnsweringTies(m: C.Machine, f: Frame)
    requires m.role == C.ControlServer && m.pending.Some? && (m.phase == C.Active || m.phase == C.Handshake) && IsAnswer(f)
    ensures Tied(C.Process(m, true, f), None)
  {
  }

  lemma CompletingTies(m: C.Machine, outstanding: Option<S.Task>, f: Frame)
    requires Tied(m, outstanding) && outstanding.Some? && IsAnswer(f)
    ensures Tied(C.Process(m, true, f), None)
  {
    if m.phase == C.Active { AnsweringTies(m, f); }
  }

  lemma NotifyingTies(m: C.Machine, outstanding: Option<S.Task>, f: Frame)
    requires Tied(m, outstanding) && C.IsDeviceEvent(f)
    ensures Tied(C.Process(m, true, f), outstanding)
  {
  }

  // ------------------------------------------------------------ all of them

  /** Only this client's connection or request changed. */
  predicate OnlyFor(d: Daemon, d': Daemon, c: S.Id) {
    forall x :: x in d'.state.clients && x != c ==>
      && x in d.state.clients && d'.state.clients[x].outstanding == d.state.clients[x].outstanding
      && (x in d.machines ==> x in d'.machines && d'.machines[x] == d.machines[x])
  }

  lemma CoupledFor(d: Daemon, d': Daemon, c: S.Id)
    requires Coupled(d) && OnlyFor(d, d', c)
    requires c in d'.state.clients ==> c in d'.machines && Tied(d'.machines[c], d'.state.clients[c].outstanding)
    ensures Coupled(d')
  {
  }

  lemma ArrivalKeeps(d: Daemon, c: S.Id, f: Frame, plan: Plan)
    requires Coupled(d) && S.WellFormed(d.state) && Possible(d, Arrives(c, f, plan))
    ensures Coupled(After(d, Arrives(c, f, plan)))
  {
    var e := Arrives(c, f, plan);
    var d', m := After(d, e), d.machines[c];
    var heard := C.Process(m, false, f);
    ActionEnabled(d, e);
    HearingTies(m, d.state.clients[c].outstanding, f);
    if Answering(d, c, f, plan).Some? { AnsweringTies(heard, Answering(d, c, f, plan).value); }
    CoupledFor(d, d', c);
  }

  lemma CompletionKeeps(d: Daemon, l: S.LaneId, answer: Frame)
    requires Coupled(d) && S.WellFormed(d.state) && Possible(d, Completes(l, answer))
    ensures Coupled(After(d, Completes(l, answer)))
  {
    var c := d.state.lanes[l].work[0].client;
    CompletionClears(d.state, l);
    if Awaited(d.state, l) { CompletingTies(d.machines[c], d.state.clients[c].outstanding, answer); }
    CoupledFor(d, After(d, Completes(l, answer)), c);
  }

  /** A completion clears the request of the client that waits for it, and no other. */
  lemma CompletionClears(s: S.State, l: S.LaneId)
    requires S.Enabled(s, S.Complete(l))
    ensures var clients := S.Next(s, S.Complete(l)).clients;
            && clients.Keys == s.clients.Keys
            && forall c :: c in clients ==>
                 clients[c].outstanding == if Awaited(s, l) && c == s.lanes[l].work[0].client then None else s.clients[c].outstanding
  {
    HandlingClears(S.Popped(s, l), s.lanes[l].work[0], s.lanes[l].results[0]);
  }

  lemma HandlingClears(s: S.State, t: S.Task, o: S.Outcome)
    ensures var clients := S.HandleCompletion(s, t, o).clients;
            && clients.Keys == s.clients.Keys
            && forall c :: c in clients ==>
                 clients[c].outstanding ==
                 if t.kind == S.Request && t.client !in s.retired && c == t.client && S.Matches(s.clients[c], t) then None
                 else s.clients[c].outstanding
  {
    if t.kind == S.Cleanup {
      CleanupLeavesClients(s, t);
    } else if t.client in s.retired {
      var r := s.retired[t.client].(waiting := None);
      var r' := if t.op == S.Acquire && o.ok && S.HasSlot(r.leases) then r.(leases := r.leases[o.granted := S.Entry(t.receiver, false)]) else r;
      CleanupLeavesClients(s.(retired := s.retired[t.client := r']), t);
    }
  }

  lemma CleanupLeavesClients(s: S.State, t: S.Task)
    ensures S.CleanupCompleted(s, t).clients == s.clients
  {
  }

  lemma ElsewhereKeeps(d: Daemon, a: S.Action)
    requires Coupled(d) && S.WellFormed(d.state) && Possible(d, Elsewhere(a))
    ensures Coupled(After(d, Elsewhere(a)))
  {
    if a.Execute? {
      var lane := d.state.lanes[a.lane];
      var o := S.Outcome(a.ok, a.granted);
      S.ServeKeeps(d.state.(lanes := d.state.lanes[a.lane := lane.(results := lane.results + [o])]), lane.work[|lane.results|], o, a.handle, a.dropped);
    }
    assert After(d, Elsewhere(a)).state.clients == d.state.clients;
  }

  lemma ConnectKeeps(d: Daemon, supported: C.Capabilities)
    requires Coupled(d) && S.Known(d.state) && Possible(d, Connects(supported))
    ensures Coupled(After(d, Connects(supported)))
  {
    CoupledFor(d, After(d, Connects(supported)), d.state.nextId);
  }

  lemma NotifyKeeps(d: Daemon, c: S.Id, f: Frame)
    requires Coupled(d) && Possible(d, Notifies(c, f))
    ensures Coupled(After(d, Notifies(c, f)))
  {
    NotifyingTies(d.machines[c], d.state.clients[c].outstanding, f);
    CoupledFor(d, After(d, Notifies(c, f)), c);
  }

  lemma LeaveKeeps(d: Daemon, c: S.Id)
    requires Coupled(d) && Possible(d, Leaves(c))
    ensures Coupled(After(d, Leaves(c)))
  {
    CoupledFor(d, After(d, Leaves(c)), c);
  }

  /** Every event keeps the machines tied to the requests on the lanes. */
  lemma EventKeeps(d: Daemon, e: Event)
    requires Coupled(d) && S.Inv(d.state) && Possible(d, e)
    ensures Coupled(After(d, e))
  {
    match e
    case Connects(supported) => ConnectKeeps(d, supported);
    case Arrives(c, f, plan) => ArrivalKeeps(d, c, f, plan);
    case Completes(l, answer) => CompletionKeeps(d, l, answer);
    case Notifies(c, f) => NotifyKeeps(d, c, f);
    case Leaves(c) => LeaveKeeps(d, c);
    case Elsewhere(a) => ElsewhereKeeps(d, a);
  }

  /** The ownership steps that a run amounts to. */
  function Actions(d: Daemon, events: seq<Event>): seq<S.Action> {
    if events == [] then []
    else
      var before := Drive(d, events[..|events| - 1]);
      var e := events[|events| - 1];
      var a := ActionOf(before, e);
      var actions := Actions(d, events[..|events| - 1]);
      if Possible(before, e) && a.Some? then actions + [a.value] else actions
  }

  /**
   On every run of the connections: the ownership state is that of a run of the
   ownership steps alone, and each live client's machine waits for an answer
   exactly if its one request is on a lane.
   */
  lemma {:induction false} EveryRunCoupled(events: seq<Event>)
    ensures Drive(START, events).state == S.Run(S.INITIAL, Actions(START, events))
    ensures Coupled(Drive(START, events)) && S.Inv(Drive(START, events).state)
  {
    S.RunKeeps(Actions(START, events));
    if events != [] {
      var n := |events| - 1;
      EveryRunCoupled(events[..n]);
      var before, e := Drive(START, events[..n]), events[n];
      if Possible(before, e) {
        EventKeeps(before, e);
        ActionEnabled(before, e);
        if ActionOf(before, e).Some? { RunGrows(Actions(START, events[..n]), ActionOf(before, e).value); }
      }
    }
  }

  lemma RunGrows(actions: seq<S.Action>, a: S.Action)
    requires S.Enabled(S.Run(S.INITIAL, actions), a)
    ensures S.Run(S.INITIAL, actions + [a]) == S.Next(S.Run(S.INITIAL, actions), a)
  {
    assert (actions + [a])[..|actions|] == actions;
  }

  /** So on every run a request that a client's machine lets through meets the condition of the submit step. */
  lemma OneRequestPerClient(events: seq<Event>, c: S.Id, f: Frame, plan: Plan)
    requires var d := Drive(START, events); Possible(d, Arrives(c, f, plan)) && plan.Ask? && Requests(d, c, f)
    ensures var d := Drive(START, events); d.state.clients[c].outstanding.None? && S.Enabled(d.state, Submission(c, f, plan))
  {
    EveryRunCoupled(events);
    RequestFindsRoom(Drive(START, events), c, f, plan);
  }
}
