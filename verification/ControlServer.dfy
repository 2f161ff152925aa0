/**
 Ownership in the control daemon: tuner leases and card handles that are granted
 on worker lanes while their clients may disappear at any moment.

 The daemon is a step system. Every step is one callback of the poll thread or
 the execution of one task on a lane; any interleaving of steps is a run.
 */
module ControlServer {
  import opened Errors

  type Id = nat
  type Lease = nat

  const RECEIVERS := 8
  const MAX_CLIENTS := 32
  const RETIRED_CAPACITY := 64
  const ID_MAX := 0xffff_ffff_ffff_ffff

  datatype LaneId = Dev1 | Dev2 | CardLane

  /** Tune, start, stop and statistics are `Tune`; card operations that create no handle are `Card`. */
  datatype Op = Acquire | Release | Tune | Connect | Card | Fence

  datatype Kind = Request | Cleanup

  datatype Task = Task(kind: Kind, op: Op, client: Id, request: nat, receiver: nat, lease: Lease)

  /** What executing a task produced; `granted` is the new lease of a successful acquire. */
  datatype Outcome = Outcome(ok: bool, granted: Lease)

  /**
   A FIFO lane. The first |results| tasks of `work` are executed and wait for
   their completion to be handled; the others wait to be executed.
   */
  datatype Lane = Lane(work: seq<Task>, results: seq<Outcome>)

  datatype Client = Client(leases: map<Lease, nat>, outstanding: Option<Task>)

  datatype Entry = Entry(receiver: nat, queued: bool)

  /** The record of a removed client; `waiting` remembers the request that was in flight. */
  datatype Retired = Retired(waiting: Option<Task>, cardPending: bool, cardQueued: bool, leases: map<Lease, Entry>)

  /** A lease held at the tuner service. */
  datatype Grant = Grant(lease: Lease, owner: Id)

  datatype State = State(
    clients: map<Id, Client>,
    retired: map<Id, Retired>,
    nextId: Id,
    exhausted: bool,
    lanes: map<LaneId, Lane>,
    tuner: map<nat, Grant>,
    used: set<Lease>,
    handles: map<nat, Id>)

  function LaneOf(op: Op, receiver: nat): LaneId {
    match op
    case Connect | Card | Fence => CardLane
    case _ => if receiver < 4 then Dev1 else Dev2
  }

  const INITIAL :=
    State(map[], map[], 1, false,
          map[Dev1 := Lane([], []), Dev2 := Lane([], []), CardLane := Lane([], [])], map[], {}, map[])

  // ---------------------------------------------------------------- steps

  datatype Action =
    | Accept
    | Submit(client: Id, op: Op, request: nat, receiver: nat, lease: Lease, accepted: bool)
    | Execute(lane: LaneId, ok: bool, granted: Lease, handle: nat, dropped: set<nat>)
    | Complete(lane: LaneId)
    | Remove(client: Id)
    | RetryLease(client: Id, lease: Lease, accepted: bool)
    | RetryFence(client: Id, accepted: bool)
    | Reap(client: Id)

  predicate WellFormed(s: State) {
    && (forall l: LaneId :: l in s.lanes)
    && forall l: LaneId :: l in s.lanes ==> |s.lanes[l].results| <= |s.lanes[l].work|
  }

  predicate Enabled(s: State, a: Action) {
    WellFormed(s) &&
    match a
    case Accept => |s.clients| < MAX_CLIENTS && |s.clients| + |s.retired| < RETIRED_CAPACITY && !s.exhausted
    case Submit(c, op, _, receiver, lease, _) =>
      // One request is outstanding per client, and a lease is looked up in the client's own table.
      && c in s.clients && s.clients[c].outstanding.None? && op != Fence
      && (op == Acquire ==> receiver < RECEIVERS)
      && (op == Release || op == Tune ==> lease in s.clients[c].leases && s.clients[c].leases[lease] == receiver)
    case Execute(l, ok, granted, handle, dropped) =>
      && |s.lanes[l].results| < |s.lanes[l].work|
      && var t := s.lanes[l].work[|s.lanes[l].results|];
         // The tuner service grants fresh nonzero leases, at most one per receiver.
         && (t.op == Acquire && ok ==> granted != 0 && granted !in s.used && t.receiver !in s.tuner)
         && (t.op == Connect && ok ==> handle !in s.handles)
         && forall h :: h in dropped ==> h in s.handles && s.handles[h] == t.client
    case Complete(l) => |s.lanes[l].results| > 0
    case Remove(c) => c in s.clients
    case RetryLease(c, lease, _) => c in s.retired && lease in s.retired[c].leases && !s.retired[c].leases[lease].queued
    case RetryFence(c, _) => c in s.retired && s.retired[c].cardPending && !s.retired[c].cardQueued
    case Reap(c) => c in s.retired && CleanupDone(s.retired[c])
  }

  predicate CleanupDone(r: Retired) {
    r.waiting.None? && !r.cardPending && r.leases == map[]
  }

  function Enqueue(s: State, t: Task): State
    requires WellFormed(s)
  {
    var l := LaneOf(t.op, t.receiver);
    s.(lanes := s.lanes[l := s.lanes[l].(work := s.lanes[l].work + [t])])
  }

  function Next(s: State, a: Action): State
    requires Enabled(s, a)
  {
    match a
    case Accept => Admit(s)
    case Submit(c, op, request, receiver, lease, accepted) =>
      // A refused submission is answered with an error and leaves nothing behind.
      if accepted then Take(s, Task(Request, op, c, request, receiver, lease)) else s
    case Execute(l, ok, granted, handle, dropped) => ExecuteTask(s, l, Outcome(ok, granted), handle, dropped)
    case Complete(l) => Finish(s, l)
    case Remove(c) => RemoveClient(s, c)
    case RetryLease(c, lease, accepted) => if accepted then QueueRelease(s, c, lease) else s
    case RetryFence(c, accepted) => if accepted then QueueFence(s, c) else s
    case Reap(c) => Forget(s, c)
  }

  function Admit(s: State): State {
    // The identity counter stops at its maximum; no later client can take that identity again.
    s.(clients := s.clients[s.nextId := Client(map[], None)], nextId := s.nextId + 1, exhausted := s.nextId == ID_MAX)
  }

  function Take(s: State, t: Task): State
    requires WellFormed(s) && t.client in s.clients
  {
    Enqueue(s.(clients := s.clients[t.client := s.clients[t.client].(outstanding := Some(t))]), t)
  }

  function QueueRelease(s: State, c: Id, lease: Lease): State
    requires WellFormed(s) && c in s.retired && lease in s.retired[c].leases
  {
    var r := s.retired[c];
    var e := r.leases[lease];
    Enqueue(s.(retired := s.retired[c := r.(leases := r.leases[lease := e.(queued := true)])]), ReleaseTask(c, lease, e.receiver))
  }

  function ReleaseTask(c: Id, lease: Lease, receiver: nat): Task {
    Task(Cleanup, Release, c, 0, receiver, lease)
  }

  function QueueFence(s: State, c: Id): State
    requires WellFormed(s) && c in s.retired
  {
    Enqueue(s.(retired := s.retired[c := s.retired[c].(cardQueued := true)]), FenceTask(c))
  }

  function FenceTask(c: Id): Task {
    Task(Cleanup, Fence, c, 0, 0, 0)
  }

  function Forget(s: State, c: Id): State {
    s.(retired := s.retired - {c})
  }

  function Finish(s: State, l: LaneId): State
    requires WellFormed(s) && |s.lanes[l].results| > 0
  {
    HandleCompletion(Popped(s, l), s.lanes[l].work[0], s.lanes[l].results[0])
  }

  function Popped(s: State, l: LaneId): State
    requires WellFormed(s) && |s.lanes[l].results| > 0
  {
    s.(lanes := s.lanes[l := Lane(s.lanes[l].work[1..], s.lanes[l].results[1..])])
  }

  function ExecuteTask(s: State, l: LaneId, o: Outcome, handle: nat, dropped: set<nat>): State
    requires WellFormed(s) && |s.lanes[l].results| < |s.lanes[l].work|
  {
    var lane := s.lanes[l];
    Serve(s.(lanes := s.lanes[l := lane.(results := lane.results + [o])]), lane.work[|lane.results|], o, handle, dropped)
  }

  /** The services' side of one task. A release consumes the lease whether or not it reports an error. */
  function Serve(s: State, t: Task, o: Outcome, handle: nat, dropped: set<nat>): State {
    s.(tuner := TunerAfter(s.tuner, t, o), used := if t.op == Acquire && o.ok then s.used + {o.granted} else s.used,
       handles := HandlesAfter(s.handles, t, o, handle, dropped))
  }

  function TunerAfter(tuner: map<nat, Grant>, t: Task, o: Outcome): map<nat, Grant> {
    match t.op
    case Acquire => if o.ok then tuner[t.receiver := Grant(o.granted, t.client)] else tuner
    case Release => map r | r in tuner && tuner[r] != Grant(t.lease, t.client) :: tuner[r]
    case _ => tuner
  }

  function HandlesAfter(handles: map<nat, Id>, t: Task, o: Outcome, handle: nat, dropped: set<nat>): map<nat, Id> {
    match t.op
    case Connect => if o.ok then handles[handle := t.client] else handles
    case Card => handles - dropped
    case Fence => map h | h in handles && handles[h] != t.client :: handles[h]
    case _ => handles
  }

  /** Each client owns eight lease slots. */
  predicate HasSlot<T>(table: map<Lease, T>) {
    |table| < RECEIVERS
  }

  function RemoveClient(s: State, c: Id): State
    requires c in s.clients
  {
    var client := s.clients[c];
    var entries := map lease | lease in client.leases :: Entry(client.leases[lease], false);
    // Admission reserves a retired slot; without one the ownership record would be lost.
    var retired := if |s.retired| < RETIRED_CAPACITY
                   then s.retired[c := Retired(client.outstanding, true, false, entries)] else s.retired;
    s.(clients := s.clients - {c}, retired := retired)
  }

  function HandleCompletion(s: State, t: Task, o: Outcome): State {
    if t.kind == Cleanup then CleanupCompleted(s, t)
    else if t.client in s.retired then
      var r := s.retired[t.client].(waiting := None);
      var r' := if t.op == Acquire && o.ok && HasSlot(r.leases)
                then r.(leases := r.leases[o.granted := Entry(t.receiver, false)]) else r;
      CleanupCompleted(s.(retired := s.retired[t.client := r']), t)
    else if t.client in s.clients && Matches(s.clients[t.client], t) then
      s.(clients := s.clients[t.client := Answer(s.clients[t.client], t, o)])
    else s
  }

  function CleanupCompleted(s: State, t: Task): State {
    if t.client !in s.retired then s
    else
      var r := s.retired[t.client];
      match t.op
      case Release => s.(retired := s.retired[t.client := r.(leases := r.leases - {t.lease})])
      case Fence => s.(retired := s.retired[t.client := r.(cardPending := false)])
      case _ => s
  }

  predicate Matches(client: Client, t: Task) {
    client.outstanding.Some? && client.outstanding.value.request == t.request && client.outstanding.value.op == t.op
  }

  predicate CanAdd(client: Client, o: Outcome, receiver: nat) {
    o.granted != 0 && receiver < RECEIVERS && o.granted !in client.leases && HasSlot(client.leases)
  }

  /** The registry of a live client after its completion; the response itself is not modelled. */
  function Answer(client: Client, t: Task, o: Outcome): Client
    requires client.outstanding.Some?
  {
    var leases :=
      if t.op == Release then client.leases - {client.outstanding.value.lease}
      else if t.op == Acquire && o.ok && CanAdd(client, o, t.receiver) then client.leases[o.granted := t.receiver]
      else client.leases;
    Client(leases, None)
  }

  // ---------------------------------------------------------------- views

  function Work(s: State, l: LaneId): seq<Task> {
    if l in s.lanes then s.lanes[l].work else []
  }

  function Results(s: State, l: LaneId): seq<Outcome> {
    if l in s.lanes then s.lanes[l].results else []
  }

  /** The leases recorded for a client, live or removed, with their receivers. */
  ghost function Table(s: State, c: Id): map<Lease, nat> {
    if c in s.clients then s.clients[c].leases
    else if c in s.retired then map lease | lease in s.retired[c].leases :: s.retired[c].leases[lease].receiver
    else map[]
  }

  /** The request a live client is waiting for, or a removed one was. */
  ghost function Flight(s: State, c: Id): Option<Task> {
    if c in s.clients then s.clients[c].outstanding
    else if c in s.retired then s.retired[c].waiting
    else None
  }

  /** The client is removed and its card fence has completed. */
  ghost predicate Past(s: State, c: Id) {
    c < s.nextId && c !in s.clients && (c in s.retired ==> !s.retired[c].cardPending)
  }

  // ------------------------------------------------------------ invariant

  /** Identities are never reused and every live or retired client has its slot. */
  ghost predicate Known(s: State) {
    && WellFormed(s)
    && (forall c :: c in s.clients ==> c < s.nextId && c !in s.retired)
    && (forall c :: c in s.retired ==> c < s.nextId)
    && |s.clients| + |s.retired| <= RETIRED_CAPACITY
  }

  /** Each client has at most one request on the lanes, and its cleanup comes behind it. */
  ghost predicate Queued(s: State) {
    && (forall l, i :: 0 <= i < |Work(s, l)| ==> Placed(s, l, Work(s, l)[i]))
    && (forall l, i, j :: 0 <= i < j < |Work(s, l)| && Work(s, l)[j].kind == Request ==>
          Work(s, l)[i].client != Work(s, l)[j].client)
  }

  ghost predicate Placed(s: State, l: LaneId, t: Task) {
    && LaneOf(t.op, t.receiver) == l && t.client < s.nextId && (t.op == Acquire ==> t.receiver < RECEIVERS)
    && (if t.kind == Request then t.op != Fence && Flight(s, t.client) == Some(t)
        else (t.op == Release || t.op == Fence) && t.client !in s.clients)
  }

  ghost predicate Held(tuner: map<nat, Grant>, r: nat, lease: Lease, c: Id) {
    r in tuner && tuner[r] == Grant(lease, c)
  }

  /** Leases at the tuner service are distinct, and only receivers that exist are leased. */
  ghost predicate Granted(s: State) {
    && (forall r :: r in s.tuner ==> r < RECEIVERS && s.tuner[r].lease != 0 && s.tuner[r].lease in s.used)
    && (forall r, q :: r in s.tuner && q in s.tuner && s.tuner[r].lease == s.tuner[q].lease ==> r == q)
  }

  ghost predicate Releasing(s: State, c: Id, lease: Lease) {
    Flight(s, c).Some? && Flight(s, c).value.op == Release && Flight(s, c).value.lease == lease
  }

  /** The leases in a table are known, at distinct receivers; a live client holds all but the one it is releasing. */
  ghost predicate TableOk(s: State, c: Id) {
    var t := Table(s, c);
    && (forall lease :: lease in t ==> lease in s.used && t[lease] < RECEIVERS)
    && (forall lease, r :: lease in t && Held(s.tuner, r, lease, c) ==> r == t[lease])
    && (forall a, b :: a in t && b in t && a != b ==> t[a] != t[b])
    && (c in s.clients ==> forall lease :: lease in t ==> Held(s.tuner, t[lease], lease, c) || Releasing(s, c, lease))
  }

  /** While an acquire is still queued, its client's lease of that receiver is not given back. */
  ghost predicate AcquireOk(s: State, t: Task) {
    forall lease :: lease in Table(s, t.client) && Table(s, t.client)[lease] == t.receiver ==> Held(s.tuner, t.receiver, lease, t.client)
  }

  ghost predicate Acquires(s: State) {
    forall l, i :: |Results(s, l)| <= i < |Work(s, l)| && Work(s, l)[i].op == Acquire ==> AcquireOk(s, Work(s, l)[i])
  }

  /** A release task names a lease granted before, at the right receiver; an executed one is gone for good. */
  ghost predicate ReleaseOk(s: State, t: Task, done: bool) {
    && t.lease in s.used
    && (forall r :: Held(s.tuner, r, t.lease, t.client) ==> r == t.receiver && !done)
  }

  ghost predicate Releases(s: State) {
    forall l, i :: 0 <= i < |Work(s, l)| && Work(s, l)[i].op == Release ==> ReleaseOk(s, Work(s, l)[i], i < |Results(s, l)|)
  }

  /** A grant whose completion is not handled yet. */
  ghost predicate Pending(s: State, l: LaneId, i: int) {
    0 <= i < |Results(s, l)| && i < |Work(s, l)| && Work(s, l)[i].op == Acquire && Results(s, l)[i].ok
  }

  /** A pending grant is held by its client and named in no table and no release task yet. */
  ghost predicate GrantOk(s: State, t: Task, g: Lease) {
    && Held(s.tuner, t.receiver, g, t.client) && t.kind == Request
    && (forall c :: g !in Table(s, c))
    && (forall a :: a in Table(s, t.client) ==> Table(s, t.client)[a] != t.receiver)
    && (forall m, j :: 0 <= j < |Work(s, m)| && Work(s, m)[j].op == Release ==> Work(s, m)[j].lease != g)
  }

  ghost predicate Grants(s: State) {
    forall l, i :: Pending(s, l, i) ==> GrantOk(s, Work(s, l)[i], Results(s, l)[i].granted)
  }

  /** The pending grant at position i of lane l is the lease of receiver r. */
  ghost predicate Covers(s: State, l: LaneId, i: int, r: nat, g: Grant) {
    Pending(s, l, i) && Work(s, l)[i].client == g.owner && Work(s, l)[i].receiver == r && Results(s, l)[i].granted == g.lease
  }

  /** The lease of receiver r is in its owner's table, or a pending grant of an owner that waits for it. */
  ghost predicate Accounted(s: State, r: nat)
    requires r in s.tuner
  {
    var g := s.tuner[r];
    || (g.lease in Table(s, g.owner) && Table(s, g.owner)[g.lease] == r)
    || exists l, i :: Covers(s, l, i, r, g)
  }

  /** No handle of c is held and none can still be created. */
  ghost predicate NoCards(s: State, c: Id) {
    && (forall h :: h in s.handles ==> s.handles[h] != c)
    && (forall i :: 0 <= i < |Work(s, CardLane)| && Work(s, CardLane)[i].kind == Request ==> Work(s, CardLane)[i].client != c)
  }

  ghost predicate Fences(s: State) {
    && (forall h :: h in s.handles ==> s.handles[h] < s.nextId)
    && (forall c :: Past(s, c) ==> NoCards(s, c))
    && (forall i, h :: FenceRan(s, i) && h in s.handles ==> s.handles[h] != Work(s, CardLane)[i].client)
  }

  /** The card lane has executed the fence at position i. */
  ghost predicate FenceRan(s: State, i: int) {
    0 <= i < |Results(s, CardLane)| && i < |Work(s, CardLane)| && Work(s, CardLane)[i].op == Fence
  }

  ghost predicate Leases(s: State) {
    && Granted(s) && (forall c :: TableOk(s, c)) && Acquires(s) && Releases(s) && Grants(s)
    && (forall r :: r in s.tuner ==> Accounted(s, r))
  }

  ghost predicate Inv(s: State) {
    Known(s) && Queued(s) && Leases(s) && Fences(s)
  }

  lemma InitialInv()
    ensures Inv(INITIAL)
  {
    forall l: LaneId
      ensures l in INITIAL.lanes && INITIAL.lanes[l] == Lane([], [])
    {
      match l case Dev1 => case Dev2 => case CardLane =>
    }
    assert forall l :: Work(INITIAL, l) == [] && Results(INITIAL, l) == [];
    forall c
      ensures TableOk(INITIAL, c)
    {
      assert Table(INITIAL, c) == map[];
    }
  }

  lemma CountAfterAdd<V>(m: map<Id, V>, k: Id, v: V)
    ensures |m[k := v]| == if k in m then |m| else |m| + 1
  {
    assert m[k := v].Keys == m.Keys + {k};
    assert |m[k := v].Keys| == |m[k := v]| && |m.Keys| == |m|;
  }

  lemma CountAfterDrop<V>(m: map<Id, V>, k: Id)
    requires k in m
    ensures |m - {k}| == |m| - 1
  {
    assert (m - {k}).Keys == m.Keys - {k};
    assert |(m - {k}).Keys| == |m - {k}| && |m.Keys| == |m|;
  }

  // ------------------------------------------- steps that move no ownership

  ghost predicate SameLanes(s: State, s': State) {
    forall l :: Work(s', l) == Work(s, l) && Results(s', l) == Results(s, l)
  }

  ghost predicate SameTables(s: State, s': State) {
    forall c :: Table(s', c) == Table(s, c)
  }

  ghost predicate SameFlights(s: State, s': State) {
    forall c :: Flight(s', c) == Flight(s, c)
  }

  ghost predicate SameGrants(s: State, s': State) {
    s'.tuner == s.tuner && s'.used == s.used
  }

  /** A step after which every lease, table, request and task is where it was. */
  ghost predicate Unmoved(s: State, s': State) {
    SameLanes(s, s') && SameTables(s, s') && SameFlights(s, s') && SameGrants(s, s')
    && forall c :: c in s'.clients && c !in s.clients ==> Table(s, c) == map[]
  }

  lemma UnmovedTables(s: State, s': State)
    requires (forall c :: TableOk(s, c)) && Unmoved(s, s')
    ensures forall c :: TableOk(s', c)
  {
    forall c
      ensures TableOk(s', c)
    {
      assert TableOk(s, c);
    }
  }

  lemma UnmovedTasks(s: State, s': State)
    requires Acquires(s) && Releases(s) && Unmoved(s, s')
    ensures Acquires(s') && Releases(s')
  {
    forall l, i | |Results(s', l)| <= i < |Work(s', l)| && Work(s', l)[i].op == Acquire
      ensures AcquireOk(s', Work(s', l)[i])
    {
      assert AcquireOk(s, Work(s, l)[i]);
    }
    forall l, i | 0 <= i < |Work(s', l)| && Work(s', l)[i].op == Release
      ensures ReleaseOk(s', Work(s', l)[i], i < |Results(s', l)|)
    {
      assert ReleaseOk(s, Work(s, l)[i], i < |Results(s, l)|);
    }
  }

  lemma UnmovedGrants(s: State, s': State)
    requires Grants(s) && Unmoved(s, s')
    ensures Grants(s')
  {
    forall l, i | Pending(s', l, i)
      ensures GrantOk(s', Work(s', l)[i], Results(s', l)[i].granted)
    {
      assert Pending(s, l, i);
      assert GrantOk(s, Work(s, l)[i], Results(s, l)[i].granted);
    }
  }

  lemma UnmovedAccounts(s: State, s': State)
    requires (forall r :: r in s.tuner ==> Accounted(s, r)) && Unmoved(s, s')
    ensures forall r :: r in s'.tuner ==> Accounted(s', r)
  {
    forall r | r in s'.tuner
      ensures Accounted(s', r)
    {
      assert Accounted(s, r);
      if l, i :| Covers(s, l, i, r, s.tuner[r]) {
        assert Covers(s', l, i, r, s'.tuner[r]);
      }
    }
  }

  lemma UnmovedLeases(s: State, s': State)
    requires Leases(s) && Unmoved(s, s')
    ensures Leases(s')
  {
    UnmovedTables(s, s');
    UnmovedTasks(s, s');
    UnmovedGrants(s, s');
    UnmovedAccounts(s, s');
  }

  lemma UnmovedQueues(s: State, s': State)
    requires Queued(s) && SameLanes(s, s') && SameFlights(s, s') && s.nextId <= s'.nextId
    requires forall c :: c in s'.clients && c !in s.clients ==> c >= s.nextId
    ensures Queued(s')
  {
    forall l, i | 0 <= i < |Work(s', l)|
      ensures Placed(s', l, Work(s', l)[i])
    {
      assert Placed(s, l, Work(s, l)[i]);
    }
  }

  lemma UnmovedFences(s: State, s': State)
    requires Fences(s) && SameLanes(s, s') && s'.handles == s.handles && s.nextId <= s'.nextId
    requires forall c :: Past(s', c) ==> Past(s, c)
    ensures Fences(s')
  {
    forall c | Past(s', c)
      ensures NoCards(s', c)
    {
      assert NoCards(s, c);
    }
    forall i, h | FenceRan(s', i) && h in s'.handles
      ensures s'.handles[h] != Work(s', CardLane)[i].client
    {
      assert FenceRan(s, i);
    }
  }

  lemma AdmitKeeps(s: State)
    requires Inv(s) && |s.clients| + |s.retired| < RETIRED_CAPACITY
    ensures Inv(Admit(s))
  {
    CountAfterAdd(s.clients, s.nextId, Client(map[], None));
    AdmitUnmoved(s);
    UnmovedLeases(s, Admit(s));
    UnmovedQueues(s, Admit(s));
    UnmovedFences(s, Admit(s));
  }

  lemma AdmitUnmoved(s: State)
    requires Known(s)
    ensures Unmoved(s, Admit(s))
    ensures forall d :: Past(Admit(s), d) ==> Past(s, d)
  {
  }

  /** Admission keeps a retired record free for every live client. */
  lemma RemoveHasRecord(s: State, c: Id)
    requires Known(s) && c in s.clients
    ensures |s.retired| < RETIRED_CAPACITY
    ensures Known(RemoveClient(s, c))
  {
    CountAfterDrop(s.clients, c);
    CountAfterAdd(s.retired, c, RemoveClient(s, c).retired[c]);
  }

  lemma RemoveUnmoved(s: State, c: Id)
    requires Known(s) && c in s.clients && |s.retired| < RETIRED_CAPACITY
    ensures Unmoved(s, RemoveClient(s, c))
    ensures forall d :: Past(RemoveClient(s, c), d) ==> Past(s, d)
  {
    assert Table(RemoveClient(s, c), c) == Table(s, c);
  }

  lemma RemoveKeeps(s: State, c: Id)
    requires Inv(s) && c in s.clients
    ensures Inv(RemoveClient(s, c))
  {
    RemoveHasRecord(s, c);
    RemoveUnmoved(s, c);
    UnmovedLeases(s, RemoveClient(s, c));
    UnmovedQueues(s, RemoveClient(s, c));
    UnmovedFences(s, RemoveClient(s, c));
  }

  lemma ForgetUnmoved(s: State, c: Id)
    requires Known(s) && c in s.retired && CleanupDone(s.retired[c])
    ensures Unmoved(s, Forget(s, c))
    ensures forall d :: Past(Forget(s, c), d) ==> Past(s, d)
  {
    assert Table(s, c) == map[];
  }

  lemma ForgetKeeps(s: State, c: Id)
    requires Inv(s) && c in s.retired && CleanupDone(s.retired[c])
    ensures Inv(Forget(s, c))
  {
    CountAfterDrop(s.retired, c);
    ForgetUnmoved(s, c);
    UnmovedLeases(s, Forget(s, c));
    UnmovedQueues(s, Forget(s, c));
    UnmovedFences(s, Forget(s, c));
  }

  // ------------------------------------------------------- a task is queued

  /** s' is s with task t behind the others on its lane. */
  ghost predicate Appended(s: State, s': State, t: Task) {
    && (forall l :: Results(s', l) == Results(s, l))
    && (forall l :: Work(s', l) == if l == LaneOf(t.op, t.receiver) then Work(s, l) + [t] else Work(s, l))
    && SameTables(s, s') && SameGrants(s, s')
    && s'.clients.Keys == s.clients.Keys && s'.nextId == s.nextId
    && (forall c :: c != t.client ==> Flight(s', c) == Flight(s, c))
    && (if t.kind == Request then Flight(s, t.client) == None && Flight(s', t.client) == Some(t)
        else Flight(s', t.client) == Flight(s, t.client))
  }

  /** What the daemon knows when it queues a task. */
  ghost predicate Queueable(s: State, t: Task) {
    && t.client < s.nextId && (t.op == Acquire ==> t.receiver < RECEIVERS)
    && (if t.kind == Request then t.client in s.clients && t.op != Fence
        else t.client !in s.clients && (t.op == Release || t.op == Fence))
    && (t.op == Release ==> t.lease in Table(s, t.client) && Table(s, t.client)[t.lease] == t.receiver)
  }

  lemma AppendQueues(s: State, s': State, t: Task)
    requires Known(s) && Queued(s) && Queueable(s, t) && Appended(s, s', t)
    ensures Queued(s')
  {
    forall l, i | 0 <= i < |Work(s', l)|
      ensures Placed(s', l, Work(s', l)[i])
    {
      if i < |Work(s, l)| {
        assert Placed(s, l, Work(s, l)[i]);
      }
    }
    forall l, i, j | 0 <= i < j < |Work(s', l)| && Work(s', l)[j].kind == Request
      ensures Work(s', l)[i].client != Work(s', l)[j].client
    {
      assert Placed(s, l, Work(s, l)[i]);
    }
  }

  lemma AppendTables(s: State, s': State, t: Task)
    requires (forall c :: TableOk(s, c)) && Appended(s, s', t)
    ensures forall c :: TableOk(s', c)
  {
    forall c
      ensures TableOk(s', c)
    {
      assert TableOk(s, c);
    }
  }

  lemma AppendTasks(s: State, s': State, t: Task)
    requires Queued(s) && Acquires(s) && Releases(s) && (forall c :: TableOk(s, c))
    requires WellFormed(s) && Queueable(s, t) && Appended(s, s', t)
    ensures Acquires(s') && Releases(s')
  {
    forall l, i | |Results(s', l)| <= i < |Work(s', l)| && Work(s', l)[i].op == Acquire
      ensures AcquireOk(s', Work(s', l)[i])
    {
      if i < |Work(s, l)| {
        assert AcquireOk(s, Work(s, l)[i]);
      } else {
        assert TableOk(s, t.client);
      }
    }
    forall l, i | 0 <= i < |Work(s', l)| && Work(s', l)[i].op == Release
      ensures ReleaseOk(s', Work(s', l)[i], i < |Results(s', l)|)
    {
      if i < |Work(s, l)| {
        assert ReleaseOk(s, Work(s, l)[i], i < |Results(s, l)|);
      } else {
        assert TableOk(s, t.client);
      }
    }
  }

  lemma AppendGrants(s: State, s': State, t: Task)
    requires Grants(s) && WellFormed(s) && Queueable(s, t) && Appended(s, s', t)
    ensures Grants(s')
  {
    forall l, i | Pending(s', l, i)
      ensures GrantOk(s', Work(s', l)[i], Results(s', l)[i].granted)
    {
      assert Pending(s, l, i);
      assert GrantOk(s, Work(s, l)[i], Results(s, l)[i].granted);
    }
  }

  lemma AppendAccounts(s: State, s': State, t: Task)
    requires (forall r :: r in s.tuner ==> Accounted(s, r)) && WellFormed(s) && Appended(s, s', t)
    ensures forall r :: r in s'.tuner ==> Accounted(s', r)
  {
    forall r | r in s'.tuner
      ensures Accounted(s', r)
    {
      assert Accounted(s, r);
      if l, i :| Covers(s, l, i, r, s.tuner[r]) {
        assert Covers(s', l, i, r, s'.tuner[r]);
      }
    }
  }

  lemma AppendFences(s: State, s': State, t: Task)
    requires Known(s) && Fences(s) && Queueable(s, t) && Appended(s, s', t) && s'.handles == s.handles
    requires forall c :: Past(s', c) ==> Past(s, c)
    ensures Fences(s')
  {
    forall c | Past(s', c)
      ensures NoCards(s', c)
    {
      assert NoCards(s, c);
    }
    forall i, h | FenceRan(s', i) && h in s'.handles
      ensures s'.handles[h] != Work(s', CardLane)[i].client
    {
      assert FenceRan(s, i);
    }
  }

  lemma AppendKeeps(s: State, s': State, t: Task)
    requires Inv(s) && Queueable(s, t) && Appended(s, s', t) && s'.handles == s.handles
    requires forall c :: Past(s', c) ==> Past(s, c)
    ensures Queued(s') && Leases(s') && Fences(s')
  {
    AppendQueues(s, s', t);
    AppendTables(s, s', t);
    AppendTasks(s, s', t);
    AppendGrants(s, s', t);
    AppendAccounts(s, s', t);
    AppendFences(s, s', t);
  }

  lemma EnqueueWork(s: State, t: Task)
    requires WellFormed(s)
    ensures var s' := Enqueue(s, t);
            && WellFormed(s')
            && (forall l :: Results(s', l) == Results(s, l))
            && (forall l :: Work(s', l) == if l == LaneOf(t.op, t.receiver) then Work(s, l) + [t] else Work(s, l))
  {
  }

  lemma TakeAppends(s: State, t: Task)
    requires Known(s) && t.client in s.clients && s.clients[t.client].outstanding.None? && t.kind == Request
    ensures Known(Take(s, t)) && Appended(s, Take(s, t), t)
  {
    var client := s.clients[t.client].(outstanding := Some(t));
    EnqueueWork(s.(clients := s.clients[t.client := client]), t);
    CountAfterAdd(s.clients, t.client, client);
  }

  lemma TakeKeeps(s: State, t: Task)
    requires Inv(s) && t.client in s.clients && s.clients[t.client].outstanding.None? && t.kind == Request && t.op != Fence
    requires t.op == Acquire ==> t.receiver < RECEIVERS
    requires t.op == Release ==> t.lease in s.clients[t.client].leases && s.clients[t.client].leases[t.lease] == t.receiver
    ensures Inv(Take(s, t))
  {
    TakeAppends(s, t);
    AppendKeeps(s, Take(s, t), t);
  }

  /** Rewriting the bookkeeping flags of a retired record moves no ownership. */
  lemma FlagsKeep(s: State, c: Id, r: Retired)
    requires Known(s) && c in s.retired && r.waiting == s.retired[c].waiting && r.cardPending == s.retired[c].cardPending
    requires r.leases.Keys == s.retired[c].leases.Keys
    requires forall lease :: lease in r.leases ==> r.leases[lease].receiver == s.retired[c].leases[lease].receiver
    ensures var m := s.(retired := s.retired[c := r]);
            && Known(m) && SameTables(s, m) && SameFlights(s, m)
            && forall d :: Past(m, d) <==> Past(s, d)
  {
    var m := s.(retired := s.retired[c := r]);
    CountAfterAdd(s.retired, c, r);
    assert Table(m, c) == Table(s, c);
  }

  lemma QueueReleaseAppends(s: State, c: Id, lease: Lease)
    requires Known(s) && c in s.retired && lease in s.retired[c].leases
    ensures Known(QueueRelease(s, c, lease))
    ensures Appended(s, QueueRelease(s, c, lease), ReleaseTask(c, lease, s.retired[c].leases[lease].receiver))
    ensures forall d :: Past(QueueRelease(s, c, lease), d) <==> Past(s, d)
  {
    var r := s.retired[c];
    var r' := r.(leases := r.leases[lease := r.leases[lease].(queued := true)]);
    FlagsKeep(s, c, r');
    EnqueueWork(s.(retired := s.retired[c := r']), ReleaseTask(c, lease, r.leases[lease].receiver));
  }

  lemma QueueReleaseKeeps(s: State, c: Id, lease: Lease)
    requires Inv(s) && c in s.retired && lease in s.retired[c].leases
    ensures Inv(QueueRelease(s, c, lease))
  {
    QueueReleaseAppends(s, c, lease);
    AppendKeeps(s, QueueRelease(s, c, lease), ReleaseTask(c, lease, s.retired[c].leases[lease].receiver));
  }

  lemma QueueFenceAppends(s: State, c: Id)
    requires Known(s) && c in s.retired
    ensures Known(QueueFence(s, c)) && Appended(s, QueueFence(s, c), FenceTask(c))
    ensures forall d :: Past(QueueFence(s, c), d) <==> Past(s, d)
  {
    var r := s.retired[c].(cardQueued := true);
    FlagsKeep(s, c, r);
    EnqueueWork(s.(retired := s.retired[c := r]), FenceTask(c));
  }

  lemma QueueFenceKeeps(s: State, c: Id)
    requires Inv(s) && c in s.retired
    ensures Inv(QueueFence(s, c))
  {
    QueueFenceAppends(s, c);
    AppendKeeps(s, QueueFence(s, c), FenceTask(c));
  }

  // ----------------------------------------------------- a task is executed

  /** s' is s after lane l executed its next task with result o. */
  ghost predicate Ran(s: State, s': State, l: LaneId, o: Outcome) {
    && |Results(s, l)| < |Work(s, l)|
    && (forall m :: Work(s', m) == Work(s, m))
    && (forall m :: Results(s', m) == if m == l then Results(s, m) + [o] else Results(s, m))
    && s'.clients == s.clients && s'.retired == s.retired && s'.nextId == s.nextId
  }

  ghost function Running(s: State, l: LaneId): Task
    requires |Results(s, l)| < |Work(s, l)|
  {
    Work(s, l)[|Results(s, l)|]
  }

  lemma ServeKeeps(s: State, t: Task, o: Outcome, handle: nat, dropped: set<nat>)
    ensures var s' := Serve(s, t, o, handle, dropped);
            && s'.lanes == s.lanes && s'.clients == s.clients && s'.retired == s.retired
            && s'.nextId == s.nextId && s'.exhausted == s.exhausted
  {
  }

  lemma ExecuteRuns(s: State, l: LaneId, o: Outcome, handle: nat, dropped: set<nat>)
    requires Known(s) && |s.lanes[l].results| < |s.lanes[l].work|
    ensures Ran(s, ExecuteTask(s, l, o, handle, dropped), l, o)
    ensures Known(ExecuteTask(s, l, o, handle, dropped))
  {
    var lane := s.lanes[l];
    var m := s.(lanes := s.lanes[l := lane.(results := lane.results + [o])]);
    assert Ran(s, m, l, o) && Known(m);
    ServeKeeps(m, lane.work[|lane.results|], o, handle, dropped);
  }

  /** How a task changes what the tuner service has granted. */
  ghost predicate TunerMoved(s: State, s': State, t: Task, o: Outcome) {
    if t.op == Acquire && o.ok then
      && o.granted != 0 && o.granted !in s.used && t.receiver !in s.tuner
      && s'.tuner == s.tuner[t.receiver := Grant(o.granted, t.client)] && s'.used == s.used + {o.granted}
    else if t.op == Release then
      && s'.used == s.used
      && (forall r :: r in s'.tuner <==> r in s.tuner && s.tuner[r] != Grant(t.lease, t.client))
      && (forall r :: r in s'.tuner ==> s'.tuner[r] == s.tuner[r])
    else SameGrants(s, s')
  }

  lemma RanGranted(s: State, s': State, t: Task, o: Outcome)
    requires Granted(s) && TunerMoved(s, s', t, o) && (t.op == Acquire ==> t.receiver < RECEIVERS)
    ensures Granted(s')
  {
  }

  lemma RanQueues(s: State, s': State, l: LaneId, o: Outcome)
    requires Queued(s) && Ran(s, s', l, o)
    ensures Queued(s')
  {
    forall m, i | 0 <= i < |Work(s', m)|
      ensures Placed(s', m, Work(s', m)[i])
    {
      assert Placed(s, m, Work(s, m)[i]);
    }
  }

  lemma RanTable(s: State, s': State, l: LaneId, o: Outcome, c: Id)
    requires TableOk(s, c) && Ran(s, s', l, o) && TunerMoved(s, s', Running(s, l), o)
    requires Placed(s, l, Running(s, l))
    ensures TableOk(s', c)
  {
    var t := Running(s, l);
    assert Table(s', c) == Table(s, c) && Flight(s', c) == Flight(s, c);
    forall lease | lease in Table(s, c) && c in s.clients
      ensures Held(s'.tuner, Table(s, c)[lease], lease, c) || Releasing(s', c, lease)
    {
      assert Held(s.tuner, Table(s, c)[lease], lease, c) || Releasing(s, c, lease);
    }
    forall lease, r | lease in Table(s, c) && Held(s'.tuner, r, lease, c)
      ensures r == Table(s, c)[lease]
    {
      assert Held(s.tuner, r, lease, c);
    }
  }

  /** A queued acquire keeps its guarantee: a release of the same client cannot run before it. */
  lemma RanAcquires(s: State, s': State, l: LaneId, o: Outcome)
    requires Queued(s) && Acquires(s) && Releases(s) && Ran(s, s', l, o) && TunerMoved(s, s', Running(s, l), o)
    ensures Acquires(s')
  {
    var k := |Results(s, l)|;
    forall m, i | |Results(s', m)| <= i < |Work(s', m)| && Work(s', m)[i].op == Acquire
      ensures AcquireOk(s', Work(s', m)[i])
    {
      var t := Work(s, m)[i];
      assert AcquireOk(s, t);
      assert Placed(s, m, t);
      assert Placed(s, l, Running(s, l));
      assert m == l ==> Work(s, l)[k].client != Work(s, l)[i].client;
      assert Running(s, l).op == Release ==> ReleaseOk(s, Work(s, l)[k], k < |Results(s, l)|);
      forall lease | lease in Table(s, t.client) && Table(s, t.client)[lease] == t.receiver
        ensures Held(s'.tuner, t.receiver, lease, t.client)
      {
        assert Held(s.tuner, t.receiver, lease, t.client);
      }
    }
  }

  lemma RanReleases(s: State, s': State, l: LaneId, o: Outcome)
    requires Releases(s) && Ran(s, s', l, o) && TunerMoved(s, s', Running(s, l), o)
    ensures Releases(s')
  {
    forall m, i | 0 <= i < |Work(s', m)| && Work(s', m)[i].op == Release
      ensures ReleaseOk(s', Work(s', m)[i], i < |Results(s', m)|)
    {
      var t := Work(s, m)[i];
      assert ReleaseOk(s, t, i < |Results(s, m)|);
      forall r | Held(s'.tuner, r, t.lease, t.client)
        ensures r == t.receiver && !(i < |Results(s', m)|)
      {
        assert Held(s.tuner, r, t.lease, t.client);
      }
    }
  }

  lemma RanGrants(s: State, s': State, l: LaneId, o: Outcome)
    requires Queued(s) && (forall c :: TableOk(s, c)) && Acquires(s) && Releases(s) && Grants(s)
    requires Ran(s, s', l, o) && TunerMoved(s, s', Running(s, l), o)
    ensures Grants(s')
  {
    assert forall c :: Table(s', c) == Table(s, c);
    forall m, i | Pending(s', m, i)
      ensures GrantOk(s', Work(s', m)[i], Results(s', m)[i].granted)
    {
      var t := Work(s, m)[i];
      assert Placed(s, m, t);
      if m == l && i == |Results(s, l)| {
        NewGrant(s, s', m, i, o);
      } else {
        assert Pending(s, m, i);
        assert GrantOk(s, t, Results(s, m)[i].granted);
        assert Work(s, l)[|Results(s, l)|].op == Release ==> Work(s, l)[|Results(s, l)|].lease != Results(s, m)[i].granted;
      }
    }
  }

  lemma NewGrant(s: State, s': State, l: LaneId, i: int, o: Outcome)
    requires Queued(s) && (forall c :: TableOk(s, c)) && Acquires(s) && Releases(s)
    requires Ran(s, s', l, o) && i == |Results(s, l)| && o.ok && Work(s, l)[i].op == Acquire
    requires TunerMoved(s, s', Work(s, l)[i], o)
    ensures GrantOk(s', Work(s, l)[i], o.granted)
  {
    var t := Work(s, l)[i];
    assert Placed(s, l, t);
    assert AcquireOk(s, t);
    forall c
      ensures o.granted !in Table(s', c)
    {
      assert TableOk(s, c) && Table(s', c) == Table(s, c);
    }
    assert Table(s', t.client) == Table(s, t.client);
    forall m, j | 0 <= j < |Work(s', m)| && Work(s', m)[j].op == Release
      ensures Work(s', m)[j].lease != o.granted
    {
      assert ReleaseOk(s, Work(s, m)[j], j < |Results(s, m)|);
    }
  }

  lemma RanAccounts(s: State, s': State, l: LaneId, o: Outcome)
    requires (forall r :: r in s.tuner ==> Accounted(s, r)) && Ran(s, s', l, o) && TunerMoved(s, s', Running(s, l), o)
    ensures forall r :: r in s'.tuner ==> Accounted(s', r)
  {
    forall r | r in s'.tuner
      ensures Accounted(s', r)
    {
      if r in s.tuner && s.tuner[r] == s'.tuner[r] {
        var owner := s.tuner[r].owner;
        assert Table(s', owner) == Table(s, owner);
        assert Accounted(s, r);
        if m, i :| Covers(s, m, i, r, s.tuner[r]) {
          assert Covers(s', m, i, r, s'.tuner[r]);
        }
      } else {
        assert Covers(s', l, |Results(s, l)|, r, s'.tuner[r]);
      }
    }
  }

  /** How a task changes the card handles. */
  ghost predicate CardsMoved(s: State, s': State, t: Task) {
    forall h :: h in s'.handles ==>
      || (h in s.handles && s'.handles[h] == s.handles[h] && (t.op == Fence ==> s.handles[h] != t.client))
      || (t.op == Connect && s'.handles[h] == t.client)
  }

  lemma RanFences(s: State, s': State, l: LaneId, o: Outcome)
    requires Queued(s) && Fences(s) && Ran(s, s', l, o) && CardsMoved(s, s', Running(s, l))
    ensures Fences(s')
  {
    var k, t := |Results(s, l)|, Running(s, l);
    assert Placed(s, l, Work(s, l)[k]);
    forall c | Past(s', c)
      ensures NoCards(s', c)
    {
      assert Past(s, c) && NoCards(s, c);
    }
    forall i, h | FenceRan(s', i) && h in s'.handles
      ensures s'.handles[h] != Work(s', CardLane)[i].client
    {
      assert Placed(s, CardLane, Work(s, CardLane)[i]);
      if l == CardLane && i == k {
      } else {
        assert FenceRan(s, i);
      }
    }
  }

  lemma ExecuteKeeps(s: State, a: Action)
    requires Inv(s) && a.Execute? && Enabled(s, a)
    ensures Inv(Next(s, a))
  {
    var l, o := a.lane, Outcome(a.ok, a.granted);
    var s' := ExecuteTask(s, l, o, a.handle, a.dropped);
    ExecuteRuns(s, l, o, a.handle, a.dropped);
    ExecuteMoves(s, a);
    var t := Running(s, l);
    assert Placed(s, l, t);
    RanGranted(s, s', t, o);
    RanQueues(s, s', l, o);
    forall c
      ensures TableOk(s', c)
    {
      assert TableOk(s, c);
      RanTable(s, s', l, o, c);
    }
    RanAcquires(s, s', l, o);
    RanReleases(s, s', l, o);
    RanGrants(s, s', l, o);
    RanAccounts(s, s', l, o);
    RanFences(s, s', l, o);
  }

  lemma ExecuteMoves(s: State, a: Action)
    requires Known(s) && a.Execute? && Enabled(s, a)
    ensures var s' := ExecuteTask(s, a.lane, Outcome(a.ok, a.granted), a.handle, a.dropped);
            && TunerMoved(s, s', Running(s, a.lane), Outcome(a.ok, a.granted))
            && CardsMoved(s, s', Running(s, a.lane))
  {
    var lane := s.lanes[a.lane];
    var o := Outcome(a.ok, a.granted);
    var m := s.(lanes := s.lanes[a.lane := lane.(results := lane.results + [o])]);
    ServeMoves(m, lane.work[|lane.results|], o, a.handle, a.dropped);
  }

  lemma ServeMoves(s: State, t: Task, o: Outcome, handle: nat, dropped: set<nat>)
    requires t.op == Acquire && o.ok ==> o.granted != 0 && o.granted !in s.used && t.receiver !in s.tuner
    ensures TunerMoved(s, Serve(s, t, o, handle, dropped), t, o)
    ensures CardsMoved(s, Serve(s, t, o, handle, dropped), t)
  {
  }

  // ------------------------------------------------ a completion is handled

  /** What a completion does to its client's table. */
  ghost function Settled(table: map<Lease, nat>, t: Task, o: Outcome): map<Lease, nat> {
    if t.op == Acquire && o.ok then table[o.granted := t.receiver]
    else if t.op == Release then table - {t.lease}
    else table
  }

  /** s' is s after the first completion of lane l, of task t with result o, has been handled. */
  ghost predicate Handled(s: State, s': State, l: LaneId, t: Task, o: Outcome) {
    && |Results(s, l)| > 0 && |Work(s, l)| > 0 && t == Work(s, l)[0] && o == Results(s, l)[0]
    && (forall m :: Work(s', m) == if m == l then Work(s, m)[1..] else Work(s, m))
    && (forall m :: |Results(s, m)| > 0 ==> Results(s', m) == if m == l then Results(s, m)[1..] else Results(s, m))
    && (forall m :: Results(s, m) == [] ==> Results(s', m) == [])
    && s'.clients.Keys == s.clients.Keys && s'.nextId == s.nextId && SameGrants(s, s') && s'.handles == s.handles
    && (forall c :: Table(s', c) == if c == t.client then Settled(Table(s, c), t, o) else Table(s, c))
    && (forall c :: Flight(s', c) == if c == t.client && t.kind == Request then None else Flight(s, c))
    && (forall c :: Past(s', c) ==> Past(s, c) || (c == t.client && t.op == Fence))
    && (forall c :: Past(s, c) ==> Past(s', c))
  }

  /** A request is alone: nothing else on the lanes is a request of its client. */
  lemma OnlyRequest(s: State, l: LaneId, m: LaneId, i: int)
    requires Queued(s) && |Work(s, l)| > 0 && Work(s, l)[0].kind == Request
    requires 0 <= i < |Work(s, m)| && Work(s, m)[i].kind == Request && Work(s, m)[i].client == Work(s, l)[0].client
    ensures m == l && i == 0
  {
    assert Placed(s, l, Work(s, l)[0]) && Placed(s, m, Work(s, m)[i]);
  }

  lemma HandledQueues(s: State, s': State, l: LaneId, t: Task, o: Outcome)
    requires Queued(s) && Handled(s, s', l, t, o)
    ensures Queued(s')
  {
    forall m, i | 0 <= i < |Work(s', m)|
      ensures Placed(s', m, Work(s', m)[i])
    {
      var j := if m == l then i + 1 else i;
      assert Placed(s, m, Work(s, m)[j]);
      if t.kind == Request && Work(s, m)[j].kind == Request && Work(s, m)[j].client == t.client {
        OnlyRequest(s, l, m, j);
      }
    }
  }

  lemma HandledTable(s: State, s': State, t: Task, o: Outcome, c: Id)
    requires TableOk(s, c) && SameGrants(s, s') && s'.clients.Keys == s.clients.Keys
    requires Table(s', c) == if c == t.client then Settled(Table(s, c), t, o) else Table(s, c)
    requires Flight(s', c) == if c == t.client && t.kind == Request then None else Flight(s, c)
    requires if t.kind == Request then Flight(s, t.client) == Some(t) else t.client !in s.clients
    requires t.op == Acquire && o.ok ==> Granted(s) && GrantOk(s, t, o.granted)
    ensures TableOk(s', c)
  {
    if c == t.client && c in s.clients {
      assert forall lease :: lease in Table(s, c) ==> Held(s.tuner, Table(s, c)[lease], lease, c) || Releasing(s, c, lease);
    }
  }

  lemma HandledTasks(s: State, s': State, l: LaneId, t: Task, o: Outcome)
    requires Queued(s) && Acquires(s) && Releases(s) && Handled(s, s', l, t, o)
    ensures Acquires(s') && Releases(s')
  {
    assert Placed(s, l, t);
    forall m, i | |Results(s', m)| <= i < |Work(s', m)| && Work(s', m)[i].op == Acquire
      ensures AcquireOk(s', Work(s', m)[i])
    {
      var j := if m == l then i + 1 else i;
      var w := Work(s, m)[j];
      assert AcquireOk(s, w) && Placed(s, m, w);
      if t.kind == Request && w.client == t.client {
        OnlyRequest(s, l, m, j);
      }
    }
    forall m, i | 0 <= i < |Work(s', m)| && Work(s', m)[i].op == Release
      ensures ReleaseOk(s', Work(s', m)[i], i < |Results(s', m)|)
    {
      var j := if m == l then i + 1 else i;
      assert ReleaseOk(s, Work(s, m)[j], j < |Results(s, m)|);
    }
  }

  lemma HandledGrants(s: State, s': State, l: LaneId, t: Task, o: Outcome)
    requires Queued(s) && Granted(s) && Grants(s) && Handled(s, s', l, t, o)
    ensures Grants(s')
  {
    assert Placed(s, l, t);
    forall m, i | Pending(s', m, i)
      ensures GrantOk(s', Work(s', m)[i], Results(s', m)[i].granted)
    {
      var j := if m == l then i + 1 else i;
      assert Pending(s, m, j) && Work(s, m)[j] == Work(s', m)[i] && Results(s, m)[j] == Results(s', m)[i];
      HandledGrantOk(s, s', l, t, o, m, j);
    }
  }

  /** Handling a completion leaves the other pending grants as they are. */
  lemma HandledGrantOk(s: State, s': State, l: LaneId, t: Task, o: Outcome, m: LaneId, j: int)
    requires Queued(s) && Granted(s) && Grants(s) && Handled(s, s', l, t, o)
    requires Pending(s, m, j) && (m == l ==> j > 0)
    ensures GrantOk(s', Work(s, m)[j], Results(s, m)[j].granted)
  {
    var w, g := Work(s, m)[j], Results(s, m)[j].granted;
    assert GrantOk(s, w, g);
    if t.kind == Request && w.client == t.client {
      OnlyRequest(s, l, m, j);
    }
    if t.op == Acquire && o.ok {
      assert Pending(s, l, 0) && GrantOk(s, t, o.granted);
    }
  }

  lemma HandledAccounts(s: State, s': State, l: LaneId, t: Task, o: Outcome)
    requires Releases(s) && Grants(s) && (forall r :: r in s.tuner ==> Accounted(s, r)) && Handled(s, s', l, t, o)
    ensures forall r :: r in s'.tuner ==> Accounted(s', r)
  {
    forall r | r in s'.tuner
      ensures Accounted(s', r)
    {
      var g := s.tuner[r];
      assert Accounted(s, r);
      if g.lease in Table(s, g.owner) && Table(s, g.owner)[g.lease] == r {
        assert Held(s.tuner, r, g.lease, g.owner);
        assert t.op == Release ==> ReleaseOk(s, Work(s, l)[0], 0 < |Results(s, l)|);
        assert t.op == Acquire && o.ok ==> Pending(s, l, 0) && GrantOk(s, t, o.granted);
      } else {
        var m, i :| Covers(s, m, i, r, g);
        if m == l && i == 0 {
          assert g.lease in Table(s', g.owner);
        } else {
          assert Covers(s', m, if m == l then i - 1 else i, r, g);
        }
      }
    }
  }

  lemma HandledFences(s: State, s': State, l: LaneId, t: Task, o: Outcome)
    requires Queued(s) && Fences(s) && Handled(s, s', l, t, o)
    ensures Fences(s')
  {
    assert Placed(s, l, t);
    forall c | Past(s', c)
      ensures NoCards(s', c)
    {
      if Past(s, c) {
        assert NoCards(s, c);
      } else {
        assert FenceRan(s, 0);
      }
    }
    forall i, h | FenceRan(s', i) && h in s'.handles
      ensures s'.handles[h] != Work(s', CardLane)[i].client
    {
      assert FenceRan(s, if l == CardLane then i + 1 else i);
    }
  }

  /** Distinct receivers bound the number of leases. */
  lemma {:induction false} CountReceivers(table: map<Lease, nat>, bound: nat)
    requires forall a :: a in table ==> table[a] < bound
    requires forall a, b :: a in table && b in table && a != b ==> table[a] != table[b]
    ensures |table| <= bound
    decreases bound
  {
    if a :| a in table && table[a] == bound - 1 {
      CountAfterDrop(table, a);
      CountReceivers(table - {a}, bound - 1);
    } else if bound > 0 {
      CountReceivers(table, bound - 1);
    } else {
      assert table.Keys == {};
    }
  }

  /** A pending grant always finds a slot: its receiver is not in the table, and receivers are distinct. */
  lemma GrantFindsSlot(s: State, l: LaneId)
    requires Inv(s) && Pending(s, l, 0)
    ensures var t := Work(s, l)[0];
            && HasSlot(Table(s, t.client)) && Results(s, l)[0].granted != 0 && t.receiver < RECEIVERS
            && Results(s, l)[0].granted !in Table(s, t.client)
  {
    var t, g := Work(s, l)[0], Results(s, l)[0].granted;
    assert GrantOk(s, t, g);
    assert Placed(s, l, t);
    assert TableOk(s, t.client);
    CountReceivers(Table(s, t.client)[g := t.receiver], RECEIVERS);
    CountAfterAdd(Table(s, t.client), g, t.receiver);
  }

  lemma TableSize(s: State, c: Id)
    requires Known(s) && c in s.retired
    ensures |Table(s, c)| == |s.retired[c].leases|
  {
    assert Table(s, c).Keys == s.retired[c].leases.Keys;
    assert |Table(s, c).Keys| == |Table(s, c)| && |s.retired[c].leases.Keys| == |s.retired[c].leases|;
  }

  lemma PoppedLanes(s: State, l: LaneId)
    requires Known(s) && |s.lanes[l].results| > 0
    ensures var s' := Popped(s, l);
            && Known(s')
            && (forall m :: Work(s', m) == if m == l then Work(s, m)[1..] else Work(s, m))
            && (forall m :: |Results(s, m)| > 0 ==> Results(s', m) == if m == l then Results(s, m)[1..] else Results(s, m))
            && (forall m :: Results(s, m) == [] ==> Results(s', m) == [])
            && SameTables(s, s') && SameFlights(s, s') && forall c :: Past(s', c) == Past(s, c)
  {
  }

  /** Everything but the lanes, as HandleCompletion changes it. */
  ghost predicate Settles(s: State, s': State, t: Task, o: Outcome) {
    && Known(s') && s'.lanes == s.lanes
    && s'.clients.Keys == s.clients.Keys && s'.nextId == s.nextId && SameGrants(s, s') && s'.handles == s.handles
    && (forall c :: Table(s', c) == if c == t.client then Settled(Table(s, c), t, o) else Table(s, c))
    && (forall c :: Flight(s', c) == if c == t.client && t.kind == Request then None else Flight(s, c))
    && (forall c :: Past(s', c) ==> Past(s, c) || (c == t.client && t.op == Fence))
    && (forall c :: Past(s, c) ==> Past(s', c))
  }

  ghost predicate Settleable(s: State, t: Task, o: Outcome) {
    && Known(s)
    && (if t.kind == Request then Flight(s, t.client) == Some(t) && t.op != Fence
        else t.client !in s.clients && (t.op == Release || t.op == Fence))
    && (t.op == Acquire && o.ok ==>
          && HasSlot(Table(s, t.client)) && o.granted != 0 && t.receiver < RECEIVERS && o.granted !in Table(s, t.client))
  }

  lemma SettleLive(s: State, t: Task, o: Outcome)
    requires Settleable(s, t, o) && t.client in s.clients
    ensures Settles(s, HandleCompletion(s, t, o), t, o)
  {
    CountAfterAdd(s.clients, t.client, Answer(s.clients[t.client], t, o));
  }

  ghost function Receivers(leases: map<Lease, Entry>): map<Lease, nat> {
    map lease | lease in leases :: leases[lease].receiver
  }

  /** A retired record after one of its completions. */
  ghost function Classified(r: Retired, t: Task, o: Outcome): Retired {
    var r1 := if t.kind == Request then r.(waiting := None) else r;
    var r2 := if t.kind == Request && t.op == Acquire && o.ok && HasSlot(r.leases)
              then r1.(leases := r1.leases[o.granted := Entry(t.receiver, false)]) else r1;
    if t.op == Release then r2.(leases := r2.leases - {t.lease})
    else if t.op == Fence then r2.(cardPending := false)
    else r2
  }

  lemma CompletionClassifies(s: State, t: Task, o: Outcome)
    requires Settleable(s, t, o) && t.client in s.retired
    ensures HandleCompletion(s, t, o) == s.(retired := s.retired[t.client := Classified(s.retired[t.client], t, o)])
  {
    var r := s.retired[t.client];
    assert s.retired == s.retired[t.client := r];
    if t.kind == Request {
      var r' := r.(waiting := None);
      var r'' := if t.op == Acquire && o.ok && HasSlot(r'.leases)
                 then r'.(leases := r'.leases[o.granted := Entry(t.receiver, false)]) else r';
      assert s.retired[t.client := r''][t.client := Classified(r, t, o)] == s.retired[t.client := Classified(r, t, o)];
    }
  }

  lemma ClassifiedReceivers(r: Retired, t: Task, o: Outcome)
    requires t.kind == Cleanup ==> t.op == Release || t.op == Fence
    requires t.op == Acquire && o.ok ==> HasSlot(r.leases)
    ensures Receivers(Classified(r, t, o).leases) == Settled(Receivers(r.leases), t, o)
  {
  }

  lemma RecordChanges(s: State, c: Id, r: Retired)
    requires Known(s) && c in s.retired
    ensures var m := s.(retired := s.retired[c := r]);
            && Known(m) && Table(m, c) == Receivers(r.leases) && Table(s, c) == Receivers(s.retired[c].leases)
            && Flight(m, c) == r.waiting && Flight(s, c) == s.retired[c].waiting
            && (forall d :: d != c ==> Table(m, d) == Table(s, d) && Flight(m, d) == Flight(s, d))
            && (forall d :: d != c || r.cardPending == s.retired[c].cardPending ==> Past(m, d) == Past(s, d))
            && (forall d :: (r.cardPending ==> s.retired[c].cardPending) && Past(s, d) ==> Past(m, d))
  {
    CountAfterAdd(s.retired, c, r);
  }

  lemma SettleRetired(s: State, t: Task, o: Outcome)
    requires Settleable(s, t, o) && t.client in s.retired
    ensures Settles(s, HandleCompletion(s, t, o), t, o)
  {
    var r := s.retired[t.client];
    TableSize(s, t.client);
    CompletionClassifies(s, t, o);
    ClassifiedReceivers(r, t, o);
    RecordChanges(s, t.client, Classified(r, t, o));
  }

  lemma SettleGone(s: State, t: Task, o: Outcome)
    requires Settleable(s, t, o) && t.client !in s.retired && t.client !in s.clients
    ensures Settles(s, HandleCompletion(s, t, o), t, o)
  {
    assert Table(s, t.client) == map[];
  }

  lemma FinishHandles(s: State, l: LaneId)
    requires Inv(s) && |s.lanes[l].results| > 0
    ensures Known(Finish(s, l)) && Handled(s, Finish(s, l), l, s.lanes[l].work[0], s.lanes[l].results[0])
  {
    var t, o, m := s.lanes[l].work[0], s.lanes[l].results[0], Popped(s, l);
    PoppedLanes(s, l);
    PoppedSettles(s, l);
    SettledHandled(s, m, HandleCompletion(m, t, o), l, t, o);
  }

  lemma PoppedSettles(s: State, l: LaneId)
    requires Inv(s) && |s.lanes[l].results| > 0
    ensures var t, o, m := s.lanes[l].work[0], s.lanes[l].results[0], Popped(s, l);
            Settles(m, HandleCompletion(m, t, o), t, o)
  {
    var t, o, m := s.lanes[l].work[0], s.lanes[l].results[0], Popped(s, l);
    PoppedLanes(s, l);
    assert Placed(s, l, Work(s, l)[0]);
    if t.op == Acquire && o.ok {
      assert Pending(s, l, 0);
      GrantFindsSlot(s, l);
    }
    assert Settleable(m, t, o);
    if t.client in s.clients { SettleLive(m, t, o); }
    else if t.client in s.retired { SettleRetired(m, t, o); }
    else { SettleGone(m, t, o); }
  }

  lemma SettledHandled(s: State, m: State, s': State, l: LaneId, t: Task, o: Outcome)
    requires Known(s) && |s.lanes[l].results| > 0 && t == s.lanes[l].work[0] && o == s.lanes[l].results[0]
    requires m == Popped(s, l) && Settles(m, s', t, o)
    ensures Handled(s, s', l, t, o)
  {
    PoppedLanes(s, l);
    forall k
      ensures Work(s', k) == Work(m, k) && Results(s', k) == Results(m, k)
    {
    }
  }

  lemma FinishKeeps(s: State, l: LaneId)
    requires Inv(s) && |s.lanes[l].results| > 0
    ensures Inv(Finish(s, l))
  {
    var s', t, o := Finish(s, l), s.lanes[l].work[0], s.lanes[l].results[0];
    FinishHandles(s, l);
    HandledQueues(s, s', l, t, o);
    assert Placed(s, l, Work(s, l)[0]);
    assert t.op == Acquire && o.ok ==> Pending(s, l, 0) && GrantOk(s, t, o.granted);
    forall c
      ensures TableOk(s', c)
    {
      assert TableOk(s, c);
      HandledTable(s, s', t, o, c);
    }
    HandledTasks(s, s', l, t, o);
    HandledGrants(s, s', l, t, o);
    HandledAccounts(s, s', l, t, o);
    HandledFences(s, s', l, t, o);
  }

  // -------------------------------------------------------------- theorems

  /** Every step keeps the invariant. */
  lemma NextKeeps(s: State, a: Action)
    requires Inv(s) && Enabled(s, a)
    ensures Inv(Next(s, a))
  {
    match a
    case Accept => AdmitKeeps(s);
    case Submit(c, op, request, receiver, lease, accepted) =>
      if accepted { TakeKeeps(s, Task(Request, op, c, request, receiver, lease)); }
    case Execute(_, _, _, _, _) => ExecuteKeeps(s, a);
    case Complete(l) => FinishKeeps(s, l);
    case Remove(c) => RemoveKeeps(s, c);
    case RetryLease(c, lease, accepted) => if accepted { QueueReleaseKeeps(s, c, lease); }
    case RetryFence(c, accepted) => if accepted { QueueFenceKeeps(s, c); }
    case Reap(c) => ForgetKeeps(s, c);
  }

  /** The state after a run; a step that is not enabled does not happen. */
  function Run(s: State, steps: seq<Action>): State {
    if steps == [] then s
    else
      var p := Run(s, steps[..|steps| - 1]);
      if Enabled(p, steps[|steps| - 1]) then Next(p, steps[|steps| - 1]) else p
  }

  lemma {:induction false} RunKeeps(steps: seq<Action>)
    ensures Inv(Run(INITIAL, steps))
  {
    if steps == [] {
      InitialInv();
    } else {
      RunKeeps(steps[..|steps| - 1]);
      var p := Run(INITIAL, steps[..|steps| - 1]);
      if Enabled(p, steps[|steps| - 1]) { NextKeeps(p, steps[|steps| - 1]); }
    }
  }

  /**
   On every run, each lease at the tuner service is listed for its owner, live or
   removed, or is the result of an acquire whose owner still waits for it.
   */
  lemma EveryLeaseAccounted(steps: seq<Action>, r: nat)
    ensures var s := Run(INITIAL, steps);
            r in s.tuner ==>
            var g := s.tuner[r];
            || (g.owner in s.clients && g.lease in s.clients[g.owner].leases && s.clients[g.owner].leases[g.lease] == r)
            || (g.owner in s.retired && g.lease in s.retired[g.owner].leases && s.retired[g.owner].leases[g.lease].receiver == r)
            || (exists l, i :: Covers(s, l, i, r, g) && Flight(s, g.owner) == Some(Work(s, l)[i]))
  {
    RunKeeps(steps);
    var s := Run(INITIAL, steps);
    if r in s.tuner {
      var g := s.tuner[r];
      assert Accounted(s, r);
      if l, i :| Covers(s, l, i, r, g) {
        assert GrantOk(s, Work(s, l)[i], Results(s, l)[i].granted);
        assert Placed(s, l, Work(s, l)[i]);
      }
    }
  }

  predicate Quiescent(s: State) {
    && s.clients == map[] && (forall c :: c in s.retired ==> CleanupDone(s.retired[c]))
    && forall l: LaneId :: Work(s, l) == []
  }

  ghost predicate Busy(s: State) {
    exists l: LaneId :: Work(s, l) != []
  }

  /** A lease is in a table, or its acquire is still on a lane. */
  lemma GrantsShow(s: State)
    requires forall r :: r in s.tuner ==> Accounted(s, r)
    ensures Busy(s) || forall r :: r in s.tuner ==> Table(s, s.tuner[r].owner) != map[]
  {
    forall r | r in s.tuner ensures Busy(s) || Table(s, s.tuner[r].owner) != map[] {
      assert Accounted(s, r);
      if l, i :| Covers(s, l, i, r, s.tuner[r]) { assert Work(s, l) != []; }
    }
  }

  lemma QuiescentTables(s: State)
    requires Quiescent(s)
    ensures !Busy(s) && forall c :: Table(s, c) == map[]
  {
  }

  lemma QuiescentGrants(s: State)
    requires Inv(s) && Quiescent(s)
    ensures s.tuner == map[]
  {
    GrantsShow(s);
    QuiescentTables(s);
  }

  lemma QuiescentHandles(s: State)
    requires Known(s) && Fences(s) && Quiescent(s)
    ensures s.handles == map[]
  {
    assert forall h :: h in s.handles ==> !NoCards(s, s.handles[h]);
    forall c: Id | c < s.nextId
      ensures NoCards(s, c)
    {
      assert Past(s, c);
    }
  }

  /** When no client remains, all cleanup is done and the lanes are idle, nothing is left behind. */
  lemma NothingLeftBehind(steps: seq<Action>)
    requires Quiescent(Run(INITIAL, steps))
    ensures Run(INITIAL, steps).tuner == map[] && Run(INITIAL, steps).handles == map[]
  {
    RunKeeps(steps);
    QuiescentGrants(Run(INITIAL, steps));
    QuiescentHandles(Run(INITIAL, steps));
  }

  /** Once a removed client is past its fence it stays past it, whatever happens next. */
  lemma PastStays(s: State, a: Action, c: Id)
    requires Inv(s) && Enabled(s, a) && Past(s, c)
    ensures Past(Next(s, a), c)
  {
    match a
    case Accept => AdmitPast(s, c);
    case Submit(d, op, request, receiver, lease, accepted) =>
      if accepted { TakePast(s, Task(Request, op, d, request, receiver, lease), c); }
    case Execute(l, ok, granted, handle, dropped) => ExecuteRuns(s, l, Outcome(ok, granted), handle, dropped);
    case Complete(l) => FinishHandles(s, l);
    case Remove(d) => RemovePast(s, d, c);
    case RetryLease(d, lease, accepted) => if accepted { QueueReleaseAppends(s, d, lease); }
    case RetryFence(d, accepted) => if accepted { QueueFenceAppends(s, d); }
    case Reap(d) => ForgetPast(s, d, c);
  }

  lemma AdmitPast(s: State, c: Id)
    requires Past(s, c)
    ensures Past(Admit(s), c)
  {
  }

  lemma TakePast(s: State, t: Task, c: Id)
    requires WellFormed(s) && t.client in s.clients && Past(s, c)
    ensures Past(Take(s, t), c)
  {
  }

  lemma RemovePast(s: State, d: Id, c: Id)
    requires d in s.clients && Past(s, c)
    ensures Past(RemoveClient(s, d), c)
  {
  }

  lemma ForgetPast(s: State, d: Id, c: Id)
    requires Past(s, c)
    ensures Past(Forget(s, d), c)
  {
  }

  lemma {:induction false} PastForever(steps: seq<Action>, n: nat, c: Id)
    requires n <= |steps| && Past(Run(INITIAL, steps[..n]), c)
    ensures Past(Run(INITIAL, steps), c)
    decreases |steps| - n
  {
    if n == |steps| {
      assert steps[..n] == steps;
    } else {
      assert steps[..n + 1][..n] == steps[..n];
      var p := Run(INITIAL, steps[..n]);
      RunKeeps(steps[..n]);
      if Enabled(p, steps[n]) { PastStays(p, steps[n], c); }
      PastForever(steps, n + 1, c);
    }
  }

  /** After a removed client's fence has completed, the card service never again holds a handle for it. */
  lemma FenceHolds(steps: seq<Action>, n: nat, c: Id)
    requires n <= |steps| && Past(Run(INITIAL, steps[..n]), c)
    ensures forall h :: h in Run(INITIAL, steps).handles ==> Run(INITIAL, steps).handles[h] != c
  {
    PastForever(steps, n, c);
    RunKeeps(steps);
    assert NoCards(Run(INITIAL, steps), c);
  }
}
