/**
 The daemon cleans up: whatever removed clients left behind is sought on the
 lanes or can be put there, and the steps that do so run out.
 */
module ControlDrain {
  import opened Errors
  import opened ControlServer

  // ------------------------------------------------- what is being pursued

  /** The task is on some lane. */
  ghost predicate OnLanes(s: State, t: Task) {
    exists l :: t in Work(s, l)
  }

  /** The request a client waits for, or waited for when it was removed, is on a lane. */
  ghost predicate FlightSought(s: State, c: Id) {
    Flight(s, c).Some? ==> Flight(s, c).value.kind == Request && Flight(s, c).value.client == c && OnLanes(s, Flight(s, c).value)
  }

  /** What a removed client's record says is queued is on a lane. */
  ghost predicate RecordSought(s: State, c: Id) {
    c in s.retired ==>
      && (forall lease :: lease in s.retired[c].leases && s.retired[c].leases[lease].queued ==>
            OnLanes(s, ReleaseTask(c, lease, s.retired[c].leases[lease].receiver)))
      && (s.retired[c].cardPending && s.retired[c].cardQueued ==> OnLanes(s, FenceTask(c)))
  }

  ghost predicate Pursued(s: State) {
    forall c :: FlightSought(s, c) && RecordSought(s, c)
  }

  /** Nothing left the lanes. */
  ghost predicate Kept(s: State, s': State) {
    forall t :: OnLanes(s, t) ==> OnLanes(s', t)
  }

  lemma SameWorkKept(s: State, s': State)
    requires forall l :: Work(s', l) == Work(s, l)
    ensures Kept(s, s')
  {
    forall t | OnLanes(s, t) ensures OnLanes(s', t) {
      var l :| t in Work(s, l);
      assert t in Work(s', l);
    }
  }

  lemma EnqueueKept(s: State, t: Task)
    requires WellFormed(s)
    ensures Kept(s, Enqueue(s, t)) && OnLanes(Enqueue(s, t), t)
  {
    EnqueueWork(s, t);
    var s' := Enqueue(s, t);
    assert t in Work(s', LaneOf(t.op, t.receiver));
    forall u | OnLanes(s, u) ensures OnLanes(s', u) {
      var l :| u in Work(s, l);
      assert u in Work(s', l);
    }
  }

  /** One client's affairs changed, in order; those of the others did not. */
  lemma PursuedBut(s: State, s': State, c: Id)
    requires Pursued(s) && Kept(s, s') && FlightSought(s', c) && RecordSought(s', c)
    requires forall d :: d != c ==> Flight(s', d) == Flight(s, d) && (d in s'.retired ==> d in s.retired && s'.retired[d] == s.retired[d])
    ensures Pursued(s')
  {
    forall d ensures FlightSought(s', d) && RecordSought(s', d) {
      assert FlightSought(s, d) && RecordSought(s, d);
    }
  }

  lemma InitialPursued()
    ensures Pursued(INITIAL)
  {
  }

  lemma SubmitPursued(s: State, t: Task)
    requires WellFormed(s) && Pursued(s) && t.client in s.clients && t.client !in s.retired && t.kind == Request
    ensures Pursued(Take(s, t))
  {
    var m := s.(clients := s.clients[t.client := s.clients[t.client].(outstanding := Some(t))]);
    SameWorkKept(s, m);
    EnqueueKept(m, t);
    PursuedBut(s, Take(s, t), t.client);
  }

  lemma QueuePursued(s: State, c: Id, r: Retired, t: Task)
    requires WellFormed(s) && Pursued(s) && c in s.retired && c !in s.clients && r.waiting == s.retired[c].waiting
    requires forall lease :: lease in r.leases && r.leases[lease].queued ==>
               || (lease in s.retired[c].leases && s.retired[c].leases[lease] == r.leases[lease])
               || t == ReleaseTask(c, lease, r.leases[lease].receiver)
    requires r.cardPending && r.cardQueued ==> (s.retired[c].cardPending && s.retired[c].cardQueued) || t == FenceTask(c)
    ensures Pursued(Enqueue(s.(retired := s.retired[c := r]), t))
  {
    var m := s.(retired := s.retired[c := r]);
    SameWorkKept(s, m);
    EnqueueKept(m, t);
    assert FlightSought(s, c) && RecordSought(s, c);
    PursuedBut(s, Enqueue(m, t), c);
  }

  lemma RemovePursued(s: State, c: Id)
    requires Known(s) && Pursued(s) && c in s.clients
    ensures Pursued(RemoveClient(s, c))
  {
    var s' := RemoveClient(s, c);
    SameWorkKept(s, s');
    assert FlightSought(s, c);
    PursuedBut(s, s', c);
  }

  lemma ReapPursued(s: State, c: Id)
    requires Pursued(s) && c in s.retired && c !in s.clients
    ensures Pursued(Forget(s, c))
  {
    SameWorkKept(s, Forget(s, c));
    PursuedBut(s, Forget(s, c), c);
  }

  lemma AdmitPursued(s: State)
    requires Known(s) && Pursued(s)
    ensures Pursued(Admit(s))
  {
    SameWorkKept(s, Admit(s));
    PursuedBut(s, Admit(s), s.nextId);
  }

  lemma ExecutePursued(s: State, l: LaneId, o: Outcome, handle: nat, dropped: set<nat>)
    requires WellFormed(s) && Pursued(s) && |s.lanes[l].results| < |s.lanes[l].work|
    ensures Pursued(ExecuteTask(s, l, o, handle, dropped))
  {
    var lane := s.lanes[l];
    var m := s.(lanes := s.lanes[l := lane.(results := lane.results + [o])]);
    ServeKeeps(m, lane.work[|lane.results|], o, handle, dropped);
    var s' := ExecuteTask(s, l, o, handle, dropped);
    SameWorkKept(s, s');
    forall c ensures FlightSought(s', c) && RecordSought(s', c) {
      assert FlightSought(s, c) && RecordSought(s, c);
    }
  }

  /** Nothing but t left the lanes. */
  ghost predicate KeptBut(s: State, s': State, t: Task) {
    forall u :: OnLanes(s, u) && u != t ==> OnLanes(s', u)
  }

  lemma PoppedKept(s: State, l: LaneId, s': State)
    requires WellFormed(s) && |s.lanes[l].results| > 0 && s'.lanes == Popped(s, l).lanes
    ensures KeptBut(s, s', s.lanes[l].work[0])
  {
    forall u | OnLanes(s, u) && u != s.lanes[l].work[0] ensures OnLanes(s', u) {
      var m :| u in Work(s, m);
      assert m == l ==> Work(s, l) == [s.lanes[l].work[0]] + Work(s', l);
      assert u in Work(s', m);
    }
  }

  /** What a completion does to the record of its client: nothing it does not settle is left queued. */
  ghost predicate Settles(s: State, s': State, t: Task, granted: Lease) {
    && s'.clients.Keys == s.clients.Keys && s'.retired.Keys == s.retired.Keys && s'.nextId == s.nextId
    && (forall d :: d in s.retired && d != t.client ==> s'.retired[d] == s.retired[d])
    && (forall d :: Flight(s', d) == if d == t.client && t.kind == Request then None else Flight(s, d))
    && (t.client in s.retired ==>
          && s'.retired[t.client].cardQueued == s.retired[t.client].cardQueued
          && s'.retired[t.client].cardPending == (s.retired[t.client].cardPending && t.op != Fence)
          && (t.op == Release ==> t.lease !in s'.retired[t.client].leases)
          && forall lease :: lease in s'.retired[t.client].leases ==>
               || (lease in s.retired[t.client].leases && s'.retired[t.client].leases[lease] == s.retired[t.client].leases[lease])
               || (t.op == Acquire && lease == granted && !s'.retired[t.client].leases[lease].queued))
  }

  lemma CleanupSettles(s: State, t: Task)
    requires (t.op == Release || t.op == Fence) && t.kind == Cleanup && t.client !in s.clients
    ensures Settles(s, CleanupCompleted(s, t), t, 0) && CleanupCompleted(s, t).lanes == s.lanes
  {
  }

  lemma OrphanSettles(s: State, t: Task, o: Outcome)
    requires t.kind == Request && t.op != Fence && t.client in s.retired && t.client !in s.clients
    ensures Settles(s, HandleCompletion(s, t, o), t, o.granted) && HandleCompletion(s, t, o).lanes == s.lanes
  {
  }

  lemma AnswerSettles(s: State, t: Task, o: Outcome)
    requires t.kind == Request && t.client in s.clients && t.client !in s.retired && Flight(s, t.client) == Some(t)
    ensures Settles(s, HandleCompletion(s, t, o), t, o.granted) && HandleCompletion(s, t, o).lanes == s.lanes
  {
  }

  lemma CompletionSettles(s: State, l: LaneId)
    requires Known(s) && Queued(s) && |s.lanes[l].results| > 0
    ensures Settles(s, Finish(s, l), s.lanes[l].work[0], s.lanes[l].results[0].granted) && Finish(s, l).lanes == Popped(s, l).lanes
  {
    var t, o, m := s.lanes[l].work[0], s.lanes[l].results[0], Popped(s, l);
    assert Placed(s, l, Work(s, l)[0]);
    assert forall d :: Flight(m, d) == Flight(s, d);
    if t.kind == Cleanup {
      CleanupSettles(m, t);
    } else if t.client in s.clients {
      AnswerSettles(m, t, o);
    } else {
      OrphanSettles(m, t, o);
    }
  }

  lemma CompletePursued(s: State, l: LaneId)
    requires Known(s) && Queued(s) && Pursued(s) && |s.lanes[l].results| > 0
    ensures Pursued(Finish(s, l))
  {
    var t, s' := s.lanes[l].work[0], Finish(s, l);
    assert Placed(s, l, Work(s, l)[0]);
    CompletionSettles(s, l);
    PoppedKept(s, l, s');
    forall c ensures FlightSought(s', c) && RecordSought(s', c) {
      assert FlightSought(s, c) && RecordSought(s, c);
    }
  }

  lemma NextPursued(s: State, a: Action)
    requires Inv(s) && Pursued(s) && Enabled(s, a)
    ensures Pursued(Next(s, a))
  {
    match a
    case Accept => AdmitPursued(s);
    case Submit(c, op, request, receiver, lease, accepted) =>
      if accepted { SubmitPursued(s, Task(Request, op, c, request, receiver, lease)); }
    case Execute(l, ok, granted, handle, dropped) => ExecutePursued(s, l, Outcome(ok, granted), handle, dropped);
    case Complete(l) => CompletePursued(s, l);
    case Remove(c) => RemovePursued(s, c);
    case RetryLease(c, lease, accepted) => if accepted { RetryLeasePursued(s, c, lease); }
    case RetryFence(c, accepted) => if accepted { RetryFencePursued(s, c); }
    case Reap(c) => ReapPursued(s, c);
  }

  lemma RetryLeasePursued(s: State, c: Id, lease: Lease)
    requires Known(s) && Pursued(s) && c in s.retired && lease in s.retired[c].leases
    ensures Pursued(QueueRelease(s, c, lease))
  {
    var r := s.retired[c];
    QueuePursued(s, c, r.(leases := r.leases[lease := r.leases[lease].(queued := true)]), ReleaseTask(c, lease, r.leases[lease].receiver));
  }

  lemma RetryFencePursued(s: State, c: Id)
    requires Known(s) && Pursued(s) && c in s.retired
    ensures Pursued(QueueFence(s, c))
  {
    QueuePursued(s, c, s.retired[c].(cardQueued := true), FenceTask(c));
  }

  lemma {:induction false} RunPursued(steps: seq<Action>)
    ensures Pursued(Run(INITIAL, steps))
  {
    if steps == [] {
      InitialPursued();
    } else {
      var p := Run(INITIAL, steps[..|steps| - 1]);
      RunPursued(steps[..|steps| - 1]);
      RunKeeps(steps[..|steps| - 1]);
      if Enabled(p, steps[|steps| - 1]) { NextPursued(p, steps[|steps| - 1]); }
    }
  }

  // -------------------------------------------------------------- the measure

  /** The steps that cleaning up is made of: work on the lanes, putting it there, and giving records back. */
  predicate Cleans(a: Action) {
    a.Execute? || a.Complete? || (a.RetryLease? && a.accepted) || (a.RetryFence? && a.accepted) || a.Reap?
  }

  /** A task weighs more than a step, and an acquire, which may leave a lease to clean up, more than that takes. */
  function Weight(t: Task): nat {
    if t.op == Acquire then 22 else 10
  }

  /** What is left to do on a lane: an executed task is one step lighter. */
  function Burden(work: seq<Task>, results: seq<Outcome>): nat {
    if work == [] then 0
    else Weight(work[0]) - (if results == [] then 0 else 1) + Burden(work[1..], if results == [] then [] else results[1..])
  }

  lemma {:induction false} BurdenMore(work: seq<Task>, results: seq<Outcome>, t: Task)
    requires |results| <= |work|
    ensures Burden(work + [t], results) == Burden(work, results) + Weight(t)
    decreases |work|
  {
    if work == [] {
      assert work + [t] == [t] && [t][1..] == [];
    } else {
      assert (work + [t])[1..] == work[1..] + [t];
      BurdenMore(work[1..], if results == [] then [] else results[1..], t);
    }
  }

  lemma {:induction false} BurdenLess(work: seq<Task>, results: seq<Outcome>, o: Outcome)
    requires |results| < |work|
    ensures Burden(work, results + [o]) == Burden(work, results) - 1
    decreases |work|
  {
    if results == [] {
      assert results + [o] == [o] && [o][1..] == [];
    } else {
      assert (results + [o])[1..] == results[1..] + [o];
      BurdenLess(work[1..], results[1..], o);
    }
  }

  ghost function Load(s: State, l: LaneId): nat {
    Burden(Work(s, l), Results(s, l))
  }

  /** The leases of removed clients that no release is queued for, and the removed clients that no fence is queued for. */
  ghost function Unqueued(records: map<Id, Retired>): set<(Id, Lease)> {
    set c, lease | c in records && lease in records[c].leases && !records[c].leases[lease].queued :: (c, lease)
  }

  ghost function Unfenced(records: map<Id, Retired>): set<Id> {
    set c | c in records && records[c].cardPending && !records[c].cardQueued
  }

  ghost function Loads(s: State): nat {
    Load(s, Dev1) + Load(s, Dev2) + Load(s, CardLane)
  }

  /** What the records of removed clients call for. */
  ghost function Wants(records: map<Id, Retired>): nat {
    11 * |Unqueued(records)| + 11 * |Unfenced(records)| + |records|
  }

  /** How many steps of cleaning up there can be at most. */
  ghost function Measure(s: State): nat {
    Loads(s) + Wants(s.retired)
  }

  lemma Smaller<T>(a: set<T>, b: set<T>, extra: set<T>)
    requires a <= b + extra && |extra| <= 1
    ensures |a| <= |b| + |extra|
  {
    Subset(a, b + extra);
    assert |b + extra| <= |b| + |extra|;
  }

  lemma Subset<T>(a: set<T>, b: set<T>)
    requires a <= b
    ensures |a| <= |b|
  {
    assert b == a + (b - a);
  }

  lemma LoadsAfterEnqueue(s: State, t: Task)
    requires WellFormed(s)
    ensures Loads(Enqueue(s, t)) == Loads(s) + Weight(t)
  {
    EnqueueWork(s, t);
    var l := LaneOf(t.op, t.receiver);
    BurdenMore(Work(s, l), Results(s, l), t);
  }

  lemma LoadsAfterPop(s: State, l: LaneId)
    requires WellFormed(s) && |s.lanes[l].results| > 0
    ensures Loads(Popped(s, l)) + Weight(s.lanes[l].work[0]) - 1 == Loads(s)
  {
  }

  lemma SameLoads(s: State, s': State)
    requires s'.lanes == s.lanes
    ensures Loads(s') == Loads(s)
  {
  }

  lemma QueuedWantsLess(records: map<Id, Retired>, c: Id, lease: Lease)
    requires c in records && lease in records[c].leases && !records[c].leases[lease].queued
    ensures var r := records[c];
            Wants(records[c := r.(leases := r.leases[lease := r.leases[lease].(queued := true)])]) + 11 == Wants(records)
  {
    var r := records[c];
    var r' := r.(leases := r.leases[lease := r.leases[lease].(queued := true)]);
    var now := records[c := r'];
    assert (c, lease) in Unqueued(records);
    assert Unqueued(now) == Unqueued(records) - {(c, lease)};
    assert Unfenced(now) == Unfenced(records);
    CountAfterAdd(records, c, r');
  }

  lemma FencedWantsLess(records: map<Id, Retired>, c: Id)
    requires c in records && records[c].cardPending && !records[c].cardQueued
    ensures Wants(records[c := records[c].(cardQueued := true)]) + 11 == Wants(records)
  {
    var now := records[c := records[c].(cardQueued := true)];
    assert Unqueued(now) == Unqueued(records);
    assert c in Unfenced(records) && Unfenced(now) == Unfenced(records) - {c};
    CountAfterAdd(records, c, records[c].(cardQueued := true));
  }

  lemma ReapedWantsLess(records: map<Id, Retired>, c: Id)
    requires c in records
    ensures Wants(records - {c}) < Wants(records)
  {
    Subset(Unqueued(records - {c}), Unqueued(records));
    Subset(Unfenced(records - {c}), Unfenced(records));
    CountAfterDrop(records, c);
  }

  lemma SettledLeases(s: State, s': State, t: Task, granted: Lease)
    requires Settles(s, s', t, granted)
    ensures |Unqueued(s'.retired)| <= |Unqueued(s.retired)| + if t.op == Acquire then 1 else 0
  {
    var extra := if t.op == Acquire then {(t.client, granted)} else {};
    forall c, lease | (c, lease) in Unqueued(s'.retired) ensures (c, lease) in Unqueued(s.retired) + extra {
      if c != t.client { assert s'.retired[c] == s.retired[c]; }
    }
    Smaller(Unqueued(s'.retired), Unqueued(s.retired), extra);
  }

  lemma SettledFences(s: State, s': State, t: Task, granted: Lease)
    requires Settles(s, s', t, granted)
    ensures |Unfenced(s'.retired)| <= |Unfenced(s.retired)| && |s'.retired| == |s.retired|
  {
    forall c | c in Unfenced(s'.retired) ensures c in Unfenced(s.retired) {
      if c != t.client { assert s'.retired[c] == s.retired[c]; }
    }
    Subset(Unfenced(s'.retired), Unfenced(s.retired));
    assert |s'.retired.Keys| == |s'.retired| && |s.retired.Keys| == |s.retired|;
  }

  /** A completion leaves at most the lease it granted to clean up besides. */
  lemma SettledWants(s: State, s': State, t: Task, granted: Lease)
    requires Settles(s, s', t, granted)
    ensures Wants(s'.retired) <= Wants(s.retired) + if t.op == Acquire then 11 else 0
  {
    SettledLeases(s, s', t, granted);
    SettledFences(s, s', t, granted);
  }

  lemma RetryLeaseDecreases(s: State, c: Id, lease: Lease)
    requires WellFormed(s) && c in s.retired && lease in s.retired[c].leases && !s.retired[c].leases[lease].queued
    ensures Measure(QueueRelease(s, c, lease)) < Measure(s)
  {
    var r := s.retired[c];
    var m := s.(retired := s.retired[c := r.(leases := r.leases[lease := r.leases[lease].(queued := true)])]);
    SameLoads(s, m);
    LoadsAfterEnqueue(m, ReleaseTask(c, lease, r.leases[lease].receiver));
    QueuedWantsLess(s.retired, c, lease);
  }

  lemma RetryFenceDecreases(s: State, c: Id)
    requires WellFormed(s) && c in s.retired && s.retired[c].cardPending && !s.retired[c].cardQueued
    ensures Measure(QueueFence(s, c)) < Measure(s)
  {
    var m := s.(retired := s.retired[c := s.retired[c].(cardQueued := true)]);
    SameLoads(s, m);
    LoadsAfterEnqueue(m, FenceTask(c));
    FencedWantsLess(s.retired, c);
  }

  lemma ReapDecreases(s: State, c: Id)
    requires c in s.retired
    ensures Measure(Forget(s, c)) < Measure(s)
  {
    SameLoads(s, Forget(s, c));
    ReapedWantsLess(s.retired, c);
  }

  lemma ExecuteDecreases(s: State, l: LaneId, o: Outcome, handle: nat, dropped: set<nat>)
    requires Known(s) && |s.lanes[l].results| < |s.lanes[l].work|
    ensures Measure(ExecuteTask(s, l, o, handle, dropped)) < Measure(s)
  {
    ExecuteRuns(s, l, o, handle, dropped);
    BurdenLess(Work(s, l), Results(s, l), o);
  }

  lemma CompleteDecreases(s: State, l: LaneId)
    requires Known(s) && Queued(s) && |s.lanes[l].results| > 0
    ensures Measure(Finish(s, l)) < Measure(s)
  {
    var t, o := s.lanes[l].work[0], s.lanes[l].results[0];
    CompletionSettles(s, l);
    SettledWants(s, Finish(s, l), t, o.granted);
    SameLoads(Popped(s, l), Finish(s, l));
    LoadsAfterPop(s, l);
  }

  /** Every step of cleaning up, whatever it comes to, leaves less to clean up. */
  lemma CleaningDecreases(s: State, a: Action)
    requires Inv(s) && Enabled(s, a) && Cleans(a)
    ensures Measure(Next(s, a)) < Measure(s)
  {
    match a
    case Execute(l, ok, granted, handle, dropped) => ExecuteDecreases(s, l, Outcome(ok, granted), handle, dropped);
    case Complete(l) => CompleteDecreases(s, l);
    case RetryLease(c, lease, accepted) => RetryLeaseDecreases(s, c, lease);
    case RetryFence(c, accepted) => RetryFenceDecreases(s, c);
    case Reap(c) => ReapDecreases(s, c);
  }

  // ------------------------------------------------------------- cleaning up

  /** Nothing of a removed client is left to do. */
  ghost predicate Clean(s: State) {
    s.retired == map[] && !Busy(s)
  }

  /** As long as something is left to do, some step of cleaning up is possible. */
  lemma SomethingToClean(s: State) returns (a: Action)
    requires Inv(s) && Pursued(s) && !Clean(s)
    ensures Enabled(s, a) && Cleans(a)
  {
    if l: LaneId :| Work(s, l) != [] {
      a := if |s.lanes[l].results| < |s.lanes[l].work| then Execute(l, false, 0, 0, {}) else Complete(l);
    } else {
      var c :| c in s.retired;
      a := NextFor(s, c);
    }
  }

  /** With idle lanes, nothing is queued for a removed client, so its next step is due. */
  lemma NextFor(s: State, c: Id) returns (a: Action)
    requires Inv(s) && Pursued(s) && !Busy(s) && c in s.retired
    ensures Enabled(s, a) && Cleans(a)
  {
    assert FlightSought(s, c) && RecordSought(s, c);
    assert forall t :: !OnLanes(s, t);
    var r := s.retired[c];
    if lease :| lease in r.leases {
      a := RetryLease(c, lease, true);
    } else if r.cardPending {
      a := RetryFence(c, true);
    } else {
      assert r.leases == map[];
      a := Reap(c);
    }
  }

  /** A run of nothing but possible steps of cleaning up. */
  predicate Cleaning(s: State, steps: seq<Action>) {
    steps != [] ==>
      && Cleaning(s, steps[..|steps| - 1])
      && Enabled(Run(s, steps[..|steps| - 1]), steps[|steps| - 1]) && Cleans(steps[|steps| - 1])
  }

  lemma CleaningMore(s: State, steps: seq<Action>, a: Action)
    requires Cleaning(s, steps) && Enabled(Run(s, steps), a) && Cleans(a)
    ensures Cleaning(s, steps + [a]) && Run(s, steps + [a]) == Next(Run(s, steps), a)
  {
    assert (steps + [a])[..|steps|] == steps;
  }

  /** Cleaning up keeps the clients, and there is no more of it than the measure says. */
  lemma {:induction false} CleaningBounded(s: State, steps: seq<Action>)
    requires Inv(s) && Pursued(s) && Cleaning(s, steps)
    ensures var s' := Run(s, steps);
            Inv(s') && Pursued(s') && |steps| + Measure(s') <= Measure(s) && s'.clients.Keys == s.clients.Keys && s'.nextId == s.nextId
  {
    if steps != [] {
      var n := |steps| - 1;
      CleaningBounded(s, steps[..n]);
      var p := Run(s, steps[..n]);
      NextKeeps(p, steps[n]);
      NextPursued(p, steps[n]);
      CleaningDecreases(p, steps[n]);
      CleansKeepsClients(p, steps[n]);
    }
  }

  lemma CleansKeepsClients(s: State, a: Action)
    requires Inv(s) && Enabled(s, a) && Cleans(a)
    ensures Next(s, a).clients.Keys == s.clients.Keys && Next(s, a).nextId == s.nextId
  {
    match a
    case Execute(l, ok, granted, handle, dropped) => ExecuteRuns(s, l, Outcome(ok, granted), handle, dropped);
    case Complete(l) => CompletionSettles(s, l);
    case _ =>
  }

  lemma CleanOn(s: State, steps: seq<Action>) returns (more: seq<Action>)
    requires Inv(s) && Pursued(s) && Cleaning(s, steps)
    ensures Cleaning(s, more) && Clean(Run(s, more))
    decreases Measure(Run(s, steps))
  {
    CleaningBounded(s, steps);
    var p := Run(s, steps);
    if Clean(p) {
      more := steps;
    } else {
      var a := SomethingToClean(p);
      CleaningMore(s, steps, a);
      CleaningDecreases(p, a);
      more := CleanOn(s, steps + [a]);
    }
  }

  lemma {:induction false} RunConcat(s: State, a: seq<Action>, b: seq<Action>)
    ensures Run(s, a + b) == Run(Run(s, a), b)
  {
    if b == [] {
      assert a + b == a;
    } else {
      assert (a + b)[..|a + b| - 1] == a + b[..|b| - 1];
      RunConcat(s, a, b[..|b| - 1]);
    }
  }

  /** What is left belongs to live clients. */
  ghost predicate OnlyLive(s: State) {
    && (forall r :: r in s.tuner ==> s.tuner[r].owner in s.clients)
    && (forall h :: h in s.handles ==> s.handles[h] in s.clients)
  }

  lemma CleanIsOnlyLive(s: State)
    requires Inv(s) && Clean(s)
    ensures OnlyLive(s)
  {
    GrantsShow(s);
    forall h | h in s.handles ensures s.handles[h] in s.clients {
      assert !NoCards(s, s.handles[h]);
      assert Past(s, s.handles[h]) == (s.handles[h] !in s.clients);
    }
  }

  /**
   After every run, finitely many steps of cleaning up are possible, however they
   come out and in whatever order they are taken, and as long as a removed client
   has a record one more is. So there is a continuation after which no removed
   client has a record, a lease or a handle.
   */
  lemma EverythingIsCleanedUp(steps: seq<Action>) returns (more: seq<Action>)
    ensures var s := Run(INITIAL, steps);
            && Cleaning(s, more) && |more| <= Measure(s) && Run(INITIAL, steps + more).clients.Keys == s.clients.Keys
            && Clean(Run(INITIAL, steps + more)) && OnlyLive(Run(INITIAL, steps + more))
  {
    var s := Run(INITIAL, steps);
    RunKeeps(steps);
    RunPursued(steps);
    more := CleanOn(s, []);
    CleaningBounded(s, more);
    RunConcat(INITIAL, steps, more);
    CleanIsOnlyLive(Run(s, more));
  }

  /** Whoever takes the steps, and however they come out: no more than the measure, and where none is left, all is clean. */
  lemma EveryCleaningEnds(steps: seq<Action>, more: seq<Action>)
    requires Cleaning(Run(INITIAL, steps), more)
    ensures var s, s' := Run(INITIAL, steps), Run(INITIAL, steps + more);
            && |more| <= Measure(s)
            && ((forall a :: Cleans(a) ==> !Enabled(s', a)) ==> Clean(s') && OnlyLive(s'))
  {
    var s := Run(INITIAL, steps);
    RunKeeps(steps);
    RunPursued(steps);
    CleaningBounded(s, more);
    RunConcat(INITIAL, steps, more);
    var s' := Run(s, more);
    if !Clean(s') {
      var a := SomethingToClean(s');
    } else {
      CleanIsOnlyLive(s');
    }
  }

  /** With no clients left, cleaning up comes to rest, and then nothing is held. */
  lemma ComesToRest(steps: seq<Action>) returns (more: seq<Action>)
    requires Run(INITIAL, steps).clients == map[]
    ensures Cleaning(Run(INITIAL, steps), more) && Quiescent(Run(INITIAL, steps + more))
    ensures Run(INITIAL, steps + more).tuner == map[] && Run(INITIAL, steps + more).handles == map[]
  {
    more := EverythingIsCleanedUp(steps);
    var s := Run(INITIAL, steps + more);
    assert s.clients.Keys == {} && s.clients == map[];
    assert Quiescent(s);
    NothingLeftBehind(steps + more);
  }
}
