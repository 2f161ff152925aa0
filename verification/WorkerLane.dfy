/** One worker lane of the daemon: two bounded queues, the thread between them, and its orderly stop. */
module WorkerLane {
  import opened Errors

  datatype Task = Task(operation: nat, client: nat, request: nat)

  /** What executing a task produced. */
  datatype Completion = Completion(task: Task, outcome: nat)

  // ------------------------------------------------------------ ring queues

  function Wrap(capacity: nat, i: nat): nat
    requires i < 2 * capacity
    ensures Wrap(capacity, i) < capacity
  {
    if i < capacity then i else i - capacity
  }

  lemma WrapIsMod(capacity: nat, i: nat)
    requires i < 2 * capacity
    ensures i % capacity == Wrap(capacity, i)
  {
    if i >= capacity {
      assert i == capacity + (i - capacity);
      assert (i - capacity) % capacity == i - capacity;
    }
  }

  /** The `count` elements from `head` on, around the end. */
  function Queue<T>(slots: seq<T>, head: nat, count: nat): (q: seq<T>)
    requires head < |slots| && count <= |slots|
    ensures |q| == count && forall i :: 0 <= i < count ==> q[i] == slots[Wrap(|slots|, head + i)]
  {
    seq(count, i requires 0 <= i < count => slots[Wrap(|slots|, head + i)])
  }

  class Ring<T(0)> {
    const slots: array<T>
    var head: nat
    var count: nat

    ghost predicate Valid()
      reads this
    {
      0 < slots.Length && head < slots.Length && count <= slots.Length
    }

    /** The queue this ring stands for, oldest first. */
    ghost function Contents(): (q: seq<T>)
      requires Valid()
      reads this, slots
      ensures |q| == count
    {
      Queue(slots[..], head, count)
    }

    constructor (capacity: nat)
      requires capacity > 0
      ensures Valid() && fresh(slots) && slots.Length == capacity && Contents() == []
    {
      slots, head, count := new T[capacity], 0, 0;
    }

    method Push(x: T)
      requires Valid() && count < slots.Length
      modifies this, slots
      ensures Valid() && Contents() == old(Contents()) + [x]
    {
      WrapIsMod(slots.Length, head + count);
      var position := (head + count) % slots.Length;
      slots[position] := x;
      count := count + 1;
      assert Contents() == old(Contents()) + [x];
    }

    method Pop() returns (x: T)
      requires Valid() && count > 0
      modifies this
      ensures Valid() && old(Contents()) == [x] + Contents()
    {
      WrapIsMod(slots.Length, head + 1);
      x := slots[head];
      head := (head + 1) % slots.Length;
      count := count - 1;
      assert old(Contents()) == [x] + Contents();
    }
  }

  // -------------------------------------------------------------- the lane

  /** Where the worker thread is in its loop; Pushed is the window before the active count goes down. */
  datatype Worker = Waiting | Running(task: Task) | Finished(completion: Completion) | Pushed | Exited

  datatype Move = CallerSubmits(t: Task) | CallerTakes | CallerStops | WorkerSteps(outcome: nat)

  function TasksOf(cs: seq<Completion>): (ts: seq<Task>)
    ensures |ts| == |cs| && forall i :: 0 <= i < |cs| ==> ts[i] == cs[i].task
  {
    seq(|cs|, i requires 0 <= i < |cs| => cs[i].task)
  }

  function InHand(w: Worker): seq<Task> {
    match w
    case Running(t) => [t]
    case Finished(c) => [c.task]
    case _ => []
  }

  /** Every accepted task is, in order: answered and taken, answered, in the worker's hands, or still queued. */
  predicate InOrder(accepted: seq<Task>, taken: seq<Completion>, answered: seq<Completion>, w: Worker, queued: seq<Task>) {
    accepted == TasksOf(taken) + TasksOf(answered) + InHand(w) + queued
  }

  /** A lane as one queue: what was accepted and not yet taken, oldest first, and the outcomes of the first of it. */
  datatype Line = Line(work: seq<Task>, results: seq<nat>)

  function LineOf(answered: seq<Completion>, w: Worker, queued: seq<Task>): Line {
    Line(TasksOf(answered) + InHand(w) + queued, Outcomes(answered) + if w.Finished? then [w.completion.outcome] else [])
  }

  function Outcomes(cs: seq<Completion>): seq<nat> {
    seq(|cs|, i requires 0 <= i < |cs| => cs[i].outcome)
  }

  /** The steps of such a queue: a task joins it, its first task without an outcome gets one, its first task leaves. */
  predicate Joins(before: Line, after: Line, t: Task) {
    after == before.(work := before.work + [t])
  }

  predicate Executes(before: Line, after: Line, outcome: nat) {
    |before.results| < |before.work| && after == before.(results := before.results + [outcome])
  }

  predicate Departs(before: Line, after: Line, c: Completion) {
    before.work == [c.task] + after.work && before.results == [c.outcome] + after.results
  }

  lemma SubmittedJoins(answered: seq<Completion>, w: Worker, queued: seq<Task>, t: Task)
    ensures Joins(LineOf(answered, w, queued), LineOf(answered, w, queued + [t]), t)
  {
  }

  lemma TakenDeparts(c: Completion, answered: seq<Completion>, w: Worker, queued: seq<Task>)
    ensures Departs(LineOf([c] + answered, w, queued), LineOf(answered, w, queued), c)
  {
    assert TasksOf([c] + answered) == [c.task] + TasksOf(answered) && Outcomes([c] + answered) == [c.outcome] + Outcomes(answered);
  }

  /** Executing a task is a step of the queue; handing its completion on is none. */
  lemma WorkerLines(answered: seq<Completion>, t: Task, queued: seq<Task>, outcome: nat)
    ensures Executes(LineOf(answered, Running(t), queued), LineOf(answered, Finished(Completion(t, outcome)), queued), outcome)
    ensures LineOf(answered + [Completion(t, outcome)], Pushed, queued) == LineOf(answered, Finished(Completion(t, outcome)), queued)
  {
    var c := Completion(t, outcome);
    assert TasksOf(answered + [c]) == TasksOf(answered) + [t] && Outcomes(answered + [c]) == Outcomes(answered) + [outcome];
  }

  lemma Dequeued(accepted: seq<Task>, taken: seq<Completion>, answered: seq<Completion>, t: Task, queued: seq<Task>)
    requires InOrder(accepted, taken, answered, Waiting, [t] + queued)
    ensures InOrder(accepted, taken, answered, Running(t), queued)
    ensures LineOf(answered, Running(t), queued) == LineOf(answered, Waiting, [t] + queued)
  {
  }

  class Lane {
    const tasks: Ring<Task>
    const completions: Ring<Completion>
    var active: nat
    var stopping: bool
    var worker: Worker
    ghost var accepted: seq<Task>
    ghost var taken: seq<Completion>

    ghost function Repr(): set<object>
      reads this
    {
      {this, tasks, tasks.slots, completions, completions.slots}
    }

    ghost predicate Valid()
      reads this, tasks, tasks.slots, completions, completions.slots
    {
      && tasks.Valid() && completions.Valid() && (tasks.slots as object) != completions.slots
      && (tasks as object) != completions
      && active == (if worker.Waiting? || worker.Exited? then 0 else 1)
      && (worker.Exited? ==> stopping && tasks.count == 0)
      && InOrder(accepted, taken, completions.Contents(), worker, tasks.Contents())
    }

    ghost function View(): Line
      requires tasks.Valid() && completions.Valid()
      reads this, tasks, tasks.slots, completions, completions.slots
    {
      LineOf(completions.Contents(), worker, tasks.Contents())
    }

    constructor (capacity: nat)
      requires capacity > 0
      ensures Valid() && fresh(Repr()) && accepted == [] && taken == [] && !stopping && worker == Waiting
      ensures tasks.slots.Length == capacity && completions.slots.Length == capacity
    {
      tasks := new Ring(capacity);
      completions := new Ring(capacity);
      active, stopping, worker, accepted, taken := 0, false, Waiting, [], [];
    }

    /** Takes a task unless the lane is stopping or full. */
    method Submit(t: Task) returns (r: Result<Unit>)
      requires Valid()
      modifies Repr()
      ensures Valid() && worker == old(worker) && stopping == old(stopping) && taken == old(taken)
      ensures r == if old(stopping) then Failure(NOT_READY)
                   else if old(tasks.count) == tasks.slots.Length then Failure(BUSY) else Success(Unit)
      ensures accepted == old(accepted) + if r.Success? then [t] else []
      ensures if r.Success? then Joins(old(View()), View(), t) else View() == old(View())
      ensures tasks.count == old(tasks.count) + (if r.Success? then 1 else 0) && completions.count == old(completions.count)
    {
      if stopping { return Failure(NOT_READY); }
      if tasks.count == tasks.slots.Length { return Failure(BUSY); }
      SubmittedJoins(completions.Contents(), worker, tasks.Contents(), t);
      tasks.Push(t);
      accepted := accepted + [t];
      r := Success(Unit);
    }

    /** The next completion, if there is one. */
    method TryPop() returns (c: Option<Completion>)
      requires Valid()
      modifies Repr()
      ensures Valid() && worker == old(worker) && stopping == old(stopping) && accepted == old(accepted)
      ensures c.None? == (old(completions.count) == 0)
      ensures taken == old(taken) + if c.Some? then [c.value] else []
      ensures if c.Some? then Departs(old(View()), View(), c.value) else View() == old(View())
      ensures tasks.count == old(tasks.count) && completions.count == old(completions.count) - (if c.Some? then 1 else 0)
    {
      if completions.count == 0 { return None; }
      var x := completions.Pop();
      TakenDeparts(x, completions.Contents(), worker, tasks.Contents());
      taken := taken + [x];
      c := Some(x);
    }

    method Stop()
      requires Valid()
      modifies `stopping
      ensures Valid() && stopping
    {
      stopping := true;
    }

    /** True exactly when every accepted task was answered and its completion taken, and the worker is past its window. */
    method Idle() returns (idle: bool)
      requires Valid()
      ensures idle ==> TasksOf(taken) == accepted && InHand(worker) == []
      ensures idle == (|taken| == |accepted| && worker != Pushed)
    {
      idle := tasks.count == 0 && completions.count == 0 && active == 0;
    }

    /** Whether the worker thread can take its next step, or has to wait for a task or for room. */
    predicate CanStep()
      reads this, tasks, completions
    {
      match worker
      case Waiting => tasks.count > 0 || stopping
      case Finished(_) => completions.count < completions.slots.Length
      case Exited => false
      case _ => true
    }

    /** One step of the worker thread; executing a task may have any outcome. */
    method Step(outcome: nat)
      requires Valid() && CanStep()
      modifies Repr()
      ensures Valid() && stopping == old(stopping) && accepted == old(accepted) && taken == old(taken)
      ensures if old(worker).Running? then Executes(old(View()), View(), outcome) else View() == old(View())
      ensures Work(tasks.count, worker) < old(Work(tasks.count, worker)) && completions.count <= old(completions.count) + 1
    {
      match worker
      case Waiting => PopTask();
      case Running(t) =>
        WorkerLines(completions.Contents(), t, tasks.Contents(), outcome);
        worker := Finished(Completion(t, outcome));
      case Finished(c) => PushCompletion(c);
      case Pushed =>
        active := active - 1;
        worker := Waiting;
    }

    /** Dequeuing and becoming active are one step; a stopping lane with nothing queued ends the thread. */
    method PopTask()
      requires Valid() && worker == Waiting && (tasks.count > 0 || stopping)
      modifies Repr()
      ensures Valid() && stopping == old(stopping) && accepted == old(accepted) && taken == old(taken)
      ensures View() == old(View())
      ensures Work(tasks.count, worker) < old(Work(tasks.count, worker)) && completions.count <= old(completions.count) + 1
    {
      if tasks.count == 0 { worker := Exited; } else { Dequeue(); }
    }

    method Dequeue()
      requires Valid() && worker == Waiting && tasks.count > 0
      modifies Repr()
      ensures Valid() && stopping == old(stopping) && accepted == old(accepted) && taken == old(taken)
      ensures View() == old(View()) && completions.count == old(completions.count)
      ensures Work(tasks.count, worker) < old(Work(tasks.count, worker))
    {
      var t := tasks.Pop();
      active := active + 1;
      worker := Running(t);
      Dequeued(accepted, taken, completions.Contents(), t, tasks.Contents());
    }

    method PushCompletion(c: Completion)
      requires Valid() && worker == Finished(c) && completions.count < completions.slots.Length
      modifies Repr()
      ensures Valid() && stopping == old(stopping) && accepted == old(accepted) && taken == old(taken)
      ensures View() == old(View())
      ensures Work(tasks.count, worker) < old(Work(tasks.count, worker)) && completions.count <= old(completions.count) + 1
    {
      WorkerLines(completions.Contents(), c.task, tasks.Contents(), c.outcome);
      completions.Push(c);
      worker := Pushed;
    }

    /** Any interleaving of callers and worker: what was taken are completions of the first accepted tasks, in order. */
    method Interleave(moves: seq<Move>)
      requires Valid()
      modifies Repr()
      ensures Valid() && old(accepted) <= accepted && old(taken) <= taken
      ensures TasksOf(taken) <= accepted && |accepted| - |taken| == completions.count + |InHand(worker)| + tasks.count
    {
      for i := 0 to |moves|
        invariant Valid() && old(accepted) <= accepted && old(taken) <= taken
      {
        match moves[i]
        case CallerSubmits(t) => var r := Submit(t);
        case CallerTakes => var c := TryPop();
        case CallerStops => Stop();
        case WorkerSteps(outcome) => if CanStep() { Step(outcome); }
      }
      TakenInOrder(accepted, taken, completions.Contents(), worker, tasks.Contents());
    }

    /** What is left to do: the steps of the worker, each worth more than the completion it may add, and the completions. */
    ghost function Left(): nat
      reads this, tasks, completions
    {
      2 * Work(tasks.count, worker) + completions.count
    }

    /** Where the worker is, and how much is queued before and behind it. */
    ghost function Mark(): (Worker, nat, nat)
      reads this, tasks, completions
    {
      (worker, tasks.count, completions.count)
    }

    /** The worker takes up to so many steps, as far as it can. */
    method RunWorker(steps: nat, outcomes: nat -> nat)
      requires Valid() && stopping
      modifies Repr()
      ensures Valid() && stopping && accepted == old(accepted) && taken == old(taken)
      ensures Left() <= old(Left()) && (Left() == old(Left()) || old(worker).Exited? ==> Mark() == old(Mark()))
    {
      for i := 0 to steps
        invariant Valid() && stopping && accepted == old(accepted) && taken == old(taken)
        invariant Left() <= old(Left()) && (Left() == old(Left()) || old(worker).Exited? ==> Mark() == old(Mark()))
      {
        if CanStep() { Step(outcomes(i)); }
      }
    }

    /** The lane is valid, and every front part of what was taken answers a front part of what was accepted. */
    ghost predicate Sound()
      reads Repr()
    {
      forall n :: 0 <= n <= |taken| ==> SoundAt(n)
    }

    ghost predicate SoundAt(n: nat)
      requires n <= |taken|
      reads this, Repr()
    {
      Valid() && TasksOf(taken[..n]) <= accepted
    }

    lemma SoundIsValid()
      requires Sound()
      ensures Valid()
    {
      assert SoundAt(0);
    }

    lemma ValidIsSound()
      requires Valid()
      ensures Sound()
    {
      TakenInOrder(accepted, taken, completions.Contents(), worker, tasks.Contents());
      forall n | 0 <= n <= |taken| ensures SoundAt(n) {
        assert TasksOf(taken[..n]) == TasksOf(taken)[..n];
      }
    }

    /** All that was accepted before this, and nothing taken is lost. */
    ghost predicate Onward(accepted0: seq<Task>, taken0: seq<Completion>)
      reads Repr()
    {
      Sound() && stopping && accepted == accepted0 && taken0 <= taken
    }

    /** The thread is gone, and every task accepted was executed and its completion taken, in order. */
    ghost predicate Done()
      reads this
    {
      worker == Exited && active == 0 && TasksOf(taken) == accepted
    }

    lemma EmptyIsDone()
      requires Sound() && worker == Exited && completions.count == 0
      ensures Done()
    {
      SoundIsValid();
    }

    /** A thread that has not ended can go on unless its completions are in the way. */
    lemma EmptyCanStep()
      requires Sound() && stopping && worker != Exited && completions.count == 0
      ensures CanStep()
    {
      SoundIsValid();
    }

    method Run(steps: nat, outcomes: nat -> nat)
      requires Sound() && stopping
      modifies Repr()
      ensures Onward(old(accepted), old(taken)) && taken == old(taken)
      ensures Left() <= old(Left()) && (Left() == old(Left()) || old(worker).Exited? ==> Mark() == old(Mark()))
    {
      SoundIsValid();
      RunWorker(steps, outcomes);
      ValidIsSound();
    }

    method Look() returns (more: bool)
      requires Sound() && stopping
      modifies Repr()
      ensures Onward(old(accepted), old(taken)) && worker == old(worker) && (!more ==> completions.count == 0 && Mark() == old(Mark()))
      ensures Left() <= old(Left()) && (more ==> Left() < old(Left()))
    {
      SoundIsValid();
      var c := TryPop();
      ValidIsSound();
      more := c.Some?;
    }

    method StepOn(outcome: nat)
      requires Sound() && stopping && CanStep()
      modifies Repr()
      ensures Onward(old(accepted), old(taken)) && Left() < old(Left())
    {
      SoundIsValid();
      Step(outcome);
      ValidIsSound();
    }

    method StopOn()
      requires Sound()
      modifies Repr()
      ensures Onward(old(accepted), old(taken)) && taken == old(taken)
    {
      SoundIsValid();
      Stop();
      ValidIsSound();
    }
  }

  /** The three lanes of the daemon. */
  class Lanes {
    const a: Lane
    const b: Lane
    const c: Lane

    ghost function Repr(): set<object>
      reads a, b, c
    {
      a.Repr() + b.Repr() + c.Repr()
    }

    ghost predicate Apart()
      reads a, b, c
    {
      a != b && a != c && b != c && a.Repr() !! b.Repr() && a.Repr() !! c.Repr() && b.Repr() !! c.Repr()
    }

    ghost predicate Valid()
      reads Repr()
    {
      Apart() && a.Sound() && b.Sound() && c.Sound()
    }

    constructor (a: Lane, b: Lane, c: Lane)
      requires a.Repr() !! b.Repr() && a.Repr() !! c.Repr() && b.Repr() !! c.Repr() && a.Valid() && b.Valid() && c.Valid()
      ensures Valid() && this.a == a && this.b == b && this.c == c
    {
      this.a, this.b, this.c := a, b, c;
      a.ValidIsSound();
      b.ValidIsSound();
      c.ValidIsSound();
    }

    ghost function Left(): nat
      reads Repr()
    {
      a.Left() + b.Left() + c.Left()
    }

    ghost function Mark(): ((Worker, nat, nat), (Worker, nat, nat), (Worker, nat, nat))
      reads Repr()
    {
      (a.Mark(), b.Mark(), c.Mark())
    }

    /** The number of threads that have not ended. */
    function Live(): nat
      reads a, b, c
    {
      (if a.worker.Exited? then 0 else 1) + (if b.worker.Exited? then 0 else 1) + if c.worker.Exited? then 0 else 1
    }

    /** Every lane goes on from what it had accepted and what was taken from it. */
    ghost predicate Onward(was: Books)
      reads Repr()
    {
      Apart() && a.Onward(was.a.0, was.a.1) && b.Onward(was.b.0, was.b.1) && c.Onward(was.c.0, was.c.1)
    }

    ghost function Now(): Books
      reads a, b, c
    {
      Books((a.accepted, a.taken), (b.accepted, b.taken), (c.accepted, c.taken))
    }

    /** Each of the three threads takes any number of steps, as far as it can. */
    method RunAll(turn: nat, play: Play)
      requires Valid() && a.stopping && b.stopping && c.stopping
      modifies Repr()
      ensures Onward(old(Now())) && Now() == old(Now())
      ensures Left() <= old(Left()) && (Left() == old(Left()) || old(Live()) == 0 ==> Mark() == old(Mark()))
    {
      a.Run(play.steps(0, turn), n => play.outcomes(0, turn, n));
      b.Run(play.steps(1, turn), n => play.outcomes(1, turn, n));
      c.Run(play.steps(2, turn), n => play.outcomes(2, turn, n));
    }

    /** One look at the completions of one lane, the threads running before it. */
    method LookAt(x: Lane, turn: nat, play: Play) returns (more: bool)
      requires Valid() && a.stopping && b.stopping && c.stopping && (x == a || x == b || x == c)
      modifies Repr()
      ensures Onward(old(Now())) && Left() <= old(Left()) && (more ==> Left() < old(Left())) && (!more ==> x.completions.count == 0)
      ensures !more && (Left() == old(Left()) || old(Live()) == 0) ==> Mark() == old(Mark())
      ensures old(Live()) == 0 ==> Live() == 0 && (x != a ==> a.Mark() == old(a.Mark())) && (x != b ==> b.Mark() == old(b.Mark())) && (x != c ==> c.Mark() == old(c.Mark()))
    {
      RunAll(turn, play);
      more := PopFrom(x);
    }

    method PopFrom(x: Lane) returns (more: bool)
      requires Valid() && a.stopping && b.stopping && c.stopping && (x == a || x == b || x == c)
      modifies Repr()
      ensures Onward(old(Now())) && Left() <= old(Left()) && (more ==> Left() < old(Left()))
      ensures !more ==> x.completions.count == 0 && Mark() == old(Mark())
      ensures Live() == old(Live())
      ensures (x != a ==> a.Mark() == old(a.Mark())) && (x != b ==> b.Mark() == old(b.Mark())) && (x != c ==> c.Mark() == old(c.Mark()))
    {
      more := x.Look();
    }

    /** Takes the completions of one lane until none is there. */
    method DrainLane(x: Lane, turn: nat, play: Play) returns (drained: bool, next: nat)
      requires Valid() && a.stopping && b.stopping && c.stopping && (x == a || x == b || x == c)
      modifies Repr()
      ensures Onward(old(Now())) && Left() <= old(Left()) && (drained ==> Left() < old(Left())) && x.completions.count == 0
      ensures !drained && Left() == old(Left()) ==> Mark() == old(Mark())
      ensures old(Live()) == 0 ==> Live() == 0 && (x != a ==> a.Mark() == old(a.Mark())) && (x != b ==> b.Mark() == old(b.Mark())) && (x != c ==> c.Mark() == old(c.Mark()))
    {
      var more := true;
      drained, next := false, turn;
      while more
        invariant Onward(old(Now())) && Left() <= old(Left()) && (drained ==> Left() < old(Left())) && (!more ==> x.completions.count == 0)
        invariant !drained && Left() == old(Left()) ==> Mark() == old(Mark())
        invariant old(Live()) == 0 ==> Live() == 0 && (x != a ==> a.Mark() == old(a.Mark())) && (x != b ==> b.Mark() == old(b.Mark())) && (x != c ==> c.Mark() == old(c.Mark()))
        decreases more, Left()
      {
        more := LookAt(x, next, play);
        drained, next := drained || more, next + 1;
      }
    }

    /** One round over all lanes. */
    method DrainAll(turn: nat, play: Play) returns (drained: bool, next: nat)
      requires Valid() && a.stopping && b.stopping && c.stopping
      modifies Repr()
      ensures Onward(old(Now())) && Left() <= old(Left()) && (drained ==> Left() < old(Left()))
      ensures Left() == old(Left()) || old(Live()) == 0 ==> a.completions.count == b.completions.count == c.completions.count == 0
      ensures Left() == old(Left()) ==> Mark() == old(Mark())
      ensures old(Live()) == 0 ==> Live() == 0
    {
      var one, two, three;
      one, next := DrainLane(a, turn, play);
      two, next := DrainLane(b, next, play);
      three, next := DrainLane(c, next, play);
      drained := one || two || three;
    }

    /** While the caller waits, one thread that can takes a step, whichever it is. */
    method Wait(turn: nat, play: Play)
      requires Valid() && a.stopping && b.stopping && c.stopping
      modifies Repr()
      ensures Onward(old(Now())) && Left() <= old(Left())
      ensures old(a.CanStep() || b.CanStep() || c.CanStep()) ==> Left() < old(Left())
    {
      var who := play.waited(turn) % 3;
      if a.CanStep() && (who == 0 || (!b.CanStep() && !c.CanStep())) {
        a.StepOn(play.outcomes(0, turn, 0));
      } else if b.CanStep() && (who == 1 || !c.CanStep() || !a.CanStep()) {
        b.StepOn(play.outcomes(1, turn, 0));
      } else if c.CanStep() {
        c.StepOn(play.outcomes(2, turn, 0));
      }
    }

    method Stop()
      requires Valid()
      modifies Repr()
      ensures Onward(old(Now())) && Now() == old(Now())
    {
      a.StopOn();
      b.StopOn();
      c.StopOn();
    }

    /**
      * Stops the lanes and waits for their threads. However the steps of the three threads fall between the caller's looks
      * at their completions, as long as one that can takes a step while the caller waits, all of them end, and every task
      * accepted before was executed and its completion taken, in order.
      */
    method StopAndJoin(play: Play)
      requires Valid()
      modifies Repr()
      ensures Onward(old(Now())) && a.Done() && b.Done() && c.Done()
    {
      Stop();
      var turn, drained := 0, false;
      while Live() != 0
        invariant Onward(old(Now()))
        decreases Left()
      {
        turn := Round(turn, play);
      }
      drained, turn := DrainAll(turn, play);
      a.EmptyIsDone();
      b.EmptyIsDone();
      c.EmptyIsDone();
    }

    /** Drains the lanes, and waits if there was nothing; something is always nearer to its end afterwards. */
    method Round(turn: nat, play: Play) returns (next: nat)
      requires Valid() && a.stopping && b.stopping && c.stopping && Live() != 0
      modifies Repr()
      ensures Onward(old(Now())) && Left() < old(Left())
    {
      var drained;
      drained, next := DrainAll(turn, play);
      if !drained {
        if Left() == old(Left()) { SomeoneCanStep(); }
        Wait(next, play);
      }
    }

    lemma SomeoneCanStep()
      requires Valid() && a.stopping && b.stopping && c.stopping && Live() != 0
      requires a.completions.count == b.completions.count == c.completions.count == 0
      ensures a.CanStep() || b.CanStep() || c.CanStep()
    {
      if !a.worker.Exited? {
        a.EmptyCanStep();
      } else if !b.worker.Exited? {
        b.EmptyCanStep();
      } else {
        c.EmptyCanStep();
      }
    }
  }

  /** What was accepted on each lane, and what was taken from it. */
  datatype Books = Books(a: (seq<Task>, seq<Completion>), b: (seq<Task>, seq<Completion>), c: (seq<Task>, seq<Completion>))

  /** A schedule: how many steps each thread takes before each look, what its tasks come to, and who runs while the caller waits. */
  datatype Play = Play(steps: (nat, nat) -> nat, outcomes: (nat, nat, nat) -> nat, waited: nat -> nat)

  /** Completions come out in the order of submission, none lost and none twice. */
  lemma TakenInOrder(accepted: seq<Task>, taken: seq<Completion>, answered: seq<Completion>, w: Worker, queued: seq<Task>)
    requires InOrder(accepted, taken, answered, w, queued)
    ensures TasksOf(taken) <= accepted && TasksOf(taken + answered) <= accepted
    ensures |accepted| == |taken| + |answered| + |InHand(w)| + |queued|
  {
    assert TasksOf(taken + answered) == TasksOf(taken) + TasksOf(answered);
  }

  /** How much the worker still has to do before it can exit. */
  function Work(queued: nat, w: Worker): nat {
    4 * queued + match w
                 case Exited => 0
                 case Waiting => 1
                 case Pushed => 2
                 case Finished(_) => 3
                 case Running(_) => 4
  }
}
