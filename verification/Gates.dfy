/** The two gates in front of the USB library: a ticket lock, and an event gate that prefers commands to stream pumps. */
module Gates {
  import opened Errors

  // ------------------------------------------------------------ ticket gate

  datatype Caller = Waiting(ticket: nat) | Inside(ticket: nat)

  /** The i-th ticket from `serving` on, when tickets run below `modulus`. */
  function Ticket(modulus: nat, serving: nat, i: nat): nat {
    if serving + i < modulus then serving + i else serving + i - modulus
  }

  /** The callers between arrival and departure, first come first, hold consecutive tickets; only the first may be in. */
  ghost predicate Queued(modulus: nat, next: nat, serving: nat, queue: seq<nat>, callers: map<nat, Caller>) {
    && 0 < modulus && serving < modulus && |queue| <= modulus
    && next == Ticket(modulus, serving, if |queue| == modulus then 0 else |queue|)
    && (forall i, j :: 0 <= i < j < |queue| ==> queue[i] != queue[j])
    && (forall c :: c in callers <==> c in queue)
    && (forall i :: 0 <= i < |queue| ==> callers[queue[i]].ticket == Ticket(modulus, serving, i))
    && (forall i :: 0 < i < |queue| ==> callers[queue[i]].Waiting?)
  }

  class ApiGate {
    const modulus: nat
    var next: nat
    var serving: nat
    /** Who is between arrival and departure, in order of arrival. */
    ghost var queue: seq<nat>
    ghost var callers: map<nat, Caller>

    ghost predicate Valid()
      reads this
    {
      Queued(modulus, next, serving, queue, callers)
    }

    constructor (modulus: nat)
      requires modulus > 0
      ensures Valid() && queue == [] && this.modulus == modulus
    {
      this.modulus, next, serving, queue, callers := modulus, 0, 0, [], map[];
    }

    /** Draws a ticket; this is all that arriving does. */
    method Arrive(ghost c: nat) returns (ticket: nat)
      requires Valid() && c !in queue && |queue| < modulus
      modifies this
      ensures Valid() && queue == old(queue) + [c] && callers == old(callers)[c := Waiting(ticket)]
    {
      ticket := next;
      WrapsTo(modulus, next);
      next := (next + 1) % modulus;
      queue := queue + [c];
      callers := callers[c := Waiting(ticket)];
      assert forall i :: 0 <= i < |queue| - 1 ==> queue[i] != c;
    }

    /** What a waiting caller sees when it wakes up: it may go in exactly when it is the first of the queue. */
    method TryEnter(ghost c: nat, ticket: nat) returns (entered: bool)
      requires Valid() && c in callers && callers[c] == Waiting(ticket)
      modifies `callers
      ensures Valid() && entered == (queue[0] == c)
      ensures callers == if entered then old(callers)[c := Inside(ticket)] else old(callers)
    {
      entered := serving == ticket;
      ghost var i :| 0 <= i < |queue| && queue[i] == c;
      assert callers[queue[0]].ticket == Ticket(modulus, serving, 0) == serving;
      assert entered ==> i == 0;
      if entered { callers := callers[c := Inside(ticket)]; }
    }

    method Unlock(ghost c: nat)
      requires Valid() && c in callers && callers[c].Inside?
      modifies this
      ensures Valid() && old(queue) == [c] + queue && callers == old(callers) - {c}
    {
      assert queue[0] == c;
      Departs(modulus, next, serving, queue, callers);
      serving := (serving + 1) % modulus;
      callers := callers - {c};
      queue := queue[1..];
    }

    /** The number of callers between arrival and departure, as long as it is below the modulus. */
    method Outstanding() returns (n: nat)
      requires Valid()
      ensures n == if |queue| == modulus then 0 else |queue|
    {
      n := if next >= serving then next - serving else next + modulus - serving;
    }
  }

  /** At most one caller is in, and it is the one that arrived first. */
  lemma MutualExclusion(modulus: nat, next: nat, serving: nat, queue: seq<nat>, callers: map<nat, Caller>, a: nat, b: nat)
    requires Queued(modulus, next, serving, queue, callers)
    requires a in callers && b in callers && callers[a].Inside? && callers[b].Inside?
    ensures a == b == queue[0]
  {
    assert a in queue && b in queue;
  }

  /** The first caller leaves and the next ticket is served. */
  lemma Departs(modulus: nat, next: nat, serving: nat, queue: seq<nat>, callers: map<nat, Caller>)
    requires Queued(modulus, next, serving, queue, callers) && queue != []
    ensures Queued(modulus, next, (serving + 1) % modulus, queue[1..], callers - {queue[0]})
  {
    WrapsTo(modulus, serving);
    var rest, left, now := queue[1..], callers - {queue[0]}, Ticket(modulus, serving, 1);
    assert forall i :: 0 <= i < |rest| ==> rest[i] == queue[i + 1];
    assert forall c :: c in left <==> c in rest by {
      forall c ensures c in left <==> c in rest {
        assert c in queue <==> c == queue[0] || c in rest;
      }
    }
    forall i | 0 <= i < |rest| ensures left[rest[i]].ticket == Ticket(modulus, now, i) && (i > 0 ==> left[rest[i]].Waiting?) {
      assert left[rest[i]] == callers[queue[i + 1]];
    }
  }

  lemma WrapsTo(modulus: nat, n: nat)
    requires n < modulus
    ensures (n + 1) % modulus == if n + 1 < modulus then n + 1 else 0
  {
  }

  /** With as many callers as there are tickets, one more would draw the ticket of the one being served. */
  lemma OneCallerTooMany(modulus: nat, next: nat, serving: nat, queue: seq<nat>, callers: map<nat, Caller>)
    requires Queued(modulus, next, serving, queue, callers)
    ensures next == serving <==> queue == [] || |queue| == modulus
    ensures |queue| == modulus ==> callers[queue[0]].ticket == next == serving
  {
  }

  /** That many callers can be there with the first of them inside: one more would go in beside it. */
  method FullHouse(modulus: nat) returns (g: ApiGate)
    requires modulus > 0
    ensures fresh(g) && g.Valid() && |g.queue| == modulus == g.modulus
    ensures g.callers[g.queue[0]].Inside? && g.next == g.serving
  {
    g := new ApiGate(modulus);
    var first := g.Arrive(0);
    var entered := g.TryEnter(0, first);
    for i: nat := 1 to modulus
      invariant fresh(g) && g.Valid() && g.modulus == modulus && |g.queue| == i && g.queue[0] == 0 && g.callers[0].Inside?
      invariant forall k :: 0 <= k < i ==> g.queue[k] == k
    {
      var ticket := g.Arrive(i);
    }
    OneCallerTooMany(modulus, g.next, g.serving, g.queue, g.callers);
  }

  // ------------------------------------------------------------- event gate

  datatype Holder = Nobody | Command(id: nat) | Stream(id: nat)

  /** A stream pump's place in its attempt: it has looked once, has the mutex, and has looked again. */
  datatype Attempt = Looked | Locked | Cleared | Refused

  /**
    * The gate with its callers: the commands that have announced themselves and wait for the mutex, those in possession
    * of it but still counted, the streams in their attempts, and the turns granted to streams so far.
    */
  datatype Gate = Gate(limit: nat, holder: Holder, registered: set<nat>, settling: set<nat>, attempts: map<nat, Attempt>, granted: nat)

  datatype Move =
    | Registers(c: nat) | Acquires(c: nat) | Settles(c: nat)
    | Looks(s: nat) | TriesMutex(s: nat) | LooksAgain(s: nat) | Withdraws(s: nat) | Returns(s: nat)
    | Unlocks

  predicate Quiet(g: Gate) {
    g.registered == {} && g.settling == {}
  }

  /** A stream has found no command for the second time and is about to return. */
  ghost predicate Crosses(g: Gate) {
    exists s :: s in g.attempts && g.attempts[s] == Cleared
  }

  predicate At(g: Gate, s: nat, a: Attempt) {
    s in g.attempts && g.attempts[s] == a
  }

  predicate CanMove(g: Gate, m: Move) {
    match m
    case Registers(c) => c !in g.registered && c !in g.settling && |g.registered| + |g.settling| + 1 < g.limit
    case Acquires(c) => c in g.registered && g.holder == Nobody
    case Settles(c) => c in g.settling
    case Looks(s) => s !in g.attempts && g.holder != Stream(s)
    case TriesMutex(s) => At(g, s, Looked)
    case LooksAgain(s) => At(g, s, Locked)
    case Withdraws(s) => At(g, s, Refused)
    case Returns(s) => At(g, s, Cleared)
    case Unlocks => g.holder != Nobody && g.settling == {} && forall s :: s in g.attempts ==> g.attempts[s] == Looked
  }

  function Moved(g: Gate, m: Move): Gate {
    match m
    case Registers(c) => g.(registered := g.registered + {c})
    case Acquires(c) => g.(holder := Command(c), registered := g.registered - {c}, settling := g.settling + {c})
    case Settles(c) => g.(settling := g.settling - {c})
    case Looks(s) => if Quiet(g) then g.(attempts := g.attempts[s := Looked]) else g
    case TriesMutex(s) =>
      if g.holder == Nobody then g.(holder := Stream(s), attempts := g.attempts[s := Locked]) else g.(attempts := g.attempts - {s})
    case LooksAgain(s) => g.(attempts := g.attempts[s := if Quiet(g) then Cleared else Refused])
    case Withdraws(s) => g.(holder := Nobody, attempts := g.attempts - {s})
    case Returns(s) => g.(attempts := g.attempts - {s}, granted := g.granted + 1)
    case Unlocks => g.(holder := Nobody)
  }

  /** Who is counted in possession of the mutex, or past its first look with it, is its holder. */
  predicate Ordered(g: Gate) {
    && g.registered !! g.settling && |g.registered| + |g.settling| < g.limit
    && (forall c :: c in g.settling ==> g.holder == Command(c))
    && (forall s :: s in g.attempts && g.attempts[s] != Looked ==> g.holder == Stream(s))
  }

  lemma CommandKeepsOrder(g: Gate, m: Move)
    requires Ordered(g) && CanMove(g, m) && (m.Registers? || m.Acquires? || m.Settles?)
    ensures Ordered(Moved(g, m))
  {
  }

  lemma StreamKeepsOrder(g: Gate, m: Move)
    requires Ordered(g) && CanMove(g, m) && !(m.Registers? || m.Acquires? || m.Settles?)
    ensures Ordered(Moved(g, m))
  {
  }

  lemma MoveKeepsOrder(g: Gate, m: Move)
    requires Ordered(g) && CanMove(g, m)
    ensures Ordered(Moved(g, m))
  {
    if m.Registers? || m.Acquires? || m.Settles? { CommandKeepsOrder(g, m); } else { StreamKeepsOrder(g, m); }
  }

  /** The state after a run; a move that is not possible does not happen. */
  function RunGate(g: Gate, moves: seq<Move>): Gate {
    if moves == [] then g
    else
      var before := RunGate(g, moves[..|moves| - 1]);
      if CanMove(before, moves[|moves| - 1]) then Moved(before, moves[|moves| - 1]) else before
  }

  lemma {:induction false} RunKeepsOrder(g: Gate, moves: seq<Move>)
    requires Ordered(g)
    ensures Ordered(RunGate(g, moves))
  {
    if moves != [] {
      RunKeepsOrder(g, moves[..|moves| - 1]);
      var before := RunGate(g, moves[..|moves| - 1]);
      if CanMove(before, moves[|moves| - 1]) { MoveKeepsOrder(before, moves[|moves| - 1]); }
    }
  }

  /** While a command waits, a turn is granted exactly where one was on its way. */
  lemma TurnWhileWaiting(g: Gate, m: Move, c: nat)
    requires Ordered(g) && CanMove(g, m) && c in g.registered
    ensures Crosses(Moved(g, m)) ==> Crosses(g)
    ensures Moved(g, m).granted == g.granted + if Crosses(g) && !Crosses(Moved(g, m)) then 1 else 0
  {
    var after := Moved(g, m);
    if m.Returns? {
      assert At(g, m.s, Cleared);
      assert !Crosses(after);
    } else if Crosses(g) {
      var s :| s in g.attempts && g.attempts[s] == Cleared;
      assert s in after.attempts && after.attempts[s] == Cleared;
    }
  }

  /** The command has waited ever since it announced itself in the n-th move of the run. */
  predicate WaitsSince(g: Gate, moves: seq<Move>, n: nat, c: nat) {
    && n < |moves| && moves[n] == Registers(c) && CanMove(RunGate(g, moves[..n]), moves[n])
    && forall k :: n < k <= |moves| ==> c in RunGate(g, moves[..k]).registered
  }

  /**
    * Over any run: since a command announced itself no stream was granted a turn, except the one, if there was one, that
    * was about to return with it just then, and that one as soon as it has returned.
    */
  lemma {:induction false} TurnsSinceArrival(g: Gate, moves: seq<Move>, n: nat, c: nat)
    requires Ordered(g) && WaitsSince(g, moves, n, c)
    ensures var arrival, now := RunGate(g, moves[..n]), RunGate(g, moves);
            && (Crosses(now) ==> Crosses(arrival))
            && now.granted == arrival.granted + if Crosses(arrival) && !Crosses(now) then 1 else 0
  {
    var last := |moves| - 1;
    var front := moves[..last];
    RunKeepsOrder(g, front);
    if n < last {
      WaitsBefore(g, moves, n, c);
      TurnsSinceArrival(g, front, n, c);
      assert front[..n] == moves[..n];
      var before := RunGate(g, front);
      if CanMove(before, moves[last]) { TurnWhileWaiting(before, moves[last], c); }
    }
  }

  lemma WaitsBefore(g: Gate, moves: seq<Move>, n: nat, c: nat)
    requires WaitsSince(g, moves, n, c) && n < |moves| - 1
    ensures WaitsSince(g, moves[..|moves| - 1], n, c) && c in RunGate(g, moves[..|moves| - 1]).registered
  {
    var front := moves[..|moves| - 1];
    forall k | 0 <= k <= |front| ensures front[..k] == moves[..k] {
    }
  }

  /** When it gets the mutex, exactly those turns were granted: one if it crossed with a stream, and else none. */
  lemma TurnsBeforeAcquire(g: Gate, moves: seq<Move>, n: nat, c: nat)
    requires Ordered(g) && WaitsSince(g, moves, n, c) && CanMove(RunGate(g, moves), Acquires(c))
    ensures RunGate(g, moves + [Acquires(c)]).holder == Command(c)
    ensures RunGate(g, moves + [Acquires(c)]).granted == RunGate(g, moves[..n]).granted + if Crosses(RunGate(g, moves[..n])) then 1 else 0
  {
    TurnsSinceArrival(g, moves, n, c);
    RunKeepsOrder(g, moves);
    assert (moves + [Acquires(c)])[..|moves|] == moves;
  }

  class EventGate {
    /** The bound of the waiter counter. */
    const limit: nat
    var holder: Holder
    var waiters: nat
    ghost var registered: set<nat>
    ghost var settling: set<nat>
    ghost var attempts: map<nat, Attempt>
    ghost var granted: nat
    /** The turns granted when a command announced itself. */
    ghost var atArrival: map<nat, nat>
    /** The commands that announced themselves while a stream had looked again and not yet returned. */
    ghost var crossed: set<nat>

    ghost function View(): Gate
      reads this
    {
      Gate(limit, holder, registered, settling, attempts, granted)
    }

    ghost predicate Valid()
      reads this
    {
      && Ordered(View()) && waiters == |registered| + |settling|
      && (forall c :: c in registered ==>
            c in atArrival && granted == atArrival[c] + (if c in crossed && !Crosses(View()) then 1 else 0))
      && (Crosses(View()) ==> registered <= crossed)
    }

    constructor (limit: nat)
      requires limit > 0
      ensures Valid() && View() == Gate(limit, Nobody, {}, {}, map[], 0)
    {
      this.limit, holder, waiters := limit, Nobody, 0;
      registered, settling, attempts, granted, atArrival, crossed := {}, {}, map[], 0, map[], {};
    }

    /** A command counts itself in. */
    method Register(ghost c: nat)
      requires Valid() && CanMove(View(), Registers(c))
      modifies this
      ensures Valid() && View() == Moved(old(View()), Registers(c)) && atArrival == old(atArrival)[c := granted]
      ensures crossed == if Crosses(View()) then old(crossed) + {c} else old(crossed) - {c}
    {
      waiters := waiters + 1;
      registered := registered + {c};
      atArrival := atArrival[c := granted];
      crossed := if Crosses(View()) then crossed + {c} else crossed - {c};
    }

    /**
      * A command gets the mutex. Since it announced itself exactly one stream was granted a turn if one was about to
      * return with it just then, and else none.
      */
    method Acquire(c: nat)
      requires Valid() && CanMove(View(), Acquires(c))
      modifies this
      ensures Valid() && View() == Moved(old(View()), Acquires(c)) && atArrival == old(atArrival) && crossed == old(crossed)
      ensures granted == atArrival[c] + (if c in crossed then 1 else 0)
    {
      holder := Command(c);
      registered := registered - {c};
      settling := settling + {c};
    }

    /** A command that has the mutex counts itself out. */
    method Settle(ghost c: nat)
      requires Valid() && CanMove(View(), Settles(c))
      modifies this
      ensures Valid() && View() == Moved(old(View()), Settles(c)) && atArrival == old(atArrival) && crossed == old(crossed)
    {
      waiters := waiters - 1;
      settling := settling - {c};
    }

    /** A stream's first look. */
    method Look(ghost s: nat) returns (go: bool)
      requires Valid() && CanMove(View(), Looks(s))
      modifies `attempts
      ensures Valid() && View() == Moved(old(View()), Looks(s)) && go == Quiet(old(View()))
    {
      go := waiters == 0;
      if go { attempts := attempts[s := Looked]; }
    }

    method TryMutex(s: nat) returns (go: bool)
      requires Valid() && CanMove(View(), TriesMutex(s))
      modifies `attempts, `holder
      ensures Valid() && View() == Moved(old(View()), TriesMutex(s)) && go == (old(holder) == Nobody)
    {
      go := holder == Nobody;
      if go {
        holder := Stream(s);
        attempts := attempts[s := Locked];
      } else {
        attempts := attempts - {s};
      }
    }

    /** The second look, with the mutex in hand. */
    method LookAgain(s: nat) returns (clear: bool)
      requires Valid() && CanMove(View(), LooksAgain(s))
      modifies `attempts
      ensures Valid() && View() == Moved(old(View()), LooksAgain(s)) && clear == (registered == {})
    {
      clear := waiters == 0;
      assert forall c :: c !in settling;
      assert settling == {};
      attempts := attempts[s := if clear then Cleared else Refused];
    }

    /** A stream that saw a command gives the mutex back. */
    method Withdraw(s: nat)
      requires Valid() && CanMove(View(), Withdraws(s))
      modifies `attempts, `holder
      ensures Valid() && View() == Moved(old(View()), Withdraws(s))
    {
      holder := Nobody;
      attempts := attempts - {s};
    }

    /** A stream that saw none returns with its turn, though a command may have announced itself since. */
    method Return(s: nat)
      requires Valid() && CanMove(View(), Returns(s))
      modifies `attempts, `granted
      ensures Valid() && View() == Moved(old(View()), Returns(s)) && !Crosses(View())
    {
      attempts := attempts - {s};
      granted := granted + 1;
    }

    method Unlock()
      requires Valid() && CanMove(View(), Unlocks)
      modifies `holder
      ensures Valid() && View() == Moved(old(View()), Unlocks)
    {
      holder := Nobody;
    }
  }

  /**
    * A stream finds no command twice, a command announces itself, and the stream returns with its turn: the command waits
    * behind a turn that was granted after it came.
    */
  method CrossedTurn() returns (g: EventGate)
    ensures fresh(g) && g.Valid() && 1 in g.registered && g.holder == Stream(0) && g.granted == g.atArrival[1] + 1
  {
    g := new EventGate(2);
    var looked := g.Look(0);
    var locked := g.TryMutex(0);
    var clear := g.LookAgain(0);
    g.Register(1);
    g.Return(0);
  }
}
