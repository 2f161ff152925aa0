/** Ownership of the smart-card reader: handles, sharing, transactions, staleness and power. */
module CardService {
  import opened Errors

  type Bytes = seq<nat>

  const MAX64 := 0xffff_ffff_ffff_ffff
  const MAX_PAYLOAD := 4096

  datatype Mode = Shared | Exclusive | UnknownMode

  datatype Disposition = Leave | ResetCard | UnknownDisposition

  datatype Holder = Holder(handle: nat, client: nat, mode: Mode, bound: bool, stale: bool)

  // ------------------------------------------------- the hardware's answers

  /** What the service asks of the reader; an exchange is made on behalf of a handle. */
  datatype Act = Power(on: bool) | StartUart | Detect | StartSession | Exchange(handle: nat, apdu: Bytes)

  datatype Answer = Answer(error: Option<Error>, present: bool, atr: Bytes, reply: Bytes)

  datatype Entry = Entry(act: Act, error: Option<Error>, present: bool, atr: Bytes)

  /** The answer shows that the card, or the whole device, is gone. */
  predicate Absent(e: Entry) {
    || e.error == Some(DISCONNECTED)
    || (!e.act.Power? && !e.act.StartUart? && (e.error == Some(NO_CARD) || e.error == Some(CARD_REMOVED)))
    || (e.act.Detect? && e.error.None? && !e.present)
  }

  /**
    * What the answers so far amount to: whether the last power call was ON with no device loss reported since,
    * how often the card was seen absent, the handles on whose behalf the card was reached and with which commands, and
    * the answers to reset of the sessions that were started.
    */
  datatype Account = Account(energised: bool, absences: nat, exchanges: seq<nat>, apdus: seq<Bytes>, starts: seq<Bytes>)

  function Noted(a: Account, e: Entry): Account {
    Account(e.error != Some(DISCONNECTED) && (if e.act.Power? then e.act.on else a.energised),
            if Absent(e) then a.absences + 1 else a.absences,
            if e.act.Exchange? then a.exchanges + [e.act.handle] else a.exchanges,
            if e.act.Exchange? then a.apdus + [e.act.apdu] else a.apdus,
            if e.act.StartSession? && e.error.None? then a.starts + [e.atr] else a.starts)
  }

  // --------------------------------------------------------- handle tables

  predicate Distinct(hs: seq<Holder>) {
    && (forall i :: 0 <= i < |hs| ==> 0 < hs[i].handle <= MAX64 && hs[i].client != 0 && hs[i].mode != UnknownMode)
    && (forall i, j :: 0 <= i < j < |hs| ==> hs[i].handle != hs[j].handle)
  }

  /** An exclusive handle is the only handle. */
  predicate SharingKept(hs: seq<Holder>) {
    forall i :: 0 <= i < |hs| && hs[i].mode == Exclusive ==> |hs| == 1
  }

  predicate AllBoundStale(hs: seq<Holder>) {
    forall i :: 0 <= i < |hs| && hs[i].bound ==> hs[i].stale
  }

  predicate Live(hs: seq<Holder>, handle: nat) {
    exists i :: 0 <= i < |hs| && hs[i].handle == handle
  }

  predicate Usable(hs: seq<Holder>, handle: nat) {
    exists i :: 0 <= i < |hs| && hs[i].handle == handle && !hs[i].stale
  }

  function MarkBound(hs: seq<Holder>): (r: seq<Holder>)
    ensures |r| == |hs|
    ensures forall i :: 0 <= i < |hs| ==> r[i] == if hs[i].bound then hs[i].(stale := true) else hs[i]
  {
    seq(|hs|, i requires 0 <= i < |hs| => if hs[i].bound then hs[i].(stale := true) else hs[i])
  }

  /** The k-th number tried from n on, when numbers run from 1 to max and start over. */
  function Tried(max: nat, n: nat, k: nat): nat {
    if n + k <= max then n + k else n + k - max
  }

  /** The number is among the first k tried. */
  predicate AmongTried(max: nat, n: nat, k: nat, h: nat) {
    n <= h < n + k || h + max < n + k
  }

  lemma NextTried(max: nat, n: nat, k: nat)
    requires 1 <= n <= max && k < max
    ensures 0 < Tried(max, n, k) <= max && !AmongTried(max, n, k, Tried(max, n, k))
    ensures k + 1 < max ==> Tried(max, n, k + 1) == if Tried(max, n, k) == max then 1 else Tried(max, n, k) + 1
    ensures AmongTried(max, n, k + 1, Tried(max, n, k)) && forall h :: AmongTried(max, n, k, h) ==> AmongTried(max, n, k + 1, h)
  {
  }

  /** The numbers in use that have not been tried yet: `rest`. */
  ghost predicate Remaining(used: set<nat>, rest: set<nat>, max: nat, n: nat, k: nat) {
    rest <= used && k + |rest| == |used| && forall h :: h in used && h !in rest ==> AmongTried(max, n, k, h)
  }

  ghost predicate Searching(next: nat, used: set<nat>, rest: set<nat>, start: nat, k: nat) {
    1 <= start <= MAX64 && k < MAX64 && next == Tried(MAX64, start, k) && Remaining(used, rest, MAX64, start, k)
  }

  lemma TryFailed(used: set<nat>, rest: set<nat>, max: nat, n: nat, k: nat)
    requires 1 <= n <= max && Remaining(used, rest, max, n, k) && |used| < max && Tried(max, n, k) in used
    ensures Tried(max, n, k) in rest && Remaining(used, rest - {Tried(max, n, k)}, max, n, k + 1)
    ensures k + 1 < max
  {
    NextTried(max, n, k);
  }

  ghost function Used(hs: seq<Holder>): (used: set<nat>)
    ensures |used| <= |hs|
    ensures forall i :: 0 <= i < |hs| ==> hs[i].handle in used
    ensures forall h :: h in used ==> Live(hs, h)
  {
    if hs == [] then {}
    else
      var rest := Used(hs[..|hs| - 1]);
      assert forall h :: h in rest ==> Live(hs[..|hs| - 1], h) && Live(hs, h);
      assert hs[|hs| - 1].handle == hs[|hs| - 1].handle && Live(hs, hs[|hs| - 1].handle);
      rest + {hs[|hs| - 1].handle}
  }

  // ----------------------------------------------------------------- state

  datatype Change = Change(changed: bool, present: bool, generation: nat)

  /** The fields of the service. */
  datatype State = State(handles: seq<Holder>, transaction: nat, powered: bool, uart: bool,
                         known: bool, present: bool, generation: nat, atr: Bytes, sessionUp: bool, sessionAtr: Bytes,
                         change: Change, changePending: bool)

  /** The last session that was started answered with this. */
  predicate Latest(a: Account, atr: Bytes) {
    a.starts != [] && a.starts[|a.starts| - 1] == atr
  }

  /** What holds between any two steps of a call. */
  predicate Coherent(s: State, a: Account) {
    && Distinct(s.handles) && SharingKept(s.handles)
    && s.powered == s.uart && s.powered == a.energised
    && (s.sessionUp ==> s.powered && s.known && s.present && s.atr == s.sessionAtr && Latest(a, s.atr))
    && (!s.sessionUp ==> s.atr == [] && s.sessionAtr == [])
    && (!s.powered || (s.known && !s.present) ==> AllBoundStale(s.handles))
    && (s.transaction != 0 ==> s.sessionUp && Usable(s.handles, s.transaction))
    && (s.changePending ==> s.known && s.change == Change(true, s.present, s.generation))
  }

  /** What holds between calls. */
  predicate Settled(s: State, a: Account) {
    Coherent(s, a) && (s.handles == [] ==> !s.powered)
  }

  /** Only staleness of bound handles may have been added, and all of it was if the card was seen absent. */
  predicate Weathered(before: seq<Holder>, after: seq<Holder>, absent: bool) {
    (after == before || after == MarkBound(before)) && (absent ==> AllBoundStale(after))
  }

  /** What a step of a call that makes no exchange did to the account and the handles. */
  predicate Progress(a: Account, before: seq<Holder>, a': Account, after: seq<Holder>) {
    && a'.exchanges == a.exchanges && a'.apdus == a.apdus && a'.absences >= a.absences && a.starts <= a'.starts
    && Weathered(before, after, a'.absences > a.absences)
  }

  lemma Steps(a0: Account, h0: seq<Holder>, a1: Account, h1: seq<Holder>, a2: Account, h2: seq<Holder>)
    requires Progress(a0, h0, a1, h1) && Progress(a1, h1, a2, h2)
    ensures Progress(a0, h0, a2, h2)
  {
    MarkTwice(h0);
  }

  lemma MarkTwice(hs: seq<Holder>)
    ensures MarkBound(MarkBound(hs)) == MarkBound(hs) && AllBoundStale(MarkBound(hs))
    ensures AllBoundStale(hs) ==> MarkBound(hs) == hs
    ensures Distinct(hs) ==> Distinct(MarkBound(hs))
    ensures SharingKept(hs) ==> SharingKept(MarkBound(hs))
  {
  }

  function Invalidated(s: State): State {
    s.(sessionUp := false, sessionAtr := [], atr := [], transaction := 0)
  }

  function Abandoned(s: State): State {
    Invalidated(s).(powered := false, uart := false, handles := MarkBound(s.handles))
  }

  function NextGeneration(s: State, present: bool): State {
    var generation := (s.generation + 1) % (MAX64 + 1);
    s.(generation := generation, change := Change(true, present, generation), changePending := true)
  }

  datatype CardStatus = CardStatus(present: bool, initialized: bool, generation: nat, atr: Bytes)

  predicate MayShare(hs: seq<Holder>, mode: Mode, excluded: Option<nat>) {
    mode != UnknownMode && forall k :: 0 <= k < |hs| && excluded != Some(k) ==> mode == Shared && hs[k].mode != Exclusive
  }

  lemma StaleStays(before: seq<Holder>, after: seq<Holder>)
    requires AllBoundStale(before) && (after == before || after == MarkBound(before))
    ensures AllBoundStale(after)
  {
    MarkTwice(before);
  }

  lemma JoinKeeps(s: State, a: Account, h: Holder)
    requires Coherent(s, a) && s.sessionUp && MayShare(s.handles, h.mode, None)
    requires 0 < h.handle <= MAX64 && h.client != 0 && !Live(s.handles, h.handle)
    ensures Coherent(s.(handles := s.handles + [h]), a)
  {
    var hs := s.handles + [h];
    assert forall i :: 0 <= i < |s.handles| ==> hs[i] == s.handles[i];
    assert forall i :: 0 <= i < |s.handles| ==> s.handles[i].handle != h.handle && s.handles[i].mode != Exclusive;
    assert s.handles != [] ==> h.mode == Shared by {
      if s.handles != [] { assert s.handles[0].mode != Exclusive; }
    }
    assert Distinct(hs) && SharingKept(hs);
    if s.transaction != 0 {
      var i :| 0 <= i < |s.handles| && s.handles[i].handle == s.transaction && !s.handles[i].stale;
      assert hs[i].handle == s.transaction;
    }
  }

  /** One handle, and only that one, is fresh again, perhaps in a new mode. */
  predicate Renewed(before: seq<Holder>, after: seq<Holder>, handle: nat, mode: Option<Mode>) {
    && |after| == |before|
    && forall i :: 0 <= i < |before| ==>
         after[i] == if before[i].handle != handle then before[i]
                     else before[i].(stale := false, mode := if mode.Some? then mode.value else before[i].mode)
  }

  lemma RenewKeeps(s: State, a: Account, index: nat, mode: Mode)
    requires Coherent(s, a) && s.sessionUp && index < |s.handles| && MayShare(s.handles, mode, Some(index))
    ensures Coherent(s.(handles := s.handles[index := s.handles[index].(mode := mode, stale := false)]), a)
    ensures Renewed(s.handles, s.handles[index := s.handles[index].(mode := mode, stale := false)], s.handles[index].handle, Some(mode))
  {
    var hs := s.handles[index := s.handles[index].(mode := mode, stale := false)];
    assert forall i :: 0 <= i < |hs| ==> hs[i].handle == s.handles[i].handle && hs[i].client == s.handles[i].client;
    assert Distinct(hs);
    assert |hs| > 1 ==> s.handles[if index == 0 then 1 else 0].mode != Exclusive && mode == Shared;
    assert forall i :: 0 <= i < |hs| && i != index ==> hs[i].mode != Exclusive;
    assert SharingKept(hs);
    if s.transaction != 0 {
      var i :| 0 <= i < |s.handles| && s.handles[i].handle == s.transaction && !s.handles[i].stale;
      assert hs[i].handle == s.transaction && !hs[i].stale;
    }
  }

  lemma OwnModeAllowed(hs: seq<Holder>, index: nat)
    requires Distinct(hs) && SharingKept(hs) && index < |hs|
    ensures MayShare(hs, hs[index].mode, Some(index))
  {
    forall k | 0 <= k < |hs| && Some(index) != Some(k) ensures hs[index].mode == Shared && hs[k].mode != Exclusive {
      assert |hs| > 1;
    }
  }

  function DropAt(hs: seq<Holder>, index: nat): seq<Holder>
    requires index < |hs|
  {
    hs[..index] + hs[index + 1..]
  }

  /** The client's handle is gone; otherwise at most staleness was added. */
  predicate LeftBy(before: seq<Holder>, after: seq<Holder>, client: nat, handle: nat) {
    exists i :: 0 <= i < |before| && before[i].handle == handle && before[i].client == client
                && (after == DropAt(before, i) || after == DropAt(MarkBound(before), i))
  }

  lemma DropStale(hs: seq<Holder>, index: nat)
    requires index < |hs|
    ensures AllBoundStale(hs) ==> AllBoundStale(DropAt(hs, index))
  {
  }

  lemma DropDistinct(hs: seq<Holder>, index: nat)
    requires Distinct(hs) && SharingKept(hs) && index < |hs|
    ensures Distinct(DropAt(hs, index)) && SharingKept(DropAt(hs, index))
  {
    var rest := DropAt(hs, index);
    assert forall i :: 0 <= i < |rest| ==> rest[i] == hs[if i < index then i else i + 1];
  }

  /** Giving a handle back, and the transaction with it. */
  lemma DropKeeps(s: State, a: Account, index: nat)
    requires Coherent(s, a) && index < |s.handles|
    ensures Coherent(s.(handles := DropAt(s.handles, index),
                        transaction := if s.transaction == s.handles[index].handle then 0 else s.transaction), a)
  {
    var hs := DropAt(s.handles, index);
    DropStale(s.handles, index);
    DropDistinct(s.handles, index);
    if s.transaction != 0 && s.transaction != s.handles[index].handle {
      var i :| 0 <= i < |s.handles| && s.handles[i].handle == s.transaction && !s.handles[i].stale;
      var j := if i < index then i else i - 1;
      assert hs[j] == s.handles[i];
    }
  }

  predicate Holding(hs: seq<Holder>, client: nat, handle: nat) {
    exists i :: 0 <= i < |hs| && hs[i].handle == handle && hs[i].client == client && client != 0
  }

  /** The handle is the client's, and no other handle has a transaction. */
  predicate MayCall(s: State, client: nat, handle: nat) {
    Holding(s.handles, client, handle) && (s.transaction == 0 || s.transaction == handle)
  }

  lemma NotUsable(hs: seq<Holder>, index: nat)
    requires Distinct(hs) && index < |hs| && hs[index].stale
    ensures !Usable(hs, hs[index].handle)
  {
  }

  /** The handles of the other clients, in order. */
  function Without(hs: seq<Holder>, client: nat): seq<Holder> {
    if hs == [] then [] else (if hs[0].client == client then [] else [hs[0]]) + Without(hs[1..], client)
  }

  lemma {:induction false} WithoutMembers(hs: seq<Holder>, client: nat)
    ensures forall h :: h in Without(hs, client) <==> h in hs && h.client != client
    ensures |Without(hs, client)| <= |hs|
  {
    if hs != [] {
      WithoutMembers(hs[1..], client);
      assert hs == [hs[0]] + hs[1..];
    }
  }

  lemma WithoutStep(all: seq<Holder>, index: nat, client: nat)
    requires index < |all|
    ensures var now := all[..index + 1] + Without(all[index + 1..], client);
            && index < |now| && now[index] == all[index]
            && all[..index] + Without(all[index..], client) == (if all[index].client == client then DropAt(now, index) else now)
  {
    assert all[index..][1..] == all[index + 1..];
    assert all[..index + 1] == all[..index] + [all[index]];
  }

  /** An answered presence question, recorded. */
  function Recorded(s: State, present: bool, initial: bool): State {
    var changed := if s.known then s.present != present else initial;
    var noted := s.(known := true, present := present);
    if changed then NextGeneration(noted, present) else noted
  }

  datatype Request =
    | Status
    | HandleStatus(client: nat, handle: nat)
    | Poll
    | Connect(client: nat, mode: Mode, bound: bool)
    | Reconnect(client: nat, handle: nat, mode: Mode, d: Disposition)
    | Disconnect(client: nat, handle: nat, d: Disposition)
    | Reset(client: nat, handle: nat)
    | Transmit(client: nat, handle: nat, apdu: Bytes, room: nat)
    | Begin(client: nat, handle: nat)
    | End(client: nat, handle: nat, d: Disposition)
    | Release(client: nat)
    | Shutdown

  /** The request, with this outcome, gives the handle back or renews it. */
  predicate Touches(q: Request, ok: bool, h: Holder) {
    match q
    case Reconnect(_, handle, _, _) => ok && handle == h.handle
    case Reset(_, handle) => ok && handle == h.handle
    case Disconnect(_, handle, _) => handle == h.handle
    case Release(client) => client == h.client
    case Shutdown => true
    case _ => false
  }

  /** Stale handles stay, and stay stale, unless the request touches them. */
  predicate Sticky(before: seq<Holder>, after: seq<Holder>, q: Request, ok: bool) {
    forall i :: 0 <= i < |before| && before[i].stale && !Touches(q, ok, before[i]) ==> before[i] in after
  }

  /** The card was reached at most once, and only for a handle that was not stale. */
  predicate ReachedFairly(before: seq<Holder>, a: Account, a': Account, q: Request) {
    a'.exchanges == a.exchanges || (q.Transmit? && Usable(before, q.handle) && a'.exchanges == a.exchanges + [q.handle])
  }

  /** What every request does, whatever the reader answers. */
  predicate Fair(before: seq<Holder>, a: Account, after: seq<Holder>, a': Account, q: Request, ok: bool) {
    && Sticky(before, after, q, ok) && ReachedFairly(before, a, a', q)
    && (a'.absences > a.absences ==> AllBoundStale(after))
    && |after| <= |before| + 1
  }

  lemma WeatheredFair(before: seq<Holder>, after: seq<Holder>, absent: bool, q: Request, ok: bool)
    requires Weathered(before, after, absent)
    ensures Sticky(before, after, q, ok) && |after| == |before| && (absent ==> AllBoundStale(after))
  {
    forall i | 0 <= i < |before| && before[i].stale ensures before[i] in after {
      assert after[i] == before[i];
    }
  }

  lemma ProgressFair(before: seq<Holder>, a: Account, after: seq<Holder>, a': Account, q: Request, ok: bool)
    requires Progress(a, before, a', after)
    ensures Fair(before, a, after, a', q, ok)
  {
    WeatheredFair(before, after, a'.absences > a.absences, q, ok);
  }

  lemma JoinFair(before: seq<Holder>, a: Account, after: seq<Holder>, a': Account, q: Request, h: Holder)
    requires after == before + [h] && a'.exchanges == a.exchanges && a'.absences == a.absences
    ensures Fair(before, a, after, a', q, true)
  {
    forall i | 0 <= i < |before| ensures before[i] in after {
      assert after[i] == before[i];
    }
  }

  lemma RenewedFair(before: seq<Holder>, a: Account, after: seq<Holder>, a': Account, q: Request, handle: nat, mode: Option<Mode>)
    requires Renewed(before, after, handle, mode) && a'.exchanges == a.exchanges && a'.absences == a.absences
    requires (q.Reset? || q.Reconnect?) && q.handle == handle
    ensures Fair(before, a, after, a', q, true)
  {
    forall i | 0 <= i < |before| && before[i].handle != handle ensures before[i] in after {
      assert after[i] == before[i];
    }
  }

  lemma LeftFair(before: seq<Holder>, a: Account, after: seq<Holder>, a': Account, q: Request, ok: bool)
    requires q.Disconnect? && a'.exchanges == a.exchanges && (a'.absences > a.absences ==> AllBoundStale(after))
    requires after == before || LeftBy(before, after, q.client, q.handle)
    ensures Fair(before, a, after, a', q, ok)
  {
    if after != before {
      var k :| 0 <= k < |before| && before[k].handle == q.handle && before[k].client == q.client
               && (after == DropAt(before, k) || after == DropAt(MarkBound(before), k));
      DropSticky(before, before, k);
      DropSticky(before, MarkBound(before), k);
    }
  }

  lemma DropSticky(before: seq<Holder>, hs: seq<Holder>, k: nat)
    requires Weathered(before, hs, false) && k < |before|
    ensures |DropAt(hs, k)| == |before| - 1
    ensures forall i :: 0 <= i < |before| && i != k && before[i].stale ==> before[i] in DropAt(hs, k)
  {
    forall i | 0 <= i < |before| && i != k && before[i].stale ensures before[i] in DropAt(hs, k) {
      assert DropAt(hs, k)[if i < k then i else i - 1] == hs[i] == before[i];
    }
  }

  lemma ReleasedFair(before: seq<Holder>, a: Account, after: seq<Holder>, a': Account, q: Request, ok: bool)
    requires q.Release? && a'.exchanges == a.exchanges && (a'.absences > a.absences ==> after == [])
    requires after == if q.client == 0 then before else Without(before, q.client)
    ensures Fair(before, a, after, a', q, ok)
  {
    WithoutMembers(before, q.client);
  }

  predicate Spared(requests: seq<Request>, done: seq<bool>, x: Holder)
    requires |requests| == |done|
  {
    forall i :: 0 <= i < |requests| ==> !Touches(requests[i], done[i], x)
  }

  /** A stale handle is spared by one more request. */
  lemma StepFair(hs: seq<Holder>, before: seq<Holder>, a: Account, after: seq<Holder>, a': Account,
                 requests: seq<Request>, done: seq<bool>, q: Request, ok: bool, from: nat)
    requires |requests| == |done| && from <= |a.exchanges| && Distinct(before) && Fair(before, a, after, a', q, ok)
    requires forall x :: x in hs && x.stale && Spared(requests, done, x) ==> x in before && x.handle !in a.exchanges[from..]
    ensures forall x :: x in hs && x.stale && Spared(requests + [q], done + [ok], x) ==> x in after && x.handle !in a'.exchanges[from..]
  {
    forall x | x in hs && x.stale && Spared(requests + [q], done + [ok], x)
      ensures x in after && x.handle !in a'.exchanges[from..]
    {
      SparedBefore(requests, done, q, ok, x);
      var i :| 0 <= i < |before| && before[i] == x;
      NotUsable(before, i);
      assert q.Transmit? && a'.exchanges == a.exchanges + [q.handle] ==> a'.exchanges[from..] == a.exchanges[from..] + [q.handle];
    }
  }

  lemma SparedBefore(requests: seq<Request>, done: seq<bool>, q: Request, ok: bool, x: Holder)
    requires |requests| == |done| && Spared(requests + [q], done + [ok], x)
    ensures Spared(requests, done, x) && !Touches(q, ok, x)
  {
    var qs, oks := requests + [q], done + [ok];
    assert !Touches(qs[|requests|], oks[|requests|], x);
    forall i | 0 <= i < |requests| ensures !Touches(requests[i], done[i], x) {
      assert !Touches(qs[i], oks[i], x);
    }
  }

  class Service {
    const world: nat -> Answer
    var asked: nat
    var s: State
    var nextHandle: nat
    ghost var told: Account

    ghost predicate Valid()
      reads this
    {
      Settled(s, told) && nextHandle <= MAX64
    }

    constructor (world: nat -> Answer, nextHandle: nat, generation: nat)
      requires nextHandle <= MAX64
      ensures Valid() && s.handles == [] && told == Account(false, 0, [], [], [])
    {
      this.world, this.nextHandle, asked, told := world, nextHandle, 0, Account(false, 0, [], [], []);
      s := State([], 0, false, false, false, false, generation, [], false, [], Change(false, false, 0), false);
    }

    /** A reader that from the n-th question on answers everything well, with a card in it. */
    ghost predicate Willing(n: nat) {
      forall i :: n <= i ==> world(i).error.None? && world(i).present
    }

    /** One question to the reader. */
    method Ask(act: Act) returns (a: Answer)
      modifies `asked, `told
      ensures told == Noted(old(told), Entry(act, a.error, a.present, a.atr))
      ensures a == world(old(asked)) && asked == old(asked) + 1
    {
      a := world(asked);
      asked := asked + 1;
      told := Noted(told, Entry(act, a.error, a.present, a.atr));
    }

    // ----------------------------------------------------- power and session

    method InvalidateSession()
      modifies `s
      ensures s == Invalidated(old(s))
    {
      s := s.(sessionUp := false, sessionAtr := []);
      s := s.(atr := [], transaction := 0);
    }

    method InvalidateBoundHandles()
      modifies `s
      ensures s == old(s).(handles := MarkBound(old(s.handles)))
    {
      s := s.(handles := MarkBound(s.handles));
    }

    method AbandonDisconnectedHardware()
      modifies `s
      ensures s == Abandoned(old(s))
    {
      s := s.(powered := false, uart := false);
      InvalidateBoundHandles();
      InvalidateSession();
    }

    /** Powers the reader and its serial link; on failure the reader is off again. */
    method PowerUp() returns (r: Result<Unit>)
      requires Coherent(s, told)
      modifies this
      ensures Coherent(s, told) && Progress(old(told), old(s).handles, told, s.handles)
      ensures r.Success? ==> s == old(s).(powered := true, uart := true) && told.absences == old(told).absences
      ensures r.Failure? ==> !old(s).powered && s == old(s)
      ensures old(s).powered ==> told == old(told)
      ensures nextHandle == old(nextHandle) && told.starts == old(told).starts
      ensures asked >= old(asked) && (Willing(old(asked)) ==> r.Success?)
    {
      if s.powered { return Success(Unit); }
      MarkTwice(s.handles);
      assert Abandoned(s) == s;
      var power := Ask(Power(true));
      if power.error.Some? {
        if power.error.value == DISCONNECTED {
          AbandonDisconnectedHardware();
          return Failure(DISCONNECTED);
        }
        var off := Ask(Power(false));
        return Failure(if off.error.Some? then off.error.value else power.error.value);
      }
      s := s.(powered := true);
      r := StartLink();
    }

    method StartLink() returns (r: Result<Unit>)
      requires s.powered && !s.uart && Coherent(s.(powered := false), told.(energised := false)) && told.energised
      modifies this
      ensures nextHandle == old(nextHandle) && told.starts == old(told).starts
      ensures asked >= old(asked) && (Willing(old(asked)) ==> r.Success?)
      ensures Coherent(s, told) && Progress(old(told), old(s).handles, told, s.handles)
      ensures r.Success? ==> s == old(s).(uart := true) && told.absences == old(told).absences
      ensures r.Failure? ==> s == old(s).(powered := false)
    {
      MarkTwice(s.handles);
      var link := Ask(StartUart);
      if link.error.Some? {
        if link.error.value == DISCONNECTED {
          AbandonDisconnectedHardware();
          return Failure(DISCONNECTED);
        }
        var off := Ask(Power(false));
        s := s.(powered := false, uart := false);
        return Failure(if off.error.Some? then off.error.value else link.error.value);
      }
      s := s.(uart := true);
      r := Success(Unit);
    }

    /** Powers the reader off, whatever it answers. */
    method PowerDown() returns (r: Result<Unit>)
      requires Coherent(s, told) && AllBoundStale(s.handles)
      modifies this
      ensures Coherent(s, told) && Progress(old(told), s.handles, told, s.handles)
      ensures s == Invalidated(old(s)).(powered := false, uart := false)
      ensures !old(s).powered ==> told == old(told) && r == Success(Unit)
      ensures nextHandle == old(nextHandle) && told.starts == old(told).starts
      ensures asked >= old(asked) && (Willing(old(asked)) ==> r.Success?)
    {
      InvalidateSession();
      s := s.(uart := false);
      if !s.powered { return Success(Unit); }
      s := s.(powered := false);
      var off := Ask(Power(false));
      r := if off.error.Some? then Failure(off.error.value) else Success(Unit);
    }

    /** After a failed answer: what it says about the card, and whether the device is gone. */
    method Fail(error: Error)
      requires s.powered && Coherent(s, told.(energised := true)) && told.energised == (error != DISCONNECTED)
      modifies `s
      ensures Coherent(s, told) && !s.sessionUp && s.transaction == 0
      ensures s == Invalidated(old(s)).(handles := s.handles, powered := s.powered, uart := s.uart)
      ensures s.handles == old(s).handles || s.handles == MarkBound(old(s).handles)
      ensures error == NO_CARD || error == CARD_REMOVED || error == DISCONNECTED ==> AllBoundStale(s.handles)
    {
      MarkTwice(s.handles);
      if error == NO_CARD || error == CARD_REMOVED { InvalidateBoundHandles(); }
      if error == DISCONNECTED {
        AbandonDisconnectedHardware();
      } else {
        InvalidateSession();
      }
    }

    /** Asks whether a card is there and records the answer; a change of a known answer counts as a new generation. */
    method DetectAndRecord(initial: bool) returns (r: Result<bool>, seen: Change)
      requires Coherent(s, told)
      modifies this
      ensures Coherent(s, told) && Progress(old(told), old(s).handles, told, s.handles)
      ensures nextHandle == old(nextHandle) && told.starts == old(told).starts
      ensures asked >= old(asked) && (Willing(old(asked)) && old(s).powered ==> r == Success(true))
      ensures !old(s).powered ==> r == Failure(NOT_READY) && s == old(s)
      ensures r == Success(true) ==> told.absences == old(told).absences
      ensures r == Success(true) ==> s == Recorded(old(s), true, initial)
      ensures r.Success? ==> s.powered && s.known && s.present == r.value && s.generation == Recorded(old(s), r.value, initial).generation
      ensures r.Success? ==> s.changePending == Recorded(old(s), r.value, initial).changePending
      ensures r.Success? ==> seen == Change(if old(s).known then old(s).present != s.present else initial, s.present, s.generation)
      ensures r.Failure? ==> s.generation == old(s).generation
      ensures r != Success(true) && old(s).powered ==> !s.sessionUp && s.transaction == 0
      ensures r == Success(false) ==> AllBoundStale(s.handles)
    {
      seen := Change(false, false, 0);
      if !s.powered || !s.uart { return Failure(NOT_READY), seen; }
      MarkTwice(s.handles);
      var answer := Ask(Detect);
      if answer.error.Some? {
        Fail(answer.error.value);
        return Failure(answer.error.value), seen;
      }
      seen := Record(answer.present, initial);
      r := Success(s.present);
    }

    method Record(present: bool, initial: bool) returns (seen: Change)
      requires Coherent(s, told) && s.powered
      modifies `s
      ensures Coherent(s, told) && s.powered && s.known && s.present == present
      ensures s.generation == Recorded(old(s), present, initial).generation
      ensures s.changePending == Recorded(old(s), present, initial).changePending
      ensures present ==> s == Recorded(old(s), true, initial)
      ensures !present ==> s.handles == MarkBound(old(s).handles) && !s.sessionUp && s.transaction == 0
      ensures seen == Change(if old(s).known then old(s).present != present else initial, present, s.generation)
    {
      MarkTwice(s.handles);
      var wasKnown, previous := s.known, s.present;
      s := s.(known := true, present := present);
      if !s.present { InvalidateBoundHandles(); }
      var changed := if wasKnown then previous != s.present else initial;
      if changed {
        s := NextGeneration(s, s.present);
        if !s.present { InvalidateSession(); }
      }
      seen := Change(changed, s.present, s.generation);
    }

    /** Brings up power, serial link and protocol session, or confirms that the card of a running session is there. */
    method EnsureSession() returns (r: Result<Unit>)
      requires Coherent(s, told)
      modifies this
      ensures Coherent(s, told) && Progress(old(told), old(s).handles, told, s.handles)
      ensures nextHandle == old(nextHandle)
      ensures r.Success? ==> s.sessionUp && s.handles == old(s).handles && s.transaction == old(s).transaction
      ensures r.Success? ==> told.absences == old(told).absences
      ensures r.Failure? ==> !s.sessionUp && s.transaction == 0
      ensures told.starts == old(told).starts + if r.Success? && !old(s).sessionUp then [s.atr] else []
      ensures asked >= old(asked) && (Willing(old(asked)) ==> r.Success?)
    {
      r := PowerUp();
      if r.Failure? { return; }
      ghost var mid, hs := told, s.handles;
      if s.sessionUp {
        var detected, seen := DetectAndRecord(false);
        Steps(old(told), old(s).handles, mid, hs, told, s.handles);
        if detected.Failure? { return Failure(detected.error); }
        if !detected.value { return Failure(CARD_REMOVED); }
        return Success(Unit);
      }
      r := BringUp();
      Steps(old(told), old(s).handles, mid, hs, told, s.handles);
    }

    /** Starts the protocol session on a powered reader. */
    method BringUp() returns (r: Result<Unit>)
      requires Coherent(s, told) && s.powered && !s.sessionUp
      modifies this
      ensures Coherent(s, told) && Progress(old(told), old(s).handles, told, s.handles)
      ensures nextHandle == old(nextHandle)
      ensures r.Success? ==> s.sessionUp && s.handles == old(s).handles && s.transaction == old(s).transaction
      ensures r.Success? ==> told.absences == old(told).absences
      ensures r.Failure? ==> !s.sessionUp && s.transaction == 0
      ensures told.starts == old(told).starts + if r.Success? && !old(s).sessionUp then [s.atr] else []
      ensures asked >= old(asked) && (Willing(old(asked)) ==> r.Success?)
    {
      MarkTwice(s.handles);
      var started := Ask(StartSession);
      if started.error.Some? {
        Fail(started.error.value);
        return Failure(started.error.value);
      }
      s := s.(sessionUp := true, sessionAtr := started.atr);
      if s.known && !s.present { s := NextGeneration(s, true); }
      s := s.(known := true, present := true, atr := s.sessionAtr);
      r := Success(Unit);
    }

    /** Brings up the session for a handle; a bound handle first makes sure that the card is still there. */
    method EnsureHandleSession(index: nat) returns (r: Result<Unit>)
      requires Coherent(s, told) && index < |s.handles| && !s.handles[index].stale
      modifies this
      ensures Coherent(s, told) && Progress(old(told), old(s).handles, told, s.handles)
      ensures nextHandle == old(nextHandle)
      ensures r.Success? ==> s.sessionUp && s.handles == old(s).handles && s.transaction == old(s).transaction
      ensures r.Success? ==> told.absences == old(told).absences
      ensures r.Failure? ==> !s.sessionUp && s.transaction == 0
      ensures told.starts == old(told).starts + if r.Success? && !old(s).sessionUp then [s.atr] else []
      ensures asked >= old(asked) && (Willing(old(asked)) ==> r.Success?)
    {
      if s.handles[index].bound && !s.sessionUp {
        r := ConfirmCard();
        if r.Failure? { return; }
      }
      ghost var mid, hs := told, s.handles;
      r := EnsureSession();
      Steps(old(told), old(s).handles, mid, hs, told, s.handles);
    }

    method ConfirmCard() returns (r: Result<Unit>)
      requires Coherent(s, told) && !s.sessionUp
      modifies this
      ensures Coherent(s, told) && Progress(old(told), old(s).handles, told, s.handles) && nextHandle == old(nextHandle)
      ensures !s.sessionUp && s.transaction == 0 && told.starts == old(told).starts
      ensures asked >= old(asked) && (Willing(old(asked)) ==> r.Success?)
      ensures r.Success? ==> s.handles == old(s).handles && told.absences == old(told).absences
    {
      r := PowerUp();
      if r.Failure? { return; }
      ghost var mid, hs := told, s.handles;
      var detected, seen := DetectAndRecord(false);
      Steps(old(told), old(s).handles, mid, hs, told, s.handles);
      r := if detected.Failure? then Failure(detected.error) else if detected.value then Success(Unit) else Failure(CARD_REMOVED);
    }

    method ResetSession(preserve: bool) returns (r: Result<Bytes>)
      requires Coherent(s, told)
      modifies this
      ensures Coherent(s, told) && Progress(old(told), old(s).handles, told, s.handles) && nextHandle == old(nextHandle)
      ensures r.Success? ==> s.sessionUp && s.handles == old(s).handles && told.absences == old(told).absences
      ensures r.Success? ==> s.transaction == (if preserve then old(s).transaction else 0) && r.value == s.atr
      ensures r.Failure? ==> !s.sessionUp && s.transaction == 0
      ensures told.starts == old(told).starts + if r.Success? then [r.value] else []
      ensures asked >= old(asked) && (Willing(old(asked)) ==> r.Success?)
    {
      var transaction := if preserve then s.transaction else 0;
      InvalidateSession();
      var ready := EnsureSession();
      if ready.Failure? { return Failure(ready.error); }
      s := s.(transaction := transaction);
      r := Success(s.atr);
    }

    method ApplyDisposition(d: Disposition) returns (r: Result<Unit>)
      requires Coherent(s, told)
      modifies this
      ensures Coherent(s, told) && Progress(old(told), old(s).handles, told, s.handles) && nextHandle == old(nextHandle)
      ensures s.transaction == old(s).transaction || s.transaction == 0
      ensures d != ResetCard ==> s == old(s) && told == old(told) && (r.Success? <==> d == Leave)
      ensures d == ResetCard ==> told.starts == old(told).starts + if r.Success? then [s.atr] else []
      ensures asked >= old(asked) && (Willing(old(asked)) && d != UnknownDisposition ==> r.Success?)
    {
      if d == Leave { return Success(Unit); }
      if d != ResetCard { return Failure(INVALID_ARGUMENT); }
      var reset := ResetSession(false);
      r := if reset.Success? then Success(Unit) else Failure(reset.error);
    }

    // ------------------------------------------------------- looking around

    method Status() returns (r: Result<CardStatus>)
      requires Valid()
      modifies this
      ensures Valid() && Progress(old(told), old(s).handles, told, s.handles) && nextHandle == old(nextHandle)
      ensures s.powered ==> old(s).powered
      ensures r.Success? ==> r.value.present == s.present && s.known && r.value.generation == s.generation
      ensures r.Success? ==> r.value.initialized == s.sessionUp && r.value.atr == s.atr
    {
      var temporary := !s.powered;
      var power := PowerUp();
      if power.Failure? { return Failure(power.error); }
      ghost var mid, hs := told, s.handles;
      var detected, seen := DetectAndRecord(false);
      Steps(old(told), old(s).handles, mid, hs, told, s.handles);
      var up := detected == Success(true) && s.sessionUp;
      var status := CardStatus(detected == Success(true), up, s.generation, if up then s.atr else []);
      r := if detected.Success? then Success(status) else Failure(detected.error);
      if temporary {
        StaleStays(old(s).handles, s.handles);
        ghost var mid', hs' := told, s.handles;
        var off := PowerDown();
        Steps(old(told), old(s).handles, mid', hs', told, s.handles);
        r := if off.Failure? then Failure(off.error)
             else if r.Success? then Success(status.(initialized := false, atr := []))
             else r;
      }
    }

    method HandleStatus(client: nat, handle: nat) returns (r: Result<CardStatus>)
      requires Valid()
      modifies this
      ensures Valid() && Progress(old(told), old(s).handles, told, s.handles) && nextHandle == old(nextHandle)
      ensures r.Success? ==> Usable(s.handles, handle) && s.sessionUp && s.present && r.value.atr == s.sessionAtr
      ensures r.Success? ==> r.value.generation == s.generation
    {
      var found := FindHandle(client, handle);
      if found.Failure? { return Failure(found.error); }
      if s.handles[found.value].stale { return Failure(CARD_REMOVED); }
      r := Status();
      if s.handles[found.value].stale { return Failure(CARD_REMOVED); }
      if r.Failure? { return; }
      if !r.value.present { return Failure(CARD_REMOVED); }
      if !r.value.initialized { return Failure(NOT_READY); }
      assert s.handles[found.value].handle == handle;
    }

    method FindHandle(client: nat, handle: nat) returns (r: Result<nat>)
      ensures r.Success? ==> r.value < |s.handles| && s.handles[r.value].handle == handle && s.handles[r.value].client == client
      ensures r.Success? ==> client != 0 && handle != 0
      ensures (client == 0 || handle == 0) == (r == Failure(INVALID_ARGUMENT))
      ensures r.Failure? && client != 0 && handle != 0 && Distinct(s.handles) ==>
                r.error == NOT_FOUND && forall i :: 0 <= i < |s.handles| && s.handles[i].handle == handle ==> s.handles[i].client != client
      ensures Distinct(s.handles) ==> r.Success? == Holding(s.handles, client, handle)
      ensures Distinct(s.handles) && r.Success? ==> Usable(s.handles, handle) == !s.handles[r.value].stale
    {
      if client == 0 || handle == 0 { return Failure(INVALID_ARGUMENT); }
      for i := 0 to |s.handles|
        invariant forall k :: 0 <= k < i ==> s.handles[k].handle != handle
      {
        if s.handles[i].handle == handle {
          return if s.handles[i].client == client then Success(i) else Failure(NOT_FOUND);
        }
      }
      r := Failure(NOT_FOUND);
    }

    /** Whether a handle of this mode may stand beside the others. */
    method SharingAllowed(mode: Mode, excluded: Option<nat>) returns (ok: bool)
      ensures ok == MayShare(s.handles, mode, excluded)
    {
      if mode == UnknownMode { return false; }
      for i := 0 to |s.handles|
        invariant forall k :: 0 <= k < i && excluded != Some(k) ==> mode == Shared && s.handles[k].mode != Exclusive
      {
        if excluded != Some(i) && (mode == Exclusive || s.handles[i].mode == Exclusive) { return false; }
      }
      ok := true;
    }

    method PollPresence() returns (r: Result<Change>)
      requires Valid()
      modifies this
      ensures Valid() && Progress(old(told), old(s).handles, told, s.handles) && nextHandle == old(nextHandle)
      ensures r.Success? ==> !s.changePending && r.value.present == s.present && r.value.generation == s.generation
      ensures r.Success? ==> r.value.changed == (old(s).changePending || s.generation != old(s).generation)
    {
      if !s.powered || s.handles == [] {
        if s.changePending {
          s := s.(changePending := false);
          return Success(s.change);
        }
        return Success(Change(false, s.present, s.generation));
      }
      var detected, seen := DetectAndRecord(false);
      if detected.Failure? { return Failure(detected.error); }
      if s.changePending {
        s := s.(changePending := false);
        return Success(s.change);
      }
      r := Success(seen);
    }

    // ------------------------------------------------- taking and giving back

    /** A handle that nobody holds: the counter wraps past the largest number and skips zero. */
    method AllocateHandle() returns (handle: nat)
      requires |s.handles| < MAX64 && nextHandle <= MAX64
      modifies `nextHandle
      ensures 0 < handle <= MAX64 && !Live(s.handles, handle)
      ensures nextHandle <= MAX64
    {
      if nextHandle == 0 { var zero := Advance(); }
      handle := SearchHandle();
    }

    method SearchHandle() returns (handle: nat)
      requires |s.handles| < MAX64 && 0 < nextHandle <= MAX64
      modifies `nextHandle
      ensures 0 < handle <= MAX64 && !Live(s.handles, handle)
      ensures nextHandle <= MAX64
    {
      ghost var start, k, used := nextHandle, 0, Used(s.handles);
      ghost var rest := used;
      var held := true;
      handle := 0;
      while held
        invariant nextHandle <= MAX64
        invariant held ==> Searching(nextHandle, used, rest, start, k)
        invariant !held ==> 0 < handle <= MAX64 && !Live(s.handles, handle)
        decreases held, |rest|
      {
        handle, held := TryHandle(used, rest, start, k);
        if held { rest, k := rest - {handle}, k + 1; }
      }
    }

    method TryHandle(ghost used: set<nat>, ghost rest: set<nat>, ghost start: nat, ghost k: nat) returns (handle: nat, held: bool)
      requires used == Used(s.handles) && |used| < MAX64 && Searching(nextHandle, used, rest, start, k)
      modifies `nextHandle
      ensures nextHandle <= MAX64
      ensures held ==> handle in rest && Searching(nextHandle, used, rest - {handle}, start, k + 1)
      ensures !held ==> 0 < handle <= MAX64 && !Live(s.handles, handle)
    {
      NextTried(MAX64, start, k);
      handle := Advance();
      held := Holds(handle);
      if held { TryFailed(used, rest, MAX64, start, k); }
    }

    /** The next candidate; the counter wraps to one. */
    method Advance() returns (candidate: nat)
      requires nextHandle <= MAX64
      modifies `nextHandle
      ensures candidate == old(nextHandle)
      ensures nextHandle == if candidate == MAX64 then 1 else candidate + 1
    {
      candidate := nextHandle;
      nextHandle := (candidate + 1) % (MAX64 + 1);
      if nextHandle == 0 { nextHandle := 1; }
    }

    method Holds(handle: nat) returns (used: bool)
      ensures used == Live(s.handles, handle)
    {
      used := false;
      for i := 0 to |s.handles|
        invariant used == exists k :: 0 <= k < i && s.handles[k].handle == handle
      {
        used := used || s.handles[i].handle == handle;
      }
    }

    method Connect(client: nat, mode: Mode, bound: bool) returns (r: Result<(nat, Bytes)>)
      requires Valid() && |s.handles| < MAX64
      modifies this
      ensures Valid() && told.exchanges == old(told).exchanges
      ensures (client == 0 || mode == UnknownMode) ==> r == Failure(INVALID_ARGUMENT) && s == old(s) && told == old(told)
      ensures client != 0 && mode != UnknownMode && !MayShare(old(s).handles, mode, None) ==>
                r == Failure(BUSY) && s == old(s) && told == old(told)
      ensures r.Success? ==> s.handles == old(s).handles + [Holder(r.value.0, client, mode, bound, false)]
                             && r.value.1 == s.sessionAtr && s.sessionUp && told.absences == old(told).absences
      ensures told.starts == old(told).starts + if r.Success? && !old(s).sessionUp then [r.value.1] else []
      ensures Willing(old(asked)) && client != 0 && mode != UnknownMode && MayShare(old(s).handles, mode, None) ==> r.Success?
      ensures r.Failure? ==> Progress(old(told), old(s).handles, told, s.handles)
    {
      if client == 0 || mode == UnknownMode { return Failure(INVALID_ARGUMENT); }
      var allowed := SharingAllowed(mode, None);
      if !allowed { return Failure(BUSY); }
      var first := s.handles == [];
      var ready := EnsureSession();
      if ready.Failure? {
        if first {
          ghost var mid, hs := told, s.handles;
          var off := PowerDown();
          Steps(old(told), old(s).handles, mid, hs, told, s.handles);
          if off.Failure? { return Failure(off.error); }
        }
        return Failure(ready.error);
      }
      var handle := AllocateHandle();
      JoinKeeps(s, told, Holder(handle, client, mode, bound, false));
      s := s.(handles := s.handles + [Holder(handle, client, mode, bound, false)]);
      r := Success((handle, s.atr));
    }

    /** Renews a handle, possibly in another mode; this is what ends its staleness. */
    method Reconnect(client: nat, handle: nat, mode: Mode, d: Disposition) returns (r: Result<Bytes>)
      requires Valid()
      modifies this
      ensures Valid() && told.exchanges == old(told).exchanges && told.absences >= old(told).absences
      ensures r.Success? ==> Renewed(old(s).handles, s.handles, handle, Some(mode)) && s.sessionUp && r.value == s.sessionAtr
      ensures r.Success? ==> told.absences == old(told).absences && (s.transaction == old(s).transaction || s.transaction == 0)
      ensures told.starts == old(told).starts + if r.Success? && (d == ResetCard || !old(s).sessionUp) then [r.value] else []
      ensures Willing(old(asked)) && mode != UnknownMode && d != UnknownDisposition && MayCall(old(s), client, handle)
                && (forall i :: 0 <= i < |old(s).handles| && old(s).handles[i].handle == handle ==> MayShare(old(s).handles, mode, Some(i))) ==>
                r.Success?
      ensures r.Failure? ==> Progress(old(told), old(s).handles, told, s.handles)
      ensures nextHandle == old(nextHandle)
    {
      if mode == UnknownMode || d == UnknownDisposition { return Failure(INVALID_ARGUMENT); }
      var found := FindHandle(client, handle);
      if found.Failure? { return Failure(found.error); }
      if s.transaction != 0 && s.transaction != handle { return Failure(BUSY); }
      var allowed := SharingAllowed(mode, Some(found.value));
      if !allowed { return Failure(BUSY); }
      if d == ResetCard {
        var reset := ResetSession(s.transaction == handle);
        if reset.Failure? { return Failure(reset.error); }
      } else {
        var ready := EnsureSession();
        if ready.Failure? { return Failure(ready.error); }
      }
      RenewKeeps(s, told, found.value, mode);
      var holder := s.handles[found.value];
      s := s.(handles := s.handles[found.value := holder.(mode := mode, stale := false)]);
      r := Success(s.atr);
    }

    method Reset(client: nat, handle: nat) returns (r: Result<Bytes>)
      requires Valid()
      modifies this
      ensures Valid() && told.exchanges == old(told).exchanges && told.absences >= old(told).absences
      ensures r.Success? ==> Renewed(old(s).handles, s.handles, handle, None) && s.sessionUp && r.value == s.sessionAtr
      ensures r.Success? ==> told.absences == old(told).absences
      ensures r.Success? ==> s.transaction == if old(s).transaction == handle then handle else 0
      ensures told.starts == old(told).starts + if r.Success? then [r.value] else []
      ensures Willing(old(asked)) && MayCall(old(s), client, handle) ==> r.Success?
      ensures r.Failure? ==> Progress(old(told), old(s).handles, told, s.handles)
      ensures nextHandle == old(nextHandle)
    {
      var found := FindHandle(client, handle);
      if found.Failure? { return Failure(found.error); }
      if s.transaction != 0 && s.transaction != handle { return Failure(BUSY); }
      r := ResetSession(s.transaction == handle);
      if r.Success? {
        var holder := s.handles[found.value];
        OwnModeAllowed(s.handles, found.value);
        RenewKeeps(s, told, found.value, holder.mode);
        s := s.(handles := s.handles[found.value := holder.(stale := false)]);
      }
    }

    method Erase(index: nat)
      requires Coherent(s, told) && index < |s.handles|
      modifies `s
      ensures Coherent(s, told) && s.handles == DropAt(old(s).handles, index) && nextHandle == old(nextHandle)
    {
      DropKeeps(s, told, index);
      if s.transaction == s.handles[index].handle { s := s.(transaction := 0); }
      s := s.(handles := DropAt(s.handles, index));
    }

    method ReleaseHandle(index: nat) returns (r: Result<Unit>)
      requires Coherent(s, told) && index < |s.handles|
      modifies this
      ensures Settled(s, told) && s.handles == DropAt(old(s).handles, index) && nextHandle == old(nextHandle)
      ensures told.exchanges == old(told).exchanges && told.absences >= old(told).absences
      ensures s.handles != [] ==> told == old(told)
      ensures told.starts == old(told).starts && asked >= old(asked) && (Willing(old(asked)) ==> r.Success?)
    {
      Erase(index);
      if s.handles == [] { r := PowerDown(); } else { r := Success(Unit); }
    }

    method Disconnect(client: nat, handle: nat, d: Disposition) returns (r: Result<Unit>)
      requires Valid()
      modifies this
      ensures Valid() && told.exchanges == old(told).exchanges && nextHandle == old(nextHandle)
      ensures told.absences > old(told).absences ==> AllBoundStale(s.handles)
      ensures (s == old(s) && told == old(told) && r.Failure?) || LeftBy(old(s).handles, s.handles, client, handle)
      ensures r.Success? && d == ResetCard && Usable(old(s).handles, handle) ==> |told.starts| == |old(told).starts| + 1
      ensures d != ResetCard || !Usable(old(s).handles, handle) ==> told.starts == old(told).starts
      ensures d != UnknownDisposition && MayCall(old(s), client, handle) ==>
                LeftBy(old(s).handles, s.handles, client, handle) && (Willing(old(asked)) ==> r.Success?)
    {
      if d == UnknownDisposition { return Failure(INVALID_ARGUMENT); }
      var found := FindHandle(client, handle);
      if found.Failure? { return Failure(found.error); }
      var stale := s.handles[found.value].stale;
      if !stale && d == ResetCard && s.transaction != 0 && s.transaction != handle { return Failure(BUSY); }
      r := ApplyAndRelease(found.value, d);
    }

    /** Applies the disposition unless the handle is stale, and gives the handle back in any case. */
    method ApplyAndRelease(index: nat, d: Disposition) returns (r: Result<Unit>)
      requires Valid() && index < |s.handles| && d != UnknownDisposition
      modifies this
      ensures Valid() && told.exchanges == old(told).exchanges && nextHandle == old(nextHandle)
      ensures told.absences > old(told).absences ==> AllBoundStale(s.handles)
      ensures s.handles == DropAt(old(s).handles, index) || s.handles == DropAt(MarkBound(old(s).handles), index)
      ensures r.Success? && d == ResetCard && !old(s).handles[index].stale ==> |told.starts| == |old(told).starts| + 1
      ensures d != ResetCard || old(s).handles[index].stale ==> told.starts == old(told).starts
      ensures Willing(old(asked)) ==> r.Success?
    {
      var applied := Success(Unit);
      if !s.handles[index].stale { applied := ApplyDisposition(d); }
      ghost var hs := s.handles;
      r := ReleaseHandle(index);
      DropStale(hs, index);
      if r.Success? { r := applied; }
    }

    /** Passes a command to the card; only a handle that is not stale reaches it. */
    method Transmit(client: nat, handle: nat, apdu: Bytes, room: nat) returns (r: Result<Bytes>)
      requires Valid()
      modifies this
      ensures Valid() && nextHandle == old(nextHandle) && told.absences >= old(told).absences
      ensures Weathered(old(s).handles, s.handles, told.absences > old(told).absences)
      ensures told.exchanges == old(told).exchanges || (Usable(old(s).handles, handle) && told.exchanges == old(told).exchanges + [handle])
      ensures r.Success? ==> told.exchanges == old(told).exchanges + [handle] && s.sessionUp && s.handles == old(s).handles
      ensures r.Success? ==> s.transaction == old(s).transaction && (s.transaction == 0 || s.transaction == handle)
      ensures r.Success? ==> asked > 0 && r.value == world(asked - 1).reply
      ensures told.apdus == old(told).apdus + if told.exchanges == old(told).exchanges then [] else [apdu]
      ensures Willing(old(asked)) && 0 < |apdu| <= MAX_PAYLOAD && room > 0 && MayCall(old(s), client, handle) && Usable(old(s).handles, handle) ==>
                r.Success?
    {
      if apdu == [] || |apdu| > MAX_PAYLOAD || room == 0 { return Failure(INVALID_ARGUMENT); }
      var found := FindHandle(client, handle);
      if found.Failure? { return Failure(found.error); }
      if s.handles[found.value].stale { return Failure(CARD_REMOVED); }
      if s.transaction != 0 && s.transaction != handle { return Failure(BUSY); }
      r := TransmitOn(found.value, apdu);
    }

    /** Brings the session up for a handle and passes the command on. */
    method TransmitOn(index: nat, apdu: Bytes) returns (r: Result<Bytes>)
      requires Valid() && index < |s.handles| && !s.handles[index].stale
      modifies this
      ensures Valid() && nextHandle == old(nextHandle) && told.absences >= old(told).absences
      ensures Weathered(old(s).handles, s.handles, told.absences > old(told).absences)
      ensures (told.exchanges, told.apdus) == (old(told).exchanges, old(told).apdus)
              || (told.exchanges, told.apdus) == (old(told).exchanges + [old(s).handles[index].handle], old(told).apdus + [apdu])
      ensures r.Success? ==> told.exchanges == old(told).exchanges + [old(s).handles[index].handle] && s.sessionUp && s.handles == old(s).handles
      ensures r.Success? ==> s.transaction == old(s).transaction && asked > 0 && r.value == world(asked - 1).reply
      ensures Willing(old(asked)) ==> r.Success?
    {
      var ready := EnsureHandleSession(index);
      if ready.Failure? {
        s := s.(transaction := 0);
        return Failure(ready.error);
      }
      r := ExchangeWithCard(s.handles[index].handle, apdu);
      MarkTwice(old(s).handles);
    }

    method ExchangeWithCard(handle: nat, apdu: Bytes) returns (r: Result<Bytes>)
      requires Coherent(s, told) && s.sessionUp
      modifies this
      ensures Coherent(s, told) && nextHandle == old(nextHandle) && told.exchanges == old(told).exchanges + [handle]
      ensures told.absences >= old(told).absences && Weathered(old(s).handles, s.handles, told.absences > old(told).absences)
      ensures r.Success? ==> s == old(s)
      ensures asked > 0 && (r.Success? ==> r.value == world(asked - 1).reply)
      ensures told.apdus == old(told).apdus + [apdu] && told.starts == old(told).starts && (Willing(old(asked)) ==> r.Success?)
    {
      MarkTwice(s.handles);
      var answer := Ask(Exchange(handle, apdu));
      if answer.error.Some? {
        Fail(answer.error.value);
        return Failure(answer.error.value);
      }
      r := Success(answer.reply);
    }

    method BeginTransaction(client: nat, handle: nat) returns (r: Result<Unit>)
      requires Valid()
      modifies this
      ensures Valid() && Progress(old(told), old(s).handles, told, s.handles) && nextHandle == old(nextHandle)
      ensures r.Success? ==> old(s).transaction == 0 && s.transaction == handle && Usable(s.handles, handle) && s.sessionUp
      ensures r.Success? ==> s.handles == old(s).handles
      ensures Willing(old(asked)) && Holding(old(s).handles, client, handle) && Usable(old(s).handles, handle) && old(s).transaction == 0 ==> r.Success?
    {
      var found := FindHandle(client, handle);
      if found.Failure? { return Failure(found.error); }
      if s.handles[found.value].stale { return Failure(CARD_REMOVED); }
      if s.transaction != 0 { return Failure(BUSY); }
      r := EnsureHandleSession(found.value);
      if r.Failure? { return; }
      assert s.handles[found.value].handle == handle && !s.handles[found.value].stale;
      s := s.(transaction := handle);
    }

    method EndTransaction(client: nat, handle: nat, d: Disposition) returns (r: Result<Unit>)
      requires Valid()
      modifies this
      ensures Valid() && Progress(old(told), old(s).handles, told, s.handles) && nextHandle == old(nextHandle)
      ensures if old(s).transaction == handle && handle != 0 && Holding(old(s).handles, client, handle)
              then s.transaction == 0 else r.Failure? && s == old(s)
      ensures told.starts == old(told).starts + if r.Success? && d == ResetCard then [s.atr] else []
      ensures Willing(old(asked)) && d != UnknownDisposition && old(s).transaction == handle && handle != 0 && Holding(old(s).handles, client, handle) ==>
                r.Success?
    {
      var found := FindHandle(client, handle);
      if found.Failure? { return Failure(found.error); }
      assert s.handles[found.value].client == client;
      if s.handles[found.value].stale {
        NotUsable(s.handles, found.value);
        return Failure(CARD_REMOVED);
      }
      if s.transaction != handle { return Failure(BUSY); }
      s := s.(transaction := 0);
      r := ApplyDisposition(d);
    }

    /** The client is gone: none of its handles is left, the others stay as they were. */
    method ReleaseConnection(client: nat) returns (r: Result<Unit>)
      requires Valid()
      modifies this
      ensures Valid() && told.exchanges == old(told).exchanges && nextHandle == old(nextHandle)
      ensures s.handles == if client == 0 then old(s).handles else Without(old(s).handles, client)
      ensures client != 0 ==> forall h :: h in s.handles <==> h in old(s).handles && h.client != client
      ensures told.absences >= old(told).absences && (told.absences > old(told).absences ==> s.handles == [])
      ensures client == 0 ==> r == Failure(INVALID_ARGUMENT) && s == old(s)
    {
      if client == 0 { return Failure(INVALID_ARGUMENT); }
      EraseClient(client);
      WithoutMembers(old(s).handles, client);
      if s.handles == [] { r := PowerDown(); } else { r := Success(Unit); }
    }

    method EraseClient(client: nat)
      requires Coherent(s, told)
      modifies `s
      ensures Coherent(s, told) && s.handles == Without(old(s).handles, client) && nextHandle == old(nextHandle)
    {
      var index := |s.handles|;
      ghost var all := s.handles;
      assert all[..index] + Without(all[index..], client) == all;
      while index > 0
        invariant index <= |s.handles| && index <= |all| && Coherent(s, told) && nextHandle == old(nextHandle)
        invariant s.handles == all[..index] + Without(all[index..], client)
      {
        WithoutStep(all, index - 1, client);
        if s.handles[index - 1].client == client { Erase(index - 1); }
        index := index - 1;
      }
      assert all[..0] + Without(all[0..], client) == Without(all, client);
    }

    method Shutdown() returns (r: Result<Unit>)
      requires Valid()
      modifies this
      ensures Valid() && s.handles == [] && !s.powered && told.exchanges == old(told).exchanges && nextHandle == old(nextHandle)
      ensures told.absences >= old(told).absences
    {
      s := s.(handles := [], transaction := 0);
      r := PowerDown();
    }

    // ------------------------------------------------------------ whole runs

    /** One request off the card lane. */
    method Perform(q: Request) returns (ok: bool)
      requires Valid() && |s.handles| < MAX64
      modifies this
      ensures Valid() && Fair(old(s).handles, old(told), s.handles, told, q, ok)
    {
      match q
      case Connect(c, m, b) =>
        var r := Connect(c, m, b);
        ok := r.Success?;
        if ok { JoinFair(old(s).handles, old(told), s.handles, told, q, s.handles[|s.handles| - 1]); }
        else { ProgressFair(old(s).handles, old(told), s.handles, told, q, ok); }
      case Reconnect(c, h, m, d) =>
        var r := Reconnect(c, h, m, d);
        ok := r.Success?;
        if ok { RenewedFair(old(s).handles, old(told), s.handles, told, q, h, Some(m)); }
        else { ProgressFair(old(s).handles, old(told), s.handles, told, q, ok); }
      case Reset(c, h) =>
        var r := Reset(c, h);
        ok := r.Success?;
        if ok { RenewedFair(old(s).handles, old(told), s.handles, told, q, h, None); }
        else { ProgressFair(old(s).handles, old(told), s.handles, told, q, ok); }
      case Disconnect(c, h, d) =>
        var r := Disconnect(c, h, d);
        ok := r.Success?;
        LeftFair(old(s).handles, old(told), s.handles, told, q, ok);
      case Release(c) =>
        var r := ReleaseConnection(c);
        ok := r.Success?;
        ReleasedFair(old(s).handles, old(told), s.handles, told, q, ok);
      case Shutdown => var r := Shutdown(); ok := r.Success?;
      case Transmit(c, h, apdu, room) =>
        var r := Transmit(c, h, apdu, room);
        ok := r.Success?;
        WeatheredFair(old(s).handles, s.handles, told.absences > old(told).absences, q, ok);
      case _ => ok := PerformPlain(q); ProgressFair(old(s).handles, old(told), s.handles, told, q, ok);
    }

    /** The requests that neither add nor remove nor renew a handle nor reach the card. */
    method PerformPlain(q: Request) returns (ok: bool)
      requires Valid() && (q.Status? || q.HandleStatus? || q.Poll? || q.Begin? || q.End?)
      modifies this
      ensures Valid() && Progress(old(told), old(s).handles, told, s.handles)
    {
      match q
      case Status => var r := Status(); ok := r.Success?;
      case HandleStatus(c, h) => var r := HandleStatus(c, h); ok := r.Success?;
      case Poll => var r := PollPresence(); ok := r.Success?;
      case Begin(c, h) => var r := BeginTransaction(c, h); ok := r.Success?;
      case End(c, h, d) => var r := EndTransaction(c, h, d); ok := r.Success?;
    }

    /**
      * Any sequence of requests, whatever the reader answers: the service is sound after each, and a stale handle
      * that no request gave back or renewed is still there, still stale, and was never the reason to reach the card.
      */
    method Serve(requests: seq<Request>) returns (done: seq<bool>)
      requires Valid() && |s.handles| + |requests| < MAX64
      modifies this
      ensures Valid() && |done| == |requests| && |told.exchanges| >= |old(told).exchanges|
      ensures forall x :: x in old(s).handles && x.stale && Spared(requests, done, x) ==>
                x in s.handles && x.handle !in told.exchanges[|old(told).exchanges|..]
    {
      done := [];
      ghost var hs, from := s.handles, |told.exchanges|;
      while |done| < |requests|
        invariant |done| <= |requests| && Valid() && |s.handles| <= |hs| + |done| && |told.exchanges| >= from
        invariant forall x :: x in hs && x.stale && Spared(requests[..|done|], done, x) ==>
                    x in s.handles && x.handle !in told.exchanges[from..]
      {
        ghost var before, a := s.handles, told;
        var ok := Perform(requests[|done|]);
        StepFair(hs, before, a, s.handles, told, requests[..|done|], done, requests[|done|], ok, from);
        assert requests[..|done|] + [requests[|done|]] == requests[..|done| + 1];
        done := done + [ok];
      }
      assert requests[..|done|] == requests;
    }
  }
}
