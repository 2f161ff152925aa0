/** Which USB devices form one enclosure: ordering, grouping and unambiguous selection. */
module Grouping {
  import opened Errors

  const VENDOR := 0x0511

  /** Where a device sits; absent parts are zero in comparisons. */
  datatype Location = Location(bus: Option<nat>, address: Option<nat>, portCount: nat, ports: seq<nat>)

  datatype Observation = Observation(vendor: nat, product: nat, serial: string, speedOk: bool, topologyOk: bool, location: Location)

  datatype ObservationStatus = Usable | Unsupported | InvalidSerial | InsufficientSpeed | InvalidTopology

  /** Model number and bridge count of a supported product. */
  datatype Profile = Profile(model: nat, bridges: nat)

  function ProfileOf(vendor: nat, product: nat): Option<Profile> {
    if vendor != VENDOR then None
    else match product
      case 0x084a => Some(Profile(0, 2))
      case 0x083f => Some(Profile(3, 1))
      case 0x024e => Some(Profile(1, 1))
      case 0x924e => Some(Profile(2, 1))
      case 0x023f => Some(Profile(4, 1))
      case 0x073f => Some(Profile(5, 1))
      case 0x024a => Some(Profile(6, 2))
      case 0x074a => Some(Profile(7, 2))
      case 0x0252 => Some(Profile(8, 1))
      case 0x0253 => Some(Profile(9, 1))
      case 0x0254 => Some(Profile(10, 1))
      case 0x0854 => Some(Profile(11, 1))
      case 0x0855 => Some(Profile(12, 1))
      case 0x0052 => Some(Profile(13, 1))
      case 0x004b => Some(Profile(14, 1))
      case 0x084b => Some(Profile(15, 1))
      case _ => None
  }

  predicate AllDigits(s: string) {
    forall i :: 0 <= i < |s| ==> '0' <= s[i] <= '9'
  }

  /** The enclosure a device belongs to, and its place in there. */
  datatype Key = Key(base: string, model: nat, bridges: nat, slot: nat)

  function KeyOf(o: Observation): Result<Key> {
    match ProfileOf(o.vendor, o.product)
    case None => Failure(UNSUPPORTED)
    case Some(p) =>
      if |o.serial| != 15 || !AllDigits(o.serial) then Failure(INVALID_ARGUMENT)
      else if p.bridges == 1 then Success(Key(o.serial, p.model, 1, 0))
      else if o.serial[14] == '1' then Success(Key(o.serial[..14], p.model, 2, 0))
      else if o.serial[14] == '2' then Success(Key(o.serial[..14], p.model, 2, 1))
      else Failure(INVALID_ARGUMENT)
  }

  function StatusOf(o: Observation): ObservationStatus {
    if ProfileOf(o.vendor, o.product).None? then Unsupported
    else if KeyOf(o).Failure? then InvalidSerial
    else if !o.speedOk then InsufficientSpeed
    else if !o.topologyOk then InvalidTopology
    else Usable
  }

  predicate Groupable(o: Observation) {
    KeyOf(o).Success?
  }

  lemma GroupableStatus(o: Observation)
    ensures Groupable(o) <==> StatusOf(o) != Unsupported && StatusOf(o) != InvalidSerial
    ensures Groupable(o) ==> KeyOf(o).value.slot < KeyOf(o).value.bridges <= 2
  {
  }

  // ---------------------------------------------------------------- ordering

  function Codes(s: string): seq<int> {
    seq(|s|, i requires 0 <= i < |s| => s[i] as int)
  }

  /** Dictionary order. */
  predicate Before(a: seq<int>, b: seq<int>) {
    b != [] && (a == [] || a[0] < b[0] || (a[0] == b[0] && Before(a[1..], b[1..])))
  }

  function OrZero(x: Option<nat>): nat {
    match x case None => 0 case Some(n) => n
  }

  function Place(l: Location): seq<int> {
    [OrZero(l.bus), OrZero(l.address), l.portCount]
  }

  predicate LocationLess(a: Location, b: Location) {
    if Place(a) != Place(b) then Before(Place(a), Place(b)) else Before(a.ports, b.ports)
  }

  /** The order in which observations are grouped. */
  predicate ObservationLess(a: Observation, b: Observation)
    requires Groupable(a) && Groupable(b)
  {
    var k, m := KeyOf(a).value, KeyOf(b).value;
    if k.base != m.base then Before(Codes(k.base), Codes(m.base))
    else if k.model != m.model then k.model < m.model
    else if k.slot != m.slot then k.slot < m.slot
    else LocationLess(a.location, b.location)
  }

  lemma {:induction false} BeforeTotal(a: seq<int>, b: seq<int>)
    ensures !Before(a, a)
    ensures Before(a, b) ==> !Before(b, a)
    ensures !Before(a, b) && !Before(b, a) ==> a == b
    decreases |a|
  {
    if a != [] {
      BeforeTotal(a[1..], if b == [] then [] else b[1..]);
      if b != [] && a[0] == b[0] && a[1..] == b[1..] {
        assert a == [a[0]] + a[1..] && b == [b[0]] + b[1..];
      }
    }
  }

  lemma {:induction false} BeforeTransitive(a: seq<int>, b: seq<int>, c: seq<int>)
    requires Before(a, b) && Before(b, c)
    ensures Before(a, c)
    decreases |a|
  {
    if a != [] && a[0] == b[0] && b[0] == c[0] {
      BeforeTransitive(a[1..], b[1..], c[1..]);
    }
  }

  lemma CodesInjective(a: string, b: string)
    requires Codes(a) == Codes(b)
    ensures a == b
  {
    assert forall i :: 0 <= i < |a| ==> Codes(a)[i] == a[i] as int;
    assert forall i :: 0 <= i < |b| ==> Codes(b)[i] == b[i] as int;
    assert |a| == |b|;
    assert forall i :: 0 <= i < |a| ==> a[i] == b[i];
  }

  /** The parts of an observation that the order looks at. */
  predicate SamePlace(a: Observation, b: Observation)
    requires Groupable(a) && Groupable(b)
  {
    var k, m := KeyOf(a).value, KeyOf(b).value;
    k.base == m.base && k.model == m.model && k.slot == m.slot
    && Place(a.location) == Place(b.location) && a.location.ports == b.location.ports
  }

  lemma LocationTotal(a: Location, b: Location)
    ensures !LocationLess(a, a) && (LocationLess(a, b) ==> !LocationLess(b, a))
    ensures !LocationLess(a, b) && !LocationLess(b, a) <==> Place(a) == Place(b) && a.ports == b.ports
  {
    BeforeTotal(Place(a), Place(b));
    BeforeTotal(Place(b), Place(a));
    BeforeTotal(a.ports, b.ports);
    BeforeTotal(b.ports, a.ports);
    BeforeTotal(a.ports, a.ports);
  }

  /** Incomparable observations are those that agree in everything the order looks at; so that is an equivalence. */
  lemma ObservationOrder(a: Observation, b: Observation)
    requires Groupable(a) && Groupable(b)
    ensures !ObservationLess(a, a) && (ObservationLess(a, b) ==> !ObservationLess(b, a))
    ensures !ObservationLess(a, b) && !ObservationLess(b, a) <==> SamePlace(a, b)
  {
    var k, m := KeyOf(a).value, KeyOf(b).value;
    LocationTotal(a.location, b.location);
    LocationTotal(b.location, a.location);
    BeforeTotal(Codes(k.base), Codes(m.base));
    BeforeTotal(Codes(m.base), Codes(k.base));
    if Codes(k.base) == Codes(m.base) { CodesInjective(k.base, m.base); }
  }

  lemma LocationTransitive(a: Location, b: Location, c: Location)
    requires LocationLess(a, b) && LocationLess(b, c)
    ensures LocationLess(a, c)
  {
    BeforeTotal(Place(a), Place(b));
    if Place(a) == Place(b) == Place(c) {
      BeforeTransitive(a.ports, b.ports, c.ports);
    } else if Place(a) != Place(b) && Place(b) != Place(c) {
      BeforeTransitive(Place(a), Place(b), Place(c));
      BeforeTotal(Place(b), Place(c));
    }
  }

  /** The order is transitive. */
  lemma ObservationTransitive(a: Observation, b: Observation, c: Observation)
    requires Groupable(a) && Groupable(b) && Groupable(c) && ObservationLess(a, b) && ObservationLess(b, c)
    ensures ObservationLess(a, c)
  {
    var x, y, z := KeyOf(a).value, KeyOf(b).value, KeyOf(c).value;
    BeforeTotal(Codes(x.base), Codes(y.base));
    if x.base != y.base && y.base != z.base {
      BeforeTransitive(Codes(x.base), Codes(y.base), Codes(z.base));
      BeforeTotal(Codes(y.base), Codes(z.base));
    } else if x.base == y.base == z.base && x.model == y.model == z.model && x.slot == y.slot == z.slot {
      LocationTransitive(a.location, b.location, c.location);
    }
  }

  // ---------------------------------------------------------------- grouping

  datatype GroupStatus = Ready | Incomplete | Duplicate | InvalidObservation

  /** An enclosure: the observations that belong to it, by index, and the first one seen for each bridge. */
  datatype Group = Group(base: string, model: nat, bridges: nat, candidates: seq<nat>, filled: seq<Option<nat>>, status: GroupStatus)

  predicate Listed(obs: seq<Observation>, c: nat) {
    c < |obs| && Groupable(obs[c])
  }

  predicate AllListed(obs: seq<Observation>, cs: seq<nat>) {
    forall i :: 0 <= i < |cs| ==> Listed(obs, cs[i])
  }

  function SlotOf(obs: seq<Observation>, c: nat): (slot: nat)
    requires Listed(obs, c)
    ensures slot < 2
  {
    KeyOf(obs[c]).value.slot
  }

  /** Two of the candidates claim the same bridge. */
  ghost predicate Clash(obs: seq<Observation>, members: set<nat>) {
    exists a, b :: a in members && b in members && a != b && Listed(obs, a) && Listed(obs, b) && SlotOf(obs, a) == SlotOf(obs, b)
  }

  ghost predicate Faulty(obs: seq<Observation>, members: set<nat>) {
    exists a :: a in members && Listed(obs, a) && StatusOf(obs[a]) != Usable
  }

  ghost predicate Present(obs: seq<Observation>, members: set<nat>, slot: nat) {
    exists a :: a in members && Listed(obs, a) && SlotOf(obs, a) == slot
  }

  /** The status of an enclosure depends only on the set of its candidates. */
  ghost function EnclosureStatus(obs: seq<Observation>, members: set<nat>, bridges: nat): GroupStatus {
    if Clash(obs, members) then Duplicate
    else if Faulty(obs, members) then InvalidObservation
    else if forall slot :: 0 <= slot < bridges ==> Present(obs, members, slot) then Ready
    else Incomplete
  }

  function Members(cs: seq<nat>): set<nat> {
    set c | c in cs
  }

  /** Every candidate belongs to the enclosure; a one-bridge enclosure has just one. */
  predicate Belongs(obs: seq<Observation>, g: Group) {
    && g.candidates != [] && AllListed(obs, g.candidates) && NoRepeats(g.candidates) && (g.bridges == 1 ==> |g.candidates| == 1)
    && forall c :: c in g.candidates ==> OfEnclosure(obs, c, g.base, g.model, g.bridges)
  }

  predicate OfEnclosure(obs: seq<Observation>, c: nat, base: string, model: nat, bridges: nat) {
    Listed(obs, c) && var k := KeyOf(obs[c]).value; k.base == base && k.model == model && k.bridges == bridges
  }

  /** The first of these candidates that claims the bridge. */
  ghost function FirstFor(obs: seq<Observation>, cs: seq<nat>, slot: nat): (r: Option<nat>)
    requires AllListed(obs, cs)
    ensures r.Some? <==> Present(obs, Members(cs), slot)
    ensures r.Some? ==> r.value in cs && Listed(obs, r.value) && SlotOf(obs, r.value) == slot
  {
    if cs == [] then None
    else
      var n := |cs| - 1;
      assert cs == cs[..n] + [cs[n]];
      var before := FirstFor(obs, cs[..n], slot);
      if before.Some? then before else if SlotOf(obs, cs[n]) == slot then Some(cs[n]) else None
  }

  lemma FirstForMore(obs: seq<Observation>, cs: seq<nat>, c: nat, slot: nat)
    requires AllListed(obs, cs) && Listed(obs, c)
    ensures AllListed(obs, cs + [c])
    ensures FirstFor(obs, cs + [c], slot) ==
              if FirstFor(obs, cs, slot).Some? then FirstFor(obs, cs, slot) else if SlotOf(obs, c) == slot then Some(c) else None
  {
    assert (cs + [c])[..|cs|] == cs;
  }

  /** Each bridge is taken by the first candidate that claims it. */
  ghost predicate FilledFirst(obs: seq<Observation>, cs: seq<nat>, filled: seq<Option<nat>>)
    requires AllListed(obs, cs)
  {
    |filled| == 2 && filled[0] == FirstFor(obs, cs, 0) && filled[1] == FirstFor(obs, cs, 1)
  }

  /** The state of a group while candidates are still being added. */
  ghost predicate Growing(obs: seq<Observation>, g: Group) {
    && Belongs(obs, g) && FilledFirst(obs, g.candidates, g.filled)
    && (g.status == Duplicate <==> Clash(obs, Members(g.candidates)))
    && (g.status == InvalidObservation <==> !Clash(obs, Members(g.candidates)) && Faulty(obs, Members(g.candidates)))
    && g.status != Ready
  }

  ghost predicate AllGrowing(obs: seq<Observation>, groups: seq<Group>) {
    forall i :: 0 <= i < |groups| ==> GrowingAt(obs, groups, i)
  }

  ghost predicate GrowingAt(obs: seq<Observation>, groups: seq<Group>, i: nat)
    requires i < |groups|
  {
    Growing(obs, groups[i])
  }

  /** No enclosure with two bridges appears twice. */
  predicate PairsDistinct(groups: seq<Group>) {
    forall i, j :: 0 <= i < j < |groups| ==> DistinctPair(groups[i], groups[j])
  }

  predicate DistinctPair(a: Group, b: Group) {
    a.bridges == 2 && b.bridges == 2 ==> a.base != b.base || a.model != b.model
  }

  /** A new group for its first candidate. */
  method Found(obs: seq<Observation>, index: nat) returns (g: Group)
    requires Listed(obs, index)
    ensures Growing(obs, g) && g.candidates == [index]
    ensures var k := KeyOf(obs[index]).value; g.base == k.base && g.model == k.model && g.bridges == k.bridges
  {
    var k := KeyOf(obs[index]).value;
    GroupableStatus(obs[index]);
    g := Group(k.base, k.model, k.bridges, [index], [None, None][k.slot := Some(index)],
               if StatusOf(obs[index]) != Usable then InvalidObservation else Incomplete);
    Alone(obs, index);
    assert forall c :: c in [index] ==> OfEnclosure(obs, c, g.base, g.model, g.bridges);
  }

  lemma Alone(obs: seq<Observation>, index: nat)
    requires Listed(obs, index)
    ensures AllListed(obs, [index]) && FilledFirst(obs, [index], [None, None][SlotOf(obs, index) := Some(index)])
    ensures !Clash(obs, Members([index])) && (Faulty(obs, Members([index])) <==> StatusOf(obs[index]) != Usable)
  {
    assert Members([index]) == {index};
    FirstForMore(obs, [], index, 0);
    FirstForMore(obs, [], index, 1);
    assert [] + [index] == [index];
  }

  /** One more candidate for a group. */
  method Join(obs: seq<Observation>, g: Group, index: nat) returns (r: Group)
    requires Growing(obs, g) && g.bridges != 1 && Listed(obs, index) && index !in g.candidates
    requires var k := KeyOf(obs[index]).value; k.base == g.base && k.model == g.model && k.bridges == g.bridges
    ensures Growing(obs, r) && r.candidates == g.candidates + [index]
    ensures r.base == g.base && r.model == g.model && r.bridges == g.bridges
  {
    var k := KeyOf(obs[index]).value;
    GroupableStatus(obs[index]);
    JoinedBelongs(obs, g, index);
    JoinedFills(obs, g.candidates, g.filled, index);
    MembersGrow(obs, g.candidates, index);
    r := g.(candidates := g.candidates + [index]);
    if r.filled[k.slot].Some? {
      r := r.(status := Duplicate);
    } else {
      r := r.(filled := r.filled[k.slot := Some(index)]);
    }
    if StatusOf(obs[index]) != Usable && r.status != Duplicate { r := r.(status := InvalidObservation); }
  }

  lemma JoinedBelongs(obs: seq<Observation>, g: Group, index: nat)
    requires Belongs(obs, g) && g.bridges != 1 && index !in g.candidates && OfEnclosure(obs, index, g.base, g.model, g.bridges)
    ensures Belongs(obs, g.(candidates := g.candidates + [index]))
  {
    var now := g.candidates + [index];
    forall c | c in now ensures OfEnclosure(obs, c, g.base, g.model, g.bridges) {
      if c != index { assert c in g.candidates; }
    }
  }

  lemma JoinedFills(obs: seq<Observation>, cs: seq<nat>, filled: seq<Option<nat>>, index: nat)
    requires AllListed(obs, cs) && FilledFirst(obs, cs, filled) && Listed(obs, index)
    ensures AllListed(obs, cs + [index])
    ensures var slot := SlotOf(obs, index);
            FilledFirst(obs, cs + [index], if filled[slot].Some? then filled else filled[slot := Some(index)])
  {
    FirstForMore(obs, cs, index, 0);
    FirstForMore(obs, cs, index, 1);
  }

  lemma MembersGrow(obs: seq<Observation>, cs: seq<nat>, index: nat)
    requires Listed(obs, index) && index !in cs
    ensures Members(cs + [index]) == Members(cs) + {index}
    ensures Clash(obs, Members(cs + [index])) <==> Clash(obs, Members(cs)) || Present(obs, Members(cs), SlotOf(obs, index))
    ensures Faulty(obs, Members(cs + [index])) <==> Faulty(obs, Members(cs)) || StatusOf(obs[index]) != Usable
    ensures forall slot :: Present(obs, Members(cs + [index]), slot) <==> Present(obs, Members(cs), slot) || slot == SlotOf(obs, index)
  {
    var m, n := Members(cs), Members(cs + [index]);
    assert n == m + {index};
    if Present(obs, m, SlotOf(obs, index)) {
      var a :| a in m && Listed(obs, a) && SlotOf(obs, a) == SlotOf(obs, index);
      assert a in n && index in n && a != index;
    }
  }

  /** All candidates, group by group. */
  function AllCandidates(groups: seq<Group>): seq<nat> {
    if groups == [] then [] else groups[0].candidates + AllCandidates(groups[1..])
  }

  lemma {:induction false} CandidatesOfNew(groups: seq<Group>, g: Group)
    ensures AllCandidates(groups + [g]) == AllCandidates(groups) + g.candidates
  {
    if groups == [] {
      assert AllCandidates([g]) == g.candidates + AllCandidates([g][1..]);
    } else {
      assert (groups + [g])[1..] == groups[1..] + [g];
      CandidatesOfNew(groups[1..], g);
    }
  }

  lemma {:induction false} CandidatesOfJoined(groups: seq<Group>, i: nat, g: Group, index: nat)
    requires i < |groups| && g.candidates == groups[i].candidates + [index]
    ensures multiset(AllCandidates(groups[i := g])) == multiset(AllCandidates(groups)) + multiset{index}
  {
    var now := groups[i := g];
    if i == 0 {
      assert now[1..] == groups[1..];
    } else {
      assert now[1..] == groups[1..][i - 1 := g] && now[0] == groups[0];
      CandidatesOfJoined(groups[1..], i - 1, g, index);
    }
  }

  lemma {:induction false} CandidateIsThere(groups: seq<Group>, i: nat, c: nat)
    requires i < |groups| && c in groups[i].candidates
    ensures c in AllCandidates(groups)
  {
    if i > 0 { CandidateIsThere(groups[1..], i - 1, c); }
  }

  /** The group of a two-bridge enclosure, if it exists already. */
  method FindGroup(groups: seq<Group>, k: Key) returns (found: Option<nat>)
    ensures found.Some? ==> found.value < |groups| && groups[found.value].base == k.base && groups[found.value].model == k.model && k.bridges != 1
    ensures found.None? && k.bridges != 1 ==>
              forall i :: 0 <= i < |groups| ==> groups[i].base != k.base || groups[i].model != k.model
  {
    if k.bridges == 1 { return None; }
    for i := 0 to |groups|
      invariant forall j :: 0 <= j < i ==> groups[j].base != k.base || groups[j].model != k.model
    {
      if groups[i].base == k.base && groups[i].model == k.model { return Some(i); }
    }
    found := None;
  }

  /** Models determine their bridge count. */
  lemma ModelBridges(a: Observation, b: Observation)
    requires Groupable(a) && Groupable(b) && KeyOf(a).value.model == KeyOf(b).value.model
    ensures KeyOf(a).value.bridges == KeyOf(b).value.bridges
  {
  }

  /** Nothing was added in front: the groups are headed as before, with at most a new one, for this candidate, behind. */
  predicate HeadsStay(groups: seq<Group>, now: seq<Group>, index: nat) {
    && |groups| <= |now| <= |groups| + 1
    && (forall i :: 0 <= i < |groups| ==> Heads(groups[i]) == Heads(now[i]))
    && (|now| > |groups| ==> Heads(now[|groups|]) == Some(index))
  }

  function Heads(g: Group): Option<nat> {
    if g.candidates == [] then None else Some(g.candidates[0])
  }

  lemma GrowingStays(obs: seq<Observation>, groups: seq<Group>, now: seq<Group>, i: nat)
    requires i < |groups| && i < |now| && GrowingAt(obs, groups, i) && now[i] == groups[i]
    ensures GrowingAt(obs, now, i)
  {
  }

  lemma PlacedNew(obs: seq<Observation>, groups: seq<Group>, g: Group, index: nat)
    requires AllGrowing(obs, groups) && PairsDistinct(groups) && Growing(obs, g) && g.candidates == [index]
    requires g.bridges != 1 ==> forall i :: 0 <= i < |groups| ==> groups[i].base != g.base || groups[i].model != g.model
    ensures AllGrowing(obs, groups + [g]) && PairsDistinct(groups + [g]) && HeadsStay(groups, groups + [g], index)
    ensures multiset(AllCandidates(groups + [g])) == multiset(AllCandidates(groups)) + multiset{index}
  {
    CandidatesOfNew(groups, g);
    var now := groups + [g];
    forall i | 0 <= i < |now| ensures GrowingAt(obs, now, i) {
      if i < |groups| { GrowingStays(obs, groups, now, i); }
    }
  }

  lemma DistinctThere(groups: seq<Group>, i: nat, g: Group, index: nat)
    requires PairsDistinct(groups) && i < |groups| && groups[i].candidates != []
    requires g.candidates == groups[i].candidates + [index] && g.base == groups[i].base && g.model == groups[i].model && g.bridges == groups[i].bridges
    ensures PairsDistinct(groups[i := g]) && HeadsStay(groups, groups[i := g], index)
  {
  }

  lemma PlacedThere(obs: seq<Observation>, groups: seq<Group>, i: nat, g: Group, index: nat)
    requires AllGrowing(obs, groups) && PairsDistinct(groups) && i < |groups| && groups[i].candidates != [] && Growing(obs, g)
    requires g.candidates == groups[i].candidates + [index] && g.base == groups[i].base && g.model == groups[i].model && g.bridges == groups[i].bridges
    ensures AllGrowing(obs, groups[i := g]) && PairsDistinct(groups[i := g]) && HeadsStay(groups, groups[i := g], index)
    ensures multiset(AllCandidates(groups[i := g])) == multiset(AllCandidates(groups)) + multiset{index}
  {
    CandidatesOfJoined(groups, i, g, index);
    DistinctThere(groups, i, g, index);
    var now := groups[i := g];
    forall j | 0 <= j < |now| ensures GrowingAt(obs, now, j) {
      if j != i { GrowingStays(obs, groups, now, j); }
    }
  }

  /** Puts one observation where it belongs. */
  method PlaceOne(obs: seq<Observation>, groups: seq<Group>, index: nat) returns (now: seq<Group>)
    requires AllGrowing(obs, groups) && PairsDistinct(groups) && Listed(obs, index) && index !in AllCandidates(groups)
    ensures AllGrowing(obs, now) && PairsDistinct(now) && HeadsStay(groups, now, index)
    ensures multiset(AllCandidates(now)) == multiset(AllCandidates(groups)) + multiset{index}
  {
    var k := KeyOf(obs[index]).value;
    var found := FindGroup(groups, k);
    if found.None? {
      var g := Found(obs, index);
      PlacedNew(obs, groups, g, index);
      now := groups + [g];
    } else {
      var i := found.value;
      JoinsThere(obs, groups, i, index);
      assert GrowingAt(obs, groups, i);
      var g := Join(obs, groups[i], index);
      PlacedThere(obs, groups, i, g, index);
      now := groups[i := g];
    }
  }

  lemma JoinsThere(obs: seq<Observation>, groups: seq<Group>, i: nat, index: nat)
    requires AllGrowing(obs, groups) && Listed(obs, index) && index !in AllCandidates(groups) && i < |groups|
    requires groups[i].model == KeyOf(obs[index]).value.model
    ensures index !in groups[i].candidates && groups[i].bridges == KeyOf(obs[index]).value.bridges
  {
    assert GrowingAt(obs, groups, i);
    if index in groups[i].candidates { CandidateIsThere(groups, i, index); }
    EnclosureBridges(obs, groups[i], index);
  }

  predicate NoRepeats(s: seq<nat>) {
    forall i, j :: 0 <= i < j < |s| ==> s[i] != s[j]
  }

  /** Ready or not, once all candidates are in. */
  method Complete(obs: seq<Observation>, g: Group) returns (r: Group)
    requires Growing(obs, g) && g.bridges <= 2
    ensures Completed(obs, g, r)
  {
    r := g;
    if g.status == Duplicate || g.status == InvalidObservation { return; }
    var complete := true;
    for slot := 0 to g.bridges
      invariant complete <==> forall t :: 0 <= t < slot ==> g.filled[t].Some?
    {
      complete := complete && g.filled[slot].Some?;
    }
    assert complete <==> forall t :: 0 <= t < g.bridges ==> Present(obs, Members(g.candidates), t);
    r := g.(status := if complete then Ready else Incomplete);
  }

  /** Every group has the status that its candidates call for. */
  ghost predicate Grouped(obs: seq<Observation>, groups: seq<Group>) {
    && PairsDistinct(groups)
    && forall i :: 0 <= i < |groups| ==> GroupedAt(obs, groups, i)
  }

  ghost predicate GroupedAt(obs: seq<Observation>, groups: seq<Group>, i: nat)
    requires i < |groups|
  {
    IsGroup(obs, groups[i])
  }

  /** The candidates belong together, each bridge is taken by the first that claims it, and the status is what they call for. */
  ghost predicate IsGroup(obs: seq<Observation>, g: Group) {
    && Belongs(obs, g) && FilledFirst(obs, g.candidates, g.filled)
    && g.status == EnclosureStatus(obs, Members(g.candidates), g.bridges)
  }

  /** The groups are headed by some of the first n observations, in the order in which these came. */
  ghost predicate HeadedInOrder(order: seq<nat>, n: nat, groups: seq<Group>, at: seq<nat>) {
    && |at| == |groups| && n <= |order|
    && (forall i :: 0 <= i < |at| ==> at[i] < n && Heads(groups[i]) == Some(order[at[i]]))
    && (forall i, j :: 0 <= i < j < |at| ==> at[i] < at[j])
  }

  lemma HeadsGrow(order: seq<nat>, n: nat, groups: seq<Group>, at: seq<nat>, now: seq<Group>) returns (at': seq<nat>)
    requires n < |order| && HeadedInOrder(order, n, groups, at) && HeadsStay(groups, now, order[n])
    ensures HeadedInOrder(order, n + 1, now, at')
  {
    at' := if |now| > |groups| then at + [n] else at;
  }

  /** Grouping, in whatever order the observations come. */
  method GroupInOrder(obs: seq<Observation>, order: seq<nat>) returns (groups: seq<Group>)
    requires AllListed(obs, order) && NoRepeats(order)
    ensures Grouped(obs, groups) && multiset(AllCandidates(groups)) == multiset(order)
    ensures exists at :: HeadedInOrder(order, |order|, groups, at)
  {
    groups := [];
    ghost var at := [];
    for i := 0 to |order|
      invariant AllGrowing(obs, groups) && PairsDistinct(groups)
      invariant multiset(AllCandidates(groups)) == multiset(order[..i]) && HeadedInOrder(order, i, groups, at)
    {
      NextInOrder(order, i, AllCandidates(groups));
      var now := PlaceOne(obs, groups, order[i]);
      at := HeadsGrow(order, i, groups, at, now);
      groups := now;
    }
    assert order[..|order|] == order;
    groups := CompleteAll(obs, groups);
    assert HeadedInOrder(order, |order|, groups, at);
  }

  lemma NextInOrder(order: seq<nat>, i: nat, before: seq<nat>)
    requires NoRepeats(order) && i < |order| && multiset(before) == multiset(order[..i])
    ensures order[i] !in before && multiset(order[..i + 1]) == multiset(before) + multiset{order[i]}
  {
    assert order[..i + 1] == order[..i] + [order[i]];
    assert order[i] !in order[..i];
    assert order[i] !in multiset(before);
  }

  method CompleteAll(obs: seq<Observation>, groups: seq<Group>) returns (now: seq<Group>)
    requires AllGrowing(obs, groups) && PairsDistinct(groups)
    ensures Grouped(obs, now) && AllCandidates(now) == AllCandidates(groups) && SameHeads(groups, now)
  {
    now := [];
    for i := 0 to |groups|
      invariant |now| == i && forall j :: 0 <= j < i ==> Completed(obs, groups[j], now[j])
    {
      assert GrowingAt(obs, groups, i);
      GroupableStatus(obs[groups[i].candidates[0]]);
      var g := Complete(obs, groups[i]);
      now := now + [g];
    }
    SameCandidates(obs, groups, now);
    forall i | 0 <= i < |now| ensures GroupedAt(obs, now, i) {
      assert Completed(obs, groups[i], now[i]);
    }
  }

  predicate SameHeads(groups: seq<Group>, now: seq<Group>) {
    |now| == |groups| && forall i :: 0 <= i < |groups| ==> Heads(now[i]) == Heads(groups[i])
  }

  /** Completion touches nothing but the status. */
  ghost predicate Completed(obs: seq<Observation>, g: Group, r: Group) {
    IsGroup(obs, r) && r == g.(status := r.status)
  }

  lemma {:induction false} SameCandidates(obs: seq<Observation>, groups: seq<Group>, now: seq<Group>)
    requires |now| == |groups| && forall j :: 0 <= j < |now| ==> Completed(obs, groups[j], now[j])
    ensures AllCandidates(now) == AllCandidates(groups)
  {
    if now != [] { SameCandidates(obs, groups[1..], now[1..]); }
  }

  // ------------------------------------------------------ the whole grouping

  predicate Rejected(o: Observation) {
    StatusOf(o) == Unsupported || StatusOf(o) == InvalidSerial
  }

  predicate AllRejected(obs: seq<Observation>, rejected: seq<nat>) {
    forall i :: 0 <= i < |rejected| ==> rejected[i] < |obs| && Rejected(obs[rejected[i]])
  }

  /** The first n observations, divided. */
  predicate Divided(obs: seq<Observation>, kept: seq<nat>, rejected: seq<nat>, n: nat) {
    && AllListed(obs, kept) && AllRejected(obs, rejected)
    && multiset(kept) + multiset(rejected) == multiset(Range(n))
    && NoRepeats(kept) && forall k :: 0 <= k < |kept| ==> kept[k] < n
  }

  lemma DivideOne(obs: seq<Observation>, kept: seq<nat>, rejected: seq<nat>, n: nat)
    requires Divided(obs, kept, rejected, n) && n < |obs|
    ensures if Rejected(obs[n]) then Divided(obs, kept, rejected + [n], n + 1) else Divided(obs, kept + [n], rejected, n + 1)
  {
    GroupableStatus(obs[n]);
    assert Range(n + 1) == Range(n) + [n];
    assert multiset(kept + [n]) == multiset(kept) + multiset{n};
    assert multiset(rejected + [n]) == multiset(rejected) + multiset{n};
  }

  /** The observations that can be grouped, and those that are rejected. */
  method Split(obs: seq<Observation>) returns (kept: seq<nat>, rejected: seq<nat>)
    ensures Divided(obs, kept, rejected, |obs|)
  {
    kept, rejected := [], [];
    for i: nat := 0 to |obs|
      invariant Divided(obs, kept, rejected, i)
    {
      DivideOne(obs, kept, rejected, i);
      if Rejected(obs[i]) { rejected := rejected + [i]; } else { kept := kept + [i]; }
    }
  }

  /** The numbers below n. */
  function Range(n: nat): seq<nat> {
    if n == 0 then [] else Range(n - 1) + [n - 1]
  }

  predicate Ordered(obs: seq<Observation>, s: seq<nat>) {
    AllListed(obs, s) && forall i, j :: 0 <= i < j < |s| ==> InOrder(obs, s, i, j)
  }

  predicate InOrder(obs: seq<Observation>, s: seq<nat>, i: nat, j: nat)
    requires AllListed(obs, s) && i < |s| && j < |s|
  {
    !ObservationLess(obs[s[j]], obs[s[i]])
  }

  /** Sorting by the observation order. */
  method Sort(obs: seq<Observation>, s: seq<nat>) returns (r: seq<nat>)
    requires AllListed(obs, s)
    ensures Ordered(obs, r) && multiset(r) == multiset(s)
  {
    r := [];
    for i := 0 to |s|
      invariant Ordered(obs, r) && multiset(r) == multiset(s[..i])
    {
      assert s[..i + 1] == s[..i] + [s[i]];
      r := Insert(obs, r, s[i]);
    }
    assert s[..|s|] == s;
  }

  method Insert(obs: seq<Observation>, s: seq<nat>, x: nat) returns (r: seq<nat>)
    requires Ordered(obs, s) && Listed(obs, x)
    ensures Ordered(obs, r) && multiset(r) == multiset(s) + multiset{x}
  {
    var n := PlaceFor(obs, s, x);
    InsertKeeps(obs, s, x, n);
    InsertAdds(s, x, n);
    r := s[..n] + [x] + s[n..];
  }

  lemma InsertAdds(s: seq<nat>, x: nat, n: nat)
    requires n <= |s|
    ensures multiset(s[..n] + [x] + s[n..]) == multiset(s) + multiset{x}
  {
    assert s == s[..n] + s[n..];
  }

  /** Where the observation goes: behind everything it does not come before. */
  method PlaceFor(obs: seq<Observation>, s: seq<nat>, x: nat) returns (n: nat)
    requires AllListed(obs, s) && Listed(obs, x)
    ensures n <= |s| && AllBelow(obs, x, s, n) && (n > 0 ==> !ObservationLess(obs[x], obs[s[n - 1]]))
  {
    n := |s|;
    while n > 0 && ObservationLess(obs[x], obs[s[n - 1]])
      invariant n <= |s| && AllBelow(obs, x, s, n)
    {
      n := n - 1;
    }
  }

  /** The observation comes before all from position n on. */
  predicate AllBelow(obs: seq<Observation>, x: nat, s: seq<nat>, n: nat)
    requires AllListed(obs, s) && Listed(obs, x)
  {
    forall k :: n <= k < |s| ==> ObservationLess(obs[x], obs[s[k]])
  }

  lemma InsertKeeps(obs: seq<Observation>, s: seq<nat>, x: nat, n: nat)
    requires Ordered(obs, s) && Listed(obs, x) && n <= |s|
    requires n > 0 ==> !ObservationLess(obs[x], obs[s[n - 1]])
    requires AllBelow(obs, x, s, n)
    ensures Ordered(obs, s[..n] + [x] + s[n..])
  {
    var r := s[..n] + [x] + s[n..];
    assert forall i :: 0 <= i < |r| ==> r[i] == At(s, x, n, i);
    assert AllListed(obs, r);
    forall i, j | 0 <= i < j < |r| ensures InOrder(obs, r, i, j) {
      InsertPair(obs, s, x, n, i, j);
    }
  }

  function At(s: seq<nat>, x: nat, n: nat, i: nat): nat
    requires n <= |s| && i <= |s|
  {
    if i < n then s[i] else if i == n then x else s[i - 1]
  }

  lemma InsertPair(obs: seq<Observation>, s: seq<nat>, x: nat, n: nat, i: nat, j: nat)
    requires Ordered(obs, s) && Listed(obs, x) && n <= |s| && i < j <= |s|
    requires n > 0 ==> !ObservationLess(obs[x], obs[s[n - 1]])
    requires AllBelow(obs, x, s, n)
    ensures !ObservationLess(obs[At(s, x, n, j)], obs[At(s, x, n, i)])
  {
    if j == n {
      NotBelow(obs, s, x, n, i);
    } else if i == n {
      ObservationOrder(obs[x], obs[s[j - 1]]);
    } else {
      assert InOrder(obs, s, if i < n then i else i - 1, if j < n then j else j - 1);
    }
  }

  /** What does not come before the last of a sorted front comes before none of it. */
  lemma NotBelow(obs: seq<Observation>, s: seq<nat>, x: nat, n: nat, i: nat)
    requires Ordered(obs, s) && Listed(obs, x) && i < n <= |s| && !ObservationLess(obs[x], obs[s[n - 1]])
    ensures !ObservationLess(obs[x], obs[s[i]])
  {
    assert i < n - 1 ==> InOrder(obs, s, i, n - 1);
    if i < n - 1 && ObservationLess(obs[x], obs[s[i]]) { Chain(obs[x], obs[s[i]], obs[s[n - 1]]); }
  }

  /** Below something not above c is below c. */
  lemma Chain(a: Observation, b: Observation, c: Observation)
    requires Groupable(a) && Groupable(b) && Groupable(c) && ObservationLess(a, b) && !ObservationLess(c, b)
    ensures ObservationLess(a, c)
  {
    ObservationOrder(b, c);
    ObservationOrder(a, b);
    if ObservationLess(b, c) { ObservationTransitive(a, b, c); }
  }

  /** The order in which the groups are reported: by serial, model and the place of the first candidate. */
  predicate GroupLess(obs: seq<Observation>, a: Group, b: Group)
    requires Belongs(obs, a) && Belongs(obs, b)
  {
    if a.base != b.base then Before(Codes(a.base), Codes(b.base))
    else if a.model != b.model then a.model < b.model
    else LocationLess(obs[a.candidates[0]].location, obs[b.candidates[0]].location)
  }

  /** No group comes before one in front of it, so there is nothing left to sort. */
  ghost predicate GroupsOrdered(obs: seq<Observation>, groups: seq<Group>)
    requires Grouped(obs, groups)
  {
    forall i, j :: 0 <= i < j < |groups| ==> GroupsInOrder(obs, groups, i, j)
  }

  ghost predicate GroupsInOrder(obs: seq<Observation>, groups: seq<Group>, i: nat, j: nat)
    requires Grouped(obs, groups) && i < |groups| && j < |groups|
  {
    assert GroupedAt(obs, groups, i) && GroupedAt(obs, groups, j);
    !GroupLess(obs, groups[j], groups[i])
  }

  /** Two groups compare like their first candidates, unless they are of one two-bridge enclosure. */
  lemma GroupsCompare(obs: seq<Observation>, a: Group, b: Group)
    requires Belongs(obs, a) && Belongs(obs, b) && GroupLess(obs, a, b)
    requires a.bridges == 2 && b.bridges == 2 ==> a.base != b.base || a.model != b.model
    ensures ObservationLess(obs[a.candidates[0]], obs[b.candidates[0]])
  {
    var x, y := a.candidates[0], b.candidates[0];
    assert OfEnclosure(obs, x, a.base, a.model, a.bridges) && OfEnclosure(obs, y, b.base, b.model, b.bridges);
    GroupableStatus(obs[x]);
    GroupableStatus(obs[y]);
    if a.model == b.model { ModelBridges(obs[x], obs[y]); }
  }

  lemma HeadsOrdered(obs: seq<Observation>, order: seq<nat>, groups: seq<Group>)
    requires Ordered(obs, order) && Grouped(obs, groups) && exists at :: HeadedInOrder(order, |order|, groups, at)
    ensures GroupsOrdered(obs, groups)
  {
    var at :| HeadedInOrder(order, |order|, groups, at);
    forall i, j | 0 <= i < j < |groups| ensures GroupsInOrder(obs, groups, i, j) {
      assert GroupedAt(obs, groups, i) && GroupedAt(obs, groups, j);
      assert at[i] < at[j] && InOrder(obs, order, at[i], at[j]);
      assert DistinctPair(groups[i], groups[j]);
      if GroupLess(obs, groups[j], groups[i]) { GroupsCompare(obs, groups[j], groups[i]); }
    }
  }

  /** Groups all observations: each ends up in exactly one group or among the rejected. */
  method GroupDevices(obs: seq<Observation>) returns (groups: seq<Group>, rejected: seq<nat>)
    ensures Grouped(obs, groups)
    ensures multiset(AllCandidates(groups)) + multiset(rejected) == multiset(Range(|obs|))
    ensures AllRejected(obs, rejected) && CoversAll(obs, groups) && GroupsOrdered(obs, groups)
  {
    var kept: seq<nat>;
    kept, rejected := Split(obs);
    var sorted := Sort(obs, kept);
    SameElements(kept, sorted);
    groups := GroupInOrder(obs, sorted);
    HeadsOrdered(obs, sorted, groups);
    PartitionCovers(obs, groups, rejected);
  }

  lemma SameElements(a: seq<nat>, b: seq<nat>)
    requires NoRepeats(a) && multiset(a) == multiset(b)
    ensures NoRepeats(b)
  {
    OnceEach(a);
    forall i, j | 0 <= i < j < |b| ensures b[i] != b[j] {
      TwiceCounts(b, i, j);
      assert b[i] in multiset(a);
    }
  }

  lemma {:induction false} OnceEach(a: seq<nat>)
    requires NoRepeats(a)
    ensures forall x :: x in a ==> multiset(a)[x] == 1
  {
    if a != [] {
      var n := |a| - 1;
      OnceEach(a[..n]);
      assert a == a[..n] + [a[n]];
      assert a[n] !in a[..n];
    }
  }

  lemma TwiceCounts(b: seq<nat>, i: nat, j: nat)
    requires i < j < |b|
    ensures b[i] == b[j] ==> multiset(b)[b[i]] >= 2
  {
    assert b == b[..j] + [b[j]] + b[j + 1..];
    assert b[i] in b[..j];
  }

  // ------------------------------------------------- independence of the order

  /** Every observation that can be grouped is in some group. */
  ghost predicate CoversAll(obs: seq<Observation>, groups: seq<Group>) {
    forall c: nat :: Listed(obs, c) ==> c in AllCandidates(groups)
  }

  lemma {:induction false} RangeHolds(n: nat, c: nat)
    requires c < n
    ensures c in Range(n)
  {
    if c < n - 1 { RangeHolds(n - 1, c); }
  }

  lemma PartitionCovers(obs: seq<Observation>, groups: seq<Group>, rejected: seq<nat>)
    requires multiset(AllCandidates(groups)) + multiset(rejected) == multiset(Range(|obs|)) && AllRejected(obs, rejected)
    ensures CoversAll(obs, groups)
  {
    forall c: nat | Listed(obs, c) ensures c in AllCandidates(groups) {
      RangeHolds(|obs|, c);
      GroupableStatus(obs[c]);
      assert c in multiset(Range(|obs|));
      assert c in multiset(AllCandidates(groups)) || c in multiset(rejected);
    }
  }

  lemma {:induction false} WhereIs(groups: seq<Group>, c: nat) returns (i: nat)
    requires c in AllCandidates(groups)
    ensures i < |groups| && c in groups[i].candidates
  {
    if c in groups[0].candidates {
      i := 0;
    } else {
      var j := WhereIs(groups[1..], c);
      i := j + 1;
    }
  }

  /** A two-bridge group holds exactly the observations of its enclosure. */
  lemma HoldsItsEnclosure(obs: seq<Observation>, groups: seq<Group>, i: nat, c: nat)
    requires Grouped(obs, groups) && CoversAll(obs, groups) && i < |groups| && groups[i].bridges == 2
    ensures c in Members(groups[i].candidates) <==>
              Listed(obs, c) && KeyOf(obs[c]).value.base == groups[i].base && KeyOf(obs[c]).value.model == groups[i].model
  {
    assert GroupedAt(obs, groups, i);
    if c in groups[i].candidates { assert OfEnclosure(obs, c, groups[i].base, groups[i].model, groups[i].bridges); }
    if Listed(obs, c) && KeyOf(obs[c]).value.base == groups[i].base && KeyOf(obs[c]).value.model == groups[i].model {
      var j := WhereIs(groups, c);
      assert GroupedAt(obs, groups, j);
      assert OfEnclosure(obs, c, groups[j].base, groups[j].model, groups[j].bridges);
      EnclosureBridges(obs, groups[i], c);
      assert i < j ==> DistinctPair(groups[i], groups[j]);
      assert j < i ==> DistinctPair(groups[j], groups[i]);
    }
  }

  lemma EnclosureBridges(obs: seq<Observation>, g: Group, c: nat)
    requires Belongs(obs, g) && Listed(obs, c) && KeyOf(obs[c]).value.model == g.model
    ensures KeyOf(obs[c]).value.bridges == g.bridges
  {
    assert OfEnclosure(obs, g.candidates[0], g.base, g.model, g.bridges);
    ModelBridges(obs[g.candidates[0]], obs[c]);
  }

  /** The same observations in another order; `there` and `back` say which went where. */
  ghost predicate Reordered(obs: seq<Observation>, obs': seq<Observation>, there: map<nat, nat>, back: map<nat, nat>) {
    && |obs| == |obs'|
    && (forall i: nat :: i < |obs| ==> i in there && there[i] < |obs'| && obs'[there[i]] == obs[i])
    && (forall j: nat :: j < |obs'| ==> j in back && back[j] < |obs|)
    && (forall i: nat :: i < |obs| ==> back[there[i]] == i)
    && (forall j: nat :: j < |obs'| ==> there[back[j]] == j)
  }

  lemma ClashCarries(obs: seq<Observation>, obs': seq<Observation>, there: map<nat, nat>, back: map<nat, nat>, m: set<nat>, m': set<nat>)
    requires Reordered(obs, obs', there, back) && Clash(obs, m)
    requires forall c :: c in m ==> Listed(obs, c) && there[c] in m'
    ensures Clash(obs', m')
  {
    var a, b :| a in m && b in m && a != b && Listed(obs, a) && Listed(obs, b) && SlotOf(obs, a) == SlotOf(obs, b);
    assert back[there[a]] == a && back[there[b]] == b;
    assert Listed(obs', there[a]) && Listed(obs', there[b]) && SlotOf(obs', there[a]) == SlotOf(obs', there[b]);
  }

  lemma FaultyCarries(obs: seq<Observation>, obs': seq<Observation>, there: map<nat, nat>, back: map<nat, nat>, m: set<nat>, m': set<nat>)
    requires Reordered(obs, obs', there, back) && Faulty(obs, m)
    requires forall c :: c in m ==> Listed(obs, c) && there[c] in m'
    ensures Faulty(obs', m')
  {
    var a :| a in m && Listed(obs, a) && StatusOf(obs[a]) != Usable;
    assert Listed(obs', there[a]);
  }

  lemma PresentCarries(obs: seq<Observation>, obs': seq<Observation>, there: map<nat, nat>, back: map<nat, nat>, m: set<nat>, m': set<nat>, slot: nat)
    requires Reordered(obs, obs', there, back) && Present(obs, m, slot)
    requires forall c :: c in m ==> Listed(obs, c) && there[c] in m'
    ensures Present(obs', m', slot)
  {
    var a :| a in m && Listed(obs, a) && SlotOf(obs, a) == slot;
    assert Listed(obs', there[a]);
  }

  /** What the members of one set show, those of the other show too. */
  lemma StatusCarries(obs: seq<Observation>, obs': seq<Observation>, there: map<nat, nat>, back: map<nat, nat>, m: set<nat>, m': set<nat>)
    requires Reordered(obs, obs', there, back)
    requires forall c :: c in m ==> Listed(obs, c) && there[c] in m'
    ensures Clash(obs, m) ==> Clash(obs', m')
    ensures Faulty(obs, m) ==> Faulty(obs', m')
    ensures forall slot :: Present(obs, m, slot) ==> Present(obs', m', slot)
  {
    if Clash(obs, m) { ClashCarries(obs, obs', there, back, m, m'); }
    if Faulty(obs, m) { FaultyCarries(obs, obs', there, back, m, m'); }
    forall slot | Present(obs, m, slot) ensures Present(obs', m', slot) {
      PresentCarries(obs, obs', there, back, m, m', slot);
    }
  }

  lemma MembersCarry(obs: seq<Observation>, obs': seq<Observation>, there: map<nat, nat>, back: map<nat, nat>,
                     groups: seq<Group>, groups': seq<Group>, i: nat, j: nat)
    requires Reordered(obs, obs', there, back)
    requires Grouped(obs, groups) && CoversAll(obs, groups) && Grouped(obs', groups') && CoversAll(obs', groups')
    requires i < |groups| && j < |groups'| && groups[i].bridges == 2 && groups'[j].bridges == 2
    requires groups[i].base == groups'[j].base && groups[i].model == groups'[j].model
    ensures forall c :: c in Members(groups[i].candidates) ==> Listed(obs, c) && there[c] in Members(groups'[j].candidates)
  {
    forall c | c in Members(groups[i].candidates) ensures Listed(obs, c) && there[c] in Members(groups'[j].candidates) {
      HoldsItsEnclosure(obs, groups, i, c);
      HoldsItsEnclosure(obs', groups', j, there[c]);
    }
  }

  lemma Backwards(obs: seq<Observation>, obs': seq<Observation>, there: map<nat, nat>, back: map<nat, nat>)
    requires Reordered(obs, obs', there, back)
    ensures Reordered(obs', obs, back, there)
  {
    forall j: nat | j < |obs'| ensures obs[back[j]] == obs'[j] {
      assert obs'[there[back[j]]] == obs[back[j]];
    }
  }

  /** However the observations are ordered, a two-bridge enclosure gets the same status. */
  lemma SameStatus(obs: seq<Observation>, obs': seq<Observation>, there: map<nat, nat>, back: map<nat, nat>,
                   groups: seq<Group>, groups': seq<Group>, i: nat, j: nat)
    requires Reordered(obs, obs', there, back)
    requires Grouped(obs, groups) && CoversAll(obs, groups) && Grouped(obs', groups') && CoversAll(obs', groups')
    requires i < |groups| && j < |groups'| && groups[i].bridges == 2 && groups'[j].bridges == 2
    requires groups[i].base == groups'[j].base && groups[i].model == groups'[j].model
    ensures groups[i].status == groups'[j].status
  {
    var m, m' := Members(groups[i].candidates), Members(groups'[j].candidates);
    Backwards(obs, obs', there, back);
    MembersCarry(obs, obs', there, back, groups, groups', i, j);
    MembersCarry(obs', obs, back, there, groups', groups, j, i);
    StatusCarries(obs, obs', there, back, m, m');
    StatusCarries(obs', obs, back, there, m', m);
    assert GroupedAt(obs, groups, i) && GroupedAt(obs', groups', j);
  }

  /** The two-bridge enclosures with their statuses. */
  ghost function Enclosures(groups: seq<Group>): set<(string, nat, GroupStatus)> {
    set g | g in groups && g.bridges == 2 :: (g.base, g.model, g.status)
  }

  /** An enclosure in one grouping is in the other. */
  lemma EnclosureRecurs(obs: seq<Observation>, obs': seq<Observation>, there: map<nat, nat>, back: map<nat, nat>,
                        groups: seq<Group>, groups': seq<Group>, i: nat) returns (j: nat)
    requires Reordered(obs, obs', there, back)
    requires Grouped(obs, groups) && CoversAll(obs, groups) && Grouped(obs', groups') && CoversAll(obs', groups')
    requires i < |groups| && groups[i].bridges == 2
    ensures j < |groups'| && groups'[j].bridges == 2 && groups'[j].base == groups[i].base && groups'[j].model == groups[i].model
    ensures groups'[j].status == groups[i].status
  {
    var g := groups[i];
    assert GroupedAt(obs, groups, i);
    assert OfEnclosure(obs, g.candidates[0], g.base, g.model, g.bridges);
    var c := there[g.candidates[0]];
    assert Listed(obs', c);
    j := WhereIs(groups', c);
    assert GroupedAt(obs', groups', j);
    assert OfEnclosure(obs', c, groups'[j].base, groups'[j].model, groups'[j].bridges);
    SameStatus(obs, obs', there, back, groups, groups', i, j);
  }

  lemma EnclosuresRecur(obs: seq<Observation>, obs': seq<Observation>, there: map<nat, nat>, back: map<nat, nat>,
                        groups: seq<Group>, groups': seq<Group>)
    requires Reordered(obs, obs', there, back)
    requires Grouped(obs, groups) && CoversAll(obs, groups) && Grouped(obs', groups') && CoversAll(obs', groups')
    ensures Enclosures(groups) <= Enclosures(groups')
  {
    forall e | e in Enclosures(groups) ensures e in Enclosures(groups') {
      var i :| 0 <= i < |groups| && groups[i].bridges == 2 && (groups[i].base, groups[i].model, groups[i].status) == e;
      var j := EnclosureRecurs(obs, obs', there, back, groups, groups', i);
      assert groups'[j] in groups';
    }
  }

  /** However the observations are ordered, the two-bridge enclosures found and their statuses are the same. */
  lemma OrderDoesNotMatter(obs: seq<Observation>, obs': seq<Observation>, there: map<nat, nat>, back: map<nat, nat>,
                           groups: seq<Group>, groups': seq<Group>)
    requires Reordered(obs, obs', there, back)
    requires Grouped(obs, groups) && CoversAll(obs, groups) && Grouped(obs', groups') && CoversAll(obs', groups')
    ensures Enclosures(groups) == Enclosures(groups')
  {
    EnclosuresRecur(obs, obs', there, back, groups, groups');
    Backwards(obs, obs', there, back);
    EnclosuresRecur(obs', obs, back, there, groups', groups);
  }

  // --------------------------------------------------------------- selection

  /** A serial that could name an enclosure. */
  predicate ValidInstance(s: string) {
    (|s| == 14 || |s| == 15) && AllDigits(s)
  }

  /** Exactly one group is of this kind, and it is the i-th. */
  predicate OnlyOne(groups: seq<Group>, kind: Group -> bool, i: nat) {
    i < |groups| && kind(groups[i]) && forall j :: 0 <= j < |groups| && kind(groups[j]) ==> j == i
  }

  function CountKind(groups: seq<Group>, kind: Group -> bool): nat {
    if groups == [] then 0 else CountKind(groups[..|groups| - 1], kind) + if kind(groups[|groups| - 1]) then 1 else 0
  }

  lemma {:induction false} CountMeans(groups: seq<Group>, kind: Group -> bool)
    ensures CountKind(groups, kind) == 0 <==> forall j :: 0 <= j < |groups| ==> !kind(groups[j])
    ensures CountKind(groups, kind) == 1 <==> exists i: nat :: i < |groups| && OnlyOne(groups, kind, i)
  {
    if groups != [] {
      var n := |groups| - 1;
      var front := groups[..n];
      CountMeans(front, kind);
      assert forall j :: 0 <= j < n ==> front[j] == groups[j];
      if CountKind(groups, kind) == 1 {
        if kind(groups[n]) {
          assert OnlyOne(groups, kind, n);
        } else {
          var i :| 0 <= i < n && OnlyOne(front, kind, i);
          assert OnlyOne(groups, kind, i);
        }
      }
      if i :| 0 <= i < |groups| && OnlyOne(groups, kind, i) {
        if i == n {
          assert forall j :: 0 <= j < n ==> !kind(front[j]);
        } else {
          assert OnlyOne(front, kind, i);
        }
      }
    }
  }

  predicate IsReady(g: Group) {
    g.status == Ready
  }

  function Named(base: string): Group -> bool {
    (g: Group) => g.base == base
  }

  function NamedReady(base: string): Group -> bool {
    (g: Group) => g.base == base && g.status == Ready
  }

  lemma CountNext(groups: seq<Group>, kind: Group -> bool, i: nat)
    requires i < |groups|
    ensures CountKind(groups[..i + 1], kind) == CountKind(groups[..i], kind) + if kind(groups[i]) then 1 else 0
  {
    assert groups[..i + 1][..i] == groups[..i];
  }

  /** Counts of the groups that are ready, that bear the serial, and both; and the last group that qualifies. */
  method Tally(groups: seq<Group>, base: string) returns (ready: nat, named: nat, both: nat, selected: nat)
    ensures ready == CountKind(groups, IsReady)
    ensures base != "" ==> named == CountKind(groups, Named(base)) && both == CountKind(groups, NamedReady(base))
    ensures base == "" && ready > 0 ==> selected < |groups| && IsReady(groups[selected])
    ensures base != "" && both > 0 ==> selected < |groups| && NamedReady(base)(groups[selected])
  {
    ready, named, both, selected := 0, 0, 0, 0;
    for i := 0 to |groups|
      invariant ready == CountKind(groups[..i], IsReady)
      invariant base != "" ==> named == CountKind(groups[..i], Named(base)) && both == CountKind(groups[..i], NamedReady(base))
      invariant base == "" && ready > 0 ==> selected < |groups| && IsReady(groups[selected])
      invariant base != "" && both > 0 ==> selected < |groups| && NamedReady(base)(groups[selected])
    {
      CountNext(groups, IsReady, i);
      CountNext(groups, Named(base), i);
      CountNext(groups, NamedReady(base), i);
      if base != "" && groups[i].base == base {
        named := named + 1;
        if groups[i].status == Ready { both := both + 1; }
      }
      if groups[i].status == Ready {
        ready := ready + 1;
        if base == "" || groups[i].base == base { selected := i; }
      }
    }
    assert groups[..|groups|] == groups;
  }

  predicate NoneIs(groups: seq<Group>, kind: Group -> bool) {
    forall j :: 0 <= j < |groups| ==> !kind(groups[j])
  }

  /** The one group meant: by serial, it must be the only one of that serial and ready; without, the only ready one. */
  method SelectReady(groups: seq<Group>, base: string) returns (r: Result<nat>)
    ensures base != "" && !ValidInstance(base) ==> r == Failure(INVALID_ARGUMENT)
    ensures base == "" ==> (r == Failure(NOT_FOUND) <==> NoneIs(groups, IsReady))
    ensures base == "" ==> if r.Success? then OnlyOne(groups, IsReady, r.value) else forall i: nat :: !OnlyOne(groups, IsReady, i)
    ensures ValidInstance(base) ==> (r == Failure(NOT_FOUND) <==> NoneIs(groups, Named(base)))
    ensures ValidInstance(base) ==>
              if r.Success? then OnlyOne(groups, Named(base), r.value) && IsReady(groups[r.value])
              else forall i: nat :: OnlyOne(groups, Named(base), i) ==> !IsReady(groups[i])
  {
    if base != "" && !ValidInstance(base) { return Failure(INVALID_ARGUMENT); }
    var ready, named, both, selected := Tally(groups, base);
    if base != "" {
      CountMeans(groups, Named(base));
      CountMeans(groups, NamedReady(base));
      OneOfBoth(groups, base);
      if named == 0 { return Failure(NOT_FOUND); }
      return if named == 1 && both == 1 then Success(selected) else Failure(INVALID_ARGUMENT);
    }
    CountMeans(groups, IsReady);
    if ready == 0 { return Failure(NOT_FOUND); }
    r := if ready == 1 then Success(selected) else Failure(INVALID_ARGUMENT);
  }

  lemma OneOfBoth(groups: seq<Group>, base: string)
    ensures forall i: nat :: OnlyOne(groups, Named(base), i) && IsReady(groups[i]) ==> OnlyOne(groups, NamedReady(base), i)
  {
  }

  /** A USB path as written by the user: bus and address, or bus and ports. */
  datatype Path = Path(bus: nat, byAddress: bool, address: nat, ports: seq<nat>)

  predicate PathMatches(path: Path, l: Location) {
    && l.bus == Some(path.bus)
    && if path.byAddress then l.address == Some(path.address)
       else l.portCount == |path.ports| && path.ports != [] && |path.ports| <= |l.ports| && l.ports[..|path.ports|] == path.ports
  }

  /** The c-th candidate of the g-th group is at the path. */
  predicate Hit(obs: seq<Observation>, groups: seq<Group>, path: Path, g: nat, c: nat) {
    g < |groups| && c < |groups[g].candidates| && groups[g].candidates[c] < |obs| && PathMatches(path, obs[groups[g].candidates[c]].location)
  }

  ghost predicate SoleHit(obs: seq<Observation>, groups: seq<Group>, path: Path, g: nat, c: nat) {
    Hit(obs, groups, path, g, c) && forall a: nat, b: nat :: Hit(obs, groups, path, a, b) ==> a == g && b == c
  }

  ghost predicate HitsBefore(obs: seq<Observation>, groups: seq<Group>, path: Path, hits: set<(nat, nat)>, g: nat, c: nat) {
    forall a: nat, b: nat :: (a, b) in hits <==> Hit(obs, groups, path, a, b) && (a < g || (a == g && b < c))
  }

  /** Looks for the candidate at a path; there must be exactly one. */
  method FindPath(obs: seq<Observation>, groups: seq<Group>, path: Path) returns (r: Result<(nat, nat)>)
    requires forall i :: 0 <= i < |groups| ==> AllListed(obs, groups[i].candidates)
    ensures r.Success? ==> SoleHit(obs, groups, path, r.value.0, r.value.1)
    ensures r.Failure? ==> forall a: nat, b: nat :: !SoleHit(obs, groups, path, a, b)
    ensures r == Failure(NOT_FOUND) <==> forall a: nat, b: nat :: !Hit(obs, groups, path, a, b)
  {
    var matches, at := 0, (0, 0);
    ghost var hits: set<(nat, nat)> := {};
    for g: nat := 0 to |groups|
      invariant HitsBefore(obs, groups, path, hits, g, 0) && matches == |hits| && (matches > 0 ==> at in hits)
    {
      for c: nat := 0 to |groups[g].candidates|
        invariant HitsBefore(obs, groups, path, hits, g, c) && matches == |hits| && (matches > 0 ==> at in hits)
      {
        if PathMatches(path, obs[groups[g].candidates[c]].location) {
          matches, at := matches + 1, (g, c);
          hits := hits + {(g, c)};
        }
      }
    }
    if matches == 0 { return Failure(NOT_FOUND); }
    TwoHits(hits, at);
    r := if matches == 1 then Success(at) else Failure(INVALID_ARGUMENT);
  }

  lemma TwoHits(hits: set<(nat, nat)>, at: (nat, nat))
    requires at in hits
    ensures |hits| == 1 ==> hits == {at}
    ensures |hits| > 1 ==> exists other :: other in hits && other != at
  {
    var rest := hits - {at};
    assert hits == rest + {at};
    if |hits| > 1 {
      assert rest != {};
      var other :| other in rest;
    }
  }

  datatype Selection = Selection(group: nat, indices: seq<Option<nat>>)

  /** The candidates for the bridges of an enclosure: each usable and in its own place. */
  ghost predicate Bridges(obs: seq<Observation>, g: Group, indices: seq<Option<nat>>) {
    && |indices| == 2 && g.bridges <= 2 && (g.bridges == 1 ==> indices[1].None?)
    && forall slot :: 0 <= slot < g.bridges ==> Bridge(obs, g, slot, indices[slot])
  }

  ghost predicate Bridge(obs: seq<Observation>, g: Group, slot: nat, index: Option<nat>) {
    index.Some? && index.value in g.candidates && Listed(obs, index.value) && SlotOf(obs, index.value) == slot && StatusOf(obs[index.value]) == Usable
  }

  /** The bridge in place i of a two-bridge enclosure is the one whose serial is that of the enclosure and the digit i + 1. */
  lemma BridgesAreNumbered(obs: seq<Observation>, g: Group, indices: seq<Option<nat>>)
    requires Belongs(obs, g) && Bridges(obs, g, indices)
    ensures g.bridges == 2 ==>
              indices[0].Some? && indices[1].Some? && obs[indices[0].value].serial == g.base + "1" && obs[indices[1].value].serial == g.base + "2"
    ensures g.bridges == 1 ==> indices[0].Some? && obs[indices[0].value].serial == g.base
  {
    assert g.bridges >= 1 ==> Bridge(obs, g, 0, indices[0]);
    if g.bridges >= 1 { Numbered(obs, g, 0, indices[0]); }
    if g.bridges == 2 {
      assert Bridge(obs, g, 1, indices[1]);
      Numbered(obs, g, 1, indices[1]);
    }
  }

  lemma Numbered(obs: seq<Observation>, g: Group, slot: nat, index: Option<nat>)
    requires Belongs(obs, g) && Bridge(obs, g, slot, index)
    ensures g.bridges == 2 ==> obs[index.value].serial == g.base + (if slot == 0 then "1" else "2")
    ensures g.bridges == 1 ==> obs[index.value].serial == g.base
  {
    var o := obs[index.value];
    assert OfEnclosure(obs, index.value, g.base, g.model, g.bridges);
    assert |o.serial| == 15 && o.serial == o.serial[..14] + [o.serial[14]];
  }

  /** The path names exactly one candidate, of the g-th group, and it is this one. */
  ghost predicate Names(obs: seq<Observation>, groups: seq<Group>, path: Path, g: nat, index: Option<nat>)
    requires g < |groups|
  {
    index.Some? && exists c: nat :: SoleHit(obs, groups, path, g, c) && groups[g].candidates[c] == index.value
  }

  /** One path selects a ready enclosure, with all its bridges; two paths select the two bridges of one, one each. */
  ghost predicate Selected(obs: seq<Observation>, groups: seq<Group>, base: string, paths: seq<Path>, s: Selection) {
    && (base == "" || ValidInstance(base)) && 1 <= |paths| <= 2
    && s.group < |groups| && (base != "" ==> groups[s.group].base == base) && Bridges(obs, groups[s.group], s.indices)
    && if |paths| == 1
       then Named1(obs, groups, paths[0], s)
       else groups[s.group].bridges == 2
            && (Named2(obs, groups, paths[0], paths[1], s, 0) || Named2(obs, groups, paths[0], paths[1], s, 1))
  }

  ghost predicate Named1(obs: seq<Observation>, groups: seq<Group>, path: Path, s: Selection)
    requires s.group < |groups|
  {
    && groups[s.group].status == Ready && |groups[s.group].filled| == 2 && s.indices == TakenSlots(groups[s.group])
    && exists c: nat :: SoleHit(obs, groups, path, s.group, c)
  }

  ghost predicate Named2(obs: seq<Observation>, groups: seq<Group>, first: Path, second: Path, s: Selection, slot: nat)
    requires s.group < |groups| && slot < 2 && |s.indices| == 2
  {
    Names(obs, groups, first, s.group, s.indices[slot]) && Names(obs, groups, second, s.group, s.indices[1 - slot])
  }

  function TakenSlots(g: Group): seq<Option<nat>>
    requires |g.filled| == 2
  {
    [g.filled[0], if g.bridges == 1 then None else g.filled[1]]
  }

  /** In a ready group every bridge is taken by a usable candidate. */
  lemma ReadyBridges(obs: seq<Observation>, g: Group)
    requires IsGroup(obs, g) && g.status == Ready
    ensures Bridges(obs, g, TakenSlots(g))
  {
    assert OfEnclosure(obs, g.candidates[0], g.base, g.model, g.bridges);
    GroupableStatus(obs[g.candidates[0]]);
    forall slot | 0 <= slot < g.bridges ensures Bridge(obs, g, slot, TakenSlots(g)[slot]) {
      assert Present(obs, Members(g.candidates), slot);
      assert g.filled[slot].value in Members(g.candidates);
    }
  }

  /** The bridges of the only enclosure that a path names; all of them must be there. */
  method SelectOne(obs: seq<Observation>, groups: seq<Group>, path: Path, at: nat, ghost c: nat) returns (r: Result<Selection>)
    requires at < |groups| && |groups[at].filled| == 2 && groups[at].bridges <= 2 && SoleHit(obs, groups, path, at, c)
    ensures forall s: Selection :: s.group < |groups| && Named1(obs, groups, path, s) && Bridges(obs, groups[s.group], s.indices) ==> r == Success(s)
    ensures r.Success? ==> r.value.group == at && Named1(obs, groups, path, r.value)
  {
    var g := groups[at];
    if g.status != Ready { return Failure(INVALID_ARGUMENT); }
    for slot := 0 to g.bridges
      invariant forall t :: 0 <= t < slot ==> g.filled[t].Some?
    {
      if g.filled[slot].None? {
        assert forall s: Selection :: Bridges(obs, g, s.indices) ==> Bridge(obs, g, slot, s.indices[slot]);
        return Failure(INVALID_ARGUMENT);
      }
    }
    r := Success(Selection(at, TakenSlots(g)));
  }

  /** The two bridges that two paths name in one enclosure. */
  method SelectTwo(obs: seq<Observation>, groups: seq<Group>, paths: seq<Path>, at: nat, c: nat, d: nat) returns (r: Result<Selection>)
    requires |paths| == 2 && at < |groups| && AllListed(obs, groups[at].candidates)
    requires SoleHit(obs, groups, paths[0], at, c) && SoleHit(obs, groups, paths[1], at, d)
    ensures forall s: Selection :: Pair(obs, groups, paths, s) ==> r == Success(s)
    ensures r.Success? ==> r.value.group == at && Pair(obs, groups, paths, r.value)
  {
    var g := groups[at];
    if g.bridges != 2 { return Failure(INVALID_ARGUMENT); }
    var a, b := g.candidates[c], g.candidates[d];
    PairIs(obs, groups, paths, at, c, d);
    if StatusOf(obs[a]) != Usable || StatusOf(obs[b]) != Usable || SlotOf(obs, a) == SlotOf(obs, b) {
      return Failure(INVALID_ARGUMENT);
    }
    r := Success(Selection(at, Seated(obs, a, b)));
  }

  function Seated(obs: seq<Observation>, a: nat, b: nat): seq<Option<nat>>
    requires Listed(obs, a) && Listed(obs, b)
  {
    [None, None][SlotOf(obs, a) := Some(a)][SlotOf(obs, b) := Some(b)]
  }

  ghost predicate Pair(obs: seq<Observation>, groups: seq<Group>, paths: seq<Path>, s: Selection)
    requires |paths| == 2
  {
    && s.group < |groups| && groups[s.group].bridges == 2 && Bridges(obs, groups[s.group], s.indices)
    && (Named2(obs, groups, paths[0], paths[1], s, 0) || Named2(obs, groups, paths[0], paths[1], s, 1))
  }

  /** Two paths that name a candidate each select at most one pair of bridges. */
  lemma PairIs(obs: seq<Observation>, groups: seq<Group>, paths: seq<Path>, at: nat, c: nat, d: nat)
    requires |paths| == 2 && at < |groups| && AllListed(obs, groups[at].candidates) && groups[at].bridges == 2
    requires SoleHit(obs, groups, paths[0], at, c) && SoleHit(obs, groups, paths[1], at, d)
    ensures var a, b := groups[at].candidates[c], groups[at].candidates[d];
            forall s: Selection :: Pair(obs, groups, paths, s) <==>
              && s == Selection(at, Seated(obs, a, b))
              && StatusOf(obs[a]) == Usable && StatusOf(obs[b]) == Usable && SlotOf(obs, a) != SlotOf(obs, b)
  {
    var g := groups[at];
    var a, b := g.candidates[c], g.candidates[d];
    var only := Selection(at, Seated(obs, a, b));
    forall s: Selection | Pair(obs, groups, paths, s)
      ensures s == only && StatusOf(obs[a]) == Usable && StatusOf(obs[b]) == Usable && SlotOf(obs, a) != SlotOf(obs, b)
    {
      NamedPair(obs, groups, paths, at, c, d, s);
    }
    if StatusOf(obs[a]) == Usable && StatusOf(obs[b]) == Usable && SlotOf(obs, a) != SlotOf(obs, b) {
      assert Bridge(obs, g, SlotOf(obs, a), Some(a)) && Bridge(obs, g, SlotOf(obs, b), Some(b));
      assert Bridges(obs, g, only.indices);
      assert Named2(obs, groups, paths[0], paths[1], only, SlotOf(obs, a));
    }
  }

  lemma NamedPair(obs: seq<Observation>, groups: seq<Group>, paths: seq<Path>, at: nat, c: nat, d: nat, s: Selection)
    requires |paths| == 2 && at < |groups| && AllListed(obs, groups[at].candidates)
    requires SoleHit(obs, groups, paths[0], at, c) && SoleHit(obs, groups, paths[1], at, d) && Pair(obs, groups, paths, s)
    ensures var a, b := groups[at].candidates[c], groups[at].candidates[d];
            && s == Selection(at, Seated(obs, a, b))
            && StatusOf(obs[a]) == Usable && StatusOf(obs[b]) == Usable && SlotOf(obs, a) != SlotOf(obs, b)
  {
    var slot := if Named2(obs, groups, paths[0], paths[1], s, 0) then 0 else 1;
    assert Named2(obs, groups, paths[0], paths[1], s, slot);
    assert Bridge(obs, groups[s.group], slot, s.indices[slot]) && Bridge(obs, groups[s.group], 1 - slot, s.indices[1 - slot]);
  }

  /** Selection by USB paths: it succeeds exactly with what the paths select. */
  method SelectByPaths(obs: seq<Observation>, groups: seq<Group>, base: string, paths: seq<Path>) returns (r: Result<Selection>)
    requires forall i :: 0 <= i < |groups| ==> AllListed(obs, groups[i].candidates) && |groups[i].filled| == 2 && groups[i].bridges <= 2
    ensures forall s: Selection :: Selected(obs, groups, base, paths, s) ==> r == Success(s)
    ensures r.Success? && Grouped(obs, groups) ==> Selected(obs, groups, base, paths, r.value)
  {
    if (base != "" && !ValidInstance(base)) || paths == [] || |paths| > 2 { return Failure(INVALID_ARGUMENT); }
    var first := FindPath(obs, groups, paths[0]);
    if first.Failure? { return Failure(first.error); }
    var second := first;
    if |paths| == 2 {
      second := FindPath(obs, groups, paths[1]);
      if second.Failure? { return Failure(second.error); }
      if first.value.0 != second.value.0 { return Failure(INVALID_ARGUMENT); }
    }
    var at := first.value.0;
    if base != "" && groups[at].base != base { return Failure(INVALID_ARGUMENT); }
    if |paths| == 1 {
      r := SelectOne(obs, groups, paths[0], at, first.value.1);
      if r.Success? && Grouped(obs, groups) { OneSelected(obs, groups, at); }
    } else {
      r := SelectTwo(obs, groups, paths, at, first.value.1, second.value.1);
    }
  }

  lemma OneSelected(obs: seq<Observation>, groups: seq<Group>, at: nat)
    requires Grouped(obs, groups) && at < |groups| && groups[at].status == Ready && |groups[at].filled| == 2
    ensures Bridges(obs, groups[at], TakenSlots(groups[at]))
  {
    assert GroupedAt(obs, groups, at);
    ReadyBridges(obs, groups[at]);
  }
}
