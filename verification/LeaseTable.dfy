/** The fixed table of leases in a client's record, and the map it stands for in the ownership argument. */
module LeaseTable {
  import opened Errors
  import ControlServer

  datatype Record = Record(lease: nat, receiver: nat)

  type Slots = seq<Option<Record>>

  predicate Distinct(s: Slots) {
    forall i, j :: 0 <= i < j < |s| && s[i].Some? && s[j].Some? ==> s[i].value.lease != s[j].value.lease
  }

  function TableOf(s: Slots): map<nat, nat> {
    if s == [] then map[]
    else
      var front := TableOf(s[..|s| - 1]);
      match s[|s| - 1]
      case None => front
      case Some(r) => front[r.lease := r.receiver]
  }

  function Taken(s: Slots): nat {
    if s == [] then 0 else Taken(s[..|s| - 1]) + if s[|s| - 1].Some? then 1 else 0
  }

  lemma {:induction false} InTable(s: Slots, lease: nat)
    requires Distinct(s)
    ensures lease in TableOf(s) <==> exists i :: 0 <= i < |s| && s[i].Some? && s[i].value.lease == lease
    ensures forall i :: 0 <= i < |s| && s[i].Some? && s[i].value.lease == lease ==> lease in TableOf(s) && TableOf(s)[lease] == s[i].value.receiver
  {
    if s != [] {
      var front := s[..|s| - 1];
      InTable(front, lease);
      assert forall i :: 0 <= i < |front| ==> front[i] == s[i];
    }
  }

  /** The map has as many entries as slots are taken. */
  lemma {:induction false} TableSize(s: Slots)
    requires Distinct(s)
    ensures |TableOf(s)| == Taken(s) <= |s|
  {
    if s != [] {
      var front := s[..|s| - 1];
      TableSize(front);
      if s[|s| - 1].Some? {
        InTable(front, s[|s| - 1].value.lease);
        ControlServer.CountAfterAdd(TableOf(front), s[|s| - 1].value.lease, s[|s| - 1].value.receiver);
      }
    }
  }

  lemma {:induction false} AllTaken(s: Slots)
    ensures Taken(s) <= |s| && (Taken(s) == |s| <==> forall i :: 0 <= i < |s| ==> s[i].Some?)
  {
    if s != [] { AllTaken(s[..|s| - 1]); }
  }

  lemma SetSlot(s: Slots, i: nat, r: Record)
    requires Distinct(s) && i < |s| && s[i].None? && r.lease !in TableOf(s)
    ensures Distinct(s[i := Some(r)]) && TableOf(s[i := Some(r)]) == TableOf(s)[r.lease := r.receiver]
  {
    var t := s[i := Some(r)];
    forall j | 0 <= j < |s| && s[j].Some? ensures s[j].value.lease != r.lease {
      InTable(s, s[j].value.lease);
    }
    forall x ensures x in TableOf(t) <==> x == r.lease || x in TableOf(s)
      ensures x in TableOf(t) ==> TableOf(t)[x] == if x == r.lease then r.receiver else TableOf(s)[x]
    {
      InTable(s, x);
      InTable(t, x);
      assert t[i] == Some(r) && forall j :: 0 <= j < |s| && j != i ==> t[j] == s[j];
    }
  }

  lemma ClearSlot(s: Slots, i: nat)
    requires Distinct(s) && i < |s| && s[i].Some?
    ensures Distinct(s[i := None]) && TableOf(s[i := None]) == TableOf(s) - {s[i].value.lease}
  {
    var t := s[i := None];
    forall x ensures x in TableOf(t) <==> x != s[i].value.lease && x in TableOf(s)
      ensures x in TableOf(t) ==> TableOf(t)[x] == TableOf(s)[x]
    {
      InTable(s, x);
      InTable(t, x);
      assert t[i] == None && forall j :: 0 <= j < |s| && j != i ==> t[j] == s[j];
    }
  }

  class Leases {
    const slots: array<Option<Record>>

    ghost predicate Valid()
      reads this, slots
    {
      slots.Length == ControlServer.RECEIVERS && Distinct(slots[..])
    }

    ghost function Table(): map<nat, nat>
      reads this, slots
    {
      TableOf(slots[..])
    }

    constructor ()
      ensures Valid() && fresh(slots) && Table() == map[]
    {
      slots := new Option<Record>[ControlServer.RECEIVERS](_ => None);
      new;
      Empty(slots[..]);
    }

    /** The receiver of a lease. */
    method Find(lease: nat) returns (receiver: Option<nat>)
      requires Valid()
      ensures receiver == if lease != 0 && lease in Table() then Some(Table()[lease]) else None
    {
      if lease == 0 { return None; }
      InTable(slots[..], lease);
      for i := 0 to slots.Length
        invariant forall k :: 0 <= k < i ==> slots[k].None? || slots[k].value.lease != lease
      {
        if slots[i].Some? && slots[i].value.lease == lease {
          assert slots[..][i] == slots[i];
          return Some(slots[i].value.receiver);
        }
      }
      receiver := None;
    }

    /** Adds a lease exactly when the ownership argument says it can be added. */
    method Add(receiver: nat, lease: nat) returns (ok: bool)
      requires Valid()
      modifies slots
      ensures Valid()
      ensures ok == (lease != 0 && receiver < ControlServer.RECEIVERS && lease !in old(Table()) && ControlServer.HasSlot(old(Table())))
      ensures Table() == if ok then old(Table())[lease := receiver] else old(Table())
    {
      if lease == 0 || receiver >= ControlServer.RECEIVERS { return false; }
      var known := Find(lease);
      if known.Some? { return false; }
      ghost var s := slots[..];
      TableSize(s);
      AllTaken(s);
      for i := 0 to slots.Length
        invariant slots[..] == s && forall k :: 0 <= k < i ==> s[k].Some?
      {
        if slots[i].None? {
          SetSlot(s, i, Record(lease, receiver));
          slots[i] := Some(Record(lease, receiver));
          assert slots[..] == s[i := Some(Record(lease, receiver))];
          return true;
        }
      }
      ok := false;
    }

    method Remove(lease: nat)
      requires Valid()
      modifies slots
      ensures Valid() && Table() == old(Table()) - {lease}
    {
      ghost var s := slots[..];
      InTable(s, lease);
      for i := 0 to slots.Length
        invariant slots[..] == s && forall k :: 0 <= k < i ==> s[k].None? || s[k].value.lease != lease
      {
        if slots[i].Some? && slots[i].value.lease == lease {
          ClearSlot(s, i);
          slots[i] := None;
          assert slots[..] == s[i := None];
          return;
        }
      }
      assert lease !in Table();
    }
  }

  lemma {:induction false} Empty(s: Slots)
    requires forall i :: 0 <= i < |s| ==> s[i].None?
    ensures TableOf(s) == map[] && Distinct(s)
  {
    if s != [] { Empty(s[..|s| - 1]); }
  }
}
