/** Small facts about numbers and sequences that several components use. */
module Sequences {
  function Min(a: nat, b: nat): (m: nat)
    ensures m <= a && m <= b
  {
    if a < b then a else b
  }

  /** The pieces, one after the other. */
  function Flatten<T>(pieces: seq<seq<T>>): seq<T> {
    if pieces == [] then [] else pieces[0] + Flatten(pieces[1..])
  }

  lemma {:induction false} FlattenMore<T>(pieces: seq<seq<T>>, p: seq<T>)
    ensures Flatten(pieces + [p]) == Flatten(pieces) + p
  {
    if pieces == [] {
      assert Flatten([p]) == p + Flatten([p][1..]);
    } else {
      assert (pieces + [p])[1..] == pieces[1..] + [p];
      FlattenMore(pieces[1..], p);
    }
  }

  lemma FlattenNext<T>(pieces: seq<seq<T>>, i: nat)
    requires i < |pieces|
    ensures Flatten(pieces[..i + 1]) == Flatten(pieces[..i]) + pieces[i]
  {
    assert pieces[..i + 1] == pieces[..i] + [pieces[i]];
    FlattenMore(pieces[..i], pieces[i]);
  }
}
