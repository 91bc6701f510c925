/** Sequences read from the back. */
module Reversal {

  function Reversed(l: seq<nat>): (m: seq<nat>)
    ensures |m| == |l|
  {
    if l == [] then [] else Reversed(l[1..]) + [l[0]]
  }

  lemma {:induction false} ReversedAt(l: seq<nat>, k: nat)
    requires k < |l|
    ensures Reversed(l)[k] == l[|l| - 1 - k]
  {
    if k < |l| - 1 {
      ReversedAt(l[1..], k);
    }
  }

  lemma ReversedTwice(l: seq<nat>)
    ensures Reversed(Reversed(l)) == l
  {
    var m := Reversed(l);
    forall k: nat | k < |l|
      ensures Reversed(m)[k] == l[k]
    {
      ReversedAt(m, k);
      ReversedAt(l, |l| - 1 - k);
    }
  }
}
