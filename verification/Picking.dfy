// Picking the wanted elements of a sequence in their order, said by positions and
// without recursion: what the filtering functions and loops are measured against.
module Picking {
  /** `r` are the images of exactly the wanted elements of `s`, which stand at `at`, in their order. */
  ghost predicate PicksAt<A, B>(s: seq<A>, wanted: A -> bool, image: A -> B, r: seq<B>, at: seq<nat>) {
    |at| == |r| &&
    (forall i, j :: 0 <= i < j < |at| ==> at[i] < at[j]) &&
    (forall i :: 0 <= i < |at| ==> at[i] < |s| && wanted(s[at[i]]) && r[i] == image(s[at[i]])) &&
    forall k: nat :: k < |s| && wanted(s[k]) ==> k in at
  }

  ghost predicate Picks<A, B>(s: seq<A>, wanted: A -> bool, image: A -> B, r: seq<B>) {
    exists at: seq<nat> :: PicksAt(s, wanted, image, r, at)
  }

  lemma PicksNothing<A, B>(wanted: A -> bool, image: A -> B)
    ensures Picks([], wanted, image, [])
  {
    assert PicksAt([], wanted, image, [], []);
  }

  lemma PicksSnoc<A, B>(s: seq<A>, x: A, wanted: A -> bool, image: A -> B, r: seq<B>)
    requires Picks(s, wanted, image, r)
    ensures Picks(s + [x], wanted, image, r + if wanted(x) then [image(x)] else [])
  {
    var at: seq<nat> :| PicksAt(s, wanted, image, r, at);
    if wanted(x) {
      PicksOneMore(s, x, wanted, image, r, at);
    } else {
      PicksNoMore(s, x, wanted, image, r, at);
    }
  }

  lemma PicksOneMore<A, B>(s: seq<A>, x: A, wanted: A -> bool, image: A -> B, r: seq<B>, at: seq<nat>)
    requires PicksAt(s, wanted, image, r, at) && wanted(x)
    ensures PicksAt(s + [x], wanted, image, r + [image(x)], at + [|s|])
  {
    var more: seq<nat> := at + [|s|];
    forall k: nat | k < |s| + 1 && wanted((s + [x])[k])
      ensures k in more
    {
      if k < |s| {
        assert k in at;
      } else {
        assert more[|at|] == k;
      }
    }
  }

  lemma PicksNoMore<A, B>(s: seq<A>, x: A, wanted: A -> bool, image: A -> B, r: seq<B>, at: seq<nat>)
    requires PicksAt(s, wanted, image, r, at) && !wanted(x)
    ensures PicksAt(s + [x], wanted, image, r + [], at)
  {
    assert r + [] == r;
  }
}
