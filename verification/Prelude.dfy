// Small shared vocabulary: optional values, results, and the two sequence
// searches every loader is specified with.
module Prelude {

  datatype Option<+T> = None | Some(value: T)

  datatype Result<+T, +E> = Ok(value: T) | Err(error: E)

  ghost predicate Distinct<T>(s: seq<T>) {
    forall i, j :: 0 <= i < j < |s| ==> s[i] != s[j]
  }

  /** The position of the last occurrence of `x`, as a Go map filled in order keeps it. */
  function LastIndex<T(==)>(s: seq<T>, x: T): (r: Option<nat>)
    ensures r.None? <==> x !in s
    ensures r.Some? ==> r.value < |s| && s[r.value] == x && x !in s[r.value + 1..]
  {
    if s == [] then None
    else if s[|s| - 1] == x then Some(|s| - 1)
    else
      var r := LastIndex(s[..|s| - 1], x);
      assert r.Some? ==> s[r.value + 1..] == s[..|s| - 1][r.value + 1..] + [s[|s| - 1]];
      assert s == s[..|s| - 1] + [s[|s| - 1]];
      r
  }

  /** The positions holding `x`, in increasing order. */
  function Positions<T(==)>(s: seq<T>, x: T): (r: seq<nat>)
    ensures forall k :: 0 <= k < |r| ==> r[k] < |s|
  {
    if s == [] then []
    else
      Positions(s[..|s| - 1], x) + (if s[|s| - 1] == x then [|s| - 1] else [])
  }

  lemma {:induction false} PositionsExact<T>(s: seq<T>, x: T)
    ensures forall k :: 0 <= k < |Positions(s, x)| ==> s[Positions(s, x)[k]] == x
    ensures forall j, k :: 0 <= j < k < |Positions(s, x)| ==> Positions(s, x)[j] < Positions(s, x)[k]
    ensures forall i: nat :: i < |s| && s[i] == x ==> i in Positions(s, x)
  {
    if s != [] {
      PositionsExact(s[..|s| - 1], x);
    }
  }

  lemma {:induction false} NoPositions<T>(s: seq<T>, x: T)
    requires x !in s
    ensures Positions(s, x) == []
  {
    if s != [] {
      NoPositions(s[..|s| - 1], x);
    }
  }

  /** The elements of `s` at the given positions. */
  function Pick<T>(s: seq<T>, positions: seq<nat>): (r: seq<T>)
    requires forall k :: 0 <= k < |positions| ==> positions[k] < |s|
    ensures |r| == |positions|
    ensures forall k :: 0 <= k < |r| ==> r[k] == s[positions[k]]
  {
    seq(|positions|, k requires 0 <= k < |positions| => s[positions[k]])
  }

  lemma PositionsSnoc<T>(s: seq<T>, y: T, x: T)
    ensures Positions(s + [y], x) == Positions(s, x) + (if y == x then [|s|] else [])
  {
  }

  lemma TakeSnoc<T>(s: seq<T>, j: nat)
    requires j < |s|
    ensures s[..j + 1] == s[..j] + [s[j]]
  {
  }

  /** One step of ranging over a map: some key, nothing is promised about which. */
  method AnyOf<T>(s: set<T>) returns (x: T)
    requires s != {}
    ensures x in s
  {
    x :| x in s;
  }

  function Map<A, B>(f: A -> B, s: seq<A>): (r: seq<B>)
    ensures |r| == |s|
    ensures forall i :: 0 <= i < |s| ==> r[i] == f(s[i])
  {
    seq(|s|, i requires 0 <= i < |s| => f(s[i]))
  }

  lemma MapCons<A, B>(f: A -> B, s: seq<A>)
    requires s != []
    ensures Map(f, s) == [f(s[0])] + Map(f, s[1..])
    ensures Map(f, s)[1..] == Map(f, s[1..])
  {
  }

  lemma MapAppend<A, B>(f: A -> B, a: seq<A>, b: seq<A>)
    ensures Map(f, a + b) == Map(f, a) + Map(f, b)
  {
  }

  function Filter<A>(p: A -> bool, s: seq<A>): seq<A> {
    if s == [] then [] else (if p(s[0]) then [s[0]] else []) + Filter(p, s[1..])
  }

  function Dropped<A>(s: seq<A>, i: nat): seq<A>
    requires i < |s|
  {
    s[..i] + s[i + 1..]
  }

  lemma MultisetDropped<A>(s: seq<A>, i: nat)
    requires i < |s|
    ensures multiset(s) == multiset(Dropped(s, i)) + multiset{s[i]}
  {
    assert s == s[..i] + [s[i]] + s[i + 1..];
  }

  lemma MapDropped<A, B>(f: A -> B, s: seq<A>, i: nat)
    requires i < |s|
    ensures Dropped(Map(f, s), i) == Map(f, Dropped(s, i))
    ensures multiset(Map(f, s)) == multiset(Map(f, Dropped(s, i))) + multiset{f(s[i])}
  {
    MultisetDropped(Map(f, s), i);
  }

  lemma {:induction false} MapMultiset<A, B>(f: A -> B, a: seq<A>, b: seq<A>)
    requires multiset(a) == multiset(b)
    ensures multiset(Map(f, a)) == multiset(Map(f, b))
    decreases |a|
  {
    if a == [] {
      assert |b| == |multiset(b)| == 0;
    } else {
      assert a[0] in multiset(b);
      var i: nat :| i < |b| && b[i] == a[0];
      MultisetDropped(a, 0);
      MultisetDropped(b, i);
      assert multiset(Dropped(a, 0)) == multiset(a) - multiset{a[0]};
      assert multiset(Dropped(b, i)) == multiset(b) - multiset{a[0]};
      MapMultiset(f, Dropped(a, 0), Dropped(b, i));
      MapDropped(f, a, 0);
      MapDropped(f, b, i);
    }
  }
}
