/** Transposition: which axis lists are accepted, and the shape they give. */
module Transpose {
  import opened MixedRadix

  function Axes(rank: nat): seq<nat> { seq(rank, i requires 0 <= i < rank => i) }

  /** The lists that mention every axis exactly once. */
  ghost predicate IsPermutation(permutation: seq<nat>, rank: nat) {
    multiset(permutation) == multiset(Axes(rank))
  }

  predicate Inside(axes: seq<nat>, rank: nat) { forall i | 0 <= i < |axes| :: axes[i] < rank }

  predicate Distinct(s: seq<nat>) { forall i, j | 0 <= i < j < |s| :: s[i] != s[j] }

  lemma {:induction false} CountDistinct(s: seq<nat>, x: nat)
    requires Distinct(s)
    ensures multiset(s)[x] == if x in s then 1 else 0
  {
    if s != [] {
      var front, last := s[..|s| - 1], s[|s| - 1];
      assert s == front + [last] && Distinct(front) && last !in front;
      CountDistinct(front, x);
    }
  }

  /** Pigeonhole: as many distinct axes as there are axes are all the axes. */
  lemma DistinctAxesAreAll(s: seq<nat>, rank: nat)
    requires Distinct(s) && |s| == rank && Inside(s, rank)
    ensures IsPermutation(s, rank)
  {
    var elements, all := Elements(s), Elements(Axes(rank));
    DistinctSize(s);
    DistinctSize(Axes(rank));
    assert elements <= all by {
      forall x | x in elements ensures x in all { assert Axes(rank)[x] == x; }
    }
    SameSize(elements, all);
    forall x: nat ensures multiset(s)[x] == multiset(Axes(rank))[x] {
      CountDistinct(s, x);
      CountDistinct(Axes(rank), x);
      assert x in s <==> x in elements;
      assert x in Axes(rank) <==> x in all;
    }
  }

  function Elements(s: seq<nat>): set<nat> { set x | x in s }

  lemma {:induction false} DistinctSize(s: seq<nat>)
    requires Distinct(s)
    ensures |Elements(s)| == |s|
  {
    if s != [] {
      var front, last := s[..|s| - 1], s[|s| - 1];
      assert s == front + [last] && last !in front;
      DistinctSize(front);
      assert Elements(s) == Elements(front) + {last};
    }
  }

  lemma SameSize<T>(a: set<T>, b: set<T>)
    requires a <= b && |a| == |b|
    ensures a == b
  {
    assert |b - a| == |b| - |a|;
  }

  lemma RepeatIsNoPermutation(s: seq<nat>, i: nat, j: nat, rank: nat)
    requires i < j < |s| && s[i] == s[j]
    ensures !IsPermutation(s, rank)
  {
    assert s == s[..j] + [s[j]] + s[j + 1..];
    assert s[i] in s[..j] && multiset(s)[s[i]] >= 2;
    CountDistinct(Axes(rank), s[i]);
  }

  lemma OutsideIsNoPermutation(s: seq<nat>, x: nat, rank: nat)
    requires x in s && x >= rank
    ensures !IsPermutation(s, rank)
  {
    assert x in multiset(s) && x !in Axes(rank);
  }

  /** `validate_permutation`: accepts exactly the permutations of the axes. */
  method ValidatePermutation(rank: nat, permutation: seq<nat>) returns (r: Result<bool>)
    ensures r == if IsPermutation(permutation, rank) then Ok(true) else Err(InvalidPermutation)
  {
    if |permutation| != rank {
      assert |multiset(permutation)| != |multiset(Axes(rank))|;
      return Err(InvalidPermutation);
    }
    var seen := new bool[rank](i => false);
    for i := 0 to |permutation|
      invariant Distinct(permutation[..i]) && Inside(permutation[..i], rank)
      invariant forall x | 0 <= x < rank :: seen[x] <==> x in permutation[..i]
    {
      var axis := permutation[i];
      assert permutation[..i + 1] == permutation[..i] + [axis];
      if axis >= rank {
        OutsideIsNoPermutation(permutation, axis, rank);
        return Err(InvalidPermutation);
      }
      if seen[axis] {
        ghost var earlier :| 0 <= earlier < i && permutation[..i][earlier] == axis;
        RepeatIsNoPermutation(permutation, earlier, i, rank);
        return Err(InvalidPermutation);
      }
      seen[axis] := true;
    }
    assert permutation[..|permutation|] == permutation;
    DistinctAxesAreAll(permutation, rank);
    r := Ok(true);
  }

  /** The dimensions of the named axes. */
  function Selected(shape: Shape, axes: seq<nat>): Shape
    requires Inside(axes, |shape|)
  {
    seq(|axes|, i requires 0 <= i < |axes| => shape[axes[i]])
  }

  /** `transpose_output_shape`. */
  method OutputShape(shape: Shape, permutation: seq<nat>) returns (r: Result<Shape>)
    ensures r.Ok? <==> IsPermutation(permutation, |shape|)
    ensures r.Ok? ==> |r.value| == |shape| && Product(r.value) == Product(shape)
    ensures r.Ok? ==> forall i | 0 <= i < |shape| :: permutation[i] < |shape| && r.value[i] == shape[permutation[i]]
  {
    var valid := ValidatePermutation(|shape|, permutation);
    if valid.Err? { return Err(valid.error); }
    PermutationInside(permutation, |shape|);
    PermutedProduct(shape, permutation);
    r := Ok(Selected(shape, permutation));
  }

  lemma PermutationInside(permutation: seq<nat>, rank: nat)
    requires IsPermutation(permutation, rank)
    ensures |permutation| == rank && Inside(permutation, rank)
  {
    assert |multiset(permutation)| == |multiset(Axes(rank))|;
    forall i | 0 <= i < rank ensures permutation[i] < rank {
      assert permutation[i] in multiset(permutation) && permutation[i] in Axes(rank);
    }
  }

  function Without(s: seq<nat>, j: nat): seq<nat>
    requires j < |s|
  {
    s[..j] + s[j + 1..]
  }

  lemma {:induction false} ProductWithout(shape: Shape, j: nat)
    requires j < |shape|
    ensures Product(shape) == Times(shape[j], Product(Without(shape, j)))
  {
    if j == 0 {
      assert Without(shape, 0) == shape[1..];
    } else {
      ProductWithout(shape[1..], j - 1);
      assert Without(shape, j)[1..] == Without(shape[1..], j - 1);
      Exchange(shape[0], shape[j], Product(Without(shape[1..], j - 1)));
    }
  }

  lemma Exchange(a: nat, b: nat, c: nat)
    ensures Times(a, Times(b, c)) == Times(b, Times(a, c))
  {
    assert a * (b * c) == (a * b) * c == b * (a * c);
  }

  /** Rearranging the axes keeps the product of their dimensions. */
  lemma {:induction false} RearrangedProduct(shape: Shape, p: seq<nat>, q: seq<nat>)
    requires multiset(p) == multiset(q) && Inside(p, |shape|) && Inside(q, |shape|)
    ensures Product(Selected(shape, p)) == Product(Selected(shape, q))
    decreases |p|
  {
    if p == [] {
      assert |multiset(q)| == 0;
    } else {
      assert p[0] in multiset(q);
      var j :| 0 <= j < |q| && q[j] == p[0];
      RemoveOne(p, q, j);
      RearrangedProduct(shape, p[1..], Without(q, j));
      ProductWithout(Selected(shape, q), j);
      assert Without(Selected(shape, q), j) == Selected(shape, Without(q, j));
      assert Selected(shape, p)[1..] == Selected(shape, p[1..]);
    }
  }

  lemma RemoveOne(p: seq<nat>, q: seq<nat>, j: nat)
    requires p != [] && j < |q| && q[j] == p[0] && multiset(p) == multiset(q)
    ensures multiset(p[1..]) == multiset(Without(q, j))
  {
    assert p == [p[0]] + p[1..];
    assert q == q[..j] + [q[j]] + q[j + 1..];
    assert multiset(p) == multiset{p[0]} + multiset(p[1..]);
    assert multiset(q) == multiset{q[j]} + multiset(Without(q, j));
    assert multiset(p[1..]) == multiset(p) - multiset{p[0]};
    assert multiset(Without(q, j)) == multiset(q) - multiset{q[j]};
  }

  lemma PermutedProduct(shape: Shape, permutation: seq<nat>)
    requires IsPermutation(permutation, |shape|)
    ensures |permutation| == |shape| && Inside(permutation, |shape|)
    ensures Product(Selected(shape, permutation)) == Product(shape)
  {
    PermutationInside(permutation, |shape|);
    RearrangedProduct(shape, permutation, Axes(|shape|));
    assert Selected(shape, Axes(|shape|)) == shape;
  }
}
