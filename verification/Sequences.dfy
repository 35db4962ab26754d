/** Sequences as collections: duplicates, sizes and permutations. */
module Sequences {
  predicate NoDuplicates<T(==)>(a: seq<T>) { forall i, j | 0 <= i < j < |a| :: a[i] != a[j] }

  /** The same elements in some order, when `b` has no duplicates. */
  predicate IsPermutation<T(==)>(a: seq<T>, b: seq<T>) {
    |a| == |b| && NoDuplicates(a) && forall i | 0 <= i < |a| :: a[i] in b
  }

  lemma {:induction false} SetSize<T>(a: seq<T>)
    requires NoDuplicates(a)
    ensures |set m | m in a| == |a|
  {
    if a != [] {
      SetSize(a[1..]);
      assert (set m | m in a) == (set m | m in a[1..]) + {a[0]};
    }
  }

  lemma SameSizeSubset<T>(s: set<T>, t: set<T>)
    requires s <= t && |s| == |t|
    ensures s == t
  {
    assert |t - s| == 0;
  }

  lemma PermutationCovers<T>(a: seq<T>, b: seq<T>)
    requires IsPermutation(a, b) && NoDuplicates(b)
    ensures forall m :: m in b <==> m in a
  {
    SetSize(a);
    SetSize(b);
    var inA, inB := set m | m in a, set m | m in b;
    SameSizeSubset(inA, inB);
    forall m: T ensures m in b <==> m in a { assert m in inA <==> m in inB; }
  }

  lemma {:induction false} PermutationKeepsCounts<T>(a: seq<T>, b: seq<T>)
    requires IsPermutation(a, b) && NoDuplicates(b)
    ensures multiset(a) == multiset(b)
  {
    PermutationCovers(a, b);
    forall m: T ensures multiset(a)[m] == multiset(b)[m] {
      CountOnce(a, m);
      CountOnce(b, m);
    }
  }

  lemma {:induction false} CountOnce<T>(a: seq<T>, m: T)
    requires NoDuplicates(a)
    ensures multiset(a)[m] == if m in a then 1 else 0
  {
    if a != [] {
      CountOnce(a[1..], m);
      assert a == [a[0]] + a[1..];
    }
  }

  lemma TwiceInSeq<T>(a: seq<T>, i: nat, j: nat)
    requires i < j < |a| && a[i] == a[j]
    ensures multiset(a)[a[i]] >= 2
  {
    assert a == a[..j] + a[j..];
    assert a[i] in a[..j] && a[j] in a[j..];
  }

  /** How many elements have a property. */
  function CountIf<T>(a: seq<T>, has: T -> bool): nat {
    if a == [] then 0 else CountIf(a[..|a| - 1], has) + if has(a[|a| - 1]) then 1 else 0
  }

  lemma {:induction false} CountAppend<T>(a: seq<T>, b: seq<T>, has: T -> bool)
    ensures CountIf(a + b, has) == CountIf(a, has) + CountIf(b, has)
    decreases |b|
  {
    if b == [] {
      assert a + b == a;
    } else {
      CountAppend(a, b[..|b| - 1], has);
      assert (a + b)[..|a + b| - 1] == a + b[..|b| - 1];
    }
  }

  /** Where the first element of one order stands in another. */
  lemma SameRest<T>(a: seq<T>, b: seq<T>) returns (k: nat)
    requires multiset(a) == multiset(b) && a != []
    ensures k < |b| && b[k] == a[0] && multiset(a[1..]) == multiset(b[..k] + b[k + 1..])
    ensures a == [a[0]] + a[1..] && b == b[..k] + ([a[0]] + b[k + 1..])
  {
    assert a[0] in multiset(b);
    k :| 0 <= k < |b| && b[k] == a[0];
    assert a == [a[0]] + a[1..];
    assert b == b[..k] + ([a[0]] + b[k + 1..]);
    assert multiset(a) == multiset{a[0]} + multiset(a[1..]);
    assert multiset(b) == multiset(b[..k]) + (multiset{a[0]} + multiset(b[k + 1..]));
    assert multiset(b[..k] + b[k + 1..]) == multiset(b[..k]) + multiset(b[k + 1..]) == multiset(b) - multiset{a[0]};
    assert multiset(a[1..]) == multiset(a) - multiset{a[0]};
  }

  /** The number of elements with a property does not depend on their order. */
  lemma {:induction false} CountReordered<T>(a: seq<T>, b: seq<T>, has: T -> bool)
    requires multiset(a) == multiset(b)
    ensures CountIf(a, has) == CountIf(b, has)
    decreases |a|
  {
    assert |a| == |multiset(a)| == |multiset(b)| == |b|;
    if a != [] {
      var k := SameRest(a, b);
      var before, after := b[..k], b[k + 1..];
      CountReordered(a[1..], before + after, has);
      CountAppend([a[0]], a[1..], has);
      CountAppend(before, after, has);
      CountAppend(before, [a[0]] + after, has);
      CountAppend([a[0]], after, has);
    }
  }

  lemma SameElements<T>(a: seq<T>, b: seq<T>)
    requires multiset(a) == multiset(b)
    ensures forall x :: x in a <==> x in b
  {
    forall x ensures x in a <==> x in b { assert x in multiset(a) <==> x in multiset(b); }
  }

  /** Two places of one order hold what two places of another hold. */
  lemma SamePair<T>(a: seq<T>, b: seq<T>, i: nat, j: nat) returns (k: nat, l: nat)
    requires multiset(a) == multiset(b) && i < j < |b|
    ensures k < |a| && l < |a| && k != l && a[k] == b[i] && a[l] == b[j]
  {
    SameElements(a, b);
    assert b[i] in a && b[j] in a;
    k :| 0 <= k < |a| && a[k] == b[i];
    if b[i] != b[j] {
      l :| 0 <= l < |a| && a[l] == b[j];
    } else {
      TwiceInSeq(b, i, j);
      assert a == a[..k] + [a[k]] + a[k + 1..];
      assert a[k] in a[..k] || a[k] in a[k + 1..];
      if a[k] in a[..k] {
        l :| 0 <= l < k && a[l] == b[j];
      } else {
        var m :| 0 <= m < |a| - k - 1 && a[k + 1..][m] == b[j];
        l := k + 1 + m;
      }
    }
  }

  lemma {:induction false} CountedSomewhere<T>(a: seq<T>, has: T -> bool) returns (i: nat)
    requires CountIf(a, has) > 0
    ensures i < |a| && has(a[i])
  {
    i := |a| - 1;
    if !has(a[i]) { i := CountedSomewhere(a[..i], has); }
  }

  lemma InFront<T>(x: T, a: seq<T>)
    ensures multiset([x] + a) == multiset{x} + multiset(a)
  {
  }

  /** Moving one element to the front keeps the multiplicities. */
  lemma MovedToFront<T>(a: seq<T>, i: nat)
    requires i < |a|
    ensures var rest := a[..i] + a[i + 1..];
            multiset(a) == multiset{a[i]} + multiset(rest) == multiset([a[i]] + rest)
  {
    assert a == a[..i] + [a[i]] + a[i + 1..];
    InFront(a[i], a[..i] + a[i + 1..]);
  }
}
