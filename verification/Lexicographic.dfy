/** The order of raw names: element by element, a proper prefix first. */
module Lexicographic {
  import opened Sequences

  predicate Less(a: seq<int>, b: seq<int>) {
    if |a| == 0 then |b| > 0
    else |b| > 0 && (a[0] < b[0] || (a[0] == b[0] && Less(a[1..], b[1..])))
  }

  /** At the first difference the smaller element decides, and a proper beginning comes first. */
  lemma {:induction false} LessExactly(a: seq<int>, b: seq<int>)
    ensures Less(a, b) <==> exists k: nat :: k <= |a| && k < |b| && a[..k] == b[..k] && (k == |a| || a[k] < b[k])
  {
    if |a| > 0 && |b| > 0 && a[0] == b[0] {
      LessExactly(a[1..], b[1..]);
      if Less(a, b) {
        var k: nat :| k <= |a[1..]| && k < |b[1..]| && a[1..][..k] == b[1..][..k]
                      && (k == |a[1..]| || a[1..][k] < b[1..][k]);
        SameBeginning(a, b, k);
      }
      if k: nat :| k <= |a| && k < |b| && a[..k] == b[..k] && (k == |a| || a[k] < b[k]) {
        assert k > 0;
        SameBeginning(a, b, k - 1);
      }
    } else if |b| > 0 && (|a| == 0 || a[0] < b[0]) {
      assert a[..0] == b[..0];
    } else if |a| > 0 && |b| > 0 {
      assert forall k: nat | 0 < k <= |a| && k < |b| :: a[..k][0] == a[0] && b[..k][0] == b[0];
    }
  }

  lemma SameBeginning(a: seq<int>, b: seq<int>, k: nat)
    requires |a| > 0 && |b| > 0 && a[0] == b[0] && k < |a| && k < |b|
    ensures a[1..][..k] == b[1..][..k] <==> a[..k + 1] == b[..k + 1]
    ensures k < |a| - 1 ==> a[1..][k] == a[k + 1]
    ensures k < |b| - 1 ==> b[1..][k] == b[k + 1]
  {
    assert a[..k + 1] == [a[0]] + a[1..][..k] && b[..k + 1] == [b[0]] + b[1..][..k];
    if a[..k + 1] == b[..k + 1] { assert a[1..][..k] == a[..k + 1][1..] && b[1..][..k] == b[..k + 1][1..]; }
  }

  lemma {:induction false} Total(a: seq<int>, b: seq<int>)
    ensures a == b || Less(a, b) || Less(b, a)
  {
    if |a| > 0 && |b| > 0 {
      if a[1..] == b[1..] && a[0] == b[0] { assert a == [a[0]] + a[1..] == b; }
      Total(a[1..], b[1..]);
    }
  }

  lemma {:induction false} Irreflexive(a: seq<int>)
    ensures !Less(a, a)
  {
    if |a| > 0 { Irreflexive(a[1..]); }
  }

  lemma {:induction false} Transitive(a: seq<int>, b: seq<int>, c: seq<int>)
    requires Less(a, b) && Less(b, c)
    ensures Less(a, c)
  {
    if |a| > 0 && a[0] == b[0] && b[0] == c[0] { Transitive(a[1..], b[1..], c[1..]); }
  }

  /** Strictly increasing. */
  predicate Increasing(names: seq<seq<int>>) {
    forall i, j | 0 <= i < j < |names| :: Less(names[i], names[j])
  }

  /** Two strictly increasing lists of the same names are the same list. */
  lemma {:induction false} IncreasingIsUnique(a: seq<seq<int>>, b: seq<seq<int>>)
    requires Increasing(a) && Increasing(b) && (forall n :: n in a <==> n in b)
    ensures a == b
  {
    if a != [] { assert a[0] in b; }
    if b != [] { assert b[0] in a; }
    if a != [] && b != [] {
      var i :| 0 <= i < |b| && b[i] == a[0];
      var j :| 0 <= j < |a| && a[j] == b[0];
      if i > 0 && j > 0 {
        Transitive(a[0], a[j], a[0]);
        Irreflexive(a[0]);
      }
      assert a[0] == b[0];
      forall n ensures n in a[1..] <==> n in b[1..] {
        if n in a[1..] {
          var k :| 0 <= k < |a| - 1 && a[1..][k] == n;
          assert a[k + 1] == n && n in a;
          if n == b[0] { Irreflexive(n); }
        }
        if n in b[1..] {
          var k :| 0 <= k < |b| - 1 && b[1..][k] == n;
          assert b[k + 1] == n && n in b;
          if n == a[0] { Irreflexive(n); }
        }
      }
      IncreasingIsUnique(a[1..], b[1..]);
    }
  }

  predicate AtMost(a: seq<int>, b: seq<int>) { a == b || Less(a, b) }

  predicate SortedBy<T>(xs: seq<T>, key: T -> seq<int>) {
    forall i, j | 0 <= i < j < |xs| :: AtMost(key(xs[i]), key(xs[j]))
  }

  /** Sorts by key. */
  method SortBy<T(==)>(xs: seq<T>, key: T -> seq<int>) returns (r: seq<T>)
    ensures SortedBy(r, key) && multiset(r) == multiset(xs)
  {
    hide SortedBy, Less;
    r := [];
    var i := 0;
    NothingSorted(key);
    while i < |xs|
      invariant 0 <= i <= |xs|
      invariant SortedBy(r, key) && multiset(r) == multiset(xs[..i])
    {
      var k := |r|;
      while k > 0 && Less(key(xs[i]), key(r[k - 1]))
        invariant 0 <= k <= |r| && forall l | k <= l < |r| :: Less(key(xs[i]), key(r[l]))
      {
        k := k - 1;
      }
      InsertSorted(r, key, k, xs[i]);
      InsertKeeps(xs, i, r, k);
      r := r[..k] + [xs[i]] + r[k..];
      i := i + 1;
    }
    assert xs[..|xs|] == xs;
  }

  lemma NothingSorted<T>(key: T -> seq<int>)
    ensures SortedBy([], key)
  {
  }

  lemma InsertKeeps<T>(xs: seq<T>, i: nat, r: seq<T>, k: nat)
    requires i < |xs| && k <= |r| && multiset(r) == multiset(xs[..i])
    ensures multiset(r[..k] + [xs[i]] + r[k..]) == multiset(xs[..i + 1])
  {
    assert xs[..i + 1] == xs[..i] + [xs[i]];
    assert r == r[..k] + r[k..];
  }

  lemma InsertSorted<T>(r: seq<T>, key: T -> seq<int>, k: nat, x: T)
    requires SortedBy(r, key) && k <= |r|
    requires forall l | k <= l < |r| :: Less(key(x), key(r[l]))
    requires k > 0 ==> !Less(key(x), key(r[k - 1]))
    ensures SortedBy(r[..k] + [x] + r[k..], key)
  {
    var s := r[..k] + [x] + r[k..];
    forall i, j | 0 <= i < j < |s| ensures AtMost(key(s[i]), key(s[j])) {
      if j == k {
        Total(key(x), key(r[k - 1]));
        if i < k - 1 && key(r[i]) != key(r[k - 1]) && key(r[k - 1]) != key(x) {
          Transitive(key(r[i]), key(r[k - 1]), key(x));
        }
      } else if i != k {
        assert AtMost(key(r[if i < k then i else i - 1]), key(r[if j < k then j else j - 1]));
      }
    }
  }

  /** Sorts distinct names into increasing order, keeping each. */
  method Sort(names: seq<seq<int>>) returns (r: seq<seq<int>>)
    requires NoDuplicates(names)
    ensures Increasing(r) && |r| == |names| && forall n :: n in r <==> n in names
  {
    r := SortBy(names, (n: seq<int>) => n);
    SortedIsIncreasing(names, r);
  }

  lemma SortedIsIncreasing(names: seq<seq<int>>, r: seq<seq<int>>)
    requires NoDuplicates(names) && multiset(r) == multiset(names) && SortedBy(r, (n: seq<int>) => n)
    ensures Increasing(r) && |r| == |names| && forall n :: n in r <==> n in names
  {
    assert |multiset(r)| == |multiset(names)|;
    forall n ensures n in r <==> n in names { assert n in multiset(r) <==> n in multiset(names); }
    forall i, j | 0 <= i < j < |r| ensures Less(r[i], r[j]) {
      if r[i] == r[j] {
        TwiceInSeq(r, i, j);
        CountOnce(names, r[i]);
      }
    }
  }
}
