/** The order of names, and the order in which a publication reports its outputs. */
module FileSetNames {
  import opened Sequences
  import opened FileSetModel
  import Lexicographic

  function Units(n: Name): seq<int> { seq(|n|, i requires 0 <= i < |n| => n[i] as int) }

  predicate NameLess(a: Name, b: Name) { Lexicographic.Less(Units(a), Units(b)) }

  predicate NameAtMost(a: Name, b: Name) { a == b || NameLess(a, b) }

  lemma UnitsInjective(a: Name, b: Name)
    requires Units(a) == Units(b)
    ensures a == b
  {
    forall i | 0 <= i < |a| ensures a[i] == b[i] { assert Units(a)[i] == Units(b)[i]; }
  }

  /** The names are ordered by their first difference, and a proper beginning comes first. */
  lemma NameLessExactly(a: Name, b: Name)
    ensures NameLess(a, b) <==>
              exists k: nat :: k <= |a| && k < |b| && a[..k] == b[..k] && (k == |a| || a[k] < b[k])
  {
    var s, t := Units(a), Units(b);
    Lexicographic.LessExactly(s, t);
    if NameLess(a, b) {
      var k: nat :| k <= |s| && k < |t| && s[..k] == t[..k] && (k == |s| || s[k] < t[k]);
      forall i | 0 <= i < k ensures a[i] == b[i] { assert s[..k][i] == t[..k][i]; }
      assert a[..k] == b[..k];
    }
    if k: nat :| k <= |a| && k < |b| && a[..k] == b[..k] && (k == |a| || a[k] < b[k]) {
      forall i | 0 <= i < k ensures s[i] == t[i] { assert a[..k][i] == b[..k][i]; }
      assert s[..k] == t[..k];
    }
  }

  function NamesOf(ms: seq<Member>): (names: seq<Name>)
    ensures |names| == |ms| && forall i | 0 <= i < |ms| :: names[i] == ms[i].name
  {
    seq(|ms|, i requires 0 <= i < |ms| => ms[i].name)
  }

  method SortNames(names: seq<Name>) returns (r: seq<Name>)
    ensures multiset(r) == multiset(names) && forall i, j | 0 <= i < j < |r| :: NameAtMost(r[i], r[j])
  {
    var key := (n: Name) => Units(n);
    r := Lexicographic.SortBy(names, key);
    forall i, j | 0 <= i < j < |r| ensures NameAtMost(r[i], r[j]) {
      assert Lexicographic.AtMost(key(r[i]), key(r[j]));
      if Units(r[i]) == Units(r[j]) { UnitsInjective(r[i], r[j]); }
    }
  }

  /** What commit reports: every output once, in name order but for the primary, which comes first. */
  method ReportedOutputs(ms: seq<Member>, primary: Name) returns (names: seq<Name>)
    requires primary in NamesOf(ms)
    ensures multiset(names) == multiset(NamesOf(ms)) && |names| > 0 && names[0] == primary
    ensures forall i, j | 0 < i < j < |names| :: NameAtMost(names[i], names[j])
  {
    hide NameAtMost;
    var sorted := SortNames(NamesOf(ms));
    assert primary in multiset(NamesOf(ms));
    assert primary in sorted;
    var at := 0;
    while sorted[at] != primary
      invariant 0 <= at < |sorted| && exists q :: at <= q < |sorted| && sorted[q] == primary
      decreases |sorted| - at
    {
      at := at + 1;
    }
    names := [primary] + (sorted[..at] + sorted[at + 1..]);
    InFrontStaysSorted(sorted, at);
  }

  lemma InFrontStaysSorted(sorted: seq<Name>, at: nat)
    requires at < |sorted| && forall i, j | 0 <= i < j < |sorted| :: NameAtMost(sorted[i], sorted[j])
    ensures var names := [sorted[at]] + (sorted[..at] + sorted[at + 1..]);
            && multiset(names) == multiset(sorted)
            && forall i, j | 0 < i < j < |names| :: NameAtMost(names[i], names[j])
  {
    hide NameAtMost;
    MovedToFront(sorted, at);
    var names := [sorted[at]] + (sorted[..at] + sorted[at + 1..]);
    forall i, j | 0 < i < j < |names| ensures NameAtMost(names[i], names[j]) {
      assert names[i] == sorted[if i <= at then i - 1 else i] && names[j] == sorted[if j <= at then j - 1 else j];
    }
  }
}
