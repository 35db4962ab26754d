/** Merging overlapping inputs: what survives when several roots reach the same source. */
module InputMerge {
  import opened Options
  import Sequences
  import AsciiText

  datatype EntryType = File | Dir | Symlink(target: string)

  /** What has to agree when a source is reached twice. */
  datatype Facts = Facts(size: nat, unixMode: Option<nat>, modified: Option<int>, linkTarget: Option<string>)

  /** One collected input; `source` is its normalised source path, unknown when that failed. */
  datatype Candidate = Candidate(name: string, entryType: EntryType, facts: Facts, source: Option<string>, root: nat)

  predicate SameSource(a: Candidate, b: Candidate) { a.entryType == b.entryType && a.facts == b.facts }

  /** The number of non-empty components of a name. */
  function ArchivePathDepth(name: string): nat { Components(name, false) }

  function Components(name: string, inside: bool): nat {
    if name == "" then (if inside then 1 else 0)
    else if name[0] == '/' then (if inside then 1 else 0) + Components(name[1..], false)
    else Components(name[1..], true)
  }

  function Depth(c: Candidate): nat { ArchivePathDepth(c.name) }

  /** `parent` is what stands before one of the slashes of `name`. */
  predicate IsAncestor(parent: string, name: string) {
    0 < |parent| < |name| && name[|parent|] == '/' && parent == name[..|parent|]
  }

  // ----- what survives -----

  predicate SameKey(a: Candidate, b: Candidate) { a.source == b.source }

  /** Among the first `n` candidates, `i` is the earliest of the deepest of its source. */
  predicate Preferred(cs: seq<Candidate>, n: nat, i: nat)
    requires n <= |cs|
  {
    && i < n
    && forall j | 0 <= j < n && SameKey(cs[j], cs[i]) ::
      if j < i then Depth(cs[j]) < Depth(cs[i]) else Depth(cs[j]) <= Depth(cs[i])
  }

  predicate SameDirectory(c: Candidate, root: nat, name: string) {
    c.entryType.Dir? && c.root == root && c.name == name
  }

  /** The first directory of that root with that name. */
  predicate FirstDirectory(cs: seq<Candidate>, d: nat, root: nat, name: string) {
    d < |cs| && SameDirectory(cs[d], root, name) && forall j | 0 <= j < d :: !SameDirectory(cs[j], root, name)
  }

  /** `d` is the first directory of its root and name, above a preferred candidate of that root. */
  predicate AboveKept(cs: seq<Candidate>, d: nat) {
    && d < |cs| && FirstDirectory(cs, d, cs[d].root, cs[d].name)
    && exists i | 0 <= i < |cs| ::
      Preferred(cs, |cs|, i) && cs[i].root == cs[d].root && IsAncestor(cs[d].name, cs[i].name)
  }

  predicate Kept(cs: seq<Candidate>, i: nat) { Preferred(cs, |cs|, i) || AboveKept(cs, i) }

  predicate Keyed(cs: seq<Candidate>) { forall i | 0 <= i < |cs| :: cs[i].source.Some? }

  predicate Consistent(cs: seq<Candidate>, n: nat)
    requires n <= |cs|
  {
    forall i, j | 0 <= i < j < n && SameKey(cs[i], cs[j]) :: SameSource(cs[i], cs[j])
  }

  // ----- picking by position -----

  function Positions(keep: seq<bool>): (r: seq<nat>)
    ensures forall i | i in r :: i < |keep|
  {
    if keep == [] then []
    else Positions(keep[..|keep| - 1]) + if keep[|keep| - 1] then [|keep| - 1] else []
  }

  function Pick(cs: seq<Candidate>, at: seq<nat>): (r: seq<Candidate>)
    requires forall i | i in at :: i < |cs|
    ensures |r| == |at|
  {
    seq(|at|, k requires 0 <= k < |at| => assert at[k] in at; cs[at[k]])
  }

  lemma {:induction false} PositionsShape(keep: seq<bool>)
    ensures forall i: nat :: i in Positions(keep) <==> i < |keep| && keep[i]
    ensures forall a, b | 0 <= a < b < |Positions(keep)| :: Positions(keep)[a] < Positions(keep)[b]
  {
    if keep != [] {
      var rest := keep[..|keep| - 1];
      PositionsShape(rest);
      forall i: nat ensures i in Positions(keep) <==> i < |keep| && keep[i] {
        assert i < |rest| ==> rest[i] == keep[i];
      }
      forall a | 0 <= a < |Positions(rest)|
        ensures Positions(rest)[a] < |rest|
      {
        assert Positions(rest)[a] in Positions(rest);
      }
    }
  }

  function KeepFlags(cs: seq<Candidate>): (keep: seq<bool>)
    ensures |keep| == |cs|
  {
    seq(|cs|, i requires 0 <= i < |cs| => Kept(cs, i))
  }

  /** The survivors, in input order. */
  function Merged(cs: seq<Candidate>): seq<Candidate> {
    Pick(cs, Positions(KeepFlags(cs)))
  }

  // ----- the algorithm -----

  datatype Merge = Items(items: seq<Candidate>) | InputChanged | SourceUnknown

  /** What the first pass keeps: for each source seen, the index of its preferred candidate. */
  predicate PreferredMap(cs: seq<Candidate>, n: nat, preferred: map<string, nat>, keep: seq<bool>)
    requires n <= |cs|
  {
    && |keep| == |cs|
    && (forall s | s in preferred ::
        preferred[s] < n && cs[preferred[s]].source == Some(s) && Preferred(cs, n, preferred[s]))
    && (forall i | 0 <= i < n :: cs[i].source.Some? && cs[i].source.value in preferred)
    && (forall i | 0 <= i < |cs| :: keep[i] <==> i < n && preferred[cs[i].source.value] == i)
  }

  lemma PreferredOnce(cs: seq<Candidate>, n: nat, i: nat, j: nat)
    requires n <= |cs| && Preferred(cs, n, i) && Preferred(cs, n, j) && SameKey(cs[i], cs[j])
    ensures i == j
  {
  }

  lemma PreferredFlags(cs: seq<Candidate>, n: nat, preferred: map<string, nat>, keep: seq<bool>)
    requires n <= |cs| && PreferredMap(cs, n, preferred, keep)
    ensures forall i | 0 <= i < |cs| :: keep[i] <==> Preferred(cs, n, i)
  {
    forall i | 0 <= i < |cs| ensures keep[i] <==> Preferred(cs, n, i) {
      if Preferred(cs, n, i) {
        PreferredOnce(cs, n, i, preferred[cs[i].source.value]);
      }
    }
  }

  /** The next candidate has a new source. */
  lemma NewSource(cs: seq<Candidate>, n: nat, preferred: map<string, nat>, keep: seq<bool>, s: string)
    requires n < |cs| && PreferredMap(cs, n, preferred, keep) && cs[n].source == Some(s) && s !in preferred
    ensures PreferredMap(cs, n + 1, preferred[s := n], keep[n := true])
  {
    hide ArchivePathDepth;
    forall i | 0 <= i < n ensures !SameKey(cs[i], cs[n]) { assert cs[i].source.value in preferred; }
    assert Preferred(cs, n + 1, n);
    forall t | t in preferred ensures Preferred(cs, n + 1, preferred[t]) {
      assert !SameKey(cs[preferred[t]], cs[n]);
    }
  }

  /** The next candidate is deeper than the preferred one. */
  lemma Deeper(cs: seq<Candidate>, n: nat, preferred: map<string, nat>, keep: seq<bool>, s: string)
    requires n < |cs| && PreferredMap(cs, n, preferred, keep) && cs[n].source == Some(s) && s in preferred
    requires Depth(cs[n]) > Depth(cs[preferred[s]])
    ensures PreferredMap(cs, n + 1, preferred[s := n], keep[preferred[s] := false][n := true])
  {
    hide ArchivePathDepth;
    var p := preferred[s];
    forall j | 0 <= j < n && SameKey(cs[j], cs[n]) ensures Depth(cs[j]) < Depth(cs[n]) {
      assert SameKey(cs[j], cs[p]);
    }
    assert Preferred(cs, n + 1, n);
    forall t | t in preferred && t != s ensures Preferred(cs, n + 1, preferred[t]) {
      assert !SameKey(cs[preferred[t]], cs[n]);
    }
  }

  /** The next candidate is not deeper. */
  lemma NotDeeper(cs: seq<Candidate>, n: nat, preferred: map<string, nat>, keep: seq<bool>, s: string)
    requires n < |cs| && PreferredMap(cs, n, preferred, keep) && cs[n].source == Some(s) && s in preferred
    requires Depth(cs[n]) <= Depth(cs[preferred[s]])
    ensures PreferredMap(cs, n + 1, preferred, keep)
  {
    hide ArchivePathDepth;
    forall t | t in preferred ensures Preferred(cs, n + 1, preferred[t]) {
      if t != s { assert !SameKey(cs[preferred[t]], cs[n]); }
    }
  }

  /** The first candidate that has no source, or differs from an earlier one of its source. */
  predicate FirstProblem(cs: seq<Candidate>, n: nat)
    requires n < |cs|
  {
    && (cs[n].source.None? || exists i | 0 <= i < n :: SameKey(cs[i], cs[n]) && !SameSource(cs[i], cs[n]))
    && (forall i | 0 <= i < n :: cs[i].source.Some?) && Consistent(cs, n)
  }

  /** First pass. */
  method ChoosePreferred(cs: seq<Candidate>) returns (outcome: Merge, keep: seq<bool>)
    ensures outcome.Items? <==> Keyed(cs) && Consistent(cs, |cs|)
    ensures outcome.InputChanged? ==> exists n: nat | n < |cs| :: FirstProblem(cs, n) && cs[n].source.Some?
    ensures outcome.SourceUnknown? ==> exists n: nat | n < |cs| :: FirstProblem(cs, n) && cs[n].source.None?
    ensures outcome.Items? ==> |keep| == |cs| && forall i | 0 <= i < |cs| :: keep[i] <==> Preferred(cs, |cs|, i)
  {
    hide Preferred, ArchivePathDepth, SameSource, SameKey;
    var preferred: map<string, nat> := map[];
    keep := seq(|cs|, i => false);
    var index := 0;
    while index < |cs|
      invariant 0 <= index <= |cs|
      invariant PreferredMap(cs, index, preferred, keep) && Consistent(cs, index)
    {
      var c := cs[index];
      if c.source.None? {
        assert FirstProblem(cs, index);
        return SourceUnknown, keep;
      }
      var s := c.source.value;
      if s in preferred {
        var p := preferred[s];
        KnownSource(cs, index, preferred, keep, s);
        if !SameSource(cs[p], c) {
          assert FirstProblem(cs, index);
          return InputChanged, keep;
        }
        StillConsistent(cs, index, p);
        if Depth(c) > Depth(cs[p]) {
          Deeper(cs, index, preferred, keep, s);
          keep := keep[p := false][index := true];
          preferred := preferred[s := index];
        } else {
          NotDeeper(cs, index, preferred, keep, s);
        }
      } else {
        NewSource(cs, index, preferred, keep, s);
        UnknownSource(cs, index, preferred, keep, s);
        keep := keep[index := true];
        preferred := preferred[s := index];
      }
      index := index + 1;
    }
    PreferredFlags(cs, |cs|, preferred, keep);
    outcome := Items([]);
  }

  lemma KnownSource(cs: seq<Candidate>, n: nat, preferred: map<string, nat>, keep: seq<bool>, s: string)
    requires n < |cs| && PreferredMap(cs, n, preferred, keep) && cs[n].source == Some(s) && s in preferred
    ensures SameKey(cs[preferred[s]], cs[n])
  {
    hide Preferred;
  }

  lemma UnknownSource(cs: seq<Candidate>, n: nat, preferred: map<string, nat>, keep: seq<bool>, s: string)
    requires n < |cs| && PreferredMap(cs, n, preferred, keep) && cs[n].source == Some(s) && s !in preferred
             && Consistent(cs, n)
    ensures Consistent(cs, n + 1)
  {
    hide Preferred;
    forall i | 0 <= i < n ensures !SameKey(cs[i], cs[n]) { assert cs[i].source.value in preferred; }
  }

  lemma StillConsistent(cs: seq<Candidate>, n: nat, p: nat)
    requires p < n < |cs| && Consistent(cs, n) && SameKey(cs[p], cs[n]) && SameSource(cs[p], cs[n])
    ensures Consistent(cs, n + 1)
  {
    forall i | 0 <= i < n && SameKey(cs[i], cs[n]) ensures SameSource(cs[i], cs[n]) {
      assert SameKey(cs[i], cs[p]) && SameKey(cs[p], cs[i]);
    }
  }

  /** The first directory of each root and name. */
  method IndexDirectories(cs: seq<Candidate>) returns (directories: map<(nat, string), nat>)
    ensures forall root: nat, name, d: nat ::
              ((root, name) in directories && directories[(root, name)] == d) <==> FirstDirectory(cs, d, root, name)
  {
    directories := map[];
    var index := 0;
    while index < |cs|
      invariant 0 <= index <= |cs|
      invariant forall k | k in directories :: directories[k] < index && FirstDirectory(cs, directories[k], k.0, k.1)
      invariant forall i | 0 <= i < index && cs[i].entryType.Dir? :: (cs[i].root, cs[i].name) in directories
    {
      var c := cs[index];
      if c.entryType.Dir? && (c.root, c.name) !in directories {
        directories := directories[(c.root, c.name) := index];
      }
      index := index + 1;
    }
    forall root: nat, name, d: nat
      ensures ((root, name) in directories && directories[(root, name)] == d) <==> FirstDirectory(cs, d, root, name)
    {
      if FirstDirectory(cs, d, root, name) {
        assert (cs[d].root, cs[d].name) in directories;
        var e := directories[(root, name)];
        assert SameDirectory(cs[e], root, name);
      }
    }
  }

  /** Marks every known directory above one candidate. */
  method MarkAncestors(cs: seq<Candidate>, directories: map<(nat, string), nat>, c: Candidate, before: seq<bool>)
    returns (keep: seq<bool>)
    requires |before| == |cs|
    requires forall root: nat, name, d: nat ::
               ((root, name) in directories && directories[(root, name)] == d) <==> FirstDirectory(cs, d, root, name)
    ensures |keep| == |cs|
    ensures forall d | 0 <= d < |cs| ::
              keep[d] <==> before[d] || (FirstDirectory(cs, d, c.root, cs[d].name) && IsAncestor(cs[d].name, c.name))
  {
    keep := before;
    var name := c.name;
    while true
      invariant |keep| == |cs| && |name| <= |c.name| && name == c.name[..|name|]
      invariant forall d | 0 <= d < |cs| ::
          keep[d] <==>
            || before[d]
            || (FirstDirectory(cs, d, c.root, cs[d].name) && IsAncestor(cs[d].name, c.name) && |cs[d].name| >= |name|)
      decreases |name|
    {
      var slash := AsciiText.LastIndexOf(name, '/');
      if slash.None? || slash.value == 0 {
        forall j | 0 < j < |name| ensures c.name[j] != '/' { assert c.name[j] == name[j]; }
        forall d | 0 <= d < |cs| && IsAncestor(cs[d].name, c.name) ensures |cs[d].name| >= |name| {
          NoMoreAncestors(name, c.name, cs[d].name);
        }
        break;
      }
      var parent := name[..slash.value];
      ghost var kept := keep;
      if (c.root, parent) in directories {
        var d := directories[(c.root, parent)];
        assert FirstDirectory(cs, d, c.root, parent);
        keep := keep[d := true];
      }
      AncestorStep(cs, directories, c, before, kept, keep, name, parent);
      name := parent;
    }
  }

  lemma NoMoreAncestors(name: string, full: string, parent: string)
    requires |name| <= |full| && name == full[..|name|] && IsAncestor(parent, full)
    requires forall j | 0 < j < |name| :: full[j] != '/'
    ensures |parent| >= |name|
  {
  }

  lemma AncestorStep(cs: seq<Candidate>, directories: map<(nat, string), nat>, c: Candidate, before: seq<bool>,
                     kept: seq<bool>, keep: seq<bool>, name: string, parent: string)
    requires |before| == |kept| == |keep| == |cs| && |name| <= |c.name| && name == c.name[..|name|]
    requires 0 < |parent| < |name| && parent == name[..|parent|] && name[|parent|] == '/'
    requires forall j | |parent| < j < |name| :: name[j] != '/'
    requires forall root: nat, n, d: nat ::
               ((root, n) in directories && directories[(root, n)] == d) <==> FirstDirectory(cs, d, root, n)
    requires forall d | 0 <= d < |cs| ::
               kept[d] <==>
                 || before[d]
                 || (FirstDirectory(cs, d, c.root, cs[d].name) && IsAncestor(cs[d].name, c.name)
                     && |cs[d].name| >= |name|)
    requires forall d | 0 <= d < |cs| :: keep[d] <==>
             kept[d] || ((c.root, parent) in directories && directories[(c.root, parent)] == d)
    ensures forall d | 0 <= d < |cs| ::
              keep[d] <==>
                || before[d]
                || (FirstDirectory(cs, d, c.root, cs[d].name) && IsAncestor(cs[d].name, c.name)
                    && |cs[d].name| >= |parent|)
  {
    hide FirstDirectory;
    forall d | 0 <= d < |cs|
      ensures keep[d] <==>
              before[d] || (FirstDirectory(cs, d, c.root, cs[d].name) && IsAncestor(cs[d].name, c.name)
                            && |cs[d].name| >= |parent|)
    {
      var n := cs[d].name;
      if IsAncestor(n, c.name) && |parent| <= |n| < |name| {
        assert name[|n|] == '/';
        assert n == parent;
      }
      if FirstDirectory(cs, d, c.root, parent) { FirstDirectoryName(cs, d, c.root, parent); }
      assert IsAncestor(parent, c.name);
    }
  }

  lemma FirstDirectoryName(cs: seq<Candidate>, d: nat, root: nat, name: string)
    requires FirstDirectory(cs, d, root, name)
    ensures d < |cs| && cs[d].name == name && cs[d].root == root
  {
  }

  /** `deduplicate_collected_inputs`: fails exactly when a source path is unknown or two
      candidates of one source differ, and otherwise returns the survivors in input order. */
  method Deduplicate(cs: seq<Candidate>) returns (r: Merge)
    ensures r.Items? <==> Keyed(cs) && Consistent(cs, |cs|)
    ensures r.InputChanged? ==> exists n: nat | n < |cs| :: FirstProblem(cs, n) && cs[n].source.Some?
    ensures r.SourceUnknown? ==> exists n: nat | n < |cs| :: FirstProblem(cs, n) && cs[n].source.None?
    ensures r.Items? <==>
              && (forall i | 0 <= i < |cs| :: cs[i].source.Some?)
              && forall i, j | 0 <= i < j < |cs| && cs[i].source == cs[j].source ::
                   cs[i].entryType == cs[j].entryType && cs[i].facts == cs[j].facts
    ensures r.Items? ==> r.items == Merged(cs)
  {
    hide Preferred, ArchivePathDepth, FirstDirectory, Consistent, IsAncestor;
    ConsistentExactly(cs);
    var outcome, preferred := ChoosePreferred(cs);
    if !outcome.Items? { return outcome; }
    var directories := IndexDirectories(cs);
    var keep := preferred;
    var index := 0;
    while index < |cs|
      invariant 0 <= index <= |cs| && |keep| == |cs|
      invariant forall d | 0 <= d < |cs| :: keep[d] <==> preferred[d] || MarkedBy(cs, preferred, d, index)
    {
      ghost var before := keep;
      if preferred[index] { keep := MarkAncestors(cs, directories, cs[index], keep); }
      forall d | 0 <= d < |cs| ensures keep[d] <==> preferred[d] || MarkedBy(cs, preferred, d, index + 1) {
        MarkedStep(cs, preferred, d, index);
      }
      index := index + 1;
    }
    MarkedIsKept(cs, preferred, keep);
    var items: seq<Candidate> := [];
    index := 0;
    while index < |cs|
      invariant 0 <= index <= |cs| && items == Pick(cs, Positions(keep[..index]))
    {
      assert keep[..index + 1][..index] == keep[..index];
      if keep[index] { items := items + [cs[index]]; }
      index := index + 1;
    }
    assert keep[..|cs|] == keep;
    r := Items(items);
  }

  lemma ConsistentExactly(cs: seq<Candidate>)
    ensures Consistent(cs, |cs|) <==>
            forall i, j | 0 <= i < j < |cs| && cs[i].source == cs[j].source ::
              cs[i].entryType == cs[j].entryType && cs[i].facts == cs[j].facts
  {
    assert forall i, j | 0 <= i < j < |cs| :: SameKey(cs[i], cs[j]) <==> cs[i].source == cs[j].source;
  }

  /** Some preferred candidate among the first `n` is below directory `d`. */
  predicate MarkedBy(cs: seq<Candidate>, preferred: seq<bool>, d: nat, n: nat)
    requires d < |cs| && |preferred| == |cs| && n <= |cs|
  {
    exists i | 0 <= i < n ::
      preferred[i] && FirstDirectory(cs, d, cs[i].root, cs[d].name) && IsAncestor(cs[d].name, cs[i].name)
  }

  lemma MarkedStep(cs: seq<Candidate>, preferred: seq<bool>, d: nat, n: nat)
    requires d < |cs| && |preferred| == |cs| && n < |cs|
    ensures MarkedBy(cs, preferred, d, n + 1) <==>
            MarkedBy(cs, preferred, d, n)
            || (preferred[n] && FirstDirectory(cs, d, cs[n].root, cs[d].name) && IsAncestor(cs[d].name, cs[n].name))
  {
    hide FirstDirectory, IsAncestor;
  }

  lemma MarkedIsKept(cs: seq<Candidate>, preferred: seq<bool>, keep: seq<bool>)
    requires |preferred| == |keep| == |cs|
    requires forall i | 0 <= i < |cs| :: preferred[i] <==> Preferred(cs, |cs|, i)
    requires forall d | 0 <= d < |cs| :: keep[d] <==> preferred[d] || MarkedBy(cs, preferred, d, |cs|)
    ensures keep == KeepFlags(cs)
  {
    hide Preferred, IsAncestor;
    forall d | 0 <= d < |cs| ensures keep[d] == KeepFlags(cs)[d] {
      if MarkedBy(cs, preferred, d, |cs|) {
        var i :| 0 <= i < |cs| && preferred[i] && FirstDirectory(cs, d, cs[i].root, cs[d].name)
          && IsAncestor(cs[d].name, cs[i].name);
        assert Preferred(cs, |cs|, i);
      }
    }
  }

  // ----- what merging promises -----

  lemma {:induction false} PreferredExists(cs: seq<Candidate>, n: nat, i: nat) returns (p: nat)
    requires i < n <= |cs|
    ensures p < n && SameKey(cs[p], cs[i]) && Preferred(cs, n, p)
  {
    hide ArchivePathDepth;
    if i == n - 1 && forall j | 0 <= j < i :: !SameKey(cs[j], cs[i]) {
      p := i;
    } else {
      var j :| 0 <= j < n - 1 && SameKey(cs[j], cs[i]);
      var q := PreferredExists(cs, n - 1, j);
      forall k | 0 <= k < n - 1 && SameKey(cs[k], cs[i])
        ensures if k < q then Depth(cs[k]) < Depth(cs[q]) else Depth(cs[k]) <= Depth(cs[q])
      {
        SameKeyChain(cs[k], cs[i], cs[j]);
        SameKeyChain(cs[k], cs[j], cs[q]);
      }
      SameKeyChain(cs[q], cs[j], cs[i]);
      p := if SameKey(cs[n - 1], cs[i]) && Depth(cs[n - 1]) > Depth(cs[q]) then n - 1 else q;
      forall k | 0 <= k < n && SameKey(cs[k], cs[p])
        ensures if k < p then Depth(cs[k]) < Depth(cs[p]) else Depth(cs[k]) <= Depth(cs[p])
      {
        SameKeyChain(cs[k], cs[p], cs[i]);
      }
    }
  }

  lemma SameKeyChain(a: Candidate, b: Candidate, c: Candidate)
    requires SameKey(a, b) && (SameKey(b, c) || SameKey(c, b))
    ensures SameKey(a, c) && SameKey(c, a)
  {
  }

  /** Every source that is not a directory survives exactly once. */
  lemma NonDirectoriesOnce(cs: seq<Candidate>, i: nat)
    requires i < |cs| && Consistent(cs, |cs|) && !cs[i].entryType.Dir?
    ensures exists p | 0 <= p < |cs| :: Kept(cs, p) && SameKey(cs[p], cs[i])
    ensures forall p, q | 0 <= p < q < |cs| && SameKey(cs[p], cs[i]) && SameKey(cs[q], cs[i]) ::
            !(Kept(cs, p) && Kept(cs, q))
  {
    hide ArchivePathDepth;
    var p := PreferredExists(cs, |cs|, i);
    assert Kept(cs, p);
    forall j | 0 <= j < |cs| && SameKey(cs[j], cs[i]) ensures !cs[j].entryType.Dir? {
      assert SameKey(cs[i], cs[j]);
    }
  }

  lemma MergedAt(cs: seq<Candidate>) returns (at: seq<nat>)
    ensures at == Positions(KeepFlags(cs)) && (forall i | i in at :: i < |cs|) && Merged(cs) == Pick(cs, at)
    ensures forall a | 0 <= a < |at| :: at[a] < |cs| && Kept(cs, at[a]) && Merged(cs)[a] == cs[at[a]]
    ensures forall i | 0 <= i < |cs| && Kept(cs, i) :: exists a | 0 <= a < |at| :: at[a] == i
    ensures forall a, b | 0 <= a < b < |at| :: at[a] < at[b]
  {
    hide Kept;
    PositionsShape(KeepFlags(cs));
    at := Positions(KeepFlags(cs));
    forall a | 0 <= a < |at| ensures at[a] < |cs| && Kept(cs, at[a]) { assert at[a] in at; }
    forall i | 0 <= i < |cs| && Kept(cs, i) ensures exists a | 0 <= a < |at| :: at[a] == i { assert i in at; }
  }

  lemma PreferredStays(cs: seq<Candidate>, ks: seq<Candidate>, at: seq<nat>, a: nat)
    requires |ks| == |at| && a < |ks| && (forall b | 0 <= b < |at| :: at[b] < |cs| && ks[b] == cs[at[b]])
    requires forall b, c | 0 <= b < c < |at| :: at[b] < at[c]
    requires Preferred(cs, |cs|, at[a])
    ensures Preferred(ks, |ks|, a)
  {
    hide ArchivePathDepth;
    forall b | 0 <= b < |ks| && SameKey(ks[b], ks[a])
      ensures if b < a then Depth(ks[b]) < Depth(ks[a]) else Depth(ks[b]) <= Depth(ks[a])
    {
      assert SameKey(cs[at[b]], cs[at[a]]);
    }
  }

  lemma SurvivorStays(cs: seq<Candidate>, at: seq<nat>, a: nat)
    requires a < |at| == |Merged(cs)|
             && forall b | 0 <= b < |at| :: at[b] < |cs| && Kept(cs, at[b]) && Merged(cs)[b] == cs[at[b]]
    requires forall b, c | 0 <= b < c < |at| :: at[b] < at[c]
    requires forall i | 0 <= i < |cs| && Kept(cs, i) :: exists b | 0 <= b < |at| :: at[b] == i
    ensures Kept(Merged(cs), a)
  {
    hide Preferred, Merged, IsAncestor;
    var ks, d := Merged(cs), at[a];
    if Preferred(cs, |cs|, d) {
      PreferredStays(cs, ks, at, a);
    } else {
      var i :| 0 <= i < |cs| && Preferred(cs, |cs|, i) && cs[i].root == cs[d].root
        && IsAncestor(cs[d].name, cs[i].name);
      assert Kept(cs, i);
      var b :| 0 <= b < |at| && at[b] == i;
      PreferredStays(cs, ks, at, b);
      forall c | 0 <= c < a ensures !SameDirectory(ks[c], ks[a].root, ks[a].name) { assert at[c] < at[a]; }
      assert AboveKept(ks, a);
    }
  }

  lemma {:induction false} AllPositions(keep: seq<bool>)
    requires forall i | 0 <= i < |keep| :: keep[i]
    ensures Positions(keep) == seq(|keep|, i requires 0 <= i < |keep| => i)
  {
    if keep != [] { AllPositions(keep[..|keep| - 1]); }
  }

  /** Merging the survivors again, with their roots, changes nothing. */
  lemma MergeIsIdempotent(cs: seq<Candidate>)
    requires Keyed(cs) && Consistent(cs, |cs|)
    ensures var ks := Merged(cs); Keyed(ks) && Consistent(ks, |ks|) && Merged(ks) == ks
  {
    var at := MergedAt(cs);
    var ks := Merged(cs);
    hide Merged;
    forall a | 0 <= a < |ks| ensures Kept(ks, a) { SurvivorStays(cs, at, a); }
    AllPositions(KeepFlags(ks));
    KeepAll(ks);
    hide Kept;
    forall a, b | 0 <= a < b < |ks| && SameKey(ks[a], ks[b]) ensures SameSource(ks[a], ks[b]) {
      assert SameKey(cs[at[a]], cs[at[b]]);
    }
  }

  lemma KeepAll(ks: seq<Candidate>)
    requires Positions(KeepFlags(ks)) == seq(|ks|, i requires 0 <= i < |ks| => i)
    ensures Merged(ks) == ks
  {
  }

  /** Each directory that stands above a candidate of its root is listed before it. */
  predicate Preordered(cs: seq<Candidate>) {
    forall i, j | 0 <= i < |cs| && 0 <= j < |cs| && IsDirectoryAbove(cs[j], cs[i]) ::
      exists k | 0 <= k < i :: SameDirectory(cs[k], cs[i].root, cs[j].name)
  }

  predicate IsDirectoryAbove(d: Candidate, c: Candidate) {
    d.entryType.Dir? && d.root == c.root && IsAncestor(d.name, c.name)
  }

  lemma {:induction false} FirstDirectoryExists(cs: seq<Candidate>, j: nat, root: nat, name: string) returns (d: nat)
    requires j < |cs| && SameDirectory(cs[j], root, name)
    ensures d <= j && FirstDirectory(cs, d, root, name)
  {
    if k :| 0 <= k < j && SameDirectory(cs[k], root, name) {
      d := FirstDirectoryExists(cs, k, root, name);
    } else {
      d := j;
    }
  }

  lemma AncestorsChain(p: string, q: string, name: string)
    requires IsAncestor(p, q) && IsAncestor(q, name)
    ensures IsAncestor(p, name)
  {
    assert name[|p|] == q[|p|];
  }

  /** For each survivor, every directory its root listed above it also survives, before it. */
  lemma MergedIsParentClosed(cs: seq<Candidate>, a: nat, j: nat)
    requires Preordered(cs) && a < |Merged(cs)| && j < |cs| && IsDirectoryAbove(cs[j], Merged(cs)[a])
    ensures exists b | 0 <= b < a :: SameDirectory(Merged(cs)[b], Merged(cs)[a].root, cs[j].name)
  {
    hide Preferred, Merged, IsAncestor, FirstDirectory;
    var at := MergedAt(cs);
    var i, name := at[a], cs[j].name;
    var k :| 0 <= k < i && SameDirectory(cs[k], cs[i].root, name);
    var d := FirstDirectoryExists(cs, k, cs[i].root, name);
    FirstDirectoryName(cs, d, cs[i].root, name);
    if Preferred(cs, |cs|, i) {
      assert AboveKept(cs, d);
    } else {
      var p :| 0 <= p < |cs| && Preferred(cs, |cs|, p) && cs[p].root == cs[i].root
        && IsAncestor(cs[i].name, cs[p].name);
      AncestorsChain(name, cs[i].name, cs[p].name);
      assert AboveKept(cs, d);
    }
    assert Kept(cs, d);
    var b :| 0 <= b < |at| && at[b] == d;
    OrderOf(at, b, a);
    assert SameDirectory(cs[d], cs[i].root, name) by { FirstDirectoryIs(cs, d, cs[i].root, name); }
  }

  lemma OrderOf(at: seq<nat>, b: nat, a: nat)
    requires a < |at| && b < |at| && at[b] < at[a] && forall x, y | 0 <= x < y < |at| :: at[x] < at[y]
    ensures b < a
  {
  }

  lemma FirstDirectoryIs(cs: seq<Candidate>, d: nat, root: nat, name: string)
    requires FirstDirectory(cs, d, root, name)
    ensures d < |cs| && SameDirectory(cs[d], root, name)
  {
  }

  // ----- which of two names wins -----

  predicate IsComponent(part: string) { part != "" }

  /** The depth of a name is the number of its non-empty components. */
  lemma DepthCountsComponents(name: string)
    ensures ArchivePathDepth(name) == Sequences.CountIf(AsciiText.SplitOn(name, '/'), IsComponent)
  {
    ComponentsOf(name, false);
  }

  lemma {:induction false} ComponentsOf(name: string, inside: bool)
    ensures var parts := AsciiText.SplitOn(name, '/');
            Components(name, inside)
            == if inside then 1 + Sequences.CountIf(parts[1..], IsComponent)
               else Sequences.CountIf(parts, IsComponent)
  {
    var parts := AsciiText.SplitOn(name, '/');
    FirstCounts(parts);
    if name != "" {
      var rest := AsciiText.SplitOn(name[1..], '/');
      FirstCounts(rest);
      ComponentsOf(name[1..], name[0] != '/');
      assert parts[1..] == if name[0] == '/' then rest else rest[1..];
    }
  }

  lemma FirstCounts(parts: seq<string>)
    requires parts != []
    ensures Sequences.CountIf(parts, IsComponent)
         == (if parts[0] == "" then 0 else 1) + Sequences.CountIf(parts[1..], IsComponent)
  {
    assert parts == [parts[0]] + parts[1..];
    Sequences.CountAppend([parts[0]], parts[1..], IsComponent);
    assert [parts[0]][..0] == [];
  }

  lemma {:induction false} DepthBelow(front: string, name: string, inside: bool)
    ensures Components(front + "/" + name, inside) == Components(front, inside) + ArchivePathDepth(name)
  {
    if front == "" {
      assert front + "/" + name == "/" + name;
      assert ("/" + name)[1..] == name;
    } else {
      assert (front + "/" + name)[1..] == front[1..] + "/" + name;
      DepthBelow(front[1..], name, front[0] != '/');
    }
  }

  lemma {:induction false} SomeDepth(front: string, inside: bool)
    requires inside || exists i | 0 <= i < |front| :: front[i] != '/'
    ensures Components(front, inside) > 0
  {
    if front != "" && front[0] == '/' && !inside {
      var i :| 0 <= i < |front| && front[i] != '/';
      assert front[1..][i - 1] == front[i];
      SomeDepth(front[1..], false);
    } else if front != "" && front[0] != '/' {
      SomeDepth(front[1..], true);
    }
  }

  /** The name of `inner` is that of `outer` with directories in front. */
  predicate NestedName(inner: string, outer: string) {
    exists k | 0 < k < |inner| ::
      inner[k] == '/' && inner[k + 1..] == outer && exists i | 0 <= i < k :: inner[i] != '/'
  }

  lemma NestedIsDeeper(inner: string, outer: string)
    requires NestedName(inner, outer)
    ensures ArchivePathDepth(inner) > ArchivePathDepth(outer)
  {
    var k :| 0 < k < |inner| && inner[k] == '/' && inner[k + 1..] == outer && exists i | 0 <= i < k :: inner[i] != '/';
    var front := inner[..k];
    assert inner == front + "/" + outer;
    var i :| 0 <= i < k && inner[i] != '/';
    assert front[i] == inner[i];
    DepthBelow(front, outer, false);
    SomeDepth(front, false);
  }

  /** Where one source is reached by two roots, the name with its directories in front wins; the other
      survives only as a directory above a survivor of its own root. */
  lemma NestedNameWins(cs: seq<Candidate>, i: nat, j: nat)
    requires i < |cs| && j < |cs| && SameKey(cs[i], cs[j]) && NestedName(cs[j].name, cs[i].name)
    ensures Kept(cs, i) ==>
              cs[i].entryType.Dir?
              && exists k | 0 <= k < |cs| ::
                   Kept(cs, k) && cs[k].root == cs[i].root && IsAncestor(cs[i].name, cs[k].name)
  {
    hide ArchivePathDepth, IsAncestor, FirstDirectory;
    NestedIsDeeper(cs[j].name, cs[i].name);
    assert !Preferred(cs, |cs|, i);
    if Kept(cs, i) {
      var k :| 0 <= k < |cs| && Preferred(cs, |cs|, k) && cs[k].root == cs[i].root
               && IsAncestor(cs[i].name, cs[k].name);
      assert Kept(cs, k);
      FirstDirectoryIs(cs, i, cs[i].root, cs[i].name);
    }
  }

  /** So a file that is also reached through a directory is not archived outside of it. */
  lemma NestedFileStaysInside(cs: seq<Candidate>, i: nat, j: nat)
    requires i < |cs| && j < |cs| && SameKey(cs[i], cs[j]) && NestedName(cs[j].name, cs[i].name)
    requires !cs[i].entryType.Dir?
    ensures cs[i] !in Merged(cs)
  {
    hide NestedName, Kept, Merged;
    var at := MergedAt(cs);
    if cs[i] in Merged(cs) {
      var a :| 0 <= a < |Merged(cs)| && Merged(cs)[a] == cs[i];
      assert SameKey(cs[at[a]], cs[j]);
      NestedNameWins(cs, at[a], j);
    }
  }
}
