/** The pruned walk over the inputs, and the manifest that walk and merge make together. */
module InputWalk {
  import opened Options
  import opened InputMerge
  import PathFilter

  // ----- the tree on disk -----

  /** `found` and `listed` say whether metadata and listing can be read; `what` is unknown for
      file types that cannot be archived and for links that cannot be read. */
  datatype Node = Node(found: bool, what: Option<EntryType>, facts: Facts, source: Option<string>, listed: bool,
                       children: Nodes)

  /** Children in path order. */
  datatype Nodes = End | More(name: string, node: Node, rest: Nodes)

  predicate ProperNames(n: Node) { ProperNodes(n.children) }

  predicate ProperNodes(f: Nodes) {
    f.End? || (f.name != "" && '/' !in f.name && ProperNames(f.node) && ProperNodes(f.rest))
  }

  /** `found` is whether its metadata can be read, `readable` whether all the walk needs of it can. */
  datatype Entry = Entry(path: seq<string>, name: string, what: Option<EntryType>, facts: Facts, source: Option<string>,
                         found: bool, readable: bool)

  predicate IsDirectory(n: Node) { n.what == Some(Dir) }

  function SelfEntry(n: Node, path: seq<string>, name: string): Entry {
    Entry(path, name, n.what, n.facts, n.source, n.found, n.found && (IsDirectory(n) ==> n.listed))
  }

  /** Everything, a directory before what is in it. */
  function Everything(n: Node, path: seq<string>, name: string): seq<Entry>
    decreases n
  {
    [SelfEntry(n, path, name)] + if IsDirectory(n) then Below(n.children, path, name) else []
  }

  function Below(f: Nodes, path: seq<string>, name: string): seq<Entry>
    decreases f
  {
    if f.End? then [] else Everything(f.node, path + [f.name], name + "/" + f.name) + Below(f.rest, path, name)
  }

  // ----- what a walk leaves out -----

  /** Internal artifacts and the outputs being written are left out by path, the rest by name. For
      the `refused` paths the caller's check of the path fails. */
  datatype Exclusions = Exclusions(byPath: seq<string> -> bool, refused: seq<string> -> bool, byName: string -> bool)

  predicate NameExcluded(x: Exclusions, name: string) { x.byName(PathFilter.TrimSlashes(name)) }

  /** What is below an excluded name is excluded. */
  ghost predicate ClosedNames(x: Exclusions) {
    forall s: string, t: string | t != "" && x.byName(s) :: x.byName(s + "/" + t)
  }

  /** Neither its name is excluded, nor its path or any path above it. */
  predicate Survives(x: Exclusions, e: Entry) {
    !NameExcluded(x, e.name) && forall k | 0 <= k <= |e.path| :: !x.byPath(e.path[..k])
  }

  function Survivors(x: Exclusions, es: seq<Entry>): seq<Entry> {
    if es == [] then []
    else Survivors(x, es[..|es| - 1]) + if Survives(x, es[|es| - 1]) then [es[|es| - 1]] else []
  }

  lemma {:induction false} SurvivorsAppend(x: Exclusions, a: seq<Entry>, b: seq<Entry>)
    ensures Survivors(x, a + b) == Survivors(x, a) + Survivors(x, b)
  {
    hide Survives;
    if b == [] {
      assert a + b == a;
    } else {
      assert (a + b)[..|a + b| - 1] == a + b[..|b| - 1];
      SurvivorsAppend(x, a, b[..|b| - 1]);
    }
  }

  lemma {:induction false} NoSurvivors(x: Exclusions, es: seq<Entry>)
    requires forall i | 0 <= i < |es| :: !Survives(x, es[i])
    ensures Survivors(x, es) == []
  {
    if es != [] { NoSurvivors(x, es[..|es| - 1]); }
  }

  lemma {:induction false} SurvivorsAre(x: Exclusions, es: seq<Entry>)
    ensures forall e :: e in Survivors(x, es) <==> e in es && Survives(x, e)
  {
    hide Survives;
    if es != [] {
      SurvivorsAre(x, es[..|es| - 1]);
      assert es == es[..|es| - 1] + [es[|es| - 1]];
    }
  }

  // ----- names and paths below a node -----

  ghost predicate IsBelow(e: Entry, path: seq<string>, name: string) {
    && path <= e.path
    && (e.name == name || exists rest: string :: rest != "" && rest[|rest| - 1] != '/' && e.name == name + "/" + rest)
  }

  lemma BelowTrans(e: Entry, path: seq<string>, name: string, child: string)
    requires child != "" && '/' !in child && IsBelow(e, path + [child], name + "/" + child)
    ensures IsBelow(e, path, name)
  {
    if e.name == name + "/" + child {
      assert e.name == name + "/" + child;
    } else {
      var rest: string :| rest != "" && rest[|rest| - 1] != '/' && e.name == name + "/" + child + "/" + rest;
      var whole := child + "/" + rest;
      assert e.name == name + "/" + whole;
    }
  }

  lemma {:induction false} EverythingIsBelow(n: Node, path: seq<string>, name: string)
    requires ProperNames(n)
    ensures forall e | e in Everything(n, path, name) :: IsBelow(e, path, name)
    decreases n
  {
    hide IsBelow;
    BelowIsBelow(n.children, path, name);
    assert IsBelow(SelfEntry(n, path, name), path, name) by { SelfIsBelow(n, path, name); }
  }

  lemma SelfIsBelow(n: Node, path: seq<string>, name: string)
    ensures IsBelow(SelfEntry(n, path, name), path, name)
  {
  }

  lemma {:induction false} BelowIsBelow(f: Nodes, path: seq<string>, name: string)
    requires ProperNodes(f)
    ensures forall e | e in Below(f, path, name) :: IsBelow(e, path, name)
    decreases f
  {
    hide IsBelow;
    if f.More? {
      EverythingIsBelow(f.node, path + [f.name], name + "/" + f.name);
      BelowIsBelow(f.rest, path, name);
      forall e | e in Everything(f.node, path + [f.name], name + "/" + f.name) ensures IsBelow(e, path, name) {
        BelowTrans(e, path, name, f.name);
      }
    }
  }

  /** Pruning loses nothing but matches: below an excluded path or name nothing survives. */
  lemma ExcludedSubtree(x: Exclusions, n: Node, path: seq<string>, name: string)
    requires ProperNames(n) && ClosedNames(x) && (x.byPath(path) || NameExcluded(x, name))
    ensures Survivors(x, Everything(n, path, name)) == []
  {
    hide IsBelow;
    var es := Everything(n, path, name);
    EverythingIsBelow(n, path, name);
    forall i | 0 <= i < |es| ensures !Survives(x, es[i]) {
      assert es[i] in es;
      BelowExcluded(x, es[i], path, name);
    }
    NoSurvivors(x, es);
  }

  lemma BelowExcluded(x: Exclusions, e: Entry, path: seq<string>, name: string)
    requires ClosedNames(x) && IsBelow(e, path, name) && (x.byPath(path) || NameExcluded(x, name))
    ensures !Survives(x, e)
  {
    if x.byPath(path) {
      assert e.path[..|path|] == path;
    } else if e.name != name {
      var rest: string :| rest != "" && rest[|rest| - 1] != '/' && e.name == name + "/" + rest;
      assert PathFilter.TrimSlashes(e.name) == e.name;
      var s := PathFilter.TrimSlashes(name);
      var t := (name + "/" + rest)[|s| + 1..];
      assert (name + "/" + rest)[|s|] == '/';
      assert e.name == s + "/" + t;
    }
  }

  // ----- the walk -----

  /** Items in the order they are emitted. */
  class Collector {
    const root: nat
    var candidates: seq<Candidate>

    constructor (root: nat)
      ensures this.root == root && candidates == []
    {
      this.root, candidates := root, [];
    }

    method Emit(name: string, what: EntryType, facts: Facts, source: Option<string>)
      modifies this
      ensures candidates == old(candidates) + [Candidate(name, what, facts, source, root)]
    {
      candidates := candidates + [Candidate(name, what, facts, source, root)];
    }
  }

  predicate Archivable(x: Exclusions, es: seq<Entry>) {
    forall i | 0 <= i < |es| :: es[i].what.Some? && es[i].readable && !x.refused(es[i].path)
  }

  /** Nothing goes wrong at anything that a walk looks at which prunes by name only afterwards. */
  predicate LookupsSucceed(x: Exclusions, n: Node, path: seq<string>, name: string)
    decreases n
  {
    || x.byPath(path)
    || (!x.refused(path) && n.found
        && (NameExcluded(x, name) || !IsDirectory(n) || LookupsBelow(x, n.children, path, name)))
  }

  predicate LookupsBelow(x: Exclusions, f: Nodes, path: seq<string>, name: string)
    decreases f
  {
    f.End? || (LookupsSucceed(x, f.node, path + [f.name], name + "/" + f.name) && LookupsBelow(x, f.rest, path, name))
  }

  /** When a walk succeeds, by whether it reads metadata before it looks at excluded names. */
  predicate WalkSucceeds(x: Exclusions, n: Node, path: seq<string>, name: string, statBeforeExcludes: bool) {
    Archivable(x, Survivors(x, Everything(n, path, name))) && (statBeforeExcludes ==> LookupsSucceed(x, n, path, name))
  }

  /** The name without its last component. */
  function ParentName(e: Entry): string {
    if e.path == [] || |e.name| <= |e.path[|e.path| - 1]| then ""
    else e.name[..|e.name| - |e.path[|e.path| - 1]| - 1]
  }

  /** No path down to it is excluded, and the name of the directory it is in is not. */
  predicate LookedAt(x: Exclusions, e: Entry, root: seq<string>) {
    && (forall k | 0 <= k <= |e.path| :: !x.byPath(e.path[..k]))
    && (e.path != root ==> !NameExcluded(x, ParentName(e)))
  }

  predicate LooksWell(x: Exclusions, e: Entry) { e.found && !x.refused(e.path) }

  /** The walk that prunes by name afterwards meets exactly the entries that are looked at. */
  ghost predicate AllLookWell(x: Exclusions, es: seq<Entry>, root: seq<string>) {
    forall e | e in es && LookedAt(x, e, root) :: LooksWell(x, e)
  }

  /** An entry that the order of the checks makes a difference for: its name is excluded, no path
      to it and no name above it is, and its metadata or the check of its path fails. */
  ghost predicate TripsOver(x: Exclusions, es: seq<Entry>, root: seq<string>, e: Entry) {
    e in es && LookedAt(x, e, root) && NameExcluded(x, e.name) && !LooksWell(x, e)
  }

  /** With names first, an entry excluded by its name is never a reason to fail; with metadata first
      it is exactly when its metadata or the check of its path fails. */
  lemma OrderMattersForExcluded(x: Exclusions, n: Node, path: seq<string>, name: string)
    requires ProperNames(n) && ClosedNames(x) && NameExcluded(x, name) && !x.byPath(path)
    ensures WalkSucceeds(x, n, path, name, false)
    ensures WalkSucceeds(x, n, path, name, true) <==> n.found && !x.refused(path)
  {
    ExcludedSubtree(x, n, path, name);
  }

  /** Only the order with names first succeeds, exactly when nothing that survives is a reason to fail
      and there is such an excluded entry; the order with metadata first never succeeds alone. */
  lemma OrderMattersExactly(x: Exclusions, n: Node, path: seq<string>, name: string)
    requires ProperNames(n) && ClosedNames(x) && forall k | 0 <= k < |path| :: !x.byPath(path[..k])
    ensures WalkSucceeds(x, n, path, name, true) ==> WalkSucceeds(x, n, path, name, false)
    ensures WalkSucceeds(x, n, path, name, false) && !WalkSucceeds(x, n, path, name, true)
            <==> Archivable(x, Survivors(x, Everything(n, path, name)))
                 && exists e :: TripsOver(x, Everything(n, path, name), path, e)
  {
    hide ClosedNames, Everything, Survivors, LookedAt, LookupsSucceed;
    var es := Everything(n, path, name);
    LookupsAreOfLookedAt(x, n, path, name);
    SurvivorsAre(x, es);
    if Archivable(x, Survivors(x, es)) && !AllLookWell(x, es, path) {
      var e :| e in es && LookedAt(x, e, path) && !LooksWell(x, e);
      if !NameExcluded(x, e.name) {
        LookedAtSurvives(x, e, path);
        var i :| 0 <= i < |Survivors(x, es)| && Survivors(x, es)[i] == e;
        FoundIfReadable(n, path, name, e);
        assert false;
      }
      assert TripsOver(x, es, path, e);
    }
  }

  lemma LookedAtSurvives(x: Exclusions, e: Entry, root: seq<string>)
    requires LookedAt(x, e, root) && !NameExcluded(x, e.name)
    ensures Survives(x, e)
  {
  }

  lemma {:induction false} FoundIfReadable(n: Node, path: seq<string>, name: string, e: Entry)
    requires e in Everything(n, path, name) && e.readable
    ensures e.found
    decreases n
  {
    if e != SelfEntry(n, path, name) { FoundIfReadableBelow(n.children, path, name, e); }
  }

  lemma {:induction false} FoundIfReadableBelow(f: Nodes, path: seq<string>, name: string, e: Entry)
    requires e in Below(f, path, name) && e.readable
    ensures e.found
    decreases f
  {
    if e in Below(f.rest, path, name) {
      FoundIfReadableBelow(f.rest, path, name, e);
    } else {
      FoundIfReadable(f.node, path + [f.name], name + "/" + f.name, e);
    }
  }

  /** The lookups of a walk are those of the entries looked at. */
  lemma {:induction false} LookupsAreOfLookedAt(x: Exclusions, n: Node, path: seq<string>, name: string)
    requires ProperNames(n) && ClosedNames(x) && forall k | 0 <= k < |path| :: !x.byPath(path[..k])
    ensures LookupsSucceed(x, n, path, name) <==> AllLookWell(x, Everything(n, path, name), path)
    decreases n
  {
    hide ClosedNames, Below, LookupsBelow, LookedAt, NameExcluded;
    var self := SelfEntry(n, path, name);
    if x.byPath(path) {
      PathExcludedBelow(x, n, path, name);
    } else {
      RootIsLookedAt(x, self);
      if IsDirectory(n) {
        if NameExcluded(x, name) {
          NothingLookedAt(x, n.children, path, name);
        } else {
          LookupsBelowAreOfLookedAt(x, n.children, path, name);
        }
      }
    }
  }

  lemma RootIsLookedAt(x: Exclusions, self: Entry)
    requires !x.byPath(self.path) && forall k | 0 <= k < |self.path| :: !x.byPath(self.path[..k])
    ensures LookedAt(x, self, self.path)
  {
    assert self.path[..|self.path|] == self.path;
  }

  lemma PathExcludedBelow(x: Exclusions, n: Node, path: seq<string>, name: string)
    requires ProperNames(n) && x.byPath(path)
    ensures forall e | e in Everything(n, path, name) :: !LookedAt(x, e, path)
  {
    EverythingIsBelow(n, path, name);
    forall e | e in Everything(n, path, name) ensures !LookedAt(x, e, path) { assert e.path[..|path|] == path; }
  }

  lemma {:induction false} LookupsBelowAreOfLookedAt(x: Exclusions, f: Nodes, path: seq<string>, name: string)
    requires ProperNodes(f) && ClosedNames(x) && !NameExcluded(x, name)
    requires !x.byPath(path) && forall k | 0 <= k < |path| :: !x.byPath(path[..k])
    ensures LookupsBelow(x, f, path, name) <==> AllLookWell(x, Below(f, path, name), path)
    decreases f
  {
    hide ClosedNames, LookedAt, NameExcluded, LooksWell, Everything, LookupsSucceed;
    if f.More? {
      var child, childName := path + [f.name], name + "/" + f.name;
      var es := Everything(f.node, child, childName);
      PrefixesOf(x, path, f.name);
      LookupsAreOfLookedAt(x, f.node, child, childName);
      LookupsBelowAreOfLookedAt(x, f.rest, path, name);
      forall e | e in es ensures LookedAt(x, e, child) <==> LookedAt(x, e, path) {
        ParentOfEntry(f.node, path, name, f.name, e);
        SameLook(x, e, child, path, name);
      }
    }
  }

  lemma SameLook(x: Exclusions, e: Entry, child: seq<string>, path: seq<string>, name: string)
    requires |e.path| > |path| && !NameExcluded(x, name) && (e.path == child ==> ParentName(e) == name)
    ensures LookedAt(x, e, child) <==> LookedAt(x, e, path)
  {
  }

  /** A directory's name, or one below it. */
  ghost predicate IsAtOrBelow(s: string, name: string) {
    s == name || exists rest: string :: rest != "" && rest[|rest| - 1] != '/' && s == name + "/" + rest
  }

  /** An entry below is deeper, and the directory it is in is this one or one below. */
  ghost predicate IsInside(e: Entry, path: seq<string>, name: string) {
    path < e.path && IsAtOrBelow(ParentName(e), name)
  }

  lemma AtOrBelowTrans(s: string, name: string, child: string)
    requires child != "" && '/' !in child && IsAtOrBelow(s, name + "/" + child)
    ensures IsAtOrBelow(s, name)
  {
    if s != name + "/" + child {
      var rest: string :| rest != "" && rest[|rest| - 1] != '/' && s == name + "/" + child + "/" + rest;
      var longer := child + "/" + rest;
      assert s == name + "/" + longer;
    }
  }

  lemma ParentOfSelf(n: Node, path: seq<string>, name: string, child: string)
    ensures ParentName(SelfEntry(n, path + [child], name + "/" + child)) == name
  {
    assert (name + "/" + child)[..|name|] == name;
  }

  lemma {:induction false} BelowIsInside(f: Nodes, path: seq<string>, name: string, e: Entry)
    requires ProperNodes(f) && e in Below(f, path, name)
    ensures IsInside(e, path, name)
    decreases f
  {
    hide IsInside;
    if e in Below(f.rest, path, name) {
      BelowIsInside(f.rest, path, name, e);
    } else {
      ParentOfEntry(f.node, path, name, f.name, e);
    }
  }

  lemma {:induction false} ParentOfEntry(n: Node, path: seq<string>, name: string, child: string, e: Entry)
    requires ProperNames(n) && child != "" && '/' !in child && e in Everything(n, path + [child], name + "/" + child)
    ensures IsInside(e, path, name) && (e.path == path + [child] ==> ParentName(e) == name)
    decreases n
  {
    hide IsAtOrBelow, ParentName, Below, SelfEntry;
    var self, whole := SelfEntry(n, path + [child], name + "/" + child), name + "/" + child;
    ParentOfSelf(n, path, name, child);
    if e == self {
      SelfPath(n, path + [child], whole);
      AtItself(name);
    } else {
      BelowIsInside(n.children, path + [child], whole, e);
      AtOrBelowTrans(ParentName(e), name, child);
    }
  }

  lemma SelfPath(n: Node, path: seq<string>, name: string)
    ensures SelfEntry(n, path, name).path == path
  {
  }

  lemma AtItself(name: string)
    ensures IsAtOrBelow(name, name)
  {
  }

  /** In a directory whose name is excluded nothing is looked at. */
  lemma NothingLookedAt(x: Exclusions, f: Nodes, path: seq<string>, name: string)
    requires ProperNodes(f) && ClosedNames(x) && NameExcluded(x, name)
    ensures forall e | e in Below(f, path, name) :: !LookedAt(x, e, path)
  {
    hide ClosedNames, NameExcluded, Below;
    forall e | e in Below(f, path, name) ensures !LookedAt(x, e, path) {
      BelowIsInside(f, path, name, e);
      if ParentName(e) != name {
        var rest: string :| rest != "" && rest[|rest| - 1] != '/' && ParentName(e) == name + "/" + rest;
        assert ParentName(e)[..|name|] == name;
        NameExcludedBelow(x, name, ParentName(e), |name|);
      }
    }
  }

  /** Where everything can be read and no path is refused the order does not matter. */
  lemma {:induction false} FoundLookups(x: Exclusions, n: Node, path: seq<string>, name: string)
    requires forall e | e in Everything(n, path, name) :: e.readable && !x.refused(e.path)
    ensures LookupsSucceed(x, n, path, name)
    decreases n
  {
    assert SelfEntry(n, path, name) in Everything(n, path, name);
    if IsDirectory(n) { FoundLookupsBelow(x, n.children, path, name); }
  }

  lemma {:induction false} FoundLookupsBelow(x: Exclusions, f: Nodes, path: seq<string>, name: string)
    requires forall e | e in Below(f, path, name) :: e.readable && !x.refused(e.path)
    ensures LookupsBelow(x, f, path, name)
    decreases f
  {
    if f.More? {
      FoundLookups(x, f.node, path + [f.name], name + "/" + f.name);
      FoundLookupsBelow(x, f.rest, path, name);
    }
  }

  function Candidates(es: seq<Entry>, root: nat): (r: seq<Candidate>)
    requires forall i | 0 <= i < |es| :: es[i].what.Some?
    ensures |r| == |es|
  {
    seq(|es|, i requires 0 <= i < |es| => Candidate(es[i].name, es[i].what.value, es[i].facts, es[i].source, root))
  }

  lemma CandidatesAppend(x: Exclusions, a: seq<Entry>, b: seq<Entry>, root: nat)
    requires Archivable(x, a) && Archivable(x, b)
    ensures Archivable(x, a + b) && Candidates(a + b, root) == Candidates(a, root) + Candidates(b, root)
  {
  }

  /** `walk_named`. It emits everything but what is excluded, in the same order, and fails exactly
      when something that is not excluded cannot be archived or read or its path is refused, or when
      metadata comes before names and so with something that is only excluded by its own name. */
  method WalkNamed(c: Collector, x: Exclusions, n: Node, path: seq<string>, name: string, statBeforeExcludes: bool)
    returns (ok: bool)
    requires ProperNames(n) && ClosedNames(x)
    requires forall k | 0 <= k < |path| :: !x.byPath(path[..k])
    modifies c
    ensures ok <==> WalkSucceeds(x, n, path, name, statBeforeExcludes)
    ensures ok ==> c.candidates == old(c.candidates) + Candidates(Survivors(x, Everything(n, path, name)), c.root)
    decreases n
  {
    hide Survives, ClosedNames, Everything, Below, Survivors, Candidates;
    if !statBeforeExcludes && x.byName(PathFilter.TrimSlashes(name)) {
      NothingEmitted(x, n, path, name, c.candidates, c.root);
      return true;
    }
    if x.byPath(path) {
      NothingEmitted(x, n, path, name, c.candidates, c.root);
      return true;
    }
    if x.refused(path) {
      if !NameExcluded(x, name) {
        EmittedFirst(x, n, path, name);
        assert Survivors(x, Everything(n, path, name))[0] == SelfEntry(n, path, name);
      }
      return false;
    }
    if statBeforeExcludes && !n.found { return false; }
    if statBeforeExcludes && x.byName(PathFilter.TrimSlashes(name)) {
      NothingEmitted(x, n, path, name, c.candidates, c.root);
      return true;
    }
    var self := SelfEntry(n, path, name);
    EmittedFirst(x, n, path, name);
    if !n.found || n.what.None? {
      assert Survivors(x, Everything(n, path, name))[0] == self;
      return false;
    }
    SelfCandidate(x, n, path, name, c.candidates, c.root);
    c.Emit(name, n.what.value, n.facts, n.source);
    if !IsDirectory(n) { return true; }
    if !n.listed {
      assert Survivors(x, Everything(n, path, name))[0] == self;
      return false;
    }
    ghost var all := Survivors(x, Everything(n, path, name));
    ghost var done: seq<Entry> := [self];
    ghost var before := old(c.candidates);
    var rest := n.children;
    hide Archivable;
    while rest.More?
      invariant ProperNodes(rest) && (rest.End? || rest < n) && Archivable(x, done)
      invariant all == done + Survivors(x, Below(rest, path, name))
      invariant c.candidates == before + Candidates(done, c.root)
      invariant statBeforeExcludes ==> (LookupsBelow(x, n.children, path, name) <==> LookupsBelow(x, rest, path, name))
      decreases rest
    {
      ghost var found := Survivors(x, Everything(rest.node, path + [rest.name], name + "/" + rest.name));
      ghost var later := Survivors(x, Below(rest.rest, path, name));
      BelowStep(x, rest, path, name);
      Associate(done, found, later);
      PrefixesOf(x, path, rest.name);
      ok := WalkNamed(c, x, rest.node, path + [rest.name], name + "/" + rest.name, statBeforeExcludes);
      if !ok {
        if !Archivable(x, found) { NotArchivable(x, done, found, later); }
        return;
      }
      CandidatesAppend(x, done, found, c.root);
      Associate(before, Candidates(done, c.root), Candidates(found, c.root));
      done := done + found;
      rest := rest.rest;
    }
    NothingBelow(x, path, name, done);
    ok := true;
  }

  lemma Associate<T>(a: seq<T>, b: seq<T>, c: seq<T>)
    ensures a + b + c == a + (b + c)
  {
  }

  lemma NothingEmitted(x: Exclusions, n: Node, path: seq<string>, name: string, before: seq<Candidate>, root: nat)
    requires ProperNames(n) && ClosedNames(x) && (x.byPath(path) || x.byName(PathFilter.TrimSlashes(name)))
    ensures Archivable(x, Survivors(x, Everything(n, path, name)))
    ensures before == before + Candidates(Survivors(x, Everything(n, path, name)), root)
  {
    hide Survivors, Everything, Survives, ClosedNames;
    ExcludedSubtree(x, n, path, name);
  }

  /** What is not excluded itself is emitted first, and then what is in it. */
  lemma EmittedFirst(x: Exclusions, n: Node, path: seq<string>, name: string)
    requires !x.byName(PathFilter.TrimSlashes(name)) && !x.byPath(path)
             && forall k | 0 <= k < |path| :: !x.byPath(path[..k])
    ensures Survivors(x, Everything(n, path, name))
         == [SelfEntry(n, path, name)] + if IsDirectory(n) then Survivors(x, Below(n.children, path, name)) else []
  {
    hide Survives, Below;
    var below := if IsDirectory(n) then Below(n.children, path, name) else [];
    SelfSurvives(x, n, path, name);
    SurvivorsAppend(x, [SelfEntry(n, path, name)], below);
  }

  lemma SelfCandidate(x: Exclusions, n: Node, path: seq<string>, name: string, before: seq<Candidate>, root: nat)
    requires n.what.Some? && !x.refused(path)
    ensures var self := [SelfEntry(n, path, name)];
            && (n.found && (IsDirectory(n) ==> n.listed) ==> Archivable(x, self)) && self + [] == self
            && before + [Candidate(name, n.what.value, n.facts, n.source, root)] == before + Candidates(self, root)
  {
    assert Candidates([SelfEntry(n, path, name)], root) == [Candidate(name, n.what.value, n.facts, n.source, root)];
  }

  lemma BelowStep(x: Exclusions, f: Nodes, path: seq<string>, name: string)
    requires f.More?
    ensures Survivors(x, Below(f, path, name))
         == Survivors(x, Everything(f.node, path + [f.name], name + "/" + f.name))
           + Survivors(x, Below(f.rest, path, name))
  {
    hide Everything, Survivors;
    SurvivorsAppend(x, Everything(f.node, path + [f.name], name + "/" + f.name), Below(f.rest, path, name));
  }

  lemma NothingBelow(x: Exclusions, path: seq<string>, name: string, done: seq<Entry>)
    ensures done + Survivors(x, Below(End, path, name)) == done
  {
  }

  lemma PrefixesOf(x: Exclusions, path: seq<string>, child: string)
    requires !x.byPath(path) && forall k | 0 <= k < |path| :: !x.byPath(path[..k])
    ensures forall k | 0 <= k < |path + [child]| :: !x.byPath((path + [child])[..k])
  {
    forall k | 0 <= k < |path| + 1 ensures !x.byPath((path + [child])[..k]) {
      assert (path + [child])[..k] == if k < |path| then path[..k] else path;
    }
  }

  lemma SelfSurvives(x: Exclusions, n: Node, path: seq<string>, name: string)
    requires !x.byName(PathFilter.TrimSlashes(name)) && !x.byPath(path)
             && forall k | 0 <= k < |path| :: !x.byPath(path[..k])
    ensures Survivors(x, [SelfEntry(n, path, name)]) == [SelfEntry(n, path, name)]
  {
    var self := SelfEntry(n, path, name);
    assert path[..|path|] == path;
    assert Survives(x, self);
    assert [self][..0] == [];
  }

  lemma NotArchivable(x: Exclusions, a: seq<Entry>, b: seq<Entry>, c: seq<Entry>)
    requires !Archivable(x, b)
    ensures !Archivable(x, a + b + c)
  {
    var i :| 0 <= i < |b| && !(b[i].what.Some? && b[i].readable && !x.refused(b[i].path));
    assert (a + b + c)[|a| + i] == b[i];
  }

  // ----- parents come first -----

  predicate IsParentEntry(p: Entry, e: Entry, slash: nat) {
    p.what == Some(Dir) && slash < |e.name| && p.name == e.name[..slash] && p.path <= e.path
  }

  /** For each slash past the first `from` characters of a name, the directory before it is listed earlier. */
  ghost predicate ParentsFirst(es: seq<Entry>, from: nat) {
    forall a, slash: nat | 0 <= a < |es| && from <= slash < |es[a].name| && es[a].name[slash] == '/' ::
      ParentBefore(es, a, slash)
  }

  ghost predicate ParentBefore(es: seq<Entry>, a: nat, slash: nat)
    requires a < |es|
  {
    exists b | 0 <= b < a :: IsParentEntry(es[b], es[a], slash)
  }

  predicate InsideBelow(es: seq<Entry>, path: seq<string>, name: string) {
    forall a | 0 <= a < |es| ::
      path <= es[a].path && |es[a].name| > |name| && es[a].name[..|name|] == name && es[a].name[|name|] == '/'
  }

  /** In everything below a directory, a name's parents come first, but for the directory itself. */
  lemma {:induction false} ParentsInside(f: Nodes, path: seq<string>, name: string)
    requires ProperNodes(f)
    ensures InsideBelow(Below(f, path, name), path, name) && ParentsFirst(Below(f, path, name), |name| + 1)
    decreases f
  {
    hide IsParentEntry, InsideBelow, ParentsFirst;
    if f.End? {
      NothingInside(path, name);
    } else {
      var child, rest := Everything(f.node, path + [f.name], name + "/" + f.name), Below(f.rest, path, name);
      ParentsOf(f.node, path + [f.name], name + "/" + f.name);
      ParentsInside(f.rest, path, name);
      ChildBlock(child, path, name, f.name);
      JoinBlocks(child, rest, path, name);
    }
  }

  lemma NothingInside(path: seq<string>, name: string)
    ensures InsideBelow([], path, name) && ParentsFirst([], |name| + 1)
  {
  }

  /** Names below a node start with its name, and their parents come first. */
  ghost predicate Block(es: seq<Entry>, path: seq<string>, name: string) {
    && (forall a | 0 <= a < |es| :: path <= es[a].path && |es[a].name| >= |name| && es[a].name[..|name|] == name
                                    && (|es[a].name| > |name| ==> es[a].name[|name|] == '/'))
    && ParentsFirst(es, |name|)
  }

  lemma {:induction false} ParentsOf(n: Node, path: seq<string>, name: string)
    requires ProperNames(n)
    ensures Block(Everything(n, path, name), path, name)
    decreases n
  {
    hide InsideBelow, ParentsFirst, Block;
    if IsDirectory(n) { ParentsInside(n.children, path, name); } else { NothingInside(path, name); }
    PrependDirectory(SelfEntry(n, path, name), if IsDirectory(n) then Below(n.children, path, name) else []);
  }

  lemma PrependDirectory(self: Entry, below: seq<Entry>)
    requires InsideBelow(below, self.path, self.name) && ParentsFirst(below, |self.name| + 1)
    requires below != [] ==> self.what == Some(Dir)
    ensures Block([self] + below, self.path, self.name)
  {
    var es := [self] + below;
    forall a, slash: nat | 0 <= a < |es| && |self.name| <= slash < |es[a].name| && es[a].name[slash] == '/'
      ensures ParentBefore(es, a, slash)
    {
      assert es[a] == below[a - 1];
      if slash == |self.name| {
        assert IsParentEntry(es[0], es[a], slash);
      } else {
        assert ParentBefore(below, a - 1, slash);
        var b :| 0 <= b < a - 1 && IsParentEntry(below[b], below[a - 1], slash);
        assert es[b + 1] == below[b];
      }
    }
  }

  lemma ChildBlock(es: seq<Entry>, path: seq<string>, name: string, child: string)
    requires Block(es, path + [child], name + "/" + child) && child != "" && '/' !in child
    ensures InsideBelow(es, path, name) && ParentsFirst(es, |name| + 1)
  {
    hide IsParentEntry;
    var whole := name + "/" + child;
    forall a | 0 <= a < |es|
      ensures path <= es[a].path && |es[a].name| > |name| && es[a].name[..|name|] == name && es[a].name[|name|] == '/'
    {
      var e := es[a].name;
      assert e[..|name|] == e[..|whole|][..|name|] == whole[..|name|] == name;
      assert e[|name|] == whole[|name|];
    }
    forall a, i | 0 <= a < |es| && |name| < i < |whole| ensures es[a].name[i] != '/' {
      assert es[a].name[i] == es[a].name[..|whole|][i] == whole[i] == child[i - |name| - 1];
    }
  }

  lemma JoinBlocks(a: seq<Entry>, b: seq<Entry>, path: seq<string>, name: string)
    requires InsideBelow(a, path, name) && ParentsFirst(a, |name| + 1)
    requires InsideBelow(b, path, name) && ParentsFirst(b, |name| + 1)
    ensures InsideBelow(a + b, path, name) && ParentsFirst(a + b, |name| + 1)
  {
    hide IsParentEntry;
    var es := a + b;
    forall i, slash: nat | 0 <= i < |es| && |name| + 1 <= slash < |es[i].name| && es[i].name[slash] == '/'
      ensures ParentBefore(es, i, slash)
    {
      if i < |a| {
        assert ParentBefore(a, i, slash);
        var k :| 0 <= k < i && IsParentEntry(a[k], a[i], slash);
        assert es[k] == a[k];
      } else {
        assert ParentBefore(b, i - |a|, slash);
        var k :| 0 <= k < i - |a| && IsParentEntry(b[k], b[i - |a|], slash);
        assert es[k + |a|] == b[k];
      }
    }
  }

  lemma ParentSurvives(x: Exclusions, p: Entry, e: Entry, slash: nat)
    requires ClosedNames(x) && IsParentEntry(p, e, slash) && Survives(x, e) && e.name[slash] == '/'
             && e.name[|e.name| - 1] != '/'
    ensures Survives(x, p)
  {
    forall k | 0 <= k <= |p.path| ensures !x.byPath(p.path[..k]) { assert p.path[..k] == e.path[..k]; }
    NameExcludedBelow(x, p.name, e.name, slash);
  }

  lemma NameExcludedBelow(x: Exclusions, p: string, name: string, slash: nat)
    requires ClosedNames(x) && slash < |name| && p == name[..slash] && name[slash] == '/' && name[|name| - 1] != '/'
    ensures NameExcluded(x, p) ==> NameExcluded(x, name)
  {
    var s := PathFilter.TrimSlashes(p);
    var t := name[|s| + 1..];
    assert name[|s|] == '/' by { if |s| < slash { assert p[|s|] == name[|s|]; } }
    assert name == s + "/" + t;
    assert PathFilter.TrimSlashes(name) == name;
  }

  /** The parents of a survivor survive, and still come first. */
  lemma {:induction false} SurvivorsKeepParents(x: Exclusions, es: seq<Entry>, from: nat)
    requires ClosedNames(x) && ParentsFirst(es, from)
    requires forall i | 0 <= i < |es| :: |es[i].name| > from ==> es[i].name[|es[i].name| - 1] != '/'
    ensures ParentsFirst(Survivors(x, es), from)
  {
    hide IsParentEntry, Survives, ClosedNames;
    if es != [] {
      var init, last := es[..|es| - 1], es[|es| - 1];
      ParentsFirstPrefix(es, from);
      SurvivorsKeepParents(x, init, from);
      var before, all := Survivors(x, init), Survivors(x, es);
      SurvivorsAre(x, init);
      forall a, slash: nat | 0 <= a < |all| && from <= slash < |all[a].name| && all[a].name[slash] == '/'
        ensures ParentBefore(all, a, slash)
      {
        if a < |before| {
          assert ParentBefore(before, a, slash);
          var b :| 0 <= b < a && IsParentEntry(before[b], before[a], slash);
          assert all[b] == before[b];
        } else {
          assert ParentBefore(es, |es| - 1, slash);
          var b :| 0 <= b < |es| - 1 && IsParentEntry(es[b], last, slash);
          ParentSurvives(x, es[b], last, slash);
          assert es[b] == init[b] && init[b] in before;
          var k :| 0 <= k < |before| && before[k] == es[b];
          assert all[k] == before[k];
        }
      }
    }
  }

  lemma ParentsFirstPrefix(es: seq<Entry>, from: nat)
    requires es != [] && ParentsFirst(es, from)
    ensures ParentsFirst(es[..|es| - 1], from)
  {
    hide IsParentEntry;
    var init := es[..|es| - 1];
    forall a, slash: nat | 0 <= a < |init| && from <= slash < |init[a].name| && init[a].name[slash] == '/'
      ensures ParentBefore(init, a, slash)
    {
      assert ParentBefore(es, a, slash);
      var b :| 0 <= b < a && IsParentEntry(es[b], es[a], slash);
      assert init[b] == es[b];
    }
  }

  // ----- the manifest -----

  /** One input root; `artifact` marks a transaction file of the program itself. */
  datatype Input = Input(node: Node, name: string, artifact: bool, excluded: Exclusions)

  ghost predicate ProperInput(i: Input) { ProperNames(i.node) && ClosedNames(i.excluded) }

  function Emitted(i: Input): seq<Entry> { Survivors(i.excluded, Everything(i.node, [], i.name)) }

  predicate Collectable(inputs: seq<Input>, n: nat)
    requires n <= |inputs|
  {
    forall k | 0 <= k < n ::
      !inputs[k].artifact && Archivable(inputs[k].excluded, Emitted(inputs[k]))
      && LookupsSucceed(inputs[k].excluded, inputs[k].node, [], inputs[k].name)
  }

  /** What the roots emit, one after the other. */
  function AllCandidates(inputs: seq<Input>, n: nat): seq<Candidate>
    requires n <= |inputs| && Collectable(inputs, n)
  {
    if n == 0 then [] else AllCandidates(inputs, n - 1) + Candidates(Emitted(inputs[n - 1]), n - 1)
  }

  datatype Collected = Manifest(items: seq<Candidate>) | NotCollectable | Changed | Unknown

  /** `collect_inputs_mapped_with_progress` */
  method CollectInputs(inputs: seq<Input>, deduplicate: bool) returns (r: Collected)
    requires forall k | 0 <= k < |inputs| :: ProperInput(inputs[k])
    ensures r.NotCollectable? <==> !Collectable(inputs, |inputs|)
    ensures Collectable(inputs, |inputs|) ==>
              var all := AllCandidates(inputs, |inputs|);
              if !deduplicate then r == Manifest(all)
              else (r.Manifest? <==> Keyed(all) && Consistent(all, |all|)) && (r.Manifest? ==> r.items == Merged(all))
  {
    hide Survivors, Everything, Merged, Consistent, Keyed, Candidates;
    var candidates: seq<Candidate> := [];
    var k := 0;
    while k < |inputs|
      invariant 0 <= k <= |inputs| && Collectable(inputs, k) && candidates == AllCandidates(inputs, k)
    {
      if inputs[k].artifact { return NotCollectable; }
      var c := new Collector(k);
      var ok := WalkNamed(c, inputs[k].excluded, inputs[k].node, [], inputs[k].name, true);
      if !ok { return NotCollectable; }
      assert c.candidates == Candidates(Emitted(inputs[k]), k);
      candidates := candidates + c.candidates;
      k := k + 1;
    }
    if !deduplicate { return Manifest(candidates); }
    var merged := Deduplicate(candidates);
    match merged {
      case Items(items) => r := Manifest(items);
      case InputChanged => r := Changed;
      case SourceUnknown => r := Unknown;
    }
  }

  lemma EmittedBlock(i: Input)
    requires ProperInput(i)
    ensures Block(Emitted(i), [], i.name)
  {
    hide Survives, ClosedNames, IsBelow, ParentsFirst;
    var es := Everything(i.node, [], i.name);
    ParentsOf(i.node, [], i.name);
    EverythingIsBelow(i.node, [], i.name);
    forall k | 0 <= k < |es| ensures |es[k].name| > |i.name| ==> es[k].name[|es[k].name| - 1] != '/' {
      assert es[k] in es;
      BelowEnds(es[k], [], i.name);
    }
    SurvivorsKeepParents(i.excluded, es, |i.name|);
    SurvivorsAre(i.excluded, es);
    forall a | 0 <= a < |Emitted(i)|
      ensures Emitted(i)[a] in es
    {
      assert Emitted(i)[a] in Emitted(i);
    }
  }

  lemma BelowEnds(e: Entry, path: seq<string>, name: string)
    requires IsBelow(e, path, name)
    ensures |e.name| > |name| ==> e.name[|e.name| - 1] != '/'
  {
    if e.name != name {
      var rest: string :| rest != "" && rest[|rest| - 1] != '/' && e.name == name + "/" + rest;
      assert e.name[|e.name| - 1] == rest[|rest| - 1];
    }
  }

  lemma BlockIsPreordered(x: Exclusions, es: seq<Entry>, name: string, root: nat)
    requires Block(es, [], name) && Archivable(x, es)
    ensures Preordered(Candidates(es, root))
  {
    hide IsParentEntry;
    var cs := Candidates(es, root);
    forall i, j | 0 <= i < |cs| && 0 <= j < |cs| && IsDirectoryAbove(cs[j], cs[i])
      ensures exists k | 0 <= k < i :: SameDirectory(cs[k], root, cs[j].name)
    {
      var slash := |cs[j].name|;
      assert |es[j].name| >= |name| && es[i].name[slash] == '/';
      assert ParentBefore(es, i, slash);
      var k :| 0 <= k < i && IsParentEntry(es[k], es[i], slash);
      ParentIsDirectory(es[k], es[i], slash);
      assert SameDirectory(cs[k], root, cs[j].name);
    }
  }

  lemma ParentIsDirectory(p: Entry, e: Entry, slash: nat)
    requires IsParentEntry(p, e, slash)
    ensures p.what == Some(Dir) && slash < |e.name| && p.name == e.name[..slash]
  {
  }

  lemma JoinPreordered(a: seq<Candidate>, b: seq<Candidate>, n: nat)
    requires Preordered(a) && Preordered(b)
    requires (forall i | 0 <= i < |a| :: a[i].root < n) && forall i | 0 <= i < |b| :: b[i].root == n
    ensures Preordered(a + b)
  {
    hide IsAncestor, SameDirectory;
    var cs := a + b;
    forall i, j | 0 <= i < |cs| && 0 <= j < |cs| && IsDirectoryAbove(cs[j], cs[i])
      ensures exists k | 0 <= k < i :: SameDirectory(cs[k], cs[i].root, cs[j].name)
    {
      assert cs[i].root == cs[j].root;
      hide IsDirectoryAbove;
      if i < |a| {
        assert IsDirectoryAbove(a[j], a[i]);
        var k :| 0 <= k < i && SameDirectory(a[k], a[i].root, a[j].name);
        assert cs[k] == a[k];
      } else {
        assert IsDirectoryAbove(b[j - |a|], b[i - |a|]);
        var k :| 0 <= k < i - |a| && SameDirectory(b[k], b[i - |a|].root, b[j - |a|].name);
        assert cs[k + |a|] == b[k];
      }
    }
  }

  /** The walks list each directory before what is in it. */
  lemma {:induction false} CollectedIsPreordered(inputs: seq<Input>, n: nat)
    requires n <= |inputs| && Collectable(inputs, n) && forall k | 0 <= k < |inputs| :: ProperInput(inputs[k])
    ensures Preordered(AllCandidates(inputs, n))
            && forall i | 0 <= i < |AllCandidates(inputs, n)| :: AllCandidates(inputs, n)[i].root < n
  {
    hide Preordered, Survivors, Everything, Block;
    if n == 0 {
      NothingPreordered();
    } else {
      CollectedIsPreordered(inputs, n - 1);
      EmittedBlock(inputs[n - 1]);
      BlockIsPreordered(inputs[n - 1].excluded, Emitted(inputs[n - 1]), inputs[n - 1].name, n - 1);
      JoinPreordered(AllCandidates(inputs, n - 1), Candidates(Emitted(inputs[n - 1]), n - 1), n - 1);
    }
  }

  lemma NothingPreordered()
    ensures Preordered([])
  {
  }

  /** Walk and merge together: for each item of the manifest, every directory its root emitted
      above it is in the manifest too, before it. */
  lemma ManifestIsParentClosed(inputs: seq<Input>, a: nat, j: nat)
    requires Collectable(inputs, |inputs|) && forall k | 0 <= k < |inputs| :: ProperInput(inputs[k])
    requires var all := AllCandidates(inputs, |inputs|);
             a < |Merged(all)| && j < |all| && IsDirectoryAbove(all[j], Merged(all)[a])
    ensures var all := AllCandidates(inputs, |inputs|);
            exists b | 0 <= b < a :: SameDirectory(Merged(all)[b], Merged(all)[a].root, all[j].name)
  {
    hide Merged;
    CollectedIsPreordered(inputs, |inputs|);
    MergedIsParentClosed(AllCandidates(inputs, |inputs|), a, j);
  }

  /** A compiled pattern filter over a base matcher with recursive wildcards leaves names closed. */
  lemma FilterClosesNames(patterns: seq<string>, f: PathFilter.Filter, glob: PathFilter.Glob, x: Exclusions)
    requires PathFilter.Compiled(patterns, f) && PathFilter.Descends(glob)
    requires forall s :: x.byName(s) <==> PathFilter.Matches(f, glob, s)
    ensures ClosedNames(x)
  {
    hide PathFilter.Compiled, PathFilter.Matches, PathFilter.Descends;
    forall s: string, t: string | t != "" && x.byName(s) ensures x.byName(s + "/" + t) {
      PathFilter.MatchesAreClosed(patterns, f, glob, s, t);
    }
  }
}
