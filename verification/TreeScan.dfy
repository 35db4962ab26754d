/** The budgeted recursive scans of a destination tree that other programs may be changing. */
module TreeScan {
  import opened Options
  import opened ByteStream
  import opened TreeStream
  import opened Sequences
  import Lexicographic

  const MAX_TREE_DEPTH: nat := 64
  const MAX_TREE_ENTRIES: nat := 200_000
  const MAX_NAME_BYTES: nat := 255

  /** Names from the scanned root down. */
  type Path = seq<Bytes>

  /** Everything that ever is at every path. */
  type Timeline = (nat, Path) -> Option<Stat>

  ghost predicate ValidTimeline(tl: Timeline) {
    forall t, p | tl(t, p).Some? ::
      && tl(t, p).value.Valid()
      && (tl(t, p).value.kind.Directory? ==> forall n | n in tl(t, p).value.names :: 0 < |n| <= MAX_NAME_BYTES)
  }

  // ----- trees in time -----

  predicate Lists(s: Stat, names: seq<Bytes>) {
    s.kind.Directory? && Lexicographic.Increasing(names) && s.names == set n | n in names
  }

  /** `tree` is exactly what is below `path` at instant `t`. */
  predicate IsTreeAt(tl: Timeline, t: nat, path: Path, tree: Tree)
    decreases tree
  {
    && tl(t, path) == Some(tree.stat)
    && (if tree.stat.kind.Directory? then Lists(tree.stat, Names(tree.children)) else tree.children.Nil?)
    && IsForestAt(tl, t, path, tree.children)
  }

  predicate IsForestAt(tl: Timeline, t: nat, path: Path, f: Forest)
    decreases f
  {
    f.Nil? || (IsTreeAt(tl, t, path + [f.name], f.tree) && IsForestAt(tl, t, path, f.rest))
  }

  /** The tree stays the same from instant `from` on. */
  ghost predicate Unchanging(tl: Timeline, from: nat, path: Path, tree: Tree) {
    forall t: nat | t >= from :: IsTreeAt(tl, t, path, tree)
  }

  ghost predicate UnchangingForest(tl: Timeline, from: nat, path: Path, f: Forest) {
    forall t: nat | t >= from :: IsForestAt(tl, t, path, f)
  }

  function Size(t: Tree): (n: nat)
    ensures n > 0
    decreases t
  {
    1 + ForestSize(t.children)
  }

  function ForestSize(f: Forest): (n: nat)
    ensures n >= Count(f)
    decreases f
  {
    if f.Nil? then 0 else Size(f.tree) + ForestSize(f.rest)
  }

  /** Levels below the root of the tree. */
  function Height(t: Tree): nat
    decreases t
  {
    if t.children.Nil? then 0 else 1 + ForestHeight(t.children)
  }

  function ForestHeight(f: Forest): nat
    decreases f
  {
    if f.Nil? then 0 else Max(Height(f.tree), ForestHeight(f.rest))
  }

  function Max(a: nat, b: nat): nat { if a < b then b else a }

  function Snoc(f: Forest, name: Bytes, tree: Tree): Forest {
    if f.Nil? then Cons(name, tree, Nil) else Cons(f.name, f.tree, Snoc(f.rest, name, tree))
  }

  function Concat(f: Forest, g: Forest): Forest {
    if f.Nil? then g else Cons(f.name, f.tree, Concat(f.rest, g))
  }

  lemma {:induction false} SnocShape(f: Forest, name: Bytes, tree: Tree, g: Forest)
    ensures Names(Snoc(f, name, tree)) == Names(f) + [name] && Count(Snoc(f, name, tree)) == Count(f) + 1
    ensures ForestSize(Snoc(f, name, tree)) == ForestSize(f) + Size(tree)
    ensures ForestHeight(Snoc(f, name, tree)) == Max(ForestHeight(f), Height(tree))
    ensures Concat(Snoc(f, name, tree), g) == Concat(f, Cons(name, tree, g))
  {
    if f.Cons? { SnocShape(f.rest, name, tree, g); }
  }

  lemma {:induction false} SnocBytes(relative: Bytes, f: Forest, name: Bytes, tree: Tree)
    ensures StabilityForest(relative, Snoc(f, name, tree)) == StabilityForest(relative, f)
            + StabilityBytes(Join(relative, name), tree)
    ensures ForestBytes(relative, Snoc(f, name, tree)) == ForestBytes(relative, f)
            + TreeBytes(Join(relative, name), tree)
    ensures ValidForest(relative, f) && ValidTree(Join(relative, name), tree) ==>
            ValidForest(relative, Snoc(f, name, tree))
  {
    hide StabilityBytes, TreeBytes, ValidTree, Join;
    if f.Cons? { SnocBytes(relative, f.rest, name, tree); }
  }

  lemma {:induction false} ConcatShape(f: Forest, g: Forest)
    ensures Names(Concat(f, g)) == Names(f) + Names(g)
    ensures ForestSize(Concat(f, g)) == ForestSize(f) + ForestSize(g)
    ensures ForestHeight(Concat(f, g)) == Max(ForestHeight(f), ForestHeight(g))
    ensures Concat(f, Nil) == f
  {
    if f.Cons? { ConcatShape(f.rest, g); }
  }

  // ----- the budget -----

  class Budget {
    var visitedEntries: nat
    var pendingEntries: nat
    const maxEntries: nat

    constructor (max: nat)
      ensures maxEntries == max && visitedEntries == 0 && pendingEntries == 0
    {
      maxEntries, visitedEntries, pendingEntries := max, 0, 0;
    }

    /** The pending entries never exceed the limit. */
    predicate Valid()
      reads this
    {
      pendingEntries <= maxEntries
    }

    method Enter() returns (ok: bool)
      modifies this`visitedEntries
      ensures visitedEntries == old(visitedEntries) + 1 && (ok <==> visitedEntries <= maxEntries)
    {
      visitedEntries := visitedEntries + 1;
      ok := visitedEntries <= maxEntries;
    }

    function Saturating(a: nat, b: nat): nat { if a < b then 0 else a - b }

    function RemainingCollectionCapacity(): nat
      reads this
    {
      var byVisits, byPending := Saturating(maxEntries, visitedEntries), Saturating(maxEntries, pendingEntries);
      if byVisits < byPending then byVisits else byPending
    }

    method ReservePending(entries: nat) returns (ok: bool)
      modifies this`pendingEntries
      ensures pendingEntries == old(pendingEntries) + entries && (ok <==> pendingEntries <= maxEntries)
    {
      pendingEntries := pendingEntries + entries;
      ok := pendingEntries <= maxEntries;
    }

    method ReleasePending(entries: nat)
      modifies this`pendingEntries
      ensures pendingEntries == Saturating(old(pendingEntries), entries)
    {
      pendingEntries := Saturating(pendingEntries, entries);
    }
  }

  // ----- looking at the file system -----

  /** What an open file shows, whatever its path by now. */
  type Files = (nat, Identity) -> Stat

  const DIGEST_BUFFER_BYTES: nat := 262_144

  ghost predicate ValidFiles(tl: Timeline, files: Files) {
    && (forall t, i :: files(t, i).Valid() && files(t, i).kind.File? && files(t, i).id == i)
    && (forall t, p | tl(t, p).Some? && tl(t, p).value.kind.File? :: files(t, tl(t, p).value.id) == tl(t, p).value)
  }

  class Observer {
    const tl: Timeline
    const files: Files
    var now: nat

    constructor (tl: Timeline, files: Files)
      ensures this.tl == tl && this.files == files && now == 0
    {
      this.tl, this.files, now := tl, files, 0;
    }

    /** Any amount of time passes, and with it anything the timeline holds. */
    method Tick()
      modifies this
      ensures now >= old(now)
    {
      var passed: int := *;
      if passed > 0 { now := now + passed; }
    }

    method Look(path: Path) returns (s: Option<Stat>)
      modifies this
      ensures now >= old(now) && s == tl(now, path)
    {
      Tick();
      s := tl(now, path);
    }

    /** A listing, in any order. */
    method ReadDir(path: Path) returns (names: Option<seq<Bytes>>)
      modifies this
      ensures now >= old(now)
      ensures names.Some? <==> tl(now, path).Some? && tl(now, path).value.kind.Directory?
      ensures names.Some? ==>
                && (forall i, j | 0 <= i < j < |names.value| :: names.value[i] != names.value[j])
                && tl(now, path).value.names == set n | n in names.value
    {
      Tick();
      var s := tl(now, path);
      if s.None? || !s.value.kind.Directory? { return None; }
      var listed: seq<Bytes> := [];
      var left := s.value.names;
      while left != {}
        invariant forall n :: n in s.value.names <==> n in left || n in listed
        invariant forall n | n in left :: n !in listed
        invariant forall i, j | 0 <= i < j < |listed| :: listed[i] != listed[j]
        decreases left
      {
        var n :| n in left;
        listed, left := listed + [n], left - {n};
      }
      names := Some(listed);
    }

    /** The open file as it is now. */
    method LookHandle(id: Identity) returns (s: Stat)
      modifies this
      ensures now >= old(now) && s == files(now, id)
    {
      Tick();
      s := files(now, id);
    }

    /** One read from the open file at `position`: some of what is there now, nothing only at
        the end. */
    method Read(id: Identity, position: nat) returns (chunk: Bytes)
      modifies this
      ensures now >= old(now)
      ensures var content := files(now, id).content;
              if position >= |content| then chunk == []
              else 0 < |chunk| <= DIGEST_BUFFER_BYTES && position + |chunk| <= |content|
                   && chunk == content[position..position + |chunk|]
    {
      Tick();
      var content := files(now, id).content;
      if position >= |content| { return []; }
      var wanted: int := *;
      if wanted < 1 { wanted := 1; }
      if wanted > DIGEST_BUFFER_BYTES { wanted := DIGEST_BUFFER_BYTES; }
      if position + wanted > |content| { wanted := |content| - position; }
      chunk := content[position..position + wanted];
    }

    /** `directory_member_state`: two looks that must agree. */
    method MemberState(path: Path) returns (s: Option<Stat>)
      modifies this
      ensures now >= old(now)
      ensures s.Some? ==> exists t: nat :: old(now) <= t <= now && tl(t, path) == s
      ensures (forall t: nat | old(now) <= t <= now :: tl(t, path) == tl(old(now), path)) ==> s == tl(old(now), path)
    {
      var first := Look(path);
      if first.None? { return None; }
      var again := Look(path);
      if again.None? || !SameStamp(first.value, again.value) { return None; }
      return first;
    }
  }

  // ----- unchanging trees -----

  lemma UnchangingLooks(tl: Timeline, from: nat, path: Path, still: Tree)
    requires Unchanging(tl, from, path, still)
    ensures forall t: nat | t >= from :: tl(t, path) == Some(still.stat)
    ensures !still.stat.kind.Directory? ==> still == Tree(still.stat, Nil)
  {
    assert IsTreeAt(tl, from, path, still);
    forall t: nat | t >= from ensures tl(t, path) == Some(still.stat) { assert IsTreeAt(tl, t, path, still); }
  }

  lemma UnchangingLater(tl: Timeline, from: nat, later: nat, path: Path, still: Tree)
    requires Unchanging(tl, from, path, still) && later >= from
    ensures Unchanging(tl, later, path, still)
  {
    hide IsTreeAt;
  }

  lemma UnchangingChildren(tl: Timeline, from: nat, path: Path, still: Tree)
    requires Unchanging(tl, from, path, still)
    ensures UnchangingForest(tl, from, path, still.children)
  {
    forall t: nat | t >= from ensures IsForestAt(tl, t, path, still.children) { assert IsTreeAt(tl, t, path, still); }
  }

  lemma UnchangingStep(tl: Timeline, from: nat, later: nat, path: Path, f: Forest)
    requires UnchangingForest(tl, from, path, f) && f.Cons? && later >= from
    ensures Unchanging(tl, later, path + [f.name], f.tree) && UnchangingForest(tl, from, path, f.rest)
  {
    forall t: nat | t >= from ensures IsTreeAt(tl, t, path + [f.name], f.tree) && IsForestAt(tl, t, path, f.rest) {
      assert IsForestAt(tl, t, path, f);
    }
  }

  /** The next child to scan, and the arithmetic that keeps the limits from firing early. */
  lemma NextChild(still: Tree, f: Forest, rest: Forest, names: seq<Bytes>, k: nat)
    requires Concat(f, rest) == still.children && Names(still.children) == names && k < |names|
             && Names(f) == names[..k]
    ensures rest.Cons? && rest.name == names[k]
    ensures ForestSize(still.children) == ForestSize(f) + Size(rest.tree) + ForestSize(rest.rest)
    ensures Height(rest.tree) + 1 <= Height(still)
    ensures ForestSize(f) >= k && ForestSize(rest.rest) >= |names| - k - 1
  {
    ConcatShape(f, rest);
    NamesSize(f);
    NamesSize(rest);
    assert Names(f) + Names(rest) == names;
    assert |Names(rest)| == |names| - k;
    assert Names(rest)[0] == names[k];
  }

  lemma AllChildren(still: Tree, f: Forest, rest: Forest, names: seq<Bytes>)
    requires Concat(f, rest) == still.children && Names(still.children) == names && Names(f) == names
    ensures f == still.children
  {
    ConcatShape(f, rest);
    NamesSize(f);
    NamesSize(rest);
    NamesSize(still.children);
    assert |Names(rest)| == 0;
  }

  /** Relative paths stay short. */
  lemma JoinBound(tl: Timeline, t: nat, path: Path, relative: Bytes, names: seq<Bytes>, k: nat, depth: nat)
    requires ValidTimeline(tl) && tl(t, path).Some? && Lists(tl(t, path).value, names) && k < |names|
    requires |relative| <= (MAX_NAME_BYTES + 1) * depth
    ensures |Join(relative, names[k])| <= (MAX_NAME_BYTES + 1) * (depth + 1)
  {
    assert names[k] in tl(t, path).value.names;
  }

  // ----- the stability scan -----

  /** `tree` was put together from looks between `lo` and `hi`: every object was seen; a
      directory was then listed, its children were scanned, and only after that it was seen
      to have the same stamp as at first. */
  ghost predicate Scanned(tl: Timeline, lo: nat, hi: nat, path: Path, tree: Tree)
    decreases tree
  {
    exists t: nat, u: nat, w: nat ::
      && lo <= t <= u <= w <= hi
      && tl(t, path) == Some(tree.stat) && ListedAt(tl, u, w, path, tree)
      && ScannedForest(tl, t, w, path, tree.children)
  }

  predicate ListedAt(tl: Timeline, u: nat, w: nat, path: Path, tree: Tree) {
    if tree.stat.kind.Directory?
    then tl(u, path).Some? && Lists(tl(u, path).value, Names(tree.children))
         && tl(w, path).Some? && SameStamp(tree.stat, tl(w, path).value)
    else tree.children.Nil?
  }

  ghost predicate ScannedForest(tl: Timeline, lo: nat, hi: nat, path: Path, f: Forest)
    decreases f
  {
    f.Nil? || (Scanned(tl, lo, hi, path + [f.name], f.tree) && ScannedForest(tl, lo, hi, path, f.rest))
  }

  lemma ScannedWiden(tl: Timeline, lo: nat, hi: nat, lo': nat, hi': nat, path: Path, tree: Tree)
    requires Scanned(tl, lo, hi, path, tree) && lo' <= lo && hi <= hi'
    ensures Scanned(tl, lo', hi', path, tree)
  {
  }

  lemma {:induction false} ScannedForestWiden(tl: Timeline, lo: nat, hi: nat, lo': nat, hi': nat, path: Path, f: Forest)
    requires ScannedForest(tl, lo, hi, path, f) && lo' <= lo && hi <= hi'
    ensures ScannedForest(tl, lo', hi', path, f)
    decreases f
  {
    if f.Cons? {
      ScannedWiden(tl, lo, hi, lo', hi', path + [f.name], f.tree);
      ScannedForestWiden(tl, lo, hi, lo', hi', path, f.rest);
    }
  }

  lemma {:induction false} ScannedSnoc(tl: Timeline, lo: nat, hi: nat, path: Path, f: Forest, name: Bytes, tree: Tree)
    requires ScannedForest(tl, lo, hi, path, f) && Scanned(tl, lo, hi, path + [name], tree)
    ensures ScannedForest(tl, lo, hi, path, Snoc(f, name, tree))
  {
    hide Scanned;
    if f.Cons? { ScannedSnoc(tl, lo, hi, path, f.rest, name, tree); }
  }

  /** Room for the tree and everything that is still to come. */
  ghost predicate Fits(depth: nat, tree: Tree, visited: nat, future: nat, max: nat) {
    depth + Height(tree) <= MAX_TREE_DEPTH && visited + Size(tree) + future <= max
  }

  /** What a scan of an unchanging tree may rely on: how much is left to visit after this
      subtree, and that whatever is pending is already visited, or this, or left. */
  ghost predicate CalmStart(tl: Timeline, now: nat, path: Path, still: Tree, budget: Budget, future: nat)
    reads budget
  {
    Unchanging(tl, now, path, still) && budget.pendingEntries <= budget.visitedEntries + future
  }

  lemma NamesSize(f: Forest)
    ensures |Names(f)| == Count(f)
  {
  }

  /** A directory lists as many names as its tree has children. */
  lemma ListingSize(listed: seq<Bytes>, s: Stat, f: Forest)
    requires forall i, j | 0 <= i < j < |listed| :: listed[i] != listed[j]
    requires Lists(s, Names(f)) && s.names == set n | n in listed
    ensures |listed| == Count(f)
  {
    forall i, j | 0 <= i < j < |Names(f)| ensures Names(f)[i] != Names(f)[j] { Lexicographic.Irreflexive(Names(f)[i]); }
    SetSize(listed);
    SetSize(Names(f));
    NamesSize(f);
  }

  method SortNames(names: seq<Bytes>) returns (r: seq<Bytes>)
    requires forall i, j | 0 <= i < j < |names| :: names[i] != names[j]
    ensures Lexicographic.Increasing(r) && |r| == |names| && (set n | n in r) == (set n | n in names)
  {
    var sorted := Lexicographic.Sort(names);
    assert forall i | 0 <= i < |sorted| :: sorted[i] in names;
    r := sorted;
  }

  lemma ListingUnique(s: Stat, a: seq<Bytes>, b: seq<Bytes>)
    requires Lists(s, a) && Lists(s, b)
    ensures a == b
  {
    forall i | 0 <= i < |a| ensures a[i] in b { assert a[i] in s.names; }
    forall i | 0 <= i < |b| ensures b[i] in a { assert b[i] in s.names; }
    Lexicographic.IncreasingIsUnique(a, b);
  }

  /** Takes in a listing: the capacity check, the reservation and the order. */
  method CollectChildren(o: Observer, budget: Budget, path: Path, ghost calm: bool, ghost still: Tree,
                         ghost future: nat)
    returns (names: Option<seq<Bytes>>)
    requires budget.Valid()
    requires calm ==> Unchanging(o.tl, o.now, path, still) && still.stat.kind.Directory?
                      && budget.pendingEntries + 1 <= budget.visitedEntries + future
    modifies o, budget`pendingEntries
    ensures o.now >= old(o.now) && budget.Valid()
    ensures names.None? ==> budget.pendingEntries == old(budget.pendingEntries)
    ensures names.Some? ==>
              && budget.pendingEntries == old(budget.pendingEntries) + |names.value|
              && o.tl(o.now, path).Some? && Lists(o.tl(o.now, path).value, names.value)
    ensures calm && names.Some? ==> names.value == Names(still.children)
    ensures calm && budget.visitedEntries + ForestSize(still.children) + future <= budget.maxEntries ==> names.Some?
  {
    var listed := o.ReadDir(path);
    if calm { UnchangingStat(o.tl, old(o.now), o.now, path, still); }
    if listed.None? { return None; }
    if calm { ListingSize(listed.value, still.stat, still.children); }
    if |listed.value| > budget.RemainingCollectionCapacity() { return None; }
    var ok := budget.ReservePending(|listed.value|);
    assert ok;
    var sorted := SortNames(listed.value);
    if calm { ListingUnique(still.stat, sorted, Names(still.children)); }
    names := Some(sorted);
  }

  lemma UnchangingStat(tl: Timeline, from: nat, t: nat, path: Path, still: Tree)
    requires Unchanging(tl, from, path, still) && t >= from
    ensures tl(t, path) == Some(still.stat) && IsTreeAt(tl, t, path, still)
  {
  }

  /** `hash_tree_stability_entry`. The pending count is restored on every exit. A success
      fed exactly the stability stream of a tree seen in this time; on an unchanging tree
      that is the tree, and the scan fails only when a limit is exceeded. */
  method StabilityEntry(o: Observer, hasher: Hasher, budget: Budget, path: Path, relative: Bytes, depth: nat,
                        ghost calm: bool, ghost still: Tree, ghost future: nat)
    returns (ok: bool, ghost tree: Tree)
    requires budget.Valid() && depth <= MAX_TREE_DEPTH + 1
    requires ValidTimeline(o.tl) && |relative| <= (MAX_NAME_BYTES + 1) * depth
    requires budget.maxEntries < U64
    requires calm ==> CalmStart(o.tl, o.now, path, still, budget, future)
    modifies o, hasher, budget
    ensures o.now >= old(o.now)
    ensures budget.Valid() && budget.pendingEntries == old(budget.pendingEntries)
    ensures ok ==>
              && hasher.stream == old(hasher.stream) + StabilityBytes(relative, tree)
              && Scanned(o.tl, old(o.now), o.now, path, tree) && ValidTree(relative, tree)
              && budget.visitedEntries == old(budget.visitedEntries) + Size(tree) <= budget.maxEntries
              && depth + Height(tree) <= MAX_TREE_DEPTH
    ensures calm && ok ==> tree == still
    ensures calm && Fits(depth, still, old(budget.visitedEntries), future, budget.maxEntries) ==> ok
    decreases MAX_TREE_DEPTH + 1 - depth, 1
  {
    hide StabilityBytes, StabilityForest, Scanned, ScannedForest, ValidTree, ValidForest, IsTreeAt, IsForestAt, Lists,
         ListedAt, Names, ForestSize, ForestHeight, StampBytes, Le64, SameStamp, Join, ValidTimeline;
    tree := still;
    if depth > MAX_TREE_DEPTH { return false, tree; }
    ok := budget.Enter();
    if !ok { return; }
    ghost var start := o.now;
    var state := o.MemberState(path);
    if calm { UnchangingLooks(o.tl, start, path, still); }
    if state.None? { return false, tree; }
    ghost var seenAt: nat :| start <= seenAt <= o.now && o.tl(seenAt, path) == state;
    hasher.Update(StampBytes(relative, state.value));
    if !state.value.kind.Directory? {
      tree := Tree(state.value, Nil);
      LeafScanned(o.tl, start, seenAt, o.now, path, relative, state.value, depth);
      return true, tree;
    }
    ok, tree := StabilityChildren(o, hasher, budget, path, relative, depth, state.value, start, seenAt, calm, still,
                                  future);
    if ok { StabilityStream(old(hasher.stream), relative, tree); }
  }

  /** The children of a directory, and the check that it did not change meanwhile. */
  method StabilityChildren(o: Observer, hasher: Hasher, budget: Budget, path: Path, relative: Bytes, depth: nat,
                           state: Stat, ghost start: nat, ghost seenAt: nat, ghost calm: bool, ghost still: Tree,
                           ghost future: nat)
    returns (ok: bool, ghost tree: Tree)
    requires budget.Valid() && depth <= MAX_TREE_DEPTH && 0 < budget.visitedEntries <= budget.maxEntries < U64
    requires ValidTimeline(o.tl) && |relative| <= (MAX_NAME_BYTES + 1) * depth
    requires state.kind.Directory? && start <= seenAt <= o.now && o.tl(seenAt, path) == Some(state)
    requires calm ==> Unchanging(o.tl, start, path, still) && state == still.stat
                      && budget.pendingEntries + 1 <= budget.visitedEntries + future
    modifies o, hasher, budget
    ensures o.now >= old(o.now)
    ensures budget.Valid() && budget.pendingEntries == old(budget.pendingEntries)
    ensures ok ==>
              && tree.stat == state && hasher.stream == old(hasher.stream) + StabilityBody(relative, tree)
              && Scanned(o.tl, start, o.now, path, tree) && ValidTree(relative, tree)
              && budget.visitedEntries == old(budget.visitedEntries) + ForestSize(tree.children) <= budget.maxEntries
              && depth + Height(tree) <= MAX_TREE_DEPTH
    ensures calm && ok ==> tree == still
    ensures (calm && depth + Height(still) <= MAX_TREE_DEPTH
             && old(budget.visitedEntries) + ForestSize(still.children) + future <= budget.maxEntries) ==> ok
    decreases MAX_TREE_DEPTH + 1 - depth, 0
  {
    hide StabilityBytes, StabilityForest, Scanned, ScannedForest, ValidTree, ValidForest, IsTreeAt, IsForestAt, Lists,
         ListedAt, Names, ForestSize, ForestHeight, Le64, SameStamp, Join, ValidTimeline, Unchanging, UnchangingForest,
         Size, Height, Snoc, Count, HeadBytes, KindTag, TreeBytes, TreeBody, ForestBytes, Lexicographic.Increasing,
         Lexicographic.Less, StampBytes;
    tree := still;
    ghost var pending, visited, fed := budget.pendingEntries, budget.visitedEntries, hasher.stream;
    if calm { UnchangingLater(o.tl, start, o.now, path, still); }
    var listing := CollectChildren(o, budget, path, calm, still, future);
    if listing.None? { return false, tree; }
    var names := listing.value;
    ghost var listedAt := o.now;
    hasher.Update(Le64(|names|));
    ghost var head := hasher.stream;
    ghost var f, rest := Nil, still.children;
    ListingStart(o.tl, seenAt, o.now, path, relative, names, head);
    if calm { UnchangingChildren(o.tl, start, path, still); }
    var k := 0;
    ok := true;
    while k < |names| && ok
      invariant 0 <= k <= |names|
      invariant o.now >= listedAt && budget.Valid() && budget.pendingEntries == pending + |names|
      invariant ok ==> Names(f) == names[..k] && hasher.stream == head + StabilityForest(relative, f)
      invariant ok ==> ScannedForest(o.tl, seenAt, o.now, path, f) && ValidForest(relative, f)
      invariant ok ==> budget.visitedEntries == visited + ForestSize(f) <= budget.maxEntries
      invariant k == 0 ==> f.Nil?
      invariant ok && k > 0 ==> depth + 1 + ForestHeight(f) <= MAX_TREE_DEPTH
      invariant calm && ok ==> Concat(f, rest) == still.children && UnchangingForest(o.tl, start, path, rest)
      invariant (calm && depth + Height(still) <= MAX_TREE_DEPTH
                 && visited + ForestSize(still.children) + future <= budget.maxEntries) ==> ok
    {
      ghost var before, lo := hasher.stream, o.now;
      var childRelative := Join(relative, names[k]);
      JoinBound(o.tl, listedAt, path, relative, names, k, depth);
      ghost var child, childFuture := still, future;
      if calm {
        NextChild(still, f, rest, names, k);
        UnchangingStep(o.tl, start, o.now, path, rest);
        child, childFuture := rest.tree, ForestSize(rest.rest) + future;
      }
      ghost var seen;
      ok, seen := StabilityEntry(o, hasher, budget, path + [names[k]], childRelative, depth + 1, calm, child,
                                 childFuture);
      if ok {
        ScannedForestWiden(o.tl, seenAt, lo, seenAt, o.now, path, f);
        ScannedWiden(o.tl, lo, o.now, seenAt, o.now, path + [names[k]], seen);
        ScannedSnoc(o.tl, seenAt, o.now, path, f, names[k], seen);
        SnocShape(f, names[k], seen, if rest.Cons? then rest.rest else Nil);
        SnocBytes(relative, f, names[k], seen);
        Reassociate(head, StabilityForest(relative, f), StabilityBytes(childRelative, seen));
        f := Snoc(f, names[k], seen);
        if calm { rest := rest.rest; }
      }
      k := k + 1;
    }
    ghost var scannedTo := o.now;
    if ok {
      var later := o.Look(path);
      ok := later.Some? && SameStamp(state, later.value);
      if calm { UnchangingLooks(o.tl, start, path, still); SameStampReflexive(state); }
    }
    budget.ReleasePending(|names|);
    if ok {
      tree := Tree(state, f);
      ScannedForestWiden(o.tl, seenAt, scannedTo, seenAt, o.now, path, f);
      assert names[..|names|] == names;
      DirectoryScanned(o.tl, start, seenAt, listedAt, o.now, path, relative, tree, names, depth);
      if calm { AllChildren(still, f, rest, names); }
      Reassociate(fed, Le64(|names|), StabilityForest(relative, f));
    }
  }

  lemma StabilityStream(fed: Bytes, relative: Bytes, tree: Tree)
    ensures fed + StampBytes(relative, tree.stat) + StabilityBody(relative, tree) == fed
            + StabilityBytes(relative, tree)
    ensures Size(tree) == 1 + ForestSize(tree.children)
  {
    hide StampBytes, StabilityBody;
  }

  lemma SameStampReflexive(s: Stat)
    ensures SameStamp(s, s)
  {
  }

  lemma LeafScanned(tl: Timeline, start: nat, seenAt: nat, now: nat, path: Path, relative: Bytes, s: Stat, depth: nat)
    requires ValidTimeline(tl) && start <= seenAt <= now && tl(seenAt, path) == Some(s) && !s.kind.Directory?
    requires |relative| <= (MAX_NAME_BYTES + 1) * depth && depth <= MAX_TREE_DEPTH
    ensures var leaf := Tree(s, Nil);
            && Scanned(tl, start, now, path, leaf) && ValidTree(relative, leaf)
            && Size(leaf) == 1 && Height(leaf) == 0 && StabilityBytes(relative, leaf) == StampBytes(relative, s)
  {
    hide StampBytes;
    var leaf := Tree(s, Nil);
    assert ListedAt(tl, seenAt, seenAt, path, leaf);
    assert StampBytes(relative, s) + [] == StampBytes(relative, s);
  }

  lemma ListingStart(tl: Timeline, start: nat, now: nat, path: Path, relative: Bytes, names: seq<Bytes>, head: Bytes)
    ensures Names(Nil) == names[..0] && ForestSize(Nil) == 0 && ForestHeight(Nil) == 0
    ensures head + StabilityForest(relative, Nil) == head && head + ForestBytes(relative, Nil) == head
    ensures ScannedForest(tl, start, now, path, Nil) && ValidForest(relative, Nil)
  {
  }

  lemma DirectoryScanned(tl: Timeline, start: nat, seenAt: nat, listedAt: nat, later: nat, path: Path, relative: Bytes,
                         tree: Tree, names: seq<Bytes>, depth: nat)
    requires ValidTimeline(tl) && start <= seenAt <= listedAt <= later && tree.stat.kind.Directory?
    requires tl(seenAt, path) == Some(tree.stat)
    requires tl(listedAt, path).Some? && Lists(tl(listedAt, path).value, names) && Names(tree.children) == names
    requires tl(later, path).Some? && SameStamp(tree.stat, tl(later, path).value)
    requires ScannedForest(tl, seenAt, later, path, tree.children) && ValidForest(relative, tree.children)
    requires |relative| <= (MAX_NAME_BYTES + 1) * depth && depth <= MAX_TREE_DEPTH && |names| < U64
    requires names != [] ==> depth + 1 + ForestHeight(tree.children) <= MAX_TREE_DEPTH
    ensures Scanned(tl, start, later, path, tree) && ValidTree(relative, tree)
    ensures depth + Height(tree) <= MAX_TREE_DEPTH
    ensures StabilityBody(relative, tree) == Le64(|names|) + StabilityForest(relative, tree.children)
  {
    hide StabilityForest, ScannedForest, ValidForest, Lists, ForestHeight;
    NamesSize(tree.children);
    assert ListedAt(tl, listedAt, later, path, tree);
  }
}
