/** The content scan itself. */
module TreeHash {
  import opened Options
  import opened ByteStream
  import opened TreeStream
  import opened TreeScan
  import opened TreeDigest
  import opened Sequences
  import Lexicographic

  // ----- listing the members of a directory -----

  ghost predicate Steady(tl: Timeline, from: nat, path: Path) {
    forall t: nat | t >= from :: tl(t, path).Some? && tl(t, path) == tl(from, path)
  }

  ghost predicate SteadyChildren(tl: Timeline, from: nat, path: Path, names: seq<Bytes>) {
    forall n | n in names :: Steady(tl, from, path + [n])
  }

  lemma {:induction false} UnchangingSteady(tl: Timeline, from: nat, path: Path, f: Forest)
    requires UnchangingForest(tl, from, path, f)
    ensures SteadyChildren(tl, from, path, Names(f))
  {
    if f.Cons? {
      UnchangingStep(tl, from, from, path, f);
      UnchangingLooks(tl, from, path + [f.name], f.tree);
      UnchangingSteady(tl, from, path, f.rest);
    }
  }

  /** The member was seen like this between `lo` and `hi`. */
  ghost predicate MemberSeen(tl: Timeline, lo: nat, hi: nat, path: Path, m: Member) {
    exists t: nat :: lo <= t <= hi && SeenLike(tl(t, path + [m.name]), m)
  }

  predicate SeenLike(s: Option<Stat>, m: Member) { s.Some? && m == MemberOf(m.name, s.value) }

  /** The members as they all are from `from` on. */
  predicate MembersAt(tl: Timeline, from: nat, path: Path, members: seq<Member>) {
    forall i | 0 <= i < |members| :: SeenLike(tl(from, path + [members[i].name]), members[i])
  }

  method ObserveMembers(o: Observer, path: Path, listed: seq<Bytes>, limit: nat, ghost calm: bool, ghost from: nat)
    returns (members: Option<seq<Member>>)
    requires calm ==> from <= o.now && SteadyChildren(o.tl, from, path, listed)
    modifies o
    ensures o.now >= old(o.now)
    ensures members.Some? ==>
              && |listed| <= limit && MemberNames(members.value) == listed
              && forall i | 0 <= i < |listed| :: MemberSeen(o.tl, old(o.now), o.now, path, members.value[i])
    ensures calm && members.Some? ==> MembersAt(o.tl, from, path, members.value)
    ensures calm && |listed| <= limit ==> members.Some?
  {
    ghost var start := o.now;
    var states: seq<Member> := [];
    var i := 0;
    while i < |listed|
      invariant 0 <= i <= |listed| && i <= limit && |states| == i && o.now >= start
      invariant forall k | 0 <= k < i :: states[k].name == listed[k]
      invariant forall k | 0 <= k < i :: MemberSeen(o.tl, start, o.now, path, states[k])
      invariant calm ==> MembersAt(o.tl, from, path, states)
    {
      if i >= limit { return None; }
      ghost var before := o.now;
      var state := o.MemberState(path + [listed[i]]);
      if calm {
        assert Steady(o.tl, from, path + [listed[i]]);
        assert o.tl(before, path + [listed[i]]).Some?;
      }
      if state.None? { return None; }
      ghost var t: nat :| before <= t <= o.now && o.tl(t, path + [listed[i]]) == state;
      var m := MemberOf(listed[i], state.value);
      assert SeenLike(o.tl(t, path + [m.name]), m);
      forall k | 0 <= k < i ensures MemberSeen(o.tl, start, o.now, path, states[k]) {
        var u: nat :| start <= u <= before && SeenLike(o.tl(u, path + [states[k].name]), states[k]);
      }
      states := states + [m];
      i := i + 1;
    }
    members := Some(states);
  }

  /** The members in name order. */
  method SortMembers(members: seq<Member>) returns (r: seq<Member>)
    requires NoDuplicates(MemberNames(members))
    ensures Lexicographic.Increasing(MemberNames(r)) && |r| == |members|
    ensures forall m :: m in r <==> m in members
  {
    var names := MemberNames(members);
    var sorted := Lexicographic.Sort(names);
    r := [];
    while |r| < |sorted|
      invariant |r| <= |sorted|
      invariant forall k | 0 <= k < |r| :: r[k].name == sorted[k] && r[k] in members
    {
      assert sorted[|r|] in names;
      var m :| m in members && m.name == sorted[|r|];
      r := r + [m];
    }
    assert MemberNames(r) == sorted;
    forall m | m in members ensures m in r {
      var k :| 0 <= k < |members| && members[k] == m;
      assert names[k] in sorted;
      var j :| 0 <= j < |sorted| && sorted[j] == names[k];
      var i :| 0 <= i < |members| && members[i] == r[j];
      assert names[i] == names[k];
    }
  }

  /** The first listing: the capacity check, a state for each member, the reservation, the order. */
  method CollectMembers(o: Observer, budget: Budget, path: Path, ghost calm: bool, ghost still: Tree, ghost future: nat)
    returns (members: Option<seq<Member>>, ghost listedAt: nat)
    requires budget.Valid()
    requires calm ==> Unchanging(o.tl, o.now, path, still) && still.stat.kind.Directory?
                      && budget.pendingEntries + 1 <= budget.visitedEntries + future
    modifies o, budget`pendingEntries
    ensures old(o.now) <= listedAt <= o.now && budget.Valid()
    ensures members.None? ==> budget.pendingEntries == old(budget.pendingEntries)
    ensures members.Some? ==>
              && budget.pendingEntries == old(budget.pendingEntries) + |members.value|
              && ListsAt(o.tl(listedAt, path), MemberNames(members.value))
              && Lexicographic.Increasing(MemberNames(members.value))
              && forall m | m in members.value :: MemberSeen(o.tl, listedAt, o.now, path, m)
    ensures calm && members.Some? ==>
              && MemberNames(members.value) == Names(still.children)
              && MembersAt(o.tl, old(o.now), path, members.value)
    ensures (calm && budget.visitedEntries + ForestSize(still.children) + future <= budget.maxEntries) ==> members.Some?
  {
    hide IsTreeAt, IsForestAt, SteadyChildren, ForestSize, Names, MembersAt, MemberSeen;
    ghost var from := o.now;
    listedAt := o.now;
    var listed := o.ReadDir(path);
    listedAt := o.now;
    if calm { UnchangingStat(o.tl, from, o.now, path, still); }
    if listed.None? { return None, listedAt; }
    if calm {
      CalmListing(o.tl, from, o.now, path, still, listed.value);
      CountWithinSize(still.children);
    }
    var capacity := budget.RemainingCollectionCapacity();
    var observed := ObserveMembers(o, path, listed.value, capacity, calm, from);
    if observed.None? { return None, listedAt; }
    var ok := budget.ReservePending(|observed.value|);
    assert ok;
    var sorted := SortMembers(observed.value);
    SortedListing(o.tl(listedAt, path).value, listed.value, observed.value, sorted);
    if calm {
      ListingUnique(still.stat, MemberNames(sorted), Names(still.children));
      MembersAtSorted(o.tl, from, path, observed.value, sorted);
    }
    members := Some(sorted);
  }

  lemma CountWithinSize(f: Forest)
    ensures Count(f) <= ForestSize(f)
  {
  }

  lemma MembersAtSorted(tl: Timeline, from: nat, path: Path, observed: seq<Member>, sorted: seq<Member>)
    requires MembersAt(tl, from, path, observed) && forall m | m in sorted :: m in observed
    ensures MembersAt(tl, from, path, sorted)
  {
    forall i | 0 <= i < |sorted| ensures SeenLike(tl(from, path + [sorted[i].name]), sorted[i]) {
      assert sorted[i] in observed;
      var k :| 0 <= k < |observed| && observed[k] == sorted[i];
    }
  }

  lemma SortedListing(s: Stat, listed: seq<Bytes>, observed: seq<Member>, sorted: seq<Member>)
    requires s.kind.Directory? && s.names == set n | n in listed
    requires MemberNames(observed) == listed && |sorted| == |observed|
    requires Lexicographic.Increasing(MemberNames(sorted)) && forall m :: m in sorted <==> m in observed
    ensures Lists(s, MemberNames(sorted))
  {
    hide Lexicographic.Increasing;
    var names := MemberNames(sorted);
    forall n ensures n in names <==> n in s.names {
      if n in names {
        var k :| 0 <= k < |names| && names[k] == n;
        assert sorted[k] in observed;
        var i :| 0 <= i < |observed| && observed[i] == sorted[k];
        assert listed[i] == n;
      }
      if n in s.names {
        var i :| 0 <= i < |listed| && listed[i] == n;
        assert observed[i] in sorted;
        var k :| 0 <= k < |sorted| && sorted[k] == observed[i];
        assert names[k] == n;
      }
    }
    assert s.names == set n | n in names;
  }

  lemma CalmListing(tl: Timeline, from: nat, now: nat, path: Path, still: Tree, listed: seq<Bytes>)
    requires Unchanging(tl, from, path, still) && still.stat.kind.Directory? && now >= from
    requires forall i, j | 0 <= i < j < |listed| :: listed[i] != listed[j]
    requires still.stat.names == set n | n in listed
    ensures SteadyChildren(tl, from, path, listed)
    ensures Lists(still.stat, Names(still.children)) && |listed| == Count(still.children)
  {
    UnchangingStat(tl, from, from, path, still);
    UnchangingChildren(tl, from, path, still);
    UnchangingSteady(tl, from, path, still.children);
    ListingSize(listed, still.stat, still.children);
    forall n | n in listed ensures Steady(tl, from, path + [n]) { assert n in still.stat.names; }
  }

  /** The second listing, and its comparison with the first. */
  method Relist(o: Observer, path: Path, expected: seq<Member>, ghost calm: bool, ghost from: nat, ghost still: Tree)
    returns (ok: bool)
    requires Lexicographic.Increasing(MemberNames(expected))
    requires calm ==> from <= o.now && Unchanging(o.tl, from, path, still) && still.stat.kind.Directory?
                      && MemberNames(expected) == Names(still.children) && MembersAt(o.tl, from, path, expected)
    modifies o
    ensures o.now >= old(o.now)
    ensures ok ==>
              && (exists t: nat :: old(o.now) <= t <= o.now && ListsAt(o.tl(t, path), MemberNames(expected)))
              && forall m | m in expected :: MemberSeen(o.tl, old(o.now), o.now, path, m)
    ensures calm ==> ok
  {
    hide IsTreeAt, IsForestAt, SteadyChildren, Names, MembersAt, MemberSeen, Lexicographic.Increasing;
    ghost var start := o.now;
    if calm { UnchangingStat(o.tl, from, o.now, path, still); }
    var listed := o.ReadDir(path);
    ghost var at := o.now;
    if calm { UnchangingStat(o.tl, from, o.now, path, still); }
    if listed.None? { return false; }
    if calm { CalmListing(o.tl, from, o.now, path, still, listed.value); }
    var observed := ObserveMembers(o, path, listed.value, |listed.value|, calm, from);
    if observed.None? { return false; }
    ok := RelistingAccepts(expected, observed.value);
    if calm { CalmRelisting(o.tl, from, path, still, listed.value, observed.value, expected); }
    if ok {
      ExpectedDistinct(expected);
      PermutationCovers(observed.value, expected);
      SortedListing(o.tl(at, path).value, listed.value, observed.value, expected);
      SeenWiden(o.tl, at, start, o.now, path, observed.value, expected);
    }
  }

  lemma SeenWiden(tl: Timeline, at: nat, start: nat, now: nat, path: Path, observed: seq<Member>, expected: seq<Member>)
    requires start <= at <= now && (forall m | m in expected :: m in observed)
    requires forall i | 0 <= i < |observed| :: MemberSeen(tl, at, now, path, observed[i])
    ensures forall m | m in expected :: MemberSeen(tl, start, now, path, m)
  {
    forall m | m in expected ensures MemberSeen(tl, start, now, path, m) {
      assert m in observed;
      var i :| 0 <= i < |observed| && observed[i] == m;
      assert MemberSeen(tl, at, now, path, observed[i]);
    }
  }

  lemma CalmRelisting(tl: Timeline, from: nat, path: Path, still: Tree, listed: seq<Bytes>, observed: seq<Member>,
                      expected: seq<Member>)
    requires forall i, j | 0 <= i < j < |listed| :: listed[i] != listed[j]
    requires still.stat.names == (set n | n in listed) && Lists(still.stat, Names(still.children))
             && |listed| == Count(still.children)
    requires MemberNames(observed) == listed && MemberNames(expected) == Names(still.children)
    requires MembersAt(tl, from, path, observed) && MembersAt(tl, from, path, expected)
    ensures IsPermutation(observed, expected)
  {
    hide Lexicographic.Increasing;
    NamesSize(still.children);
    forall i, j | 0 <= i < j < |observed| ensures observed[i] != observed[j] { assert listed[i] != listed[j]; }
    forall i | 0 <= i < |observed| ensures observed[i] in expected {
      assert listed[i] in still.stat.names;
      assert listed[i] in MemberNames(expected);
      var k :| 0 <= k < |expected| && MemberNames(expected)[k] == listed[i];
      assert SeenLike(tl(from, path + [expected[k].name]), expected[k]);
      assert SeenLike(tl(from, path + [observed[i].name]), observed[i]);
    }
  }

  // ----- one entry -----

  /** Kind, identity and covered metadata. */
  function TagBytes(s: Stat): Bytes { [KindTag(s.kind)] + IdentityBytes(s.id) + MetaBytes(s.meta) }

  lemma EntryStream(fed: Bytes, relative: Bytes, tree: Tree)
    ensures fed + Prefixed(relative) + (TagBytes(tree.stat) + TreeBody(relative, tree)) == fed
            + TreeBytes(relative, tree)
  {
    hide TreeBody, Prefixed, IdentityBytes, MetaBytes;
  }

  /** A leaf that was read completely. */
  ghost predicate LeafRead(o: Observer, start: nat, path: Path, relative: Bytes, fed: Bytes, fedNow: Bytes, seen: Stat,
                           tree: Tree)
    reads o
  {
    && tree.children.Nil? && SeenAs(Some(seen), tree.stat)
    && fedNow == fed + (TagBytes(tree.stat) + TreeBody(relative, tree))
    && start <= o.now && BodyRead(o.tl, o.files, start, o.now, path, tree)
  }

  /** The symbolic link branch: the target is read, and read again at the end. */
  method HashSymlink(o: Observer, hasher: Hasher, path: Path, relative: Bytes, seen: Stat)
    returns (ok: bool, ghost tree: Tree)
    requires seen.kind.Symlink?
    modifies o, hasher
    ensures o.now >= old(o.now)
    ensures ok ==> LeafRead(o, old(o.now), path, relative, old(hasher.stream), hasher.stream, seen, tree)
    ensures (forall t: nat | t >= old(o.now) :: o.tl(t, path) == Some(seen)) ==> ok
  {
    hide MetaBytes, IdentityBytes, Prefixed;
    ghost var start := o.now;
    tree := Tree(seen, Nil);
    hasher.Update([KindTag(Symlink)]);
    hasher.Update(IdentityBytes(seen.id));
    hasher.Update(MetaBytes(seen.meta));
    var link := o.Look(path);
    if link.None? || !link.value.kind.Symlink? { return false, tree; }
    var target := link.value.target;
    ghost var readAt := o.now;
    hasher.Update(Prefixed(target));
    var after := o.Look(path);
    ghost var lookedAt := o.now;
    if after.None? || !after.value.kind.Symlink? || after.value.id != seen.id
      || after.value.meta != seen.meta { return false, tree; }
    var again := o.Look(path);
    if again.None? || !again.value.kind.Symlink? || again.value.target != target { return false, tree; }
    tree := Tree(seen.(target := target), Nil);
    LinkLeaf(o, start, readAt, lookedAt, path, tree.stat);
    return true, tree;
  }

  lemma LinkLeaf(o: Observer, start: nat, readAt: nat, lookedAt: nat, path: Path, s: Stat)
    requires start <= readAt <= lookedAt <= o.now
    requires Targets(o.tl(readAt, path), s.target) && SeenAs(o.tl(lookedAt, path), s)
             && Targets(o.tl(o.now, path), s.target)
    ensures LinkRead(o.tl, start, o.now, path, s)
  {
    hide Targets, SeenAs;
  }

  /** `hash_regular_file`: the open file must be the object that was seen, and must look the
      same when everything has been read. */
  method HashFile(o: Observer, hasher: Hasher, path: Path, relative: Bytes, seen: Stat)
    returns (ok: bool, ghost tree: Tree)
    requires seen.kind.File? && ValidFiles(o.tl, o.files)
    modifies o, hasher
    ensures o.now >= old(o.now)
    ensures ok ==> LeafRead(o, old(o.now), path, relative, old(hasher.stream), hasher.stream, seen, tree)
    ensures (forall t: nat | t >= old(o.now) :: o.tl(t, path) == Some(seen)) ==> ok
  {
    hide MetaBytes, IdentityBytes, LeafRead, ReadThrough;
    ghost var start := o.now;
    tree := Tree(seen, Nil);
    hasher.Update([KindTag(File)]);
    var handle := o.Look(path);
    if handle.None? || handle.value.kind.Symlink? { return false, tree; }
    if handle.value.id != seen.id || !handle.value.kind.File? { return false, tree; }
    var first := handle.value;
    hasher.Update(IdentityBytes(seen.id));
    hasher.Update(MetaBytes(seen.meta));
    ghost var before := o.now;
    ghost var bytes := ReadAll(o, hasher, seen.id);
    ghost var after := o.now;
    var closing := o.LookHandle(seen.id);
    ghost var closedAt := o.now;
    assert o.tl(o.now, path) == Some(seen) ==> closing == seen;
    var named := o.Look(path);
    if named.None? || named.value.id != seen.id { return false, tree; }
    if closing.meta.length != first.meta.length || closing.meta.modified != first.meta.modified
      || closing.changed != first.changed {
      return false, tree;
    }
    if closing.meta != seen.meta { return false, tree; }
    tree := Tree(seen.(content := bytes), Nil);
    FileLeaf(o, start, before, after, closedAt, path, relative, old(hasher.stream), seen, bytes);
    return true, tree;
  }

  lemma FileLeaf(o: Observer, start: nat, before: nat, after: nat, closedAt: nat, path: Path, relative: Bytes,
                 fed: Bytes, seen: Stat, bytes: Bytes)
    requires seen.kind.File? && start <= before <= after <= closedAt <= o.now
    requires ReadThrough(o.files, before, after, seen.id, bytes)
    requires o.files(closedAt, seen.id).meta == seen.meta && HasIdentity(o.tl(o.now, path), seen.id)
    ensures LeafRead(o, start, path, relative, fed,
                     fed + [KindTag(File)] + IdentityBytes(seen.id) + MetaBytes(seen.meta) + bytes,
                     seen, Tree(seen.(content := bytes), Nil))
  {
    hide MetaBytes, IdentityBytes;
    ReadWiden(o.files, before, after, start, o.now, seen.id, bytes);
    assert FileClosed(o.tl, o.files, start, o.now, path, seen.(content := bytes)) by { hide HasIdentity; }
  }

  lemma ReadWiden(files: Files, lo: nat, hi: nat, lo': nat, hi': nat, id: Identity, bytes: Bytes)
    requires ReadThrough(files, lo, hi, id, bytes) && lo' <= lo && hi <= hi'
    ensures ReadThrough(files, lo', hi', id, bytes)
  {
    hide ByteAt;
  }

  /** `hash_entry`. The pending count is restored on every exit; a success fed exactly the
      content stream of what was read in this time. On an unchanging tree without special files
      the scan fails only when a limit is exceeded. */
  method HashEntry(o: Observer, hasher: Hasher, budget: Budget, path: Path, relative: Bytes, depth: nat,
                   ghost calm: bool, ghost still: Tree, ghost future: nat)
    returns (ok: bool, ghost tree: Tree)
    requires budget.Valid() && depth <= MAX_TREE_DEPTH + 1
    requires ValidFiles(o.tl, o.files)
    requires calm ==> CalmStart(o.tl, o.now, path, still, budget, future)
    modifies o, hasher, budget
    ensures o.now >= old(o.now)
    ensures budget.Valid() && budget.pendingEntries == old(budget.pendingEntries)
    ensures ok ==>
              && hasher.stream == old(hasher.stream) + TreeBytes(relative, tree)
              && Hashed(o.tl, o.files, old(o.now), o.now, path, tree)
              && budget.visitedEntries == old(budget.visitedEntries) + Size(tree) <= budget.maxEntries
              && depth + Height(tree) <= MAX_TREE_DEPTH
    ensures calm && ok ==> Size(tree) == Size(still)
    ensures (calm && NoOther(still) && Fits(depth, still, old(budget.visitedEntries), future, budget.maxEntries)) ==> ok
    decreases MAX_TREE_DEPTH + 1 - depth, 2
  {
    hide TreeBytes, TreeBody, ForestBytes, Hashed, HashedForest, IsTreeAt, IsForestAt, Lists, Names, ForestSize,
         ForestHeight, Prefixed, Le64, Join, ValidFiles, TagBytes, BodyRead, NoOtherForest, LeafRead;
    tree := still;
    if depth > MAX_TREE_DEPTH { return false, tree; }
    ok := budget.Enter();
    if !ok { return; }
    ghost var start := o.now;
    var look := o.Look(path);
    ghost var seenAt := o.now;
    if calm { UnchangingLooks(o.tl, start, path, still); }
    if look.None? { return false, tree; }
    var seen := look.value;
    hasher.Update(Prefixed(relative));
    ghost var fed := hasher.stream;
    match seen.kind {
      case Symlink => ok, tree := HashSymlink(o, hasher, path, relative, seen);
      case File => ok, tree := HashFile(o, hasher, path, relative, seen);
      case Other => return false, tree;
      case Directory =>
        ok, tree := HashDirectory(o, hasher, budget, path, relative, depth, seen, start, calm, still, future);
        if ok { EntryStream(old(hasher.stream), relative, tree); }
        return;
    }
    if ok {
      LeafHashed(o, start, seenAt, path, relative, fed, hasher.stream, seen, tree);
      EntryStream(old(hasher.stream), relative, tree);
      if calm { LeafHashed(o, start, seenAt, path, relative, fed, hasher.stream, seen, tree); LeafSize(still); }
    }
  }

  lemma LeafSize(t: Tree)
    ensures t.children.Nil? ==> Size(t) == 1 && Height(t) == 0
  {
  }

  lemma LeafHashed(o: Observer, start: nat, seenAt: nat, path: Path, relative: Bytes, fed: Bytes, fedNow: Bytes,
                   seen: Stat, tree: Tree)
    requires start <= seenAt <= o.now && o.tl(seenAt, path) == Some(seen)
    requires LeafRead(o, seenAt, path, relative, fed, fedNow, seen, tree)
    ensures fedNow == fed + (TagBytes(tree.stat) + TreeBody(relative, tree))
    ensures Hashed(o.tl, o.files, start, o.now, path, tree)
    ensures Size(tree) == 1 && Height(tree) == 0
  {
    hide TreeBody, TagBytes;
    assert SeenAs(o.tl(seenAt, path), tree.stat);
    assert Hashed(o.tl, o.files, seenAt, o.now, path, tree) by { hide BodyRead; }
    HashedWiden(o.tl, o.files, seenAt, o.now, start, o.now, path, tree);
  }

  /** The directory branch: listing, children, second listing, closing look. */
  method HashDirectory(o: Observer, hasher: Hasher, budget: Budget, path: Path, relative: Bytes, depth: nat, seen: Stat,
                       ghost start: nat, ghost calm: bool, ghost still: Tree, ghost future: nat)
    returns (ok: bool, ghost tree: Tree)
    requires budget.Valid() && depth <= MAX_TREE_DEPTH && 0 < budget.visitedEntries <= budget.maxEntries
    requires ValidFiles(o.tl, o.files)
    requires seen.kind.Directory? && start <= o.now && o.tl(o.now, path) == Some(seen)
    requires calm ==> Unchanging(o.tl, start, path, still) && seen == still.stat
                      && budget.pendingEntries + 1 <= budget.visitedEntries + future
    modifies o, hasher, budget
    ensures o.now >= old(o.now)
    ensures budget.Valid() && budget.pendingEntries == old(budget.pendingEntries)
    ensures ok ==>
              && hasher.stream == old(hasher.stream) + (TagBytes(tree.stat) + TreeBody(relative, tree))
              && Hashed(o.tl, o.files, start, o.now, path, tree)
              && budget.visitedEntries + 1 == old(budget.visitedEntries) + Size(tree)
                && budget.visitedEntries <= budget.maxEntries
              && depth + Height(tree) <= MAX_TREE_DEPTH
    ensures calm && ok ==> Size(tree) == Size(still)
    ensures (calm && NoOther(still) && depth + Height(still) <= MAX_TREE_DEPTH
             && old(budget.visitedEntries) + ForestSize(still.children) + future <= budget.maxEntries) ==> ok
    decreases MAX_TREE_DEPTH + 1 - depth, 1
  {
    hide ListsAt, SameDirectory, TreeBytes, TreeBody, ForestBytes, Hashed, HashedForest, IsTreeAt, IsForestAt, Lists,
         Names, ForestSize, ForestHeight, Le64, Join, ValidFiles, BodyRead, NoOther, NoOtherForest, Unchanging,
         UnchangingForest, Size, Height, MembersAt, MemberSeen, IdentityBytes, MetaBytes, Lexicographic.Increasing,
         Lexicographic.Less, TagBytes, Concat, Snoc, Count, SeenAs, LeafRead, Prefixed, SameStamp, ReadThrough,
         TreeBody, HeadBytes, KindTag, ValidTree, ValidForest, StabilityForest, StabilityBytes, ByteAt, Targets,
         IsPermutation, Steady, SteadyChildren, SeenLike, StampBytes, Scanned, ScannedForest;
    tree := still;
    ghost var pending, visited, fed, seenAt := budget.pendingEntries, budget.visitedEntries, hasher.stream, o.now;
    hasher.Update([KindTag(Directory)]);
    hasher.Update(IdentityBytes(seen.id));
    hasher.Update(MetaBytes(seen.meta));
    ghost var from := o.now;
    if calm { UnchangingLater(o.tl, start, from, path, still); }
    var listing, listedAt := CollectMembers(o, budget, path, calm, still, future);
    if listing.None? { return false, tree; }
    var members := listing.value;
    ghost var names := MemberNames(members);
    hasher.Update(Le64(|members|));
    ghost var head := hasher.stream;
    ghost var f;
    ok, f := HashChildren(o, hasher, budget, path, relative, depth, members, start, calm, still, future);
    ghost var hashedTo := o.now;
    if ok { ok := Relist(o, path, members, calm, from, still); }
    ghost var relistedAt := o.now;
    if ok {
      relistedAt :| hashedTo <= relistedAt <= o.now && ListsAt(o.tl(relistedAt, path), names);
      var later := o.Look(path);
      ok := later.Some? && later.value.id == seen.id && later.value.kind.Directory?
            && later.value.meta == seen.meta && later.value.changed == seen.changed;
      if ok { ClosingLook(later.value, seen); }
      if calm { UnchangingLooks(o.tl, start, path, still); }
    }
    budget.ReleasePending(|members|);
    if ok {
      tree := Tree(seen, f);
      HashedForestWiden(o.tl, o.files, start, hashedTo, start, o.now, path, f);
      DirectoryHashed(o.tl, o.files, start, seenAt, listedAt, relistedAt, o.now, path, relative, tree, names, depth);
      if calm { SizeOf(tree); SizeOf(still); }
      DirectoryStream(fed, relative, tree, |members|);
    }
  }

  /** The loop over the sorted members. */
  method HashChildren(o: Observer, hasher: Hasher, budget: Budget, path: Path, relative: Bytes, depth: nat,
                      members: seq<Member>, ghost start: nat, ghost calm: bool, ghost still: Tree, ghost future: nat)
    returns (ok: bool, ghost f: Forest)
    requires budget.Valid() && depth <= MAX_TREE_DEPTH && budget.visitedEntries <= budget.maxEntries
    requires ValidFiles(o.tl, o.files) && start <= o.now
    requires calm ==> Unchanging(o.tl, start, path, still) && MemberNames(members) == Names(still.children)
                      && budget.pendingEntries + 1 <= budget.visitedEntries + |members| + future
    modifies o, hasher, budget
    ensures o.now >= old(o.now)
    ensures budget.Valid() && budget.pendingEntries == old(budget.pendingEntries)
    ensures ok ==>
              && Names(f) == MemberNames(members) && hasher.stream == old(hasher.stream) + ForestBytes(relative, f)
              && HashedForest(o.tl, o.files, start, o.now, path, f)
              && budget.visitedEntries == old(budget.visitedEntries) + ForestSize(f) <= budget.maxEntries
              && (members != [] ==> depth + 1 + ForestHeight(f) <= MAX_TREE_DEPTH)
    ensures calm && ok ==> ForestSize(f) == ForestSize(still.children)
    ensures (calm && NoOther(still) && depth + Height(still) <= MAX_TREE_DEPTH
             && old(budget.visitedEntries) + ForestSize(still.children) + future <= budget.maxEntries) ==> ok
    decreases MAX_TREE_DEPTH + 1 - depth, 0
  {
    hide TreeBytes, TreeBody, ForestBytes, Hashed, HashedForest, IsTreeAt, IsForestAt, Lists, Names, ForestSize,
         ForestHeight, Le64, Join, ValidFiles, BodyRead, NoOther, NoOtherForest, Unchanging, UnchangingForest, Size,
         Height, MembersAt, MemberSeen, IdentityBytes, MetaBytes, Lexicographic.Increasing, Lexicographic.Less,
         TagBytes, Concat, Snoc, Count, SeenAs, LeafRead, Prefixed, SameStamp, ReadThrough, TreeBody, HeadBytes,
         KindTag, ValidTree, ValidForest, StabilityForest, StabilityBytes, ByteAt, Targets, IsPermutation, Steady,
         SteadyChildren, SeenLike, StampBytes, Scanned, ScannedForest;
    f := Nil;
    ghost var names, head, visited := MemberNames(members), hasher.stream, budget.visitedEntries;
    ghost var begun, pending := o.now, budget.pendingEntries;
    ghost var done, rest := Nil, still.children;
    HashStart(o.tl, o.files, start, o.now, path, relative, names, head, rest);
    if calm { UnchangingChildren(o.tl, start, path, still); }
    var k := 0;
    ok := true;
    while k < |members| && ok
      invariant 0 <= k <= |members|
      invariant o.now >= begun && budget.Valid() && budget.pendingEntries == pending
      invariant ok ==> Names(f) == names[..k] && hasher.stream == head + ForestBytes(relative, f)
      invariant ok ==> HashedForest(o.tl, o.files, start, o.now, path, f)
      invariant ok ==> budget.visitedEntries == visited + ForestSize(f) <= budget.maxEntries
      invariant k == 0 ==> f.Nil?
      invariant ok && k > 0 ==> depth + 1 + ForestHeight(f) <= MAX_TREE_DEPTH
      invariant calm && ok ==> Concat(done, rest) == still.children && UnchangingForest(o.tl, start, path, rest)
                               && Names(done) == names[..k] && ForestSize(done) == ForestSize(f)
      invariant (calm && NoOther(still) && depth + Height(still) <= MAX_TREE_DEPTH
                 && visited + ForestSize(still.children) + future <= budget.maxEntries) ==> ok
    {
      ghost var lo := o.now;
      var name := members[k].name;
      var childRelative := Join(relative, name);
      ghost var child, childFuture := still, future;
      if calm {
        NextChild(still, done, rest, names, k);
        NextIsNotOther(still, done, rest);
        UnchangingStep(o.tl, start, o.now, path, rest);
        child, childFuture := rest.tree, ForestSize(rest.rest) + future;
      }
      ghost var log;
      ok, log := HashEntry(o, hasher, budget, path + [name], childRelative, depth + 1, calm, child, childFuture);
      if ok {
        HashedForestWiden(o.tl, o.files, start, lo, start, o.now, path, f);
        HashedWiden(o.tl, o.files, lo, o.now, start, o.now, path + [name], log);
        HashedSnoc(o.tl, o.files, start, o.now, path, f, name, log);
        SnocShape(f, name, log, Nil);
        SnocBytes(relative, f, name, log);
        Reassociate(head, ForestBytes(relative, f), TreeBytes(childRelative, log));
        f := Snoc(f, name, log);
        if calm {
          SnocShape(done, name, child, rest.rest);
          done, rest := Snoc(done, name, child), rest.rest;
        }
      }
      k := k + 1;
    }
    if ok {
      assert names[..|names|] == names;
      if calm { AllChildren(still, done, rest, names); }
    }
  }

  lemma ClosingLook(later: Stat, seen: Stat)
    requires later.id == seen.id && later.kind == seen.kind && later.meta == seen.meta && later.changed == seen.changed
    ensures SameDirectory(Some(later), seen)
  {
  }

  lemma SizeOf(t: Tree)
    ensures Size(t) == 1 + ForestSize(t.children)
  {
  }

  lemma NextIsNotOther(still: Tree, done: Forest, rest: Forest)
    requires Concat(done, rest) == still.children && rest.Cons?
    ensures NoOther(still) ==> NoOther(rest.tree)
  {
    NoOtherConcat(done, rest);
  }

  lemma HashStart(tl: Timeline, files: Files, start: nat, now: nat, path: Path, relative: Bytes, names: seq<Bytes>,
                  head: Bytes, rest: Forest)
    ensures Names(Nil) == names[..0] && ForestSize(Nil) == 0 && ForestHeight(Nil) == 0
    ensures head + ForestBytes(relative, Nil) == head && Concat(Nil, rest) == rest
    ensures HashedForest(tl, files, start, now, path, Nil)
  {
  }

  lemma DirectoryStream(fed: Bytes, relative: Bytes, tree: Tree, count: nat)
    requires tree.stat.kind.Directory? && count == Count(tree.children)
    ensures fed + [KindTag(Directory)] + IdentityBytes(tree.stat.id) + MetaBytes(tree.stat.meta) + Le64(count)
            + ForestBytes(relative, tree.children)
         == fed + (TagBytes(tree.stat) + TreeBody(relative, tree))
  {
    hide IdentityBytes, MetaBytes, Le64, ForestBytes;
  }

  lemma DirectoryHashed(tl: Timeline, files: Files, start: nat, seenAt: nat, listedAt: nat, relistedAt: nat, now: nat,
                        path: Path, relative: Bytes, tree: Tree, names: seq<Bytes>, depth: nat)
    requires start <= seenAt <= listedAt <= relistedAt <= now && tree.stat.kind.Directory?
             && tl(seenAt, path) == Some(tree.stat)
    requires ListsAt(tl(listedAt, path), names) && ListsAt(tl(relistedAt, path), names) && Names(tree.children) == names
    requires SameDirectory(tl(now, path), tree.stat)
    requires HashedForest(tl, files, start, now, path, tree.children)
    requires depth <= MAX_TREE_DEPTH && (names != [] ==> depth + 1 + ForestHeight(tree.children) <= MAX_TREE_DEPTH)
    ensures Hashed(tl, files, start, now, path, tree)
    ensures depth + Height(tree) <= MAX_TREE_DEPTH && Size(tree) == 1 + ForestSize(tree.children)
    ensures |names| == Count(tree.children)
  {
    hide HashedForest, Lists, ListsAt, SameDirectory, ForestHeight, ForestSize;
    NamesSize(tree.children);
    assert SeenAs(tl(seenAt, path), tree.stat);
    assert BodyRead(tl, files, start, now, path, tree);
  }
}
