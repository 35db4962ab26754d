/** A successful tree digest is the digest of the tree as it was at one instant. */
module TreeSnapshot {
  import opened Options
  import opened ByteStream
  import opened TreeStream
  import opened TreeScan
  import opened TreeDigest
  import opened TreeHash

  // ----- what a change time promises -----

  ghost predicate Constant(tl: Timeline, lo: nat, hi: nat, path: Path) {
    forall t: nat | lo <= t <= hi :: tl(t, path) == tl(lo, path)
  }

  ghost predicate AboveConstant(tl: Timeline, lo: nat, hi: nat, path: Path) {
    forall k | 0 <= k < |path| :: Constant(tl, lo, hi, path[..k])
  }

  predicate SameChange(s: Option<Stat>, u: Option<Stat>) {
    s.Some? && u.Some? && s.value.id == u.value.id && s.value.changed == u.value.changed
  }

  /** As long as the directories above it do not change, a path that shows the same object with
      the same change time at two instants showed exactly that all the time in between. */
  ghost predicate Settled(tl: Timeline) {
    forall lo: nat, hi: nat, p: Path ::
      (lo <= hi && AboveConstant(tl, lo, hi, p) && SameChange(tl(lo, p), tl(hi, p))) ==> Constant(tl, lo, hi, p)
  }

  // ----- change times of objects give such timelines -----

  datatype Object = Object(stat: Stat, entries: map<Bytes, Identity>)

  /** The objects of a file system over time, and the object the scanned path leads to. */
  datatype World = World(root: nat -> Option<Identity>, show: (nat, Identity) -> Object)

  /** Every change of an object or of its entries gives the object a change time it never had,
      and so does moving it into or out of the scanned path. */
  ghost predicate FreshChangeTimes(w: World) {
    && (forall t, i :: w.show(t, i).stat.id == i
                       && (w.show(t, i).stat.kind.Directory? ==> w.show(t, i).stat.names == w.show(t, i).entries.Keys))
    && (forall lo: nat, t: nat, hi: nat, i | lo <= t <= hi
        && w.show(lo, i).stat.changed == w.show(hi, i).stat.changed ::
          w.show(t, i) == w.show(lo, i))
    && (forall lo: nat, t: nat, hi: nat, i | lo <= t <= hi && w.root(lo) == Some(i) && w.root(hi) == Some(i)
                                             && w.show(lo, i).stat.changed == w.show(hi, i).stat.changed ::
          w.root(t) == Some(i))
  }

  function Resolve(w: World, t: nat, p: Path): Option<Identity> {
    if p == [] then w.root(t)
    else
      var above := Resolve(w, t, p[..|p| - 1]);
      if above.None? then None
      else
        var o := w.show(t, above.value);
        if o.stat.kind.Directory? && p[|p| - 1] in o.entries then Some(o.entries[p[|p| - 1]]) else None
  }

  ghost predicate Shows(w: World, tl: Timeline) {
    forall t, p :: tl(t, p) == (if Resolve(w, t, p).None? then None else Some(w.show(t, Resolve(w, t, p).value).stat))
  }

  lemma FreshChangeTimesSettle(w: World, tl: Timeline)
    requires FreshChangeTimes(w) && Shows(w, tl)
    ensures Settled(tl)
  {
    forall lo: nat, hi: nat, p: Path | lo <= hi && AboveConstant(tl, lo, hi, p) && SameChange(tl(lo, p), tl(hi, p))
      ensures Constant(tl, lo, hi, p)
    {
      forall t: nat | lo <= t <= hi ensures tl(t, p) == tl(lo, p) { SettledAt(w, tl, lo, t, hi, p); }
    }
  }

  lemma SettledAt(w: World, tl: Timeline, lo: nat, t: nat, hi: nat, p: Path)
    requires FreshChangeTimes(w) && Shows(w, tl) && lo <= t <= hi
    requires AboveConstant(tl, lo, hi, p) && SameChange(tl(lo, p), tl(hi, p))
    ensures tl(t, p) == tl(lo, p)
  {
    var id := tl(lo, p).value.id;
    if p == [] {
      assert w.root(t) == Some(id);
    } else {
      ParentResolves(w, tl, lo, t, hi, p);
    }
    assert Resolve(w, t, p) == Some(id);
    assert w.show(t, id) == w.show(lo, id);
  }

  /** Under directories that do not change, the path leads to the same object. */
  lemma ParentResolves(w: World, tl: Timeline, lo: nat, t: nat, hi: nat, p: Path)
    requires FreshChangeTimes(w) && Shows(w, tl) && p != [] && lo <= t <= hi
    requires AboveConstant(tl, lo, hi, p)
    ensures Resolve(w, t, p) == Resolve(w, lo, p)
  {
    var parent := p[..|p| - 1];
    assert Constant(tl, lo, hi, parent);
    assert tl(t, parent) == tl(lo, parent) == tl(hi, parent);
    if tl(lo, parent).Some? {
      var d := tl(lo, parent).value.id;
      assert Resolve(w, t, parent) == Some(d) && Resolve(w, lo, parent) == Some(d) && Resolve(w, hi, parent) == Some(d);
      assert w.show(t, d) == w.show(lo, d);
    }
  }

  // ----- equal stability scans -----

  /** Between two scans that saw the same stamps, the tree was what the first scan saw. */
  lemma {:induction false} StillBetween(tl: Timeline, a0: nat, a1: nat, a: Tree, b0: nat, b1: nat, b: Tree, path: Path)
    requires Settled(tl) && SameStamps(a, b) && a0 <= a1 <= b0 <= b1
    requires Scanned(tl, a0, a1, path, a) && Scanned(tl, b0, b1, path, b)
    requires AboveConstant(tl, a0, b1, path)
    ensures Stays(tl, a1, b0, path, a)
    decreases a
  {
    hide IsForestAt, ScannedForest, SameStampForest, Settled, Lists, Names;
    var t: nat, u: nat, w: nat :| a0 <= t <= u <= w <= a1 && tl(t, path) == Some(a.stat)
      && ListedAt(tl, u, w, path, a) && ScannedForest(tl, t, w, path, a.children);
    var t': nat, u': nat, w': nat :| b0 <= t' <= u' <= w' <= b1 && tl(t', path) == Some(b.stat)
      && ListedAt(tl, u', w', path, b) && ScannedForest(tl, t', w', path, b.children);
    var end := if a.stat.kind.Directory? then w' else t';
    AboveNarrow(tl, a0, b1, t, end, path);
    assert SameChange(tl(t, path), tl(end, path));
    UseSettled(tl, t, end, path);
    assert tl(u, path) == tl(t, path);
    if a.stat.kind.Directory? {
      forall n: Bytes ensures AboveConstant(tl, t, w', path + [n]) { BelowConstant(tl, t, w', path, n); }
      StillBetweenForest(tl, t, w, a.children, t', w', b.children, path);
    } else {
      assert forall s: nat :: IsForestAt(tl, s, path, Nil) by { EmptyForest(tl, path); }
    }
    forall s: nat | a1 <= s <= b0 ensures IsTreeAt(tl, s, path, a) {
      assert tl(s, path) == tl(t, path);
      if a.stat.kind.Directory? { assert IsForestAt(tl, s, path, a.children); }
    }
  }

  lemma EmptyForest(tl: Timeline, path: Path)
    ensures forall s: nat :: IsForestAt(tl, s, path, Nil)
  {
  }

  lemma UseSettled(tl: Timeline, lo: nat, hi: nat, p: Path)
    requires Settled(tl) && lo <= hi && AboveConstant(tl, lo, hi, p) && SameChange(tl(lo, p), tl(hi, p))
    ensures Constant(tl, lo, hi, p)
  {
  }

  lemma AboveNarrow(tl: Timeline, lo: nat, hi: nat, lo': nat, hi': nat, path: Path)
    requires AboveConstant(tl, lo, hi, path) && lo <= lo' <= hi' <= hi
    ensures AboveConstant(tl, lo', hi', path)
  {
    forall k | 0 <= k < |path| ensures Constant(tl, lo', hi', path[..k]) { assert Constant(tl, lo, hi, path[..k]); }
  }

  lemma BelowConstant(tl: Timeline, lo: nat, hi: nat, path: Path, name: Bytes)
    requires AboveConstant(tl, lo, hi, path) && Constant(tl, lo, hi, path)
    ensures AboveConstant(tl, lo, hi, path + [name])
  {
    forall k | 0 <= k < |path| + 1 ensures Constant(tl, lo, hi, (path + [name])[..k]) {
      assert (path + [name])[..k] == path[..k];
      if k == |path| { assert path[..k] == path; }
    }
  }

  lemma {:induction false} StillBetweenForest(tl: Timeline, a0: nat, a1: nat, f: Forest, b0: nat, b1: nat, g: Forest,
                                              path: Path)
    requires Settled(tl) && SameStampForest(f, g) && a0 <= a1 <= b0 <= b1
    requires ScannedForest(tl, a0, a1, path, f) && ScannedForest(tl, b0, b1, path, g)
    requires forall n: Bytes :: AboveConstant(tl, a0, b1, path + [n])
    ensures StaysForest(tl, a1, b0, path, f)
    decreases f
  {
    hide IsTreeAt, Scanned, SameStamps, Settled, AboveConstant;
    if f.Cons? {
      StillBetween(tl, a0, a1, f.tree, b0, b1, g.tree, path + [f.name]);
      StillBetweenForest(tl, a0, a1, f.rest, b0, b1, g.rest, path);
    }
    forall s: nat | a1 <= s <= b0 ensures IsForestAt(tl, s, path, f) {
      if f.Cons? { assert IsTreeAt(tl, s, path + [f.name], f.tree) && IsForestAt(tl, s, path, f.rest); }
    }
  }

  // ----- the digest -----

  const ENTRY_TAG: Bytes := Ascii("squallz-destination-entry-v1\0")
  const STABILITY_TAG: Bytes := Ascii("squallz-destination-tree-stability-v1\0")

  /** A digest is represented by the bytes that were digested. */
  datatype Digest = Absent | Failed | Digest(stream: Bytes)

  /** The limits a tree has to keep. */
  predicate WithinLimits(tree: Tree) { Size(tree) <= MAX_TREE_ENTRIES && Height(tree) <= MAX_TREE_DEPTH }

  method TreeStability(o: Observer, ghost calm: bool, ghost still: Tree)
    returns (ok: bool, stream: Bytes, ghost tree: Tree)
    requires ValidTimeline(o.tl) && (calm ==> Unchanging(o.tl, o.now, [], still))
    modifies o
    ensures o.now >= old(o.now)
    ensures ok ==>
              && stream == STABILITY_TAG + StabilityBytes([], tree)
              && ValidTree([], tree) && Scanned(o.tl, old(o.now), o.now, [], tree)
    ensures calm && ok ==> tree == still
    ensures calm ==> (ok <==> WithinLimits(still))
  {
    hide StabilityBytes, ValidTree, Scanned, IsTreeAt, Size, Height, ValidTimeline;
    var hasher := new Hasher(STABILITY_TAG);
    var budget := new Budget(MAX_TREE_ENTRIES);
    ok, tree := StabilityEntry(o, hasher, budget, [], [], 0, calm, still, 0);
    stream := hasher.stream;
  }

  /** `path_state_digest_with_progress`. The path is absent exactly when the first look, at instant
      `looked`, finds nothing. A success is the digest of the tree as it was at every
      instant from the end of the first stability scan to the start of the second. A tree that
      does not change is digested exactly when it has no special file and keeps the limits. */
  method PathStateDigest(o: Observer, ghost calm: bool, ghost still: Tree)
    returns (r: Digest, ghost tree: Tree, ghost looked: nat, ghost from: nat, ghost to: nat)
    requires ValidTimeline(o.tl) && ValidFiles(o.tl, o.files) && (calm ==> Unchanging(o.tl, o.now, [], still))
    modifies o
    ensures old(o.now) <= looked <= from <= to <= o.now
    ensures r.Absent? <==> o.tl(looked, []).None?
    ensures (forall t: nat | t >= old(o.now) :: o.tl(t, []).None?) ==> r.Absent?
    ensures r.Digest? && Settled(o.tl) ==>
              && Stays(o.tl, from, to, [], tree) && ValidTree([], tree)
              && r.stream == ENTRY_TAG + TreeBytes([], tree)
    ensures calm ==> if WithinLimits(still) && NoOther(still) then r == Digest(ENTRY_TAG + TreeBytes([], still))
            else r == Failed
  {
    hide StabilityBytes, ValidTree, Scanned, IsTreeAt, Size, Height, TreeBytes, Hashed, ValidFiles, ValidTimeline,
         Settled, NoOther, SameStamps;
    ghost var start := o.now;
    tree := still;
    var present := o.Look([]);
    looked, from, to := o.now, o.now, o.now;
    if calm { UnchangingLooks(o.tl, start, [], still); UnchangingLater(o.tl, start, o.now, [], still); }
    if present.None? { return Absent, tree, looked, from, to; }
    ghost var a, a0 := still, o.now;
    var ok, before;
    ok, before, a := TreeStability(o, calm, still);
    from, to := o.now, o.now;
    if !ok { return Failed, tree, looked, from, to; }
    if calm { UnchangingLater(o.tl, start, from, [], still); }
    var hasher := new Hasher(ENTRY_TAG);
    var budget := new Budget(MAX_TREE_ENTRIES);
    ghost var log;
    ok, log := HashEntry(o, hasher, budget, [], [], 0, calm, still, 0);
    to := o.now;
    if calm {
      UnchangingLater(o.tl, start, to, [], still);
      if ok { HashedUnchanging(o.tl, o.files, from, to, log, still); }
    }
    if !ok { return Failed, tree, looked, from, to; }
    ghost var b;
    var after;
    ok, after, b := TreeStability(o, calm, still);
    if !ok || after != before { return Failed, tree, looked, from, to; }
    tree := a;
    if Settled(o.tl) { SnapshotOf(o.tl, o.files, a0, from, a, to, o.now, b, log); }
    r := Digest(hasher.stream);
  }

  lemma HashedUnchanging(tl: Timeline, files: Files, from: nat, to: nat, log: Tree, still: Tree)
    requires ValidFiles(tl, files) && from <= to && Hashed(tl, files, from, to, [], log)
             && Unchanging(tl, from, [], still)
    ensures TreeBytes([], log) == TreeBytes([], still) && NoOther(still)
  {
    assert Stays(tl, from, to, [], still) by { hide IsTreeAt; }
    HashedIsThere(tl, files, from, to, [], log, still);
    SameTreeSameBytes([], log, still);
  }

  lemma SnapshotOf(tl: Timeline, files: Files, a0: nat, from: nat, a: Tree, to: nat, b1: nat, b: Tree, log: Tree)
    requires Settled(tl) && ValidFiles(tl, files) && a0 <= from <= to <= b1
    requires Scanned(tl, a0, from, [], a) && Scanned(tl, to, b1, [], b) && ValidTree([], a) && ValidTree([], b)
    requires STABILITY_TAG + StabilityBytes([], a) == STABILITY_TAG + StabilityBytes([], b)
    requires Hashed(tl, files, from, to, [], log)
    ensures Stays(tl, from, to, [], a) && TreeBytes([], log) == TreeBytes([], a)
  {
    hide Settled, ValidFiles, Scanned, ValidTree, Hashed, IsTreeAt;
    Split(STABILITY_TAG, StabilityBytes([], a), STABILITY_TAG, StabilityBytes([], b));
    assert StabilityBytes([], a) + [] == StabilityBytes([], b) + [];
    StabilityDecodes([], a, [], [], b, []);
    StillBetween(tl, a0, from, a, to, b1, b, []);
    HashedIsThere(tl, files, from, to, [], log, a);
    SameTreeSameBytes([], log, a);
  }

  /** Two equal digests were taken of equal trees. */
  lemma EqualDigestsEqualTrees(a: Tree, b: Tree)
    requires ValidTree([], a) && ValidTree([], b)
             && Digest(ENTRY_TAG + TreeBytes([], a)) == Digest(ENTRY_TAG + TreeBytes([], b))
    ensures SameTree(a, b)
  {
    hide ValidTree;
    Split(ENTRY_TAG, TreeBytes([], a), ENTRY_TAG, TreeBytes([], b));
    assert TreeBytes([], a) + [] == TreeBytes([], b) + [];
    TreeDecodes([], a, [], [], b, []);
  }
}
