/** The content scan of a destination tree, its re-listing check, and why two equal stability
    scans around it make it a snapshot of one instant. */
module TreeDigest {
  import opened Options
  import opened ByteStream
  import opened TreeStream
  import opened TreeScan
  import opened Sequences
  import Lexicographic

  // ----- reading one file -----

  predicate ByteAt(content: Bytes, i: nat, b: byte) { i < |content| && content[i] == b }

  /** Each byte was in the file at some instant from `lo` to `hi`, and at some instant the file
      ended where the bytes end. */
  ghost predicate ReadThrough(files: Files, lo: nat, hi: nat, id: Identity, bytes: Bytes) {
    && (forall i | 0 <= i < |bytes| :: exists t: nat :: lo <= t <= hi && ByteAt(files(t, id).content, i, bytes[i]))
    && exists t: nat :: lo <= t <= hi && |files(t, id).content| <= |bytes|
  }

  /** A file that did not change was read as it is. */
  lemma ReadConstant(files: Files, lo: nat, hi: nat, id: Identity, bytes: Bytes, content: Bytes)
    requires ReadThrough(files, lo, hi, id, bytes)
    requires forall t: nat | lo <= t <= hi :: files(t, id).content == content
    ensures bytes == content
  {
    forall i | 0 <= i < |bytes| ensures ByteAt(content, i, bytes[i]) {
      var t: nat :| lo <= t <= hi && ByteAt(files(t, id).content, i, bytes[i]);
    }
    var end: nat :| lo <= end <= hi && |files(end, id).content| <= |bytes|;
    assert files(end, id).content == content;
    if |bytes| > 0 { assert ByteAt(content, |bytes| - 1, bytes[|bytes| - 1]); }
    forall i | 0 <= i < |bytes| ensures content[i] == bytes[i] { assert ByteAt(content, i, bytes[i]); }
  }

  /** The read loop of `hash_regular_file`. */
  method ReadAll(o: Observer, hasher: Hasher, id: Identity) returns (ghost bytes: Bytes)
    requires ValidFiles(o.tl, o.files)
    modifies o, hasher
    ensures o.now >= old(o.now) && hasher.stream == old(hasher.stream) + bytes
    ensures ReadThrough(o.files, old(o.now), o.now, id, bytes)
  {
    ghost var start := o.now;
    bytes := [];
    var position := 0;
    while true
      invariant o.now >= start && hasher.stream == old(hasher.stream) + bytes && position == |bytes| <= U64
      invariant forall i | 0 <= i < |bytes| ::
          exists t: nat :: start <= t <= o.now && ByteAt(o.files(t, id).content, i, bytes[i])
      decreases U64 - position
    {
      var chunk := o.Read(id, position);
      assert o.files(o.now, id).Valid();
      if chunk == [] { break; }
      ghost var grown := bytes + chunk;
      forall i | 0 <= i < |grown|
        ensures exists t: nat :: start <= t <= o.now && ByteAt(o.files(t, id).content, i, grown[i])
      {
        if i >= |bytes| { assert ByteAt(o.files(o.now, id).content, i, grown[i]); }
      }
      Reassociate(old(hasher.stream), bytes, chunk);
      hasher.Update(chunk);
      bytes, position := grown, position + |chunk|;
    }
  }

  // ----- directory members -----

  /** What a listing remembers of one member, and compares later. */
  datatype Member = Member(name: Bytes, kind: Kind, id: Identity, meta: Meta, changed: (nat, nat),
                           target: Option<Bytes>)

  function MemberOf(name: Bytes, s: Stat): Member {
    Member(name, s.kind, s.id, s.meta, s.changed, if s.kind.Symlink? then Some(s.target) else None)
  }

  function MemberNames(members: seq<Member>): (r: seq<Bytes>)
    ensures |r| == |members| && forall k | 0 <= k < |r| :: r[k] == members[k].name
  {
    seq(|members|, k requires 0 <= k < |members| => members[k].name)
  }

  /** Binary search by name in a sorted listing. */
  method Position(expected: seq<Member>, name: Bytes) returns (index: Option<nat>)
    requires Lexicographic.Increasing(MemberNames(expected))
    ensures index.Some? ==> index.value < |expected| && expected[index.value].name == name
    ensures index.None? ==> forall k | 0 <= k < |expected| :: expected[k].name != name
  {
    var names := MemberNames(expected);
    var lo, hi := 0, |expected|;
    while lo < hi
      invariant 0 <= lo <= hi <= |expected|
      invariant forall k | 0 <= k < lo :: names[k] != name
      invariant forall k | hi <= k < |names| :: names[k] != name
    {
      var mid := (lo + hi) / 2;
      if names[mid] == name { return Some(mid); }
      Lexicographic.Total(names[mid], name);
      Lexicographic.Irreflexive(name);
      if Lexicographic.Less(names[mid], name) {
        forall k | 0 <= k < mid + 1 ensures names[k] != name {
          if k < mid { Lexicographic.Transitive(names[k], names[mid], name); }
        }
        lo := mid + 1;
      } else {
        forall k | mid <= k < |names| ensures names[k] != name {
          if k > mid { Lexicographic.Transitive(name, names[mid], names[k]); }
        }
        hi := mid;
      }
    }
    index := None;
  }

  /** The re-listing check: with one flag per member it accepts exactly the permutations of the
      first listing. */
  method RelistingAccepts(expected: seq<Member>, observed: seq<Member>) returns (ok: bool)
    requires Lexicographic.Increasing(MemberNames(expected))
    ensures ok <==> IsPermutation(observed, expected)
  {
    ExpectedDistinct(expected);
    var seen := new bool[|expected|](i => false);
    var i := 0;
    while i < |observed|
      invariant 0 <= i <= |observed|
      invariant forall k | 0 <= k < |expected| :: seen[k] <==> expected[k] in observed[..i]
      invariant NoDuplicates(observed[..i]) && forall k | 0 <= k < i :: observed[k] in expected
    {
      var index := Position(expected, observed[i].name);
      if index.None? || seen[index.value] || expected[index.value] != observed[i] {
        NotAPermutation(expected, observed, i, index);
        return false;
      }
      assert observed[..i + 1] == observed[..i] + [observed[i]];
      assert observed[i] !in observed[..i];
      seen[index.value] := true;
      i := i + 1;
    }
    assert observed[..|observed|] == observed;
    ok := true;
    i := 0;
    while i < |expected|
      invariant 0 <= i <= |expected| && (ok <==> forall k | 0 <= k < i :: seen[k])
    {
      if !seen[i] { ok := false; }
      i := i + 1;
    }
    AllSeen(expected, observed, ok);
  }

  lemma ExpectedDistinct(expected: seq<Member>)
    requires Lexicographic.Increasing(MemberNames(expected))
    ensures NoDuplicates(expected)
    ensures forall j, k | 0 <= j < k < |expected| :: expected[j].name != expected[k].name
  {
    var names := MemberNames(expected);
    forall j, k | 0 <= j < k < |expected| ensures expected[j].name != expected[k].name {
      Lexicographic.Irreflexive(names[j]);
      assert Lexicographic.Less(names[j], names[k]);
    }
  }

  lemma NotAPermutation(expected: seq<Member>, observed: seq<Member>, i: nat, index: Option<nat>)
    requires i < |observed| && Lexicographic.Increasing(MemberNames(expected))
    requires index.Some? ==> index.value < |expected| && expected[index.value].name == observed[i].name
    requires index.None? ==> forall k | 0 <= k < |expected| :: expected[k].name != observed[i].name
    requires index.Some? && expected[index.value] == observed[i] ==> observed[i] in observed[..i]
    ensures !IsPermutation(observed, expected)
  {
    ExpectedDistinct(expected);
    if observed[i] in observed[..i] {
      var j :| 0 <= j < i && observed[..i][j] == observed[i];
      assert observed[j] == observed[i];
    }
  }

  lemma AllSeen(expected: seq<Member>, observed: seq<Member>, ok: bool)
    requires NoDuplicates(expected) && NoDuplicates(observed)
             && forall k | 0 <= k < |observed| :: observed[k] in expected
    requires ok <==> forall k | 0 <= k < |expected| :: expected[k] in observed
    ensures ok <==> IsPermutation(observed, expected)
  {
    SetSize(expected);
    SetSize(observed);
    if ok {
      assert (set m | m in observed) == (set m | m in expected);
    } else if |observed| == |expected| {
      PermutationCovers(observed, expected);
    }
  }

  // ----- what a content scan saw -----

  predicate SeenAs(s: Option<Stat>, u: Stat) {
    s.Some? && s.value.kind == u.kind && s.value.id == u.id && s.value.meta == u.meta
  }

  /** `tree` holds what a content scan between `lo` and `hi` fed to the hasher: the metadata of
      each object, and the bytes, the link target or the listing it read, each at some instant. */
  ghost predicate Hashed(tl: Timeline, files: Files, lo: nat, hi: nat, path: Path, tree: Tree)
    decreases tree
  {
    && (exists t: nat :: lo <= t <= hi && SeenAs(tl(t, path), tree.stat))
    && BodyRead(tl, files, lo, hi, path, tree)
    && HashedForest(tl, files, lo, hi, path, tree.children)
  }

  ghost predicate BodyRead(tl: Timeline, files: Files, lo: nat, hi: nat, path: Path, tree: Tree) {
    match tree.stat.kind
    case File =>
      && tree.children.Nil? && ReadThrough(files, lo, hi, tree.stat.id, tree.stat.content)
      && FileClosed(tl, files, lo, hi, path, tree.stat)
    case Symlink => tree.children.Nil? && LinkRead(tl, lo, hi, path, tree.stat)
    case Directory => DirectoryRead(tl, lo, hi, path, tree.stat, Names(tree.children))
    case Other => false
  }

  predicate Targets(s: Option<Stat>, target: Bytes) { s.Some? && s.value.kind.Symlink? && s.value.target == target }

  predicate ListsAt(s: Option<Stat>, names: seq<Bytes>) { s.Some? && Lists(s.value, names) }

  predicate HasIdentity(s: Option<Stat>, id: Identity) { s.Some? && s.value.id == id }

  predicate SameDirectory(s: Option<Stat>, u: Stat) { SeenAs(s, u) && s.value.changed == u.changed }

  /** The open file had the covered metadata, and after that the path still led to it. */
  ghost predicate FileClosed(tl: Timeline, files: Files, lo: nat, hi: nat, path: Path, s: Stat) {
    exists u: nat, w: nat :: lo <= u <= w <= hi && files(u, s.id).meta == s.meta && HasIdentity(tl(w, path), s.id)
  }

  /** The target was read, then the link looked the same, then the target was read again. */
  ghost predicate LinkRead(tl: Timeline, lo: nat, hi: nat, path: Path, s: Stat) {
    exists t: nat, u: nat, w: nat ::
      lo <= t <= u <= w <= hi && Targets(tl(t, path), s.target) && SeenAs(tl(u, path), s)
        && Targets(tl(w, path), s.target)
  }

  /** The names were listed, then listed again, and then the directory had its first stamp. */
  ghost predicate DirectoryRead(tl: Timeline, lo: nat, hi: nat, path: Path, s: Stat, names: seq<Bytes>) {
    exists t: nat, u: nat, w: nat ::
      lo <= t <= u <= w <= hi && ListsAt(tl(t, path), names) && ListsAt(tl(u, path), names)
        && SameDirectory(tl(w, path), s)
  }

  ghost predicate HashedForest(tl: Timeline, files: Files, lo: nat, hi: nat, path: Path, f: Forest)
    decreases f
  {
    f.Nil? || (Hashed(tl, files, lo, hi, path + [f.name], f.tree) && HashedForest(tl, files, lo, hi, path, f.rest))
  }

  lemma {:induction false} HashedWiden(tl: Timeline, files: Files, lo: nat, hi: nat, lo': nat, hi': nat, path: Path,
                                       tree: Tree)
    requires Hashed(tl, files, lo, hi, path, tree) && lo' <= lo && hi <= hi'
    ensures Hashed(tl, files, lo', hi', path, tree)
    decreases tree
  {
    hide SeenAs, Targets, ListsAt, HasIdentity, SameDirectory, ByteAt;
    HashedForestWiden(tl, files, lo, hi, lo', hi', path, tree.children);
  }

  lemma {:induction false} HashedForestWiden(tl: Timeline, files: Files, lo: nat, hi: nat, lo': nat, hi': nat,
                                             path: Path, f: Forest)
    requires HashedForest(tl, files, lo, hi, path, f) && lo' <= lo && hi <= hi'
    ensures HashedForest(tl, files, lo', hi', path, f)
    decreases f
  {
    hide BodyRead, SeenAs;
    if f.Cons? {
      HashedWiden(tl, files, lo, hi, lo', hi', path + [f.name], f.tree);
      HashedForestWiden(tl, files, lo, hi, lo', hi', path, f.rest);
    }
  }

  lemma {:induction false} HashedSnoc(tl: Timeline, files: Files, lo: nat, hi: nat, path: Path, f: Forest, name: Bytes,
                                      tree: Tree)
    requires HashedForest(tl, files, lo, hi, path, f) && Hashed(tl, files, lo, hi, path + [name], tree)
    ensures HashedForest(tl, files, lo, hi, path, Snoc(f, name, tree))
  {
    hide Hashed;
    if f.Cons? { HashedSnoc(tl, files, lo, hi, path, f.rest, name, tree); }
  }

  predicate NoOther(t: Tree) { !t.stat.kind.Other? && NoOtherForest(t.children) }

  predicate NoOtherForest(f: Forest) { f.Nil? || (NoOther(f.tree) && NoOtherForest(f.rest)) }

  lemma {:induction false} NoOtherConcat(f: Forest, g: Forest)
    ensures NoOtherForest(Concat(f, g)) <==> NoOtherForest(f) && NoOtherForest(g)
  {
    hide NoOther;
    if f.Cons? { NoOtherConcat(f.rest, g); }
  }

  // ----- what a scan read of a tree that stayed the same is that tree -----

  /** `tree` is below `path` at every instant from `lo` to `hi`. */
  ghost predicate Stays(tl: Timeline, lo: nat, hi: nat, path: Path, tree: Tree) {
    forall t: nat | lo <= t <= hi :: IsTreeAt(tl, t, path, tree)
  }

  ghost predicate StaysForest(tl: Timeline, lo: nat, hi: nat, path: Path, f: Forest) {
    forall t: nat | lo <= t <= hi :: IsForestAt(tl, t, path, f)
  }

  lemma {:induction false} HashedIsThere(tl: Timeline, files: Files, lo: nat, hi: nat, path: Path, log: Tree,
                                         tree: Tree)
    requires ValidFiles(tl, files) && lo <= hi
    requires Hashed(tl, files, lo, hi, path, log) && Stays(tl, lo, hi, path, tree)
    ensures SameTree(log, tree) && NoOther(tree)
    decreases log
  {
    hide IsForestAt, HashedForest, SameForest, Names, Lists;
    assert IsTreeAt(tl, lo, path, tree);
    forall t: nat | lo <= t <= hi ensures tl(t, path) == Some(tree.stat) { assert IsTreeAt(tl, t, path, tree); }
    if log.stat.kind.File? {
      forall t: nat | lo <= t <= hi ensures files(t, tree.stat.id).content == tree.stat.content {
        assert tl(t, path).Some?;
      }
      ReadConstant(files, lo, hi, log.stat.id, log.stat.content, tree.stat.content);
    }
    if log.stat.kind.Directory? {
      assert Lists(tree.stat, Names(log.children));
      ListingUnique(tree.stat, Names(log.children), Names(tree.children));
    } else {
      assert Names(log.children) == Names(tree.children);
    }
    forall t: nat | lo <= t <= hi ensures IsForestAt(tl, t, path, tree.children) { assert IsTreeAt(tl, t, path, tree); }
    HashedForestIsThere(tl, files, lo, hi, path, log.children, tree.children);
  }

  lemma {:induction false} HashedForestIsThere(tl: Timeline, files: Files, lo: nat, hi: nat, path: Path, log: Forest,
                                               f: Forest)
    requires ValidFiles(tl, files) && lo <= hi && Names(log) == Names(f)
    requires HashedForest(tl, files, lo, hi, path, log) && StaysForest(tl, lo, hi, path, f)
    ensures SameForest(log, f) && NoOtherForest(f)
    decreases log
  {
    hide IsTreeAt, Hashed, SameTree, NoOther, ValidFiles;
    if log.Cons? {
      assert Names(log)[0] == log.name && Names(log)[1..] == Names(log.rest);
      assert f.Cons? && Names(f)[0] == f.name && Names(f)[1..] == Names(f.rest);
      forall t: nat | lo <= t <= hi
        ensures IsTreeAt(tl, t, path + [f.name], f.tree) && IsForestAt(tl, t, path, f.rest)
      {
        assert IsForestAt(tl, t, path, f);
      }
      HashedIsThere(tl, files, lo, hi, path + [f.name], log.tree, f.tree);
      HashedForestIsThere(tl, files, lo, hi, path, log.rest, f.rest);
    }
  }

  /** Trees that agree in what the digest covers have the same stream. */
  lemma {:induction false} SameTreeSameBytes(relative: Bytes, a: Tree, b: Tree)
    requires SameTree(a, b)
    ensures TreeBytes(relative, a) == TreeBytes(relative, b) && Size(a) == Size(b) && Height(a) == Height(b)
    decreases a
  {
    hide MetaBytes, Prefixed, IdentityBytes, Le64;
    SameForestSameBytes(relative, a.children, b.children);
  }

  lemma {:induction false} SameForestSameBytes(relative: Bytes, f: Forest, g: Forest)
    requires SameForest(f, g)
    ensures ForestBytes(relative, f) == ForestBytes(relative, g) && Count(f) == Count(g)
    ensures ForestSize(f) == ForestSize(g) && ForestHeight(f) == ForestHeight(g) && (f.Nil? <==> g.Nil?)
    decreases f
  {
    hide TreeBytes, SameTree, Size, Height, Join;
    if f.Cons? {
      SameTreeSameBytes(Join(relative, f.name), f.tree, g.tree);
      SameForestSameBytes(relative, f.rest, g.rest);
    }
  }
}
