/** Destination trees and the two byte streams taken of them: the content digest and the
    stability digest. Equal streams mean equal trees. */
module TreeStream {
  import opened ByteStream

  datatype Kind = File | Directory | Symlink | Other

  /** The metadata both digests cover. */
  datatype Meta = Meta(length: nat, readonly: bool, modified: Time, mode: nat) {
    predicate Valid() { length < U64 && modified.Valid() && mode < U32 }
  }

  /** One file system object at one instant; `changed` is the bit pattern of its change time. */
  datatype Stat = Stat(kind: Kind, id: Identity, meta: Meta, changed: (nat, nat), content: Bytes, target: Bytes,
                       names: set<Bytes>) {
    predicate Valid() {
      && id.Valid() && meta.Valid() && changed.0 < U64 && changed.1 < U64
      && (kind.File? ==> |content| == meta.length) && |target| < U64
    }
  }

  datatype Tree = Tree(stat: Stat, children: Forest)

  /** The children of a directory, in name order. */
  datatype Forest = Nil | Cons(name: Bytes, tree: Tree, rest: Forest)

  function Count(f: Forest): nat { if f.Nil? then 0 else 1 + Count(f.rest) }

  function Names(f: Forest): seq<Bytes> { if f.Nil? then [] else [f.name] + Names(f.rest) }

  /** Path of a child relative to the scanned root. */
  function Join(parent: Bytes, name: Bytes): Bytes {
    if parent == [] then name else parent + [47] + name
  }

  function KindTag(k: Kind): byte {
    match k
    case File => 1
    case Directory => 2
    case Symlink => 3
    case Other => 4
  }

  function MetaBytes(m: Meta): Bytes { Le64(m.length) + U8(m.readonly) + TimeBytes(m.modified) + Le32(m.mode) }

  /** Identity and covered metadata, preceded by the relative path and the kind. */
  function HeadBytes(relative: Bytes, s: Stat): Bytes {
    Prefixed(relative) + [KindTag(s.kind)] + IdentityBytes(s.id) + MetaBytes(s.meta)
  }

  // ----- the content digest -----

  /** The stream `hash_entry` feeds for `t`. */
  function TreeBytes(relative: Bytes, t: Tree): Bytes
    decreases t, 1
  {
    HeadBytes(relative, t.stat) + TreeBody(relative, t)
  }

  function TreeBody(relative: Bytes, t: Tree): Bytes
    decreases t, 0
  {
    match t.stat.kind
    case File => t.stat.content
    case Symlink => Prefixed(t.stat.target)
    case Directory => Le64(Count(t.children)) + ForestBytes(relative, t.children)
    case Other => []
  }

  function ForestBytes(relative: Bytes, f: Forest): Bytes
    decreases f
  {
    if f.Nil? then [] else TreeBytes(Join(relative, f.name), f.tree) + ForestBytes(relative, f.rest)
  }

  // ----- the stability digest -----

  function LinkBytes(s: Stat): Bytes { if s.kind.Symlink? then [1] + Prefixed(s.target) else [0] }

  function StampBytes(relative: Bytes, s: Stat): Bytes {
    HeadBytes(relative, s) + Le64(s.changed.0) + Le64(s.changed.1) + LinkBytes(s)
  }

  /** The stream `hash_tree_stability_entry` feeds for `t`. */
  function StabilityBytes(relative: Bytes, t: Tree): Bytes
    decreases t, 1
  {
    StampBytes(relative, t.stat) + StabilityBody(relative, t)
  }

  function StabilityBody(relative: Bytes, t: Tree): Bytes
    decreases t, 0
  {
    if t.stat.kind.Directory? then Le64(Count(t.children)) + StabilityForest(relative, t.children) else []
  }

  function StabilityForest(relative: Bytes, f: Forest): Bytes
    decreases f
  {
    if f.Nil? then [] else StabilityBytes(Join(relative, f.name), f.tree) + StabilityForest(relative, f.rest)
  }

  // ----- well-formed trees -----

  predicate ValidTree(relative: Bytes, t: Tree)
    decreases t
  {
    && t.stat.Valid() && |relative| < U64 && Count(t.children) < U64
    && (!t.stat.kind.Directory? ==> t.children.Nil?)
    && ValidForest(relative, t.children)
  }

  predicate ValidForest(relative: Bytes, f: Forest)
    decreases f
  {
    f.Nil? || (ValidTree(Join(relative, f.name), f.tree) && ValidForest(relative, f.rest))
  }

  // ----- what the streams determine -----

  /** Equal in everything the content digest covers. */
  predicate SameTree(a: Tree, b: Tree) {
    && a.stat.kind == b.stat.kind && a.stat.id == b.stat.id && a.stat.meta == b.stat.meta
    && (a.stat.kind.File? ==> a.stat.content == b.stat.content)
    && (a.stat.kind.Symlink? ==> a.stat.target == b.stat.target)
    && SameForest(a.children, b.children)
  }

  predicate SameForest(f: Forest, g: Forest) {
    if f.Nil? || g.Nil? then f == g
    else f.name == g.name && SameTree(f.tree, g.tree) && SameForest(f.rest, g.rest)
  }

  predicate SameStamp(s: Stat, u: Stat) {
    s.kind == u.kind && s.id == u.id && s.meta == u.meta && s.changed == u.changed
      && (s.kind.Symlink? ==> s.target == u.target)
  }

  /** Equal in everything the stability digest covers. */
  predicate SameStamps(a: Tree, b: Tree) {
    SameStamp(a.stat, b.stat) && SameStampForest(a.children, b.children)
  }

  predicate SameStampForest(f: Forest, g: Forest) {
    if f.Nil? || g.Nil? then f == g
    else f.name == g.name && SameStamps(f.tree, g.tree) && SameStampForest(f.rest, g.rest)
  }

  // ----- reading the streams back -----

  lemma JoinInjective(parent: Bytes, a: Bytes, b: Bytes)
    requires Join(parent, a) == Join(parent, b)
    ensures a == b
  {
    if parent != [] { Split(parent + [47], a, parent + [47], b); }
  }

  lemma ReadMeta(m: Meta, x: Bytes, n: Meta, y: Bytes)
    requires m.Valid() && n.Valid() && MetaBytes(m) + x == MetaBytes(n) + y
    ensures m == n && x == y
  {
    hide Le64, Le32, U8, TimeBytes;
    var mRest, nRest := TimeBytes(m.modified) + (Le32(m.mode) + x), TimeBytes(n.modified) + (Le32(n.mode) + y);
    assert MetaBytes(m) + x == Le64(m.length) + (U8(m.readonly) + mRest);
    assert MetaBytes(n) + y == Le64(n.length) + (U8(n.readonly) + nRest);
    Read64(m.length, U8(m.readonly) + mRest, n.length, U8(n.readonly) + nRest);
    ReadBool(m.readonly, mRest, n.readonly, nRest);
    ReadTime(m.modified, Le32(m.mode) + x, n.modified, Le32(n.mode) + y);
    Read32(m.mode, x, n.mode, y);
  }

  lemma ReadHead(p: Bytes, s: Stat, x: Bytes, q: Bytes, u: Stat, y: Bytes)
    requires |p| < U64 && |q| < U64 && s.Valid() && u.Valid() && HeadBytes(p, s) + x == HeadBytes(q, u) + y
    ensures p == q && s.kind == u.kind && s.id == u.id && s.meta == u.meta && x == y
  {
    hide Prefixed, IdentityBytes, MetaBytes;
    var sRest, uRest := IdentityBytes(s.id) + (MetaBytes(s.meta) + x), IdentityBytes(u.id) + (MetaBytes(u.meta) + y);
    assert HeadBytes(p, s) + x == Prefixed(p) + ([KindTag(s.kind)] + sRest);
    assert HeadBytes(q, u) + y == Prefixed(q) + ([KindTag(u.kind)] + uRest);
    ReadPrefixed(p, [KindTag(s.kind)] + sRest, q, [KindTag(u.kind)] + uRest);
    ReadByte(KindTag(s.kind), sRest, KindTag(u.kind), uRest);
    ReadIdentity(s.id, MetaBytes(s.meta) + x, u.id, MetaBytes(u.meta) + y);
    ReadMeta(s.meta, x, u.meta, y);
  }

  /** The content stream is uniquely decodable: equal streams are streams of equal trees. */
  lemma {:induction false} TreeDecodes(p: Bytes, a: Tree, x: Bytes, q: Bytes, b: Tree, y: Bytes)
    requires ValidTree(p, a) && ValidTree(q, b) && TreeBytes(p, a) + x == TreeBytes(q, b) + y
    ensures p == q && SameTree(a, b) && x == y
    decreases a
  {
    hide HeadBytes, Le64, Prefixed;
    assert TreeBytes(p, a) + x == HeadBytes(p, a.stat) + (TreeBody(p, a) + x);
    assert TreeBytes(q, b) + y == HeadBytes(q, b.stat) + (TreeBody(q, b) + y);
    ReadHead(p, a.stat, TreeBody(p, a) + x, q, b.stat, TreeBody(q, b) + y);
    match a.stat.kind
    case File => Split(a.stat.content, x, b.stat.content, y);
    case Symlink => ReadPrefixed(a.stat.target, x, b.stat.target, y);
    case Directory =>
      var u, v := ForestBytes(p, a.children) + x, ForestBytes(p, b.children) + y;
      assert TreeBody(p, a) + x == Le64(Count(a.children)) + u;
      assert TreeBody(p, b) + y == Le64(Count(b.children)) + v;
      Read64(Count(a.children), u, Count(b.children), v);
      ForestDecodes(p, a.children, x, b.children, y);
    case Other => assert [] + x == x && [] + y == y;
  }

  lemma {:induction false} ForestDecodes(p: Bytes, f: Forest, x: Bytes, g: Forest, y: Bytes)
    requires Count(f) == Count(g) && ValidForest(p, f) && ValidForest(p, g)
    requires ForestBytes(p, f) + x == ForestBytes(p, g) + y
    ensures SameForest(f, g) && x == y
    decreases f
  {
    hide ValidTree, TreeBytes, SameTree, Join;
    if f.Nil? {
      assert [] + x == x && [] + y == y;
    } else {
      var u, v := ForestBytes(p, f.rest) + x, ForestBytes(p, g.rest) + y;
      Reassociate(TreeBytes(Join(p, f.name), f.tree), ForestBytes(p, f.rest), x);
      Reassociate(TreeBytes(Join(p, g.name), g.tree), ForestBytes(p, g.rest), y);
      TreeDecodes(Join(p, f.name), f.tree, u, Join(p, g.name), g.tree, v);
      JoinInjective(p, f.name, g.name);
      ForestDecodes(p, f.rest, x, g.rest, y);
    }
  }

  lemma ReadStamp(p: Bytes, s: Stat, x: Bytes, q: Bytes, u: Stat, y: Bytes)
    requires |p| < U64 && |q| < U64 && s.Valid() && u.Valid() && StampBytes(p, s) + x == StampBytes(q, u) + y
    ensures p == q && SameStamp(s, u) && x == y
  {
    hide HeadBytes, Le64, LinkBytes;
    var sRest, uRest := Le64(s.changed.1) + (LinkBytes(s) + x), Le64(u.changed.1) + (LinkBytes(u) + y);
    assert StampBytes(p, s) + x == HeadBytes(p, s) + (Le64(s.changed.0) + sRest);
    assert StampBytes(q, u) + y == HeadBytes(q, u) + (Le64(u.changed.0) + uRest);
    ReadHead(p, s, Le64(s.changed.0) + sRest, q, u, Le64(u.changed.0) + uRest);
    Read64(s.changed.0, sRest, u.changed.0, uRest);
    Read64(s.changed.1, LinkBytes(s) + x, u.changed.1, LinkBytes(u) + y);
    ReadLink(s, x, u, y);
  }

  lemma ReadLink(s: Stat, x: Bytes, u: Stat, y: Bytes)
    requires s.Valid() && u.Valid() && s.kind == u.kind && LinkBytes(s) + x == LinkBytes(u) + y
    ensures (s.kind.Symlink? ==> s.target == u.target) && x == y
  {
    hide Prefixed;
    if s.kind.Symlink? {
      assert LinkBytes(s) + x == [1] + (Prefixed(s.target) + x);
      assert LinkBytes(u) + y == [1] + (Prefixed(u.target) + y);
      ReadByte(1, Prefixed(s.target) + x, 1, Prefixed(u.target) + y);
      ReadPrefixed(s.target, x, u.target, y);
    } else {
      ReadByte(0, x, 0, y);
    }
  }

  /** The stability stream is uniquely decodable too. */
  lemma {:induction false} StabilityDecodes(p: Bytes, a: Tree, x: Bytes, q: Bytes, b: Tree, y: Bytes)
    requires ValidTree(p, a) && ValidTree(q, b) && StabilityBytes(p, a) + x == StabilityBytes(q, b) + y
    ensures p == q && SameStamps(a, b) && x == y
    decreases a
  {
    hide StampBytes, Le64, SameStamp;
    assert StabilityBytes(p, a) + x == StampBytes(p, a.stat) + (StabilityBody(p, a) + x);
    assert StabilityBytes(q, b) + y == StampBytes(q, b.stat) + (StabilityBody(q, b) + y);
    ReadStamp(p, a.stat, StabilityBody(p, a) + x, q, b.stat, StabilityBody(q, b) + y);
    SameStampKind(a.stat, b.stat);
    if a.stat.kind.Directory? {
      var u, v := StabilityForest(p, a.children) + x, StabilityForest(p, b.children) + y;
      assert StabilityBody(p, a) + x == Le64(Count(a.children)) + u;
      assert StabilityBody(p, b) + y == Le64(Count(b.children)) + v;
      Read64(Count(a.children), u, Count(b.children), v);
      StabilityForestDecodes(p, a.children, x, b.children, y);
    } else {
      assert [] + x == x && [] + y == y;
    }
  }

  lemma SameStampKind(s: Stat, u: Stat)
    requires SameStamp(s, u)
    ensures s.kind == u.kind
  {
  }

  lemma {:induction false} StabilityForestDecodes(p: Bytes, f: Forest, x: Bytes, g: Forest, y: Bytes)
    requires Count(f) == Count(g) && ValidForest(p, f) && ValidForest(p, g)
    requires StabilityForest(p, f) + x == StabilityForest(p, g) + y
    ensures SameStampForest(f, g) && x == y
    decreases f
  {
    hide ValidTree, StabilityBytes, SameStamps, Join;
    if f.Nil? {
      assert [] + x == x && [] + y == y;
    } else {
      var u, v := StabilityForest(p, f.rest) + x, StabilityForest(p, g.rest) + y;
      Reassociate(StabilityBytes(Join(p, f.name), f.tree), StabilityForest(p, f.rest), x);
      Reassociate(StabilityBytes(Join(p, g.name), g.tree), StabilityForest(p, g.rest), y);
      StabilityDecodes(Join(p, f.name), f.tree, u, Join(p, g.name), g.tree, v);
      JoinInjective(p, f.name, g.name);
      StabilityForestDecodes(p, f.rest, x, g.rest, y);
    }
  }
}
