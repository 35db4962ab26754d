/** The budgeted directory cache of the extraction preflight, and its agreement with
    direct lookups. */
module DestinationSnapshot {
  import opened Options
  import opened AsciiText

  /** A file name: valid text, or bytes that are not valid text. */
  datatype Name = Text(chars: string) | Opaque(bytes: seq<nat>)

  /** Components below the extraction destination. */
  type Path = seq<Name>

  datatype Node = Directory | Missing | Symlink | NonDirectory
  datatype Error = NotADirectory | SymlinkBreakout | Unreadable | UnsafePath
  datatype Result<+T> = Ok(value: T) | Err(error: Error)
  /** One item of a directory listing. */
  datatype Listed = Listed(name: Name, node: Node)

  /** An unchanging destination: single lookups, listings (whole listings and single items
      may fail) and the verdict on descending through a symbolic link. */
  datatype FileSystem = FileSystem(
    inspect: Path -> Result<Node>,
    list: Path -> Option<seq<Option<Listed>>>,
    descend: Path -> Option<Error>)

  datatype Target = DirectoryTarget | NonDirectoryTarget
  datatype Observation = Observation(conflicts: bool, finalNode: Node)

  // ----- names -----

  predicate AsciiChar(c: char) { c < 128 as char }

  predicate IsAscii(n: Name) {
    n.Text? && forall i | 0 <= i < |n.chars| :: AsciiChar(n.chars[i])
  }

  function NameBytes(n: Name): nat {
    match n
    case Text(chars) => ByteLength(chars)
    case Opaque(bytes) => |bytes|
  }

  /** Short names and names with a tilde may be 8.3 alternates of a sibling. */
  predicate MayBeNativeAlias(n: Name) {
    NameBytes(n) <= 12 || (if n.Text? then '~' in n.chars else '~' as int in n.bytes)
  }

  predicate Unfolded(c: char) {
    var u := c as int;
    || 0x3400 <= u <= 0x4dbf || 0x4e00 <= u <= 0x9fff || 0x20000 <= u <= 0x2a6df
    || 0x2a700 <= u <= 0x2b73f || 0x2b740 <= u <= 0x2b81f || 0x2b820 <= u <= 0x2ceaf
    || 0x2ceb0 <= u <= 0x2ebef || 0x2ebf0 <= u <= 0x2ee5f || 0x30000 <= u <= 0x3134f
    || 0x31350 <= u <= 0x323af
  }

  /** No file system folds the name to an ASCII one. */
  predicate DisjointFromAscii(n: Name) {
    n.Text? && forall i | 0 <= i < |n.chars| :: AsciiChar(n.chars[i]) || Unfolded(n.chars[i])
  }

  // ----- what is assumed of the file system -----

  /** The pairs of distinct names a file system may treat as one: looked-up name `n`,
      directory entry `sibling`. */
  predicate MayAlias(n: Name, sibling: Name) {
    || (IsAscii(n) && IsAscii(sibling) && LowerAll(n.chars) == LowerAll(sibling.chars))
    || !IsAscii(n) || MayBeNativeAlias(n)
    || !(IsAscii(sibling) || DisjointFromAscii(sibling))
  }

  predicate AllRead(items: seq<Option<Listed>>) {
    forall i | 0 <= i < |items| :: items[i].Some?
  }

  /** A normal path component: neither empty nor one of the two dot names, and without a separator. */
  predicate Proper(n: Name) {
    match n
    case Text(chars) => chars != "" && chars != "." && chars != ".." && '/' !in chars
    case Opaque(bytes) => bytes != []
  }

  predicate ProperPath(p: Path) { forall i | 0 <= i < |p| :: Proper(p[i]) }

  /** A complete listing of `d` agrees with single lookups: listed names show the listed type,
      and a name that no listed name may alias is missing. */
  ghost predicate CoherentAt(fs: FileSystem, d: Path, items: seq<Option<Listed>>)
    requires AllRead(items)
  {
    && (forall i | 0 <= i < |items| :: fs.inspect(d + [items[i].value.name]) == Ok(items[i].value.node))
    && (forall n: Name | Proper(n) && !MayBeListed(n, items) :: fs.inspect(d + [n]) == Ok(Missing))
  }

  /** The name is listed, or may be another name of something listed. */
  predicate MayBeListed(n: Name, items: seq<Option<Listed>>)
    requires AllRead(items)
  {
    exists i | 0 <= i < |items| :: items[i].value.name == n || MayAlias(n, items[i].value.name)
  }

  ghost predicate Coherent(fs: FileSystem) {
    forall d: Path | fs.list(d).Some? && AllRead(fs.list(d).value) :: CoherentAt(fs, d, fs.list(d).value)
  }

  /** The same component-by-component walk over direct lookups. */
  function Walk(fs: FileSystem, target: Path, kind: Target, k: nat): Result<Observation>
    requires k <= |target|
    decreases |target| - k
  {
    if k == |target| then Ok(Observation(false, Missing))
    else
      var current := target[..k + 1];
      var last := k + 1 == |target|;
      match fs.inspect(current)
      case Err(e) => Err(e)
      case Ok(Missing) => Ok(Observation(false, Missing))
      case Ok(Directory) => if last then Ok(Observation(kind != DirectoryTarget, Directory))
        else Walk(fs, target, kind, k + 1)
      case Ok(node) =>
        if last then
          if kind == DirectoryTarget then Err(NotADirectory) else Ok(Observation(true, node))
        else if node.NonDirectory? then Err(NotADirectory)
        else
          match fs.descend(current)
          case Some(e) => Err(e)
          case None => Walk(fs, target, kind, k + 1)
  }

  /** How a walk goes on once it knows its `k`-th component. */
  function WalkOn(fs: FileSystem, target: Path, kind: Target, k: nat, node: Result<Node>): Result<Observation>
    requires k < |target|
  {
    if k + 1 == |target| then Observed(node, kind)
    else
      match node
      case Err(e) => Err(e)
      case Ok(Missing) => Ok(Observation(false, Missing))
      case Ok(NonDirectory) => Err(NotADirectory)
      case Ok(Symlink) =>
        if fs.descend(target[..k + 1]).Some? then Err(fs.descend(target[..k + 1]).value)
        else Walk(fs, target, kind, k + 1)
      case Ok(Directory) => Walk(fs, target, kind, k + 1)
  }

  lemma WalkStep(fs: FileSystem, target: Path, kind: Target, k: nat)
    requires k < |target|
    ensures Walk(fs, target, kind, k) == WalkOn(fs, target, kind, k, fs.inspect(target[..k + 1]))
  {
  }

  lemma WalkEnds(fs: FileSystem, target: Path, kind: Target)
    ensures Walk(fs, target, kind, |target|) == Ok(Observation(false, Missing))
  {
  }

  /** What a target shows that is the last component. */
  function Observed(node: Result<Node>, kind: Target): Result<Observation> {
    match node
    case Err(e) => Err(e)
    case Ok(Missing) => Ok(Observation(false, Missing))
    case Ok(Directory) => Ok(Observation(kind != DirectoryTarget, Directory))
    case Ok(other) => if kind == DirectoryTarget then Err(NotADirectory) else Ok(Observation(true, other))
  }

  // ----- the cache -----

  datatype DirectoryState = Complete | CompleteAscii | CompleteUnicodeDisjointAscii | CompleteEmpty | PointLookup

  datatype Budget = Budget(directoryEntries: nat, enumeratedEntries: nat, cachedNodes: nat,
                           cachedPathBytes: nat, directoryStates: nat)

  const DEFAULT_BUDGET := Budget(4_096, 32_768, 32_768, 8 * 1024 * 1024, 8_192)

  function PathBytes(base: nat, p: Path): nat {
    if p == [] then base else PathBytes(base, p[..|p| - 1]) + 1 + NameBytes(p[|p| - 1])
  }

  function Parent(p: Path): Path
    requires p != []
  {
    p[..|p| - 1]
  }

  function Last(p: Path): Name
    requires p != []
  {
    p[|p| - 1]
  }

  ghost function SumBytes(base: nat, ps: set<Path>): nat {
    if ps == {} then 0 else var p :| p in ps; PathBytes(base, p) + SumBytes(base, ps - {p})
  }

  lemma {:induction false} SumInsert(base: nat, ps: set<Path>, p: Path)
    requires p !in ps
    ensures SumBytes(base, ps + {p}) == SumBytes(base, ps) + PathBytes(base, p)
  {
    var all := ps + {p};
    var q :| q in all && SumBytes(base, all) == PathBytes(base, q) + SumBytes(base, all - {q});
    if q == p {
      assert all - {q} == ps;
    } else {
      SumInsert(base, ps - {q}, p);
      assert all - {q} == (ps - {q}) + {p};
      assert ps == (ps - {q}) + {q};
      SumInsert(base, ps - {q}, q);
    }
  }

  lemma {:induction false} SumUnion(base: nat, ps: set<Path>, qs: set<Path>)
    requires ps !! qs
    ensures SumBytes(base, ps + qs) == SumBytes(base, ps) + SumBytes(base, qs)
  {
    if qs == {} {
      assert ps + qs == ps;
    } else {
      var q :| q in qs;
      SumUnion(base, ps, qs - {q});
      SumInsert(base, ps + (qs - {q}), q);
      SumInsert(base, qs - {q}, q);
      assert ps + qs == (ps + (qs - {q})) + {q};
      assert qs == (qs - {q}) + {q};
    }
  }

  predicate NamesAscii(items: seq<Option<Listed>>, k: nat)
    requires k <= |items| && forall i | 0 <= i < k :: items[i].Some?
  {
    forall i | 0 <= i < k :: IsAscii(items[i].value.name)
  }

  predicate NamesSafe(items: seq<Option<Listed>>, k: nat)
    requires k <= |items| && forall i | 0 <= i < k :: items[i].Some?
  {
    forall i | 0 <= i < k :: IsAscii(items[i].value.name) || DisjointFromAscii(items[i].value.name)
  }

  function CaseHash(hash: (Path, string) -> nat, p: Path): Option<nat> {
    if p != [] && IsAscii(Last(p)) then Some(hash(Parent(p), LowerAll(Last(p).chars))) else None
  }

  /** What a recorded state promises about the directory's listing. */
  ghost predicate StateHolds(fs: FileSystem, hash: (Path, string) -> nat, cached: set<Path>, aliases: set<nat>, d: Path,
                             state: DirectoryState)
  {
    state != PointLookup ==>
      && fs.list(d).Some? && AllRead(fs.list(d).value)
      && var items := fs.list(d).value;
         && (forall i | 0 <= i < |items| ::
               && d + [items[i].value.name] in cached
               && (IsAscii(items[i].value.name) ==> CaseHash(hash, d + [items[i].value.name]).value in aliases))
         && (state == CompleteEmpty ==> items == [])
         && (state == CompleteAscii ==> NamesAscii(items, |items|))
         && (state == CompleteUnicodeDisjointAscii ==> NamesSafe(items, |items|))
  }

  ghost predicate StatesHold(fs: FileSystem, hash: (Path, string) -> nat, cached: set<Path>, aliases: set<nat>,
                             directories: map<Path, DirectoryState>)
  {
    forall d | d in directories :: StateHolds(fs, hash, cached, aliases, d, directories[d])
  }

  lemma PointLookupHolds(fs: FileSystem, hash: (Path, string) -> nat, cached: set<Path>, aliases: set<nat>, d: Path)
    ensures StateHolds(fs, hash, cached, aliases, d, PointLookup)
  {
  }

  lemma StatesMono(fs: FileSystem, hash: (Path, string) -> nat, cached: set<Path>, cached': set<Path>,
                   aliases: set<nat>, aliases': set<nat>, directories: map<Path, DirectoryState>)
    requires StatesHold(fs, hash, cached, aliases, directories)
    requires cached <= cached' && aliases <= aliases'
    ensures StatesHold(fs, hash, cached', aliases', directories)
  {
  }

  /** The nodes and alias hashes of the first `i` listed items. */
  function Children(d: Path, items: seq<Option<Listed>>, i: nat): map<Path, Node>
    requires i <= |items| && forall k | 0 <= k < i :: items[k].Some?
  {
    if i == 0 then map[] else Children(d, items, i - 1)[d + [items[i - 1].value.name] := items[i - 1].value.node]
  }

  function ChildHashes(hash: (Path, string) -> nat, d: Path, items: seq<Option<Listed>>, i: nat): set<nat>
    requires i <= |items| && forall k | 0 <= k < i :: items[k].Some?
  {
    if i == 0 then {}
    else
      var h := CaseHash(hash, d + [items[i - 1].value.name]);
      ChildHashes(hash, d, items, i - 1) + if h.Some? then {h.value} else {}
  }

  /** What the enumeration of `d` has collected from the first `i` listed items. */
  ghost predicate Collected(hash: (Path, string) -> nat, d: Path, items: seq<Option<Listed>>, i: nat,
                            local: map<Path, Node>, aliases: set<nat>)
    requires i <= |items|
  {
    && (forall k | 0 <= k < i :: items[k].Some?)
    && (forall k | 0 <= k < i ::
          var p := d + [items[k].value.name];
          p in local && (IsAscii(items[k].value.name) ==> CaseHash(hash, p).value in aliases))
    && (forall p | p in local ::
        exists k :: 0 <= k < i && p == d + [items[k].value.name] && local[p] == items[k].value.node)
  }

  lemma CollectOne(hash: (Path, string) -> nat, d: Path, items: seq<Option<Listed>>, i: nat, local: map<Path, Node>,
                   aliases: set<nat>)
    requires i < |items| && items[i].Some? && Collected(hash, d, items, i, local, aliases)
    ensures var p := d + [items[i].value.name];
            var aliases' := if CaseHash(hash, p).Some? then aliases + {CaseHash(hash, p).value} else aliases;
            Collected(hash, d, items, i + 1, local[p := items[i].value.node], aliases')
  {
    var p := d + [items[i].value.name];
    var local' := local[p := items[i].value.node];
    forall q | q in local'
      ensures exists k :: 0 <= k < i + 1 && q == d + [items[k].value.name] && local'[q] == items[k].value.node
    {
      if q == p { assert q == d + [items[i].value.name]; }
    }
  }

  /** Everything collected from a coherent listing is the truth, and lies below `d`. */
  lemma CollectedIsTrue(fs: FileSystem, hash: (Path, string) -> nat, d: Path, local: map<Path, Node>, aliases: set<nat>)
    requires fs.list(d).Some? && Collected(hash, d, fs.list(d).value, |fs.list(d).value|, local, aliases)
    ensures Coherent(fs) ==> forall p | p in local :: fs.inspect(p) == Ok(local[p])
    ensures forall p | p in local :: p != [] && Parent(p) == d
  {
    assert AllRead(fs.list(d).value);
  }

  // ----- the invariant, on values -----

  /** What never changes during a preflight. `hash` may collide at will. */
  datatype Config = Config(fs: FileSystem, hash: (Path, string) -> nat, base: nat, budget: Budget)

  datatype Cache = Cache(nodes: map<Path, Node>, asciiCaseAliases: set<nat>, directories: map<Path, DirectoryState>,
                         enumeratedEntries: nat, cachedPathBytes: nat)

  const FRESH: Cache := Cache(map[], {}, map[], 0, 0)

  /** All budgets hold and the byte counter is the total length of the cached keys. */
  ghost predicate WithinBudget(cfg: Config, c: Cache) {
    && c.enumeratedEntries <= cfg.budget.enumeratedEntries
    && |c.nodes| <= cfg.budget.cachedNodes
    && |c.directories| <= cfg.budget.directoryStates
    && c.cachedPathBytes <= cfg.budget.cachedPathBytes
    && c.cachedPathBytes == SumBytes(cfg.base, c.nodes.Keys) + SumBytes(cfg.base, c.directories.Keys)
  }

  /** No state can be recorded for `d` any more. */
  predicate Refused(cfg: Config, c: Cache, d: Path) {
    |c.directories| >= cfg.budget.directoryStates
    || c.cachedPathBytes + PathBytes(cfg.base, d) > cfg.budget.cachedPathBytes
  }

  /** A directory that may still be enumerated has no cached children. */
  ghost predicate Accounted(cfg: Config, c: Cache) {
    forall p | p in c.nodes :: p != [] && (Parent(p) in c.directories || Refused(cfg, c, Parent(p)))
  }

  ghost predicate NodesTrue(cfg: Config, nodes: map<Path, Node>) {
    Coherent(cfg.fs) ==> forall p | p in nodes :: cfg.fs.inspect(p) == Ok(nodes[p])
  }

  ghost predicate ValidCache(cfg: Config, c: Cache) {
    && WithinBudget(cfg, c)
    && Accounted(cfg, c)
    && StatesHold(cfg.fs, cfg.hash, c.nodes.Keys, c.asciiCaseAliases, c.directories)
    && NodesTrue(cfg, c.nodes)
  }

  /** Refusals are final: later states have more directories and more bytes. */
  lemma AccountedGrows(cfg: Config, c: Cache, c': Cache)
    requires Accounted(cfg, c) && c.directories.Keys <= c'.directories.Keys
    requires |c.directories| <= |c'.directories| && c.cachedPathBytes <= c'.cachedPathBytes
    requires forall p | p in c'.nodes :: p in c.nodes || (p != [] && Parent(p) in c'.directories)
    ensures Accounted(cfg, c')
  {
    hide PathBytes, Parent;
  }

  lemma RecordKeeps(cfg: Config, c: Cache, d: Path)
    requires ValidCache(cfg, c) && d !in c.directories && !Refused(cfg, c, d)
    ensures ValidCache(cfg, c.(directories := c.directories[d := PointLookup],
                               cachedPathBytes := c.cachedPathBytes + PathBytes(cfg.base, d)))
  {
    hide StateHolds, StatesHold, SumBytes, PathBytes, NodesTrue, Parent, Accounted;
    PointLookupHolds(cfg.fs, cfg.hash, c.nodes.Keys, c.asciiCaseAliases, d);
    StatesAdd(cfg.fs, cfg.hash, c.nodes.Keys, c.asciiCaseAliases, c.directories, d, PointLookup);
    SumInsert(cfg.base, c.directories.Keys, d);
    assert c.directories[d := PointLookup].Keys == c.directories.Keys + {d};
    AccountedGrows(cfg, c, c.(directories := c.directories[d := PointLookup],
                              cachedPathBytes := c.cachedPathBytes + PathBytes(cfg.base, d)));
  }

  lemma InsertKeeps(cfg: Config, c: Cache, p: Path, node: Node)
    requires ValidCache(cfg, c) && p != [] && p !in c.nodes && cfg.fs.inspect(p) == Ok(node)
    requires Parent(p) in c.directories || Refused(cfg, c, Parent(p))
    requires |c.nodes| < cfg.budget.cachedNodes
             && c.cachedPathBytes + PathBytes(cfg.base, p) <= cfg.budget.cachedPathBytes
    ensures ValidCache(cfg,
                       c.(nodes := c.nodes[p := node], cachedPathBytes := c.cachedPathBytes + PathBytes(cfg.base, p)))
  {
    hide StateHolds, StatesHold, SumBytes, PathBytes, Parent, Coherent;
    SumInsert(cfg.base, c.nodes.Keys, p);
    assert c.nodes[p := node].Keys == c.nodes.Keys + {p};
    StatesMono(cfg.fs, cfg.hash, c.nodes.Keys, c.nodes.Keys + {p}, c.asciiCaseAliases, c.asciiCaseAliases,
               c.directories);
  }

  lemma UpdateKeeps(cfg: Config, c: Cache, p: Path, node: Node)
    requires ValidCache(cfg, c) && p in c.nodes && cfg.fs.inspect(p) == Ok(node)
    ensures ValidCache(cfg, c.(nodes := c.nodes[p := node]))
  {
    hide StateHolds, StatesHold, SumBytes, PathBytes, Parent, Coherent;
    assert c.nodes[p := node].Keys == c.nodes.Keys;
  }

  function Adopted(cfg: Config, c: Cache, d: Path, local: map<Path, Node>, aliases: set<nat>, localBytes: nat,
                   state: DirectoryState): Cache
  {
    c.(nodes := c.nodes + local, asciiCaseAliases := c.asciiCaseAliases + aliases,
       directories := c.directories[d := state],
       cachedPathBytes := c.cachedPathBytes + PathBytes(cfg.base, d) + localBytes)
  }

  predicate FitsState(items: seq<Option<Listed>>, state: DirectoryState)
    requires AllRead(items)
  {
    && (state == CompleteEmpty ==> items == [])
    && (state == CompleteAscii ==> NamesAscii(items, |items|))
    && (state == CompleteUnicodeDisjointAscii ==> NamesSafe(items, |items|))
  }

  /** What an enumeration must have established before its result may enter the cache. */
  ghost predicate Adoptable(cfg: Config, c: Cache, d: Path, items: seq<Option<Listed>>, local: map<Path, Node>,
                            aliases: set<nat>, localBytes: nat, state: DirectoryState)
  {
    && d !in c.directories && !Refused(cfg, c, d)
    && cfg.fs.list(d) == Some(items) && AllRead(items) && FitsState(items, state)
    && Collected(cfg.hash, d, items, |items|, local, aliases)
    && localBytes == SumBytes(cfg.base, local.Keys) && |c.nodes| + |local| <= cfg.budget.cachedNodes
    && c.cachedPathBytes + PathBytes(cfg.base, d) + localBytes <= cfg.budget.cachedPathBytes
  }

  lemma AdoptTruth(cfg: Config, nodes: map<Path, Node>, d: Path, local: map<Path, Node>, aliases: set<nat>)
    requires NodesTrue(cfg, nodes) && cfg.fs.list(d).Some?
    requires Collected(cfg.hash, d, cfg.fs.list(d).value, |cfg.fs.list(d).value|, local, aliases)
    ensures NodesTrue(cfg, nodes + local)
  {
    hide Coherent, Collected, Parent;
    CollectedIsTrue(cfg.fs, cfg.hash, d, local, aliases);
  }

  lemma AdoptCounts(cfg: Config, c: Cache, d: Path, items: seq<Option<Listed>>, local: map<Path, Node>,
                    aliases: set<nat>, localBytes: nat, state: DirectoryState)
    requires WithinBudget(cfg, c) && Accounted(cfg, c) && Adoptable(cfg, c, d, items, local, aliases, localBytes, state)
    ensures var c' := Adopted(cfg, c, d, local, aliases, localBytes, state); WithinBudget(cfg, c') && Accounted(cfg, c')
    ensures (c.nodes + local).Keys == c.nodes.Keys + local.Keys
  {
    hide SumBytes, PathBytes, Coherent, Collected, FitsState, AllRead, Parent;
    NewChildren(cfg, c, d, items, local, aliases);
    hide Accounted;
    AdoptedBytes(cfg.base, c.nodes, local, c.directories, d, state);
    AccountedGrows(cfg, c, Adopted(cfg, c, d, local, aliases, localBytes, state));
  }

  /** None of the enumerated children was cached before. */
  lemma NewChildren(cfg: Config, c: Cache, d: Path, items: seq<Option<Listed>>, local: map<Path, Node>,
                    aliases: set<nat>)
    requires Accounted(cfg, c) && d !in c.directories && !Refused(cfg, c, d)
    requires cfg.fs.list(d) == Some(items) && Collected(cfg.hash, d, items, |items|, local, aliases)
    ensures c.nodes.Keys !! local.Keys
    ensures forall p | p in local :: p != [] && Parent(p) == d
  {
    hide Coherent, PathBytes;
    CollectedIsTrue(cfg.fs, cfg.hash, d, local, aliases);
  }

  /** A complete enumeration enters the cache as a whole. */
  lemma AdoptKeeps(cfg: Config, c: Cache, d: Path, items: seq<Option<Listed>>, local: map<Path, Node>,
                   aliases: set<nat>, localBytes: nat, state: DirectoryState)
    requires ValidCache(cfg, c) && Adoptable(cfg, c, d, items, local, aliases, localBytes, state)
    ensures ValidCache(cfg, Adopted(cfg, c, d, local, aliases, localBytes, state))
  {
    hide StateHolds, StatesHold, SumBytes, PathBytes, Coherent, Collected, FitsState, AllRead, WithinBudget, Accounted,
         Refused, NodesTrue, Parent;
    AdoptCounts(cfg, c, d, items, local, aliases, localBytes, state);
    AdoptTruth(cfg, c.nodes, d, local, aliases);
    AdoptedState(cfg.fs, cfg.hash, d, items, local, aliases, c.nodes.Keys, c.asciiCaseAliases, state);
    StatesMono(cfg.fs, cfg.hash, c.nodes.Keys, c.nodes.Keys + local.Keys,
               c.asciiCaseAliases, c.asciiCaseAliases + aliases, c.directories);
    StatesAdd(cfg.fs, cfg.hash, c.nodes.Keys + local.Keys, c.asciiCaseAliases + aliases, c.directories, d, state);
  }

  /** The enumeration's local variables. */
  datatype Gathered = Gathered(local: map<Path, Node>, aliases: set<nat>, allNamesAscii: bool,
                               unicodeNamesAreDisjoint: bool, localBytes: nat)

  ghost predicate Gathering(cfg: Config, c: Cache, d: Path, items: seq<Option<Listed>>, i: nat, g: Gathered)
    requires i <= |items|
  {
    && Collected(cfg.hash, d, items, i, g.local, g.aliases)
    && (forall k | 0 <= k < i :: items[k].Some?)
    && g.local == Children(d, items, i) && g.aliases == ChildHashes(cfg.hash, d, items, i)
    && g.allNamesAscii == NamesAscii(items, i) && g.unicodeNamesAreDisjoint == NamesSafe(items, i)
    && g.localBytes == SumBytes(cfg.base, g.local.Keys) && (i > 0 ==> g.local != map[])
    && c.cachedPathBytes + PathBytes(cfg.base, d) + g.localBytes <= cfg.budget.cachedPathBytes
    && |c.nodes| + |g.local| <= cfg.budget.cachedNodes
  }

  lemma StartGathering(cfg: Config, c: Cache, d: Path, items: seq<Option<Listed>>)
    requires ValidCache(cfg, c) && !Refused(cfg, c, d)
    ensures Gathering(cfg, c, d, items, 0, Gathered(map[], {}, true, true, 0))
  {
    hide StatesHold, NodesTrue, Accounted;
    StartCollection(cfg.hash, cfg.base, d, items);
    var none: map<Path, Node> := map[];
    assert none.Keys == {};
  }

  // ----- what a cache answers -----

  /** The absence of a name follows from the recorded state of its directory. */
  predicate Infers(cfg: Config, c: Cache, p: Path)
    requires p != [] && Parent(p) in c.directories
  {
    var state := c.directories[Parent(p)];
    || state == CompleteEmpty
    || ((state == CompleteAscii || state == CompleteUnicodeDisjointAscii)
        && CaseHash(cfg.hash, p).Some? && CaseHash(cfg.hash, p).value !in c.asciiCaseAliases
        && !MayBeNativeAlias(Last(p)))
  }

  /** The answer that needs no lookup. */
  function Answer(cfg: Config, c: Cache, p: Path): Option<Node>
    requires p != []
  {
    if p in c.nodes then Some(c.nodes[p])
    else if Parent(p) in c.directories && Infers(cfg, c, p) then Some(Missing)
    else None
  }

  function AnswerOr(cfg: Config, c: Cache, p: Path): Result<Node>
    requires p != []
  {
    if Answer(cfg, c, p).Some? then Ok(Answer(cfg, c, p).value) else cfg.fs.inspect(p)
  }

  /** The cache with one node more, or with that node updated. */
  function WithNode(cfg: Config, c: Cache, p: Path, node: Node): Cache {
    if p in c.nodes then c.(nodes := c.nodes[p := node])
    else c.(nodes := c.nodes[p := node], cachedPathBytes := c.cachedPathBytes + PathBytes(cfg.base, p))
  }

  predicate NamesDistinct(items: seq<Option<Listed>>) {
    forall i, j | 0 <= i < j < |items| && items[i].Some? && items[j].Some? :: items[i].value.name != items[j].value.name
  }

  function Classified(items: seq<Option<Listed>>): DirectoryState
    requires AllRead(items)
  {
    if items == [] then CompleteEmpty
    else if NamesAscii(items, |items|) then CompleteAscii
    else if NamesSafe(items, |items|) then CompleteUnicodeDisjointAscii
    else Complete
  }

  /** Every item of the listing is readable and every budget suffices for all of them. */
  ghost predicate Roomy(cfg: Config, c: Cache, d: Path, items: seq<Option<Listed>>) {
    && AllRead(items) && !Refused(cfg, c, d)
    && c.enumeratedEntries + |items| < cfg.budget.enumeratedEntries
    && |items| <= cfg.budget.directoryEntries
    && |c.nodes| + |items| <= cfg.budget.cachedNodes
    && c.cachedPathBytes + PathBytes(cfg.base, d) + SumBytes(cfg.base, Children(d, items, |items|).Keys)
       <= cfg.budget.cachedPathBytes
  }

  /** The cache after a whole listing has entered it. */
  ghost function Loaded(cfg: Config, c: Cache, d: Path, items: seq<Option<Listed>>): Cache
    requires AllRead(items)
  {
    var children := Children(d, items, |items|);
    Adopted(cfg, c.(enumeratedEntries := c.enumeratedEntries + |items|), d, children,
            ChildHashes(cfg.hash, d, items, |items|), SumBytes(cfg.base, children.Keys), Classified(items))
  }

  /** The cache after one enumeration of `d`: the whole listing entered, or nothing but the
      refusal to enumerate again. It enters exactly when there is room for it. */
  ghost predicate Enumerated(cfg: Config, c: Cache, d: Path, items: seq<Option<Listed>>, c': Cache) {
    && d in c'.directories
    && (if c'.directories[d] == PointLookup
        then c'.nodes == c.nodes && c'.asciiCaseAliases == c.asciiCaseAliases
             && c'.directories == c.directories[d := PointLookup]
             && c'.enumeratedEntries <= c.enumeratedEntries + |items|
             && c'.cachedPathBytes == c.cachedPathBytes + PathBytes(cfg.base, d)
        else AllRead(items) && c' == Loaded(cfg, c, d, items))
    && (NamesDistinct(items) ==> (c'.directories[d] != PointLookup <==> Roomy(cfg, c, d, items)))
  }

  /** The cache after the state of `d` was asked for. */
  ghost predicate LookedInto(cfg: Config, c: Cache, d: Path, c': Cache) {
    if d in c.directories || Refused(cfg, c, d) then c' == c
    else if cfg.fs.list(d).None? then
      c' == c.(directories := c.directories[d := PointLookup],
               cachedPathBytes := c.cachedPathBytes + PathBytes(cfg.base, d))
    else Enumerated(cfg, c, d, cfg.fs.list(d).value, c')
  }

  lemma {:induction false} ChildrenCount(d: Path, items: seq<Option<Listed>>, i: nat)
    requires i <= |items| && (forall k | 0 <= k < i :: items[k].Some?) && NamesDistinct(items)
    ensures |Children(d, items, i)| == i
    ensures forall n: Name :: d + [n] in Children(d, items, i) <==> exists k :: 0 <= k < i && items[k].value.name == n
    ensures forall k | 0 <= k < i :: Children(d, items, i)[d + [items[k].value.name]] == items[k].value.node
  {
    if i > 0 {
      ChildrenCount(d, items, i - 1);
      var before, name := Children(d, items, i - 1), items[i - 1].value.name;
      SameChild(d, name);
      assert d + [name] !in before;
      assert Children(d, items, i).Keys == before.Keys + {d + [name]};
    }
  }

  lemma ChildrenStep(hash: (Path, string) -> nat, d: Path, items: seq<Option<Listed>>, i: nat)
    requires i < |items| && forall k | 0 <= k <= i :: items[k].Some?
    ensures var p := d + [items[i].value.name];
            var h := CaseHash(hash, p);
            && Children(d, items, i + 1) == Children(d, items, i)[p := items[i].value.node]
            && ChildHashes(hash, d, items, i + 1) == if h.Some? then ChildHashes(hash, d, items, i) + {h.value}
              else ChildHashes(hash, d, items, i)
  {
  }

  lemma SameChild(d: Path, name: Name)
    ensures forall n: Name :: d + [n] == d + [name] <==> n == name
  {
    forall n: Name ensures d + [n] == d + [name] <==> n == name {
      assert (d + [n])[|d|] == n && (d + [name])[|d|] == name;
    }
  }

  lemma {:induction false} ChildrenBytesGrow(base: nat, d: Path, items: seq<Option<Listed>>, i: nat, j: nat)
    requires i <= j <= |items| && forall k | 0 <= k < j :: items[k].Some?
    ensures SumBytes(base, Children(d, items, i).Keys) <= SumBytes(base, Children(d, items, j).Keys)
    decreases j
  {
    if i < j {
      ChildrenBytesGrow(base, d, items, i, j - 1);
      var before, p := Children(d, items, j - 1), d + [items[j - 1].value.name];
      assert Children(d, items, j).Keys == before.Keys + {p};
      if p in before {
        assert before.Keys + {p} == before.Keys;
      } else {
        SumInsert(base, before.Keys, p);
      }
    }
  }

  // ----- the cache as it is updated -----

  class Snapshot {
    const cfg: Config
    const baseExists: bool

    var nodes: map<Path, Node>
    var asciiCaseAliases: set<nat>
    var directories: map<Path, DirectoryState>
    var enumeratedEntries: nat
    var cachedPathBytes: nat

    constructor (cfg: Config, baseExists: bool)
      ensures this.cfg == cfg && this.baseExists == baseExists && Valid() && Now() == FRESH
    {
      this.cfg, this.baseExists := cfg, baseExists;
      nodes, asciiCaseAliases, directories, enumeratedEntries, cachedPathBytes := map[], {}, map[], 0, 0;
    }

    function Now(): Cache
      reads this
    {
      Cache(nodes, asciiCaseAliases, directories, enumeratedEntries, cachedPathBytes)
    }

    ghost predicate Valid()
      reads this
    {
      ValidCache(cfg, Now())
    }

    predicate CanCache(additional: nat)
      reads this
    {
      cachedPathBytes + additional <= cfg.budget.cachedPathBytes
    }

    method RecordPointLookup(d: Path, pathBytes: nat)
      requires Valid() && d !in directories && pathBytes == PathBytes(cfg.base, d)
      modifies this
      ensures Valid()
      ensures Now() == if old(Refused(cfg, Now(), d)) then old(Now())
                       else old(Now()).(directories := old(directories)[d := PointLookup],
                                        cachedPathBytes := old(cachedPathBytes) + pathBytes)
    {
      hide ValidCache;
      if |directories| >= cfg.budget.directoryStates || !CanCache(pathBytes) {
        return;
      }
      RecordKeeps(cfg, Now(), d);
      cachedPathBytes := cachedPathBytes + pathBytes;
      directories := directories[d := PointLookup];
    }

    method CacheNode(p: Path, node: Node)
      requires Valid() && p != [] && (Parent(p) in directories || Refused(cfg, Now(), Parent(p)))
      requires cfg.fs.inspect(p) == Ok(node)
      modifies this
      ensures Valid()
      ensures Now() == if p !in old(nodes) && (|old(nodes)| >= cfg.budget.cachedNodes
                                               || !old(CanCache(PathBytes(cfg.base, p))))
                       then old(Now()) else WithNode(cfg, old(Now()), p, node)
    {
      hide ValidCache, PathBytes;
      if p in nodes {
        UpdateKeeps(cfg, Now(), p, node);
        nodes := nodes[p := node];
        return;
      }
      var pathBytes := PathBytes(cfg.base, p);
      if |nodes| >= cfg.budget.cachedNodes || !CanCache(pathBytes) {
        return;
      }
      InsertKeeps(cfg, Now(), p, node);
      cachedPathBytes := cachedPathBytes + pathBytes;
      nodes := nodes[p := node];
    }

    /** Adds one listed item to what the enumeration has gathered, unless a budget forbids it. */
    method GatherItem(d: Path, items: seq<Option<Listed>>, i: nat, g: Gathered) returns (fits: bool, g': Gathered)
      requires i < |items| && items[i].Some? && Gathering(cfg, Now(), d, items, i, g)
      ensures fits ==> Gathering(cfg, Now(), d, items, i + 1, g')
      ensures !fits && NamesDistinct(items) && AllRead(items) ==> !Roomy(cfg, Now().(enumeratedEntries := 0), d, items)
    {
      hide SumBytes, PathBytes, Collected, CaseHash, IsAscii, DisjointFromAscii, NamesAscii, NamesSafe, Roomy, Children,
           ChildHashes, NamesDistinct, AllRead, Refused;
      ChildrenStep(cfg.hash, d, items, i);
      var name := items[i].value.name;
      var p := d + [name];
      var entryBytes := if p in g.local then 0 else PathBytes(cfg.base, p);
      if |nodes| + |g.local| >= cfg.budget.cachedNodes
        || !CanCache(PathBytes(cfg.base, d) + g.localBytes + entryBytes) {
        if NamesDistinct(items) && AllRead(items) { NoRoom(cfg, Now(), d, items, i, g, entryBytes); }
        return false, g;
      }
      NamesStep(items, i);
      CollectOne(cfg.hash, d, items, i, g.local, g.aliases);
      if p !in g.local { SumInsert(cfg.base, g.local.Keys, p); }
      var local := g.local[p := items[i].value.node];
      assert local.Keys == g.local.Keys + {p};
      assert p in g.local ==> g.local.Keys + {p} == g.local.Keys;
      fits := true;
      g' := Gathered(local,
                     if CaseHash(cfg.hash, p).Some? then g.aliases + {CaseHash(cfg.hash, p).value} else g.aliases,
                     g.allNamesAscii && IsAscii(name),
                     g.unicodeNamesAreDisjoint && (IsAscii(name) || DisjointFromAscii(name)),
                     g.localBytes + entryBytes);
    }

    method Adopt(d: Path, items: seq<Option<Listed>>, local: map<Path, Node>, aliases: set<nat>, localBytes: nat,
                 state: DirectoryState)
      requires Valid() && Adoptable(cfg, Now(), d, items, local, aliases, localBytes, state)
      modifies this
      ensures Valid() && Now() == Adopted(cfg, old(Now()), d, local, aliases, localBytes, state)
    {
      hide ValidCache, Adoptable, PathBytes;
      AdoptKeeps(cfg, Now(), d, items, local, aliases, localBytes, state);
      cachedPathBytes := cachedPathBytes + PathBytes(cfg.base, d) + localBytes;
      directories := directories[d := state];
      nodes := nodes + local;
      asciiCaseAliases := asciiCaseAliases + aliases;
    }

    method FinishEnumeration(d: Path, items: seq<Option<Listed>>, g: Gathered) returns (state: DirectoryState)
      requires Valid() && d !in directories && !Refused(cfg, Now(), d) && cfg.fs.list(d) == Some(items)
      requires Gathering(cfg, Now(), d, items, |items|, g) && enumeratedEntries >= |items|
      modifies this
      ensures Valid() && d in directories && directories[d] == state && state != PointLookup && AllRead(items)
      ensures Now() == Loaded(cfg, old(Now()).(enumeratedEntries := old(enumeratedEntries) - |items|), d, items)
    {
      hide ValidCache, SumBytes, PathBytes, Collected, NamesAscii, NamesSafe, Refused;
      state := if g.local == map[] then CompleteEmpty else if g.allNamesAscii then CompleteAscii
               else if g.unicodeNamesAreDisjoint then CompleteUnicodeDisjointAscii else Complete;
      Adopt(d, items, g.local, g.aliases, g.localBytes, state);
    }

    method CountEntry(ghost d: Path, ghost items: seq<Option<Listed>>, ghost i: nat, ghost g: Gathered)
      requires Valid() && enumeratedEntries < cfg.budget.enumeratedEntries
      requires i <= |items| && Gathering(cfg, Now(), d, items, i, g)
      modifies this
      ensures Valid() && Now() == old(Now()).(enumeratedEntries := old(enumeratedEntries) + 1)
      ensures Gathering(cfg, Now(), d, items, i, g)
    {
      hide ValidCache, Gathering;
      CountKeeps(cfg, Now());
      GatheringIgnoresCount(cfg, Now(), d, items, i, g);
      enumeratedEntries := enumeratedEntries + 1;
    }

    /** Reads one listing into the cache, or gives up on it and leaves the directory to single lookups. */
    method Enumerate(d: Path, items: seq<Option<Listed>>) returns (state: DirectoryState)
      requires Valid() && d !in directories && !Refused(cfg, Now(), d) && cfg.fs.list(d) == Some(items)
      modifies this
      ensures Valid() && d in directories && directories[d] == state
      ensures Enumerated(cfg, old(Now()), d, items, Now())
    {
      hide ValidCache, Gathering, PathBytes, AllRead, Refused, Loaded;
      ghost var start := Now();
      ghost var roomy := NamesDistinct(items) && Roomy(cfg, start, d, items);
      var g := Gathered(map[], {}, true, true, 0);
      var i := 0;
      StartGathering(cfg, Now(), d, items);
      while true
        invariant 0 <= i <= |items| && i <= enumeratedEntries
        invariant Valid() && d !in directories && !Refused(cfg, Now(), d) && Gathering(cfg, Now(), d, items, i, g)
        invariant Now() == start.(enumeratedEntries := start.enumeratedEntries + i)
        invariant NamesDistinct(items) ==> i <= cfg.budget.directoryEntries && |g.local| == i
        decreases |items| - i
      {
        if enumeratedEntries >= cfg.budget.enumeratedEntries { break; }
        if i == |items| {
          GatheredRoom(cfg, start, d, items, g);
          assert start == Now().(enumeratedEntries := enumeratedEntries - |items|);
          state := FinishEnumeration(d, items, g);
          return;
        }
        CountEntry(d, items, i, g);
        RefusedIgnoresCount(cfg, start, Now(), d);
        if |g.local| >= cfg.budget.directoryEntries { break; }
        if items[i].None? {
          assert !AllRead(items) by { SomeUnread(items, i); }
          break;
        }
        var fits;
        fits, g := GatherItem(d, items, i, g);
        if !fits {
          if roomy { RoomIgnoresCount(cfg, start, Now(), d, items); }
          break;
        }
        i := i + 1;
        if NamesDistinct(items) { GatheredCount(cfg, Now(), d, items, i, g); }
      }
      RecordPointLookup(d, PathBytes(cfg.base, d));
      state := PointLookup;
    }

    /** `directory_state`: the recorded state, or a single enumeration, or point lookups. */
    method DirectoryStateOf(d: Path) returns (state: DirectoryState)
      requires Valid()
      modifies this
      ensures Valid()
      ensures d in directories || Refused(cfg, Now(), d)
      ensures LookedInto(cfg, old(Now()), d, Now())
      ensures state == if d in directories then directories[d] else PointLookup
    {
      hide ValidCache, PathBytes, Enumerated;
      if d in directories {
        return directories[d];
      }
      var stateBytes := PathBytes(cfg.base, d);
      if |directories| >= cfg.budget.directoryStates || !CanCache(stateBytes) {
        return PointLookup;
      }
      match cfg.fs.list(d)
      case None =>
        RecordPointLookup(d, stateBytes);
        state := PointLookup;
      case Some(items) =>
        state := Enumerate(d, items);
    }

    /** `node_at`: the cached answer, an inferred absence, or a single lookup. `seen` is the cache
        once the state of the parent is known; what it can answer is answered without a lookup. */
    method NodeAt(p: Path) returns (r: Result<Node>, ghost seen: Cache)
      requires Valid() && p != []
      modifies this
      ensures Valid()
      ensures if p in old(nodes) then seen == old(Now()) else LookedInto(cfg, old(Now()), Parent(p), seen)
      ensures r == AnswerOr(cfg, seen, p)
      ensures Now() == seen || (Answer(cfg, seen, p).None? && r.Ok? && Now() == WithNode(cfg, seen, p, r.value))
      ensures Answer(cfg, old(Now()), p).Some? ==> r == Ok(Answer(cfg, old(Now()), p).value) && Now() == old(Now())
      ensures Coherent(cfg.fs) && Proper(Last(p)) ==> r == cfg.fs.inspect(p)
    {
      hide ValidCache, PathBytes, Coherent, Enumerated, CaseHash;
      seen := Now();
      if p in nodes {
        CachedIsTrue(cfg, Now(), p);
        return Ok(nodes[p]), seen;
      }
      var state := DirectoryStateOf(Parent(p));
      seen := Now();
      if p in nodes {
        CachedIsTrue(cfg, Now(), p);
        return Ok(nodes[p]), seen;
      }
      if state == CompleteEmpty
         || ((state == CompleteAscii || state == CompleteUnicodeDisjointAscii)
             && CaseHash(cfg.hash, p).Some? && CaseHash(cfg.hash, p).value !in asciiCaseAliases
             && !MayBeNativeAlias(Last(p))) {
        UnlistedIsMissing(cfg, Now(), p);
        return Ok(Missing), seen;
      }
      r := cfg.fs.inspect(p);
      if r.Ok? { CacheNode(p, r.value); }
    }

    /** `conflicts`: on an unchanging, coherent destination the cached walk gives exactly the
        answer of the walk over direct lookups, whatever was asked before, whatever the
        budget, and however the alias hash collides. For a target right below the destination
        the answer is exact without that hypothesis: `first` is the cache it was read from. */
    method Conflicts(target: Path, kind: Target) returns (r: Result<Observation>, ghost first: Cache)
      requires Valid()
      modifies this
      ensures Valid()
      ensures !baseExists ==> r == Ok(Observation(false, Missing))
      ensures baseExists && Coherent(cfg.fs) && ProperPath(target) ==> r == Walk(cfg.fs, target, kind, 0)
      ensures baseExists && |target| == 1 ==>
                && (if target in old(nodes) then first == old(Now()) else LookedInto(cfg, old(Now()), [], first))
                && r == Observed(AnswerOr(cfg, first, target), kind)
      ensures baseExists && old(Now()) == FRESH && Room(cfg, target) && ListingsProper(cfg.fs) ==>
                r == Walk(Seen(cfg), target, kind, 0)
    {
      hide ValidCache, Coherent, LookedInto, Answer, AnswerOr, Room, ListingsProper, Along, AlongListed, Taken,
           Seen, WithNode, Walk;
      ghost var ample := Now() == FRESH && Room(cfg, target) && ListingsProper(cfg.fs);
      StartAlong(cfg, target);
      first := Now();
      if !baseExists {
        return Ok(Observation(false, Missing)), first;
      }
      var k := 0;
      while k < |target|
        invariant 0 <= k <= |target| && Valid() && (k == 0 ==> Now() == old(Now())) && (|target| == 1 ==> k == 0)
        invariant Coherent(cfg.fs) && ProperPath(target) ==>
                  Walk(cfg.fs, target, kind, 0) == Walk(cfg.fs, target, kind, k)
        invariant ample ==> Along(cfg, target, k, Now())
                            && Walk(Seen(cfg), target, kind, 0) == Walk(Seen(cfg), target, kind, k)
      {
        var current := target[..k + 1];
        var last := k + 1 == |target|;
        assert |target| == 1 ==> current == target && Parent(target) == [];
        assert Last(current) == target[k];
        ghost var before, seen := Now(), Now();
        if ample { NotYetSeen(cfg, target, k, before); }
        var node;
        node, seen := NodeAt(current);
        WalkStep(cfg.fs, target, kind, k);
        WalkStep(Seen(cfg), target, kind, k);
        if ample { NodeAlong(cfg, target, k, before, seen, node, Now()); }
        if k == 0 { first := seen; }
        match node {
          case Err(e) => return Err(e), first;
          case Ok(Missing) => return Ok(Observation(false, Missing)), first;
          case Ok(Directory) =>
            if last { return Ok(Observation(kind != DirectoryTarget, Directory)), first; }
          case Ok(other) =>
            if last {
              if kind == DirectoryTarget { return Err(NotADirectory), first; }
              return Ok(Observation(true, other)), first;
            }
            if other.NonDirectory? { return Err(NotADirectory), first; }
            match cfg.fs.descend(current) {
              case Some(e) => return Err(e), first;
              case None =>
            }
        }
        k := k + 1;
      }
      WalkEnds(cfg.fs, target, kind);
      WalkEnds(Seen(cfg), target, kind);
      return Ok(Observation(false, Missing)), first;
    }
  }

  lemma GatheringIgnoresCount(cfg: Config, c: Cache, d: Path, items: seq<Option<Listed>>, i: nat, g: Gathered)
    requires i <= |items| && Gathering(cfg, c, d, items, i, g)
    ensures Gathering(cfg, c.(enumeratedEntries := c.enumeratedEntries + 1), d, items, i, g)
  {
    hide Collected, NamesAscii, NamesSafe, SumBytes, PathBytes;
  }

  lemma CountKeeps(cfg: Config, c: Cache)
    requires ValidCache(cfg, c) && c.enumeratedEntries < cfg.budget.enumeratedEntries
    ensures ValidCache(cfg, c.(enumeratedEntries := c.enumeratedEntries + 1))
  {
    hide StatesHold, SumBytes, Coherent, PathBytes;
  }

  lemma CachedIsTrue(cfg: Config, c: Cache, p: Path)
    requires ValidCache(cfg, c) && p in c.nodes
    ensures Coherent(cfg.fs) ==> cfg.fs.inspect(p) == Ok(c.nodes[p])
  {
    hide StatesHold, SumBytes, Coherent, PathBytes;
  }

  /** The inferred absence is right: the listing shows no such name, no name that equals it
      up to ASCII case (equal names would have put their hash among the aliases), and no
      name that could alias it otherwise. */
  lemma UnlistedIsMissing(cfg: Config, c: Cache, p: Path)
    requires ValidCache(cfg, c) && p != [] && p !in c.nodes && Parent(p) in c.directories && Infers(cfg, c, p)
    ensures Coherent(cfg.fs) && Proper(Last(p)) ==> cfg.fs.inspect(p) == Ok(Missing)
  {
    var d := Parent(p);
    var n := Last(p);
    assert p == d + [n];
    assert StateHolds(cfg.fs, cfg.hash, c.nodes.Keys, c.asciiCaseAliases, d, c.directories[d]);
    var items := cfg.fs.list(d).value;
    forall i | 0 <= i < |items| ensures items[i].value.name != n && !MayAlias(n, items[i].value.name) {
      var q := d + [items[i].value.name];
      assert q in c.nodes;
      assert Parent(q) == d && Last(q) == items[i].value.name;
    }
    if Coherent(cfg.fs) { assert CoherentAt(cfg.fs, d, items); }
  }

  /** Room for the whole listing is room for each of its beginnings. */
  lemma NoRoom(cfg: Config, c: Cache, d: Path, items: seq<Option<Listed>>, i: nat, g: Gathered, entryBytes: nat)
    requires i < |items| && AllRead(items) && NamesDistinct(items) && Gathering(cfg, c, d, items, i, g)
    requires var p := d + [items[i].value.name]; entryBytes == if p in g.local then 0 else PathBytes(cfg.base, p)
    requires |c.nodes| + |g.local| >= cfg.budget.cachedNodes
             || c.cachedPathBytes + (PathBytes(cfg.base, d) + g.localBytes + entryBytes) > cfg.budget.cachedPathBytes
    ensures !Roomy(cfg, c.(enumeratedEntries := 0), d, items)
  {
    hide SumBytes, PathBytes, Collected, NamesAscii, NamesSafe, Refused, NamesDistinct, Children, ChildHashes;
    ChildrenCount(d, items, i);
    NextChildBytes(cfg.base, d, items, i, g.local);
    ChildrenBytesGrow(cfg.base, d, items, i + 1, |items|);
  }

  lemma NextChildBytes(base: nat, d: Path, items: seq<Option<Listed>>, i: nat, local: map<Path, Node>)
    requires i < |items| && AllRead(items) && local == Children(d, items, i)
    ensures var p := d + [items[i].value.name];
            SumBytes(base, Children(d, items, i + 1).Keys)
            == SumBytes(base, local.Keys) + if p in local then 0 else PathBytes(base, p)
  {
    hide SumBytes, PathBytes;
    var p := d + [items[i].value.name];
    assert Children(d, items, i + 1).Keys == local.Keys + {p};
    if p in local {
      assert local.Keys + {p} == local.Keys;
    } else {
      SumInsert(base, local.Keys, p);
    }
  }

  lemma RefusedIgnoresCount(cfg: Config, c: Cache, c': Cache, d: Path)
    requires c'.directories == c.directories && c'.cachedPathBytes == c.cachedPathBytes
    ensures Refused(cfg, c', d) <==> Refused(cfg, c, d)
  {
  }

  lemma SomeUnread(items: seq<Option<Listed>>, i: nat)
    requires i < |items| && items[i].None?
    ensures !AllRead(items)
  {
  }

  lemma RoomIgnoresCount(cfg: Config, c: Cache, c': Cache, d: Path, items: seq<Option<Listed>>)
    requires Roomy(cfg, c, d, items) && c' == c.(enumeratedEntries := c'.enumeratedEntries)
    ensures AllRead(items) && Roomy(cfg, c'.(enumeratedEntries := 0), d, items)
  {
    hide SumBytes, PathBytes;
  }

  lemma GatheredCount(cfg: Config, c: Cache, d: Path, items: seq<Option<Listed>>, i: nat, g: Gathered)
    requires i <= |items| && NamesDistinct(items) && Gathering(cfg, c, d, items, i, g)
    ensures |g.local| == i
  {
    ChildrenCount(d, items, i);
  }

  /** What was gathered completely had room. */
  lemma GatheredRoom(cfg: Config, start: Cache, d: Path, items: seq<Option<Listed>>, g: Gathered)
    requires Gathering(cfg, start.(enumeratedEntries := start.enumeratedEntries + |items|), d, items, |items|, g)
    requires start.enumeratedEntries + |items| < cfg.budget.enumeratedEntries && !Refused(cfg, start, d)
    requires NamesDistinct(items) ==> |items| <= cfg.budget.directoryEntries && |g.local| == |items|
    ensures NamesDistinct(items) ==> Roomy(cfg, start, d, items)
  {
    hide SumBytes, PathBytes, Collected, NamesAscii, NamesSafe;
  }

  lemma NamesStep(items: seq<Option<Listed>>, i: nat)
    requires i < |items| && forall k | 0 <= k <= i :: items[k].Some?
    ensures NamesAscii(items, i + 1) <==> NamesAscii(items, i) && IsAscii(items[i].value.name)
    ensures NamesSafe(items, i + 1) <==>
              NamesSafe(items, i) && (IsAscii(items[i].value.name) || DisjointFromAscii(items[i].value.name))
  {
  }

  lemma AdoptedBytes(base: nat, nodes: map<Path, Node>, local: map<Path, Node>, directories: map<Path, DirectoryState>,
                     d: Path, state: DirectoryState)
    requires nodes.Keys !! local.Keys && d !in directories
    ensures (nodes + local).Keys == nodes.Keys + local.Keys
    ensures |nodes + local| == |nodes| + |local|
    ensures |directories[d := state]| == |directories| + 1
    ensures SumBytes(base, (nodes + local).Keys) == SumBytes(base, nodes.Keys) + SumBytes(base, local.Keys)
    ensures SumBytes(base, directories[d := state].Keys) == SumBytes(base, directories.Keys) + PathBytes(base, d)
  {
    hide SumBytes, PathBytes;
    UnionSize(nodes, local);
    SumUnion(base, nodes.Keys, local.Keys);
    OneMore(base, directories, d, state);
  }

  lemma OneMore(base: nat, directories: map<Path, DirectoryState>, d: Path, state: DirectoryState)
    requires d !in directories
    ensures |directories[d := state]| == |directories| + 1
    ensures SumBytes(base, directories[d := state].Keys) == SumBytes(base, directories.Keys) + PathBytes(base, d)
  {
    hide SumBytes, PathBytes;
    SumInsert(base, directories.Keys, d);
    assert directories[d := state].Keys == directories.Keys + {d};
  }

  lemma UnionSize(a: map<Path, Node>, b: map<Path, Node>)
    requires a.Keys !! b.Keys
    ensures (a + b).Keys == a.Keys + b.Keys
    ensures |a + b| == |a| + |b|
  {
    assert (a + b).Keys == a.Keys + b.Keys;
    assert |(a + b).Keys| == |a.Keys| + |b.Keys|;
  }

  lemma StartCollection(hash: (Path, string) -> nat, base: nat, d: Path, items: seq<Option<Listed>>)
    ensures Collected(hash, d, items, 0, map[], {})
    ensures NamesAscii(items, 0) && NamesSafe(items, 0)
    ensures SumBytes(base, {}) == 0
  {
  }

  lemma StatesAdd(fs: FileSystem, hash: (Path, string) -> nat, cached: set<Path>, aliases: set<nat>,
                  directories: map<Path, DirectoryState>, d: Path, state: DirectoryState)
    requires StatesHold(fs, hash, cached, aliases, directories) && StateHolds(fs, hash, cached, aliases, d, state)
    ensures StatesHold(fs, hash, cached, aliases, directories[d := state])
  {
  }

  lemma AdoptedState(fs: FileSystem, hash: (Path, string) -> nat, d: Path, items: seq<Option<Listed>>,
                     local: map<Path, Node>, aliases: set<nat>, cached: set<Path>, aliases': set<nat>,
                     state: DirectoryState)
    requires fs.list(d) == Some(items) && Collected(hash, d, items, |items|, local, aliases)
    requires AllRead(items) && FitsState(items, state)
    ensures StateHolds(fs, hash, cached + local.Keys, aliases' + aliases, d, state)
  {
  }

  // ----- when the cache agrees with lookups -----

  predicate Lists(items: seq<Option<Listed>>, n: Name)
    requires AllRead(items)
  {
    exists i | 0 <= i < |items| :: items[i].value.name == n
  }

  predicate Readable(fs: FileSystem, d: Path) {
    fs.list(d).Some? && AllRead(fs.list(d).value)
  }

  /** Directories list proper names, each once. */
  ghost predicate ListingsProper(fs: FileSystem) {
    forall d: Path | fs.list(d).Some? :: NamesProper(fs.list(d).value)
  }

  predicate NamesProper(items: seq<Option<Listed>>) {
    NamesDistinct(items) && forall i | 0 <= i < |items| && items[i].Some? :: Proper(items[i].value.name)
  }

  /** The hashes of all names listed in the first `k` directories on the way to `p`. */
  function HashesAbove(cfg: Config, p: Path, k: nat): set<nat>
    requires k <= |p|
  {
    if k == 0 then {}
    else
      var d := p[..k - 1];
      HashesAbove(cfg, p, k - 1)
      + if Readable(cfg.fs, d) then ChildHashes(cfg.hash, d, cfg.fs.list(d).value, |cfg.fs.list(d).value|) else {}
  }

  predicate HashListed(cfg: Config, d: Path, h: nat) {
    Readable(cfg.fs, d)
    && exists i | 0 <= i < |cfg.fs.list(d).value| ::
      CaseHash(cfg.hash, d + [cfg.fs.list(d).value[i].value.name]) == Some(h)
  }

  /** The alias hash of `p` is that of some name listed in one of the directories above it. */
  predicate Collides(cfg: Config, p: Path) {
    var h := CaseHash(cfg.hash, p);
    h.Some? && exists k | 0 <= k < |p| :: HashListed(cfg, p[..k], h.value)
  }

  /** Listing and lookups agree in `d`: listed names show the listed type, and a name is missing
      that no listed name may alias and whose hash no listed name has. */
  ghost predicate LookupsAgree(cfg: Config, d: Path)
    requires Readable(cfg.fs, d)
  {
    var items := cfg.fs.list(d).value;
    && (forall i | 0 <= i < |items| :: cfg.fs.inspect(d + [items[i].value.name]) == Ok(items[i].value.node))
    && (forall n: Name | Proper(n) && !MayBeListed(n, items) && (items == [] || !Collides(cfg, d + [n])) ::
          cfg.fs.inspect(d + [n]) == Ok(Missing))
  }

  /** A walk over lookups gets beyond each component of `d`. */
  predicate Reached(fs: FileSystem, d: Path) {
    forall k | 0 < k <= |d| :: Passed(fs, d[..k])
  }

  predicate Passed(fs: FileSystem, p: Path) {
    fs.inspect(p) == Ok(Directory) || (fs.inspect(p) == Ok(Symlink) && fs.descend(p).None?)
  }

  /** What is known of the directory of `p` when all listings on the way have entered the cache. */
  function CacheAbove(cfg: Config, p: Path): Cache
    requires p != [] && Readable(cfg.fs, Parent(p))
  {
    var items := cfg.fs.list(Parent(p)).value;
    Cache(Children(Parent(p), items, |items|), HashesAbove(cfg, p, |p|), map[Parent(p) := Classified(items)], 0, 0)
  }

  /** What a fresh snapshot with enough room takes `p` for. */
  function Taken(cfg: Config, p: Path): Result<Node> {
    if p != [] && Readable(cfg.fs, Parent(p)) then AnswerOr(cfg, CacheAbove(cfg, p), p) else cfg.fs.inspect(p)
  }

  /** The destination as a fresh snapshot sees it. */
  function Seen(cfg: Config): FileSystem {
    cfg.fs.(inspect := (p: Path) => Taken(cfg, p))
  }

  // ----- a fresh snapshot along one walk -----

  function EntriesAlong(fs: FileSystem, target: Path, k: nat): nat
    requires k <= |target|
  {
    if k == 0 then 0
    else EntriesAlong(fs, target, k - 1)
         + if fs.list(target[..k - 1]).Some? then |fs.list(target[..k - 1]).value| else 0
  }

  ghost function BytesAlong(cfg: Config, target: Path, k: nat): nat
    requires k <= |target|
  {
    if k == 0 then 0
    else
      var d := target[..k - 1];
      BytesAlong(cfg, target, k - 1) + PathBytes(cfg.base, d) + PathBytes(cfg.base, target[..k])
      + if Readable(cfg.fs, d)
        then SumBytes(cfg.base, Children(d, cfg.fs.list(d).value, |cfg.fs.list(d).value|).Keys) else 0
  }

  /** Every budget suffices for all listings and lookups on the way to `target`. */
  ghost predicate Room(cfg: Config, target: Path) {
    && |target| <= cfg.budget.directoryStates
    && EntriesAlong(cfg.fs, target, |target|) < cfg.budget.enumeratedEntries
    && EntriesAlong(cfg.fs, target, |target|) + |target| <= cfg.budget.cachedNodes
    && BytesAlong(cfg, target, |target|) <= cfg.budget.cachedPathBytes
    && forall k | 0 <= k < |target| && cfg.fs.list(target[..k]).Some? ::
      |cfg.fs.list(target[..k]).value| <= cfg.budget.directoryEntries
  }

  /** The cache of a fresh snapshot after `k` components of a walk with room. */
  ghost predicate Along(cfg: Config, target: Path, k: nat, c: Cache)
    requires k <= |target|
  {
    && (forall d | d in c.directories :: |d| < k) && |c.directories| <= k
    && (forall p | p in c.nodes :: |p| <= k) && |c.nodes| <= EntriesAlong(cfg.fs, target, k) + k
    && c.asciiCaseAliases == HashesAbove(cfg, target, k)
    && c.enumeratedEntries <= EntriesAlong(cfg.fs, target, k)
    && c.cachedPathBytes <= BytesAlong(cfg, target, k)
  }

  /** The same between the listing of the `k`-th directory and the lookup in it. */
  ghost predicate AlongListed(cfg: Config, target: Path, k: nat, c: Cache)
    requires k < |target|
  {
    && (forall d | d in c.directories :: |d| <= k) && |c.directories| <= k + 1
    && (forall p | p in c.nodes :: |p| <= k + 1) && |c.nodes| + 1 <= EntriesAlong(cfg.fs, target, k + 1) + k + 1
    && c.asciiCaseAliases == HashesAbove(cfg, target, k + 1)
    && c.enumeratedEntries <= EntriesAlong(cfg.fs, target, k + 1)
    && c.cachedPathBytes + PathBytes(cfg.base, target[..k + 1]) <= BytesAlong(cfg, target, k + 1)
  }

  lemma {:induction false} EntriesGrow(fs: FileSystem, target: Path, j: nat, k: nat)
    requires j <= k <= |target|
    ensures EntriesAlong(fs, target, j) <= EntriesAlong(fs, target, k)
    decreases k
  {
    if j < k { EntriesGrow(fs, target, j, k - 1); }
  }

  lemma {:induction false} BytesGrow(cfg: Config, target: Path, j: nat, k: nat)
    requires j <= k <= |target|
    ensures BytesAlong(cfg, target, j) <= BytesAlong(cfg, target, k)
    decreases k
  {
    hide PathBytes, SumBytes;
    if j < k { BytesGrow(cfg, target, j, k - 1); }
  }

  lemma {:induction false} HashesOfPrefix(cfg: Config, p: Path, q: Path, k: nat)
    requires k <= |p| && k <= |q| && p[..k] == q[..k]
    ensures HashesAbove(cfg, p, k) == HashesAbove(cfg, q, k)
  {
    if k > 0 {
      assert p[..k - 1] == p[..k][..k - 1] && q[..k - 1] == q[..k][..k - 1];
      HashesOfPrefix(cfg, p, q, k - 1);
    }
  }

  /** On a walk with room every directory can be listed. */
  lemma RoomToList(cfg: Config, target: Path, k: nat, c: Cache)
    requires k < |target| && Room(cfg, target) && Along(cfg, target, k, c)
    ensures target[..k] !in c.directories && target[..k + 1] !in c.nodes && !Refused(cfg, c, target[..k])
    ensures Readable(cfg.fs, target[..k]) ==> Roomy(cfg, c, target[..k], cfg.fs.list(target[..k]).value)
  {
    hide PathBytes, SumBytes, HashesAbove, Children;
    EntriesGrow(cfg.fs, target, k + 1, |target|);
    BytesGrow(cfg, target, k + 1, |target|);
  }

  /** The cache after a directory was left to single lookups. */
  ghost predicate LeftToLookups(cfg: Config, c: Cache, d: Path, seen: Cache) {
    && seen.nodes == c.nodes && seen.asciiCaseAliases == c.asciiCaseAliases
    && seen.directories == c.directories[d := PointLookup]
    && seen.enumeratedEntries <= c.enumeratedEntries + (if cfg.fs.list(d).Some? then |cfg.fs.list(d).value| else 0)
    && seen.cachedPathBytes == c.cachedPathBytes + PathBytes(cfg.base, d)
  }

  /** A directory that cannot be read whole stays with single lookups. */
  lemma UnreadableAlong(cfg: Config, target: Path, k: nat, c: Cache, seen: Cache)
    requires k < |target| && Room(cfg, target) && Along(cfg, target, k, c)
    requires !Readable(cfg.fs, target[..k]) && LookedInto(cfg, c, target[..k], seen)
    ensures AlongListed(cfg, target, k, seen)
    ensures AnswerOr(cfg, seen, target[..k + 1]) == Taken(cfg, target[..k + 1])
  {
    RoomToList(cfg, target, k, c);
    hide PathBytes, SumBytes, HashesAbove, Children, Refused, Room, Roomy, Loaded, Along, AlongListed, AnswerOr, Taken;
    assert LeftToLookups(cfg, c, target[..k], seen);
    SkippedAlong(cfg, target, k, c, seen);
    SkippedTaken(cfg, target, k, c, seen);
  }

  lemma SkippedAlong(cfg: Config, target: Path, k: nat, c: Cache, seen: Cache)
    requires k < |target| && Along(cfg, target, k, c)
    requires !Readable(cfg.fs, target[..k]) && LeftToLookups(cfg, c, target[..k], seen)
    ensures AlongListed(cfg, target, k, seen)
  {
    hide PathBytes, SumBytes, HashesAbove, EntriesAlong, BytesAlong, Children, Readable;
    StepCounts(cfg, target, k);
    HashesStep(cfg, target, k);
  }

  lemma StepCounts(cfg: Config, target: Path, k: nat)
    requires k < |target|
    ensures var d := target[..k];
            && EntriesAlong(cfg.fs, target, k + 1)
               == EntriesAlong(cfg.fs, target, k) + (if cfg.fs.list(d).Some? then |cfg.fs.list(d).value| else 0)
            && BytesAlong(cfg, target, k + 1)
               == BytesAlong(cfg, target, k) + PathBytes(cfg.base, d) + PathBytes(cfg.base, target[..k + 1])
               + if Readable(cfg.fs, d)
                 then SumBytes(cfg.base, Children(d, cfg.fs.list(d).value, |cfg.fs.list(d).value|).Keys) else 0
  {
    hide PathBytes, SumBytes;
  }

  lemma SkippedTaken(cfg: Config, target: Path, k: nat, c: Cache, seen: Cache)
    requires k < |target| && Along(cfg, target, k, c)
    requires !Readable(cfg.fs, target[..k]) && LeftToLookups(cfg, c, target[..k], seen)
    ensures AnswerOr(cfg, seen, target[..k + 1]) == Taken(cfg, target[..k + 1])
  {
    hide PathBytes, SumBytes, HashesAbove, BytesAlong, EntriesAlong;
    assert Parent(target[..k + 1]) == target[..k];
  }

  lemma HashesStep(cfg: Config, target: Path, k: nat)
    requires k < |target|
    ensures var d := target[..k];
            HashesAbove(cfg, target, k + 1) == HashesAbove(cfg, target, k)
            + if Readable(cfg.fs, d) then ChildHashes(cfg.hash, d, cfg.fs.list(d).value, |cfg.fs.list(d).value|) else {}
  {
  }

  lemma UnionAtMost(a: map<Path, Node>, b: map<Path, Node>)
    ensures |a + b| <= |a| + |b|
  {
    assert (a + b).Keys == a.Keys + b.Keys;
    assert |a.Keys + b.Keys| == |a.Keys| + |b.Keys| - |a.Keys * b.Keys|;
  }

  /** A readable directory enters the cache whole. */
  lemma ReadableAlong(cfg: Config, target: Path, k: nat, c: Cache, seen: Cache)
    requires k < |target| && Room(cfg, target) && Along(cfg, target, k, c)
    requires Readable(cfg.fs, target[..k]) && NamesDistinct(cfg.fs.list(target[..k]).value)
    requires LookedInto(cfg, c, target[..k], seen)
    ensures AlongListed(cfg, target, k, seen)
    ensures AnswerOr(cfg, seen, target[..k + 1]) == Taken(cfg, target[..k + 1])
  {
    RoomToList(cfg, target, k, c);
    hide PathBytes, SumBytes, HashesAbove, Refused, Room, Roomy, Children, ChildHashes, Infers, Classified, Along,
         AlongListed, Answer, AnswerOr, Taken;
    LoadedAlong(cfg, target, k, c);
    LoadedTaken(cfg, target, k, c);
  }

  lemma LoadedAlong(cfg: Config, target: Path, k: nat, c: Cache)
    requires k < |target| && Along(cfg, target, k, c)
    requires Readable(cfg.fs, target[..k]) && NamesDistinct(cfg.fs.list(target[..k]).value)
    ensures AlongListed(cfg, target, k, Loaded(cfg, c, target[..k], cfg.fs.list(target[..k]).value))
  {
    hide PathBytes, SumBytes, HashesAbove, Children, ChildHashes, Classified, NamesDistinct, AllRead,
         EntriesAlong, BytesAlong, Loaded, Adopted;
    var d, items := target[..k], cfg.fs.list(target[..k]).value;
    StepCounts(cfg, target, k);
    HashesStep(cfg, target, k);
    LoadedNodes(c.nodes, d, items);
    LoadedDirectories(c.directories, d, Classified(items));
    LoadedShape(cfg, c, d, items);
  }

  lemma LoadedShape(cfg: Config, c: Cache, d: Path, items: seq<Option<Listed>>)
    requires AllRead(items)
    ensures var children := Children(d, items, |items|);
            Loaded(cfg, c, d, items)
            == Cache(c.nodes + children, c.asciiCaseAliases + ChildHashes(cfg.hash, d, items, |items|),
                     c.directories[d := Classified(items)], c.enumeratedEntries + |items|,
                     c.cachedPathBytes + PathBytes(cfg.base, d) + SumBytes(cfg.base, children.Keys))
  {
    hide PathBytes, SumBytes, Children, ChildHashes, Classified;
  }

  lemma LoadedDirectories(directories: map<Path, DirectoryState>, d: Path, state: DirectoryState)
    requires forall e | e in directories :: |e| < |d|
    ensures |directories[d := state]| == |directories| + 1
    ensures forall e | e in directories[d := state] :: |e| <= |d|
  {
    assert directories[d := state].Keys == directories.Keys + {d};
  }

  lemma LoadedNodes(nodes: map<Path, Node>, d: Path, items: seq<Option<Listed>>)
    requires AllRead(items) && NamesDistinct(items) && forall p | p in nodes :: |p| <= |d|
    ensures var nodes' := nodes + Children(d, items, |items|);
            |nodes'| <= |nodes| + |items| && forall p | p in nodes' :: |p| <= |d| + 1
  {
    hide Children;
    ChildrenCount(d, items, |items|);
    ChildrenAreBelow(d, items, |items|);
    UnionAtMost(nodes, Children(d, items, |items|));
  }

  lemma LoadedTaken(cfg: Config, target: Path, k: nat, c: Cache)
    requires k < |target| && Along(cfg, target, k, c) && Readable(cfg.fs, target[..k])
    ensures AnswerOr(cfg, Loaded(cfg, c, target[..k], cfg.fs.list(target[..k]).value), target[..k + 1])
            == Taken(cfg, target[..k + 1])
  {
    hide PathBytes, SumBytes, HashesAbove, Children, ChildHashes, Classified, Infers, BytesAlong, EntriesAlong, Answer;
    var d, p, items := target[..k], target[..k + 1], cfg.fs.list(target[..k]).value;
    assert Parent(p) == d && p[..|p|] == p;
    HashesStep(cfg, target, k);
    HashesOfPrefix(cfg, p, target, k + 1);
    SameAnswer(cfg, Loaded(cfg, c, d, items), CacheAbove(cfg, p), p);
  }

  lemma SameAnswer(cfg: Config, c: Cache, c': Cache, p: Path)
    requires p != [] && Parent(p) in c.directories && Parent(p) in c'.directories
    requires c.directories[Parent(p)] == c'.directories[Parent(p)] && c.asciiCaseAliases == c'.asciiCaseAliases
    requires p in c.nodes <==> p in c'.nodes
    requires p in c.nodes ==> c.nodes[p] == c'.nodes[p]
    ensures Answer(cfg, c, p) == Answer(cfg, c', p)
  {
    hide CaseHash, MayBeNativeAlias;
  }

  lemma {:induction false} ChildrenAreBelow(d: Path, items: seq<Option<Listed>>, i: nat)
    requires i <= |items| && forall k | 0 <= k < i :: items[k].Some?
    ensures forall p | p in Children(d, items, i) :: |p| == |d| + 1
  {
    if i > 0 { ChildrenAreBelow(d, items, i - 1); }
  }

  lemma ListedAlong(cfg: Config, target: Path, k: nat, c: Cache, seen: Cache)
    requires k < |target| && Room(cfg, target) && Along(cfg, target, k, c) && ListingsProper(cfg.fs)
    requires LookedInto(cfg, c, target[..k], seen)
    ensures AlongListed(cfg, target, k, seen)
    ensures AnswerOr(cfg, seen, target[..k + 1]) == Taken(cfg, target[..k + 1])
  {
    hide Room, Along, AlongListed, LookedInto, AnswerOr, Taken;
    if Readable(cfg.fs, target[..k]) {
      assert NamesProper(cfg.fs.list(target[..k]).value);
      ReadableAlong(cfg, target, k, c, seen);
    } else {
      UnreadableAlong(cfg, target, k, c, seen);
    }
  }

  lemma StartAlong(cfg: Config, target: Path)
    ensures Along(cfg, target, 0, FRESH)
  {
  }

  lemma NotYetSeen(cfg: Config, target: Path, k: nat, c: Cache)
    requires k < |target| && Along(cfg, target, k, c)
    ensures target[..k + 1] !in c.nodes && Parent(target[..k + 1]) == target[..k]
  {
    hide HashesAbove, EntriesAlong, BytesAlong;
  }

  /** A lookup may have cached its node. */
  lemma LookedUpAlong(cfg: Config, target: Path, k: nat, seen: Cache, node: Node, c': Cache)
    requires k < |target| && AlongListed(cfg, target, k, seen)
    requires c' == seen || c' == WithNode(cfg, seen, target[..k + 1], node)
    ensures Along(cfg, target, k + 1, c')
  {
    hide PathBytes, SumBytes, HashesAbove, EntriesAlong, BytesAlong;
  }

  /** One step of the walk, as the snapshot sees it. */
  lemma NodeAlong(cfg: Config, target: Path, k: nat, c: Cache, seen: Cache, r: Result<Node>, c': Cache)
    requires k < |target| && Room(cfg, target) && Along(cfg, target, k, c) && ListingsProper(cfg.fs)
    requires LookedInto(cfg, c, target[..k], seen) && r == AnswerOr(cfg, seen, target[..k + 1])
    requires c' == seen || (r.Ok? && c' == WithNode(cfg, seen, target[..k + 1], r.value))
    ensures Along(cfg, target, k + 1, c')
    ensures r == Seen(cfg).inspect(target[..k + 1]) && Seen(cfg).descend == cfg.fs.descend
  {
    hide Room, Along, AlongListed, LookedInto, AnswerOr, Taken, ListingsProper, WithNode;
    ListedAlong(cfg, target, k, c, seen);
    LookedUpAlong(cfg, target, k, seen, if r.Ok? then r.value else Missing, c');
  }
}
