/** The one-pass conflict estimate of the extraction preflight, against a quadratic
    specification over earlier entries, and the smart-layout verdict. */
module ExtractPlan {
  import opened Options
  import opened Sequences
  import opened DestinationSnapshot

  datatype EntryKind = File | Dir | Link | Other

  /** An archive entry; `relative` is its sanitized path, absent when sanitizing fails. */
  datatype Entry = Entry(raw: seq<nat>, kind: EntryKind, relative: Option<Path>) {
    ghost predicate Valid() { relative.Some? ==> relative.value != [] && ProperPath(relative.value) }
  }

  /** Folds a name the way the destination volume compares planned paths. */
  type Fold = Name -> Name

  function Key(fold: Fold, p: Path): Path { seq(|p|, i requires 0 <= i < |p| => fold(p[i])) }

  predicate Within(a: Path, p: Path) { a <= p && a != p }

  // ----- specification -----

  /** A selected entry that extraction would materialize, with what the destination shows for it. */
  datatype Item = Item(key: Path, kind: Target, conflicts: bool, directoryThere: bool)

  predicate Selects(wanted: Option<set<seq<nat>>>, e: Entry) {
    wanted.None? || e.raw in wanted.value
  }

  function TargetKind(kind: EntryKind): Option<Target> {
    match kind
    case Dir => Some(DirectoryTarget)
    case File => Some(NonDirectoryTarget)
    case Link => Some(NonDirectoryTarget)
    case Other => None
  }

  function Observe(fs: FileSystem, baseExists: bool, target: Path, kind: Target): Result<Observation> {
    if baseExists then Walk(fs, target, kind, 0) else Ok(Observation(false, Missing))
  }

  /** The materialized entries among the first `n`, or the first error. */
  function Items(fs: FileSystem, baseExists: bool, fold: Fold, wanted: Option<set<seq<nat>>>,
                 entries: seq<Entry>, n: nat): Result<seq<Item>>
    requires n <= |entries|
  {
    if n == 0 then Ok([])
    else
      match Items(fs, baseExists, fold, wanted, entries, n - 1)
      case Err(e) => Err(e)
      case Ok(items) =>
        var entry := entries[n - 1];
        if !Selects(wanted, entry) then Ok(items)
        else if entry.relative.None? then Err(UnsafePath)
        else if TargetKind(entry.kind).None? then Ok(items)
        else
          var kind := TargetKind(entry.kind).value;
          match Observe(fs, baseExists, entry.relative.value, kind)
          case Err(e) => Err(e)
          case Ok(seen) =>
            Ok(items + [Item(Key(fold, entry.relative.value), kind, seen.conflicts, seen.finalNode == Directory)])
  }

  /** An earlier entry makes `p` a directory: it is one, or lies below it. */
  predicate DirectoryClaimed(items: seq<Item>, i: nat, p: Path)
    requires i <= |items|
  {
    exists j :: 0 <= j < i
      && ((items[j].kind == DirectoryTarget && items[j].key == p) || (p != [] && Within(p, items[j].key)))
  }

  /** The kind a path keeps after item `j` was extracted there first. */
  function Effective(items: seq<Item>, j: nat): Target
    requires j < |items|
  {
    if items[j].kind == NonDirectoryTarget && (DirectoryClaimed(items, j, items[j].key) || items[j].directoryThere)
    then DirectoryTarget else items[j].kind
  }

  /** Item `j` is the first one at path `p`, among the first `i`. */
  predicate FirstAt(items: seq<Item>, i: nat, p: Path, j: nat)
    requires i <= |items|
  {
    j < i && items[j].key == p && forall k | 0 <= k < j :: items[k].key != p
  }

  predicate Unclaimed(items: seq<Item>, i: nat, p: Path)
    requires i <= |items|
  {
    forall k | 0 <= k < i :: items[k].key != p
  }

  /** Item `i` conflicts with the destination or with earlier items. */
  ghost predicate Flag(items: seq<Item>, i: nat)
    requires i < |items|
  {
    var item := items[i];
    || item.conflicts
    || (item.kind == NonDirectoryTarget && DirectoryClaimed(items, i, item.key))
    || (exists j :: FirstAt(items, i, item.key, j)
                    && !(Effective(items, j) == DirectoryTarget && item.kind == DirectoryTarget))
    || (Unclaimed(items, i, item.key)
        && exists j :: 0 <= j < i && items[j].key != [] && Within(items[j].key, item.key)
                       && FirstAt(items, i, items[j].key, j) && Effective(items, j) == NonDirectoryTarget)
  }

  ghost function Flagged(items: seq<Item>, n: nat): (count: nat)
    requires n <= |items|
    ensures count <= n
    ensures count == 0 <==> forall i | 0 <= i < n :: !Flag(items, i)
  {
    if n == 0 then 0 else Flagged(items, n - 1) + if Flag(items, n - 1) then 1 else 0
  }

  // ----- the one pass -----

  /** `planned` holds the effective kind of the first claim of every path, and
      `directories` every path earlier entries make a directory. */
  ghost predicate Planned(items: seq<Item>, planned: map<Path, Target>, directories: set<Path>) {
    && (forall p :: p in planned <==> !Unclaimed(items, |items|, p))
    && (forall j: nat, p | FirstAt(items, |items|, p, j) :: p in planned && planned[p] == Effective(items, j))
    && (forall p :: p in directories <==> DirectoryClaimed(items, |items|, p))
  }

  /** `planned_path_conflicts`. */
  method PlannedPathConflicts(target: Path, kind: Target, planned: map<Path, Target>, directories: set<Path>)
    returns (conflicts: bool)
    requires target != []
    ensures conflicts <==>
              || (kind == NonDirectoryTarget && target in directories)
              || (target in planned && !(planned[target] == DirectoryTarget && kind == DirectoryTarget))
              || (target !in planned && exists k :: 0 < k < |target| && target[..k] in planned
                                                  && planned[target[..k]] == NonDirectoryTarget)
  {
    if kind == NonDirectoryTarget && target in directories { return true; }
    if target in planned { return !(planned[target] == DirectoryTarget && kind == DirectoryTarget); }
    var k := |target| - 1;
    while k > 0
      invariant 0 <= k < |target|
      invariant forall l | k < l < |target| :: !(target[..l] in planned && planned[target[..l]] == NonDirectoryTarget)
    {
      if target[..k] in planned && planned[target[..k]] == NonDirectoryTarget { return true; }
      k := k - 1;
    }
    return false;
  }

  /** `record_planned_directories`. */
  method RecordPlannedDirectories(target: Path, kind: Target, directories: set<Path>) returns (r: set<Path>)
    requires target != []
    ensures forall p :: p in r <==>
            p in directories || (kind == DirectoryTarget && p == target) || (p != [] && Within(p, target))
  {
    r := if kind == DirectoryTarget then directories + {target} else directories;
    var k := |target| - 1;
    while k > 0
      invariant 0 <= k < |target|
      invariant forall p :: p in r <==> p in directories || (kind == DirectoryTarget && p == target)
                                        || (p <= target && k < |p| < |target|)
    {
      r := r + {target[..k]};
      assert forall p | p <= target && |p| == k :: p == target[..k];
      k := k - 1;
    }
    assert forall p | Within(p, target) :: |p| < |target|;
    assert forall p | p <= target && |p| < |target| :: Within(p, target);
  }

  /** What the maps answer is what the quadratic specification asks. */
  lemma PlannedDecidesFlag(items: seq<Item>, item: Item, planned: map<Path, Target>, directories: set<Path>)
    requires Planned(items, planned, directories) && item.key != []
    ensures Flag(items + [item], |items|) <==>
              || item.conflicts
              || (item.kind == NonDirectoryTarget && item.key in directories)
              || (item.key in planned && !(planned[item.key] == DirectoryTarget && item.kind == DirectoryTarget))
              || (item.key !in planned && exists k :: 0 < k < |item.key| && item.key[..k] in planned
                                                    && planned[item.key[..k]] == NonDirectoryTarget)
  {
    var all := items + [item];
    var i := |items|;
    EarlierOnly(items, item);
    if item.key in planned {
      var f := FirstClaim(items, item.key);
      assert FirstAt(all, i, item.key, f);
      assert forall j | FirstAt(all, i, item.key, j) :: j == f;
    } else {
      assert Unclaimed(all, i, item.key);
      if k :| 0 < k < |item.key| && item.key[..k] in planned && planned[item.key[..k]] == NonDirectoryTarget {
        var f := FirstClaim(items, item.key[..k]);
        assert FirstAt(all, i, items[f].key, f) && Within(items[f].key, item.key);
      }
      forall j | 0 <= j < i && items[j].key != [] && Within(items[j].key, item.key)
                 && FirstAt(all, i, items[j].key, j) && Effective(all, j) == NonDirectoryTarget
        ensures item.key[..|items[j].key|] in planned && planned[item.key[..|items[j].key|]] == NonDirectoryTarget
      {
        assert item.key[..|items[j].key|] == items[j].key;
        assert FirstAt(items, i, items[j].key, j);
      }
    }
  }

  /** Appending an item does not change what earlier items claim. */
  lemma EarlierOnly(items: seq<Item>, item: Item)
    ensures forall i, p {:trigger DirectoryClaimed(items, i, p)} | 0 <= i <= |items| ::
              DirectoryClaimed(items + [item], i, p) <==> DirectoryClaimed(items, i, p)
    ensures forall j | 0 <= j < |items| :: Effective(items + [item], j) == Effective(items, j)
    ensures forall i, p, j {:trigger FirstAt(items, i, p, j)} | 0 <= i <= |items| && 0 <= j ::
              FirstAt(items + [item], i, p, j) <==> FirstAt(items, i, p, j)
  {
    var all := items + [item];
    forall i, p | 0 <= i <= |items| ensures DirectoryClaimed(all, i, p) <==> DirectoryClaimed(items, i, p) {
      assert forall j | 0 <= j < i :: all[j] == items[j];
    }
    forall i, p, j | 0 <= i <= |items| && 0 <= j ensures FirstAt(all, i, p, j) <==> FirstAt(items, i, p, j) {
      assert forall k | 0 <= k < i :: all[k] == items[k];
    }
  }

  lemma {:induction false} FirstClaim(items: seq<Item>, p: Path) returns (f: nat)
    requires !Unclaimed(items, |items|, p)
    ensures FirstAt(items, |items|, p, f)
  {
    var w :| 0 <= w < |items| && items[w].key == p;
    f := 0;
    while items[f].key != p
      invariant 0 <= f <= w && forall k | 0 <= k < f :: items[k].key != p
      decreases w - f
    {
      f := f + 1;
    }
  }

  lemma PlannedAfter(items: seq<Item>, item: Item, planned: map<Path, Target>, directories: set<Path>,
                     directories': set<Path>)
    requires Planned(items, planned, directories)
    requires forall p :: p in directories' <==>
               p in directories || (item.kind == DirectoryTarget && p == item.key) || (p != [] && Within(p, item.key))
    ensures var kept := if item.kind == NonDirectoryTarget && (item.key in directories || item.directoryThere)
                        then DirectoryTarget else item.kind;
            Planned(items + [item], if item.key in planned then planned else planned[item.key := kept], directories')
  {
    var all := items + [item];
    var kept := if item.kind == NonDirectoryTarget && (item.key in directories || item.directoryThere)
                then DirectoryTarget else item.kind;
    var planned' := if item.key in planned then planned else planned[item.key := kept];
    EarlierOnly(items, item);
    assert Effective(all, |items|) == kept;
    forall p ensures p in planned' <==> !Unclaimed(all, |all|, p) {
      assert p in planned <==> !Unclaimed(items, |items|, p);
      if Unclaimed(items, |items|, p) {
        assert Unclaimed(all, |all|, p) <==> p != item.key;
      } else {
        var k :| 0 <= k < |items| && items[k].key == p;
        assert all[k].key == p;
      }
    }
    forall j: nat, p | FirstAt(all, |all|, p, j) ensures p in planned' && planned'[p] == Effective(all, j) {
      if j < |items| {
        assert FirstAt(items, |items|, p, j);
        assert p in planned;
      } else {
        assert forall k | 0 <= k < |items| :: all[k].key == items[k].key;
        assert Unclaimed(items, |items|, p);
      }
    }
    forall p ensures p in directories' <==> DirectoryClaimed(all, |all|, p) {
      DirectoryClaimedAppend(items, item, p);
    }
  }

  lemma DirectoryClaimedAppend(items: seq<Item>, item: Item, p: Path)
    ensures DirectoryClaimed(items + [item], |items| + 1, p) <==>
              || DirectoryClaimed(items, |items|, p)
              || (item.kind == DirectoryTarget && item.key == p) || (p != [] && Within(p, item.key))
  {
    var all := items + [item];
    assert all[|items|] == item;
    if DirectoryClaimed(items, |items|, p) {
      var j :| 0 <= j < |items|
        && ((items[j].kind == DirectoryTarget && items[j].key == p) || (p != [] && Within(p, items[j].key)));
      assert all[j] == items[j];
    }
  }

  lemma FlaggedPrefix(items: seq<Item>, item: Item, n: nat)
    requires n <= |items|
    ensures Flagged(items + [item], n) == Flagged(items, n)
  {
    hide Flag;
    if n > 0 {
      FlaggedPrefix(items, item, n - 1);
      FlagPrefix(items, item, n - 1);
    }
  }

  lemma FlagPrefix(items: seq<Item>, item: Item, i: nat)
    requires i < |items|
    ensures Flag(items + [item], i) <==> Flag(items, i)
  {
    EarlierOnly(items, item);
    var all := items + [item];
    assert forall k | 0 <= k < |items| :: all[k] == items[k];
    assert Unclaimed(all, i, items[i].key) <==> Unclaimed(items, i, items[i].key);
  }

  /** `build_extract_plan`'s estimate: one pass with a map and a set counts exactly the
      entries that the quadratic specification flags. */
  method EstimateConflicts(snapshot: Snapshot, fold: Fold, wanted: Option<set<seq<nat>>>, entries: seq<Entry>)
    returns (r: Result<nat>, ghost items: seq<Item>)
    requires snapshot.Valid() && forall e | e in entries :: e.Valid()
    modifies snapshot
    ensures snapshot.Valid()
    ensures r.Ok? ==> r.value == Flagged(items, |items|)
    ensures Coherent(snapshot.cfg.fs) ==>
              match Items(snapshot.cfg.fs, snapshot.baseExists, fold, wanted, entries, |entries|)
              case Err(e) => r == Err(e)
              case Ok(all) => r.Ok? && items == all
    ensures !snapshot.baseExists ==>
              match Items(snapshot.cfg.fs, false, fold, wanted, entries, |entries|)
              case Err(e) => r == Err(e)
              case Ok(all) => r.Ok? && items == all && (r.value == 0 <==> NoClash(all))
  {
    hide ValidCache, Coherent, Walk, Flag, Planned, NoClash;
    items := [];
    var planned: map<Path, Target> := map[];
    var directories: set<Path> := {};
    var estimated := 0;
    var n := 0;
    StartPlanned();
    while n < |entries|
      invariant 0 <= n <= |entries| && snapshot.Valid()
      invariant Planned(items, planned, directories) && estimated == Flagged(items, |items|)
      invariant Coherent(snapshot.cfg.fs) || !snapshot.baseExists ==>
                  Items(snapshot.cfg.fs, snapshot.baseExists, fold, wanted, entries, n) == Ok(items)
    {
      var entry := entries[n];
      assert entry in entries;
      n := n + 1;
      ItemsError(snapshot.cfg.fs, snapshot.baseExists, fold, wanted, entries, n);
      if !Selects(wanted, entry) { continue; }
      if entry.relative.None? { return Err(UnsafePath), items; }
      var kind := TargetKind(entry.kind);
      if kind.None? { continue; }
      var target := Key(fold, entry.relative.value);
      var observation, seen := snapshot.Conflicts(entry.relative.value, kind.value);
      if observation.Err? { return Err(observation.error), items; }
      var conflicts := PlannedPathConflicts(target, kind.value, planned, directories);
      conflicts := conflicts || observation.value.conflicts;
      var remainsDirectory := kind.value == NonDirectoryTarget
                              && (target in directories || observation.value.finalNode == Directory);
      ghost var item := Item(target, kind.value, observation.value.conflicts, observation.value.finalNode == Directory);
      PlannedDecidesFlag(items, item, planned, directories);
      FlaggedPrefix(items, item, |items|);
      var directories' := RecordPlannedDirectories(target, kind.value, directories);
      PlannedAfter(items, item, planned, directories, directories');
      directories := directories';
      if target !in planned {
        planned := planned[target := if remainsDirectory then DirectoryTarget else kind.value];
      }
      if conflicts { estimated := estimated + 1; }
      items := items + [item];
    }
    if !snapshot.baseExists {
      AbsentDestinationItems(snapshot.cfg.fs, fold, wanted, entries, |entries|);
      ZeroMeansNoClash(items);
    }
    return Ok(estimated), items;
  }

  lemma StartPlanned()
    ensures Planned([], map[], {})
  {
  }

  /** Once the specification fails, it stays failed. */
  lemma {:induction false} ItemsError(fs: FileSystem, baseExists: bool, fold: Fold, wanted: Option<set<seq<nat>>>,
                                      entries: seq<Entry>, n: nat)
    requires n <= |entries|
    ensures Items(fs, baseExists, fold, wanted, entries, n).Err? ==>
              Items(fs, baseExists, fold, wanted, entries, |entries|) == Items(fs, baseExists, fold, wanted, entries, n)
    decreases |entries| - n
  {
    if n < |entries| { ItemsError(fs, baseExists, fold, wanted, entries, n + 1); }
  }

  // ----- what a zero estimate means -----

  /** Two materialized entries cannot both be extracted as they are. */
  predicate Clash(a: Item, b: Item) {
    || (a.key == b.key && !(a.kind == DirectoryTarget && b.kind == DirectoryTarget))
    || (a.kind == NonDirectoryTarget && Within(a.key, b.key))
    || (b.kind == NonDirectoryTarget && Within(b.key, a.key))
  }

  predicate NoClash(items: seq<Item>) {
    forall i, j | 0 <= i < j < |items| :: !Clash(items[i], items[j])
  }

  /** Items as an absent destination yields them. */
  predicate OnAbsentDestination(items: seq<Item>) {
    forall i | 0 <= i < |items| :: !items[i].conflicts && !items[i].directoryThere && items[i].key != []
  }

  /** An absent destination yields such items. */
  lemma {:induction false} AbsentDestinationItems(fs: FileSystem, fold: Fold, wanted: Option<set<seq<nat>>>,
                                                  entries: seq<Entry>, n: nat)
    requires n <= |entries| && forall e | e in entries :: e.Valid()
    requires Items(fs, false, fold, wanted, entries, n).Ok?
    ensures OnAbsentDestination(Items(fs, false, fold, wanted, entries, n).value)
  {
    if n > 0 {
      AbsentDestinationItems(fs, fold, wanted, entries, n - 1);
      assert entries[n - 1] in entries;
    }
  }

  lemma ClashFlags(items: seq<Item>, i: nat, j: nat)
    requires OnAbsentDestination(items) && i < j < |items| && Clash(items[i], items[j])
    ensures exists k :: 0 <= k <= j && Flag(items, k)
  {
    var a, b := items[i], items[j];
    if a.key == b.key {
      var f := FirstUpTo(items, i);
      if a.kind == NonDirectoryTarget && DirectoryClaimed(items, i, a.key) {
        assert Flag(items, i);
      } else if f < i && a.kind == NonDirectoryTarget {
        assert FirstAt(items, i, a.key, f);
        assert Flag(items, i);
      } else {
        assert FirstAt(items, j, b.key, f);
        if items[f].kind == NonDirectoryTarget && DirectoryClaimed(items, f, items[f].key) {
          assert Flag(items, f);
        } else if f < i && items[f].kind == NonDirectoryTarget {
          assert FirstAt(items, i, a.key, f);
          assert Flag(items, i);
        } else {
          assert Flag(items, j);
        }
      }
    } else if b.kind == NonDirectoryTarget && Within(b.key, a.key) {
      assert DirectoryClaimed(items, j, b.key);
      assert Flag(items, j);
    } else {
      FileAboveFlags(items, i, j);
    }
  }

  lemma FirstUpTo(items: seq<Item>, i: nat) returns (f: nat)
    requires i < |items|
    ensures f <= i && items[f].key == items[i].key && forall k | 0 <= k < f :: items[k].key != items[i].key
  {
    f := 0;
    while items[f].key != items[i].key
      invariant 0 <= f <= i && forall k | 0 <= k < f :: items[k].key != items[i].key
      decreases i - f
    {
      f := f + 1;
    }
  }

  /** A non-directory above a later entry: some entry up to the later one is flagged. */
  lemma FileAboveFlags(items: seq<Item>, i: nat, j: nat)
    requires OnAbsentDestination(items) && i < j < |items|
    requires items[i].kind == NonDirectoryTarget && Within(items[i].key, items[j].key)
    ensures exists k :: 0 <= k <= j && Flag(items, k)
  {
    var f := FirstUpTo(items, i);
    var g := FirstUpTo(items, j);
    if items[f].kind == DirectoryTarget {
      assert f < i;
      assert FirstAt(items, i, items[i].key, f);
      assert Flag(items, i);
    } else if DirectoryClaimed(items, f, items[f].key) {
      assert Flag(items, f);
    } else {
      assert f < g;
      assert FirstAt(items, g, items[f].key, f) && Effective(items, f) == NonDirectoryTarget;
      assert Unclaimed(items, g, items[g].key);
      assert Flag(items, g);
    }
  }

  lemma FlagClashes(items: seq<Item>, i: nat)
    requires OnAbsentDestination(items) && i < |items| && Flag(items, i)
    ensures exists j :: 0 <= j < i && Clash(items[j], items[i])
  {
    var item := items[i];
    if item.kind == NonDirectoryTarget && DirectoryClaimed(items, i, item.key) {
      var j :| 0 <= j < i && ((items[j].kind == DirectoryTarget && items[j].key == item.key)
                              || Within(item.key, items[j].key));
      assert Clash(items[j], item);
    } else if j: nat :|
      FirstAt(items, i, item.key, j) && !(Effective(items, j) == DirectoryTarget && item.kind == DirectoryTarget) {
      assert Clash(items[j], item);
    } else {
      var j :| 0 <= j < i && items[j].key != [] && Within(items[j].key, item.key)
               && FirstAt(items, i, items[j].key, j) && Effective(items, j) == NonDirectoryTarget;
      assert Clash(items[j], item);
    }
  }

  /** For a destination that does not exist yet the estimate is zero exactly when no two
      selected entries clash. */
  lemma ZeroMeansNoClash(items: seq<Item>)
    requires OnAbsentDestination(items)
    ensures Flagged(items, |items|) == 0 <==> NoClash(items)
  {
    if NoClash(items) {
      forall i | 0 <= i < |items| ensures !Flag(items, i) {
        if Flag(items, i) { FlagClashes(items, i); }
      }
    } else {
      var i, j :| 0 <= i < j < |items| && Clash(items[i], items[j]);
      ClashFlags(items, i, j);
    }
  }

  lemma NoClashReordered(items: seq<Item>, other: seq<Item>)
    requires multiset(items) == multiset(other) && NoClash(items)
    ensures NoClash(other)
  {
    forall i, j | 0 <= i < j < |other| ensures !Clash(other[i], other[j]) {
      var k, l := SamePair(items, other, i, j);
      assert k < l || l < k;
    }
  }

  lemma ZeroOfReorderedItems(items: seq<Item>, other: seq<Item>)
    requires multiset(items) == multiset(other) && OnAbsentDestination(items)
    ensures OnAbsentDestination(other)
    ensures Flagged(items, |items|) == 0 <==> Flagged(other, |other|) == 0
  {
    forall i | 0 <= i < |other| ensures !other[i].conflicts && !other[i].directoryThere && other[i].key != [] {
      assert other[i] in multiset(items);
    }
    ZeroMeansNoClash(items);
    ZeroMeansNoClash(other);
    if NoClash(items) { NoClashReordered(items, other); }
    if NoClash(other) { NoClashReordered(other, items); }
  }

  /** What one entry contributes on an absent destination. */
  function Contribution(fold: Fold, wanted: Option<set<seq<nat>>>, e: Entry): Result<Option<Item>> {
    if !Selects(wanted, e) then Ok(None)
    else if e.relative.None? then Err(UnsafePath)
    else if TargetKind(e.kind).None? then Ok(None)
    else Ok(Some(Item(Key(fold, e.relative.value), TargetKind(e.kind).value, false, false)))
  }

  predicate Contributes(fold: Fold, wanted: Option<set<seq<nat>>>, e: Entry, x: Item) {
    Contribution(fold, wanted, e) == Ok(Some(x))
  }

  /** The multiset of items is made entry by entry, so it does not depend on their order. */
  lemma {:induction false} ItemsByEntry(fs: FileSystem, fold: Fold, wanted: Option<set<seq<nat>>>, entries: seq<Entry>,
                                        n: nat)
    requires n <= |entries|
    ensures Items(fs, false, fold, wanted, entries, n).Ok? <==>
            forall i | 0 <= i < n :: Contribution(fold, wanted, entries[i]).Ok?
    ensures Items(fs, false, fold, wanted, entries, n).Err? ==>
            Items(fs, false, fold, wanted, entries, n).error == UnsafePath
    ensures Items(fs, false, fold, wanted, entries, n).Ok? ==>
              forall x :: multiset(Items(fs, false, fold, wanted, entries, n).value)[x]
                == CountIf(entries[..n], (e: Entry) => Contributes(fold, wanted, e, x))
  {
    hide Key;
    if n > 0 {
      ItemsByEntry(fs, fold, wanted, entries, n - 1);
      assert entries[..n][..n - 1] == entries[..n - 1];
    }
  }

  /** On an absent destination reordering the entries reorders the items. */
  lemma ItemsReordered(fs: FileSystem, fold: Fold, wanted: Option<set<seq<nat>>>, entries: seq<Entry>,
                       other: seq<Entry>)
    requires multiset(entries) == multiset(other)
    ensures var a, b := Items(fs, false, fold, wanted, entries, |entries|),
                        Items(fs, false, fold, wanted, other, |other|);
            (a.Err? ==> a == b) && (b.Err? ==> a == b) && (a.Ok? ==> multiset(a.value) == multiset(b.value))
  {
    hide Contribution, Contributes, CountIf;
    var a, b := Items(fs, false, fold, wanted, entries, |entries|), Items(fs, false, fold, wanted, other, |other|);
    hide Items;
    ItemsByEntry(fs, fold, wanted, entries, |entries|);
    ItemsByEntry(fs, fold, wanted, other, |other|);
    SameElements(entries, other);
    assert entries[..|entries|] == entries && other[..|other|] == other;
    assert (forall e | e in entries :: Contribution(fold, wanted, e).Ok?)
           <==> forall i | 0 <= i < |entries| :: Contribution(fold, wanted, entries[i]).Ok?;
    if a.Ok? && b.Ok? {
      forall x ensures multiset(a.value)[x] == multiset(b.value)[x] {
        CountReordered(entries, other, (e: Entry) => Contributes(fold, wanted, e, x));
      }
    }
  }

  /** For a destination that does not exist, whether the estimate is zero, or cannot be made,
      does not depend on the order of the archive's entries. */
  lemma ZeroIsOrderIndependent(fs: FileSystem, fold: Fold, wanted: Option<set<seq<nat>>>, entries: seq<Entry>,
                               other: seq<Entry>)
    requires multiset(entries) == multiset(other) && forall e | e in entries :: e.Valid()
    ensures var a, b := Items(fs, false, fold, wanted, entries, |entries|),
                        Items(fs, false, fold, wanted, other, |other|);
            && (a.Err? ==> a == b) && (b.Err? ==> a == b)
            && (a.Ok? ==>
                  && (Flagged(a.value, |a.value|) == 0 <==> Flagged(b.value, |b.value|) == 0)
                  && (NoClash(a.value) <==> NoClash(b.value)))
  {
    hide Flag, NoClash, OnAbsentDestination;
    ItemsReordered(fs, fold, wanted, entries, other);
    var a, b := Items(fs, false, fold, wanted, entries, |entries|), Items(fs, false, fold, wanted, other, |other|);
    hide Items;
    if a.Ok? && b.Ok? {
      AbsentDestinationItems(fs, fold, wanted, entries, |entries|);
      ZeroOfReorderedItems(a.value, b.value);
      ZeroMeansNoClash(a.value);
      ZeroMeansNoClash(b.value);
    }
  }

  /** The number itself does depend on it: a file `a` next to `a/b` and `a/c` counts twice
      when it comes first and once when it comes last. */
  lemma CountDependsOnOrder(a: Name, b: Name, c: Name)
    requires b != c
    ensures var file := Item([a], NonDirectoryTarget, false, false);
            var below := Item([a, b], NonDirectoryTarget, false, false);
            var beside := Item([a, c], NonDirectoryTarget, false, false);
            && Flagged([file, below, beside], 3) == 2
            && Flagged([below, beside, file], 3) == 1
  {
    var file := Item([a], NonDirectoryTarget, false, false);
    var below := Item([a, b], NonDirectoryTarget, false, false);
    var beside := Item([a, c], NonDirectoryTarget, false, false);
    var first := [file, below, beside];
    var last := [below, beside, file];
    assert [a, b][1] == b && [a, c][1] == c;
    assert Within([a], [a, b]) && Within([a], [a, c]) && [a, b] != [a, c];
    assert !Flag(first, 0);
    assert FirstAt(first, 1, [a], 0) && !DirectoryClaimed(first, 0, [a]);
    assert Flag(first, 1);
    assert FirstAt(first, 2, [a], 0);
    assert Flag(first, 2);
    assert Flagged(first, 1) == 0 && Flagged(first, 2) == 1;
    assert !Flag(last, 0) && !Flag(last, 1);
    assert DirectoryClaimed(last, 2, [a]);
    assert Flag(last, 2);
    assert Flagged(last, 1) == 0 && Flagged(last, 2) == 0;
  }

  // ----- smart layout -----

  /** The non-empty components of an entry's displayed path, and whether it is a directory entry. */
  datatype Shown = Shown(components: seq<string>, isDirectory: bool)

  datatype SmartLayout = DirectExtract | WrapInFolder

  /** Every entry that has a name lies at or below one directory. */
  predicate SingleRootDirectory(shown: seq<Shown>) {
    && (forall i, j | 0 <= i < |shown| && 0 <= j < |shown| && shown[i].components != [] && shown[j].components != [] ::
          shown[i].components[0] == shown[j].components[0])
    && (forall i | 0 <= i < |shown| && |shown[i].components| == 1 :: shown[i].isDirectory)
  }

  /** `analyze_extract_layout`. */
  method AnalyzeLayout(shown: seq<Shown>) returns (layout: SmartLayout)
    ensures layout == DirectExtract <==> SingleRootDirectory(shown)
  {
    var root: Option<string> := None;
    var rootIsDirectory := false;
    var i := 0;
    while i < |shown|
      invariant 0 <= i <= |shown|
      invariant root.None? ==> forall k | 0 <= k < i :: shown[k].components == []
      invariant root.Some? ==> rootIsDirectory
      invariant root.Some? ==>
                exists k :: 0 <= k < i && shown[k].components != [] && shown[k].components[0] == root.value
      invariant root.Some? ==>
                forall k | 0 <= k < i && shown[k].components != [] :: shown[k].components[0] == root.value
      invariant forall k | 0 <= k < i && |shown[k].components| == 1 :: shown[k].isDirectory
    {
      var components := shown[i].components;
      if components != [] {
        if root.None? { root := Some(components[0]); }
        else if root.value != components[0] { return WrapInFolder; }
        if |components| == 1 {
          if shown[i].isDirectory { rootIsDirectory := true; } else { return WrapInFolder; }
        } else {
          rootIsDirectory := true;
        }
      }
      i := i + 1;
    }
    layout := if root.Some? && rootIsDirectory then DirectExtract
              else if root.Some? then WrapInFolder else DirectExtract;
  }
}
