/** What the conflict estimate says about the archive's own entries and the destination itself. */
module ExtractEntries {
  import opened Options
  import opened Sequences
  import opened DestinationSnapshot
  import opened SnapshotWalk
  import opened ExtractPlan

  // ----- entries and what is at their paths -----

  /** The entry is selected and extraction writes something for it. */
  predicate Materializes(wanted: Option<set<seq<nat>>>, e: Entry) {
    (wanted.None? || e.raw in wanted.value) && e.kind != Other
  }

  function WantedKind(e: Entry): Target { if e.kind == Dir then DirectoryTarget else NonDirectoryTarget }

  /** A file or a link is to be where something is. */
  predicate InTheWay(fs: FileSystem, e: Entry) {
    e.relative.Some? && e.kind != Dir && There(fs, e.relative.value)
  }

  /** The entry makes planning fail: its path is unsafe, or the destination cannot take it. */
  predicate EntryFails(fs: FileSystem, baseExists: bool, wanted: Option<set<seq<nat>>>, e: Entry) {
    && (wanted.None? || e.raw in wanted.value)
    && (e.relative.None? || (baseExists && e.kind != Other && Fails(fs, e.relative.value, WantedKind(e))))
  }

  /** The paths are one when names are compared as the volume compares them. */
  predicate SamePlace(fold: Fold, a: Path, b: Path) {
    |a| == |b| && forall i | 0 <= i < |a| :: fold(a[i]) == fold(b[i])
  }

  predicate Above(fold: Fold, a: Path, b: Path) {
    |a| < |b| && forall i | 0 <= i < |a| :: fold(a[i]) == fold(b[i])
  }

  /** Two entries that cannot both be extracted: at one place and not both directories, or a file above. */
  predicate EntriesClash(fold: Fold, a: Entry, b: Entry) {
    && a.relative.Some? && b.relative.Some?
    && (|| (SamePlace(fold, a.relative.value, b.relative.value) && !(a.kind == Dir && b.kind == Dir))
        || (a.kind != Dir && Above(fold, a.relative.value, b.relative.value))
        || (b.kind != Dir && Above(fold, b.relative.value, a.relative.value)))
  }

  // ----- the items of a plan, entry by entry -----

  function Chosen(wanted: Option<set<seq<nat>>>, entries: seq<Entry>, n: nat): seq<nat>
    requires n <= |entries|
  {
    if n == 0 then []
    else Chosen(wanted, entries, n - 1) + if Materializes(wanted, entries[n - 1]) then [n - 1] else []
  }

  lemma {:induction false} ChosenAre(wanted: Option<set<seq<nat>>>, entries: seq<Entry>, n: nat)
    requires n <= |entries|
    ensures forall i: nat :: i in Chosen(wanted, entries, n) <==> i < n && Materializes(wanted, entries[i])
    ensures forall a | 0 <= a < |Chosen(wanted, entries, n)| :: Chosen(wanted, entries, n)[a] < n
    ensures forall a, b | 0 <= a < b < |Chosen(wanted, entries, n)| ::
              Chosen(wanted, entries, n)[a] < Chosen(wanted, entries, n)[b]
  {
    hide Materializes;
    if n > 0 { ChosenAre(wanted, entries, n - 1); }
  }

  /** What the plan knows of an entry. */
  predicate IsItemOf(fs: FileSystem, baseExists: bool, fold: Fold, e: Entry, x: Item) {
    && e.relative.Some? && x.kind == WantedKind(e)
    && |x.key| == |e.relative.value| && (forall i | 0 <= i < |x.key| :: x.key[i] == fold(e.relative.value[i]))
    && (x.conflicts <==> baseExists && InTheWay(fs, e))
    && (x.directoryThere <==>
          baseExists && Arrives(fs, e.relative.value) && fs.inspect(e.relative.value) == Ok(Directory))
  }

  /** Planning fails exactly on the first entry that makes it fail, and otherwise knows every
      materialized entry, in order. */
  lemma {:induction false} ItemsExactly(fs: FileSystem, baseExists: bool, fold: Fold, wanted: Option<set<seq<nat>>>,
                                        entries: seq<Entry>, n: nat)
    requires n <= |entries| && forall e | e in entries :: e.Valid()
    ensures Items(fs, baseExists, fold, wanted, entries, n).Err? <==>
            exists i | 0 <= i < n :: EntryFails(fs, baseExists, wanted, entries[i])
    ensures var r, at := Items(fs, baseExists, fold, wanted, entries, n), Chosen(wanted, entries, n);
            r.Ok? ==> |r.value| == |at| && forall a | 0 <= a < |at| ::
              at[a] < |entries| && IsItemOf(fs, baseExists, fold, entries[at[a]], r.value[a])
  {
    hide Walk, IsItemOf, EntryFails;
    if n > 0 {
      ItemsExactly(fs, baseExists, fold, wanted, entries, n - 1);
      assert entries[n - 1] in entries;
      ItemsStep(fs, baseExists, fold, wanted, entries, n);
    }
  }

  lemma ItemsStep(fs: FileSystem, baseExists: bool, fold: Fold, wanted: Option<set<seq<nat>>>, entries: seq<Entry>,
                  n: nat)
    requires 0 < n <= |entries| && entries[n - 1].Valid()
    ensures var before, after := Items(fs, baseExists, fold, wanted, entries, n - 1),
                                 Items(fs, baseExists, fold, wanted, entries, n);
            var e := entries[n - 1];
            && (after.Err? <==> before.Err? || EntryFails(fs, baseExists, wanted, e))
            && (after.Ok? && !Materializes(wanted, e) ==> after == before)
            && (after.Ok? && Materializes(wanted, e) ==>
                  && |after.value| == |before.value| + 1 && after.value[..|before.value|] == before.value
                  && IsItemOf(fs, baseExists, fold, e, after.value[|before.value|]))
  {
    hide Walk, Fails, There;
    var e := entries[n - 1];
    if Materializes(wanted, e) && e.relative.Some? { WalkExactly(fs, e.relative.value, WantedKind(e)); }
  }

  // ----- what a zero estimate means -----

  /** What the destination shows for a file is in its way. */
  predicate ShownInTheWay(items: seq<Item>) {
    forall i | 0 <= i < |items| ::
      items[i].key != [] && (items[i].kind == NonDirectoryTarget && items[i].directoryThere ==> items[i].conflicts)
  }

  /** Without conflicts the destination does not matter to what is planned. */
  function AsOnAbsent(items: seq<Item>): (r: seq<Item>)
    ensures |r| == |items| && forall i | 0 <= i < |r| :: r[i] == Item(items[i].key, items[i].kind, false, false)
  {
    seq(|items|, i requires 0 <= i < |items| => Item(items[i].key, items[i].kind, false, false))
  }

  lemma SameEffect(items: seq<Item>)
    requires ShownInTheWay(items) && forall i | 0 <= i < |items| :: !items[i].conflicts
    ensures forall i | 0 <= i < |items| :: Flag(items, i) <==> Flag(AsOnAbsent(items), i)
    ensures NoClash(items) <==> NoClash(AsOnAbsent(items))
  {
    var other := AsOnAbsent(items);
    forall i, p | 0 <= i <= |items|
      ensures DirectoryClaimed(items, i, p) <==> DirectoryClaimed(other, i, p)
    {
      assert forall j | 0 <= j < i :: items[j].key == other[j].key && items[j].kind == other[j].kind;
    }
    assert forall j | 0 <= j < |items| :: Effective(items, j) == Effective(other, j);
    forall i | 0 <= i < |items| ensures Flag(items, i) <==> Flag(other, i) { SameFlag(items, other, i); }
  }

  lemma SameFlag(items: seq<Item>, other: seq<Item>, i: nat)
    requires i < |items| == |other|
    requires forall j | 0 <= j < |items| ::
               items[j].key == other[j].key && items[j].kind == other[j].kind && !items[j].conflicts
               && !other[j].conflicts
    requires forall j, p {:trigger DirectoryClaimed(items, j, p)} | 0 <= j <= |items| ::
               DirectoryClaimed(items, j, p) <==> DirectoryClaimed(other, j, p)
    requires forall j | 0 <= j < |items| :: Effective(items, j) == Effective(other, j)
    ensures Flag(items, i) <==> Flag(other, i)
  {
    hide DirectoryClaimed, Effective;
    assert forall p, j {:trigger FirstAt(items, i, p, j)} | 0 <= j ::
             FirstAt(items, i, p, j) <==> FirstAt(other, i, p, j);
    assert Unclaimed(items, i, items[i].key) <==> Unclaimed(other, i, other[i].key);
  }

  /** Whatever the destination shows, the estimate is zero exactly when it is in no file's way and no
      two items clash. */
  lemma ZeroOfItems(items: seq<Item>)
    requires ShownInTheWay(items)
    ensures Flagged(items, |items|) == 0 <==>
            (forall i | 0 <= i < |items| :: !items[i].conflicts) && NoClash(items)
  {
    hide NoClash, ShownInTheWay;
    if forall i | 0 <= i < |items| :: !items[i].conflicts {
      var other := AsOnAbsent(items);
      SameEffect(items);
      hide Flag;
      KeysThere(items);
      ZeroMeansNoClash(other);
    } else {
      var i :| 0 <= i < |items| && items[i].conflicts;
      assert Flag(items, i);
    }
  }

  lemma KeysThere(items: seq<Item>)
    requires ShownInTheWay(items)
    ensures OnAbsentDestination(AsOnAbsent(items))
  {
  }

  lemma ClashOfEntries(fs: FileSystem, baseExists: bool, fold: Fold, a: Entry, b: Entry, x: Item, y: Item)
    requires IsItemOf(fs, baseExists, fold, a, x) && IsItemOf(fs, baseExists, fold, b, y)
    ensures Clash(x, y) <==> EntriesClash(fold, a, b)
  {
    hide InTheWay, Arrives;
    assert x.key == y.key <==> SamePlace(fold, a.relative.value, b.relative.value);
    assert Within(x.key, y.key) <==> Above(fold, a.relative.value, b.relative.value);
    assert Within(y.key, x.key) <==> Above(fold, b.relative.value, a.relative.value);
  }

  ghost predicate NothingInTheWay(fs: FileSystem, wanted: Option<set<seq<nat>>>, entries: seq<Entry>) {
    forall e | e in entries && Materializes(wanted, e) :: !InTheWay(fs, e)
  }

  predicate NoEntriesClash(fold: Fold, wanted: Option<set<seq<nat>>>, entries: seq<Entry>) {
    forall i, j | 0 <= i < j < |entries| && Materializes(wanted, entries[i]) && Materializes(wanted, entries[j]) ::
      !EntriesClash(fold, entries[i], entries[j])
  }

  /** The estimate for a destination, existing or not, is zero exactly when nothing there is where a
      file or link is to be and no two of the entries clash. */
  lemma EstimateIsZeroExactly(fs: FileSystem, baseExists: bool, fold: Fold, wanted: Option<set<seq<nat>>>,
                              entries: seq<Entry>)
    requires forall e | e in entries :: e.Valid()
    requires Items(fs, baseExists, fold, wanted, entries, |entries|).Ok?
    ensures var items := Items(fs, baseExists, fold, wanted, entries, |entries|).value;
            Flagged(items, |items|) == 0 <==>
            (baseExists ==> NothingInTheWay(fs, wanted, entries)) && NoEntriesClash(fold, wanted, entries)
  {
    hide Items, Flag, Flagged, IsItemOf, InTheWay, Clash, EntriesClash, Materializes;
    var items, at := Items(fs, baseExists, fold, wanted, entries, |entries|).value,
                     Chosen(wanted, entries, |entries|);
    ItemsExactly(fs, baseExists, fold, wanted, entries, |entries|);
    ChosenAre(wanted, entries, |entries|);
    hide Chosen;
    ItemsShown(fs, baseExists, fold, entries, items, at);
    ZeroOfItems(items);
    ClashesExactly(fs, baseExists, fold, wanted, entries, items, at);
    ConflictsExactly(fs, baseExists, fold, wanted, entries, items, at);
  }

  lemma ItemsShown(fs: FileSystem, baseExists: bool, fold: Fold, entries: seq<Entry>, items: seq<Item>, at: seq<nat>)
    requires (forall e | e in entries :: e.Valid()) && |items| == |at|
    requires forall a | 0 <= a < |at| ::
               at[a] < |entries| && IsItemOf(fs, baseExists, fold, entries[at[a]], items[a])
    ensures ShownInTheWay(items)
  {
    forall a | 0 <= a < |at|
      ensures items[a].key != []
              && (items[a].kind == NonDirectoryTarget && items[a].directoryThere ==> items[a].conflicts)
    {
      assert entries[at[a]] in entries && IsItemOf(fs, baseExists, fold, entries[at[a]], items[a]);
    }
  }

  lemma ClashesExactly(fs: FileSystem, baseExists: bool, fold: Fold, wanted: Option<set<seq<nat>>>,
                       entries: seq<Entry>, items: seq<Item>, at: seq<nat>)
    requires |items| == |at| && forall a | 0 <= a < |at| ::
               at[a] < |entries| && IsItemOf(fs, baseExists, fold, entries[at[a]], items[a])
    requires forall i: nat :: i in at <==> i < |entries| && Materializes(wanted, entries[i])
    requires forall a, b | 0 <= a < b < |at| :: at[a] < at[b]
    ensures NoClash(items) <==> NoEntriesClash(fold, wanted, entries)
  {
    hide IsItemOf, Clash, EntriesClash, Materializes;
    forall a, b | 0 <= a < b < |at|
      ensures Clash(items[a], items[b]) <==> EntriesClash(fold, entries[at[a]], entries[at[b]])
    {
      ClashOfEntries(fs, baseExists, fold, entries[at[a]], entries[at[b]], items[a], items[b]);
    }
    if NoEntriesClash(fold, wanted, entries) {
      forall a, b | 0 <= a < b < |at| ensures !Clash(items[a], items[b]) { assert at[a] in at && at[b] in at; }
    }
    if NoClash(items) {
      forall i, j | 0 <= i < j < |entries| && Materializes(wanted, entries[i]) && Materializes(wanted, entries[j])
        ensures !EntriesClash(fold, entries[i], entries[j])
      {
        assert i in at && j in at;
        var a :| 0 <= a < |at| && at[a] == i;
        var b :| 0 <= b < |at| && at[b] == j;
        assert a < b;
      }
    }
  }

  lemma ConflictsExactly(fs: FileSystem, baseExists: bool, fold: Fold, wanted: Option<set<seq<nat>>>,
                         entries: seq<Entry>, items: seq<Item>, at: seq<nat>)
    requires |items| == |at| && forall a | 0 <= a < |at| ::
               at[a] < |entries| && IsItemOf(fs, baseExists, fold, entries[at[a]], items[a])
    requires forall i: nat :: i in at <==> i < |entries| && Materializes(wanted, entries[i])
    ensures (forall i | 0 <= i < |items| :: !items[i].conflicts) <==>
            (baseExists ==> NothingInTheWay(fs, wanted, entries))
  {
    hide Materializes, InTheWay, Arrives;
    if forall i | 0 <= i < |items| :: !items[i].conflicts {
      forall e | e in entries && Materializes(wanted, e) && baseExists ensures !InTheWay(fs, e) {
        var i :| 0 <= i < |entries| && entries[i] == e;
        assert i in at;
        var a :| 0 <= a < |at| && at[a] == i;
        assert IsItemOf(fs, baseExists, fold, entries[at[a]], items[a]);
      }
    }
    if baseExists ==> NothingInTheWay(fs, wanted, entries) {
      forall a | 0 <= a < |items| ensures !items[a].conflicts {
        assert at[a] in at;
        assert IsItemOf(fs, baseExists, fold, entries[at[a]], items[a]);
      }
    }
  }

  /** A file claims its path for itself unless a directory is there or an earlier entry needs one: only
      then are later entries below it flagged. */
  lemma FileAboveExactly(items: seq<Item>, i: nat)
    requires i < |items| && !items[i].conflicts && Unclaimed(items, i, items[i].key)
    requires items[i].kind == NonDirectoryTarget ==>
               forall k | 0 <= k < i :: !Within(items[i].key, items[k].key)
    ensures Flag(items, i) <==>
            exists j | 0 <= j < i ::
              && items[j].key != [] && Within(items[j].key, items[i].key)
              && items[j].kind == NonDirectoryTarget && !items[j].directoryThere
              && forall k | 0 <= k < j :: items[k].key != items[j].key && !Within(items[j].key, items[k].key)
  {
    if j :| 0 <= j < i && items[j].key != [] && Within(items[j].key, items[i].key)
            && items[j].kind == NonDirectoryTarget && !items[j].directoryThere
            && forall k | 0 <= k < j :: items[k].key != items[j].key && !Within(items[j].key, items[k].key) {
      assert FirstAt(items, i, items[j].key, j);
    }
  }
}
