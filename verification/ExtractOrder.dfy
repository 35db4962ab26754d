/** When the conflict estimate for an absent destination does not depend on the order of entries. */
module ExtractOrder {
  import opened Options
  import opened Sequences
  import opened DestinationSnapshot
  import opened ExtractPlan

  // ----- the condition -----

  /** Extracting `x` first makes `p` a directory. */
  predicate Claims(x: Item, p: Path) {
    (x.kind == DirectoryTarget && x.key == p) || Within(p, x.key)
  }

  /** At one path, or one a file above the other. */
  predicate OneLine(x: Item, y: Item) {
    || x.key == y.key
    || (x.kind == NonDirectoryTarget && Within(x.key, y.key))
    || (y.kind == NonDirectoryTarget && Within(y.key, x.key))
  }

  /** Two entries make the path of a file a directory, and not one through the other: they count
      twice after the file, which itself counts once after them. */
  predicate Splits(f: Item, x: Item, y: Item) {
    && f.kind == NonDirectoryTarget && Claims(x, f.key) && Claims(y, f.key)
    && (x.key == y.key == f.key || !OneLine(x, y))
  }

  predicate NothingSplit(items: seq<Item>) {
    forall i, j, k | 0 <= i < |items| && 0 <= j < k < |items| :: !Splits(items[i], items[j], items[k])
  }

  lemma NothingSplitReordered(items: seq<Item>, other: seq<Item>)
    requires multiset(items) == multiset(other) && NothingSplit(items)
    ensures NothingSplit(other)
  {
    SameElements(items, other);
    forall i, j, k | 0 <= i < |other| && 0 <= j < k < |other| ensures !Splits(other[i], other[j], other[k]) {
      var l, m := SamePair(items, other, j, k);
      assert other[i] in items;
      var h :| 0 <= h < |items| && items[h] == other[i];
      assert !Splits(items[h], items[l], items[m]) || !Splits(items[h], items[m], items[l]);
    }
  }

  // ----- groups of entries below one file -----

  /** The paths at which some entry is a file. */
  function Files(items: seq<Item>): set<Path> {
    set x | x in items && x.kind == NonDirectoryTarget :: x.key
  }

  predicate Covered(files: set<Path>, p: Path) {
    exists n | 0 <= n <= |p| :: p[..n] in files
  }

  /** The highest file at or above `p`. */
  function TopFrom(files: set<Path>, p: Path, n: nat): (t: Path)
    requires n <= |p|
    decreases |p| - n
  {
    if p[..n] in files || n == |p| then p[..n] else TopFrom(files, p, n + 1)
  }

  function Top(files: set<Path>, p: Path): Path { TopFrom(files, p, 0) }

  lemma {:induction false} TopIs(files: set<Path>, p: Path, n: nat)
    requires n <= |p| && forall m | 0 <= m < n :: p[..m] !in files
    ensures TopFrom(files, p, n) <= p && forall m | 0 <= m < |TopFrom(files, p, n)| :: p[..m] !in files
    ensures Covered(files, p) ==> TopFrom(files, p, n) in files
    decreases |p| - n
  {
    if p[..n] in files {
    } else if n < |p| {
      TopIs(files, p, n + 1);
    }
  }

  /** A prefix that is covered has the same top. */
  lemma SameTop(files: set<Path>, q: Path, p: Path)
    requires q <= p && Covered(files, q)
    ensures Covered(files, p) && Top(files, p) == Top(files, q)
  {
    TopIs(files, p, 0);
    TopIs(files, q, 0);
    var t, u := Top(files, p), Top(files, q);
    assert forall m | 0 <= m <= |q| :: p[..m] == q[..m];
    assert u == p[..|u|] && t == p[..|t|];
    assert p[..|u|] in files;
  }

  /** The first entry of its group. */
  predicate Leads(files: set<Path>, items: seq<Item>, i: nat)
    requires i < |items|
  {
    Covered(files, items[i].key)
    && forall j | 0 <= j < i && Covered(files, items[j].key) :: Top(files, items[j].key) != Top(files, items[i].key)
  }

  /** A directory entry at a path where no entry is a file. */
  predicate Plain(files: set<Path>, x: Item) {
    Covered(files, x.key) && x.kind == DirectoryTarget && x.key !in files
  }

  predicate Repeats(files: set<Path>, items: seq<Item>, i: nat)
    requires i < |items|
  {
    Plain(files, items[i]) && exists j :: 0 <= j < i && items[j].key == items[i].key
  }

  lemma FileAt(items: seq<Item>, p: Path)
    ensures p in Files(items) <==>
              exists j :: 0 <= j < |items| && items[j].kind == NonDirectoryTarget && items[j].key == p
  {
    if j :| 0 <= j < |items| && items[j].kind == NonDirectoryTarget && items[j].key == p {
      assert items[j] in items;
    }
  }

  /** Of two entries of one group, one is at or above the other, and the upper one is a file. */
  lemma InLine(items: seq<Item>, i: nat, j: nat)
    requires NothingSplit(items) && i < |items| && j < |items| && i != j
    requires var files := Files(items);
             Covered(files, items[i].key) && Covered(files, items[j].key)
             && Top(files, items[i].key) == Top(files, items[j].key)
    ensures OneLine(items[i], items[j])
    ensures items[i].key == items[j].key && items[i].kind == items[j].kind == DirectoryTarget ==>
              items[i].key !in Files(items)
  {
    hide NothingSplit, Splits, OneLine;
    var t := Top(Files(items), items[i].key);
    TopIs(Files(items), items[i].key, 0);
    TopIs(Files(items), items[j].key, 0);
    FileAt(items, t);
    var f :| 0 <= f < |items| && items[f].kind == NonDirectoryTarget && items[f].key == t;
    InLineBelow(items, f, i, j);
    if items[i].key == items[j].key && items[i].key in Files(items) {
      FileAt(items, items[i].key);
      var g :| 0 <= g < |items| && items[g].kind == NonDirectoryTarget && items[g].key == items[i].key;
      InLineBelow(items, g, i, j);
    }
  }

  lemma InLineBelow(items: seq<Item>, f: nat, i: nat, j: nat)
    requires NothingSplit(items) && f < |items| && i < |items| && j < |items| && i != j
    requires items[f].kind == NonDirectoryTarget && items[f].key <= items[i].key && items[f].key <= items[j].key
    ensures OneLine(items[i], items[j])
    ensures items[i].kind == items[j].kind == DirectoryTarget ==> !(items[f].key == items[i].key == items[j].key)
  {
    assert !Splits(items[f], items[i], items[j]) || !Splits(items[f], items[j], items[i]);
  }

  // ----- what is flagged when nothing splits -----

  lemma FlaggedInGroup(items: seq<Item>, i: nat)
    requires OnAbsentDestination(items) && i < |items| && Flag(items, i)
    ensures var files := Files(items);
            Covered(files, items[i].key) && !Leads(files, items, i) && !Repeats(files, items, i)
  {
    var files := Files(items);
    FlagClashes(items, i);
    var j :| 0 <= j < i && Clash(items[j], items[i]);
    FileAt(items, items[i].key);
    FileAt(items, items[j].key);
    assert items[i].key[..|items[i].key|] == items[i].key && items[j].key[..|items[j].key|] == items[j].key;
    if Within(items[i].key, items[j].key) {
      SameTop(files, items[i].key, items[j].key);
    } else {
      SameTop(files, items[j].key, items[i].key);
    }
    if Repeats(files, items, i) { RepeatIsFree(items, i); }
  }

  lemma RepeatIsFree(items: seq<Item>, i: nat)
    requires OnAbsentDestination(items) && i < |items| && Repeats(Files(items), items, i)
    ensures !Flag(items, i)
  {
    var p := items[i].key;
    var w :| 0 <= w < i && items[w].key == p;
    FileAt(items, p);
    assert !Unclaimed(items, i, p);
    forall j: nat | FirstAt(items, i, p, j) ensures Effective(items, j) == DirectoryTarget {
      assert items[j].kind == DirectoryTarget;
    }
  }

  /** An entry behind another of its group is flagged, unless it repeats a plain directory. */
  lemma BehindIsFlagged(items: seq<Item>, i: nat)
    requires OnAbsentDestination(items) && NothingSplit(items) && i < |items|
    requires var files := Files(items);
             Covered(files, items[i].key) && !Leads(files, items, i) && !Repeats(files, items, i)
    ensures Flag(items, i)
  {
    hide NothingSplit, Flag;
    if !Unclaimed(items, i, items[i].key) {
      AtClaimedPath(items, i);
    } else if w :| 0 <= w < i && Within(items[i].key, items[w].key) {
      ClaimedBelow(items, i, w);
    } else {
      ClaimedAbove(items, i);
    }
  }

  lemma AtClaimedPath(items: seq<Item>, i: nat)
    requires OnAbsentDestination(items) && NothingSplit(items) && i < |items|
    requires Covered(Files(items), items[i].key) && !Repeats(Files(items), items, i)
    requires !Unclaimed(items, i, items[i].key)
    ensures Flag(items, i)
  {
    hide NothingSplit, Splits;
    var p, w := items[i].key, i;
    w :| 0 <= w < i && items[w].key == p;
    var g := FirstUpTo(items, w);
    assert FirstAt(items, i, p, g);
    if items[i].kind == DirectoryTarget {
      assert p in Files(items);
      InLine(items, g, i);
      if DirectoryClaimed(items, g, p) {
        var v :| 0 <= v < g && ((items[v].kind == DirectoryTarget && items[v].key == p)
                                || (p != [] && Within(p, items[v].key)));
        SameTop(Files(items), p, items[v].key);
        InLine(items, v, i);
      }
      assert Effective(items, g) == NonDirectoryTarget;
    }
  }

  lemma ClaimedBelow(items: seq<Item>, i: nat, w: nat)
    requires OnAbsentDestination(items) && NothingSplit(items) && i < |items|
    requires Covered(Files(items), items[i].key) && w < i && Within(items[i].key, items[w].key)
    ensures Flag(items, i)
  {
    hide NothingSplit, Splits;
    SameTop(Files(items), items[i].key, items[w].key);
    InLine(items, w, i);
    assert DirectoryClaimed(items, i, items[i].key);
  }

  /** The lowest earlier entry above the `i`-th. */
  lemma LowestAbove(items: seq<Item>, i: nat, w: nat) returns (v: nat)
    requires i < |items| && w < i && Within(items[w].key, items[i].key)
    ensures v < i && Within(items[v].key, items[i].key)
    ensures forall k | 0 <= k < i && Within(items[k].key, items[i].key) :: |items[k].key| <= |items[v].key|
  {
    v := w;
    var k := 0;
    while k < i
      invariant 0 <= k <= i && v < i && Within(items[v].key, items[i].key)
      invariant forall l | 0 <= l < k && Within(items[l].key, items[i].key) :: |items[l].key| <= |items[v].key|
    {
      if Within(items[k].key, items[i].key) && |items[k].key| > |items[v].key| { v := k; }
      k := k + 1;
    }
  }

  lemma ClaimedAbove(items: seq<Item>, i: nat)
    requires OnAbsentDestination(items) && NothingSplit(items) && i < |items|
    requires Covered(Files(items), items[i].key) && !Leads(Files(items), items, i)
    requires Unclaimed(items, i, items[i].key)
    requires forall w | 0 <= w < i :: !Within(items[i].key, items[w].key)
    ensures Flag(items, i)
  {
    hide NothingSplit, Splits, Leads;
    var files, p := Files(items), items[i].key;
    var w := EarlierInGroup(items, i);
    InLine(items, w, i);
    var v := LowestAbove(items, i, w);
    SameGroupAbove(items, i, w, v);
    var g := FirstUpTo(items, v);
    assert FirstAt(items, i, items[g].key, g);
    InLine(items, g, i);
    if DirectoryClaimed(items, g, items[g].key) {
      var u :| 0 <= u < g && ((items[u].kind == DirectoryTarget && items[u].key == items[g].key)
                              || (items[g].key != [] && Within(items[g].key, items[u].key)));
      SameTop(files, items[g].key, items[u].key);
      InLine(items, u, i);
    }
    assert Effective(items, g) == NonDirectoryTarget;
  }

  lemma EarlierInGroup(items: seq<Item>, i: nat) returns (w: nat)
    requires i < |items| && Covered(Files(items), items[i].key) && !Leads(Files(items), items, i)
    ensures w < i && Covered(Files(items), items[w].key)
            && Top(Files(items), items[w].key) == Top(Files(items), items[i].key)
  {
    w :| 0 <= w < i && Covered(Files(items), items[w].key)
         && Top(Files(items), items[w].key) == Top(Files(items), items[i].key);
  }

  /** What is between a member of the group and the `i`-th entry is in the group as well. */
  lemma SameGroupAbove(items: seq<Item>, i: nat, w: nat, v: nat)
    requires i < |items| && w < i && v < i && Within(items[w].key, items[i].key) && Within(items[v].key, items[i].key)
    requires |items[w].key| <= |items[v].key| && Covered(Files(items), items[w].key)
    ensures Covered(Files(items), items[v].key) && Top(Files(items), items[v].key) == Top(Files(items), items[i].key)
  {
    assert items[w].key == items[v].key[..|items[w].key|];
    SameTop(Files(items), items[w].key, items[v].key);
    SameTop(Files(items), items[v].key, items[i].key);
  }

  lemma FlagExactly(items: seq<Item>, i: nat)
    requires OnAbsentDestination(items) && NothingSplit(items) && i < |items|
    ensures var files := Files(items);
            Flag(items, i) <==>
              Covered(files, items[i].key) && !Leads(files, items, i) && !Repeats(files, items, i)
  {
    hide Flag, NothingSplit, Leads, Repeats;
    var files := Files(items);
    if Flag(items, i) { FlaggedInGroup(items, i); }
    if Covered(files, items[i].key) && !Leads(files, items, i) && !Repeats(files, items, i) {
      BehindIsFlagged(items, i);
    }
  }

  // ----- the count when nothing splits -----

  function Tops(files: set<Path>, items: seq<Item>): set<Path> {
    set x | x in items && Covered(files, x.key) :: Top(files, x.key)
  }

  function PlainKeys(files: set<Path>, items: seq<Item>): set<Path> {
    set x | x in items && Plain(files, x) :: x.key
  }

  lemma LeadsExactly(files: set<Path>, items: seq<Item>, i: nat)
    requires i < |items| && Covered(files, items[i].key)
    ensures Leads(files, items, i) <==> Top(files, items[i].key) !in Tops(files, items[..i])
    ensures Tops(files, items[..i + 1]) == Tops(files, items[..i]) + {Top(files, items[i].key)}
  {
    hide Top;
    var before := items[..i];
    assert items[..i + 1] == before + [items[i]];
    forall j | 0 <= j < i ensures items[j] in before { assert before[j] == items[j]; }
    if Top(files, items[i].key) in Tops(files, before) {
      var x :| x in before && Covered(files, x.key) && Top(files, x.key) == Top(files, items[i].key);
      var j :| 0 <= j < i && before[j] == x;
      assert items[j] == x;
    }
  }

  lemma RepeatsExactly(files: set<Path>, items: seq<Item>, i: nat)
    requires files == Files(items) && i < |items| && Plain(files, items[i])
    ensures Repeats(files, items, i) <==> items[i].key in PlainKeys(files, items[..i])
    ensures PlainKeys(files, items[..i + 1]) == PlainKeys(files, items[..i]) + {items[i].key}
    ensures items[i].key in PlainKeys(files, items[..i]) ==> Top(files, items[i].key) in Tops(files, items[..i])
  {
    hide Top;
    var before := items[..i];
    assert items[..i + 1] == before + [items[i]];
    if j :| 0 <= j < i && items[j].key == items[i].key {
      FileAt(items, items[i].key);
      assert before[j] == items[j] && items[j] in before;
    }
    if items[i].key in PlainKeys(files, before) {
      var x :| x in before && Plain(files, x) && x.key == items[i].key;
      var j :| 0 <= j < i && before[j] == x;
      assert items[j] == x;
    }
  }

  lemma NoChange(files: set<Path>, items: seq<Item>, i: nat)
    requires i < |items|
    ensures !Covered(files, items[i].key) ==> Tops(files, items[..i + 1]) == Tops(files, items[..i])
    ensures !Plain(files, items[i]) ==> PlainKeys(files, items[..i + 1]) == PlainKeys(files, items[..i])
  {
    hide Top, Covered;
    assert items[..i + 1] == items[..i] + [items[i]];
  }

  /** One more entry adds to the count unless it leads its group or repeats a directory. */
  lemma CountStep(items: seq<Item>, i: nat)
    requires OnAbsentDestination(items) && NothingSplit(items) && i < |items|
    ensures var files, before, after := Files(items), items[..i], items[..i + 1];
            (if Flag(items, i) then 1 else 0) + |Tops(files, after)| - |Tops(files, before)|
            + (if Plain(files, items[i]) then 1 else 0)
            == (if Covered(files, items[i].key) then 1 else 0) + |PlainKeys(files, after)| - |PlainKeys(files, before)|
  {
    hide Flag, NothingSplit, Leads, Repeats, Covered, Top, Tops, PlainKeys, Files, OnAbsentDestination;
    var files := Files(items);
    FlagExactly(items, i);
    NoChange(files, items, i);
    if Covered(files, items[i].key) {
      LeadsExactly(files, items, i);
      AddOne(Tops(files, items[..i]), Top(files, items[i].key));
    }
    if Plain(files, items[i]) {
      RepeatsExactly(files, items, i);
      AddOne(PlainKeys(files, items[..i]), items[i].key);
    } else {
      PlainRepeats(files, items, i);
    }
  }

  lemma AddOne(s: set<Path>, p: Path)
    ensures |s + {p}| == |s| + if p in s then 0 else 1
  {
    if p in s { assert s + {p} == s; }
  }

  lemma PlainRepeats(files: set<Path>, items: seq<Item>, i: nat)
    requires i < |items| && !Plain(files, items[i])
    ensures !Repeats(files, items, i)
  {
  }

  lemma {:induction false} CountInGroups(items: seq<Item>, n: nat)
    requires OnAbsentDestination(items) && NothingSplit(items) && n <= |items|
    ensures var files, first := Files(items), items[..n];
            Flagged(items, n) + |Tops(files, first)| + CountIf(first, (x: Item) => Plain(files, x))
            == CountIf(first, (x: Item) => Covered(files, x.key)) + |PlainKeys(files, first)|
  {
    hide Flag, NothingSplit, Covered, Plain, Top, Files, OnAbsentDestination;
    if n > 0 {
      CountInGroups(items, n - 1);
      assert items[..n][..n - 1] == items[..n - 1];
      CountStep(items, n - 1);
    }
  }

  lemma SameCount(items: seq<Item>, other: seq<Item>)
    requires OnAbsentDestination(items) && NothingSplit(items) && multiset(items) == multiset(other)
    ensures Flagged(other, |other|) == Flagged(items, |items|)
  {
    hide Flag, Covered, Top, CountIf;
    ZeroOfReorderedItems(items, other);
    NothingSplitReordered(items, other);
    SameElements(items, other);
    var files := Files(items);
    assert Files(other) == files;
    assert Tops(files, other) == Tops(files, items) && PlainKeys(files, other) == PlainKeys(files, items);
    CountInGroups(items, |items|);
    CountInGroups(other, |other|);
    assert items[..|items|] == items && other[..|other|] == other;
    CountReordered(items, other, (x: Item) => Plain(files, x));
    CountReordered(items, other, (x: Item) => Covered(files, x.key));
  }

  // ----- two orders that count differently when something splits -----

  /** The state of the one pass after one more item. */
  function DirectoriesAfter(directories: set<Path>, item: Item): set<Path> { directories + OwnDirectories(item) }

  function OwnDirectories(item: Item): set<Path> {
    (if item.kind == DirectoryTarget then {item.key} else {}) + set k | 0 < k < |item.key| :: item.key[..k]
  }

  function ClaimsAfter(planned: map<Path, Target>, directories: set<Path>, item: Item): map<Path, Target> {
    if item.key in planned then planned
    else planned[item.key := if item.kind == NonDirectoryTarget && item.key in directories then DirectoryTarget
                             else item.kind]
  }

  predicate FlagNow(planned: map<Path, Target>, directories: set<Path>, item: Item) {
    || (item.kind == NonDirectoryTarget && item.key in directories)
    || (item.key in planned && !(planned[item.key] == DirectoryTarget && item.kind == DirectoryTarget))
    || (item.key !in planned && FileAbove(planned, item.key))
  }

  predicate FileAbove(planned: map<Path, Target>, p: Path) {
    exists k | 0 < k < |p| :: p[..k] in planned && planned[p[..k]] == NonDirectoryTarget
  }

  /** One step of the pass on an absent destination. */
  lemma PassStep(items: seq<Item>, item: Item, planned: map<Path, Target>, directories: set<Path>)
    requires Planned(items, planned, directories) && item.key != [] && !item.conflicts && !item.directoryThere
    ensures Planned(items + [item], ClaimsAfter(planned, directories, item), DirectoriesAfter(directories, item))
    ensures Flagged(items + [item], |items| + 1)
            == Flagged(items, |items|) + if FlagNow(planned, directories, item) then 1 else 0
  {
    PlannedDecidesFlag(items, item, planned, directories);
    FlaggedPrefix(items, item, |items|);
    hide Planned, Flag;
    var directories' := DirectoriesAfter(directories, item);
    forall p ensures p in directories' <==>
        p in directories || (item.kind == DirectoryTarget && p == item.key) || (p != [] && Within(p, item.key))
    {
      if p != [] && Within(p, item.key) { assert p == item.key[..|p|]; }
    }
    PlannedAfter(items, item, planned, directories, directories');
  }

  /** The same paths are claimed, and whatever the first pass takes for a directory the second does too. */
  predicate Harder(planned: map<Path, Target>, planned': map<Path, Target>) {
    planned.Keys == planned'.Keys
    && forall p | p in planned && planned[p] == DirectoryTarget :: planned'[p] == DirectoryTarget
  }

  /** Of two passes in such states, the first flags no fewer of the entries that follow. */
  lemma {:induction false} HarderFlagsMore(a: seq<Item>, b: seq<Item>, planned: map<Path, Target>,
                                           planned': map<Path, Target>, directories: set<Path>, rest: seq<Item>)
    requires Planned(a, planned, directories) && Planned(b, planned', directories) && Harder(planned, planned')
    requires Flagged(a, |a|) > Flagged(b, |b|) && OnAbsentDestination(rest)
    ensures Flagged(a + rest, |a + rest|) > Flagged(b + rest, |b + rest|)
    decreases |rest|
  {
    hide Planned, Flag;
    if rest == [] {
      assert a + rest == a && b + rest == b;
    } else {
      var item := rest[0];
      PassStep(a, item, planned, directories);
      PassStep(b, item, planned', directories);
      HarderFlagsMore(a + [item], b + [item], ClaimsAfter(planned, directories, item),
                      ClaimsAfter(planned', directories, item), DirectoriesAfter(directories, item), rest[1..]);
      assert a + rest == a + [item] + rest[1..] && b + rest == b + [item] + rest[1..];
    }
  }

  function Claims3(x: Item, y: Item, z: Item): map<Path, Target> {
    var none: map<Path, Target> := map[];
    var d1 := DirectoriesAfter({}, x);
    ClaimsAfter(ClaimsAfter(ClaimsAfter(none, {}, x), d1, y), DirectoriesAfter(d1, y), z)
  }

  function Directories3(x: Item, y: Item, z: Item): set<Path> {
    DirectoriesAfter(DirectoriesAfter(DirectoriesAfter({}, x), y), z)
  }

  lemma Pass3(x: Item, y: Item, z: Item)
    requires OnAbsentDestination([x, y, z])
    ensures Planned([x, y, z], Claims3(x, y, z), Directories3(x, y, z))
    ensures var none: map<Path, Target> := map[];
            var d1 := DirectoriesAfter({}, x);
            var d2 := DirectoriesAfter(d1, y);
            var p1 := ClaimsAfter(none, {}, x);
            var p2 := ClaimsAfter(p1, d1, y);
            Flagged([x, y, z], 3) == (if FlagNow(none, {}, x) then 1 else 0)
                                     + (if FlagNow(p1, d1, y) then 1 else 0) + (if FlagNow(p2, d2, z) then 1 else 0)
  {
    var all := [x, y, z];
    assert all[0] == x && all[1] == y && all[2] == z;
    hide Planned, Flag, FlagNow, ClaimsAfter, DirectoriesAfter, OnAbsentDestination;
    StartPlanned();
    var none: map<Path, Target> := map[];
    Fits(all);
    PassStep([], x, none, {});
    var d1, p1 := DirectoriesAfter({}, x), ClaimsAfter(none, {}, x);
    assert [] + [x] == [x];
    PassStep([x], y, p1, d1);
    assert [x] + [y] == [x, y];
    PassStep([x, y], z, ClaimsAfter(p1, d1, y), DirectoriesAfter(d1, y));
    assert [x, y] + [z] == all;
  }

  lemma Fits(items: seq<Item>)
    requires OnAbsentDestination(items)
    ensures forall i | 0 <= i < |items| :: items[i].key != [] && !items[i].conflicts && !items[i].directoryThere
  {
  }

  lemma DirectoryPrefixes(directories: set<Path>, item: Item)
    ensures forall p :: p in DirectoriesAfter(directories, item) <==>
              p in directories || (item.kind == DirectoryTarget && p == item.key) || (p != [] && Within(p, item.key))
  {
    forall p | p != [] && Within(p, item.key) ensures p in DirectoriesAfter(directories, item) {
      assert p == item.key[..|p|];
    }
  }

  lemma FileAboveIs(planned: map<Path, Target>, p: Path)
    ensures FileAbove(planned, p) <==>
              exists q :: q in planned && q != [] && Within(q, p) && planned[q] == NonDirectoryTarget
  {
    if q :| q in planned && q != [] && Within(q, p) && planned[q] == NonDirectoryTarget {
      assert p[..|q|] == q;
    }
  }

  /** After the file both others count. */
  lemma FileFirst(f: Item, x: Item, y: Item)
    requires Splits(f, x, y) && OnAbsentDestination([f, x, y])
    ensures Flagged([f, x, y], 3) == 2
    ensures var planned := Claims3(f, x, y);
            && planned.Keys == {f.key, x.key, y.key} && planned[f.key] == NonDirectoryTarget
            && (x.key != f.key ==> planned[x.key] == x.kind) && (y.key != f.key ==> planned[y.key] == y.kind)
  {
    Pass3(f, x, y);
    Fits([f, x, y]);
    assert [f, x, y][0] == f && [f, x, y][1] == x && [f, x, y][2] == y;
    hide Flag, Planned, FileAbove, OnAbsentDestination;
    var none: map<Path, Target> := map[];
    var d1, p1 := DirectoriesAfter({}, f), ClaimsAfter(none, {}, f);
    var p2 := ClaimsAfter(p1, d1, x);
    FileAboveIs(none, f.key);
    FileAboveIs(p1, x.key);
    FileAboveIs(p2, y.key);
    DirectoryPrefixes({}, f);
    DirectoryPrefixes(d1, x);
    hide DirectoriesAfter;
  }

  /** Before the file neither counts, and the file does. */
  lemma FileLast(f: Item, x: Item, y: Item)
    requires Splits(f, x, y) && OnAbsentDestination([x, y, f])
    ensures Flagged([x, y, f], 3) == 1
    ensures var planned := Claims3(x, y, f);
            && planned.Keys == {f.key, x.key, y.key} && planned[f.key] == DirectoryTarget
            && (x.key != f.key ==> planned[x.key] == x.kind) && (y.key != f.key ==> planned[y.key] == y.kind)
  {
    Pass3(x, y, f);
    Fits([x, y, f]);
    assert [x, y, f][0] == x && [x, y, f][1] == y && [x, y, f][2] == f;
    hide Flag, Planned, FileAbove, OnAbsentDestination;
    var none: map<Path, Target> := map[];
    var d1, p1 := DirectoriesAfter({}, x), ClaimsAfter(none, {}, x);
    FileAboveIs(none, x.key);
    FileAboveIs(p1, y.key);
    DirectoryPrefixes({}, x);
    DirectoryPrefixes(d1, y);
    hide DirectoriesAfter;
  }

  lemma SplitCountsDiffer(f: Item, x: Item, y: Item, rest: seq<Item>)
    requires Splits(f, x, y) && OnAbsentDestination([f, x, y] + rest)
    ensures var a, b := [f, x, y] + rest, [x, y, f] + rest; Flagged(a, |a|) > Flagged(b, |b|)
  {
    hide Flag, Flagged, Planned, Splits, ClaimsAfter, DirectoriesAfter, OnAbsentDestination;
    Parts(f, x, y, rest);
    FileFirst(f, x, y);
    FileLast(f, x, y);
    Pass3(f, x, y);
    Pass3(x, y, f);
    SameDirectories(f, x, y);
    hide Claims3, Directories3;
    HarderFlagsMore([f, x, y], [x, y, f], Claims3(f, x, y), Claims3(x, y, f), Directories3(f, x, y), rest);
  }

  lemma Parts(f: Item, x: Item, y: Item, rest: seq<Item>)
    requires OnAbsentDestination([f, x, y] + rest)
    ensures OnAbsentDestination([f, x, y]) && OnAbsentDestination([x, y, f]) && OnAbsentDestination(rest)
  {
    var a := [f, x, y] + rest;
    assert a[0] == f && a[1] == x && a[2] == y;
    forall i | 0 <= i < |rest| ensures rest[i] == a[i + 3] {}
  }

  lemma SameDirectories(f: Item, x: Item, y: Item)
    ensures Directories3(f, x, y) == Directories3(x, y, f)
  {
    hide OwnDirectories;
  }

  // ----- the exact condition -----

  lemma TakeOut(items: seq<Item>, i: nat) returns (rest: seq<Item>)
    requires i < |items|
    ensures rest == items[..i] + items[i + 1..] && multiset(items) == multiset{items[i]} + multiset(rest)
  {
    rest := items[..i] + items[i + 1..];
    MovedToFront(items, i);
  }

  lemma SplitAt(items: seq<Item>) returns (i: nat, j: nat, k: nat)
    requires !NothingSplit(items)
    ensures i < |items| && j < k < |items| && Splits(items[i], items[j], items[k])
  {
    i, j, k :| 0 <= i < |items| && 0 <= j < k < |items| && Splits(items[i], items[j], items[k]);
  }

  /** The entries of a split can be moved to the front. */
  lemma SplitInFront(items: seq<Item>) returns (f: Item, x: Item, y: Item, rest: seq<Item>)
    requires !NothingSplit(items)
    ensures Splits(f, x, y)
    ensures multiset([f, x, y] + rest) == multiset(items) == multiset([x, y, f] + rest)
  {
    hide NothingSplit;
    var i, j, k := SplitAt(items);
    f, x, y := items[i], items[j], items[k];
    FileIsAnother(f, x, y);
    hide Splits;
    var r1 := TakeOut(items, j);
    assert r1[k - 1] == y;
    var r2 := TakeOut(r1, k - 1);
    StillThere(items, r1, r2, f, x, y);
    var l :| 0 <= l < |r2| && r2[l] == f;
    rest := TakeOut(r2, l);
    Gather(items, r1, r2, f, x, y, rest);
  }

  lemma FileIsAnother(f: Item, x: Item, y: Item)
    requires Splits(f, x, y)
    ensures f != x && f != y
  {
  }

  lemma StillThere(items: seq<Item>, r1: seq<Item>, r2: seq<Item>, f: Item, x: Item, y: Item)
    requires multiset(items) == multiset{x} + multiset(r1) && multiset(r1) == multiset{y} + multiset(r2)
    requires f in items && f != x && f != y
    ensures f in r2
  {
    assert f in multiset(items);
    assert multiset(items)[f] == multiset(r1)[f] == multiset(r2)[f];
  }

  lemma Gather(items: seq<Item>, r1: seq<Item>, r2: seq<Item>, f: Item, x: Item, y: Item, rest: seq<Item>)
    requires multiset(items) == multiset{x} + multiset(r1) && multiset(r1) == multiset{y} + multiset(r2)
    requires multiset(r2) == multiset{f} + multiset(rest)
    ensures multiset([f, x, y] + rest) == multiset(items) == multiset([x, y, f] + rest)
  {
    ThreeInFront(f, x, y, rest);
    ThreeInFront(x, y, f, rest);
    Rotate(multiset{f}, multiset{x}, multiset{y}, multiset(rest));
  }

  lemma ThreeInFront(x: Item, y: Item, z: Item, rest: seq<Item>)
    ensures multiset([x, y, z] + rest) == multiset{x} + (multiset{y} + (multiset{z} + multiset(rest)))
  {
    InFront(z, rest);
    InFront(y, [z] + rest);
    InFront(x, [y] + ([z] + rest));
    assert [x, y, z] + rest == [x] + ([y] + ([z] + rest));
  }

  lemma Rotate(a: multiset<Item>, b: multiset<Item>, c: multiset<Item>, d: multiset<Item>)
    ensures a + (b + (c + d)) == b + (c + (a + d))
  {
  }

  /** Every order of the entries gives the same count. */
  ghost predicate OrderFree(items: seq<Item>) {
    forall other: seq<Item> | multiset(other) == multiset(items) ::
      Flagged(other, |other|) == Flagged(items, |items|)
  }

  /** On an absent destination the count is the same for every order of the entries exactly when no
      file has its path made a directory in two separate ways. */
  lemma CountIsOrderFreeExactly(items: seq<Item>)
    requires OnAbsentDestination(items)
    ensures OrderFree(items) <==> NothingSplit(items)
  {
    hide Flag, Flagged, NothingSplit, Splits, OnAbsentDestination;
    if NothingSplit(items) {
      forall other: seq<Item> | multiset(other) == multiset(items)
        ensures Flagged(other, |other|) == Flagged(items, |items|)
      {
        SameCount(items, other);
      }
    } else {
      var a, b := OrdersThatDiffer(items);
    }
  }

  lemma OrdersThatDiffer(items: seq<Item>) returns (a: seq<Item>, b: seq<Item>)
    requires OnAbsentDestination(items) && !NothingSplit(items)
    ensures multiset(a) == multiset(items) == multiset(b)
    ensures Flagged(a, |a|) != Flagged(b, |b|)
  {
    hide Flag, Flagged, NothingSplit, Splits, OnAbsentDestination;
    var f, x, y, rest := SplitInFront(items);
    a, b := [f, x, y] + rest, [x, y, f] + rest;
    ZeroOfReorderedItems(items, a);
    SplitCountsDiffer(f, x, y, rest);
  }

  // ----- the archive's own order -----

  function OwnItems(fold: Fold, wanted: Option<set<seq<nat>>>, e: Entry): seq<Item>
    requires Contribution(fold, wanted, e).Ok?
  {
    var own := Contribution(fold, wanted, e).value;
    if own.Some? then [own.value] else []
  }

  /** An entry in front puts its item in front. */
  lemma {:induction false} ItemsInFront(fs: FileSystem, fold: Fold, wanted: Option<set<seq<nat>>>, e: Entry,
                                        es: seq<Entry>, n: nat)
    requires n <= |es| && Contribution(fold, wanted, e).Ok? && Items(fs, false, fold, wanted, es, n).Ok?
    ensures var r := Items(fs, false, fold, wanted, [e] + es, n + 1);
            r.Ok? && r.value == OwnItems(fold, wanted, e) + Items(fs, false, fold, wanted, es, n).value
  {
    hide Items, Contribution, OwnItems;
    var all := [e] + es;
    ItemsBehind(fs, fold, wanted, all, n);
    if n == 0 {
      NoItems(fs, fold, wanted, all);
      NoItems(fs, fold, wanted, es);
      assert all[0] == e;
      assert [] + OwnItems(fold, wanted, e) == OwnItems(fold, wanted, e) + [];
    } else {
      ItemsBehind(fs, fold, wanted, es, n - 1);
      ItemsInFront(fs, fold, wanted, e, es, n - 1);
      assert all[n] == es[n - 1];
    }
  }

  lemma NoItems(fs: FileSystem, fold: Fold, wanted: Option<set<seq<nat>>>, entries: seq<Entry>)
    ensures Items(fs, false, fold, wanted, entries, 0) == Ok([])
  {
  }

  /** The items after one more entry. */
  lemma ItemsBehind(fs: FileSystem, fold: Fold, wanted: Option<set<seq<nat>>>, entries: seq<Entry>, n: nat)
    requires n < |entries|
    ensures var before, own := Items(fs, false, fold, wanted, entries, n), Contribution(fold, wanted, entries[n]);
            var after := Items(fs, false, fold, wanted, entries, n + 1);
            && (after.Ok? <==> before.Ok? && own.Ok?)
            && (after.Ok? ==> after.value == before.value + OwnItems(fold, wanted, entries[n]))
  {
    hide Key;
  }

  /** Every order of the items comes from an order of the entries. */
  lemma {:induction false} OrderOfEntries(fs: FileSystem, fold: Fold, wanted: Option<set<seq<nat>>>,
                                          entries: seq<Entry>, order: seq<Item>) returns (other: seq<Entry>)
    requires Items(fs, false, fold, wanted, entries, |entries|).Ok?
    requires multiset(Items(fs, false, fold, wanted, entries, |entries|).value) == multiset(order)
    ensures multiset(other) == multiset(entries)
    ensures Items(fs, false, fold, wanted, other, |other|) == Ok(order)
    decreases |order|
  {
    hide Items, Contribution, CountIf;
    var items := Items(fs, false, fold, wanted, entries, |entries|).value;
    assert |items| == |multiset(items)| == |multiset(order)| == |order|;
    if order == [] {
      assert items == [];
      other := entries;
    } else {
      assert [order[0]] + order[1..] == order;
      var m := EntryOf(fs, fold, wanted, entries, order[0]);
      var e, rest := entries[m], entries[..m] + entries[m + 1..];
      WithoutEntry(fs, fold, wanted, entries, m, order);
      other := OrderOfEntries(fs, fold, wanted, rest, order[1..]);
      ItemsInFront(fs, fold, wanted, e, other, |other|);
      InFront(e, other);
      MovedToFront(entries, m);
      other := [e] + other;
    }
  }

  lemma EntryOf(fs: FileSystem, fold: Fold, wanted: Option<set<seq<nat>>>, entries: seq<Entry>, x: Item)
    returns (m: nat)
    requires Items(fs, false, fold, wanted, entries, |entries|).Ok?
    requires multiset(Items(fs, false, fold, wanted, entries, |entries|).value)[x] > 0
    ensures m < |entries| && Contribution(fold, wanted, entries[m]) == Ok(Some(x))
  {
    hide Items, Contribution, CountIf;
    ItemsByEntry(fs, fold, wanted, entries, |entries|);
    assert entries[..|entries|] == entries;
    m := CountedSomewhere(entries, (e: Entry) => Contributes(fold, wanted, e, x));
  }

  /** What the other entries contribute when the `m`-th contributes the first item. */
  lemma WithoutEntry(fs: FileSystem, fold: Fold, wanted: Option<set<seq<nat>>>, entries: seq<Entry>, m: nat,
                     order: seq<Item>)
    requires Items(fs, false, fold, wanted, entries, |entries|).Ok? && order != []
    requires multiset(Items(fs, false, fold, wanted, entries, |entries|).value) == multiset(order)
    requires m < |entries| && Contribution(fold, wanted, entries[m]) == Ok(Some(order[0]))
    ensures var rest := entries[..m] + entries[m + 1..];
            && Items(fs, false, fold, wanted, rest, |rest|).Ok?
            && multiset(Items(fs, false, fold, wanted, rest, |rest|).value) == multiset(order[1..])
  {
    hide Items, Contribution, CountIf;
    var e, rest := entries[m], entries[..m] + entries[m + 1..];
    MovedToFront(entries, m);
    ItemsReordered(fs, fold, wanted, entries, [e] + rest);
    OthersContribute(fs, fold, wanted, entries, m);
    ItemsInFront(fs, fold, wanted, e, rest, |rest|);
    var items := Items(fs, false, fold, wanted, rest, |rest|).value;
    assert OwnItems(fold, wanted, e) == [order[0]];
    assert [order[0]] + order[1..] == order;
    InFront(order[0], items);
    InFront(order[0], order[1..]);
    Cancel(multiset{order[0]}, multiset(items), multiset(order[1..]));
  }

  lemma Cancel(a: multiset<Item>, b: multiset<Item>, c: multiset<Item>)
    requires a + b == a + c
    ensures b == c
  {
    assert b == a + b - a && c == a + c - a;
  }

  lemma OthersContribute(fs: FileSystem, fold: Fold, wanted: Option<set<seq<nat>>>, entries: seq<Entry>, m: nat)
    requires m < |entries| && Items(fs, false, fold, wanted, entries, |entries|).Ok?
    ensures var rest := entries[..m] + entries[m + 1..]; Items(fs, false, fold, wanted, rest, |rest|).Ok?
  {
    hide Items, Contribution, CountIf;
    var rest := entries[..m] + entries[m + 1..];
    ItemsByEntry(fs, fold, wanted, entries, |entries|);
    ItemsByEntry(fs, fold, wanted, rest, |rest|);
    forall i | 0 <= i < |rest| ensures Contribution(fold, wanted, rest[i]).Ok? {
      assert rest[i] == entries[if i < m then i else i + 1];
    }
  }

  /** Every order of the archive's entries gives the same estimate. */
  ghost predicate ArchiveOrderFree(fs: FileSystem, fold: Fold, wanted: Option<set<seq<nat>>>, entries: seq<Entry>)
    requires Items(fs, false, fold, wanted, entries, |entries|).Ok?
  {
    var items := Items(fs, false, fold, wanted, entries, |entries|).value;
    forall other: seq<Entry> | multiset(other) == multiset(entries) ::
      var r := Items(fs, false, fold, wanted, other, |other|);
      r.Ok? && Flagged(r.value, |r.value|) == Flagged(items, |items|)
  }

  /** For a destination that does not exist, the estimate is the same for every order of the
      archive's entries exactly when no file has its path made a directory in two separate ways. */
  lemma EstimateIsOrderFreeExactly(fs: FileSystem, fold: Fold, wanted: Option<set<seq<nat>>>, entries: seq<Entry>)
    requires forall e | e in entries :: e.Valid()
    requires Items(fs, false, fold, wanted, entries, |entries|).Ok?
    ensures ArchiveOrderFree(fs, fold, wanted, entries)
            <==> NothingSplit(Items(fs, false, fold, wanted, entries, |entries|).value)
  {
    hide Items, Flag, Flagged, NothingSplit, OnAbsentDestination;
    var items := Items(fs, false, fold, wanted, entries, |entries|).value;
    AbsentDestinationItems(fs, fold, wanted, entries, |entries|);
    if NothingSplit(items) {
      forall other: seq<Entry> | multiset(other) == multiset(entries)
        ensures var r := Items(fs, false, fold, wanted, other, |other|);
                r.Ok? && Flagged(r.value, |r.value|) == Flagged(items, |items|)
      {
        ItemsReordered(fs, fold, wanted, entries, other);
        SameCount(items, Items(fs, false, fold, wanted, other, |other|).value);
      }
    } else {
      var a, b := OrdersThatDiffer(items);
      var es := OrderOfEntries(fs, fold, wanted, entries, a);
      var es' := OrderOfEntries(fs, fold, wanted, entries, b);
      assert Flagged(a, |a|) != Flagged(items, |items|) || Flagged(b, |b|) != Flagged(items, |items|);
    }
  }
}
