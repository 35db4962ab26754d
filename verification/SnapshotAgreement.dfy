/** When the directory cache answers like direct lookups. */
module SnapshotAgreement {
  import opened Options
  import opened AsciiText
  import opened DestinationSnapshot

  lemma {:induction false} HashesOf(hash: (Path, string) -> nat, d: Path, items: seq<Option<Listed>>, i: nat)
    requires i <= |items| && forall k | 0 <= k < i :: items[k].Some?
    ensures forall h :: h in ChildHashes(hash, d, items, i) <==>
              exists k :: 0 <= k < i && CaseHash(hash, d + [items[k].value.name]) == Some(h)
  {
    hide CaseHash;
    if i > 0 { HashesOf(hash, d, items, i - 1); }
  }

  lemma {:induction false} HashesAboveOf(cfg: Config, p: Path, k: nat, h: nat)
    requires k <= |p|
    ensures h in HashesAbove(cfg, p, k) <==> exists j | 0 <= j < k :: HashListed(cfg, p[..j], h)
  {
    hide CaseHash;
    if k > 0 {
      HashesAboveOf(cfg, p, k - 1, h);
      var d := p[..k - 1];
      if Readable(cfg.fs, d) { HashesOf(cfg.hash, d, cfg.fs.list(d).value, |cfg.fs.list(d).value|); }
    }
  }

  /** A directory whose listing has just been read infers exactly the absences that a listing
      without aliases and without colliding hashes implies. */
  lemma InfersExactly(cfg: Config, d: Path, n: Name)
    requires Readable(cfg.fs, d) && !Lists(cfg.fs.list(d).value, n)
    ensures Parent(d + [n]) == d
    ensures var items := cfg.fs.list(d).value;
            Infers(cfg, CacheAbove(cfg, d + [n]), d + [n]) <==>
              !MayBeListed(n, items) && (items == [] || !Collides(cfg, d + [n]))
  {
    hide MayBeNativeAlias, AsciiChar, Unfolded, LowerAll, Children, ByteLength, HashesAbove, CaseHash;
    var p, items := d + [n], cfg.fs.list(d).value;
    assert Parent(p) == d && Last(p) == n && p[..|d|] == d;
    if items != [] {
      if IsAscii(n) && !MayBeNativeAlias(n) {
        CaseHashOf(cfg.hash, d, n);
        HashesAboveOf(cfg, p, |p|, CaseHash(cfg.hash, p).value);
        SameLettersCollide(cfg, d, n);
      } else {
        assert MayAlias(n, items[0].value.name);
        if !IsAscii(n) { CaseHashOf(cfg.hash, d, n); }
      }
    }
  }

  lemma CaseHashOf(hash: (Path, string) -> nat, d: Path, n: Name)
    ensures CaseHash(hash, d + [n]) == if IsAscii(n) then Some(hash(d, LowerAll(n.chars))) else None
  {
    hide IsAscii, LowerAll;
    assert Parent(d + [n]) == d && Last(d + [n]) == n;
  }

  /** Names that differ in case only have one hash. */
  lemma SameLettersCollide(cfg: Config, d: Path, n: Name)
    requires Readable(cfg.fs, d) && IsAscii(n) && n.Text?
    ensures var items := cfg.fs.list(d).value;
            (exists i | 0 <= i < |items| ::
               IsAscii(items[i].value.name) && items[i].value.name.Text?
               && LowerAll(items[i].value.name.chars) == LowerAll(n.chars))
            ==> Collides(cfg, d + [n])
  {
    hide IsAscii, LowerAll, CaseHash;
    var items, p := cfg.fs.list(d).value, d + [n];
    CaseHashOf(cfg.hash, d, n);
    if i :| 0 <= i < |items| && IsAscii(items[i].value.name) && items[i].value.name.Text?
            && LowerAll(items[i].value.name.chars) == LowerAll(n.chars) {
      CaseHashOf(cfg.hash, d, items[i].value.name);
      assert p[..|d|] == d;
      assert HashListed(cfg, p[..|d|], CaseHash(cfg.hash, p).value);
    }
  }

  /** What an inferred absence rests on: an empty listing, or a plain name that is too long for an
      alternate name and has no tilde, in a listing of names that are ASCII or far from it and none of
      which has the same letters. */
  lemma OnlyLongPlainNamesAreInferred(cfg: Config, c: Cache, p: Path)
    requires ValidCache(cfg, c) && p != [] && p !in c.nodes && Parent(p) in c.directories && Infers(cfg, c, p)
    ensures cfg.fs.list(Parent(p)).Some? && AllRead(cfg.fs.list(Parent(p)).value)
    ensures var n, items := Last(p), cfg.fs.list(Parent(p)).value;
            items != [] ==>
              && n.Text? && |n.chars| > 12 && '~' !in n.chars
              && (forall i | 0 <= i < |n.chars| :: n.chars[i] as int < 128)
              && forall i | 0 <= i < |items| ::
                   var l := items[i].value.name;
                   && l.Text? && LowerAll(l.chars) != LowerAll(n.chars)
                   && forall k | 0 <= k < |l.chars| :: l.chars[k] as int < 128 || l.chars[k] as int >= 0x3400
  {
    hide LowerAll, ByteLength;
    var d, n := Parent(p), Last(p);
    assert p == d + [n];
    assert StateHolds(cfg.fs, cfg.hash, c.nodes.Keys, c.asciiCaseAliases, d, c.directories[d]);
    var items := cfg.fs.list(d).value;
    if items != [] {
      assert Ascii(n.chars);
      AsciiLength(n.chars);
      forall i | 0 <= i < |items|
        ensures var l := items[i].value.name;
                && l.Text? && LowerAll(l.chars) != LowerAll(n.chars)
                && forall k | 0 <= k < |l.chars| :: l.chars[k] as int < 128 || l.chars[k] as int >= 0x3400
      {
        var l := items[i].value.name;
        assert Parent(d + [l]) == d && Last(d + [l]) == l;
        if !IsAscii(l) { OtherLetters(l.chars, n.chars); }
      }
    }
  }

  lemma OtherLetters(a: string, b: string)
    requires Ascii(b) && !Ascii(a)
    ensures LowerAll(a) != LowerAll(b)
  {
    if |a| == |b| {
      var k :| 0 <= k < |a| && a[k] >= 128 as char;
      assert LowerAll(a)[k] == a[k] && LowerAll(b)[k] == Lower(b[k]);
    }
  }

  /** What a name below a readable directory is taken for. */
  lemma TakenFor(cfg: Config, d: Path, n: Name)
    requires Readable(cfg.fs, d) && NamesDistinct(cfg.fs.list(d).value)
    ensures var items := cfg.fs.list(d).value;
            && (forall i | 0 <= i < |items| && items[i].value.name == n ::
                  Taken(cfg, d + [n]) == Ok(items[i].value.node))
            && (!Lists(items, n) ==>
                  Taken(cfg, d + [n])
                  == if MayBeListed(n, items) || (items != [] && Collides(cfg, d + [n])) then cfg.fs.inspect(d + [n])
                     else Ok(Missing))
  {
    hide Infers, MayBeListed, Collides, Classified, Children, HashesAbove;
    var items := cfg.fs.list(d).value;
    assert Parent(d + [n]) == d;
    ChildrenCount(d, items, |items|);
    if !Lists(items, n) { InfersExactly(cfg, d, n); }
  }

  ghost predicate TakenRight(cfg: Config, d: Path) {
    forall n: Name | Proper(n) :: Taken(cfg, d + [n]) == cfg.fs.inspect(d + [n])
  }

  /** Names of one directory are taken for what they are exactly when listing and lookups agree there. */
  lemma TakenRightExactly(cfg: Config, d: Path)
    requires Readable(cfg.fs, d) && NamesProper(cfg.fs.list(d).value)
    ensures TakenRight(cfg, d) <==> LookupsAgree(cfg, d)
  {
    hide Taken, Collides, Proper;
    var items := cfg.fs.list(d).value;
    forall n: Name ensures MayBeListed(n, items) || !Lists(items, n) {}
    forall n: Name {:trigger Taken(cfg, d + [n])}
      ensures forall i | 0 <= i < |items| && items[i].value.name == n :: Taken(cfg, d + [n]) == Ok(items[i].value.node)
      ensures !Lists(items, n) ==>
                Taken(cfg, d + [n])
                == if MayBeListed(n, items) || (items != [] && Collides(cfg, d + [n])) then cfg.fs.inspect(d + [n])
                   else Ok(Missing)
    {
      TakenFor(cfg, d, n);
    }
  }

  lemma ObservedIsExact(a: Result<Node>, b: Result<Node>)
    requires Observed(a, DirectoryTarget) == Observed(b, DirectoryTarget)
    requires Observed(a, NonDirectoryTarget) == Observed(b, NonDirectoryTarget)
    ensures a == b
  {
  }

  /** A walk that gets through the directories of a target shows its last component. */
  lemma {:induction false} WalkThrough(fs: FileSystem, d: Path, n: Name, kind: Target, k: nat)
    requires k <= |d| && Reached(fs, d)
    ensures Walk(fs, d + [n], kind, k) == Observed(fs.inspect(d + [n]), kind)
    decreases |d| - k
  {
    var target := d + [n];
    if k < |d| {
      WalkThrough(fs, d, n, kind, k + 1);
      assert target[..k + 1] == d[..k + 1];
      assert Passed(fs, d[..k + 1]);
    } else {
      assert target[..k + 1] == target;
    }
  }

  lemma ReachedBelow(fs: FileSystem, d: Path, n: Name)
    ensures Reached(fs, d + [n]) <==> Reached(fs, d) && Passed(fs, d + [n])
  {
    var p := d + [n];
    forall k | 0 < k <= |d| ensures Passed(fs, p[..k]) <==> Passed(fs, d[..k]) {
      assert p[..k] == d[..k];
    }
    assert p[..|p|] == p;
    if Reached(fs, d) && Passed(fs, p) {
      forall k | 0 < k <= |p| ensures Passed(fs, p[..k]) {
        assert k == |p| || Passed(fs, d[..k]);
      }
    }
  }

  /** The walk of a fresh snapshot with room gives the answer of the walk over lookups, for every target. */
  ghost predicate WalksAgree(cfg: Config) {
    forall target, kind | ProperPath(target) :: Walk(Seen(cfg), target, kind, 0) == Walk(cfg.fs, target, kind, 0)
  }

  /** If all walks agree, the snapshot reaches what lookups reach and takes it for what it is. */
  lemma {:induction false} AgreeingWalks(cfg: Config, d: Path)
    requires WalksAgree(cfg) && ProperPath(d) && Reached(cfg.fs, d)
    ensures Reached(Seen(cfg), d) && TakenRight(cfg, d)
    decreases |d|
  {
    hide Taken, Walk, Observed, Reached, Proper;
    if d == [] {
      NothingToReach(Seen(cfg));
    } else {
      var parent, name := Parent(d), Last(d);
      assert d == parent + [name];
      ReachedBelow(cfg.fs, parent, name);
      AgreeingWalks(cfg, parent);
      ReachedBelow(Seen(cfg), parent, name);
      assert Proper(name);
    }
    forall n: Name | Proper(n) ensures Taken(cfg, d + [n]) == cfg.fs.inspect(d + [n]) {
      forall kind ensures Observed(Taken(cfg, d + [n]), kind) == Observed(cfg.fs.inspect(d + [n]), kind) {
        WalkThrough(cfg.fs, d, n, kind, 0);
        WalkThrough(Seen(cfg), d, n, kind, 0);
        assert ProperPath(d + [n]);
      }
      ObservedIsExact(Taken(cfg, d + [n]), cfg.fs.inspect(d + [n]));
    }
  }

  lemma NothingToReach(fs: FileSystem)
    ensures Reached(fs, [])
  {
  }

  /** If names are taken for what they are wherever lookups lead, all walks agree. */
  lemma {:induction false} AgreeFrom(cfg: Config, target: Path, kind: Target, k: nat)
    requires ProperPath(target) && k <= |target| && Reached(cfg.fs, target[..k])
    requires forall d | ProperPath(d) && Reached(cfg.fs, d) :: TakenRight(cfg, d)
    ensures Walk(Seen(cfg), target, kind, k) == Walk(cfg.fs, target, kind, k)
    decreases |target| - k
  {
    hide Taken, Reached, Proper;
    if k < |target| {
      var d, n := target[..k], target[k];
      assert target[..k + 1] == d + [n];
      assert ProperPath(d);
      assert TakenRight(cfg, d);
      assert Proper(n);
      ReachedBelow(cfg.fs, d, n);
      if Passed(cfg.fs, d + [n]) { AgreeFrom(cfg, target, kind, k + 1); }
    }
  }

  /** A fresh snapshot with room agrees with the walk over lookups on every target exactly when
      listing and lookups agree in every readable directory that a walk over lookups reaches. */
  lemma FreshAgreesExactly(cfg: Config)
    requires ListingsProper(cfg.fs)
    ensures WalksAgree(cfg) <==>
              (forall d | ProperPath(d) && Reached(cfg.fs, d) && Readable(cfg.fs, d) :: LookupsAgree(cfg, d))
  {
    hide Walk, Seen, Reached, LookupsAgree, ProperPath, Readable, ListingsProper, TakenRight;
    if WalksAgree(cfg) {
      forall d | ProperPath(d) && Reached(cfg.fs, d) && Readable(cfg.fs, d) ensures LookupsAgree(cfg, d) {
        AgreeingWalks(cfg, d);
        TakenRightWhere(cfg, d);
      }
    }
    if forall d | ProperPath(d) && Reached(cfg.fs, d) && Readable(cfg.fs, d) :: LookupsAgree(cfg, d) {
      forall d | ProperPath(d) && Reached(cfg.fs, d) ensures TakenRight(cfg, d) { TakenRightWhere(cfg, d); }
      forall target, kind | ProperPath(target)
        ensures Walk(Seen(cfg), target, kind, 0) == Walk(cfg.fs, target, kind, 0)
      {
        NothingToReach(cfg.fs);
        assert target[..0] == [];
        AgreeFrom(cfg, target, kind, 0);
      }
      assert WalksAgree(cfg);
    }
  }

  lemma TakenRightWhere(cfg: Config, d: Path)
    requires ListingsProper(cfg.fs)
    ensures Readable(cfg.fs, d) ==> (TakenRight(cfg, d) <==> LookupsAgree(cfg, d))
    ensures !Readable(cfg.fs, d) ==> TakenRight(cfg, d)
  {
    hide LookupsAgree, TakenRight;
    if Readable(cfg.fs, d) {
      TakenRightExactly(cfg, d);
    } else {
      UnreadableTaken(cfg, d);
    }
  }

  lemma UnreadableTaken(cfg: Config, d: Path)
    requires !Readable(cfg.fs, d)
    ensures TakenRight(cfg, d)
  {
    forall n: Name ensures Parent(d + [n]) == d {}
  }

  /** A coherent destination agrees everywhere, whatever the hash. */
  lemma CoherentAgrees(cfg: Config, d: Path)
    requires Coherent(cfg.fs) && Readable(cfg.fs, d)
    ensures LookupsAgree(cfg, d)
  {
    assert CoherentAt(cfg.fs, d, cfg.fs.list(d).value);
  }

  /** With room, a fresh snapshot walks the destination as it sees it. */
  method FreshConflict(cfg: Config, target: Path, kind: Target) returns (r: Result<Observation>)
    ensures Room(cfg, target) && ListingsProper(cfg.fs) ==> r == Walk(Seen(cfg), target, kind, 0)
  {
    hide Room, Walk, Seen;
    var snapshot := new Snapshot(cfg, true);
    ghost var first;
    r, first := snapshot.Conflicts(target, kind);
  }

  lemma WalkOne(fs: FileSystem, n: Name, kind: Target)
    ensures Walk(fs, [n], kind, 0) == Observed(fs.inspect([n]), kind)
  {
    assert [n][..1] == [n];
  }

  /** A directory that can be listed but not searched: the snapshot reports a conflict where
      every lookup fails. */
  method UnsearchableDirectory(cfg: Config, n: Name) returns (r: Result<Observation>)
    requires cfg.budget == DEFAULT_BUDGET && cfg.base + cfg.base + 1 + NameBytes(n) <= DEFAULT_BUDGET.cachedPathBytes
    requires cfg.fs.list([]) == Some([Some(Listed(n, NonDirectory))]) && cfg.fs.inspect([n]).Err?
    ensures r == Ok(Observation(true, NonDirectory))
    ensures Walk(cfg.fs, [n], NonDirectoryTarget, 0) == Err(cfg.fs.inspect([n]).error)
  {
    hide Loaded, Roomy, Refused, Walk, Observed, AnswerOr;
    OneChild(cfg, n);
    var snapshot := new Snapshot(cfg, true);
    ghost var first;
    r, first := snapshot.Conflicts([n], NonDirectoryTarget);
    RoomyIsNotRefused(cfg, FRESH, [], [Some(Listed(n, NonDirectory))]);
    UnsearchableAnswer(cfg, n);
    WalkOne(cfg.fs, n, NonDirectoryTarget);
  }

  lemma RoomyIsNotRefused(cfg: Config, c: Cache, d: Path, items: seq<Option<Listed>>)
    requires Roomy(cfg, c, d, items)
    ensures AllRead(items) && !Refused(cfg, c, d)
  {
    hide SumBytes, PathBytes;
  }

  lemma OneChild(cfg: Config, n: Name)
    requires cfg.budget == DEFAULT_BUDGET && cfg.base + cfg.base + 1 + NameBytes(n) <= DEFAULT_BUDGET.cachedPathBytes
    ensures Roomy(cfg, FRESH, [], [Some(Listed(n, NonDirectory))])
  {
    hide NameBytes;
    var items := [Some(Listed(n, NonDirectory))];
    assert [] + [n] == [n] && [n][..0] == [];
    assert Children([], items, 1) == Children([], items, 0)[[n] := NonDirectory];
    assert Children([], items, 1).Keys == {} + {[n]};
    SumInsert(cfg.base, {}, [n]);
    assert PathBytes(cfg.base, [n]) == cfg.base + 1 + NameBytes(n);
    var none: set<Path> := {};
    assert SumBytes(cfg.base, none) == 0;
    assert SumBytes(cfg.base, Children([], items, 1).Keys) == cfg.base + 1 + NameBytes(n);
    assert |items| == 1 && AllRead(items);
    assert !Refused(cfg, FRESH, []);
  }

  lemma UnsearchableAnswer(cfg: Config, n: Name)
    requires cfg.fs.inspect([n]).Err?
    ensures Observed(AnswerOr(cfg, Loaded(cfg, FRESH, [], [Some(Listed(n, NonDirectory))]), [n]), NonDirectoryTarget)
            == Ok(Observation(true, NonDirectory))
    ensures Observed(cfg.fs.inspect([n]), NonDirectoryTarget) == Err(cfg.fs.inspect([n]).error)
  {
    hide SumBytes, PathBytes, NameBytes;
    var items := [Some(Listed(n, NonDirectory))];
    assert [] + [n] == [n];
    assert Children([], items, 1) == Children([], items, 0)[[n] := NonDirectory];
    assert [n] in Loaded(cfg, FRESH, [], items).nodes;
  }

  /** When the destination is left to single lookups the snapshot agrees with the walk, coherent or not. */
  lemma PointLookupsAgree(cfg: Config, c: Cache, n: Name, kind: Target)
    requires [n] !in c.nodes && ([] in c.directories ==> c.directories[[]] == PointLookup)
    ensures Observed(AnswerOr(cfg, c, [n]), kind) == Walk(cfg.fs, [n], kind, 0)
  {
    hide PathBytes;
    assert Parent([n]) == [];
    WalkOne(cfg.fs, n, kind);
  }
}
