/** What the walk to a planned target says, in terms of single lookups. */
module SnapshotWalk {
  import opened Options
  import opened DestinationSnapshot

  /** Every directory on the way can be entered. */
  predicate Arrives(fs: FileSystem, target: Path) { forall k | 0 < k < |target| :: Passed(fs, target[..k]) }

  /** Something is at the target. */
  predicate There(fs: FileSystem, target: Path) {
    Arrives(fs, target) && fs.inspect(target).Ok? && fs.inspect(target).value != Missing
  }

  lemma {:induction false} WalkPasses(fs: FileSystem, target: Path, kind: Target, k: nat)
    requires k < |target| && forall j | 0 < j <= k :: Passed(fs, target[..j])
    ensures Walk(fs, target, kind, 0) == Walk(fs, target, kind, k)
  {
    if k > 0 {
      WalkPasses(fs, target, kind, k - 1);
      assert Passed(fs, target[..k]);
    }
  }

  /** Where every directory on the way can be entered, the last lookup decides: it is an error when
      that fails or when a directory is to be where something else is; a conflict is exactly a file
      to be where something is. */
  lemma WalkArrives(fs: FileSystem, target: Path, kind: Target)
    requires target != [] && Arrives(fs, target)
    ensures var r := Walk(fs, target, kind, 0);
            match fs.inspect(target)
            case Err(e) => r == Err(e)
            case Ok(node) =>
              && (r.Err? <==> kind == DirectoryTarget && (node == Symlink || node == NonDirectory))
              && (r.Err? ==> r.error == NotADirectory)
              && (r.Ok? ==> r.value.finalNode == node
                            && (r.value.conflicts <==> kind == NonDirectoryTarget && node != Missing))
  {
    WalkPasses(fs, target, kind, |target| - 1);
    assert target[..|target|] == target;
  }

  /** Otherwise the first directory that cannot be entered decides. */
  lemma WalkStops(fs: FileSystem, target: Path, kind: Target, k: nat)
    requires 0 < k < |target| && forall j | 0 < j < k :: Passed(fs, target[..j])
    ensures var r, node := Walk(fs, target, kind, 0), fs.inspect(target[..k]);
            && (node.Err? ==> r == Err(node.error))
            && (node == Ok(Missing) ==> r == Ok(Observation(false, Missing)))
            && (node == Ok(NonDirectory) ==> r == Err(NotADirectory))
            && (node == Ok(Symlink) && fs.descend(target[..k]).Some? ==> r == Err(fs.descend(target[..k]).value))
    ensures var node := fs.inspect(target[..k]);
            !Passed(fs, target[..k]) <==>
            || node.Err? || node == Ok(Missing) || node == Ok(NonDirectory)
            || (node == Ok(Symlink) && fs.descend(target[..k]).Some?)
  {
    WalkPasses(fs, target, kind, k - 1);
  }

  lemma {:induction false} FirstStop(fs: FileSystem, target: Path, k: nat) returns (j: nat)
    requires 0 < k < |target| && !Passed(fs, target[..k])
    ensures 0 < j <= k && !Passed(fs, target[..j]) && forall l | 0 < l < j :: Passed(fs, target[..l])
  {
    if l :| 0 < l < k && !Passed(fs, target[..l]) {
      j := FirstStop(fs, target, l);
    } else {
      j := k;
    }
  }

  /** The walk fails exactly when a lookup that it comes to fails, a file or a link that leads astray is
      on the way, or a directory is to be where something else is. */
  predicate Fails(fs: FileSystem, target: Path, kind: Target) {
    || (exists k | 0 < k < |target| ::
          && (forall j | 0 < j < k :: Passed(fs, target[..j]))
          && !Passed(fs, target[..k]) && fs.inspect(target[..k]) != Ok(Missing))
    || (Arrives(fs, target)
        && (fs.inspect(target).Err?
            || (kind == DirectoryTarget && fs.inspect(target).value in {Symlink, NonDirectory})))
  }

  /** The walk in full: when it fails, when it reports a conflict, and when it finds a directory. */
  lemma WalkExactly(fs: FileSystem, target: Path, kind: Target)
    requires target != []
    ensures var r := Walk(fs, target, kind, 0);
            && (r.Err? <==> Fails(fs, target, kind))
            && (r.Ok? ==> (r.value.conflicts <==> kind == NonDirectoryTarget && There(fs, target)))
            && (r.Ok? ==> (r.value.finalNode == Directory <==>
                             Arrives(fs, target) && fs.inspect(target) == Ok(Directory)))
  {
    hide Walk, Passed;
    if Arrives(fs, target) {
      WalkArrives(fs, target, kind);
    } else {
      var k :| 0 < k < |target| && !Passed(fs, target[..k]);
      var j := FirstStop(fs, target, k);
      WalkStops(fs, target, kind, j);
      forall l | 0 < l < |target| && (forall i | 0 < i < l :: Passed(fs, target[..i])) && !Passed(fs, target[..l])
        ensures l == j
      {
      }
    }
  }
}
