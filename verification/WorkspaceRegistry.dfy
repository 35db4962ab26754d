/** One process working on the registry while others go on: reclaiming, creating, closing. */
module WorkspaceRegistry {
  import opened Options
  import opened AsciiText
  import opened OwnerRecord
  import opened Workspaces

  /** Nothing another process can do to workspace `w` while `me` holds the sweep lock and `w` is
      not locked by that process. */
  predicate SameFor(s: Sys, t: Sys, me: Pid, w: string) {
    && t.owners == s.owners
    && (w in t.dirs <==> w in s.dirs) && (w in s.dirs ==> t.dirs[w] == s.dirs[w])
    && (w in t.locks <==> w in s.locks) && (w in s.locks ==> t.locks[w] == s.locks[w])
  }

  predicate Free(s: Sys, me: Pid, w: string) { w !in s.locks || s.locks[w] == me }

  lemma OthersLeaveAlone(s: Sys, q: Pid, a: Action, me: Pid, portable: Portable)
    requires Inv(s, portable) && Enabled(s, q, a, portable) && q != me && me in s.procs && s.sweep == Some(me)
    ensures var t := Next(s, q, a, portable);
            && t.sweep == Some(me) && me in t.procs && t.procs[me] == s.procs[me] && t.owners == s.owners
            && forall w | Free(s, me, w) :: SameFor(s, t, me, w)
  {
    hide Print, ReadRecord, Valid, ByteLength, Read, Good, Allows, DirOk, NotTorn, NoPlaintext, DirsOk, LocksOk,
         CleanStep, MakeStep;
    if a.WriteFile? { assert OwnsWell(s, q, a.w, s.procs[q].owned[a.w], portable); }
    hide PhaseOk;
  }

  lemma InterferenceIsHarmless(s: Sys, e: Event, me: Pid, portable: Portable)
    requires Inv(s, portable) && CanHappen(s, e, portable) && (e.By? ==> e.p != me) && me in s.procs
             && s.sweep == Some(me)
    ensures var t := Happen(s, e, portable);
            && t.sweep == Some(me) && me in t.procs && t.procs[me] == s.procs[me] && t.owners == s.owners
            && (e.By? ==> forall w | Free(s, me, w) :: SameFor(s, t, me, w))
            && forall w | Free(s, me, w) :: (w in t.dirs <==> w in s.dirs) && Free(t, me, w)
  {
    hide Inv, Enabled, Next, Read, Allows;
    if e.By? { OthersLeaveAlone(s, e.p, e.a, me, portable); }
  }

  /** What may have happened to the workspaces: owner files only went, and what was abandoned and
      is still there can still be reclaimed. */
  ghost predicate Progress(s: Sys, t: Sys, portable: Portable) {
    && t.owners.Keys <= s.owners.Keys
    && forall w | Reclaimable(s, w, portable) && w in t.owners :: Reclaimable(t, w, portable)
  }

  lemma ProgressTrans(s: Sys, t: Sys, u: Sys, portable: Portable)
    requires Progress(s, t, portable) && Progress(t, u, portable)
    ensures Progress(s, u, portable)
  {
    hide Reclaimable;
  }

  lemma SameForProgress(s: Sys, t: Sys, me: Pid, portable: Portable)
    requires t.owners == s.owners && forall w | Free(s, me, w) :: SameFor(s, t, me, w)
    ensures Progress(s, t, portable)
  {
    hide ReadRecord, Removable;
    ReadElsewhere(s, t, portable);
    forall w | Reclaimable(s, w, portable) && w in t.owners ensures Reclaimable(t, w, portable) {
      assert SameFor(s, t, me, w);
    }
  }

  /** What one attempt to reserve a name uses. */
  datatype Attempt = Attempt(sequence: nat, nanos: nat)

  function AttemptName(pid: nat, a: Attempt): string {
    "workspace-" + Decimal(pid) + "-" + Decimal(a.sequence) + "-" + Decimal(a.nanos)
  }

  lemma AttemptNames(pid: nat, a: Attempt, fileName: Option<string>)
    ensures NewRecord(pid, a.sequence, a.nanos, fileName).workspace == AttemptName(pid, a)
  {
    hide Decimal, Hex;
    var w := "workspace-" + Decimal(pid) + "-" + Decimal(a.sequence);
    assert "workspace-" + (Decimal(pid) + "-" + (Decimal(a.sequence) + "-" + Decimal(a.nanos)))
        == w + ("-" + Decimal(a.nanos));
    assert w + "-" + Decimal(a.nanos) == w + ("-" + Decimal(a.nanos));
  }

  class Registry {
    var s: Sys
    const me: Pid
    const portable: Portable
    /** Whether foreign members may turn up in the directories. */
    const quiet: bool

    constructor (s: Sys, me: Pid, portable: Portable, quiet: bool)
      requires Inv(s, portable) && me in s.procs
      ensures Valid() && this.s == s && this.me == me && this.quiet == quiet && this.portable == portable
    {
      this.s, this.me, this.portable, this.quiet := s, me, portable, quiet;
    }

    ghost predicate Valid()
      reads this
    {
      Inv(s, portable) && me in s.procs
    }

    predicate Sweeping()
      reads this
    {
      me in s.procs && s.sweep == Some(me)
    }

    function Phase(): Phase
      reads this
      requires me in s.procs
    {
      s.procs[me].phase
    }

    /** Other processes take any number of steps; unless it is quiet, foreign members turn up. */
    method Interfere()
      requires Valid() && Sweeping()
      modifies this
      ensures Valid() && Sweeping() && s.procs[me] == old(s.procs[me]) && s.owners == old(s.owners)
      ensures quiet ==> Progress(old(s), s, portable) && forall w | Free(old(s), me, w) :: SameFor(old(s), s, me, w)
      ensures forall w | Free(old(s), me, w) :: w in s.dirs <==> w in old(s.dirs)
    {
      hide Inv, CanHappen, Happen, Enabled, Next, Progress;
      var n: int := *;
      ghost var start := s;
      SameForProgress(s, s, me, portable);
      while n > 0
        invariant Valid() && Sweeping() && s.procs[me] == start.procs[me] && s.owners == start.owners
        invariant quiet ==> forall w | Free(start, me, w) :: SameFor(start, s, me, w)
        invariant forall w | Free(start, me, w) :: (w in s.dirs <==> w in start.dirs) && Free(s, me, w)
      {
        var e: Event := *;
        if CanHappen(s, e, portable) && (if e.By? then e.p != me else !quiet) {
          StepKeeps(s, e, portable);
          InterferenceIsHarmless(s, e, me, portable);
          s := Happen(s, e, portable);
        }
        n := n - 1;
      }
      if quiet { SameForProgress(start, s, me, portable); }
    }

    /** One step of this process, and then whatever the others do. */
    method Do(a: Action)
      requires Valid() && Sweeping() && Enabled(s, me, a, portable)
      requires Next(s, me, a, portable).sweep == Some(me) && me in Next(s, me, a, portable).procs
      modifies this
      ensures Valid() && Sweeping()
      ensures var t := Next(old(s), me, a, portable);
              && s.procs[me] == t.procs[me] && s.owners == t.owners
              && (quiet ==> Progress(t, s, portable) && forall w | Free(t, me, w) :: SameFor(t, s, me, w))
              && (forall w | Free(t, me, w) :: w in s.dirs <==> w in t.dirs)
    {
      hide Inv, Enabled, Next, Progress;
      StepKeeps(s, By(me, a), portable);
      s := Next(s, me, a, portable);
      Interfere();
    }

    /** Where this process is when it stops removing a workspace. */
    predicate Stopped(purpose: Purpose)
      reads this
    {
      me in s.procs &&
      match purpose
      case ForScan(fileName, left) => s.sweep == Some(me) && s.procs[me].phase == Scan(fileName, left)
      case ForClose => s.sweep.None? && s.procs[me].phase.Idle?
    }

    /** One step of removing a workspace; `going` says whether there is a next one. */
    method Step(file: string) returns (going: bool)
      requires Valid() && Sweeping() && Phase().Cleaning?
      requires Phase().stage.Files? && Phase().stage.todo != {} ==> file in Phase().stage.todo
      modifies this
      ensures Valid() && s.owners.Keys <= old(s).owners.Keys
      ensures going ==>
                && Sweeping() && !old(Phase()).stage.OwnerFile?
                && Phase() == old(Phase()).(stage := NextStage(old(s), old(Phase()).w, old(Phase()).stage, file))
      ensures !going ==> Stopped(old(Phase()).purpose)
      ensures quiet ==> Progress(old(s), s, portable)
      ensures quiet && Smooth(old(s), old(Phase())) && !old(Phase()).stage.OwnerFile? ==> going && Smooth(s, Phase())
      ensures !going && old(Phase()).stage.OwnerFile? ==> old(Phase()).w !in s.owners && old(Phase()).w !in s.dirs
    {
      hide Inv, Smooth, Progress, CleanStep, NextStage, Stoppable;
      ghost var start, c := s, Phase();
      CleanMoves(s, me, file, portable);
      CleanProgress(s, me, file, portable);
      ghost var t := Next(s, me, Clean(file), portable);
      going := !Stoppable(s, Phase().w, Phase().record, Phase().stage, file) && !Phase().stage.OwnerFile?;
      if going || Phase().purpose.ForScan? {
        Do(Clean(file));
        if quiet { ProgressTrans(start, t, s, portable); }
      } else {
        StepKeeps(s, By(me, Clean(file)), portable);
        s := Next(s, me, Clean(file), portable);
      }
      if quiet && Smooth(start, c) && !c.stage.OwnerFile? {
        SmoothGoes(start, me, file, portable);
        SmoothSame(t, s, me, Phase());
      }
    }

    /** Takes a workspace down, as far as it is allowed to: the check, the files, the marker, the
        directory, and in the end the lock and the owner file. */
    method CleanupOwned() returns (removed: bool)
      requires Valid() && Sweeping() && Phase().Cleaning? && Phase().stage.Check?
      modifies this
      ensures Valid() && Stopped(old(Phase()).purpose) && s.owners.Keys <= old(s).owners.Keys
      ensures quiet ==> Progress(old(s), s, portable)
      ensures quiet && Smooth(old(s), old(Phase())) ==> removed
      ensures removed ==> old(Phase()).w !in s.owners && old(Phase()).w !in s.dirs
    {
      hide Inv, Smooth, Progress;
      ghost var start, c := s, Phase();
      removed := false;
      var going := Step("");
      if !going { return; }
      if Phase().stage.List? {
        going := RemoveMembers(start, c);
        if !going { return; }
      }
      ghost var s5 := s;
      going := Step("");
      if quiet { ProgressTrans(start, s5, s, portable); }
      if !going { return; }
      ghost var s6 := s;
      going := Step("");
      if quiet { ProgressTrans(start, s6, s, portable); }
      removed := true;
    }

    /** The second listing, the files, the marker, and the directory itself. */
    method RemoveMembers(ghost start: Sys, ghost c: Phase) returns (going: bool)
      requires Valid() && Sweeping() && Phase().Cleaning? && Phase().stage.List? && c.Cleaning?
      requires Phase() == c.(stage := List) && (quiet ==> Progress(start, s, portable))
      requires quiet && Smooth(start, c) ==> Smooth(s, Phase())
      modifies this
      ensures Valid() && (quiet ==> Progress(start, s, portable)) && s.owners.Keys <= old(s).owners.Keys
      ensures going ==> Sweeping() && Phase() == c.(stage := Release)
      ensures !going ==> Stopped(c.purpose)
      ensures quiet && Smooth(start, c) ==> going && Smooth(s, Phase())
    {
      hide Inv, Smooth, Progress;
      ghost var before := s;
      going := Step("");
      if quiet { ProgressTrans(start, before, s, portable); }
      if !going { return; }
      while Phase().stage.todo != {}
        invariant Valid() && Sweeping() && Phase().Cleaning? && Phase().stage.Files?
        invariant s.owners.Keys <= old(s).owners.Keys
        invariant Phase() == c.(stage := Phase().stage)
        invariant quiet ==> Progress(start, s, portable)
        invariant quiet && Smooth(start, c) ==> Smooth(s, Phase())
        decreases Phase().stage.todo
      {
        before := s;
        var f :| f in Phase().stage.todo;
        going := Step(f);
        if quiet { ProgressTrans(start, before, s, portable); }
        if !going { return; }
      }
      before := s;
      going := Step("");
      if quiet { ProgressTrans(start, before, s, portable); }
      if !going { return; }
      before := s;
      going := Step("");
      if quiet { ProgressTrans(start, before, s, portable); }
      if !going { return; }
      before := s;
      going := Step("");
      if quiet { ProgressTrans(start, before, s, portable); }
    }

    /** `reclaim_stale_workspaces`: when nobody puts foreign members into the directories, every
        workspace that was abandoned in a removable state is gone afterwards. A registry with too many
        entries makes it fail when it reaches the entry too many; then the owner files in `left` have
        not been looked at, and what was abandoned there can still be reclaimed. */
    method ReclaimStale() returns (ok: bool, ghost left: set<string>)
      requires Valid() && Sweeping() && Phase().Scan? && Phase().left == s.owners.Keys
      modifies this
      ensures Valid() && s.owners.Keys <= old(s).owners.Keys
      ensures if ok then Sweeping() && Phase() == Scan(old(Phase()).fileName, {}) else Phase().Idle? && s.sweep.None?
      ensures ok <==> |old(s).owners| + |old(s).dirs| + 1 <= MAX_REGISTRY_ENTRIES
      ensures quiet ==> forall w | Reclaimable(old(s), w, portable) && w !in left :: w !in s.owners && w !in s.dirs
      ensures quiet ==> forall w | Reclaimable(old(s), w, portable) && w in s.owners :: Reclaimable(s, w, portable)
      ensures if ok then left == {}
              else left <= old(s).owners.Keys && |left| <= |old(s).owners| + |old(s).dirs| + 1 - MAX_REGISTRY_ENTRIES
    {
      hide Inv, Progress, Smooth, Enabled, Next, Reclaimable;
      ghost var start := s;
      var seen, others := 0, |s.dirs| + 1;
      StartProgress(s, portable);
      ghost var total := |s.owners.Keys| + others;
      while Phase().left != {} || others > 0
        invariant Valid() && Sweeping() && Phase().Scan? && Phase().fileName == old(Phase()).fileName
        invariant s.owners.Keys <= start.owners.Keys
        invariant Phase().left <= start.owners.Keys && 0 <= others <= |start.dirs| + 1
        invariant seen <= MAX_REGISTRY_ENTRIES && seen + |Phase().left| + others == total
        invariant quiet ==> Progress(start, s, portable)
        invariant quiet ==> forall w | Reclaimable(start, w, portable) && w in s.owners :: w in Phase().left
        decreases |Phase().left| + others
      {
        if seen == MAX_REGISTRY_ENTRIES {
          left := Phase().left;
          GiveUp(start, left);
          return false, left;
        }
        seen := seen + 1;
        var other: bool := *;
        if Phase().left == {} || (other && others > 0) {
          others := others - 1;
        } else {
          LookAt(start);
        }
      }
      left := {};
      ok := true;
      if quiet { GoneCompletely(start, left, s, portable); ProgressKeeps(start, s, portable); }
    }

    /** Too many entries: an error return. */
    method GiveUp(ghost start: Sys, ghost left: set<string>)
      requires Valid() && Sweeping() && Phase().Scan? && Phase().left == left
      requires quiet ==> Progress(start, s, portable)
      requires quiet ==> forall w | Reclaimable(start, w, portable) && w in s.owners :: w in left
      modifies this
      ensures Valid() && Phase().Idle? && s.sweep.None? && s.owners == old(s).owners
      ensures quiet ==> forall w | Reclaimable(start, w, portable) && w !in left :: w !in s.owners && w !in s.dirs
      ensures quiet ==> forall w | Reclaimable(start, w, portable) && w in s.owners :: Reclaimable(s, w, portable)
    {
      hide Inv, Progress, Enabled, Next, Reclaimable;
      CanAbort(s, me, portable);
      StepKeeps(s, By(me, Abort), portable);
      AbortShape(s, me, portable);
      ghost var before := s;
      s := Next(s, me, Abort, portable);
      if quiet {
        AbortProgress(before, me, portable);
        ProgressTrans(start, before, s, portable);
        GoneCompletely(start, left, s, portable);
        ProgressKeeps(start, s, portable);
      }
    }

    /** The scan deals with one owner file: it reclaims the workspace, or skips it. */
    method LookAt(ghost start: Sys)
      requires Valid() && Sweeping() && Phase().Scan? && Phase().left != {}
      requires quiet ==> Progress(start, s, portable)
      requires quiet ==> forall w | Reclaimable(start, w, portable) && w in s.owners :: w in Phase().left
      modifies this
      ensures Valid() && Sweeping() && Phase().Scan? && Phase().fileName == old(Phase()).fileName
      ensures s.owners.Keys <= old(s).owners.Keys
      ensures Phase().left <= old(Phase().left) && |Phase().left| + 1 == |old(Phase().left)|
      ensures quiet ==> Progress(start, s, portable)
      ensures quiet ==> forall w | Reclaimable(start, w, portable) && w in s.owners :: w in Phase().left
    {
      hide Inv, Progress, Smooth, Enabled, Next;
      ghost var before, left := s, Phase().left;
      var w :| w in Phase().left;
      if w !in s.locks && Read(s, w, portable).Some? {
        TakeShape(s, me, w, portable);
        ghost var taking := Next(s, me, Take(w), portable);
        Do(Take(w));
        ghost var taken := s;
        if quiet && Reclaimable(before, w, portable) { SmoothSame(taking, s, me, Phase()); }
        var removed := CleanupOwned();
        if quiet {
          ProgressTrans(taking, taken, s, portable);
          TakenProgress(before, taking, s, w, portable);
          ProgressTrans(start, before, s, portable);
        }
      } else {
        SkipShape(s, me, w, portable);
        ghost var skipped := Next(s, me, Skip(w), portable);
        Do(Skip(w));
        if quiet {
          ProgressTrans(before, skipped, s, portable);
          ProgressTrans(start, before, s, portable);
        }
      }
      if quiet { LeftOver(start, before, s, w, left, portable); }
    }

    /** A scan undisturbed by intruders removes every abandoned workspace that is still there, through
        whatever steps of whichever processes it was abandoned. */
    method ReclaimAbandoned(w: string, ghost abandoned: Sys, ghost events: seq<Event>) returns (ok: bool)
      requires Valid() && Sweeping() && Phase().Scan? && Phase().left == s.owners.Keys && quiet
      requires Inv(abandoned, portable) && Disposable(abandoned, w, portable)
      requires Run(abandoned, events, s, portable) && NoIntruders(events)
      modifies this
      ensures Valid() && (ok <==> |old(s).owners| + |old(s).dirs| + 1 <= MAX_REGISTRY_ENTRIES)
      ensures ok ==> GoneDuring(abandoned, events, w, portable) || (w !in s.owners && w !in s.dirs)
    {
      hide Inv, Run, GoneDuring, Disposable, Reclaimable;
      AbandonedUntilGone(abandoned, events, s, w, portable);
      if Disposable(s, w, portable) { DisposableIsReclaimable(s, w, portable); }
      ghost var left;
      ok, left := ReclaimStale();
    }

    /** `try_cleanup`, once the sweep lock is free: a workspace that holds nothing foreign is gone
        afterwards, whatever the other processes do, also when an earlier close failed. */
    method Close(w: string) returns (removed: bool)
      requires Valid() && Phase().Idle? && s.sweep.None? && w in s.procs[me].owned
      modifies this
      ensures Valid() && Phase().Idle? && s.sweep.None?
      ensures removed ==> w !in s.owners && w !in s.dirs
      ensures quiet && OnlyPlaintext(old(s), w, old(s).procs[me].owned[w]) ==> removed
    {
      hide Inv, Smooth, Progress, OnlyPlaintext;
      CloseShape(s, me, w, portable);
      StepKeeps(s, By(me, BeginClose(w)), portable);
      s := Next(s, me, BeginClose(w), portable);
      removed := CleanupOwned();
    }

    /** `create`, once the sweep lock is free, with the numbers and times its attempts will use. It
        succeeds exactly when the registry is not too large to be scanned and one of the names it tries
        is free after the scan, and takes the first such name. `swept` are the owner files that the scan
        left: none of a workspace that was abandoned in a removable state. A success leaves a live,
        locked workspace with a complete record, and a directory with a complete marker and no
        plaintext yet. */
    method Create(fileName: Option<string>, attempts: seq<Attempt>)
      returns (created: Option<string>, ghost swept: set<string>)
      requires Valid() && Phase().Idle? && s.sweep.None? && me < LIMIT32 && |attempts| == 128
      requires forall k | 0 <= k < |attempts| :: attempts[k].sequence < LIMIT64 && attempts[k].nanos < LIMIT128
      requires fileName.Some? ==> SafeName(fileName.value, portable)
      modifies this
      ensures Valid() && Phase().Idle? && s.sweep.None?
      ensures swept <= old(s).owners.Keys && s.owners.Keys == if created.Some? then swept + {created.value} else swept
      ensures quiet && |old(s).owners| + |old(s).dirs| + 1 <= MAX_REGISTRY_ENTRIES ==>
                forall v | Reclaimable(old(s), v, portable) :: v !in swept
      ensures created.Some? <==>
                && |old(s).owners| + |old(s).dirs| + 1 <= MAX_REGISTRY_ENTRIES
                && exists k | 0 <= k < |attempts| :: AttemptName(me, attempts[k]) !in swept
      ensures created.Some? ==>
                && created.value !in swept
                && exists k | 0 <= k < |attempts| ::
                     && created.value == AttemptName(me, attempts[k])
                     && forall j | 0 <= j < k :: AttemptName(me, attempts[j]) in swept
      ensures created.Some? ==>
                && var w := created.value;
                && w in s.procs[me].owned && s.procs[me].owned[w].fileName == fileName
                && w in s.locks && s.locks[w] == me && w in s.owners && s.owners[w] == Print(s.procs[me].owned[w])
                && w !in s.procs[me].closing && w in s.dirs && s.dirs[w].marker == Some(Print(s.procs[me].owned[w]))
                && NoPlaintext(s.dirs[w], s.procs[me].owned[w])
    {
      hide Inv, Progress, Enabled, Next, OwnerRecord.Valid, SafeName, Print, ReadRecord, NewRecord, AttemptName,
           Reclaimable, NoPlaintext;
      CreateShape(s, me, fileName, portable);
      StepKeeps(s, By(me, BeginCreate(fileName)), portable);
      s := Next(s, me, BeginCreate(fileName), portable);
      var ok, left := ReclaimStale();
      swept := s.owners.Keys;
      if !ok { return None, swept; }
      created := ReserveFirst(fileName, attempts, swept);
    }

    /** The names of the attempts are tried in turn until one is free. */
    method ReserveFirst(fileName: Option<string>, attempts: seq<Attempt>, ghost swept: set<string>)
      returns (created: Option<string>)
      requires Valid() && Sweeping() && Phase() == Scan(fileName, {}) && me < LIMIT32 && swept == s.owners.Keys
      requires forall k | 0 <= k < |attempts| :: attempts[k].sequence < LIMIT64 && attempts[k].nanos < LIMIT128
      requires fileName.Some? ==> SafeName(fileName.value, portable)
      modifies this
      ensures Valid() && Phase().Idle? && s.sweep.None?
      ensures s.owners.Keys == if created.Some? then swept + {created.value} else swept
      ensures created.Some? <==> exists k | 0 <= k < |attempts| :: AttemptName(me, attempts[k]) !in swept
      ensures created.Some? ==>
                && created.value !in swept
                && exists k | 0 <= k < |attempts| ::
                     && created.value == AttemptName(me, attempts[k])
                     && forall j | 0 <= j < k :: AttemptName(me, attempts[j]) in swept
      ensures created.Some? ==> Made(created.value, fileName)
    {
      hide Inv, Progress, Enabled, Next, OwnerRecord.Valid, SafeName, Print, ReadRecord, NewRecord, AttemptName, Made;
      var attempt := 0;
      while attempt < |attempts|
        invariant 0 <= attempt <= |attempts|
        invariant Valid() && Sweeping() && Phase() == Scan(fileName, {}) && s.owners.Keys == swept
        invariant forall j | 0 <= j < attempt :: AttemptName(me, attempts[j]) in swept
      {
        var r := NewRecord(me, attempts[attempt].sequence, attempts[attempt].nanos, fileName);
        AttemptNames(me, attempts[attempt], fileName);
        if r.workspace !in s.owners {
          NewRecordReserves(s, me, attempts[attempt].sequence, attempts[attempt].nanos, fileName, portable);
          Do(Reserve(r));
          MakeAll(r);
          return Some(r.workspace);
        }
        attempt := attempt + 1;
      }
      CanAbort(s, me, portable);
      StepKeeps(s, By(me, Abort), portable);
      AbortShape(s, me, portable);
      s := Next(s, me, Abort, portable);
      created := None;
    }

    /** A live, locked workspace for the requested file, with a complete record, a directory with a
        complete marker, and no plaintext. */
    ghost predicate Made(w: string, fileName: Option<string>)
      reads this
    {
      && me in s.procs && w in s.procs[me].owned && s.procs[me].owned[w].fileName == fileName
      && w in s.locks && s.locks[w] == me && w in s.owners && s.owners[w] == Print(s.procs[me].owned[w])
      && w !in s.procs[me].closing && w in s.dirs && s.dirs[w].marker == Some(Print(s.procs[me].owned[w]))
      && NoPlaintext(s.dirs[w], s.procs[me].owned[w])
    }

    /** The lock, the record, the directory, the marker; each write may come in parts. */
    method MakeAll(r: Record)
      requires Valid() && Sweeping() && Phase() == Making(r.workspace, r, OwnerOpened)
      modifies this
      ensures Valid() && Phase().Idle? && s.sweep.None?
      ensures r.workspace in s.procs[me].owned && s.procs[me].owned[r.workspace] == r
      ensures var w := r.workspace;
              && w in s.locks && s.locks[w] == me && w in s.owners && s.owners[w] == Print(r)
              && w !in s.procs[me].closing && w in s.dirs && s.dirs[w].marker == Some(Print(r))
              && NoPlaintext(s.dirs[w], r)
      ensures Made(r.workspace, r.fileName)
      ensures s.owners.Keys == old(s).owners.Keys
    {
      hide Inv, Progress, Enabled, Next, Print;
      var part: int := *;
      MakeShape(s, me, 0, portable);
      Do(Make(0));
      if 0 <= part < |Print(r)| {
        MakeShape(s, me, part, portable);
        Do(Make(part));
      }
      MakeShape(s, me, |Print(r)|, portable);
      Do(Make(|Print(r)|));
      MakeShape(s, me, 0, portable);
      Do(Make(0));
      MakeShape(s, me, 0, portable);
      Do(Make(0));
      if 0 <= part < |Print(r)| {
        MakeShape(s, me, part, portable);
        Do(Make(part));
      }
      MakeShape(s, me, |Print(r)|, portable);
      StepKeeps(s, By(me, Make(|Print(r)|)), portable);
      s := Next(s, me, Make(|Print(r)|), portable);
      MadeIsOwned(s, me, r, portable);
    }
  }

  /** Nothing stops the removal. */
  ghost predicate Smooth(s: Sys, c: Phase) {
    && c.Cleaning?
    && (c.w in s.dirs ==> forall f | f in s.dirs[c.w].files :: Allows(c.record, f))
    && (c.stage.Check? && c.w in s.dirs ==> Removable(s.dirs[c.w], c.record))
    && (c.stage.Files? ==> forall f | f in c.stage.todo :: Allows(c.record, f))
  }

  lemma SmoothSame(s: Sys, t: Sys, me: Pid, c: Phase)
    requires Smooth(s, c) && SameFor(s, t, me, c.w)
    ensures Smooth(t, c)
  {
    hide Allows, Removable;
  }

  /** The shape of a step, and that what it works on is free for this process. */
  lemma CleanMoves(s: Sys, p: Pid, file: string, portable: Portable)
    requires Inv(s, portable) && Enabled(s, p, Clean(file), portable)
    ensures var c, t := s.procs[p].phase, Next(s, p, Clean(file), portable);
            && s.sweep == Some(p) && p in t.procs && Free(t, p, c.w) && t.owners.Keys <= s.owners.Keys
            && (if Stoppable(s, c.w, c.record, c.stage, file) || c.stage.OwnerFile?
                then (match c.purpose
                      case ForScan(fileName, left) => t.sweep == Some(p) && t.procs[p].phase == Scan(fileName, left)
                      case ForClose => t.sweep.None? && t.procs[p].phase.Idle?)
                else t.sweep == Some(p) && t.procs[p].phase == c.(stage := NextStage(s, c.w, c.stage, file)))
            && (c.stage.OwnerFile? ==> c.w !in t.owners && c.w !in t.dirs)
  {
    hide Print, ReadRecord, Valid, ByteLength, Read, Good, Allows, DirOk, NotTorn, NoPlaintext, DirsOk, LocksOk,
         OwnedOk, Removable, NextStage, CleanDirs;
    assert PhaseOk(s, p, portable);
  }

  lemma CleanProgress(s: Sys, p: Pid, file: string, portable: Portable)
    requires Inv(s, portable) && Enabled(s, p, Clean(file), portable)
    ensures Progress(s, Next(s, p, Clean(file), portable), portable)
  {
    hide Print, ReadRecord, Valid, ByteLength, Good, Allows, DirOk, NotTorn, NoPlaintext, DirsOk, LocksOk, OwnedOk,
         SweepOk, Removable, NextStage, Stoppable;
    assert PhaseOk(s, p, portable);
  }

  lemma SmoothGoes(s: Sys, p: Pid, file: string, portable: Portable)
    requires Inv(s, portable) && Enabled(s, p, Clean(file), portable)
    requires Smooth(s, s.procs[p].phase) && !s.procs[p].phase.stage.OwnerFile?
    ensures var c, t := s.procs[p].phase, Next(s, p, Clean(file), portable);
            !Stoppable(s, c.w, c.record, c.stage, file) && p in t.procs && Smooth(t, t.procs[p].phase)
  {
    hide Print, ReadRecord, Valid, ByteLength, Read, Good, Allows, DirOk, DirsOk, LocksOk, OwnedOk, SweepOk;
    assert PhaseOk(s, p, portable);
  }

  lemma StartProgress(s: Sys, portable: Portable)
    ensures Progress(s, s, portable)
  {
  }

  lemma CanAbort(s: Sys, p: Pid, portable: Portable)
    requires p in s.procs && !s.procs[p].phase.Idle?
    ensures Enabled(s, p, Abort, portable)
  {
  }

  lemma GoneCompletely(start: Sys, left: set<string>, s: Sys, portable: Portable)
    requires Inv(s, portable) && forall w | Reclaimable(start, w, portable) && w in s.owners :: w in left
    ensures forall w | Reclaimable(start, w, portable) && w !in left :: w !in s.owners && w !in s.dirs
  {
    hide Reclaimable, LocksOk, OwnedOk, SweepOk, PhaseOk, ReadRecord;
  }

  lemma TakeShape(s: Sys, p: Pid, w: string, portable: Portable)
    requires Inv(s, portable) && p in s.procs && s.procs[p].phase.Scan? && w in s.procs[p].phase.left
    requires w !in s.locks && Read(s, w, portable).Some?
    ensures Enabled(s, p, Take(w), portable)
    ensures var t, scan := Next(s, p, Take(w), portable), s.procs[p].phase;
            && t.sweep == Some(p) && p in t.procs && Free(t, p, w) && t.owners == s.owners
            && t.procs[p].phase == Cleaning(w, Read(s, w, portable).value, Check,
                                            ForScan(scan.fileName, scan.left - {w}))
            && (forall v | v != w && Reclaimable(s, v, portable) :: Reclaimable(t, v, portable))
            && (Reclaimable(s, w, portable) ==> Smooth(t, t.procs[p].phase))
  {
    hide ReadRecord, LocksOk, OwnedOk, DirsOk, PhaseOk, Allows;
    ReadElsewhere(s, Next(s, p, Take(w), portable), portable);
  }

  /** The workspace that was taken is gone if it could be reclaimed; the others are as before. */
  lemma TakenProgress(before: Sys, taking: Sys, t: Sys, w: string, portable: Portable)
    requires taking.owners == before.owners && Progress(taking, t, portable)
    requires forall v | v != w && Reclaimable(before, v, portable) :: Reclaimable(taking, v, portable)
    requires Reclaimable(before, w, portable) ==> w !in t.owners
    ensures Progress(before, t, portable)
  {
    hide Reclaimable;
  }

  lemma SkipShape(s: Sys, p: Pid, w: string, portable: Portable)
    requires Inv(s, portable) && p in s.procs && s.procs[p].phase.Scan? && w in s.procs[p].phase.left
    requires w in s.locks || Read(s, w, portable).None?
    ensures Enabled(s, p, Skip(w), portable) && !Reclaimable(s, w, portable)
    ensures var t, scan := Next(s, p, Skip(w), portable), s.procs[p].phase;
            && t.sweep == Some(p) && p in t.procs && t.procs[p].phase == Scan(scan.fileName, scan.left - {w})
            && t.owners == s.owners && Progress(s, t, portable)
  {
    hide ReadRecord, LocksOk, OwnedOk, DirsOk, PhaseOk, Allows, Removable;
    ReadElsewhere(s, Next(s, p, Skip(w), portable), portable);
  }

  /** Once an entry has been dealt with it is gone or was not reclaimable. */
  lemma LeftOver(start: Sys, before: Sys, t: Sys, w: string, left: set<string>, portable: Portable)
    requires Progress(start, before, portable) && Progress(before, t, portable)
    requires forall v | Reclaimable(start, v, portable) && v in before.owners :: v in left
    requires Reclaimable(before, w, portable) ==> w !in t.owners
    ensures forall v | Reclaimable(start, v, portable) && v in t.owners :: v in left - {w}
  {
    hide Reclaimable;
  }

  lemma CloseShape(s: Sys, p: Pid, w: string, portable: Portable)
    requires Inv(s, portable) && p in s.procs && s.procs[p].phase.Idle? && s.sweep.None? && w in s.procs[p].owned
    ensures Enabled(s, p, BeginClose(w), portable)
    ensures var t := Next(s, p, BeginClose(w), portable);
            && t.sweep == Some(p) && p in t.procs
              && t.procs[p].phase == Cleaning(w, s.procs[p].owned[w], Check, ForClose)
            && (OnlyPlaintext(s, w, s.procs[p].owned[w]) ==> Smooth(t, t.procs[p].phase))
  {
    hide Print, ReadRecord, Valid, ByteLength, Read, Good, Allows, SweepOk, LocksOk, PhaseOk;
    assert OwnsWell(s, p, w, s.procs[p].owned[w], portable);
    ReadGood(s, w, s.procs[p].owned[w], portable);
  }

  lemma CreateShape(s: Sys, p: Pid, fileName: Option<string>, portable: Portable)
    requires p in s.procs && s.procs[p].phase.Idle? && s.sweep.None?
             && (fileName.Some? ==> SafeName(fileName.value, portable))
    ensures Enabled(s, p, BeginCreate(fileName), portable)
    ensures var t := Next(s, p, BeginCreate(fileName), portable);
            && t.sweep == Some(p) && p in t.procs && t.procs[p].phase == Scan(fileName, t.owners.Keys)
              && t.owners == s.owners && t.dirs == s.dirs
            && forall v | Reclaimable(s, v, portable) :: Reclaimable(t, v, portable)
  {
    hide ReadRecord, SafeName, Removable;
    ReadElsewhere(s, s.(sweep := Some(p), procs := s.procs[p := s.procs[p].(phase := Scan(fileName, s.owners.Keys))]),
                  portable);
  }

  lemma NewRecordReserves(s: Sys, p: Pid, sequence: nat, nanos: nat, fileName: Option<string>, portable: Portable)
    requires Inv(s, portable) && p in s.procs && p < LIMIT32 && sequence < LIMIT64 && nanos < LIMIT128
    requires s.sweep == Some(p) && s.procs[p].phase == Scan(fileName, {})
             && (fileName.Some? ==> SafeName(fileName.value, portable))
    requires NewRecord(p, sequence, nanos, fileName).workspace !in s.owners
    ensures var r := NewRecord(p, sequence, nanos, fileName);
            && Enabled(s, p, Reserve(r), portable) && r.fileName == fileName
            && var t := Next(s, p, Reserve(r), portable);
            && t.sweep == Some(p) && p in t.procs && t.procs[p].phase == Making(r.workspace, r, OwnerOpened)
            && t.owners.Keys == s.owners.Keys + {r.workspace}
  {
    hide Inv, ReadRecord, SafeName, Print, Valid;
    NewRecordIsValid(p, sequence, nanos, fileName, portable);
    NewRecordReadsBack(p, sequence, nanos, fileName, portable);
  }

  lemma ProgressKeeps(s: Sys, t: Sys, portable: Portable)
    requires Progress(s, t, portable)
    ensures forall w | Reclaimable(s, w, portable) && w in t.owners :: Reclaimable(t, w, portable)
  {
  }

  /** An error return of a scan leaves the registry as it is. */
  lemma AbortProgress(s: Sys, p: Pid, portable: Portable)
    requires Enabled(s, p, Abort, portable) && s.procs[p].phase.Scan?
    ensures var t := Next(s, p, Abort, portable);
            t.owners == s.owners && t.dirs == s.dirs && Progress(s, t, portable)
  {
    hide ReadRecord, Removable;
    ReadElsewhere(s, Next(s, p, Abort, portable), portable);
  }

  lemma AbortShape(s: Sys, p: Pid, portable: Portable)
    requires Enabled(s, p, Abort, portable)
    ensures var t := Next(s, p, Abort, portable);
            p in t.procs && t.procs[p].phase.Idle? && t.sweep.None? && t.owners == s.owners
  {
  }

  /** What a step of making does to the process and to the set of owner files. */
  lemma MakeShape(s: Sys, p: Pid, written: nat, portable: Portable)
    requires Inv(s, portable) && p in s.procs && s.procs[p].phase.Making? && s.sweep == Some(p)
    ensures Enabled(s, p, Make(written), portable)
    ensures var m, t := s.procs[p].phase, Next(s, p, Make(written), portable);
            var done := written >= |Print(m.record)|;
            && p in t.procs && t.owners.Keys == s.owners.Keys
            && (match m.made
                case OwnerOpened => t.procs[p].phase == m.(made := OwnerLocked) && t.sweep == Some(p)
                case OwnerLocked => t.procs[p].phase == m.(made := if done then RecordWritten else OwnerLocked)
                  && t.sweep == Some(p)
                case RecordWritten => t.procs[p].phase == m.(made := DirectoryMade) && t.sweep == Some(p)
                case DirectoryMade => t.procs[p].phase == m.(made := MarkerOpened) && t.sweep == Some(p)
                case MarkerOpened =>
                  if done then
                    && t.procs[p].phase.Idle? && t.sweep.None?
                    && m.w in t.procs[p].owned && t.procs[p].owned[m.w] == m.record
                    && m.w !in t.procs[p].closing && m.w in t.dirs && NoPlaintext(t.dirs[m.w], m.record)
                  else t.procs[p].phase == m && t.sweep == Some(p))
  {
    hide Print, ReadRecord, Valid, ByteLength, Read, Good, Allows, SweepOk, LocksOk, DirsOk, OwnedOk;
    assert PhaseOk(s, p, portable);
  }

  lemma MadeIsOwned(s: Sys, p: Pid, r: Record, portable: Portable)
    requires Inv(s, portable) && p in s.procs && r.workspace in s.procs[p].owned && s.procs[p].owned[r.workspace] == r
    ensures var w := r.workspace; w in s.locks && s.locks[w] == p && w in s.owners && s.owners[w] == Print(r)
    ensures var w := r.workspace; w !in s.procs[p].closing ==> w in s.dirs && s.dirs[w].marker == Some(Print(r))
  {
    hide Print, ReadRecord, Valid, ByteLength, Read, Good, Allows, SweepOk, LocksOk, DirsOk, PhaseOk;
    assert OwnsWell(s, p, r.workspace, r, portable);
  }
}
