/** One destination directory as the publication code drives it. Before every operation
    other programs may act, and any operation may fail, unless the volume is `quiet`. */
module FileSetVolume {
  import opened FileSetModel
  import opened FileSetSafety

  ghost predicate Steps(t: Record, journalId: Id, protected: set<Id>, ws: seq<World>) {
    |ws| < 2 || (Steps(t, journalId, protected, ws[..|ws| - 1])
                 && ProgramStep(t, journalId, protected, ws[|ws| - 2], ws[|ws| - 1]))
  }

  /** A recorded sequence of worlds in which only commit, recovery and the environment
      acted, one step at a time. When it starts synchronized, at most one directory
      operation is ever waiting to become durable. */
  ghost predicate Trace(t: Record, journalId: Id, protected: set<Id>, ws: seq<World>) {
    && |ws| > 0
    && WellFormed(t, journalId) && Mine(t, journalId) <= protected
    && Steps(t, journalId, protected, ws)
    && InChain(t, journalId, ws[0])
    && (ws[0].stage == ws[0].durableStage ==> forall i | 0 <= i < |ws| :: ws[i].stage <= ws[i].durableStage + 1)
  }

  lemma {:induction false} StepsAt(t: Record, journalId: Id, protected: set<Id>, ws: seq<World>, i: nat)
    requires Steps(t, journalId, protected, ws) && i + 1 < |ws|
    ensures ProgramStep(t, journalId, protected, ws[i], ws[i + 1])
  {
    if i + 2 < |ws| { StepsAt(t, journalId, protected, ws[..|ws| - 1], i); }
  }

  lemma StepsAreRun(t: Record, journalId: Id, protected: set<Id>, ws: seq<World>)
    requires Steps(t, journalId, protected, ws)
    ensures Run(t, journalId, protected, ws)
  {
    forall i, j | 0 <= i < j < |ws| && j == i + 1 ensures Step(t, journalId, protected, ws[i], ws[j]) {
      StepsAt(t, journalId, protected, ws, i);
    }
  }

  /** A trace is a run, so every promise about runs holds of it. */
  lemma TraceIsRun(t: Record, journalId: Id, protected: set<Id>, ws: seq<World>)
    requires Trace(t, journalId, protected, ws)
    ensures Run(t, journalId, protected, ws)
    ensures InChain(t, journalId, ws[0]) && InChain(t, journalId, ws[|ws| - 1])
  {
    StepsAreRun(t, journalId, protected, ws);
    RunKeepsChain(t, journalId, protected, ws, |ws| - 1);
  }

  lemma TraceExtend(t: Record, journalId: Id, protected: set<Id>, ws: seq<World>, w: World)
    requires Trace(t, journalId, protected, ws)
    requires ProgramStep(t, journalId, protected, ws[|ws| - 1], w)
    requires ws[0].stage == ws[0].durableStage ==> w.stage <= w.durableStage + 1
    ensures Trace(t, journalId, protected, ws + [w])
  {
    assert (ws + [w])[..|ws|] == ws;
  }

  lemma TraceEnv(t: Record, journalId: Id, protected: set<Id>, ws: seq<World>, w: World)
    requires Trace(t, journalId, protected, ws)
    requires EnvStep(JournalName(t.primary), protected, ws[|ws| - 1], w) || SyncStep(ws[|ws| - 1], w)
    ensures Trace(t, journalId, protected, ws + [w])
  {
    TraceExtend(t, journalId, protected, ws, w);
  }

  /** The last world of a trace has no operation waiting, if the trace promises a bounded lag. */
  ghost predicate Settled(ws: seq<World>) {
    |ws| > 0 && (ws[0].stage == ws[0].durableStage ==> ws[|ws| - 1].stage == ws[|ws| - 1].durableStage)
  }

  lemma TraceMoveOut(t: Record, journalId: Id, protected: set<Id>, ws: seq<World>, bump: nat)
    requires Trace(t, journalId, protected, ws) && Settled(ws)
    requires var w := ws[|ws| - 1];
             && 1 <= w.stage <= |t.members|
             && t.members[w.stage - 1].name in Inside(w.live, t.holder) && t.members[w.stage - 1].name !in w.live.parent
    ensures var w := ws[|ws| - 1];
            var d := Install(w.live, t.holder, t.members[w.stage - 1].name, bump);
            Trace(t, journalId, protected, ws + [World(d, w.durable, w.stage + 1, w.durableStage)])
  {
    hide Trace, EnvStep, SyncStep;
    var w := ws[|ws| - 1];
    var d := Install(w.live, t.holder, t.members[w.stage - 1].name, bump);
    assert ActStep(t, journalId, w, World(d, w.durable, w.stage + 1, w.durableStage));
    TraceExtend(t, journalId, protected, ws, World(d, w.durable, w.stage + 1, w.durableStage));
  }

  lemma TraceRemoveHolder(t: Record, journalId: Id, protected: set<Id>, ws: seq<World>)
    requires Trace(t, journalId, protected, ws) && Settled(ws)
    requires ws[|ws| - 1].stage == |t.members| + 1 && Inside(ws[|ws| - 1].live, t.holder) == map[]
    ensures var w := ws[|ws| - 1];
            Trace(t, journalId, protected,
                  ws + [World(RemoveDir(w.live, t.holder), w.durable, w.stage + 1, w.durableStage)])
  {
    hide Trace, EnvStep, SyncStep;
    var w := ws[|ws| - 1];
    assert ActStep(t, journalId, w, World(RemoveDir(w.live, t.holder), w.durable, w.stage + 1, w.durableStage));
    TraceExtend(t, journalId, protected, ws,
                World(RemoveDir(w.live, t.holder), w.durable, w.stage + 1, w.durableStage));
  }

  lemma TraceUnlinkJournal(t: Record, journalId: Id, protected: set<Id>, ws: seq<World>)
    requires Trace(t, journalId, protected, ws) && Settled(ws)
    requires ws[|ws| - 1].stage == |t.members| + 2
    ensures var w := ws[|ws| - 1];
            Trace(t, journalId, protected,
                  ws + [World(Unlink(w.live, JournalName(t.primary)), w.durable, w.stage + 1, w.durableStage)])
  {
    hide Trace, EnvStep, SyncStep;
    var w := ws[|ws| - 1];
    var d := Unlink(w.live, JournalName(t.primary));
    assert ActStep(t, journalId, w, World(d, w.durable, w.stage + 1, w.durableStage));
    TraceExtend(t, journalId, protected, ws, World(d, w.durable, w.stage + 1, w.durableStage));
  }

  lemma TracePublish(t: Record, journalId: Id, protected: set<Id>, ws: seq<World>, inode: Inode)
    requires Trace(t, journalId, protected, ws) && Settled(ws)
    requires ws[|ws| - 1].stage == 0 && JournalName(t.primary) !in ws[|ws| - 1].live.parent
    requires inode.content == Journal(t)
    ensures var w := ws[|ws| - 1];
            Trace(t, journalId, protected,
                  ws + [World(Publish(w.live, JournalName(t.primary), journalId, inode), w.durable, w.stage + 1,
                              w.durableStage)])
  {
    hide Trace, EnvStep, SyncStep;
    var w := ws[|ws| - 1];
    var d := Publish(w.live, JournalName(t.primary), journalId, inode);
    assert ActStep(t, journalId, w, World(d, w.durable, w.stage + 1, w.durableStage));
    TraceExtend(t, journalId, protected, ws, World(d, w.durable, w.stage + 1, w.durableStage));
  }

  /** Protected regular files keep their directory entries, apart from the entry `except`. */
  ghost predicate KeepsFiles(protected: set<Id>, d: Disk, d': Disk, except: set<Name>) {
    forall n | n in d.parent && n !in except && d.parent[n].kind.File? && d.parent[n].id in protected ::
      n in d'.parent && d'.parent[n] == d.parent[n]
  }

  lemma EnvKeepsFiles(reserved: Name, protected: set<Id>, d: Disk, d': Disk)
    requires EnvOk(reserved, protected, d, d')
    ensures KeepsFiles(protected, d, d', {})
  {
    forall n | n in d.parent && d.parent[n].id in protected ensures n in d'.parent && d'.parent[n] == d.parent[n] {
      assert n in Part(d.parent, protected);
      assert n in Part(d'.parent, protected);
    }
  }

  /** World `k` is the one before it after the rename. */
  ghost predicate Renamed(ws: seq<World>, k: nat, holder: Name, name: Name, bump: nat) {
    && 0 < k < |ws| && name in Inside(ws[k - 1].live, holder) && name !in ws[k - 1].live.parent
    && ws[k].live == Install(ws[k - 1].live, holder, name, bump)
  }

  /** World `k` is the one before it after the empty directory was removed. */
  ghost predicate Removed(ws: seq<World>, k: nat, name: Name) {
    0 < k < |ws| && Inside(ws[k - 1].live, name) == map[] && ws[k].live == RemoveDir(ws[k - 1].live, name)
  }

  /** What became of a file to be published: there, not there, or there although the call failed. */
  datatype Published = Done | Refused | Visible

  class Volume {
    var live: Disk
    var durable: Disk
    const quiet: bool
    const renameBump: nat
    /** The identity the next created file receives. */
    const nextId: Id

    /** Which records encode to at most the journal's size limit. */
    const encodable: Record -> bool

    /** The identities other programs leave alone. */
    const protected: set<Id>

    /** The transaction being followed; the lock on its primary keeps other journals off its name. */
    const t: Record

    /** Ghost state: the worlds passed through since the current call began. */
    ghost const journalId: Id
    ghost var stage: nat
    ghost var durableStage: nat
    ghost var history: seq<World>

    ghost function Now(): World
      reads this
    {
      World(live, durable, stage, durableStage)
    }

    ghost predicate Valid()
      reads this
    {
      |history| > 0 && history[|history| - 1] == Now()
    }

    ghost predicate Tracked()
      reads this
    {
      Valid() && Trace(t, journalId, protected, history)
    }

    method Interfere()
      requires Valid()
      modifies this
      ensures Valid() && history == old(history) + [Now()]
      ensures EnvStep(JournalName(t.primary), protected, old(Now()), Now())
      ensures quiet ==> live == old(live) && durable == old(durable)
      ensures KeepsFiles(protected, old(live), live, {})
      ensures old(Tracked()) ==> Tracked()
      ensures Settled(old(history)) ==> Settled(history)
    {
      hide Trace;
      EnvReflexive(JournalName(t.primary), protected, live);
      EnvReflexive(JournalName(t.primary), protected, durable);
      if !quiet {
        var d: Disk, e: Disk := *, *;
        if EnvOk(JournalName(t.primary), protected, live, d) && EnvOk(JournalName(t.primary), protected, durable, e) {
          EnvKeepsFiles(JournalName(t.primary), protected, live, d);
          live, durable := d, e;
        }
      }
      if Trace(t, journalId, protected, history) {
        TraceEnv(t, journalId, protected, history, Now());
      }
      history := history + [Now()];
    }

    method Fault() returns (failed: bool)
      ensures quiet ==> !failed
    {
      if quiet { failed := false; } else { failed := *; }
    }

    /** Synchronizes the destination directory. A reported failure may still have reached the disk. */
    method SyncParent() returns (ok: bool)
      requires Valid()
      modifies this
      ensures Valid() && live == old(live) && stage == old(stage)
      ensures ok || quiet ==> durable == live && durableStage == stage
      ensures quiet ==> ok
      ensures old(Tracked()) ==> Tracked()
      ensures ok ==> Settled(history)
      ensures old(history) <= history
    {
      hide Trace;
      var failed := Fault();
      var reached := true;
      if failed { reached := *; }
      if reached {
        durable := live;
        durableStage := stage;
        if Trace(t, journalId, protected, history) {
          TraceEnv(t, journalId, protected, history, Now());
        }
        history := history + [Now()];
      }
      ok := !failed;
    }

    /** `move_path_no_replace` from the staging directory into its parent. */
    method MoveOut(holder: Name, name: Name) returns (ok: bool)
      requires Valid()
      modifies this
      ensures Valid() && old(history) <= history
      ensures quiet ==> durable == old(durable)
      ensures quiet ==> (ok <==> name in Inside(old(live), holder) && name !in old(live).parent)
      ensures quiet ==> live == if ok then Install(old(live), holder, name, renameBump) else old(live)
      ensures ok ==> |history| == |old(history)| + 2 && Renamed(history, |history| - 1, holder, name, renameBump)
      ensures !ok ==> stage == old(stage) && (old(Tracked()) ==> Tracked())
      ensures ok && old(Tracked()) && Settled(old(history))
              && holder == t.holder && 1 <= old(stage) <= |t.members| && name == t.members[old(stage) - 1].name
              ==> Tracked() && stage == old(stage) + 1
    {
      hide Trace;
      Interfere();
      var failed := Fault();
      ok := !failed && name in Inside(live, holder) && name !in live.parent;
      if ok {
        if Trace(t, journalId, protected, history) && Settled(history)
           && holder == t.holder && 1 <= stage <= |t.members| && name == t.members[stage - 1].name {
          TraceMoveOut(t, journalId, protected, history, renameBump);
        }
        live := Install(live, holder, name, renameBump);
        stage := stage + 1;
        history := history + [Now()];
      }
    }

    method RemoveDirectory(name: Name) returns (ok: bool)
      requires Valid()
      modifies this
      ensures Valid() && old(history) <= history
      ensures KeepsFiles(protected, old(live), live, {})
      ensures quiet ==> durable == old(durable)
      ensures quiet ==> (ok <==>
                         name in old(live).parent && old(live).parent[name].kind.Directory?
                           && Inside(old(live), name) == map[])
      ensures quiet ==> live == if ok then RemoveDir(old(live), name) else old(live)
      ensures ok ==> |history| == |old(history)| + 2 && Removed(history, |history| - 1, name)
      ensures !ok ==> stage == old(stage) && (old(Tracked()) ==> Tracked())
      ensures ok && old(Tracked()) && Settled(old(history)) && name == t.holder && old(stage) == |t.members| + 1
              ==> Tracked() && stage == old(stage) + 1
    {
      hide Trace;
      Interfere();
      var failed := Fault();
      ok := !failed && name in live.parent && live.parent[name].kind.Directory? && Inside(live, name) == map[];
      if ok {
        if Trace(t, journalId, protected, history) && Settled(history)
           && name == t.holder && stage == |t.members| + 1 {
          TraceRemoveHolder(t, journalId, protected, history);
        }
        live := RemoveDir(live, name);
        stage := stage + 1;
        history := history + [Now()];
      }
    }

    /** `remove_bound_file`: the identity check and the unlink are one step. */
    method RemoveBoundFile(name: Name, id: Id) returns (ok: bool)
      requires Valid()
      modifies this
      ensures Valid() && old(history) <= history
      ensures KeepsFiles(protected, old(live), live, {name})
      ensures quiet ==> durable == old(durable)
      ensures quiet ==> (ok <==> name in old(live).parent && old(live).parent[name] == Entry(File, id))
      ensures quiet ==> live == if ok then Unlink(old(live), name) else old(live)
      ensures !ok ==> stage == old(stage) && (old(Tracked()) ==> Tracked())
      ensures ok && old(Tracked()) && Settled(old(history)) && name == JournalName(t.primary)
              && old(stage) == |t.members| + 2
              ==> Tracked() && stage == old(stage) + 1
    {
      hide Trace;
      Interfere();
      var failed := Fault();
      ok := !failed && name in live.parent && live.parent[name] == Entry(File, id);
      if ok {
        if Trace(t, journalId, protected, history) && Settled(history)
           && name == JournalName(t.primary) && stage == |t.members| + 2 {
          TraceUnlinkJournal(t, journalId, protected, history);
        }
        live := Unlink(live, name);
        stage := stage + 1;
        history := history + [Now()];
      }
    }

    /** The no-replace rename that makes the completely written journal visible. It may report a
        failure although the journal is there. */
    method PublishFile(name: Name, inode: Inode) returns (r: Published)
      requires Valid()
      modifies this
      ensures Valid() && old(history) <= history
      ensures KeepsFiles(protected, old(live), live, {})
      ensures quiet ==> durable == old(durable)
      ensures quiet ==> (r.Done? <==> name !in old(live).parent && nextId !in old(live).inodes)
      ensures quiet ==> !r.Visible?
      ensures quiet ==> live == if r.Done? then Publish(old(live), name, nextId, inode) else old(live)
      ensures r.Refused? ==> stage == old(stage) && (old(Tracked()) ==> Tracked())
      ensures !r.Refused? ==> name in live.parent && live.parent[name] == Entry(File, nextId)
      ensures !r.Refused? && old(Tracked()) && Settled(old(history))
              && name == JournalName(t.primary) && inode.content == Journal(t) && nextId == journalId && old(stage) == 0
              ==> Tracked() && stage == 1
    {
      hide Trace;
      Interfere();
      var failed := Fault();
      if failed || name in live.parent || nextId in live.inodes { return Refused; }
      if Trace(t, journalId, protected, history) && Settled(history)
         && name == JournalName(t.primary) && inode.content == Journal(t) && nextId == journalId && stage == 0 {
        TracePublish(t, journalId, protected, history, inode);
      }
      live := Publish(live, name, nextId, inode);
      stage := stage + 1;
      history := history + [Now()];
      failed := Fault();
      r := if failed then Visible else Done;
    }
  }
}
