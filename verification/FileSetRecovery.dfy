/** What an undisturbed recovery makes of any interrupted publication, and the
    publications that can never be recovered. */
module FileSetRecovery {
  import opened FileSetModel
  import opened FileSetSafety
  import opened FileSetVolume
  import opened FileSetPublication
  import opened FileSetPreparation

  /** No other program has put anything in the way: foreign entries use none of the
      transaction's names and the staging directory holds nothing foreign. */
  predicate Unobstructed(t: Record, journalId: Id, d: Disk) {
    && (forall n | n in d.parent && d.parent[n].id !in Mine(t, journalId) ::
          n !in MemberNames(t.members) && n != t.holder)
    && (forall n | n in Inside(d, t.holder) :: Inside(d, t.holder)[n].id in Mine(t, journalId))
  }

  lemma MemberInChain(t: Record, journalId: Id, d: Disk, stage: nat, i: nat)
    requires WellFormed(t, journalId) && Stage(t, journalId, d, stage) && i < |t.members|
    ensures var m := t.members[i];
            MemberResumable(d, t.holder, m) <==>
              if i < InstalledAt(t, stage) then m.name !in Inside(d, t.holder) else m.name !in d.parent
  {
    var m := t.members[i];
    ExactlyOnePlace(t, journalId, d, stage, i);
    OwnNamesDiffer(t, journalId, i);
    MemberIsOwn(t, i);
    OwnEntries(t, journalId, d, stage, m.name);
    hide Stage, WellFormed;
  }

  /** An owned identity under a member's name is that member. */
  lemma OwnEntries(t: Record, journalId: Id, d: Disk, stage: nat, n: Name)
    requires WellFormed(t, journalId) && Stage(t, journalId, d, stage)
    ensures n in d.parent && n in OwnNames(t) && d.parent[n].id in Mine(t, journalId) ==>
              || n == t.holder || n == JournalName(t.primary)
              || exists i :: 0 <= i < InstalledAt(t, stage) && t.members[i].name == n
    ensures n in Inside(d, t.holder) && Inside(d, t.holder)[n].id in Mine(t, journalId) ==>
              exists i :: InstalledAt(t, stage) <= i < |t.members| && t.members[i].name == n
  {
    hide Part, Mine, Inside, InstalledState, StagedState, JournalAt, Finals, Staged, OwnNames;
    FinalsAt(t.members, InstalledAt(t, stage));
    StagedAt(t.members, InstalledAt(t, stage));
    PartAt(Inside(d, t.holder), Mine(t, journalId), Staged(t.members, InstalledAt(t, stage)), n);
    hide Stage;
    if n in OwnNames(t) { OwnAt(t, journalId, d, stage, n); }
  }

  /** Between journal and cleanup, recovery can resume a directory state exactly when no
      foreign entry is in the way. */
  lemma InterruptedIsResumable(t: Record, journalId: Id, d: Disk, stage: nat)
    requires WellFormed(t, journalId) && Stage(t, journalId, d, stage) && 1 <= stage <= |t.members| + 2
    ensures Resolves(t.primary, t)
    ensures JournalAt(d, t.primary) && JournalIn(d, t.primary) == t
    ensures Resumable(d, t) <==> Unobstructed(t, journalId, d)
  {
    HolderAndJournalPlace(t, journalId, d, stage);
    if Unobstructed(t, journalId, d) { UnobstructedResumes(t, journalId, d, stage); }
    if Resumable(d, t) { ResumableIsUnobstructed(t, journalId, d, stage); }
  }

  lemma UnobstructedResumes(t: Record, journalId: Id, d: Disk, stage: nat)
    requires WellFormed(t, journalId) && Stage(t, journalId, d, stage) && Unobstructed(t, journalId, d)
    ensures Resumable(d, t)
  {
    forall m | m in t.members ensures MemberResumable(d, t.holder, m) {
      var i :| 0 <= i < |t.members| && t.members[i] == m;
      MemberInChain(t, journalId, d, stage, i);
      MemberIsMine(t, journalId, i);
      OwnNamesDiffer(t, journalId, i);
      MemberIsOwn(t, i);
      OwnEntries(t, journalId, d, stage, m.name);
    }
    HolderAndJournalPlace(t, journalId, d, stage);
    forall n | n in Inside(d, t.holder) ensures n in MemberNames(t.members) {
      OwnEntries(t, journalId, d, stage, n);
      var i :| 0 <= i < |t.members| && t.members[i].name == n;
      MemberIsMine(t, journalId, i);
    }
    HolderEntry(t, journalId, d, stage);
  }

  lemma HolderEntry(t: Record, journalId: Id, d: Disk, stage: nat)
    requires WellFormed(t, journalId) && Stage(t, journalId, d, stage)
    ensures t.holder in d.parent && d.parent[t.holder].id in Mine(t, journalId) ==>
              d.parent[t.holder] == Entry(Directory, t.holderId)
  {
    FinalsAt(t.members, InstalledAt(t, stage));
    forall i | 0 <= i < |t.members| ensures t.members[i].name != t.holder { OwnNamesDiffer(t, journalId, i); }
    OwnAt(t, journalId, d, stage, t.holder);
  }

  lemma ResumableIsUnobstructed(t: Record, journalId: Id, d: Disk, stage: nat)
    requires WellFormed(t, journalId) && Stage(t, journalId, d, stage) && Resumable(d, t)
    ensures Unobstructed(t, journalId, d)
  {
    forall n | n in d.parent && d.parent[n].id !in Mine(t, journalId)
      ensures n !in MemberNames(t.members) && n != t.holder
    {
      forall i | 0 <= i < |t.members| ensures t.members[i].name != n {
        assert t.members[i] in t.members;
        MemberIsMine(t, journalId, i);
        MemberInChain(t, journalId, d, stage, i);
        ExactlyOnePlace(t, journalId, d, stage, i);
      }
    }
    forall n | n in Inside(d, t.holder) ensures Inside(d, t.holder)[n].id in Mine(t, journalId) {
      assert n in MemberNames(t.members);
      var i :| 0 <= i < |t.members| && t.members[i].name == n;
      assert t.members[i] in t.members;
      MemberIsMine(t, journalId, i);
      MemberInChain(t, journalId, d, stage, i);
      ExactlyOnePlace(t, journalId, d, stage, i);
    }
  }

  /** Once the journal is durable, after any further run of commit, recovery, crashes and foreign
      activity one undisturbed recovery finds the publication finished or finishes it, unless a
      foreign entry is in the way: every member ends at its final path with its identity and
      contents, no staged file, staging directory or journal is left, and foreign entries stay.
      Whatever it reports, the publication is still at one of its stages. */
  method FinishInterrupted(v: Volume, primary: Name, ghost ws: seq<World>, ghost k: nat, ghost i: nat)
    returns (r: Recovery)
    requires WellFormed(v.t, v.journalId) && Mine(v.t, v.journalId) <= v.protected
    requires Run(v.t, v.journalId, v.protected, ws) && k <= i < |ws| && InChain(v.t, v.journalId, ws[0])
    requires ws[k].durableStage >= 1
    requires v.quiet && v.Now() == ws[i] && primary == v.t.primary
    modifies v
    ensures InChain(v.t, v.journalId, v.Now())
    ensures r.Completed? <==> JournalAt(old(v.live), primary) && Unobstructed(v.t, v.journalId, old(v.live))
    ensures r.NothingPending? <==> JournalName(primary) !in old(v.live).parent
    ensures r.Completed? ==> v.durable == v.live
    ensures r.NothingPending? ==> v.live == old(v.live)
    ensures !r.Failed? ==>
              && Remaining(v.t, v.journalId, v.live) == 0
              && (forall m | m in v.t.members :: AtFinal(v.live, m) && InstalledState(v.live, m))
              && forall n | n in old(v.live).parent && old(v.live).parent[n].id !in Mine(v.t, v.journalId) ::
                   n in v.live.parent && v.live.parent[n] == old(v.live).parent[n]
  {
    hide Stage, Trace, InChain, Resumable, Unobstructed, Resolves, Settled, SameContents, WellFormed, Run, KeepsFiles,
         AtFinal, InstalledState, Remaining, CompletedParent, Mine, JournalAt, JournalName;
    DurableJournalWorld(v.t, v.journalId, v.protected, ws, k, i);
    if JournalAt(v.live, primary) { InterruptedWorld(v.t, v.journalId, v.protected, ws, i); }
    ghost var d := v.live;
    v.history := [v.Now()];
    StartTrace(v);
    r := RecoverLocked(v, primary);
    NoNameNoJournal(d, primary);
    TraceIsRun(v.t, v.journalId, v.protected, v.history);
    if r.Completed? {
      TrackedStage(v);
      FinishedStage(v.t, v.journalId, v.live);
      ForeignKept(v.t, v.journalId, d);
    } else if r.NothingPending? {
      FinishedStage(v.t, v.journalId, v.live);
    }
  }

  lemma NoNameNoJournal(d: Disk, primary: Name)
    ensures JournalAt(d, primary) ==> JournalName(primary) in d.parent
  {
  }

  /** No event of a run takes back what was durable. */
  lemma {:induction false} DurableStageGrows(t: Record, journalId: Id, protected: set<Id>, ws: seq<World>, k: nat,
                                             i: nat)
    requires WellFormed(t, journalId) && Mine(t, journalId) <= protected
    requires Run(t, journalId, protected, ws) && k <= i < |ws| && InChain(t, journalId, ws[0])
    ensures ws[k].durableStage <= ws[i].durableStage
  {
    hide Stage, WellFormed, Mine, Step;
    if k < i {
      DurableStageGrows(t, journalId, protected, ws, k, i - 1);
      RunKeepsChain(t, journalId, protected, ws, i - 1);
      assert Step(t, journalId, protected, ws[i - 1], ws[i]);
      StepKeepsDurable(t, journalId, protected, ws[i - 1], ws[i]);
    }
  }

  lemma StepKeepsDurable(t: Record, journalId: Id, protected: set<Id>, w: World, w': World)
    requires InChain(t, journalId, w) && Step(t, journalId, protected, w, w')
    ensures w.durableStage <= w'.durableStage
  {
    hide Stage, EnvOk, Act;
  }

  /** With a durable journal in its past, a world without the journal is a finished one. */
  lemma DurableJournalWorld(t: Record, journalId: Id, protected: set<Id>, ws: seq<World>, k: nat, i: nat)
    requires WellFormed(t, journalId) && Mine(t, journalId) <= protected
    requires Run(t, journalId, protected, ws) && k <= i < |ws| && InChain(t, journalId, ws[0])
    requires ws[k].durableStage >= 1
    ensures InChain(t, journalId, ws[i])
    ensures !JournalAt(ws[i].live, t.primary) ==> Stage(t, journalId, ws[i].live, LastStage(t))
  {
    DurableStageGrows(t, journalId, protected, ws, k, i);
    RunKeepsChain(t, journalId, protected, ws, i);
    hide Run;
    HolderAndJournalPlace(t, journalId, ws[i].live, ws[i].stage);
    if !JournalAt(ws[i].live, t.primary) { NoJournalStage(t, journalId, ws[i].live, ws[i].stage); }
  }

  lemma NoJournalStage(t: Record, journalId: Id, d: Disk, stage: nat)
    requires WellFormed(t, journalId) && Stage(t, journalId, d, stage) && 1 <= stage && !JournalAt(d, t.primary)
    ensures stage == LastStage(t)
  {
    HolderAndJournalPlace(t, journalId, d, stage);
  }

  /** A reachable world with a pending journal is one that recovery recognizes. */
  lemma InterruptedWorld(t: Record, journalId: Id, protected: set<Id>, ws: seq<World>, i: nat)
    requires WellFormed(t, journalId) && Mine(t, journalId) <= protected
    requires Run(t, journalId, protected, ws) && i < |ws| && InChain(t, journalId, ws[0])
    requires JournalAt(ws[i].live, t.primary)
    ensures InChain(t, journalId, ws[i])
    ensures JournalIn(ws[i].live, t.primary) == t && Resolves(t.primary, t)
    ensures ws[i].live.parent[JournalName(t.primary)].id == journalId
    ensures Resumable(ws[i].live, t) <==> Unobstructed(t, journalId, ws[i].live)
  {
    hide Step;
    RunKeepsChain(t, journalId, protected, ws, i);
    PendingStage(t, journalId, ws[i].live, ws[i].stage);
    HolderAndJournalPlace(t, journalId, ws[i].live, ws[i].stage);
    InterruptedIsResumable(t, journalId, ws[i].live, ws[i].stage);
  }

  lemma PendingStage(t: Record, journalId: Id, d: Disk, stage: nat)
    requires Stage(t, journalId, d, stage) && JournalAt(d, t.primary)
    ensures 1 <= stage <= |t.members| + 2
  {
  }

  lemma FinishedStage(t: Record, journalId: Id, d: Disk)
    requires WellFormed(t, journalId) && Stage(t, journalId, d, LastStage(t))
    ensures Remaining(t, journalId, d) == 0
    ensures forall m | m in t.members :: AtFinal(d, m) && InstalledState(d, m)
  {
    RemainingIsDistance(t, journalId, d, LastStage(t));
    forall m | m in t.members ensures AtFinal(d, m) && InstalledState(d, m) {
      var k :| 0 <= k < |t.members| && t.members[k] == m;
      ExactlyOnePlace(t, journalId, d, LastStage(t), k);
    }
  }

  lemma ForeignKept(t: Record, journalId: Id, d: Disk)
    requires WellFormed(t, journalId) && JournalAt(d, t.primary) && JournalIn(d, t.primary) == t
    requires d.parent[JournalName(t.primary)].id == journalId
    requires Unobstructed(t, journalId, d)
    ensures forall n | n in d.parent && d.parent[n].id !in Mine(t, journalId) ::
              n in CompletedParent(d, t) && CompletedParent(d, t)[n] == d.parent[n]
  {
    FinalsAt(t.members, |t.members|);
    forall i | 0 <= i < |t.members|
      ensures t.members[i].name in MemberNames(t.members)
    {
      MemberIsMine(t, journalId, i);
    }
  }

  // ----- publications recovery cannot finish -----

  /** If a crash undoes the rename but keeps the change time that the rename gave the file, the
      staged member no longer matches the journal and recovery gives up: exactly when the rename
      moved the change time, whatever else is there. */
  lemma TornChangeTimeBlocksRecovery(t: Record, journalId: Id, d: Disk, stage: nat, bump: nat)
    requires WellFormed(t, journalId) && Stage(t, journalId, d, stage) && 1 <= stage <= |t.members|
    requires t.members[stage - 1].name !in d.parent
    ensures t.members[stage - 1].name in Inside(d, t.holder)
    ensures var torn := d.(inodes := Install(d, t.holder, t.members[stage - 1].name, bump).inodes);
            Resumable(torn, t) <==> bump == 0 && Resumable(d, t)
  {
    ExactlyOnePlace(t, journalId, d, stage, stage - 1);
    var m := t.members[stage - 1];
    assert m in t.members;
    var torn := d.(inodes := Install(d, t.holder, m.name, bump).inodes);
    assert Inside(torn, t.holder) == Inside(d, t.holder);
    if bump == 0 {
      assert torn.inodes == d.inodes;
    } else {
      assert !MemberResumable(torn, t.holder, m);
    }
  }

  /** If somebody changes the file of a member, recovery can go on exactly when its contents are as
      before, and its size and modification time, and while it is staged its change time too. */
  lemma ChangedMemberBlocksRecovery(t: Record, journalId: Id, d: Disk, stage: nat, k: nat, inode: Inode)
    requires WellFormed(t, journalId) && Stage(t, journalId, d, stage) && k < |t.members|
    ensures var m := t.members[k];
            Resumable(d.(inodes := d.inodes[m.id := inode]), t) <==>
              && Resumable(d, t) && inode.content == Data(m.digest)
              && inode.state.bytes == m.state.bytes && inode.state.modified == m.state.modified
              && (k >= InstalledAt(t, stage) ==> inode.state.changed == m.state.changed)
  {
    hide Stage;
    var m := t.members[k];
    var changed := d.(inodes := d.inodes[m.id := inode]);
    assert m in t.members;
    assert Inside(changed, t.holder) == Inside(d, t.holder);
    ExactlyOnePlace(t, journalId, d, stage, k);
    hide Inside;
    forall other | other in t.members && other != m
      ensures MemberResumable(changed, t.holder, other) <==> MemberResumable(d, t.holder, other)
    {
      assert other.id != m.id;
    }
    assert MemberResumable(changed, t.holder, m) <==>
           && MemberResumable(d, t.holder, m) && inode.content == Data(m.digest)
           && inode.state.bytes == m.state.bytes && inode.state.modified == m.state.modified
           && (k >= InstalledAt(t, stage) ==> inode.state.changed == m.state.changed);
  }

  /** A member that carries the journal's own name can never be recovered once the journal exists. */
  lemma MemberNamedLikeJournalBlocksRecovery(d: Disk, rec: Record, m: Member)
    requires m in rec.members && m.name == JournalName(rec.primary) && JournalAt(d, rec.primary)
    ensures !Resumable(d, rec)
  {
    assert !MemberResumable(d, rec.holder, m);
  }

  /** For a prepared set with its journal published, recovery can do its work exactly when no two
      staged files are links to one file and none carries the journal's name. */
  lemma PreparedIsRecoverable(d: Disk, rec: Record, staged: seq<Name>, id: Id, inode: Inode)
    requires PreparedFrom(d, rec, staged)
    requires JournalName(rec.primary) !in d.parent && id !in d.inodes && inode.content == Journal(rec)
    ensures var d1 := Publish(d, JournalName(rec.primary), id, inode);
            && JournalAt(d1, rec.primary) && JournalIn(d1, rec.primary) == rec
            && ((Resolves(rec.primary, rec) && Resumable(d1, rec)) <==>
                  JournalName(rec.primary) !in staged && DistinctStaged(d, rec.holder, staged))
  {
    var d1 := Publish(d, JournalName(rec.primary), id, inode);
    assert JournalAt(d1, rec.primary) && JournalIn(d1, rec.primary) == rec;
    hide Resumable, Resolves, JournalAt, DistinctStaged;
    if JournalName(rec.primary) !in staged && DistinctStaged(d, rec.holder, staged) {
      DistinctIsRecoverable(d, rec, staged, id, inode);
    }
    if Resolves(rec.primary, rec) && Resumable(d1, rec) { RecoverableIsDistinct(d1, d, rec, staged); }
  }

  lemma DistinctIsRecoverable(d: Disk, rec: Record, staged: seq<Name>, id: Id, inode: Inode)
    requires PreparedFrom(d, rec, staged) && JournalName(rec.primary) !in staged
             && DistinctStaged(d, rec.holder, staged)
    requires JournalName(rec.primary) !in d.parent && id !in d.inodes
    ensures Resolves(rec.primary, rec) && Resumable(Publish(d, JournalName(rec.primary), id, inode), rec)
  {
    var bound: seq<Member> :| BoundAs(d, rec.holder, staged, bound) && multiset(rec.members) == multiset(bound);
    BoundNames(d, rec.holder, staged, bound);
    hide BoundAs, Resumable, StagedState, Inside;
    StartDistinct(rec.members, staged, bound);
    hide DistinctMembers, DistinctIds, DistinctStaged;
    MemberNamesAre(rec.members, staged, bound);
    StartEntries(d, rec, staged, bound);
    StagedIsResumable(d, rec, id, inode);
  }

  lemma RecoverableIsDistinct(d1: Disk, d: Disk, rec: Record, staged: seq<Name>)
    requires PreparedFrom(d, rec, staged)
    requires Resolves(rec.primary, rec) && Resumable(d1, rec) && JournalAt(d1, rec.primary)
    ensures JournalName(rec.primary) !in staged && DistinctStaged(d, rec.holder, staged)
  {
    hide BoundAs, Resumable, StagedState, Inside, JournalAt;
    var bound: seq<Member> :| BoundAs(d, rec.holder, staged, bound) && multiset(rec.members) == multiset(bound);
    BoundNames(d, rec.holder, staged, bound);
    IdsStayDistinct(bound, rec.members);
    MemberNamesAre(rec.members, staged, bound);
    forall m | m in rec.members ensures m.name != JournalName(rec.primary) {
      if m.name == JournalName(rec.primary) { MemberNamedLikeJournalBlocksRecovery(d1, rec, m); }
    }
  }

  lemma StagedIsResumable(d: Disk, rec: Record, id: Id, inode: Inode)
    requires JournalName(rec.primary) !in d.parent && id !in d.inodes
    requires rec.holder in d.parent && d.parent[rec.holder] == Entry(Directory, rec.holderId)
    requires Inside(d, rec.holder).Keys == MemberNames(rec.members)
    requires forall n | n in MemberNames(rec.members) :: n !in d.parent && n != JournalName(rec.primary)
    requires forall i | 0 <= i < |rec.members| ::
               && rec.members[i].name in Inside(d, rec.holder)
               && Inside(d, rec.holder)[rec.members[i].name] == Entry(File, rec.members[i].id)
               && StagedState(d, rec.members[i])
    ensures Resumable(Publish(d, JournalName(rec.primary), id, inode), rec)
  {
    var d1 := Publish(d, JournalName(rec.primary), id, inode);
    assert Inside(d1, rec.holder) == Inside(d, rec.holder);
    forall m | m in rec.members ensures MemberResumable(d1, rec.holder, m) {
      var i :| 0 <= i < |rec.members| && rec.members[i] == m;
      assert m.name in MemberNames(rec.members);
    }
  }

  /** Two staged links to one file make a journal that recovery never accepts, wherever it finds it. */
  lemma LinkedMembersBlockRecovery(d: Disk, rec: Record, staged: seq<Name>, i: nat, j: nat)
    requires PreparedFrom(d, rec, staged) && i < j < |staged|
    requires Inside(d, rec.holder)[staged[i]].id == Inside(d, rec.holder)[staged[j]].id
    ensures forall primary :: !Resolves(primary, rec)
  {
    if DistinctMembers(rec.members) {
      var bound: seq<Member> :| BoundAs(d, rec.holder, staged, bound) && multiset(rec.members) == multiset(bound);
      BoundNames(d, rec.holder, staged, bound);
      IdsStayDistinct(bound, rec.members);
    }
  }

  /** A directory with two staged links to one file, and the record that preparation makes of it. */
  const TWO_LINKS: Disk :=
    Disk(map["h" := Entry(Directory, 1)],
         map["h" := map["a" := Entry(File, 2), "b" := Entry(File, 2)]],
         map[2 := Inode(FileState(1, 0, 0), Data([7]))])

  const TWO_LINKS_RECORD: Record :=
    var state := FileState(1, 0, 0);
    Record(JOURNAL_VERSION, "b", "h", 1, [Member("a", 2, state, [7]), Member("b", 2, state, [7])])

  /** Preparation accepts it, and once journaled it cannot be recovered. */
  lemma TwoLinksAreAcceptedAndStuck()
    ensures PreparedFrom(TWO_LINKS, TWO_LINKS_RECORD, ["a", "b"])
    ensures !Resolves("b", TWO_LINKS_RECORD)
  {
    var ms := TWO_LINKS_RECORD.members;
    assert "a" != "b" && "a" != "h" && "b" != "h";
    assert Inside(TWO_LINKS, "h") == TWO_LINKS.dirs["h"];
    assert BoundAs(TWO_LINKS, "h", ["a", "b"], ms);
    assert Inside(TWO_LINKS, "h").Keys == set n | n in ["a", "b"];
    assert ms[0].id == ms[1].id;
  }
}
