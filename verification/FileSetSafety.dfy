/** What every run of a file-set publication keeps: commit, recovery, crashes and
    a busy environment in any order. */
module FileSetSafety {
  import opened FileSetModel

  predicate AtFinal(d: Disk, m: Member) {
    m.name in d.parent && d.parent[m.name].id == m.id
  }

  predicate AtStaged(d: Disk, holder: Name, m: Member) {
    m.name in Inside(d, holder) && Inside(d, holder)[m.name].id == m.id
  }

  predicate HolderAt(t: Record, d: Disk) {
    t.holder in d.parent && d.parent[t.holder] == Entry(Directory, t.holderId)
  }

  predicate JournalOf(t: Record, journalId: Id, d: Disk) {
    var name := JournalName(t.primary);
    name in d.parent && d.parent[name] == Entry(File, journalId)
    && journalId in d.inodes && d.inodes[journalId].content == Journal(t)
  }

  // ----- what a stage says about single paths -----

  /** A protected identity at a name is seen through the owned part of the listing. */
  lemma PartAt(m: map<Name, Entry>, ids: set<Id>, part: map<Name, Entry>, n: Name)
    requires Part(m, ids) == part
    ensures n in part <==> n in m && m[n].id in ids
    ensures n in part ==> m[n] == part[n]
  {
    assert n in Part(m, ids) <==> n in part;
  }

  /** What the destination directory shows under one of the transaction's names. */
  lemma OwnAt(t: Record, journalId: Id, d: Disk, stage: nat, n: Name)
    requires Stage(t, journalId, d, stage) && n in OwnNames(t)
    ensures var own := OwnParent(t, journalId, stage);
            (n in own <==> n in d.parent && d.parent[n].id in Mine(t, journalId))
              && (n in own ==> d.parent[n] == own[n])
  {
    hide OwnNames, Mine, OwnParent, InstalledState, StagedState, JournalAt;
    PartAt(Named(d.parent, OwnNames(t)), Mine(t, journalId), OwnParent(t, journalId, stage), n);
  }

  lemma MemberIsOwn(t: Record, i: nat)
    requires i < |t.members|
    ensures t.members[i].name in OwnNames(t)
  {
    assert t.members[i] in t.members;
  }

  lemma PartOfNamed(m: map<Name, Entry>, ids: set<Id>, names: set<Name>)
    ensures Part(Named(m, names), ids) == Named(Part(m, ids), names)
  {
  }

  lemma NamedUpdate(m: map<Name, Entry>, names: set<Name>, n: Name, e: Entry)
    requires n in names
    ensures Named(m[n := e], names) == Named(m, names)[n := e]
  {
  }

  lemma NamedRemove(m: map<Name, Entry>, names: set<Name>, n: Name)
    ensures Named(m - {n}, names) == Named(m, names) - {n}
  {
  }

  lemma MemberIsMine(t: Record, journalId: Id, i: nat)
    requires i < |t.members|
    ensures t.members[i].id in Mine(t, journalId)
    ensures t.members[i].name in MemberNames(t.members)
    ensures t.members[i].id in MemberIds(t.members)
  {
    assert t.members[i] in t.members;
  }

  lemma OwnParentMember(t: Record, journalId: Id, stage: nat, i: nat)
    requires WellFormed(t, journalId) && i < |t.members| && stage <= LastStage(t)
    ensures var n, own := t.members[i].name, OwnParent(t, journalId, stage);
            (n in own <==> i < InstalledAt(t, stage)) && (n in own ==> own[n] == Entry(File, t.members[i].id))
  {
    FinalsAt(t.members, InstalledAt(t, stage));
  }

  lemma StagedMember(t: Record, journalId: Id, stage: nat, i: nat)
    requires WellFormed(t, journalId) && i < |t.members| && stage <= LastStage(t)
    ensures var n, staged := t.members[i].name, Staged(t.members, InstalledAt(t, stage));
            (n in staged <==> i >= InstalledAt(t, stage)) && (n in staged ==> staged[n] == Entry(File, t.members[i].id))
  {
    StagedAt(t.members, InstalledAt(t, stage));
  }

  /** In every stage a member is at exactly one of its two paths. */
  lemma ExactlyOnePlace(t: Record, journalId: Id, d: Disk, stage: nat, i: nat)
    requires WellFormed(t, journalId) && Stage(t, journalId, d, stage) && i < |t.members|
    ensures AtFinal(d, t.members[i]) <==> i < InstalledAt(t, stage)
    ensures AtStaged(d, t.holder, t.members[i]) <==> i >= InstalledAt(t, stage)
    ensures AtFinal(d, t.members[i]) ==> d.parent[t.members[i].name].kind.File? && InstalledState(d, t.members[i])
    ensures AtStaged(d, t.holder, t.members[i]) ==>
              Inside(d, t.holder)[t.members[i].name].kind.File? && StagedState(d, t.members[i])
  {
    hide WellFormed, OwnParent, Staged, Mine, InstalledState, StagedState, Part, Inside, JournalAt;
    var m := t.members[i];
    var ids := Mine(t, journalId);
    MemberIsMine(t, journalId, i);
    OwnParentMember(t, journalId, stage, i);
    StagedMember(t, journalId, stage, i);
    MemberIsOwn(t, i);
    OwnAt(t, journalId, d, stage, m.name);
    PartAt(Inside(d, t.holder), ids, Staged(t.members, InstalledAt(t, stage)), m.name);
  }

  lemma HolderAndJournalPlace(t: Record, journalId: Id, d: Disk, stage: nat)
    requires WellFormed(t, journalId) && Stage(t, journalId, d, stage)
    ensures HolderAt(t, d) <==> stage <= |t.members| + 1
    ensures JournalOf(t, journalId, d) <==> 1 <= stage <= |t.members| + 2
    ensures t.holder in d.parent && d.parent[t.holder].id == t.holderId ==> HolderAt(t, d)
  {
    var ids := Mine(t, journalId);
    var own := OwnParent(t, journalId, stage);
    FinalsAt(t.members, InstalledAt(t, stage));
    forall i | 0 <= i < |t.members|
      ensures t.members[i].name != t.holder && t.members[i].name != JournalName(t.primary)
    {
      MemberIsMine(t, journalId, i);
    }
    OwnAt(t, journalId, d, stage, t.holder);
    OwnAt(t, journalId, d, stage, JournalName(t.primary));
  }

  // ----- every kind of step keeps the chain -----

  lemma PartMono(m: map<Name, Entry>, m': map<Name, Entry>, small: set<Id>, large: set<Id>)
    requires small <= large && Part(m, large) == Part(m', large)
    ensures Part(m, small) == Part(m', small)
  {
    assert Part(m, small) == Part(Part(m, large), small);
    assert Part(m', small) == Part(Part(m', large), small);
  }

  lemma EnvReflexive(reserved: Name, protected: set<Id>, d: Disk)
    ensures EnvOk(reserved, protected, d, d)
  {
  }

  lemma EnvKeepsStage(t: Record, journalId: Id, protected: set<Id>, d: Disk, d': Disk, stage: nat)
    requires Mine(t, journalId) <= protected
    requires EnvOk(JournalName(t.primary), protected, d, d') && Stage(t, journalId, d, stage)
    ensures Stage(t, journalId, d', stage)
  {
    EnvKeepsListings(t, journalId, protected, d, d');
    EnvKeepsStates(t, journalId, protected, d, d');
    hide Part, Named, OwnNames, OwnParent, Staged, EnvOk, InstalledState, StagedState;
  }

  lemma EnvKeepsListings(t: Record, journalId: Id, protected: set<Id>, d: Disk, d': Disk)
    requires Mine(t, journalId) <= protected && EnvOk(JournalName(t.primary), protected, d, d')
    ensures Part(Named(d.parent, OwnNames(t)), Mine(t, journalId))
            == Part(Named(d'.parent, OwnNames(t)), Mine(t, journalId))
    ensures Part(Inside(d, t.holder), Mine(t, journalId)) == Part(Inside(d', t.holder), Mine(t, journalId))
  {
    PartMono(d.parent, d'.parent, Mine(t, journalId), protected);
    PartOfNamed(d.parent, Mine(t, journalId), OwnNames(t));
    PartOfNamed(d'.parent, Mine(t, journalId), OwnNames(t));
    hide Named, OwnNames;
    assert t.holder in d.dirs.Keys + d'.dirs.Keys || Inside(d, t.holder) == Inside(d', t.holder) == map[];
    PartMono(Inside(d, t.holder), Inside(d', t.holder), Mine(t, journalId), protected);
  }

  lemma EnvKeepsStates(t: Record, journalId: Id, protected: set<Id>, d: Disk, d': Disk)
    requires Mine(t, journalId) <= protected && EnvOk(JournalName(t.primary), protected, d, d')
    ensures forall i | 0 <= i < |t.members| ::
              && (InstalledState(d, t.members[i]) <==> InstalledState(d', t.members[i]))
              && (StagedState(d, t.members[i]) <==> StagedState(d', t.members[i]))
    ensures journalId in d.inodes <==> journalId in d'.inodes
    ensures journalId in d.inodes ==> d.inodes[journalId] == d'.inodes[journalId]
    ensures JournalAt(d', t.primary) ==> JournalAt(d, t.primary)
  {
    forall i | 0 <= i < |t.members| ensures t.members[i].id in protected { MemberIsMine(t, journalId, i); }
  }

  lemma PublishAdvances(t: Record, journalId: Id, d: Disk, inode: Inode)
    requires WellFormed(t, journalId) && Stage(t, journalId, d, 0)
    requires JournalName(t.primary) !in d.parent && inode.content == Journal(t)
    ensures Stage(t, journalId, Publish(d, JournalName(t.primary), journalId, inode), 1)
  {
    var d' := Publish(d, JournalName(t.primary), journalId, inode);
    var ids := Mine(t, journalId);
    NamedUpdate(d.parent, OwnNames(t), JournalName(t.primary), Entry(File, journalId));
    PartUpdate(Named(d.parent, OwnNames(t)), ids, JournalName(t.primary), Entry(File, journalId));
    forall i | 0 <= i < |t.members| ensures t.members[i].id != journalId { MemberIsMine(t, journalId, i); }
  }

  lemma PartUpdate(m: map<Name, Entry>, ids: set<Id>, n: Name, e: Entry)
    requires e.id in ids
    ensures Part(m[n := e], ids) == Part(m, ids)[n := e]
  {
  }

  lemma PartRemove(m: map<Name, Entry>, ids: set<Id>, n: Name)
    ensures Part(m - {n}, ids) == Part(m, ids) - {n}
  {
  }

  lemma OwnNamesDiffer(t: Record, journalId: Id, i: nat)
    requires WellFormed(t, journalId) && i < |t.members|
    ensures t.members[i].name != t.holder && t.members[i].name != JournalName(t.primary)
    ensures t.members[i].id != t.holderId && t.members[i].id != journalId
    ensures forall k | 0 <= k < |t.members| && k != i ::
            t.members[k].name != t.members[i].name && t.members[k].id != t.members[i].id
  {
    MemberIsMine(t, journalId, i);
  }

  lemma UpdateBeforeUnion(a: map<Name, Entry>, b: map<Name, Entry>, c: map<Name, Entry>, n: Name, e: Entry)
    requires n !in b && n !in c
    ensures a[n := e] + b + c == (a + b + c)[n := e]
  {
  }

  lemma StagedShrinks(ms: seq<Member>, k: nat)
    requires k < |ms| && DistinctMembers(ms)
    ensures Staged(ms, k + 1) == Staged(ms, k) - {ms[k].name}
  {
    StagedAt(ms, k + 1);
  }

  lemma OwnParentInstall(t: Record, journalId: Id, stage: nat)
    requires WellFormed(t, journalId) && 1 <= stage <= |t.members|
    ensures var m := t.members[stage - 1];
            OwnParent(t, journalId, stage + 1) == OwnParent(t, journalId, stage)[m.name := Entry(File, m.id)]
  {
    hide WellFormed;
    var m := t.members[stage - 1];
    OwnNamesDiffer(t, journalId, stage - 1);
    UpdateBeforeUnion(Finals(t.members, stage - 1), map[t.holder := Entry(Directory, t.holderId)],
                      map[JournalName(t.primary) := Entry(File, journalId)], m.name, Entry(File, m.id));
  }

  lemma RemoveFromUnion(a: map<Name, Entry>, b: map<Name, Entry>, n: Name, e: Entry)
    requires n !in a && n !in b
    ensures (a + map[n := e] + b) - {n} == a + map[] + b
    ensures (a + b + map[n := e]) - {n} == a + b + map[]
  {
  }

  lemma FinalsAvoid(t: Record, journalId: Id)
    requires WellFormed(t, journalId)
    ensures t.holder !in Finals(t.members, |t.members|) && JournalName(t.primary) !in Finals(t.members, |t.members|)
  {
    FinalsAt(t.members, |t.members|);
    forall i | 0 <= i < |t.members|
      ensures t.members[i].name != t.holder && t.members[i].name != JournalName(t.primary)
    {
      OwnNamesDiffer(t, journalId, i);
    }
  }

  lemma OwnParentRemoveHolder(t: Record, journalId: Id)
    requires WellFormed(t, journalId)
    ensures OwnParent(t, journalId, |t.members| + 2) == OwnParent(t, journalId, |t.members| + 1) - {t.holder}
  {
    FinalsAvoid(t, journalId);
    RemoveFromUnion(Finals(t.members, |t.members|), map[JournalName(t.primary) := Entry(File, journalId)],
                    t.holder, Entry(Directory, t.holderId));
  }

  lemma OwnParentUnlinkJournal(t: Record, journalId: Id)
    requires WellFormed(t, journalId)
    ensures OwnParent(t, journalId, |t.members| + 3)
            == OwnParent(t, journalId, |t.members| + 2) - {JournalName(t.primary)}
  {
    FinalsAvoid(t, journalId);
    RemoveFromUnion(Finals(t.members, |t.members|), map[], JournalName(t.primary), Entry(File, journalId));
  }

  lemma InstallAdvances(t: Record, journalId: Id, d: Disk, stage: nat, bump: nat)
    requires WellFormed(t, journalId) && Stage(t, journalId, d, stage) && 1 <= stage <= |t.members|
    requires t.members[stage - 1].name in Inside(d, t.holder) && t.members[stage - 1].name !in d.parent
    ensures Stage(t, journalId, Install(d, t.holder, t.members[stage - 1].name, bump), stage + 1)
  {
    assert DistinctMembers(t.members);
    hide WellFormed, OwnParent, Mine, Finals, Staged, InstalledState, StagedState;
    var k := stage - 1;
    var m := t.members[k];
    var ids := Mine(t, journalId);
    var d' := Install(d, t.holder, m.name, bump);
    MemberIsMine(t, journalId, k);
    ExactlyOnePlace(t, journalId, d, stage, k);
    OwnNamesDiffer(t, journalId, k);
    OwnParentInstall(t, journalId, stage);
    StagedShrinks(t.members, k);
    MemberIsOwn(t, k);
    NamedUpdate(d.parent, OwnNames(t), m.name, Entry(File, m.id));
    PartUpdate(Named(d.parent, OwnNames(t)), ids, m.name, Entry(File, m.id));
    PartRemove(Inside(d, t.holder), ids, m.name);
    InstallKeepsStates(t, journalId, d, stage, bump);
  }

  lemma InstallKeepsStates(t: Record, journalId: Id, d: Disk, stage: nat, bump: nat)
    requires WellFormed(t, journalId) && Stage(t, journalId, d, stage) && 1 <= stage <= |t.members|
    requires t.members[stage - 1].name in Inside(d, t.holder) && t.members[stage - 1].name !in d.parent
    ensures var d' := Install(d, t.holder, t.members[stage - 1].name, bump);
            && (forall i | 0 <= i < |t.members| ::
                  if i < stage then InstalledState(d', t.members[i]) else StagedState(d', t.members[i]))
            && journalId in d'.inodes && d'.inodes[journalId].content == Journal(t)
  {
    var m := t.members[stage - 1];
    var d' := Install(d, t.holder, m.name, bump);
    ExactlyOnePlace(t, journalId, d, stage, stage - 1);
    OwnNamesDiffer(t, journalId, stage - 1);
    forall i | 0 <= i < |t.members|
      ensures if i < stage then InstalledState(d', t.members[i]) else StagedState(d', t.members[i])
    {
      assert i == stage - 1 || t.members[i].id != m.id;
    }
  }

  lemma RemoveHolderAdvances(t: Record, journalId: Id, d: Disk)
    requires WellFormed(t, journalId) && Stage(t, journalId, d, |t.members| + 1)
    requires Inside(d, t.holder) == map[]
    ensures Stage(t, journalId, RemoveDir(d, t.holder), |t.members| + 2)
  {
    OwnParentRemoveHolder(t, journalId);
    NamedRemove(d.parent, OwnNames(t), t.holder);
    PartRemove(Named(d.parent, OwnNames(t)), Mine(t, journalId), t.holder);
    assert Inside(RemoveDir(d, t.holder), t.holder) == Inside(d, t.holder);
  }

  lemma UnlinkJournalAdvances(t: Record, journalId: Id, d: Disk)
    requires WellFormed(t, journalId) && Stage(t, journalId, d, |t.members| + 2)
    ensures Stage(t, journalId, Unlink(d, JournalName(t.primary)), |t.members| + 3)
  {
    OwnParentUnlinkJournal(t, journalId);
    NamedRemove(d.parent, OwnNames(t), JournalName(t.primary));
    PartRemove(Named(d.parent, OwnNames(t)), Mine(t, journalId), JournalName(t.primary));
    assert Inside(Unlink(d, JournalName(t.primary)), t.holder) == Inside(d, t.holder);
  }

  lemma ActAdvances(t: Record, journalId: Id, d: Disk, d': Disk, stage: nat)
    requires WellFormed(t, journalId) && Stage(t, journalId, d, stage)
    requires stage < LastStage(t) && Act(t, journalId, stage, d, d')
    ensures Stage(t, journalId, d', stage + 1)
  {
    hide Stage, WellFormed;
    if stage == 0 {
      var inode: Inode :| inode.content == Journal(t) && d' == Publish(d, JournalName(t.primary), journalId, inode);
      PublishAdvances(t, journalId, d, inode);
    } else if stage <= |t.members| {
      var bump: nat :| d' == Install(d, t.holder, t.members[stage - 1].name, bump);
      InstallAdvances(t, journalId, d, stage, bump);
    } else if stage == |t.members| + 1 {
      RemoveHolderAdvances(t, journalId, d);
    } else {
      UnlinkJournalAdvances(t, journalId, d);
    }
  }

  lemma StepKeepsChain(t: Record, journalId: Id, protected: set<Id>, w: World, w': World)
    requires WellFormed(t, journalId) && Mine(t, journalId) <= protected
    requires InChain(t, journalId, w) && Step(t, journalId, protected, w, w')
    ensures InChain(t, journalId, w')
  {
    hide Stage, Act, EnvOk, WellFormed, Mine;
    if CrashStep(t, journalId, w, w') {
    } else if SyncStep(w, w') {
    } else if EnvStep(JournalName(t.primary), protected, w, w') {
      EnvKeepsStage(t, journalId, protected, w.live, w'.live, w.stage);
      EnvKeepsStage(t, journalId, protected, w.durable, w'.durable, w.durableStage);
    } else {
      ActAdvances(t, journalId, w.live, w'.live, w.stage);
    }
  }

  /** Safety over whole runs: every reachable world is in the chain. */
  lemma {:induction false} RunKeepsChain(t: Record, journalId: Id, protected: set<Id>, ws: seq<World>, i: nat)
    requires WellFormed(t, journalId) && Mine(t, journalId) <= protected
    requires Run(t, journalId, protected, ws) && i < |ws| && InChain(t, journalId, ws[0])
    ensures InChain(t, journalId, ws[i])
  {
    hide InChain, Step;
    if i > 0 {
      RunKeepsChain(t, journalId, protected, ws, i - 1);
      assert Step(t, journalId, protected, ws[i - 1], ws[i]);
      StepKeepsChain(t, journalId, protected, ws[i - 1], ws[i]);
    }
  }

  // ----- the promises, for every reachable world -----

  /** Each member is at exactly one of its staged and final paths, live and durable,
      with its prepared identity and contents. */
  lemma MembersNeverLostOrDoubled(t: Record, journalId: Id, protected: set<Id>, ws: seq<World>, i: nat, k: nat)
    requires WellFormed(t, journalId) && Mine(t, journalId) <= protected
    requires Run(t, journalId, protected, ws) && i < |ws| && InChain(t, journalId, ws[0]) && k < |t.members|
    ensures forall d | d in {ws[i].live, ws[i].durable} ::
              && (AtFinal(d, t.members[k]) <==> !AtStaged(d, t.holder, t.members[k]))
              && t.members[k].id in d.inodes && d.inodes[t.members[k].id].content == Data(t.members[k].digest)
  {
    RunKeepsChain(t, journalId, protected, ws, i);
    ExactlyOnePlace(t, journalId, ws[i].live, ws[i].stage, k);
    ExactlyOnePlace(t, journalId, ws[i].durable, ws[i].durableStage, k);
  }

  lemma PrimaryIsLastInStage(t: Record, journalId: Id, d: Disk, stage: nat, k: nat)
    requires WellFormed(t, journalId) && Stage(t, journalId, d, stage) && k < |t.members|
    requires AtFinal(d, t.members[|t.members| - 1])
    ensures AtFinal(d, t.members[k])
    ensures stage > |t.members|
  {
    ExactlyOnePlace(t, journalId, d, stage, k);
    ExactlyOnePlace(t, journalId, d, stage, |t.members| - 1);
  }

  /** The primary output is visible only once every other member is installed, and until
      the last stage the journal stays beside it. */
  lemma PrimaryIsLast(t: Record, journalId: Id, protected: set<Id>, ws: seq<World>, i: nat, k: nat)
    requires WellFormed(t, journalId) && Mine(t, journalId) <= protected
    requires Run(t, journalId, protected, ws) && i < |ws| && InChain(t, journalId, ws[0]) && k < |t.members|
    requires AtFinal(ws[i].live, t.members[|t.members| - 1])
    ensures AtFinal(ws[i].live, t.members[k])
    ensures JournalOf(t, journalId, ws[i].live) || ws[i].stage == LastStage(t)
  {
    RunKeepsChain(t, journalId, protected, ws, i);
    PrimaryIsLastInStage(t, journalId, ws[i].live, ws[i].stage, k);
    HolderAndJournalPlace(t, journalId, ws[i].live, ws[i].stage);
  }

  /** Entries and files with foreign identities are the same in both directory states. */
  ghost predicate SparesForeign(t: Record, journalId: Id, d: Disk, d': Disk) {
    && (forall n :: (n in d.parent && d.parent[n].id !in Mine(t, journalId))
                    <==> (n in d'.parent && d'.parent[n].id !in Mine(t, journalId)))
    && (forall n | n in d.parent && d.parent[n].id !in Mine(t, journalId) :: d'.parent[n] == d.parent[n])
    && (forall h, n | n in Inside(d, h) && Inside(d, h)[n].id !in Mine(t, journalId) ::
          n in Inside(d', h) && Inside(d', h)[n] == Inside(d, h)[n])
    && (forall id | id !in Mine(t, journalId) && id in d.inodes :: id in d'.inodes && d'.inodes[id] == d.inodes[id])
  }

  /** No directory operation of commit or recovery overwrites, moves or unlinks an entry
      with a foreign identity, and none adds one. */
  lemma ActsSpareForeignEntries(t: Record, journalId: Id, d: Disk, d': Disk, stage: nat)
    requires WellFormed(t, journalId) && Stage(t, journalId, d, stage)
    requires stage < LastStage(t) && Act(t, journalId, stage, d, d')
    ensures SparesForeign(t, journalId, d, d')
  {
    hide SparesForeign;
    if stage == 0 {
      PublishSparesForeign(t, journalId, d, d');
    } else if stage <= |t.members| {
      MemberIsMine(t, journalId, stage - 1);
      ExactlyOnePlace(t, journalId, d, stage, stage - 1);
      hide Stage, Part, InstalledState, WellFormed, Mine, Staged, Finals, OwnParent;
      InstallSparesForeign(t, journalId, d, d', t.members[stage - 1]);
    } else {
      HolderAndJournalPlace(t, journalId, d, stage);
      RemovalSparesForeign(t, journalId, d, d');
    }
  }

  lemma PublishSparesForeign(t: Record, journalId: Id, d: Disk, d': Disk)
    requires Act(t, journalId, 0, d, d')
    ensures SparesForeign(t, journalId, d, d')
  {
  }

  lemma RemovalSparesForeign(t: Record, journalId: Id, d: Disk, d': Disk)
    requires || (Inside(d, t.holder) == map[] && d' == RemoveDir(d, t.holder) && HolderAt(t, d))
             || (d' == Unlink(d, JournalName(t.primary)) && JournalOf(t, journalId, d))
    ensures SparesForeign(t, journalId, d, d')
  {
  }

  lemma InstallSparesForeign(t: Record, journalId: Id, d: Disk, d': Disk, m: Member)
    requires m.name in Inside(d, t.holder) && m.name !in d.parent
             && Inside(d, t.holder)[m.name].id in Mine(t, journalId)
    requires exists bump: nat :: d' == Install(d, t.holder, m.name, bump)
    ensures SparesForeign(t, journalId, d, d')
  {
    hide Mine;
  }

  // ----- the recovery measure -----

  /** Staged members, staging directory and journal still to be dealt with. */
  function Remaining(t: Record, journalId: Id, d: Disk): nat {
    |Part(Inside(d, t.holder), Mine(t, journalId))|
    + (if HolderAt(t, d) then 1 else 0) + (if JournalOf(t, journalId, d) then 1 else 0)
  }

  lemma {:induction false} StagedSize(ms: seq<Member>, k: nat)
    requires k <= |ms| && DistinctMembers(ms)
    ensures |Staged(ms, k)| == |ms| - k
    decreases |ms| - k
  {
    if k < |ms| {
      StagedSize(ms, k + 1);
      StagedAt(ms, k + 1);
    }
  }

  /** Once the journal exists the measure is the distance to the last stage: every
      operation lowers it by one and a crash raises it by the operations it drops. */
  lemma RemainingIsDistance(t: Record, journalId: Id, d: Disk, stage: nat)
    requires WellFormed(t, journalId) && Stage(t, journalId, d, stage) && stage >= 1
    ensures Remaining(t, journalId, d) == LastStage(t) - stage
  {
    HolderAndJournalPlace(t, journalId, d, stage);
    StagedSize(t.members, InstalledAt(t, stage));
  }
}
