/** Two publications in one directory at the same time. The lock of a publication is per primary,
    so publications with different primaries may overlap. */
module FileSetOverlap {
  import opened FileSetModel
  import opened FileSetSafety

  /** Nothing in the directory refers to the identity. */
  predicate Fresh(d: Disk, id: Id) {
    id !in d.inodes && forall n | n in d.parent :: d.parent[n].id != id
  }

  lemma JournalNamesDiffer(a: Name, b: Name)
    requires a != b
    ensures JournalName(a) != JournalName(b)
  {
    if |a| == |b| {
      assert JournalName(a)[1..1 + |a|] == a && JournalName(b)[1..1 + |a|] == b;
    }
  }

  lemma PublishIsForeign(reserved: Name, protected: set<Id>, d: Disk, name: Name, id: Id, inode: Inode)
    requires name != reserved && name !in d.parent && id !in protected && Fresh(d, id)
    ensures EnvOk(reserved, protected, d, Publish(d, name, id, inode))
  {
    var d' := Publish(d, name, id, inode);
    assert forall h :: Inside(d', h) == Inside(d, h);
  }

  lemma InstallIsForeign(reserved: Name, protected: set<Id>, d: Disk, holder: Name, name: Name, bump: nat)
    requires name in Inside(d, holder) && name !in d.parent
    requires var e := Inside(d, holder)[name];
             e.id !in protected && e.kind.File? && e.id in d.inodes && d.inodes[e.id].content.Data?
    ensures EnvOk(reserved, protected, d, Install(d, holder, name, bump))
  {
    var d' := Install(d, holder, name, bump);
    forall h ensures Part(Inside(d, h), protected) == Part(Inside(d', h), protected) {
      if h == holder { assert Inside(d', h) == Inside(d, h) - {name}; }
    }
  }

  lemma RemovalIsForeign(reserved: Name, protected: set<Id>, d: Disk, name: Name)
    requires name in d.parent && d.parent[name].id !in protected && Inside(d, name) == map[]
    ensures EnvOk(reserved, protected, d, RemoveDir(d, name))
    ensures EnvOk(reserved, protected, d, Unlink(d, name))
  {
    forall h ensures Inside(RemoveDir(d, name), h) == Inside(d, h) && Inside(Unlink(d, name), h) == Inside(d, h) {
    }
  }

  /** An operation of another publication is foreign activity. */
  lemma OtherActIsForeign(t: Record, protected: set<Id>, u: Record, uId: Id, stage: nat, d: Disk, d': Disk)
    requires WellFormed(u, uId) && u.primary != t.primary && Mine(u, uId) !! protected
    requires Stage(u, uId, d, stage) && stage < LastStage(u) && Act(u, uId, stage, d, d')
    requires stage == 0 ==> Fresh(d, uId)
    ensures EnvOk(JournalName(t.primary), protected, d, d')
  {
    hide EnvOk, Stage, Part, Install, WellFormed;
    var reserved := JournalName(t.primary);
    if stage == 0 {
      JournalNamesDiffer(t.primary, u.primary);
      var inode: Inode :| inode.content == Journal(u) && d' == Publish(d, JournalName(u.primary), uId, inode);
      PublishIsForeign(reserved, protected, d, JournalName(u.primary), uId, inode);
    } else if stage <= |u.members| {
      var m := u.members[stage - 1];
      MemberIsMine(u, uId, stage - 1);
      ExactlyOnePlace(u, uId, d, stage, stage - 1);
      var bump: nat :| d' == Install(d, u.holder, m.name, bump);
      InstallIsForeign(reserved, protected, d, u.holder, m.name, bump);
    } else {
      HolderAndJournalPlace(u, uId, d, stage);
      RemovalIsForeign(reserved, protected, d, if stage == |u.members| + 1 then u.holder else JournalName(u.primary));
    }
  }

  /** Where two publications overlap, an operation of one is a step of its own run and a step of the
      environment in the run of the other; so both stay on their chains. */
  lemma OverlapKeepsBoth(t: Record, tId: Id, u: Record, uId: Id, w: World, v: World, v': World)
    requires WellFormed(t, tId) && WellFormed(u, uId) && u.primary != t.primary && Mine(t, tId) !! Mine(u, uId)
    requires w.live == v.live && w.durable == v.durable
    requires InChain(t, tId, w) && InChain(u, uId, v) && ActStep(u, uId, v, v')
    requires v.stage == 0 ==> Fresh(v.live, uId)
    ensures var w' := World(v'.live, v'.durable, w.stage, w.durableStage);
            && Step(u, uId, Mine(u, uId), v, v') && Step(t, tId, Mine(t, tId), w, w')
            && InChain(u, uId, v') && InChain(t, tId, w')
  {
    hide EnvOk, Act, Stage, WellFormed, Mine;
    var w' := World(v'.live, v'.durable, w.stage, w.durableStage);
    OtherActIsForeign(t, Mine(t, tId), u, uId, v.stage, v.live, v'.live);
    EnvReflexive(JournalName(t.primary), Mine(t, tId), v.durable);
    assert EnvStep(JournalName(t.primary), Mine(t, tId), w, w');
    StepKeepsChain(u, uId, Mine(u, uId), v, v');
    StepKeepsChain(t, tId, Mine(t, tId), w, w');
  }
}
