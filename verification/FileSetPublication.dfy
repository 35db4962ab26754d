/** Committing a prepared file set and resuming an interrupted one. */
module FileSetPublication {
  import opened Options
  import opened FileSetModel
  import opened FileSetNames
  import opened FileSetSafety
  import opened FileSetVolume

  datatype Error = OutputExists | Unsupported | ResourceLimit | InvalidJournal | BindingChanged | NeedsRecovery
  datatype Result<+T> = Ok(value: T) | Err(error: Error)

  /** A journal that was opened and parsed, bound to its identity and exact contents. */
  datatype OpenJournal = OpenJournal(name: Name, id: Id, inode: Inode)

  predicate Bound(d: Disk, j: OpenJournal) {
    j.name in d.parent && d.parent[j.name] == Entry(File, j.id)
    && j.id in d.inodes && d.inodes[j.id] == j.inode
  }

  /** `resolve_transaction`: the records recovery accepts for `primary`. */
  predicate Resolves(primary: Name, rec: Record) {
    && rec.version == JOURNAL_VERSION
    && 0 < |rec.members| <= MAX_OUTPUT_SET_MEMBERS
    && rec.primary == primary
    && DistinctMembers(rec.members)
    && rec.members[|rec.members| - 1].name == primary
  }

  /** `verify_resolved_member` at a path that shows entry `e`. */
  predicate Verified(d: Disk, e: Entry, m: Member, moved: bool) {
    && e == Entry(File, m.id)
    && (if moved then InstalledState(d, m) else StagedState(d, m))
  }

  /** One member recovery can deal with: intact at exactly one of its paths, the other free. */
  predicate MemberResumable(d: Disk, holder: Name, m: Member) {
    var inside := Inside(d, holder);
    || (m.name in inside && m.name !in d.parent && Verified(d, inside[m.name], m, false))
    || (m.name !in inside && m.name in d.parent && Verified(d, d.parent[m.name], m, true))
  }

  /** The directory states from which an undisturbed recovery completes. */
  predicate Resumable(d: Disk, rec: Record) {
    && (forall m | m in rec.members :: MemberResumable(d, rec.holder, m))
    && (rec.holder in d.parent ==>
          d.parent[rec.holder] == Entry(Directory, rec.holderId)
          && Inside(d, rec.holder).Keys <= MemberNames(rec.members))
  }

  /** Nothing but change times differs. */
  predicate SameContents(d: Disk, d': Disk) {
    && d.inodes.Keys == d'.inodes.Keys
    && forall id | id in d.inodes ::
         d.inodes[id].content == d'.inodes[id].content && d.inodes[id].state.EquivalentAfterRename(d'.inodes[id].state)
  }

  /** `d` is `d0` with the first `k` members installed and nothing else changed. */
  ghost predicate Progress(d0: Disk, d: Disk, rec: Record, k: nat)
    requires k <= |rec.members|
  {
    && d.parent == d0.parent + Finals(rec.members, k)
    && d.dirs - {rec.holder} == d0.dirs - {rec.holder}
    && Inside(d, rec.holder) == Inside(d0, rec.holder) - MemberNames(rec.members[..k])
    && SameContents(d0, d)
    && (forall id | id in d0.inodes && id !in MemberIds(rec.members[..k]) :: d.inodes[id] == d0.inodes[id])
  }

  lemma ProgressKeepsMember(d0: Disk, d: Disk, rec: Record, k: nat, i: nat)
    requires DistinctMembers(rec.members) && k <= i < |rec.members| && Progress(d0, d, rec, k)
    ensures MemberResumable(d, rec.holder, rec.members[i]) <==> MemberResumable(d0, rec.holder, rec.members[i])
    ensures var m := rec.members[i];
            && (m.name in d.parent <==> m.name in d0.parent)
            && (m.name in d.parent ==> d.parent[m.name] == d0.parent[m.name])
            && (m.name in Inside(d, rec.holder) <==> m.name in Inside(d0, rec.holder))
  {
    var m := rec.members[i];
    FinalsAt(rec.members, k);
    assert m.name !in MemberNames(rec.members[..k]);
    assert m.id !in MemberIds(rec.members[..k]);
  }

  lemma PrefixGrows(ms: seq<Member>, k: nat)
    requires k < |ms|
    ensures MemberNames(ms[..k + 1]) == MemberNames(ms[..k]) + {ms[k].name}
    ensures MemberIds(ms[..k + 1]) == MemberIds(ms[..k]) + {ms[k].id}
  {
    assert ms[..k + 1] == ms[..k] + [ms[k]];
  }

  lemma ProgressSkip(d0: Disk, d: Disk, rec: Record, k: nat)
    requires k < |rec.members| && Progress(d0, d, rec, k)
    requires var m := rec.members[k];
             m.name !in Inside(d, rec.holder) && m.name in d.parent && d.parent[m.name] == Entry(File, m.id)
    ensures Progress(d0, d, rec, k + 1)
  {
    var m := rec.members[k];
    PrefixGrows(rec.members, k);
    assert d.parent == d.parent[m.name := Entry(File, m.id)];
    assert Inside(d, rec.holder) == Inside(d, rec.holder) - {m.name};
  }

  lemma ProgressInstall(d0: Disk, d: Disk, rec: Record, k: nat, bump: nat)
    requires k < |rec.members| && Progress(d0, d, rec, k)
    requires var m := rec.members[k];
             m.name in Inside(d, rec.holder) && m.name !in d.parent
               && Inside(d, rec.holder)[m.name] == Entry(File, m.id)
    ensures Progress(d0, Install(d, rec.holder, rec.members[k].name, bump), rec, k + 1)
  {
    var m := rec.members[k];
    var d' := Install(d, rec.holder, m.name, bump);
    PrefixGrows(rec.members, k);
    assert Inside(d', rec.holder) == Inside(d, rec.holder) - {m.name};
    assert Inside(d, rec.holder) - {m.name} == Inside(d0, rec.holder) - MemberNames(rec.members[..k + 1]);
    hide Inside, MemberNames, MemberIds;
    InstallKeepsContents(d0, d, rec.holder, m.name, bump);
    hide SameContents;
    assert d'.parent == d0.parent + Finals(rec.members, k + 1);
  }

  lemma InstallKeepsContents(d0: Disk, d: Disk, holder: Name, name: Name, bump: nat)
    requires name in Inside(d, holder) && name !in d.parent && SameContents(d0, d)
    ensures SameContents(d0, Install(d, holder, name, bump))
  {
  }

  // ----- recovery -----

  /** The tracked transaction is at a definite stage of its chain. */
  lemma TrackedStage(v: Volume)
    requires v.Tracked()
    ensures WellFormed(v.t, v.journalId)
    ensures Stage(v.t, v.journalId, v.live, v.stage) && Stage(v.t, v.journalId, v.durable, v.durableStage)
    ensures v.durableStage <= v.stage <= LastStage(v.t)
  {
    TraceIsRun(v.t, v.journalId, v.protected, v.history);
  }

  // ----- what was seen during a call -----

  /** What one look at the directory can show. */
  datatype Sight =
    | JournalBound(j: OpenJournal)
    | HolderBound(holder: Name, id: Id)
    | HolderGone(holder: Name)
    | HolderHolds(holder: Name, names: set<Name>)
    | Prepared(holder: Name, m: Member)
    | StagedIntact(holder: Name, m: Member)
    | NotStaged(holder: Name, name: Name)
    | Missing(name: Name)
    | Installed(m: Member)
    | Intact(m: Member)

  predicate Shows(d: Disk, s: Sight) {
    match s
    case JournalBound(j) =>
      && j.name in d.parent && d.parent[j.name] == Entry(File, j.id)
      && j.id in d.inodes && d.inodes[j.id] == j.inode
    case HolderBound(holder, id) => holder in d.parent && d.parent[holder] == Entry(Directory, id)
    case HolderGone(holder) => holder !in d.parent
    case HolderHolds(holder, names) => Inside(d, holder).Keys == names
    case Prepared(holder, m) =>
      && m.name in Inside(d, holder) && Inside(d, holder)[m.name] == Entry(File, m.id)
      && m.id in d.inodes && d.inodes[m.id].state == m.state
    case StagedIntact(holder, m) =>
      && m.name in Inside(d, holder) && Inside(d, holder)[m.name] == Entry(File, m.id)
      && m.id in d.inodes && d.inodes[m.id].state == m.state && d.inodes[m.id].content == Data(m.digest)
    case NotStaged(holder, name) => name !in Inside(d, holder)
    case Missing(name) => name !in d.parent
    case Installed(m) =>
      && m.name in d.parent && d.parent[m.name].id == m.id && m.id in d.inodes
      && d.inodes[m.id].state.bytes == m.state.bytes && d.inodes[m.id].state.modified == m.state.modified
    case Intact(m) =>
      && m.name in d.parent && d.parent[m.name] == Entry(File, m.id) && m.id in d.inodes
      && d.inodes[m.id].content == Data(m.digest)
      && d.inodes[m.id].state.bytes == m.state.bytes && d.inodes[m.id].state.modified == m.state.modified
  }

  /** Some world from index `since` on showed it. */
  ghost predicate Seen(ws: seq<World>, since: nat, s: Sight) {
    exists k :: since <= k < |ws| && Shows(ws[k].live, s)
  }

  lemma SeenNow(ws: seq<World>, since: nat, s: Sight)
    requires since < |ws| && Shows(ws[|ws| - 1].live, s)
    ensures Seen(ws, since, s)
  {
  }

  lemma JournalSeenNow(ws: seq<World>, since: nat, j: OpenJournal)
    requires since < |ws| && Bound(ws[|ws| - 1].live, j)
    ensures Shows(ws[|ws| - 1].live, JournalBound(j)) && Seen(ws, since, JournalBound(j))
  {
  }

  lemma PreparedSeenNow(ws: seq<World>, since: nat, holder: Name, m: Member)
    requires since < |ws| && PreparedAt(ws[|ws| - 1].live, holder, m)
    ensures Seen(ws, since, Prepared(holder, m))
  {
    hide Inside;
    assert Shows(ws[|ws| - 1].live, Prepared(holder, m));
  }

  lemma StagedSeenNow(ws: seq<World>, since: nat, holder: Name, m: Member)
    requires since < |ws| && m.name in Inside(ws[|ws| - 1].live, holder)
    requires Verified(ws[|ws| - 1].live, Inside(ws[|ws| - 1].live, holder)[m.name], m, false)
    ensures Seen(ws, since, StagedIntact(holder, m))
  {
    hide Inside;
    assert Shows(ws[|ws| - 1].live, StagedIntact(holder, m));
  }

  lemma InstalledSeenNow(ws: seq<World>, since: nat, m: Member)
    requires since < |ws| && InstalledFrom(ws[|ws| - 1].live, m)
    ensures Seen(ws, since, Installed(m))
  {
    hide Inside;
    assert Shows(ws[|ws| - 1].live, Installed(m));
  }

  lemma IntactSeenNow(ws: seq<World>, since: nat, m: Member)
    requires since < |ws| && IntactAt(ws[|ws| - 1].live, m)
    ensures Seen(ws, since, Intact(m))
  {
    hide Inside;
    assert Shows(ws[|ws| - 1].live, Intact(m));
  }

  lemma SeenLater(ws: seq<World>, later: seq<World>, since: nat, s: Sight)
    requires ws <= later && Seen(ws, since, s)
    ensures Seen(later, since, s)
  {
    hide Shows;
    var k :| since <= k < |ws| && Shows(ws[k].live, s);
    assert later[k] == ws[k];
  }

  lemma SeenSince(ws: seq<World>, since: nat, from': nat, s: Sight)
    requires since <= from' && Seen(ws, from', s)
    ensures Seen(ws, since, s)
  {
    hide Shows;
  }

  /** World `k` comes from a rename of the staged member, after the journal was seen in place and the
      member was seen as `staged` says. */
  ghost predicate Checked(ws: seq<World>, since: nat, k: nat, j: OpenJournal, holder: Name, name: Name, staged: Sight,
                          bump: nat)
  {
    && since < k < |ws| && Renamed(ws, k, holder, name, bump)
    && Seen(ws[..k], since, JournalBound(j)) && Seen(ws[..k], since, staged)
  }

  /** The member was renamed after these checks, and was seen installed afterwards. */
  ghost predicate CheckedMove(ws: seq<World>, since: nat, j: OpenJournal, holder: Name, m: Member, bump: nat) {
    exists k: nat ::
      Checked(ws, since, k, j, holder, m.name, Prepared(holder, m), bump) && Seen(ws, k, Installed(m))
  }

  lemma CheckedMoveLater(ws: seq<World>, later: seq<World>, since: nat, from': nat, j: OpenJournal, holder: Name,
                         m: Member, bump: nat)
    requires ws <= later && since <= from' && CheckedMove(ws, from', j, holder, m, bump)
    ensures CheckedMove(later, since, j, holder, m, bump)
  {
    hide Seen, Install, Inside;
    var k: nat :| Checked(ws, from', k, j, holder, m.name, Prepared(holder, m), bump) && Seen(ws, k, Installed(m));
    assert later[..k] == ws[..k] && later[k] == ws[k] && later[k - 1] == ws[k - 1];
    SeenSince(ws[..k], since, from', JournalBound(j));
    SeenSince(ws[..k], since, from', Prepared(holder, m));
    SeenLater(ws, later, k, Installed(m));
    assert Checked(later, since, k, j, holder, m.name, Prepared(holder, m), bump);
  }

  method CheckJournal(v: Volume, j: OpenJournal) returns (ok: bool)
    requires v.Valid()
    modifies v
    ensures v.Valid() && old(v.history) <= v.history && v.stage == old(v.stage)
    ensures old(v.Tracked()) ==> v.Tracked()
    ensures Settled(old(v.history)) ==> Settled(v.history)
    ensures KeepsFiles(v.protected, old(v.live), v.live, {})
    ensures v.quiet ==> v.live == old(v.live) && v.durable == old(v.durable)
    ensures |v.history| == |old(v.history)| + 1 && (ok <==> Bound(v.live, j))
  {
    v.Interfere();
    ok := Bound(v.live, j);
  }

  /** The staged branch of `resume_transaction`: verify, rename without replacing, synchronize. */
  method InstallMember(v: Volume, rec: Record, j: OpenJournal, i: nat, ghost d0: Disk, ghost chain: bool)
    returns (ok: bool)
    requires v.Valid() && i < |rec.members|
    requires chain ==> v.Tracked() && Settled(v.history) && rec == v.t && v.stage == 1 + i
    requires v.quiet ==> Progress(d0, v.live, rec, i) && Bound(v.live, j) && j.inode.content.Journal?
    modifies v
    ensures v.Valid() && old(v.history) <= v.history
    ensures chain ==> v.Tracked()
    ensures chain && ok ==> Settled(v.history) && v.stage == 2 + i
    ensures v.quiet ==> (ok <==> var m := rec.members[i];
                                 && m.name in Inside(old(v.live), rec.holder) && m.name !in old(v.live).parent
                                 && Verified(old(v.live), Inside(old(v.live), rec.holder)[m.name], m, false))
    ensures v.quiet && ok ==> Progress(d0, v.live, rec, i + 1) && Bound(v.live, j)
    ensures ok ==>
              exists k: nat :: Checked(v.history, |old(v.history)|, k, j, rec.holder, rec.members[i].name,
                                       StagedIntact(rec.holder, rec.members[i]), v.renameBump)
  {
    hide Stage, Trace, Progress, Settled, Seen, Renamed;
    var m := rec.members[i];
    ghost var since := |v.history|;
    v.Interfere();
    var inside := Inside(v.live, rec.holder);
    if m.name !in inside || !Verified(v.live, inside[m.name], m, false) {
      return false;
    }
    StagedSeenNow(v.history, since, rec.holder, m);
    ghost var verified := v.history;
    var bound := CheckJournal(v, j);
    if !bound { return false; }
    JournalSeenNow(v.history, since, j);
    SeenLater(verified, v.history, since, StagedIntact(rec.holder, m));
    ghost var before, checked := v.live, v.history;
    ok := v.MoveOut(rec.holder, m.name);
    if !ok { return; }
    ghost var moved := v.history;
    MoveChecked(checked, moved, since, j, rec.holder, m.name, StagedIntact(rec.holder, m), v.renameBump);
    if v.quiet { ProgressInstall(d0, before, rec, i, v.renameBump); }
    ok := v.SyncParent();
    CheckedLater(moved, v.history, since, |moved| - 1, j, rec.holder, m.name, StagedIntact(rec.holder, m),
                 v.renameBump);
  }

  lemma MoveChecked(ws: seq<World>, later: seq<World>, since: nat, j: OpenJournal, holder: Name, name: Name,
                    staged: Sight, bump: nat)
    requires ws <= later && |later| == |ws| + 2 && Renamed(later, |later| - 1, holder, name, bump)
    requires Seen(ws, since, JournalBound(j)) && Seen(ws, since, staged)
    ensures Checked(later, since, |later| - 1, j, holder, name, staged, bump)
  {
    hide Shows, Renamed;
    SeenLater(ws, later[..|later| - 1], since, JournalBound(j));
    SeenLater(ws, later[..|later| - 1], since, staged);
  }

  lemma CheckedLater(ws: seq<World>, later: seq<World>, since: nat, k: nat, j: OpenJournal, holder: Name, name: Name,
                     staged: Sight, bump: nat)
    requires ws <= later && Checked(ws, since, k, j, holder, name, staged, bump)
    ensures Checked(later, since, k, j, holder, name, staged, bump)
  {
    hide Seen, Install, Inside;
    assert later[..k] == ws[..k] && later[k] == ws[k] && later[k - 1] == ws[k - 1];
  }

  /** `resume_transaction` for one member. */
  method ResumeMember(v: Volume, rec: Record, j: OpenJournal, i: nat, ghost d0: Disk, ghost chain: bool)
    returns (r: Result<()>)
    requires v.Valid() && i < |rec.members| && DistinctMembers(rec.members)
    requires chain ==> v.Tracked() && Settled(v.history) && rec == v.t && 1 + i <= v.stage <= |rec.members| + 2
    requires v.quiet ==> Progress(d0, v.live, rec, i) && Bound(v.live, j) && j.inode.content.Journal?
    modifies v
    ensures v.Valid() && old(v.history) <= v.history
    ensures chain ==> v.Tracked()
    ensures chain && r.Ok? ==> Settled(v.history) && 2 + i <= v.stage <= |rec.members| + 2
    ensures v.quiet ==> (r.Ok? <==> MemberResumable(d0, rec.holder, rec.members[i]))
    ensures v.quiet && r.Ok? ==> Progress(d0, v.live, rec, i + 1) && Bound(v.live, j)
    ensures r.Ok? ==> IntactAt(v.live, rec.members[i])
  {
    hide Stage, Trace, Progress, DistinctMembers, Checked, Settled, Inside, StagedState, InstalledState;
    var m := rec.members[i];
    v.Interfere();
    var inside := Inside(v.live, rec.holder);
    var staged := m.name in inside;
    var stagedId := if staged then inside[m.name].id else 0;
    if chain { TrackedMember(v, i); }
    v.Interfere();
    var final := m.name in v.live.parent;
    var finalId := if final then v.live.parent[m.name].id else 0;
    if v.quiet { ProgressKeepsMember(d0, v.live, rec, i, i); }
    if staged && !final && stagedId == m.id {
      var ok := InstallMember(v, rec, j, i, d0, chain);
      if !ok { return Err(NeedsRecovery); }
      if v.quiet { InstalledVerifies(d0, v.live, rec, i); }
    } else if !staged && final && finalId == m.id {
      if v.quiet && v.live.parent[m.name] == Entry(File, m.id) { ProgressSkip(d0, v.live, rec, i); }
      if chain { TrackedMember(v, i); }
    } else {
      return Err(NeedsRecovery);
    }
    v.Interfere();
    if m.name !in v.live.parent || !Verified(v.live, v.live.parent[m.name], m, true) {
      return Err(NeedsRecovery);
    }
    return Ok(());
  }

  /** After the rename the member passes the check at its final path. */
  lemma InstalledVerifies(d0: Disk, d: Disk, rec: Record, i: nat)
    requires i < |rec.members| && Progress(d0, d, rec, i + 1) && DistinctMembers(rec.members)
    requires MemberResumable(d0, rec.holder, rec.members[i])
    ensures var m := rec.members[i]; m.name in d.parent && Verified(d, d.parent[m.name], m, true)
  {
    FinalsAt(rec.members, i + 1);
  }

  /** What an observation of a tracked member tells about the stage. */
  lemma TrackedMember(v: Volume, i: nat)
    requires v.Tracked() && i < |v.t.members|
    ensures AtStaged(v.live, v.t.holder, v.t.members[i]) ==> v.stage <= i + 1
    ensures AtFinal(v.live, v.t.members[i]) ==> v.stage >= i + 2
  {
    TrackedStage(v);
    ExactlyOnePlace(v.t, v.journalId, v.live, v.stage, i);
  }

  lemma CompleteVerifies(d0: Disk, d: Disk, rec: Record, i: nat)
    requires i < |rec.members| && Progress(d0, d, rec, |rec.members|) && DistinctMembers(rec.members)
    requires MemberResumable(d0, rec.holder, rec.members[i])
    ensures var m := rec.members[i];
            m.name !in Inside(d, rec.holder) && m.name in d.parent && Verified(d, d.parent[m.name], m, true)
  {
    assert rec.members[..|rec.members|] == rec.members;
    assert rec.members[i] in rec.members;
    FinalsAt(rec.members, |rec.members|);
  }

  lemma CompleteEmptiesHolder(d0: Disk, d: Disk, rec: Record)
    requires Progress(d0, d, rec, |rec.members|)
    ensures Inside(d, rec.holder) == map[] <==> Inside(d0, rec.holder).Keys <= MemberNames(rec.members)
  {
    assert rec.members[..|rec.members|] == rec.members;
    var before := Inside(d0, rec.holder);
    if Inside(d, rec.holder) == map[] {
      forall n | n in before.Keys ensures n in MemberNames(rec.members) {
        assert n !in before - MemberNames(rec.members);
      }
    }
  }

  predicate AllInstalled(d: Disk, rec: Record) {
    forall k | 0 <= k < |rec.members| ::
      rec.members[k].name in d.parent && d.parent[rec.members[k].name] == Entry(File, rec.members[k].id)
  }

  lemma KeepsInstalled(protected: set<Id>, d: Disk, d': Disk, rec: Record, except: set<Name>)
    requires AllInstalled(d, rec) && MemberIds(rec.members) <= protected && KeepsFiles(protected, d, d', except)
    ensures forall k | 0 <= k < |rec.members| && rec.members[k].name !in except ::
              rec.members[k].name in d'.parent && d'.parent[rec.members[k].name] == Entry(File, rec.members[k].id)
  {
    forall k | 0 <= k < |rec.members|
      ensures rec.members[k].id in MemberIds(rec.members)
    {
      assert rec.members[k] in rec.members;
    }
  }

  /** The member is at its final path with its identity and recorded state. */
  predicate IntactAt(d: Disk, m: Member) {
    m.name in d.parent && Verified(d, d.parent[m.name], m, true)
  }

  lemma EnvKeepsIntact(reserved: Name, protected: set<Id>, d: Disk, d': Disk, ms: seq<Member>)
    requires EnvOk(reserved, protected, d, d') && MemberIds(ms) <= protected
    requires forall m | m in ms :: IntactAt(d, m)
    ensures forall m | m in ms :: IntactAt(d', m)
  {
    EnvKeepsFiles(reserved, protected, d, d');
    forall m | m in ms ensures IntactAt(d', m) { assert m.id in MemberIds(ms); }
  }

  lemma OneMoreMember(ms: seq<Member>, i: nat)
    requires i < |ms|
    ensures MemberIds(ms[..i]) <= MemberIds(ms[..i + 1]) <= MemberIds(ms)
    ensures forall m :: m in ms[..i + 1] <==> m in ms[..i] || m == ms[i]
  {
    assert ms[..i + 1] == ms[..i] + [ms[i]];
  }

  lemma IntactIsInstalled(d: Disk, rec: Record)
    requires forall m | m in rec.members :: IntactAt(d, m)
    ensures AllInstalled(d, rec)
  {
    forall k | 0 <= k < |rec.members| ensures IntactAt(d, rec.members[k]) { assert rec.members[k] in rec.members; }
  }

  /** The re-check of all members before the staging directory goes. A success means that each was
      seen installed, with its recorded state, during the call; with protected members it still is. */
  method VerifyAll(v: Volume, rec: Record, ghost d0: Disk) returns (ok: bool)
    requires v.Valid() && DistinctMembers(rec.members)
    requires v.quiet ==> Progress(d0, v.live, rec, |rec.members|)
                         && forall k | 0 <= k < |rec.members| :: MemberResumable(d0, rec.holder, rec.members[k])
    modifies v
    ensures v.Valid() && old(v.history) <= v.history && v.stage == old(v.stage)
    ensures old(v.Tracked()) ==> v.Tracked()
    ensures Settled(old(v.history)) ==> Settled(v.history)
    ensures v.quiet ==> ok && v.live == old(v.live)
    ensures ok ==> forall m | m in rec.members ::
              Seen(v.history, |old(v.history)|, Intact(m))
              && Seen(v.history, |old(v.history)|, NotStaged(rec.holder, m.name))
    ensures ok && MemberIds(rec.members) <= v.protected ==>
              AllInstalled(v.live, rec) && forall m | m in rec.members :: InstalledState(v.live, m)
  {
    hide Stage, Trace, Progress, DistinctMembers, MemberResumable, Settled, EnvOk, Seen, MemberIds,
         InstalledState, Inside;
    ghost var since := |v.history|;
    var i := 0;
    while i < |rec.members|
      invariant 0 <= i <= |rec.members|
      invariant v.Valid() && old(v.history) <= v.history && v.stage == old(v.stage)
      invariant old(v.Tracked()) ==> v.Tracked()
      invariant Settled(old(v.history)) ==> Settled(v.history)
      invariant v.quiet ==> v.live == old(v.live)
      invariant forall m | m in rec.members[..i] ::
                  Seen(v.history, since, Intact(m)) && Seen(v.history, since, NotStaged(rec.holder, m.name))
      invariant MemberIds(rec.members[..i]) <= v.protected ==> forall m | m in rec.members[..i] :: IntactAt(v.live, m)
    {
      var m := rec.members[i];
      OneMoreMember(rec.members, i);
      if v.quiet { CompleteVerifies(d0, v.live, rec, i); }
      InterfereIntact(v, rec.members[..i], rec.members[..i], rec.holder, since);
      if m.name !in v.live.parent || !Verified(v.live, v.live.parent[m.name], m, true) { return false; }
      IntactSeenNow(v.history, since, m);
      InterfereIntact(v, rec.members[..i + 1], rec.members[..i], rec.holder, since);
      if m.name in Inside(v.live, rec.holder) { return false; }
      SeenNow(v.history, since, NotStaged(rec.holder, m.name));
      i := i + 1;
    }
    assert rec.members[..|rec.members|] == rec.members;
    if MemberIds(rec.members) <= v.protected { IntactIsInstalled(v.live, rec); }
    ok := true;
  }

  /** Interference, in view of the members that have been checked. */
  method InterfereIntact(v: Volume, ghost ms: seq<Member>, ghost gone: seq<Member>, ghost holder: Name,
                         ghost since: nat)
    requires v.Valid()
    requires forall m | m in ms :: Seen(v.history, since, Intact(m))
    requires forall m | m in gone :: Seen(v.history, since, NotStaged(holder, m.name))
    requires MemberIds(ms) <= v.protected ==> forall m | m in ms :: IntactAt(v.live, m)
    modifies v
    ensures v.Valid() && old(v.history) <= v.history && v.stage == old(v.stage)
    ensures |v.history| == |old(v.history)| + 1
    ensures old(v.Tracked()) ==> v.Tracked()
    ensures Settled(old(v.history)) ==> Settled(v.history)
    ensures v.quiet ==> v.live == old(v.live)
    ensures forall m | m in ms :: Seen(v.history, since, Intact(m))
    ensures forall m | m in gone :: Seen(v.history, since, NotStaged(holder, m.name))
    ensures MemberIds(ms) <= v.protected ==> forall m | m in ms :: IntactAt(v.live, m)
  {
    hide Stage, Trace, Settled, EnvOk, Seen, MemberIds, IntactAt;
    v.Interfere();
    forall m | m in ms ensures Seen(v.history, since, Intact(m)) {
      SeenLater(old(v.history), v.history, since, Intact(m));
    }
    forall m | m in gone ensures Seen(v.history, since, NotStaged(holder, m.name)) {
      SeenLater(old(v.history), v.history, since, NotStaged(holder, m.name));
    }
    if MemberIds(ms) <= v.protected { EnvKeepsIntact(JournalName(v.t.primary), v.protected, old(v.live), v.live, ms); }
  }

  /** Removes the emptied staging directory. Recovery accepts that it is already gone;
      commit requires it. */
  method RemoveHolder(v: Volume, rec: Record, required: bool, ghost d0: Disk, ghost chain: bool, ghost calm: bool)
    returns (ok: bool)
    requires v.Valid()
    requires chain ==>
               && v.Tracked() && Settled(v.history) && rec == v.t
               && |rec.members| + 1 <= v.stage <= |rec.members| + 2
    requires chain && required ==> v.stage == |rec.members| + 1
    requires calm ==> v.quiet && Progress(d0, v.live, rec, |rec.members|)
                         && (rec.holder in v.live.parent <==> rec.holder in d0.parent)
                         && (rec.holder in d0.parent ==> d0.parent[rec.holder] == v.live.parent[rec.holder])
    modifies v
    ensures v.Valid() && old(v.history) <= v.history
    ensures KeepsFiles(v.protected, old(v.live), v.live, {})
    ensures chain ==> v.Tracked()
    ensures chain && ok ==> Settled(v.history) && v.stage == |rec.members| + 2
    ensures calm ==> (ok <==> if rec.holder in d0.parent
                                 then d0.parent[rec.holder] == Entry(Directory, rec.holderId)
                                      && Inside(d0, rec.holder).Keys <= MemberNames(rec.members)
                                 else !required)
    ensures calm && ok ==>
            v.live == if rec.holder in old(v.live).parent then RemoveDir(old(v.live), rec.holder) else old(v.live)
    ensures ok ==>
              || (!required && Seen(v.history, |old(v.history)|, HolderGone(rec.holder)))
              || HolderRemoved(v.history, |old(v.history)|, rec)
  {
    hide Stage, Trace, Progress, Settled, Seen, Removed;
    ghost var since := |v.history|;
    if calm { CompleteEmptiesHolder(d0, v.live, rec); }
    v.Interfere();
    if chain { TrackedHolder(v); }
    if rec.holder !in v.live.parent {
      SeenNow(v.history, since, HolderGone(rec.holder));
      return !required;
    }
    if v.live.parent[rec.holder] != Entry(Directory, rec.holderId) { return false; }
    SeenNow(v.history, since, HolderBound(rec.holder, rec.holderId));
    ghost var bound := v.history;
    v.Interfere();
    if Inside(v.live, rec.holder) != map[] { return false; }
    ok := v.RemoveDirectory(rec.holder);
    if !ok { return; }
    ghost var removed := v.history;
    SeenLater(bound, removed[..|removed| - 1], since, HolderBound(rec.holder, rec.holderId));
    ok := v.SyncParent();
    assert v.history[..|removed| - 1] == removed[..|removed| - 1];
    assert Removed(v.history, |removed| - 1, rec.holder) by { RemovedLater(removed, v.history, rec.holder); }
  }

  /** The staging directory was removed, empty and after it was seen to be the bound one. */
  ghost predicate HolderRemoved(ws: seq<World>, since: nat, rec: Record) {
    exists k: nat :: Removed(ws, k, rec.holder) && Seen(ws[..k], since, HolderBound(rec.holder, rec.holderId))
  }

  lemma RemovedLater(ws: seq<World>, later: seq<World>, holder: Name)
    requires ws <= later && |ws| > 0 && Removed(ws, |ws| - 1, holder)
    ensures Removed(later, |ws| - 1, holder)
  {
    hide RemoveDir, Inside;
  }

  lemma TrackedHolder(v: Volume)
    requires v.Tracked()
    ensures HolderAt(v.t, v.live) <==> v.stage <= |v.t.members| + 1
  {
    TrackedStage(v);
    HolderAndJournalPlace(v.t, v.journalId, v.live, v.stage);
  }

  lemma ProgressStart(d: Disk, rec: Record)
    ensures Progress(d, d, rec, 0)
  {
    assert d.parent + Finals(rec.members, 0) == d.parent;
    assert MemberNames(rec.members[..0]) == {};
    assert Inside(d, rec.holder) - {} == Inside(d, rec.holder);
  }

  /** Installing members never touches the entry at the staging directory's own name. */
  lemma HolderUntouched(d0: Disk, d: Disk, rec: Record)
    requires DistinctMembers(rec.members) && Progress(d0, d, rec, |rec.members|)
    requires forall k | 0 <= k < |rec.members| :: MemberResumable(d0, rec.holder, rec.members[k])
    ensures rec.holder in d.parent <==> rec.holder in d0.parent
    ensures rec.holder in d0.parent ==> d0.parent[rec.holder] == d.parent[rec.holder]
  {
    FinalsAt(rec.members, |rec.members|);
    if rec.holder in Finals(rec.members, |rec.members|) {
      var k :| 0 <= k < |rec.members| && rec.members[k].name == rec.holder;
      assert MemberResumable(d0, rec.holder, rec.members[k]);
    }
  }

  lemma ResumableByIndex(d: Disk, rec: Record)
    ensures (forall m | m in rec.members :: MemberResumable(d, rec.holder, m))
            <==> forall k | 0 <= k < |rec.members| :: MemberResumable(d, rec.holder, rec.members[k])
  {
    if forall k | 0 <= k < |rec.members| :: MemberResumable(d, rec.holder, rec.members[k]) {
      forall m | m in rec.members ensures MemberResumable(d, rec.holder, m) {
        var k :| 0 <= k < |rec.members| && rec.members[k] == m;
      }
    }
  }

  /** The member loop of `resume_transaction`. */
  method ResumeAll(v: Volume, rec: Record, j: OpenJournal, ghost d0: Disk, ghost chain: bool) returns (ok: bool)
    requires v.Valid() && DistinctMembers(rec.members)
    requires chain ==> v.Tracked() && Settled(v.history) && rec == v.t && 1 <= v.stage <= |rec.members| + 2
    requires v.quiet ==> v.live == d0 && Bound(d0, j) && j.inode.content.Journal?
    modifies v
    ensures v.Valid() && old(v.history) <= v.history
    ensures chain ==> v.Tracked()
    ensures chain && ok ==> Settled(v.history) && |rec.members| + 1 <= v.stage <= |rec.members| + 2
    ensures v.quiet ==> (ok <==> forall k | 0 <= k < |rec.members| :: MemberResumable(d0, rec.holder, rec.members[k]))
    ensures v.quiet && ok ==> Progress(d0, v.live, rec, |rec.members|) && Bound(v.live, j)
  {
    hide Stage, Trace, MemberResumable, Progress, Settled, DistinctMembers;
    ProgressStart(d0, rec);
    var i := 0;
    while i < |rec.members|
      invariant 0 <= i <= |rec.members|
      invariant v.Valid() && old(v.history) <= v.history
      invariant chain ==> v.Tracked() && Settled(v.history) && i + 1 <= v.stage <= |rec.members| + 2
      invariant v.quiet ==> Progress(d0, v.live, rec, i) && Bound(v.live, j)
      invariant v.quiet ==> forall k | 0 <= k < i :: MemberResumable(d0, rec.holder, rec.members[k])
    {
      var r := ResumeMember(v, rec, j, i, d0, chain);
      if r.Err? { return false; }
      i := i + 1;
    }
    ok := true;
  }

  lemma ResumedState(d0: Disk, d: Disk, d': Disk, rec: Record, j: OpenJournal)
    requires Progress(d0, d, rec, |rec.members|) && Bound(d, j)
    requires (rec.holder in d.parent <==> rec.holder in d0.parent)
    requires rec.holder in d.parent ==> d.parent[rec.holder].kind.Directory? && Inside(d, rec.holder) == map[]
    requires d' == if rec.holder in d.parent then RemoveDir(d, rec.holder) else d
    ensures d'.parent == (d0.parent + Finals(rec.members, |rec.members|)) - {rec.holder}
    ensures d'.dirs - {rec.holder} == d0.dirs - {rec.holder} && SameContents(d0, d') && Bound(d', j)
  {
  }

  /** `resume_transaction`. */
  method Resume(v: Volume, rec: Record, j: OpenJournal, ghost chain: bool) returns (ok: bool)
    requires v.Valid() && DistinctMembers(rec.members)
    requires chain ==> v.Tracked() && Settled(v.history) && rec == v.t && 1 <= v.stage <= |rec.members| + 2
    requires v.quiet ==> Bound(v.live, j) && j.inode.content.Journal?
    modifies v
    ensures v.Valid() && old(v.history) <= v.history
    ensures chain ==> v.Tracked()
    ensures chain && ok ==> Settled(v.history) && v.stage == |rec.members| + 2
    ensures ok && MemberIds(rec.members) <= v.protected ==> AllInstalled(v.live, rec)
    ensures v.quiet ==> (ok <==> Resumable(old(v.live), rec))
    ensures v.quiet && ok ==>
              && v.live.parent == (old(v.live).parent + Finals(rec.members, |rec.members|)) - {rec.holder}
              && v.live.dirs - {rec.holder} == old(v.live).dirs - {rec.holder}
              && SameContents(old(v.live), v.live)
              && Bound(v.live, j)
    ensures ok ==> Resumed(v.history, |old(v.history)|, j, rec)
  {
    hide Stage, Trace, MemberResumable, Progress, DistinctMembers, SameContents, KeepsFiles, AllInstalled, Settled,
         Seen, HolderRemoved;
    ghost var since := |v.history|;
    ok := CheckJournal(v, j);
    if !ok { return; }
    ghost var d0, first := v.live, v.history;
    ResumableByIndex(d0, rec);
    ok := ResumeAll(v, rec, j, d0, chain);
    if !ok { return; }
    ghost var resumed := v.history;
    ok := VerifyAll(v, rec, d0);
    if !ok { return; }
    ghost var verified, all := v.live, v.history;
    if v.quiet {
      HolderUntouched(d0, v.live, rec);
      CompleteEmptiesHolder(d0, v.live, rec);
    }
    ok := RemoveHolder(v, rec, false, d0, chain, v.quiet);
    if !ok { return; }
    if v.quiet { ResumedState(d0, verified, v.live, rec, j); }
    ghost var removed, gone := v.live, v.history;
    ok := CheckJournal(v, j);
    if ok { ResumedInOrder(first, resumed, all, gone, v.history, j, rec); }
    if MemberIds(rec.members) <= v.protected { StaysInstalled(v.protected, verified, removed, v.live, rec); }
  }

  /** In order: the journal was seen in place; every member was seen intact at its final path and no
      longer staged; the staging directory was seen gone, or was removed; the journal was seen in place. */
  ghost predicate Resumed(ws: seq<World>, since: nat, j: OpenJournal, rec: Record) {
    exists a: nat, b: nat | since < a <= b < |ws| ::
      && Seen(ws[..a], since, JournalBound(j))
      && (forall m | m in rec.members :: Seen(ws[..b], a, Intact(m)) && Seen(ws[..b], a, NotStaged(rec.holder, m.name)))
      && (Seen(ws[..|ws| - 1], b, HolderGone(rec.holder)) || HolderRemoved(ws[..|ws| - 1], b, rec))
      && Shows(ws[|ws| - 1].live, JournalBound(j))
  }

  lemma ResumedInOrder(first: seq<World>, resumed: seq<World>, all: seq<World>, gone: seq<World>, ws: seq<World>,
                       j: OpenJournal, rec: Record)
    requires 0 < |first| && first <= resumed <= all && all <= gone <= ws && |ws| == |gone| + 1
    requires Bound(first[|first| - 1].live, j) && Bound(ws[|ws| - 1].live, j)
    requires forall m | m in rec.members ::
               Seen(all, |resumed|, Intact(m)) && Seen(all, |resumed|, NotStaged(rec.holder, m.name))
    requires Seen(gone, |all|, HolderGone(rec.holder)) || HolderRemoved(gone, |all|, rec)
    ensures Resumed(ws, |first| - 1, j, rec)
  {
    hide Shows, HolderRemoved, Bound, Seen;
    var a, b := |resumed|, |all|;
    assert ws[..a] == resumed && ws[..b] == all && ws[..|ws| - 1] == gone;
    JournalSeenNow(first, |first| - 1, j);
    JournalSeenNow(ws, |ws| - 1, j);
    SeenLater(first, resumed, |first| - 1, JournalBound(j));
  }

  lemma StaysInstalled(protected: set<Id>, d: Disk, d': Disk, d'': Disk, rec: Record)
    requires AllInstalled(d, rec) && MemberIds(rec.members) <= protected
    requires KeepsFiles(protected, d, d', {}) && KeepsFiles(protected, d', d'', {})
    ensures AllInstalled(d'', rec)
  {
    KeepsInstalled(protected, d, d', rec, {});
    KeepsInstalled(protected, d', d'', rec, {});
  }

  // ----- recovery and commit as callers see them -----

  /** The directory state a completed recovery leaves behind. */
  function CompletedParent(d: Disk, rec: Record): map<Name, Entry> {
    (d.parent + Finals(rec.members, |rec.members|)) - {rec.holder, JournalName(rec.primary)}
  }

  lemma TrackedJournal(v: Volume)
    requires v.Tracked()
    ensures JournalAt(v.live, v.t.primary) <==> 1 <= v.stage <= |v.t.members| + 2
    ensures JournalAt(v.live, v.t.primary) ==> JournalIn(v.live, v.t.primary) == v.t
    ensures WellFormed(v.t, v.journalId)
  {
    TrackedStage(v);
    HolderAndJournalPlace(v.t, v.journalId, v.live, v.stage);
  }

  /** `clear_journal`. */
  method ClearJournal(v: Volume, j: OpenJournal, ghost chain: bool) returns (ok: bool)
    requires v.Valid()
    requires chain ==>
               && v.Tracked() && Settled(v.history)
               && v.stage == |v.t.members| + 2 && j.name == JournalName(v.t.primary)
    modifies v
    ensures v.Valid() && old(v.history) <= v.history
    ensures KeepsFiles(v.protected, old(v.live), v.live, {j.name})
    ensures chain ==> v.Tracked()
    ensures chain && ok ==> v.stage == v.durableStage == LastStage(v.t)
    ensures v.quiet ==> (ok <==> Bound(old(v.live), j))
    ensures v.quiet && ok ==> v.live == Unlink(old(v.live), j.name)
    ensures ok && v.quiet ==> v.durable == v.live
    ensures ok ==> Seen(v.history, |old(v.history)|, JournalBound(j))
  {
    hide Stage, Trace;
    ok := CheckJournal(v, j);
    if !ok { return; }
    ok := v.RemoveBoundFile(j.name, j.id);
    if !ok { return; }
    ok := v.SyncParent();
  }

  /** The identities bound by a journal that is pending for `primary`, if there is one. */
  function Pending(d: Disk, primary: Name): Option<set<Id>> {
    if JournalAt(d, primary) then Some(Mine(JournalIn(d, primary), d.parent[JournalName(primary)].id)) else None
  }

  /** What a record must be like for recovery to act on it. */
  predicate Accepted(primary: Name, rec: Record) {
    && rec.version == 1 && 1 <= |rec.members| <= 64
    && rec.primary == primary == rec.members[|rec.members| - 1].name
    && forall i, j | 0 <= i < j < |rec.members| ::
         rec.members[i].name != rec.members[j].name && rec.members[i].id != rec.members[j].id
  }

  datatype Recovery = Completed | NothingPending | Failed(error: Error)

  /** The publication was resumed, and after that the journal was seen in place once more. */
  ghost predicate ResumedAndCleared(ws: seq<World>, since: nat, j: OpenJournal, rec: Record) {
    exists until: nat | until <= |ws| :: Resumed(ws[..until], since, j, rec) && Seen(ws, until, JournalBound(j))
  }

  /** What recovery does with a journal it accepts. */
  method ResumeAndClear(v: Volume, rec: Record, j: OpenJournal, ghost chain: bool) returns (ok: bool)
    requires v.Valid() && Resolves(rec.primary, rec) && j.name == JournalName(rec.primary)
    requires chain ==> v.Tracked() && Settled(v.history) && rec == v.t && 1 <= v.stage <= |rec.members| + 2
    requires v.quiet ==> Bound(v.live, j) && j.inode.content.Journal?
    modifies v
    ensures v.Valid() && old(v.history) <= v.history
    ensures chain ==> v.Tracked()
    ensures chain && ok ==> v.stage == v.durableStage == LastStage(rec)
    ensures ok && MemberIds(rec.members) <= v.protected ==>
              rec.primary in v.live.parent && v.live.parent[rec.primary].kind.File?
              && v.live.parent[rec.primary].id in v.protected
    ensures v.quiet ==> (ok <==> Resumable(old(v.live), rec))
    ensures v.quiet && ok ==>
              && v.live.parent == CompletedParent(old(v.live), rec)
              && v.live.dirs - {rec.holder} == old(v.live).dirs - {rec.holder}
              && SameContents(old(v.live), v.live)
              && v.durable == v.live
              && rec.primary in v.live.parent
    ensures ok ==> ResumedAndCleared(v.history, |old(v.history)|, j, rec)
  {
    hide Stage, Trace, Resumable, Settled, WellFormed, EnvOk, AllInstalled, KeepsFiles, Resumed, Seen;
    ok := Resume(v, rec, j, chain);
    if !ok { return; }
    ghost var resumed, until := v.live, v.history;
    ok := ClearJournal(v, j, chain);
    if !ok { return; }
    assert v.history[..|until|] == until;
    if MemberIds(rec.members) <= v.protected { PrimaryStays(v.protected, resumed, v.live, rec); }
    if v.quiet {
      ClearedParent(old(v.live), rec, resumed);
      RecoveredPrimary(old(v.live), rec);
    }
  }

  /** `recover_file_set_publication` with the output-set lock held. Undisturbed, it
      completes exactly the resumable transactions and reports a missing journal. */
  method RecoverLocked(v: Volume, primary: Name) returns (r: Recovery)
    requires v.Valid()
    modifies v
    ensures v.Valid() && old(v.history) <= v.history
    ensures old(v.Tracked()) && Settled(old(v.history)) && primary == v.t.primary ==>
              && v.Tracked()
              && (old(v.stage) == 0 ==> v.stage == 0 && Settled(v.history) && !r.Completed?)
              && (r.Completed? ==> v.stage == v.durableStage == LastStage(v.t))
    ensures r.NothingPending? ==> KeepsFiles(v.protected, old(v.live), v.live, {}) && Pending(v.live, primary) == None
    ensures Pending(old(v.live), primary).Some? && Pending(old(v.live), primary).value <= v.protected ==>
              !r.NothingPending?
              && (r.Completed? ==> primary in v.live.parent && v.live.parent[primary].kind.File?
                                    && v.live.parent[primary].id in v.protected)
    ensures v.quiet ==> (r.NothingPending? <==> JournalName(primary) !in old(v.live).parent)
    ensures v.quiet ==> (r.Completed? <==>
              && JournalAt(old(v.live), primary)
              && Resolves(primary, JournalIn(old(v.live), primary))
              && Resumable(old(v.live), JournalIn(old(v.live), primary)))
    ensures v.quiet && r.Completed? ==>
              var rec := JournalIn(old(v.live), primary);
              && v.live.parent == CompletedParent(old(v.live), rec)
              && v.live.dirs - {rec.holder} == old(v.live).dirs - {rec.holder}
              && SameContents(old(v.live), v.live)
              && v.durable == v.live
              && primary in v.live.parent
    ensures v.quiet && r.NothingPending? ==> v.live == old(v.live) && v.durable == old(v.durable)
    ensures v.quiet && r.Failed? ==>
              r.error == if !old(v.live).parent[JournalName(primary)].kind.File? then Unsupported
                         else if !JournalAt(old(v.live), primary) then InvalidJournal
                         else if !Accepted(primary, JournalIn(old(v.live), primary)) then Unsupported
                         else NeedsRecovery
    ensures r.Completed? ==>
              exists j: OpenJournal ::
                && j.name == JournalName(primary) && j.inode.content.Journal?
                && Accepted(primary, j.inode.content.record)
                && ResumedAndCleared(v.history, |old(v.history)| + 1, j, j.inode.content.record)
  {
    hide Stage, Trace, Resumable, Settled, WellFormed, EnvOk, AllInstalled, KeepsFiles,
         ResumedAndCleared, CompletedParent, SameContents;
    ghost var chain := v.Tracked() && Settled(v.history) && primary == v.t.primary;
    var name := JournalName(primary);
    v.Interfere();
    PendingStays(JournalName(v.t.primary), v.protected, old(v.live), v.live, primary);
    if chain { TrackedJournal(v); }
    if name !in v.live.parent { return NothingPending; }
    if !v.live.parent[name].kind.File? { return Failed(Unsupported); }
    if !IsJournal(v.live, name) { return Failed(InvalidJournal); }
    var id := v.live.parent[name].id;
    var j := OpenJournal(name, id, v.live.inodes[id]);
    var rec := j.inode.content.record;
    if !Resolves(primary, rec) { return Failed(Unsupported); }
    var ok := ResumeAndClear(v, rec, j, chain);
    if !ok { return Failed(NeedsRecovery); }
    return Completed;
  }

  lemma PendingStays(reserved: Name, protected: set<Id>, d: Disk, d': Disk, primary: Name)
    requires EnvOk(reserved, protected, d, d')
    ensures Pending(d, primary).Some? && Pending(d, primary).value <= protected ==>
            Pending(d', primary) == Pending(d, primary)
  {
    hide Inside;
    if Pending(d, primary).Some? && Pending(d, primary).value <= protected {
      var name := JournalName(primary);
      assert d.parent[name].id in Pending(d, primary).value;
      assert name in Part(d.parent, protected);
      assert name in Part(d'.parent, protected);
    }
  }

  lemma PrimaryStays(protected: set<Id>, d: Disk, d': Disk, rec: Record)
    requires Resolves(rec.primary, rec) && AllInstalled(d, rec) && MemberIds(rec.members) <= protected
    requires KeepsFiles(protected, d, d', {JournalName(rec.primary)})
    ensures rec.primary in d'.parent && d'.parent[rec.primary].kind.File? && d'.parent[rec.primary].id in protected
  {
    var m := rec.members[|rec.members| - 1];
    assert m in rec.members;
    assert |JournalName(rec.primary)| > |rec.primary|;
  }

  lemma RecoveredPrimary(d: Disk, rec: Record)
    requires Resolves(rec.primary, rec) && Resumable(d, rec)
    ensures rec.primary in CompletedParent(d, rec)
  {
    var m := rec.members[|rec.members| - 1];
    assert m in rec.members;
    assert MemberResumable(d, rec.holder, m);
    assert |JournalName(rec.primary)| > |rec.primary|;
    FinalsAt(rec.members, |rec.members|);
  }

  lemma ClearedParent(d: Disk, rec: Record, resumed: Disk)
    requires resumed.parent == (d.parent + Finals(rec.members, |rec.members|)) - {rec.holder}
    ensures Unlink(resumed, JournalName(rec.primary)).parent == CompletedParent(d, rec)
  {
  }

  /** `verify_prepared_member`: identity and exact metadata, but no second hash. */
  predicate PreparedAt(d: Disk, holder: Name, m: Member) {
    var inside := Inside(d, holder);
    m.name in inside && inside[m.name] == Entry(File, m.id) && m.id in d.inodes && d.inodes[m.id].state == m.state
  }

  predicate InstalledFrom(d: Disk, m: Member) {
    m.name in d.parent && d.parent[m.name].id == m.id && m.id in d.inodes
    && m.state.EquivalentAfterRename(d.inodes[m.id].state)
  }

  /** `verify_bindings`. */
  method VerifyBindings(v: Volume, rec: Record) returns (ok: bool)
    requires v.Valid()
    modifies v
    ensures v.Valid() && old(v.history) <= v.history && v.stage == old(v.stage)
    ensures old(v.Tracked()) ==> v.Tracked()
    ensures Settled(old(v.history)) ==> Settled(v.history)
    ensures KeepsFiles(v.protected, old(v.live), v.live, {})
    ensures v.quiet ==> v.live == old(v.live) && v.durable == old(v.durable)
    ensures v.quiet ==> (ok <==>
              && rec.holder in v.live.parent && v.live.parent[rec.holder] == Entry(Directory, rec.holderId)
              && Inside(v.live, rec.holder).Keys == MemberNames(rec.members)
              && (forall k | 0 <= k < |rec.members| :: PreparedAt(v.live, rec.holder, rec.members[k])))
    ensures ok ==> BindingsSeen(v.history, |old(v.history)|, rec)
  {
    hide Stage, Trace, PreparedAt, Seen;
    ghost var since := |v.history|;
    v.Interfere();
    if rec.holder !in v.live.parent || v.live.parent[rec.holder] != Entry(Directory, rec.holderId) { return false; }
    SeenNow(v.history, since, HolderBound(rec.holder, rec.holderId));
    ghost var before := v.history;
    v.Interfere();
    if Inside(v.live, rec.holder).Keys != MemberNames(rec.members) { return false; }
    SeenLater(before, v.history, since, HolderBound(rec.holder, rec.holderId));
    SeenNow(v.history, since, HolderHolds(rec.holder, MemberNames(rec.members)));
    var i := 0;
    while i < |rec.members|
      invariant 0 <= i <= |rec.members|
      invariant v.Valid() && old(v.history) <= v.history && v.stage == old(v.stage)
      invariant old(v.Tracked()) ==> v.Tracked()
      invariant Settled(old(v.history)) ==> Settled(v.history)
      invariant KeepsFiles(v.protected, old(v.live), v.live, {})
      invariant v.quiet ==> v.live == old(v.live) && v.durable == old(v.durable)
      invariant v.quiet ==> forall k | 0 <= k < i :: PreparedAt(v.live, rec.holder, rec.members[k])
      invariant Seen(v.history, since, HolderBound(rec.holder, rec.holderId))
                && Seen(v.history, since, HolderHolds(rec.holder, MemberNames(rec.members)))
      invariant forall k | 0 <= k < i :: Seen(v.history, since, Prepared(rec.holder, rec.members[k]))
    {
      before := v.history;
      v.Interfere();
      SeenLater(before, v.history, since, HolderBound(rec.holder, rec.holderId));
      SeenLater(before, v.history, since, HolderHolds(rec.holder, MemberNames(rec.members)));
      forall k | 0 <= k < i ensures Seen(v.history, since, Prepared(rec.holder, rec.members[k])) {
        SeenLater(before, v.history, since, Prepared(rec.holder, rec.members[k]));
      }
      if !PreparedAt(v.live, rec.holder, rec.members[i]) { return false; }
      PreparedSeenNow(v.history, since, rec.holder, rec.members[i]);
      i := i + 1;
    }
    ok := true;
  }

  /** The staging directory was seen to be the bound one, to hold exactly the members, and each of them
      as prepared. */
  ghost predicate BindingsSeen(ws: seq<World>, since: nat, rec: Record) {
    && Seen(ws, since, HolderBound(rec.holder, rec.holderId))
    && Seen(ws, since, HolderHolds(rec.holder, MemberNames(rec.members)))
    && forall k | 0 <= k < |rec.members| :: Seen(ws, since, Prepared(rec.holder, rec.members[k]))
  }

  lemma BindingsSeenLater(ws: seq<World>, later: seq<World>, since: nat, from': nat, rec: Record)
    requires ws <= later && since <= from' && BindingsSeen(ws, from', rec)
    ensures BindingsSeen(later, since, rec)
  {
    hide Seen;
    SightLater(ws, later, since, from', HolderBound(rec.holder, rec.holderId));
    SightLater(ws, later, since, from', HolderHolds(rec.holder, MemberNames(rec.members)));
    forall k | 0 <= k < |rec.members| ensures Seen(later, since, Prepared(rec.holder, rec.members[k])) {
      SightLater(ws, later, since, from', Prepared(rec.holder, rec.members[k]));
    }
  }

  lemma SightLater(ws: seq<World>, later: seq<World>, since: nat, from': nat, s: Sight)
    requires ws <= later && since <= from' && Seen(ws, from', s)
    ensures Seen(later, since, s)
  {
    hide Seen;
    SeenLater(ws, later, from', s);
    SeenSince(later, since, from', s);
  }

  predicate ProtectedFileAt(d: Disk, protected: set<Id>, name: Name) {
    name in d.parent && d.parent[name].kind.File? && d.parent[name].id in protected
  }

  /** No output of the set may exist yet. */
  method EnsureOutputsMissing(v: Volume, rec: Record) returns (ok: bool)
    requires v.Valid()
    modifies v
    ensures v.Valid() && old(v.history) <= v.history && v.stage == old(v.stage)
    ensures old(v.Tracked()) ==> v.Tracked()
    ensures Settled(old(v.history)) ==> Settled(v.history)
    ensures v.quiet ==> v.live == old(v.live) && v.durable == old(v.durable)
    ensures v.quiet ==> (ok <==> forall k | 0 <= k < |rec.members| :: rec.members[k].name !in v.live.parent)
    ensures ok ==> forall k | 0 <= k < |rec.members| :: !ProtectedFileAt(old(v.live), v.protected, rec.members[k].name)
    ensures ok ==> forall k | 0 <= k < |rec.members| ::
              Seen(v.history, |old(v.history)|, Missing(rec.members[k].name))
  {
    hide Stage, Trace;
    var i := 0;
    while i < |rec.members|
      invariant 0 <= i <= |rec.members|
      invariant v.Valid() && old(v.history) <= v.history && v.stage == old(v.stage)
      invariant old(v.Tracked()) ==> v.Tracked()
      invariant Settled(old(v.history)) ==> Settled(v.history)
      invariant KeepsFiles(v.protected, old(v.live), v.live, {})
      invariant v.quiet ==> v.live == old(v.live) && v.durable == old(v.durable)
      invariant v.quiet ==> forall k | 0 <= k < i :: rec.members[k].name !in v.live.parent
      invariant forall k | 0 <= k < i :: !ProtectedFileAt(old(v.live), v.protected, rec.members[k].name)
      invariant forall k | 0 <= k < i :: Seen(v.history, |old(v.history)|, Missing(rec.members[k].name))
    {
      ghost var before := v.history;
      v.Interfere();
      forall k | 0 <= k < i ensures Seen(v.history, |old(v.history)|, Missing(rec.members[k].name)) {
        SeenLater(before, v.history, |old(v.history)|, Missing(rec.members[k].name));
      }
      if rec.members[i].name in v.live.parent { return false; }
      SeenNow(v.history, |old(v.history)|, Missing(rec.members[i].name));
      i := i + 1;
    }
    ok := true;
  }

  /** Progress of a commit, which knows what each of its renames did to the change time. */
  ghost predicate CommitProgress(d0: Disk, d: Disk, rec: Record, k: nat, bump: nat)
    requires k <= |rec.members|
  {
    && Progress(d0, d, rec, k)
    && forall id | id in MemberIds(rec.members[..k]) && id in d0.inodes ::
         if bump == 0 then d.inodes[id] == d0.inodes[id] else d.inodes[id].state.changed > d0.inodes[id].state.changed
  }

  lemma CommitIsProgress(d0: Disk, d: Disk, rec: Record, k: nat, bump: nat)
    requires k <= |rec.members| && CommitProgress(d0, d, rec, k, bump)
    ensures Progress(d0, d, rec, k)
  {
  }

  lemma CommitStart(d: Disk, rec: Record, bump: nat)
    ensures CommitProgress(d, d, rec, 0, bump)
  {
    ProgressStart(d, rec);
  }

  lemma CommitInstall(d0: Disk, d: Disk, rec: Record, k: nat, bump: nat)
    requires k < |rec.members| && CommitProgress(d0, d, rec, k, bump) && PreparedAt(d, rec.holder, rec.members[k])
    requires rec.members[k].name !in d.parent
    ensures CommitProgress(d0, Install(d, rec.holder, rec.members[k].name, bump), rec, k + 1, bump)
  {
    ProgressInstall(d0, d, rec, k, bump);
    PrefixGrows(rec.members, k);
    hide Finals;
  }

  /** When its turn comes, a member is as prepared unless a rename of another link to its file
      has moved the change time. */
  lemma CommitFindsPrepared(d0: Disk, d: Disk, rec: Record, i: nat, bump: nat)
    requires DistinctNames(rec.members) && i < |rec.members| && CommitProgress(d0, d, rec, i, bump)
    requires PreparedAt(d0, rec.holder, rec.members[i])
    ensures PreparedAt(d, rec.holder, rec.members[i]) <==>
            bump == 0 || rec.members[i].id !in MemberIds(rec.members[..i])
    ensures rec.members[i].name in d.parent <==> rec.members[i].name in d0.parent
  {
    FinalsAt(rec.members, i);
    assert rec.members[i].name !in MemberNames(rec.members[..i]);
  }

  lemma DistinctByPrefix(ms: seq<Member>)
    ensures DistinctIds(ms) <==> forall k | 0 <= k < |ms| :: ms[k].id !in MemberIds(ms[..k])
  {
    if DistinctIds(ms) {
      forall k | 0 <= k < |ms| ensures ms[k].id !in MemberIds(ms[..k]) {}
    } else {
      var i, j :| 0 <= i < j < |ms| && ms[i].id == ms[j].id;
      assert ms[..j][i] in ms[..j];
    }
  }

  lemma ProgressInstalledFrom(d0: Disk, d: Disk, rec: Record, k: nat, i: nat)
    requires DistinctNames(rec.members) && i < k <= |rec.members| && Progress(d0, d, rec, k)
    requires PreparedAt(d0, rec.holder, rec.members[i])
    ensures InstalledFrom(d, rec.members[i])
  {
    FinalsAt(rec.members, k);
  }

  /** The checks before a rename of the commit loop: the journal, then the staged file. */
  method CheckPrepared(v: Volume, j: OpenJournal, holder: Name, m: Member) returns (ok: bool)
    requires v.Valid()
    modifies v
    ensures v.Valid() && old(v.history) <= v.history && v.stage == old(v.stage)
    ensures old(v.Tracked()) ==> v.Tracked()
    ensures Settled(old(v.history)) ==> Settled(v.history)
    ensures v.quiet ==> v.live == old(v.live) && v.durable == old(v.durable)
    ensures v.quiet ==> (ok <==> Bound(v.live, j) && PreparedAt(v.live, holder, m))
    ensures ok ==> PreparedAt(v.live, holder, m) && Seen(v.history, |old(v.history)|, JournalBound(j))
                   && Seen(v.history, |old(v.history)|, Prepared(holder, m))
  {
    hide Stage, Trace, Settled, Seen, PreparedAt, Bound;
    ghost var since := |v.history|;
    ok := CheckJournal(v, j);
    if !ok { return; }
    JournalSeenNow(v.history, since, j);
    ghost var bound := v.history;
    v.Interfere();
    ok := PreparedAt(v.live, holder, m);
    if ok { PreparedSeenNow(v.history, since, holder, m); }
    SeenLater(bound, v.history, since, JournalBound(j));
  }

  /** One turn of the commit loop. */
  method CommitMember(v: Volume, rec: Record, j: OpenJournal, i: nat, ghost d0: Disk, ghost chain: bool)
    returns (ok: bool)
    requires v.Valid() && i < |rec.members|
    requires chain ==> v.Tracked() && Settled(v.history) && rec == v.t && v.stage == 1 + i
    requires v.quiet && DistinctNames(rec.members) ==>
               CommitProgress(d0, v.live, rec, i, v.renameBump) && Bound(v.live, j)
               && j.inode.content.Journal? && j.id !in MemberIds(rec.members)
               && PreparedAt(d0, rec.holder, rec.members[i])
    modifies v
    ensures v.Valid() && old(v.history) <= v.history
    ensures chain ==> v.Tracked()
    ensures chain && ok ==> Settled(v.history) && v.stage == 2 + i
    ensures v.quiet && DistinctNames(rec.members) ==>
              && (ok <==> && rec.members[i].name !in d0.parent
                          && (v.renameBump == 0 || rec.members[i].id !in MemberIds(rec.members[..i])))
              && (ok ==> CommitProgress(d0, v.live, rec, i + 1, v.renameBump) && Bound(v.live, j))
    ensures ok ==> CheckedMove(v.history, |old(v.history)|, j, rec.holder, rec.members[i], v.renameBump)
  {
    hide Stage, Trace, Progress, DistinctNames, MemberIds, Settled, Seen, Renamed, CheckedMove, CommitProgress, Install,
         Checked;
    var m := rec.members[i];
    IdOfMember(rec.members, i);
    ghost var calm := v.quiet && DistinctNames(rec.members);
    ghost var since := |v.history|;
    if calm { CommitFindsPrepared(d0, v.live, rec, i, v.renameBump); }
    ok := CheckPrepared(v, j, rec.holder, m);
    if !ok { return; }
    ghost var before, checked := v.live, v.history;
    ok := v.MoveOut(rec.holder, m.name);
    if !ok { return; }
    ghost var moved := v.history;
    MoveChecked(checked, moved, since, j, rec.holder, m.name, Prepared(rec.holder, m), v.renameBump);
    if calm {
      CommitInstall(d0, before, rec, i, v.renameBump);
      CommitIsProgress(d0, v.live, rec, i + 1, v.renameBump);
      ProgressInstalledFrom(d0, v.live, rec, i + 1, i);
      StillBound(before, v.live, rec, i, v.renameBump, j);
    }
    ok := v.SyncParent();
    if !ok { return; }
    v.Interfere();
    ok := InstalledFrom(v.live, m);
    if ok { MoveSeen(moved, v.history, since, j, rec.holder, m, v.renameBump); }
  }

  lemma MoveSeen(moved: seq<World>, ws: seq<World>, since: nat, j: OpenJournal, holder: Name, m: Member, bump: nat)
    requires 0 < |moved| && moved < ws
    requires Checked(moved, since, |moved| - 1, j, holder, m.name, Prepared(holder, m), bump)
    requires InstalledFrom(ws[|ws| - 1].live, m)
    ensures CheckedMove(ws, since, j, holder, m, bump)
  {
    hide Checked;
    CheckedLater(moved, ws, since, |moved| - 1, j, holder, m.name, Prepared(holder, m), bump);
    InstalledSeenNow(ws, |moved| - 1, m);
  }

  lemma StillBound(d: Disk, d': Disk, rec: Record, i: nat, bump: nat, j: OpenJournal)
    requires i < |rec.members| && Bound(d, j) && j.inode.content.Journal? && j.id != rec.members[i].id
    requires rec.members[i].name in Inside(d, rec.holder) && rec.members[i].name !in d.parent
    requires Inside(d, rec.holder)[rec.members[i].name].id == rec.members[i].id
    requires d' == Install(d, rec.holder, rec.members[i].name, bump)
    ensures Bound(d', j)
  {
  }

  lemma IdOfMember(ms: seq<Member>, i: nat)
    requires i < |ms|
    ensures ms[i].id in MemberIds(ms)
  {
    assert ms[i] in ms;
  }

  method CommitAll(v: Volume, rec: Record, j: OpenJournal, ghost d0: Disk, ghost chain: bool) returns (ok: bool)
    requires v.Valid()
    requires chain ==> v.Tracked() && Settled(v.history) && rec == v.t && v.stage == 1
    requires v.quiet && DistinctNames(rec.members) ==>
               v.live == d0 && Bound(d0, j) && j.inode.content.Journal? && j.id !in MemberIds(rec.members)
               && forall k | 0 <= k < |rec.members| :: PreparedAt(d0, rec.holder, rec.members[k])
    modifies v
    ensures v.Valid() && old(v.history) <= v.history
    ensures chain ==> v.Tracked()
    ensures chain && ok ==> Settled(v.history) && v.stage == |rec.members| + 1
    ensures v.quiet && DistinctNames(rec.members) ==>
              && (ok <==> && (forall k | 0 <= k < |rec.members| :: rec.members[k].name !in d0.parent)
                          && (v.renameBump == 0 || DistinctIds(rec.members)))
              && (ok ==> Progress(d0, v.live, rec, |rec.members|) && Bound(v.live, j))
    ensures ok ==> Committed(v.history, |old(v.history)|, j, rec, v.renameBump)
  {
    hide Stage, Trace, Progress, CommitProgress, DistinctNames, DistinctIds, MemberIds, PreparedAt, CheckedMove, Seen,
         Settled, InstalledFrom;
    ghost var since := |v.history|;
    ghost var calm := v.quiet && DistinctNames(rec.members);
    CommitStart(d0, rec, v.renameBump);
    DistinctByPrefix(rec.members);
    var i := 0;
    while i < |rec.members|
      invariant 0 <= i <= |rec.members|
      invariant v.Valid() && old(v.history) <= v.history
      invariant chain ==> v.Tracked() && Settled(v.history) && v.stage == 1 + i
      invariant calm ==> CommitProgress(d0, v.live, rec, i, v.renameBump) && Bound(v.live, j)
      invariant calm ==> forall k | 0 <= k < i ::
                  && rec.members[k].name !in d0.parent
                  && (v.renameBump == 0 || rec.members[k].id !in MemberIds(rec.members[..k]))
      invariant forall k | 0 <= k < i :: CheckedMove(v.history, since, j, rec.holder, rec.members[k], v.renameBump)
    {
      ghost var before := v.history;
      ok := CommitMember(v, rec, j, i, d0, chain);
      if !ok { return; }
      MovesLater(before, v.history, since, j, rec, i, v.renameBump);
      i := i + 1;
    }
    ghost var moved := v.history;
    if calm { CommitIsProgress(d0, v.live, rec, |rec.members|, v.renameBump); }
    ok := CheckJournal(v, j);
    if !ok { return; }
    JournalSeenNow(v.history, |moved|, j);
    i := 0;
    while i < |rec.members|
      invariant 0 <= i <= |rec.members|
      invariant v.Valid() && old(v.history) <= v.history
      invariant chain ==> v.Tracked() && Settled(v.history) && v.stage == |rec.members| + 1
      invariant calm ==> Progress(d0, v.live, rec, |rec.members|) && Bound(v.live, j)
      invariant moved <= v.history && Seen(v.history, |moved|, JournalBound(j))
      invariant forall k | 0 <= k < i :: Seen(v.history, |moved|, Installed(rec.members[k]))
    {
      if calm { ProgressInstalledFrom(d0, v.live, rec, |rec.members|, i); }
      ghost var before := v.history;
      v.Interfere();
      SeenLater(before, v.history, |moved|, JournalBound(j));
      forall k | 0 <= k < i ensures Seen(v.history, |moved|, Installed(rec.members[k])) {
        SeenLater(before, v.history, |moved|, Installed(rec.members[k]));
      }
      if !InstalledFrom(v.live, rec.members[i]) { return false; }
      InstalledSeenNow(v.history, |moved|, rec.members[i]);
      i := i + 1;
    }
    assert v.history[..|moved|] == moved;
    ok := true;
  }

  /** Every member was renamed after its checks and seen installed; after all renames the journal was
      seen in place, and each member was seen installed once more. */
  ghost predicate Committed(ws: seq<World>, since: nat, j: OpenJournal, rec: Record, bump: nat) {
    exists c: nat | since <= c <= |ws| ::
      && (forall k | 0 <= k < |rec.members| :: CheckedMove(ws[..c], since, j, rec.holder, rec.members[k], bump))
      && Seen(ws, c, JournalBound(j)) && forall k | 0 <= k < |rec.members| :: Seen(ws, c, Installed(rec.members[k]))
  }

  lemma MovesLater(ws: seq<World>, later: seq<World>, since: nat, j: OpenJournal, rec: Record, i: nat, bump: nat)
    requires ws <= later && i < |rec.members| && since <= |ws|
    requires forall k | 0 <= k < i :: CheckedMove(ws, since, j, rec.holder, rec.members[k], bump)
    requires CheckedMove(later, |ws|, j, rec.holder, rec.members[i], bump)
    ensures forall k | 0 <= k <= i :: CheckedMove(later, since, j, rec.holder, rec.members[k], bump)
  {
    hide CheckedMove;
    forall k | 0 <= k <= i ensures CheckedMove(later, since, j, rec.holder, rec.members[k], bump) {
      if k < i {
        CheckedMoveLater(ws, later, since, since, j, rec.holder, rec.members[k], bump);
      } else {
        CheckedMoveLater(later, later, since, |ws|, j, rec.holder, rec.members[k], bump);
      }
    }
  }

  lemma CommittedLater(ws: seq<World>, later: seq<World>, since: nat, from': nat, j: OpenJournal, rec: Record,
                       bump: nat)
    requires ws <= later && since <= from' && Committed(ws, from', j, rec, bump)
    ensures Committed(later, since, j, rec, bump)
  {
    hide CheckedMove, Seen;
    var c: nat :| from' <= c <= |ws|
      && (forall k | 0 <= k < |rec.members| :: CheckedMove(ws[..c], from', j, rec.holder, rec.members[k], bump))
      && Seen(ws, c, JournalBound(j)) && forall k | 0 <= k < |rec.members| :: Seen(ws, c, Installed(rec.members[k]));
    assert later[..c] == ws[..c];
    SeenLater(ws, later, c, JournalBound(j));
    forall k | 0 <= k < |rec.members|
      ensures CheckedMove(later[..c], since, j, rec.holder, rec.members[k], bump)
              && Seen(later, c, Installed(rec.members[k]))
    {
      CheckedMoveLater(ws[..c], later[..c], since, from', j, rec.holder, rec.members[k], bump);
      SeenLater(ws, later, c, Installed(rec.members[k]));
    }
  }

  /** The directory states in which an undisturbed commit of `rec` succeeds. */
  predicate Committable(d: Disk, rec: Record, nextId: Id) {
    && JournalName(rec.primary) !in d.parent && nextId !in d.inodes
    && rec.holder in d.parent && d.parent[rec.holder] == Entry(Directory, rec.holderId)
    && Inside(d, rec.holder).Keys == MemberNames(rec.members)
    && (forall m | m in rec.members :: PreparedAt(d, rec.holder, m))
    && (forall m | m in rec.members :: m.name !in d.parent && m.name != JournalName(rec.primary))
  }

  /** A staged file that changed since it was prepared blocks the commit exactly when its metadata
      shows it; the contents are not read a second time. */
  lemma StaleMemberBlocksCommit(d: Disk, rec: Record, nextId: Id, k: nat, inode: Inode)
    requires Committable(d, rec, nextId) && DistinctIds(rec.members) && k < |rec.members|
    ensures var id := rec.members[k].id;
            id in d.inodes
            && (Committable(d.(inodes := d.inodes[id := inode]), rec, nextId) <==> inode.state == d.inodes[id].state)
  {
    var m := rec.members[k];
    assert m in rec.members;
    var changed := d.(inodes := d.inodes[m.id := inode]);
    assert Inside(changed, rec.holder) == Inside(d, rec.holder);
    forall other | other in rec.members && other != m ensures PreparedAt(changed, rec.holder, other) {
      assert other.id != m.id;
    }
  }

  /** The volume holds the followed transaction completely staged and synchronized. */
  ghost predicate ReadyToFollow(v: Volume, rec: Record)
    reads v
  {
    && rec == v.t && v.nextId == v.journalId
    && WellFormed(v.t, v.journalId) && Mine(v.t, v.journalId) <= v.protected
    && v.stage == v.durableStage == 0
    && InChain(v.t, v.journalId, v.Now())
  }

  lemma StartTrace(v: Volume)
    requires v.Valid() && |v.history| == 1 && WellFormed(v.t, v.journalId) && Mine(v.t, v.journalId) <= v.protected
    requires InChain(v.t, v.journalId, v.Now())
    ensures v.Tracked() && Settled(v.history)
  {
    hide Part, Mine, Stage, WellFormed, Step, ProgramStep;
  }

  lemma CommittedHolder(d0: Disk, d: Disk, rec: Record)
    requires DistinctNames(rec.members) && Progress(d0, d, rec, |rec.members|)
    requires forall k | 0 <= k < |rec.members| :: rec.members[k].name !in d0.parent
    requires rec.holder in d0.parent
    ensures rec.holder in d.parent && d.parent[rec.holder] == d0.parent[rec.holder]
    ensures Inside(d0, rec.holder).Keys <= MemberNames(rec.members) ==> Inside(d, rec.holder) == map[]
  {
    FinalsAt(rec.members, |rec.members|);
    CompleteEmptiesHolder(d0, d, rec);
  }

  lemma PublishedState(d: Disk, rec: Record, id: Id, inode: Inode)
    requires JournalName(rec.primary) !in d.parent && id !in d.inodes
    requires rec.holder in d.parent
    requires forall k | 0 <= k < |rec.members| :: PreparedAt(d, rec.holder, rec.members[k])
    ensures var d' := Publish(d, JournalName(rec.primary), id, inode);
            && (forall k | 0 <= k < |rec.members| :: PreparedAt(d', rec.holder, rec.members[k]))
            && Inside(d', rec.holder) == Inside(d, rec.holder)
            && id !in MemberIds(rec.members)
  {
    forall k | 0 <= k < |rec.members|
      ensures PreparedAt(Publish(d, JournalName(rec.primary), id, inode), rec.holder, rec.members[k])
    {
      assert rec.members[k] in rec.members;
    }
  }

  predicate BindingsHold(d: Disk, rec: Record) {
    && rec.holder in d.parent && d.parent[rec.holder] == Entry(Directory, rec.holderId)
    && Inside(d, rec.holder).Keys == MemberNames(rec.members)
    && forall k | 0 <= k < |rec.members| :: PreparedAt(d, rec.holder, rec.members[k])
  }

  /** Staging directory and members were seen as prepared, and each output path free. */
  ghost predicate ReadySeen(ws: seq<World>, since: nat, rec: Record) {
    && BindingsSeen(ws, since, rec)
    && forall k | 0 <= k < |rec.members| :: Seen(ws, since, Missing(rec.members[k].name))
  }

  lemma ReadyIsSeen(bound: seq<World>, ws: seq<World>, since: nat, from': nat, rec: Record)
    requires bound <= ws && since <= from' && BindingsSeen(bound, from', rec)
    requires forall k | 0 <= k < |rec.members| :: Seen(ws, |bound|, Missing(rec.members[k].name))
    requires since <= |bound|
    ensures ReadySeen(ws, since, rec)
  {
    hide Seen, BindingsSeen;
    BindingsSeenLater(bound, ws, since, from', rec);
    forall k | 0 <= k < |rec.members| ensures Seen(ws, since, Missing(rec.members[k].name)) {
      SeenSince(ws, since, |bound|, Missing(rec.members[k].name));
    }
  }

  lemma ReadyLater(ws: seq<World>, later: seq<World>, since: nat, rec: Record)
    requires ws <= later && ReadySeen(ws, since, rec)
    ensures ReadySeen(later, since, rec)
  {
    hide Seen, BindingsSeen;
    BindingsSeenLater(ws, later, since, since, rec);
    forall k | 0 <= k < |rec.members| ensures Seen(later, since, Missing(rec.members[k].name)) {
      SeenLater(ws, later, since, Missing(rec.members[k].name));
    }
  }

  /** The checks commit makes before it writes anything: recover, re-bind, no output yet. */
  method PrepareToCommit(v: Volume, rec: Record, ghost chain: bool) returns (r: Result<()>)
    requires v.Valid() && |rec.members| > 0 && rec.members[|rec.members| - 1].name == rec.primary
    requires chain ==> v.Tracked() && Settled(v.history) && rec == v.t && v.stage == 0
    modifies v
    ensures v.Valid() && old(v.history) <= v.history
    ensures chain ==> v.Tracked()
    ensures chain && r.Ok? ==> Settled(v.history) && v.stage == 0
    ensures Blocked(v.quiet, v.protected, old(v.live), rec.primary) ==> r.Err?
    ensures v.quiet ==> (r.Ok? <==>
              && JournalName(rec.primary) !in old(v.live).parent
              && rec.holder in old(v.live).parent && old(v.live).parent[rec.holder] == Entry(Directory, rec.holderId)
              && Inside(old(v.live), rec.holder).Keys == MemberNames(rec.members)
              && (forall k | 0 <= k < |rec.members| :: PreparedAt(old(v.live), rec.holder, rec.members[k]))
              && (forall k | 0 <= k < |rec.members| :: rec.members[k].name !in old(v.live).parent))
    ensures v.quiet && r.Ok? ==> v.live == old(v.live)
    ensures v.quiet && JournalName(rec.primary) !in old(v.live).parent && r.Err? ==>
              r.error == if BindingsHold(old(v.live), rec) then OutputExists else BindingChanged
    ensures r.Ok? ==> ReadySeen(v.history, |old(v.history)|, rec)
  {
    hide Stage, Trace, PreparedAt, Resumable, Settled, Resolves, Seen, Accepted, ResumedAndCleared, BindingsSeen,
         CompletedParent, SameContents, MemberNames, Inside, ReadySeen, MemberIds;
    var recovery := RecoverLocked(v, rec.primary);
    if recovery.Failed? { return Err(recovery.error); }
    ghost var settled, recovered := v.live, v.history;
    var ok := VerifyBindings(v, rec);
    if !ok { return Err(BindingChanged); }
    ghost var verified, bound := v.live, v.history;
    assert ProtectedFileAt(settled, v.protected, rec.primary) ==> ProtectedFileAt(verified, v.protected, rec.primary);
    ok := EnsureOutputsMissing(v, rec);
    if !ok { return Err(OutputExists); }
    ghost var last := |rec.members| - 1;
    assert rec.members[last].name == rec.primary;
    ReadyIsSeen(bound, v.history, |old(v.history)|, |recovered|, rec);
    return Ok(());
  }

  /** A pending journal that no other program is going to touch. */
  predicate Blocked(quiet: bool, protected: set<Id>, d: Disk, primary: Name) {
    Pending(d, primary).Some? && (quiet || Pending(d, primary).value <= protected)
  }

  /** Journals the transaction, installs every member and cleans up. */
  method PublishSet(v: Volume, rec: Record, ghost chain: bool) returns (ok: bool)
    requires v.Valid()
    requires chain ==> v.Tracked() && Settled(v.history) && rec == v.t && v.nextId == v.journalId && v.stage == 0
    requires v.quiet && DistinctNames(rec.members) ==>
               && rec.holder in v.live.parent && v.live.parent[rec.holder] == Entry(Directory, rec.holderId)
               && Inside(v.live, rec.holder).Keys == MemberNames(rec.members)
               && (forall k | 0 <= k < |rec.members| :: PreparedAt(v.live, rec.holder, rec.members[k]))
               && (forall k | 0 <= k < |rec.members| :: rec.members[k].name !in v.live.parent)
    modifies v
    ensures v.Valid() && old(v.history) <= v.history
    ensures chain ==> v.Tracked()
    ensures chain && ok ==> v.stage == v.durableStage == LastStage(rec)
    ensures v.quiet && DistinctNames(rec.members) ==>
              (ok <==> && v.encodable(rec)
                       && JournalName(rec.primary) !in old(v.live).parent && v.nextId !in old(v.live).inodes
                       && (forall k | 0 <= k < |rec.members| :: rec.members[k].name != JournalName(rec.primary))
                       && (v.renameBump == 0 || DistinctIds(rec.members)))
    ensures v.quiet && DistinctNames(rec.members) && ok ==>
              && v.live.parent == CompletedParent(old(v.live), rec)
              && v.live.dirs - {rec.holder} == old(v.live).dirs - {rec.holder}
              && v.durable == v.live
    ensures ok ==> PublishedBy(v.history, |old(v.history)|, rec, v.nextId, v.renameBump)
  {
    hide Stage, Trace, Progress, DistinctNames, DistinctIds, PreparedAt, Settled, Committed, Seen, HolderRemoved,
         PublishedBy, MemberNames, MemberIds, Inside;
    ghost var since := |v.history|;
    ghost var calm := v.quiet && DistinctNames(rec.members);
    var journalState: FileState := *;
    var inode := Inode(journalState, Journal(rec));
    if !v.encodable(rec) { return false; }
    if calm && JournalName(rec.primary) !in v.live.parent && v.nextId !in v.live.inodes {
      PublishedState(v.live, rec, v.nextId, inode);
    }
    var published := v.PublishFile(JournalName(rec.primary), inode);
    if !published.Done? { return false; }
    ok := v.SyncParent();
    if !ok { return; }
    var j := OpenJournal(JournalName(rec.primary), v.nextId, inode);
    ghost var d0, journaled := v.live, v.history;
    ok := CommitAll(v, rec, j, d0, chain);
    if !ok { return; }
    ghost var installed, committed := v.live, v.history;
    if calm { CommittedHolder(d0, v.live, rec); }
    ok := RemoveHolder(v, rec, true, d0, chain, calm);
    if !ok { return; }
    if calm { ResumedState(d0, installed, v.live, rec, j); }
    ghost var removed := v.history;
    ok := ClearJournal(v, j, chain);
    if ok { IsPublished(journaled, committed, removed, v.history, since, j, rec, v.renameBump); }
    if calm && ok { PublishedParent(old(v.live), rec, v.nextId, inode); }
  }

  /** A journal of exactly this record was in place for the whole of the commit; then the staging directory
      was removed, and the journal was seen in place for the last time. */
  ghost predicate PublishedBy(ws: seq<World>, since: nat, rec: Record, id: Id, bump: nat) {
    exists j: OpenJournal, a: nat, b: nat | since <= a <= b <= |ws| ::
      && j.name == JournalName(rec.primary) && j.id == id && j.inode.content == Journal(rec)
      && Committed(ws[..a], since, j, rec, bump) && HolderRemoved(ws[..b], a, rec) && Seen(ws, b, JournalBound(j))
  }

  lemma IsPublished(journaled: seq<World>, committed: seq<World>, removed: seq<World>, ws: seq<World>, since: nat,
                    j: OpenJournal, rec: Record, bump: nat)
    requires since <= |journaled| && journaled <= committed <= removed && removed <= ws
    requires j.name == JournalName(rec.primary) && j.inode.content == Journal(rec)
    requires Committed(committed, |journaled|, j, rec, bump) && HolderRemoved(removed, |committed|, rec)
    requires Seen(ws, |removed|, JournalBound(j))
    ensures PublishedBy(ws, since, rec, j.id, bump)
  {
    hide Committed, HolderRemoved, Seen;
    CommittedLater(committed, committed, since, |journaled|, j, rec, bump);
    assert ws[..|committed|] == committed && ws[..|removed|] == removed;
  }

  lemma PublishedParent(d: Disk, rec: Record, id: Id, inode: Inode)
    requires JournalName(rec.primary) !in d.parent
    ensures var d' := Publish(d, JournalName(rec.primary), id, inode);
            ((d'.parent + Finals(rec.members, |rec.members|)) - {rec.holder}) - {JournalName(rec.primary)}
            == CompletedParent(d, rec)
  {
  }

  /** `commit_no_replace`. A followed transaction that starts staged takes only legal
      steps whatever happens and is durable when success is reported; a pending journal of
      the same primary always makes it fail; undisturbed, it succeeds exactly when committable,
      but links to one file among the members fail if a rename moves the change time. It reports
      every output, the primary first and the others in name order. */
  method CommitNoReplace(v: Volume, rec: Record) returns (r: Result<seq<Name>>)
    requires |rec.members| > 0 && rec.members[|rec.members| - 1].name == rec.primary
    modifies v
    ensures v.Valid()
    ensures old(ReadyToFollow(v, rec)) ==>
              && v.Tracked() && v.history[0] == old(v.Now())
              && (r.Ok? ==> v.stage == v.durableStage == LastStage(rec))
    ensures r.Ok? ==>
              && multiset(r.value) == multiset(NamesOf(rec.members)) && |r.value| > 0 && r.value[0] == rec.primary
              && forall i, j | 0 < i < j < |r.value| :: NameAtMost(r.value[i], r.value[j])
    ensures Blocked(v.quiet, v.protected, old(v.live), rec.primary) ==> r.Err?
    ensures v.quiet && DistinctNames(rec.members) ==>
              (r.Ok? <==> && v.encodable(rec) && Committable(old(v.live), rec, v.nextId)
                          && (v.renameBump == 0 || DistinctIds(rec.members)))
    ensures v.quiet && DistinctNames(rec.members) && r.Ok? ==>
              && v.live.parent == CompletedParent(old(v.live), rec)
              && v.live.dirs - {rec.holder} == old(v.live).dirs - {rec.holder}
              && v.durable == v.live
    ensures v.quiet && DistinctNames(rec.members) && r.Ok? ==>
              forall m | m in rec.members :: m.name in v.live.parent && v.live.parent[m.name] == Entry(File, m.id)
    ensures v.quiet && JournalName(rec.primary) !in old(v.live).parent && r.Err? ==>
              r.error == if !BindingsHold(old(v.live), rec) then BindingChanged
                         else if exists m | m in rec.members :: m.name in old(v.live).parent then OutputExists
                         else NeedsRecovery
    ensures r.Ok? ==>
              exists checked: nat | checked <= |v.history| ::
                && ReadySeen(v.history[..checked], 1, rec)
                && PublishedBy(v.history, checked, rec, v.nextId, v.renameBump)
  {
    hide Stage, Trace, DistinctNames, DistinctIds, PreparedAt, Settled, ReadySeen, PublishedBy, MemberNames, Inside,
         MemberIds, CompletedParent;
    ghost var chain := ReadyToFollow(v, rec);
    ghost var d := v.live;
    v.history := [v.Now()];
    if chain { StartTrace(v); }
    CommittableByIndex(d, rec, v.nextId);
    var ready := PrepareToCommit(v, rec, chain);
    if ready.Err? { return Err(ready.error); }
    ghost var checked := v.history;
    var ok := PublishSet(v, rec, chain);
    if !ok { return Err(NeedsRecovery); }
    assert v.history[..|checked|] == checked;
    if v.quiet && DistinctNames(rec.members) { OutputsAreThere(d, rec, v.nextId); }
    assert NamesOf(rec.members)[|rec.members| - 1] == rec.primary;
    var outputs := ReportedOutputs(rec.members, rec.primary);
    return Ok(outputs);
  }

  lemma OutputsAreThere(d: Disk, rec: Record, nextId: Id)
    requires DistinctNames(rec.members) && Committable(d, rec, nextId)
    ensures forall m | m in rec.members ::
              m.name in CompletedParent(d, rec) && CompletedParent(d, rec)[m.name] == Entry(File, m.id)
  {
    FinalsAt(rec.members, |rec.members|);
  }

  lemma CommittableByIndex(d: Disk, rec: Record, nextId: Id)
    ensures (forall m | m in rec.members :: PreparedAt(d, rec.holder, m))
            <==> forall k | 0 <= k < |rec.members| :: PreparedAt(d, rec.holder, rec.members[k])
    ensures (forall m | m in rec.members :: m.name !in d.parent && m.name != JournalName(rec.primary))
            <==> forall k | 0 <= k < |rec.members| ::
                   rec.members[k].name !in d.parent && rec.members[k].name != JournalName(rec.primary)
  {
    assert forall k | 0 <= k < |rec.members| :: rec.members[k] in rec.members;
    assert forall m | m in rec.members :: exists k :: 0 <= k < |rec.members| && rec.members[k] == m;
  }
}
