/** Names, identities and directory state behind a journaled file-set publication,
    and the publication seen as a chain of single directory operations.

    A transaction with `n` members passes through the stages
      0            everything staged, no journal
      1            journal visible
      1 + k        the first k members installed, k <= n
      n + 2        staging directory removed
      n + 3        journal removed
    and a crash moves back to some stage that is not older than the durable one. */
module FileSetModel {
  type Name = string
  type Id = nat

  /** What the file system reports about one regular file. */
  datatype FileState = FileState(bytes: nat, modified: int, changed: int) {
    predicate EquivalentAfterRename(other: FileState) {
      bytes == other.bytes && modified == other.modified
    }
  }

  /** `digest` stands for the hash of the contents; the hash is taken to be injective. */
  datatype Member = Member(name: Name, id: Id, state: FileState, digest: seq<nat>)
  datatype Record = Record(version: nat, primary: Name, holder: Name, holderId: Id, members: seq<Member>)
  datatype Content = Data(bytes: seq<nat>) | Journal(record: Record)
  datatype Inode = Inode(state: FileState, content: Content)
  datatype Kind = File | Directory | Other
  datatype Entry = Entry(kind: Kind, id: Id)

  /** The destination directory, the listings of its subdirectories, and the inode table. */
  datatype Disk = Disk(parent: map<Name, Entry>, dirs: map<Name, map<Name, Entry>>, inodes: map<Id, Inode>)

  const JOURNAL_VERSION: nat := 1
  const MAX_OUTPUT_SET_MEMBERS: nat := 64

  function JournalName(primary: Name): Name { "." + primary + ".squallz-output-set.json" }

  /** The listing seen below the entry named `holder`. */
  function Inside(d: Disk, holder: Name): map<Name, Entry> {
    if holder in d.parent && !d.parent[holder].kind.File? && holder in d.dirs then d.dirs[holder] else map[]
  }

  // ----- directory operations -----

  function Publish(d: Disk, name: Name, id: Id, inode: Inode): Disk
    requires name !in d.parent
  {
    d.(parent := d.parent[name := Entry(File, id)], inodes := d.inodes[id := inode])
  }

  /** No-replace rename out of `holder`. The rename may give the file a later change time. */
  function Install(d: Disk, holder: Name, name: Name, bump: nat): Disk
    requires name in Inside(d, holder) && name !in d.parent
  {
    var e := Inside(d, holder)[name];
    Disk(d.parent[name := e],
         d.dirs[holder := Inside(d, holder) - {name}],
         if e.id in d.inodes then
           var old' := d.inodes[e.id];
           d.inodes[e.id := old'.(state := old'.state.(changed := old'.state.changed + bump))]
         else d.inodes)
  }

  function RemoveDir(d: Disk, holder: Name): Disk
    requires Inside(d, holder) == map[]
  {
    d.(parent := d.parent - {holder}, dirs := d.dirs - {holder})
  }

  function Unlink(d: Disk, name: Name): Disk {
    d.(parent := d.parent - {name})
  }

  // ----- ownership -----

  function Part(m: map<Name, Entry>, ids: set<Id>): map<Name, Entry> {
    map n | n in m && m[n].id in ids :: m[n]
  }

  predicate IsJournal(d: Disk, name: Name) {
    name in d.parent && d.parent[name].kind.File? && d.parent[name].id in d.inodes
    && d.inodes[d.parent[name].id].content.Journal?
  }

  predicate JournalAt(d: Disk, primary: Name) {
    IsJournal(d, JournalName(primary))
  }

  function JournalIn(d: Disk, primary: Name): Record
    requires JournalAt(d, primary)
  {
    d.inodes[d.parent[JournalName(primary)].id].content.record
  }

  /** Other programs may create, rename, rewrite and delete whatever they like, except
      that they leave the protected identities alone and put no journal under the reserved
      name, the one a publication holds the lock for. */
  predicate EnvOk(reserved: Name, protected: set<Id>, d: Disk, d': Disk) {
    && Part(d.parent, protected) == Part(d'.parent, protected)
    && (forall h | h in d.dirs.Keys + d'.dirs.Keys :: Part(Inside(d, h), protected) == Part(Inside(d', h), protected))
    && (forall id | id in protected :: id in d.inodes <==> id in d'.inodes)
    && (forall id | id in protected && id in d.inodes :: d.inodes[id] == d'.inodes[id])
    && (IsJournal(d', reserved) ==>
          && IsJournal(d, reserved) && d'.parent[reserved] == d.parent[reserved]
          && d'.inodes[d'.parent[reserved].id] == d.inodes[d.parent[reserved].id])
  }

  function MemberIds(ms: seq<Member>): set<Id> { set m | m in ms :: m.id }

  function MemberNames(ms: seq<Member>): set<Name> { set m | m in ms :: m.name }

  function Mine(t: Record, journalId: Id): set<Id> {
    MemberIds(t.members) + {t.holderId, journalId}
  }

  /** The names a transaction uses in the destination directory. */
  function OwnNames(t: Record): set<Name> { MemberNames(t.members) + {t.holder, JournalName(t.primary)} }

  function Named(m: map<Name, Entry>, names: set<Name>): map<Name, Entry> {
    map n | n in m && n in names :: m[n]
  }

  predicate DistinctNames(ms: seq<Member>) {
    forall i, j | 0 <= i < j < |ms| :: ms[i].name != ms[j].name
  }

  predicate DistinctIds(ms: seq<Member>) {
    forall i, j | 0 <= i < j < |ms| :: ms[i].id != ms[j].id
  }

  predicate DistinctMembers(ms: seq<Member>) {
    forall i, j | 0 <= i < j < |ms| :: ms[i].name != ms[j].name && ms[i].id != ms[j].id
  }

  /** A transaction whose names and identities do not get in each other's way. */
  predicate WellFormed(t: Record, journalId: Id) {
    && t.version == JOURNAL_VERSION
    && 0 < |t.members| <= MAX_OUTPUT_SET_MEMBERS
    && DistinctMembers(t.members)
    && t.members[|t.members| - 1].name == t.primary
    && t.holder !in MemberNames(t.members)
    && JournalName(t.primary) !in MemberNames(t.members)
    && t.holder != JournalName(t.primary)
    && t.holderId !in MemberIds(t.members)
    && journalId !in MemberIds(t.members)
    && journalId != t.holderId
  }

  // ----- stages -----

  function Finals(ms: seq<Member>, k: nat): map<Name, Entry>
    requires k <= |ms|
  {
    if k == 0 then map[] else Finals(ms, k - 1)[ms[k - 1].name := Entry(File, ms[k - 1].id)]
  }

  function Staged(ms: seq<Member>, k: nat): map<Name, Entry>
    requires k <= |ms|
    decreases |ms| - k
  {
    if k == |ms| then map[] else Staged(ms, k + 1)[ms[k].name := Entry(File, ms[k].id)]
  }

  function LastStage(t: Record): nat { |t.members| + 3 }

  function InstalledAt(t: Record, stage: nat): (k: nat)
    ensures k <= |t.members|
  {
    if stage == 0 then 0 else if stage - 1 <= |t.members| then stage - 1 else |t.members|
  }

  function OwnParent(t: Record, journalId: Id, stage: nat): map<Name, Entry> {
    Finals(t.members, InstalledAt(t, stage))
    + (if stage <= |t.members| + 1 then map[t.holder := Entry(Directory, t.holderId)] else map[])
    + (if 1 <= stage <= |t.members| + 2 then map[JournalName(t.primary) := Entry(File, journalId)] else map[])
  }

  predicate InstalledState(d: Disk, m: Member) {
    m.id in d.inodes && d.inodes[m.id].content == Data(m.digest)
    && m.state.EquivalentAfterRename(d.inodes[m.id].state)
  }

  predicate StagedState(d: Disk, m: Member) {
    m.id in d.inodes && d.inodes[m.id].content == Data(m.digest) && d.inodes[m.id].state == m.state
  }

  /** Everything the transaction owns is exactly where stage `stage` puts it. Further links to its
      files under other names are no part of it. */
  ghost predicate Stage(t: Record, journalId: Id, d: Disk, stage: nat) {
    && stage <= LastStage(t)
    && Part(Named(d.parent, OwnNames(t)), Mine(t, journalId)) == OwnParent(t, journalId, stage)
    && Part(Inside(d, t.holder), Mine(t, journalId)) == Staged(t.members, InstalledAt(t, stage))
    && (forall i | 0 <= i < |t.members| ::
          if i < InstalledAt(t, stage) then InstalledState(d, t.members[i]) else StagedState(d, t.members[i]))
    && (if 1 <= stage <= |t.members| + 2
        then journalId in d.inodes && d.inodes[journalId].content == Journal(t)
        else !JournalAt(d, t.primary))
  }

  // ----- runs -----

  /** `live` is what lookups see; `durable` is what the last parent sync made permanent. */
  datatype World = World(live: Disk, durable: Disk, stage: nat, durableStage: nat)

  ghost predicate InChain(t: Record, journalId: Id, w: World) {
    && w.durableStage <= w.stage
    && Stage(t, journalId, w.live, w.stage)
    && Stage(t, journalId, w.durable, w.durableStage)
  }

  ghost predicate EnvStep(reserved: Name, protected: set<Id>, w: World, w': World) {
    && w'.stage == w.stage && w'.durableStage == w.durableStage
    && EnvOk(reserved, protected, w.live, w'.live) && EnvOk(reserved, protected, w.durable, w'.durable)
  }

  ghost predicate SyncStep(w: World, w': World) {
    w' == World(w.live, w.live, w.stage, w.stage)
  }

  /** The one directory operation that leads from `stage` to `stage + 1`, and only
      when the file system allows it: no target is replaced, no filled directory removed. */
  ghost predicate Act(t: Record, journalId: Id, stage: nat, d: Disk, d': Disk) {
    var n := |t.members|;
    if stage == 0 then
      && JournalName(t.primary) !in d.parent
      && exists inode: Inode ::
        inode.content == Journal(t) && d' == Publish(d, JournalName(t.primary), journalId, inode)
    else if stage <= n then
      var m := t.members[stage - 1];
      && m.name in Inside(d, t.holder) && m.name !in d.parent
      && exists bump: nat :: d' == Install(d, t.holder, m.name, bump)
    else if stage == n + 1 then
      Inside(d, t.holder) == map[] && d' == RemoveDir(d, t.holder)
    else
      stage == n + 2 && d' == Unlink(d, JournalName(t.primary))
  }

  ghost predicate ActStep(t: Record, journalId: Id, w: World, w': World) {
    && w.stage < LastStage(t)
    && Act(t, journalId, w.stage, w.live, w'.live)
    && w' == World(w'.live, w.durable, w.stage + 1, w.durableStage)
  }

  /** After a crash the directory shows some stage between the durable one and the live
      one, with every operation kept or dropped as a whole; foreign entries are arbitrary. */
  ghost predicate CrashStep(t: Record, journalId: Id, w: World, w': World) {
    && w.durableStage <= w'.stage <= w.stage
    && w'.durable == w'.live && w'.durableStage == w'.stage
    && Stage(t, journalId, w'.live, w'.stage)
  }

  ghost predicate ProgramStep(t: Record, journalId: Id, protected: set<Id>, w: World, w': World) {
    EnvStep(JournalName(t.primary), protected, w, w') || SyncStep(w, w') || ActStep(t, journalId, w, w')
  }

  ghost predicate Step(t: Record, journalId: Id, protected: set<Id>, w: World, w': World) {
    ProgramStep(t, journalId, protected, w, w') || CrashStep(t, journalId, w, w')
  }

  ghost predicate Run(t: Record, journalId: Id, protected: set<Id>, ws: seq<World>) {
    forall i, j {:trigger Step(t, journalId, protected, ws[i], ws[j])} | 0 <= i < j < |ws| && j == i + 1 ::
      Step(t, journalId, protected, ws[i], ws[j])
  }

  // ----- lemmas about the stage maps -----

  lemma {:induction false} FinalsAt(ms: seq<Member>, k: nat)
    requires k <= |ms| && DistinctNames(ms)
    ensures forall n :: n in Finals(ms, k) <==> exists i :: 0 <= i < k && ms[i].name == n
    ensures forall i | 0 <= i < k :: ms[i].name in Finals(ms, k) && Finals(ms, k)[ms[i].name] == Entry(File, ms[i].id)
  {
    if k > 0 { FinalsAt(ms, k - 1); }
  }

  lemma {:induction false} StagedAt(ms: seq<Member>, k: nat)
    requires k <= |ms| && DistinctMembers(ms)
    ensures forall n :: n in Staged(ms, k) <==> exists i :: k <= i < |ms| && ms[i].name == n
    ensures forall i | k <= i < |ms| ::
            ms[i].name in Staged(ms, k) && Staged(ms, k)[ms[i].name] == Entry(File, ms[i].id)
    decreases |ms| - k
  {
    if k < |ms| { StagedAt(ms, k + 1); }
  }
}
