/** Plaintext workspaces shared by processes that create, close, crash and reclaim. */
module Workspaces {
  import opened Options
  import opened AsciiText
  import opened OwnerRecord

  const MAX_REGISTRY_ENTRIES: nat := 1_024
  const MAX_WORKSPACE_ENTRIES: nat := 256

  type Pid = nat

  /** A workspace directory: its marker as far as it was written, and its other members. */
  datatype Dir = Dir(marker: Option<string>, files: set<string>)

  /** `plaintext_name_allowed` */
  predicate PlaintextName(name: string) { PlaintextRest(name, "entry-") || PlaintextRest(name, "nested-") }

  predicate PlaintextRest(name: string, prefix: string) {
    && |prefix| < |name| <= |prefix| + 128 && name[..|prefix|] == prefix
    && forall i | |prefix| <= i < |name| :: AlphaNumeric(name[i]) || name[i] in "._-"
  }

  predicate Allows(r: Record, name: string) {
    if r.fileName.Some? then name == r.fileName.value else PlaintextName(name)
  }

  /** The steps of `cleanup_owned_workspace` and of what its callers do afterwards. */
  datatype Stage = Check | List | Files(todo: set<string>) | Marker | Directory | Release | OwnerFile

  datatype Purpose = ForScan(fileName: Option<string>, left: set<string>) | ForClose

  datatype Made = OwnerOpened | OwnerLocked | RecordWritten | DirectoryMade | MarkerOpened

  datatype Phase =
    | Idle
    | Scan(fileName: Option<string>, left: set<string>)
    | Cleaning(w: string, record: Record, stage: Stage, purpose: Purpose)
    | Making(w: string, record: Record, made: Made)

  /** `owned` are the live workspaces of a process; from `closing` ones it has let go of the files. */
  datatype Proc = Proc(phase: Phase, owned: map<string, Record>, closing: set<string>)

  /** The registry on disk, the locks, and the processes. Owner files hold text that may be torn. */
  datatype Sys = Sys(owners: map<string, string>, dirs: map<string, Dir>, locks: map<string, Pid>, sweep: Option<Pid>,
                     procs: map<Pid, Proc>)

  datatype Action =
    | Spawn
    | Crash
    | BeginCreate(fileName: Option<string>)
    | Take(w: string)
    | Skip(w: string)
    | Clean(file: string)
    | Reserve(record: Record)
    | Make(written: nat)
    | BeginClose(w: string)
    | WriteFile(w: string, file: string)
    | Abort

  // ----- one step -----

  function Read(s: Sys, w: string, portable: Portable): Option<Record> {
    if w in s.owners then ReadRecord(Some(s.owners[w]), w, portable) else None
  }

  /** The check before anything is removed. */
  predicate Removable(d: Dir, r: Record) {
    && |d.files| + (if d.marker.Some? then 1 else 0) <= MAX_WORKSPACE_ENTRIES
    && (forall f | f in d.files :: Allows(r, f))
    && (d.files != {} || d.marker.Some? ==> d.marker == Some(Print(r)))
  }

  predicate Stoppable(s: Sys, w: string, r: Record, stage: Stage, file: string) {
    match stage
    case Check => w in s.dirs && !Removable(s.dirs[w], r)
    case Files(todo) => file in todo && !Allows(r, file)
    case Directory => w in s.dirs && s.dirs[w] != Dir(None, {})
    case _ => false
  }

  function NextStage(s: Sys, w: string, stage: Stage, file: string): Stage {
    match stage
    case Check => if w in s.dirs then List else Release
    case List => Files(if w in s.dirs then s.dirs[w].files else {})
    case Files(todo) => if todo == {} then Marker else Files(todo - {file})
    case Marker => Directory
    case Directory => Release
    case Release => OwnerFile
    case OwnerFile => OwnerFile
  }

  function CleanDirs(s: Sys, w: string, stage: Stage, file: string): map<string, Dir> {
    if w !in s.dirs then s.dirs
    else
      match stage
      case Files(todo) => if todo == {} then s.dirs else s.dirs[w := Dir(s.dirs[w].marker, s.dirs[w].files - {file})]
      case Marker => s.dirs[w := Dir(None, s.dirs[w].files)]
      case Directory => s.dirs - {w}
      case _ => s.dirs
  }

  /** Giving up, or finishing: what a cleaning process does next. */
  function After(s: Sys, p: Pid, purpose: Purpose): Sys
    requires p in s.procs
  {
    match purpose
    case ForScan(fileName, left) => s.(procs := s.procs[p := s.procs[p].(phase := Scan(fileName, left))])
    case ForClose => s.(sweep := None, procs := s.procs[p := s.procs[p].(phase := Idle)])
  }

  /** `CleanStep`: one step of `p` removing `w`. When it stops early it drops a lock that it took
      only for this; a closing owner keeps its own. */
  function CleanStep(s: Sys, p: Pid, file: string): Sys
    requires p in s.procs && s.procs[p].phase.Cleaning?
  {
    var c := s.procs[p].phase;
    if Stoppable(s, c.w, c.record, c.stage, file) then
      After(if c.purpose.ForClose? then s else s.(locks := s.locks - {c.w}), p, c.purpose)
    else if c.stage.OwnerFile? then
      After(s.(owners := s.owners - {c.w}), p, c.purpose)
    else
      var next := c.(stage := NextStage(s, c.w, c.stage, file));
      var proc :=
        if c.stage.Release? then Proc(next, s.procs[p].owned - {c.w}, s.procs[p].closing - {c.w})
        else s.procs[p].(phase := next);
      s.(dirs := CleanDirs(s, c.w, c.stage, file),
         locks := if c.stage.Release? then s.locks - {c.w} else s.locks,
         procs := s.procs[p := proc])
  }

  function Advanced(s: Sys, p: Pid, made: Made): map<Pid, Proc>
    requires p in s.procs && s.procs[p].phase.Making?
  {
    s.procs[p := s.procs[p].(phase := s.procs[p].phase.(made := made))]
  }

  /** One step of `create` after the scan; a write may end after any number of characters. */
  function MakeStep(s: Sys, p: Pid, written: nat): (t: Sys)
    requires p in s.procs && s.procs[p].phase.Making?
    ensures t.procs.Keys == s.procs.Keys
  {
    var m := s.procs[p].phase;
    var text := Print(m.record);
    var done := written >= |text|;
    var soFar := if done then text else text[..written];
    match m.made
    case OwnerOpened => s.(locks := s.locks[m.w := p], procs := Advanced(s, p, OwnerLocked))
    case OwnerLocked => s.(owners := s.owners[m.w := soFar],
                           procs := if done then Advanced(s, p, RecordWritten) else s.procs)
    case RecordWritten => s.(dirs := s.dirs[m.w := Dir(None, {})], procs := Advanced(s, p, DirectoryMade))
    case DirectoryMade => s.(dirs := s.dirs[m.w := Dir(Some(""), if m.w in s.dirs then s.dirs[m.w].files else {})],
                             procs := Advanced(s, p, MarkerOpened))
    case MarkerOpened =>
      var marked := s.(dirs := s.dirs[m.w := Dir(Some(soFar), if m.w in s.dirs then s.dirs[m.w].files else {})]);
      if !done then marked
      else marked.(sweep := None,
                   procs := s.procs[p := Proc(Idle, s.procs[p].owned[m.w := m.record], s.procs[p].closing - {m.w})])
  }

  /** An error return gives up the sweep lock and a lock taken for cleaning or making. */
  function Locked(phase: Phase): set<string> {
    match phase
    case Cleaning(w, _, stage, ForScan(_, _)) => {w}
    case Making(w, _, made) => if made.OwnerOpened? then {} else {w}
    case _ => {}
  }

  /** What a process may do next. */
  predicate Enabled(s: Sys, p: Pid, a: Action, portable: Portable) {
    if a.Spawn? then p !in s.procs
    else
      p in s.procs &&
      var proc := s.procs[p];
      match a
      case Spawn => false
      case Crash => true
      case BeginCreate(fileName) => proc.phase.Idle? && s.sweep.None?
        && (fileName.Some? ==> SafeName(fileName.value, portable))
      case Take(w) => proc.phase.Scan? && w in proc.phase.left && w !in s.locks && Read(s, w, portable).Some?
      case Skip(w) => proc.phase.Scan? && w in proc.phase.left && (w in s.locks || Read(s, w, portable).None?)
      case Clean(file) => proc.phase.Cleaning?
        && (proc.phase.stage.Files? && proc.phase.stage.todo != {} ==> file in proc.phase.stage.todo)
      case Reserve(r) => proc.phase.Scan? && proc.phase.left == {} && r.workspace !in s.owners
        && r.fileName == proc.phase.fileName
                         && Valid(r, portable) && ByteLength(Print(r)) <= MAX_OWNER_RECORD_BYTES
      case Make(_) => proc.phase.Making? && (proc.phase.made.RecordWritten? ==> proc.phase.w !in s.dirs)
      case BeginClose(w) => proc.phase.Idle? && s.sweep.None? && w in proc.owned
      case WriteFile(w, file) => w in proc.owned && w in s.dirs && Allows(proc.owned[w], file)
                                 && w !in proc.closing
      case Abort => !proc.phase.Idle?
  }

  /** A process dies: its locks are released, and all else stays as it is. */
  function Crashed(s: Sys, p: Pid): Sys {
    s.(locks := map w | w in s.locks && s.locks[w] != p :: s.locks[w],
       sweep := if s.sweep == Some(p) then None else s.sweep,
       procs := s.procs - {p})
  }

  function Next(s: Sys, p: Pid, a: Action, portable: Portable): Sys
    requires Enabled(s, p, a, portable)
  {
    match a
    case Spawn => s.(procs := s.procs[p := Proc(Idle, map[], {})])
    case Crash => Crashed(s, p)
    case BeginCreate(fileName) => s.(sweep := Some(p),
                                     procs := s.procs[p := s.procs[p].(phase := Scan(fileName, s.owners.Keys))])
    case Take(w) =>
      var scan := s.procs[p].phase;
      var clean := Cleaning(w, Read(s, w, portable).value, Check, ForScan(scan.fileName, scan.left - {w}));
      s.(locks := s.locks[w := p], procs := s.procs[p := s.procs[p].(phase := clean)])
    case Skip(w) =>
      var proc := s.procs[p];
      s.(procs := s.procs[p := proc.(phase := proc.phase.(left := proc.phase.left - {w}))])
    case Clean(file) => CleanStep(s, p, file)
    case Reserve(r) => s.(owners := s.owners[r.workspace := ""],
                          procs := s.procs[p := s.procs[p].(phase := Making(r.workspace, r, OwnerOpened))])
    case Make(written) => MakeStep(s, p, written)
    case BeginClose(w) => s.(sweep := Some(p),
                           procs := s.procs[p := Proc(Cleaning(w, s.procs[p].owned[w], Check, ForClose),
                                                      s.procs[p].owned, s.procs[p].closing + {w})])
    case WriteFile(w, file) => s.(dirs := s.dirs[w := Dir(s.dirs[w].marker, s.dirs[w].files + {file})])
    case Abort => s.(sweep := None, locks := s.locks - Locked(s.procs[p].phase),
                     procs := s.procs[p := s.procs[p].(phase := Idle)])
  }

  /** Somebody else puts a member that is not plaintext of this workspace into its directory. */
  predicate CanIntrude(s: Sys, w: string, file: string, portable: Portable) {
    w in s.dirs && (Read(s, w, portable).Some? ==> !Allows(Read(s, w, portable).value, file))
  }

  function Intrude(s: Sys, w: string, file: string): Sys
    requires w in s.dirs
  {
    s.(dirs := s.dirs[w := Dir(s.dirs[w].marker, s.dirs[w].files + {file})])
  }

  // ----- the invariant -----

  predicate SweepOk(s: Sys) {
    && (s.sweep.Some? ==> s.sweep.value in s.procs)
    && forall p | p in s.procs :: !s.procs[p].phase.Idle? <==> s.sweep == Some(p)
  }

  predicate Holds(proc: Proc, w: string) {
    || w in proc.owned
    || (proc.phase.Cleaning? && proc.phase.w == w && proc.phase.purpose.ForScan? && !proc.phase.stage.OwnerFile?)
    || (proc.phase.Making? && proc.phase.w == w && !proc.phase.made.OwnerOpened?)
  }

  predicate LocksOk(s: Sys) { forall w | w in s.locks :: s.locks[w] in s.procs && Holds(s.procs[s.locks[w]], w) }

  predicate Good(r: Record, w: string, portable: Portable) {
    r.workspace == w && Valid(r, portable) && ByteLength(Print(r)) <= MAX_OWNER_RECORD_BYTES
  }

  /** A live workspace is locked by its process, its owner record is complete, until it is
      closed its directory is there with a complete marker, and its marker is never torn. */
  predicate OwnedOk(s: Sys, portable: Portable) {
    forall p, w | p in s.procs && w in s.procs[p].owned :: OwnsWell(s, p, w, s.procs[p].owned[w], portable)
  }

  predicate OwnsWell(s: Sys, p: Pid, w: string, r: Record, portable: Portable) {
    && p in s.procs && w in s.locks && s.locks[w] == p && w in s.owners && s.owners[w] == Print(r)
      && Good(r, w, portable)
    && (w !in s.procs[p].closing ==> w in s.dirs && s.dirs[w].marker == Some(Print(r)))
    && (w in s.dirs ==> NotTorn(s.dirs[w], r))
  }

  /** A directory has a readable owner record, and any plaintext in it has a complete marker. */
  predicate DirsOk(s: Sys, portable: Portable) {
    forall w | w in s.dirs :: DirOk(s.dirs[w], Read(s, w, portable))
  }

  predicate DirOk(d: Dir, r: Option<Record>) {
    r.Some? && forall f | f in d.files && Allows(r.value, f) :: d.marker == Some(Print(r.value))
  }

  predicate NoPlaintext(d: Dir, r: Record) { forall f | f in d.files :: !Allows(r, f) }

  predicate NotTorn(d: Dir, r: Record) { d.marker.Some? ==> d.marker == Some(Print(r)) }

  predicate CleaningOk(s: Sys, p: Pid, w: string, r: Record, stage: Stage, purpose: Purpose, portable: Portable) {
    && p in s.procs && Read(s, w, portable) == Some(r)
    && (if stage.OwnerFile? then w !in s.locks else w in s.locks && s.locks[w] == p)
    && (if purpose.ForClose? && !stage.OwnerFile? then w in s.procs[p].owned && w in s.procs[p].closing
        else w !in s.procs[p].owned)
    && (stage.Release? || stage.OwnerFile? ==> w !in s.dirs)
    && (!stage.Check? && w in s.dirs ==> NotTorn(s.dirs[w], r))
    && (stage.Files? && w in s.dirs ==> forall f | f in s.dirs[w].files && Allows(r, f) :: f in stage.todo)
    && ((stage.Marker? || stage.Directory?) && w in s.dirs ==> NoPlaintext(s.dirs[w], r))
    && (stage.Directory? && w in s.dirs ==> s.dirs[w].marker.None?)
  }

  predicate MakingOk(s: Sys, p: Pid, w: string, r: Record, made: Made, portable: Portable) {
    && p in s.procs && Good(r, w, portable) && w in s.owners && w !in s.procs[p].owned
    && (if made.OwnerOpened? then w !in s.locks && s.owners[w] == "" else w in s.locks && s.locks[w] == p)
    && (made.OwnerOpened? || made.OwnerLocked? || made.RecordWritten? ==> w !in s.dirs)
    && (!made.OwnerOpened? && !made.OwnerLocked? ==> s.owners[w] == Print(r))
    && (made.DirectoryMade? || made.MarkerOpened? ==> w in s.dirs && NoPlaintext(s.dirs[w], r))
    && (made.DirectoryMade? ==> s.dirs[w].marker.None?)
    && (made.OwnerLocked? ==> s.owners[w] < Print(r))
    && (made.MarkerOpened? ==> s.dirs[w].marker.Some? && s.dirs[w].marker.value < Print(r))
  }

  predicate PhaseOk(s: Sys, p: Pid, portable: Portable) {
    p in s.procs &&
    match s.procs[p].phase
    case Idle => true
    case Scan(_, _) => true
    case Cleaning(w, r, stage, purpose) => CleaningOk(s, p, w, r, stage, purpose, portable)
    case Making(w, r, made) => MakingOk(s, p, w, r, made, portable)
  }

  predicate Inv(s: Sys, portable: Portable) {
    && SweepOk(s) && LocksOk(s) && OwnedOk(s, portable) && DirsOk(s, portable)
    && forall p | p in s.procs :: PhaseOk(s, p, portable)
  }

  /** Only the holder of the sweep lock can be in the middle of something. */
  lemma OthersIdle(s: Sys, p: Pid)
    requires SweepOk(s) && s.sweep == Some(p)
    ensures forall q | q in s.procs && q != p :: s.procs[q].phase.Idle?
  {
  }

  lemma ReadGood(s: Sys, w: string, r: Record, portable: Portable)
    requires w in s.owners && s.owners[w] == Print(r) && Good(r, w, portable)
    ensures Read(s, w, portable) == Some(r)
  {
    hide Parse, Print, Valid;
    ParseOfPrint(r, portable);
  }

  lemma ReadIsGood(s: Sys, w: string, portable: Portable)
    requires Read(s, w, portable).Some?
    ensures w in s.owners && s.owners[w] == Print(Read(s, w, portable).value)
            && Good(Read(s, w, portable).value, w, portable)
  {
    hide Parse, Print, Valid;
    PrintOfParse(Some(s.owners[w]), w, portable);
  }

  lemma FinishInv(t: Sys, p: Pid, portable: Portable)
    requires SweepOk(t) && LocksOk(t) && OwnedOk(t, portable) && DirsOk(t, portable)
    requires PhaseOk(t, p, portable) && (t.sweep.None? || t.sweep == Some(p))
    ensures Inv(t, portable)
  {
    hide Print, ReadRecord, Valid, ByteLength, Read, Good, LocksOk, OwnedOk, DirsOk, CleaningOk, MakingOk;
  }

  lemma SpawnKeeps(s: Sys, p: Pid, portable: Portable)
    requires Inv(s, portable) && Enabled(s, p, Spawn, portable)
    ensures Inv(Next(s, p, Spawn, portable), portable)
  {
    hide Print, ReadRecord, Valid, ByteLength, Read, Good, DirOk, NotTorn, NoPlaintext, Allows, LocksOk, OwnedOk;
    var t := Next(s, p, Spawn, portable);
    SpawnHolds(s, p, portable);
    ReadElsewhere(s, t, portable);
  }

  lemma SpawnHolds(s: Sys, p: Pid, portable: Portable)
    requires Inv(s, portable) && Enabled(s, p, Spawn, portable)
    ensures var t := Next(s, p, Spawn, portable); LocksOk(t) && OwnedOk(t, portable)
  {
    hide Print, ReadRecord, Valid, ByteLength, Read, Good, DirOk, NotTorn, NoPlaintext, Allows, DirsOk, PhaseOk,
         SweepOk;
  }

  lemma CrashKeeps(s: Sys, p: Pid, portable: Portable)
    requires Inv(s, portable) && Enabled(s, p, Crash, portable)
    ensures Inv(Next(s, p, Crash, portable), portable)
  {
    hide Print, ReadRecord, Valid, ByteLength, Read, Good, Allows, DirOk, NotTorn, NoPlaintext, SweepOk, LocksOk,
         OwnedOk, DirsOk, PhaseOk;
    CrashKeepsLocks(s, p, portable);
    CrashKeepsPhases(s, p, portable);
  }

  lemma CrashKeepsLocks(s: Sys, p: Pid, portable: Portable)
    requires Inv(s, portable) && Enabled(s, p, Crash, portable)
    ensures var t := Next(s, p, Crash, portable); SweepOk(t) && LocksOk(t) && OwnedOk(t, portable)
  {
    hide Print, ReadRecord, Valid, ByteLength, Read, Good, Allows, DirOk, NotTorn, NoPlaintext, DirsOk, PhaseOk;
    if s.sweep == Some(p) { OthersIdle(s, p); }
  }

  lemma CrashKeepsPhases(s: Sys, p: Pid, portable: Portable)
    requires Inv(s, portable) && Enabled(s, p, Crash, portable)
    ensures var t := Next(s, p, Crash, portable);
            DirsOk(t, portable) && forall q | q in t.procs :: PhaseOk(t, q, portable)
  {
    hide Print, ReadRecord, Valid, ByteLength, Read, Good, Allows, DirOk, NotTorn, NoPlaintext, LocksOk, OwnedOk;
    var t := Next(s, p, Crash, portable);
    ReadElsewhere(s, t, portable);
    if s.sweep == Some(p) { OthersIdle(s, p); }
  }

  lemma BeginCreateKeeps(s: Sys, p: Pid, fileName: Option<string>, portable: Portable)
    requires Inv(s, portable) && Enabled(s, p, BeginCreate(fileName), portable)
    ensures Inv(Next(s, p, BeginCreate(fileName), portable), portable)
  {
    hide Good, DirOk, NotTorn, NoPlaintext, ReadRecord;
  }

  lemma TakeKeeps(s: Sys, p: Pid, w: string, portable: Portable)
    requires Inv(s, portable) && Enabled(s, p, Take(w), portable)
    ensures Inv(Next(s, p, Take(w), portable), portable)
  {
    hide Print, ReadRecord, Valid, ByteLength, Read, Good, Allows, DirOk, NotTorn, NoPlaintext, LocksOk, OwnedOk;
    var t := Next(s, p, Take(w), portable);
    TakeHolds(s, p, w, portable);
    ReadElsewhere(s, t, portable);
    assert DirsOk(t, portable) by { hide SweepOk, PhaseOk; }
    assert w !in s.procs[p].owned by { NotOwned(s, p, w, portable); }
    hide DirsOk;
    FinishInv(t, p, portable);
  }

  lemma TakeHolds(s: Sys, p: Pid, w: string, portable: Portable)
    requires Inv(s, portable) && Enabled(s, p, Take(w), portable)
    ensures var t := Next(s, p, Take(w), portable); SweepOk(t) && LocksOk(t) && OwnedOk(t, portable)
  {
    hide Print, ReadRecord, Valid, ByteLength, Read, Good, Allows, DirOk, NotTorn, NoPlaintext, DirsOk, PhaseOk;
    var t := Next(s, p, Take(w), portable);
    NobodyElseOwns(s, p, w, portable);
    NotOwned(s, p, w, portable);
    assert SweepOk(t) by { hide LocksOk, OwnedOk; }
    assert LocksOk(t) by { hide SweepOk, OwnedOk; }
    hide SweepOk, LocksOk;
  }

  lemma NotOwned(s: Sys, p: Pid, w: string, portable: Portable)
    requires Inv(s, portable) && p in s.procs && w !in s.locks
    ensures w !in s.procs[p].owned
  {
    hide Print, ReadRecord, Valid, ByteLength, Read, Good, Allows, DirOk, NotTorn, NoPlaintext, SweepOk, DirsOk,
         PhaseOk, LocksOk;
    assert w in s.procs[p].owned ==> OwnsWell(s, p, w, s.procs[p].owned[w], portable);
  }

  lemma SkipKeeps(s: Sys, p: Pid, w: string, portable: Portable)
    requires Inv(s, portable) && Enabled(s, p, Skip(w), portable)
    ensures Inv(Next(s, p, Skip(w), portable), portable)
  {
    hide Print, ReadRecord, Valid, ByteLength, Read, Good, Allows, DirOk, NotTorn, NoPlaintext;
    var t := Next(s, p, Skip(w), portable);
    ReadElsewhere(s, t, portable);
    assert SweepOk(t) by { hide LocksOk, OwnedOk, DirsOk, PhaseOk; }
    assert LocksOk(t) by { hide SweepOk, OwnedOk, DirsOk; }
    assert OwnedOk(t, portable) by { hide SweepOk, LocksOk, DirsOk; }
    assert DirsOk(t, portable) by { hide SweepOk, LocksOk, OwnedOk, PhaseOk; }
    assert PhaseOk(t, p, portable) by { hide SweepOk, LocksOk, OwnedOk, DirsOk; }
    hide SweepOk, LocksOk, OwnedOk, DirsOk, PhaseOk;
    FinishInv(t, p, portable);
  }

  lemma BeginCloseKeeps(s: Sys, p: Pid, w: string, portable: Portable)
    requires Inv(s, portable) && Enabled(s, p, BeginClose(w), portable)
    ensures Inv(Next(s, p, BeginClose(w), portable), portable)
  {
    hide Print, ReadRecord, Valid, ByteLength, Read, Good, Allows, DirOk, NotTorn, NoPlaintext;
    var t := Next(s, p, BeginClose(w), portable);
    assert OwnsWell(s, p, w, s.procs[p].owned[w], portable);
    ReadGood(s, w, s.procs[p].owned[w], portable);
    ReadElsewhere(s, t, portable);
    assert SweepOk(t) by { hide LocksOk, OwnedOk, DirsOk, PhaseOk; }
    assert LocksOk(t) by { hide SweepOk, OwnedOk, DirsOk; }
    assert OwnedOk(t, portable) by { hide SweepOk, LocksOk, DirsOk; }
    assert DirsOk(t, portable) by { hide SweepOk, LocksOk, OwnedOk, PhaseOk; }
    assert PhaseOk(t, p, portable) by { hide SweepOk, LocksOk, OwnedOk, DirsOk; }
    hide SweepOk, LocksOk, OwnedOk, DirsOk, PhaseOk;
    FinishInv(t, p, portable);
  }

  lemma ReadElsewhere(s: Sys, t: Sys, portable: Portable)
    requires s.owners == t.owners
    ensures forall w :: Read(t, w, portable) == Read(s, w, portable)
  {
    hide ReadRecord;
  }

  lemma WriteFileKeeps(s: Sys, p: Pid, w: string, file: string, portable: Portable)
    requires Inv(s, portable) && Enabled(s, p, WriteFile(w, file), portable)
    ensures Inv(Next(s, p, WriteFile(w, file), portable), portable)
  {
    hide Print, ReadRecord, Valid, ByteLength, Read, Good, Allows;
    var t := Next(s, p, WriteFile(w, file), portable);
    ReadGood(s, w, s.procs[p].owned[w], portable);
    ReadElsewhere(s, t, portable);
  }

  lemma AbortKeeps(s: Sys, p: Pid, portable: Portable)
    requires Inv(s, portable) && Enabled(s, p, Abort, portable)
    ensures Inv(Next(s, p, Abort, portable), portable)
  {
    hide Print, ReadRecord, Valid, ByteLength, Read, Good, Allows, DirOk, NotTorn, NoPlaintext;
    var t := Next(s, p, Abort, portable);
    ReadElsewhere(s, t, portable);
    UnlockedAreFree(s, p, portable);
    assert PhaseOk(s, p, portable);
    assert SweepOk(t) by { hide LocksOk, OwnedOk, DirsOk, PhaseOk; }
    assert LocksOk(t) by { hide SweepOk, OwnedOk, DirsOk; }
    assert OwnedOk(t, portable) by { hide SweepOk, LocksOk, DirsOk; }
    assert DirsOk(t, portable) by { hide SweepOk, LocksOk, OwnedOk, PhaseOk; }
    assert PhaseOk(t, p, portable) by { hide SweepOk, LocksOk, OwnedOk, DirsOk; }
    hide SweepOk, LocksOk, OwnedOk, DirsOk, PhaseOk;
    FinishInv(t, p, portable);
  }

  /** Nobody owns what an error return unlocks. */
  lemma UnlockedAreFree(s: Sys, p: Pid, portable: Portable)
    requires Inv(s, portable) && p in s.procs
    ensures forall q, w | q in s.procs && w in s.procs[q].owned :: w !in Locked(s.procs[p].phase)
  {
    hide Print, ReadRecord, Valid, ByteLength, Read, Good, Allows, DirOk, NotTorn, NoPlaintext, SweepOk, DirsOk;
    assert PhaseOk(s, p, portable);
    forall q, w | q in s.procs && w in s.procs[q].owned ensures w !in Locked(s.procs[p].phase) {
      assert OwnsWell(s, q, w, s.procs[q].owned[w], portable);
    }
  }

  lemma ReserveKeeps(s: Sys, p: Pid, r: Record, portable: Portable)
    requires Inv(s, portable) && Enabled(s, p, Reserve(r), portable)
    ensures Inv(Next(s, p, Reserve(r), portable), portable)
  {
    hide Print, ReadRecord, Valid, ByteLength, Allows, NotTorn, NoPlaintext;
    var t := Next(s, p, Reserve(r), portable);
    assert forall w | w != r.workspace :: Read(t, w, portable) == Read(s, w, portable);
    assert r.workspace !in s.dirs by { hide SweepOk, LocksOk, OwnedOk, PhaseOk; }
    assert r.workspace !in s.procs[p].owned by { hide SweepOk, LocksOk, DirsOk, PhaseOk; }
    assert r.workspace !in s.locks by { ReservedIsFree(s, p, r.workspace, portable); }
    hide Read, DirOk;
    assert SweepOk(t) by { hide LocksOk, OwnedOk, DirsOk, PhaseOk; }
    assert LocksOk(t) by { hide SweepOk, OwnedOk, DirsOk; }
    assert OwnedOk(t, portable) by { hide SweepOk, LocksOk, DirsOk; }
    assert DirsOk(t, portable) by { hide SweepOk, LocksOk, OwnedOk, PhaseOk; }
    assert PhaseOk(t, p, portable) by { hide SweepOk, LocksOk, OwnedOk, DirsOk; }
    hide SweepOk, LocksOk, OwnedOk, DirsOk, PhaseOk;
    FinishInv(t, p, portable);
  }

  /** No lock without an owner file. */
  lemma ReservedIsFree(s: Sys, p: Pid, w: string, portable: Portable)
    requires Inv(s, portable) && p in s.procs && s.procs[p].phase.Scan? && w !in s.owners
    ensures w !in s.locks
  {
    hide Print, ReadRecord, Valid, ByteLength, Good, Allows, DirOk, NotTorn, NoPlaintext, DirsOk;
    OthersIdle(s, p);
  }

  /** What a process is cleaning or making belongs to nobody else. */
  lemma NobodyElseOwns(s: Sys, p: Pid, w: string, portable: Portable)
    requires Inv(s, portable) && p in s.procs && (w !in s.locks || s.locks[w] == p)
    ensures forall q | q in s.procs && q != p :: w !in s.procs[q].owned
  {
    hide Print, ReadRecord, Valid, ByteLength, Read, Good, Allows, DirOk, NotTorn, NoPlaintext, SweepOk, DirsOk,
         PhaseOk;
    forall q | q in s.procs && q != p ensures w !in s.procs[q].owned {
      assert w in s.procs[q].owned ==> OwnsWell(s, q, w, s.procs[q].owned[w], portable);
    }
  }

  lemma CleanStopKeeps(s: Sys, p: Pid, file: string, portable: Portable)
    requires Inv(s, portable) && Enabled(s, p, Clean(file), portable)
    requires var c := s.procs[p].phase; Stoppable(s, c.w, c.record, c.stage, file)
    ensures Inv(Next(s, p, Clean(file), portable), portable)
  {
    hide Print, ReadRecord, Valid, ByteLength, Read, Good, Allows, DirOk, NotTorn, NoPlaintext, Removable;
    var t := Next(s, p, Clean(file), portable);
    CleanStopLocks(s, p, file, portable);
    ReadElsewhere(s, t, portable);
    assert DirsOk(t, portable) by { hide SweepOk, LocksOk, OwnedOk, PhaseOk; }
    hide LocksOk, OwnedOk, DirsOk;
    FinishInv(t, p, portable);
  }

  lemma CleanStopLocks(s: Sys, p: Pid, file: string, portable: Portable)
    requires Inv(s, portable) && Enabled(s, p, Clean(file), portable)
    requires var c := s.procs[p].phase; Stoppable(s, c.w, c.record, c.stage, file)
    ensures var t := Next(s, p, Clean(file), portable); SweepOk(t) && LocksOk(t) && OwnedOk(t, portable)
  {
    hide Print, ReadRecord, Valid, ByteLength, Read, Good, Allows, DirsOk, LocksOk, OwnedOk, SweepOk, PhaseOk;
    CleanStopHolds(s, p, file, portable);
    CleanStopOwned(s, p, file, portable);
  }

  lemma CleanStopHolds(s: Sys, p: Pid, file: string, portable: Portable)
    requires Inv(s, portable) && Enabled(s, p, Clean(file), portable)
    requires var c := s.procs[p].phase; Stoppable(s, c.w, c.record, c.stage, file)
    ensures var t := Next(s, p, Clean(file), portable); SweepOk(t) && LocksOk(t)
  {
    hide Print, ReadRecord, Valid, ByteLength, Read, Good, Allows, DirOk, NotTorn, NoPlaintext, Removable, DirsOk,
         MakingOk, OwnedOk, Stoppable;
    assert PhaseOk(s, p, portable);
  }

  lemma CleanStopOwned(s: Sys, p: Pid, file: string, portable: Portable)
    requires Inv(s, portable) && Enabled(s, p, Clean(file), portable)
    requires var c := s.procs[p].phase; Stoppable(s, c.w, c.record, c.stage, file)
    ensures OwnedOk(Next(s, p, Clean(file), portable), portable)
  {
    hide Print, ReadRecord, Valid, ByteLength, Read, Good, Allows, DirOk, NotTorn, NoPlaintext, Removable, DirsOk,
         MakingOk, SweepOk, LocksOk, Stoppable;
    assert PhaseOk(s, p, portable);
    NobodyElseOwns(s, p, s.procs[p].phase.w, portable);
  }

  lemma CleanEndKeeps(s: Sys, p: Pid, file: string, portable: Portable)
    requires Inv(s, portable) && Enabled(s, p, Clean(file), portable) && s.procs[p].phase.stage.OwnerFile?
    ensures Inv(Next(s, p, Clean(file), portable), portable)
  {
    hide Print, ReadRecord, Valid, ByteLength, Read, Good, Allows, DirOk, NotTorn, NoPlaintext, Removable;
    var w, t := s.procs[p].phase.w, Next(s, p, Clean(file), portable);
    assert PhaseOk(s, p, portable);
    CleanEndLocks(s, p, file, portable);
    ReadRemoved(s, t, w, portable);
    assert DirsOk(t, portable) by { hide SweepOk, LocksOk, OwnedOk, MakingOk; }
    hide LocksOk, OwnedOk, DirsOk;
    FinishInv(t, p, portable);
  }

  lemma ReadRemoved(s: Sys, t: Sys, w: string, portable: Portable)
    requires t.owners == s.owners - {w}
    ensures forall v | v != w :: Read(t, v, portable) == Read(s, v, portable)
  {
    hide ReadRecord;
  }

  lemma CleanEndLocks(s: Sys, p: Pid, file: string, portable: Portable)
    requires Inv(s, portable) && Enabled(s, p, Clean(file), portable) && s.procs[p].phase.stage.OwnerFile?
    ensures var t := Next(s, p, Clean(file), portable); SweepOk(t) && LocksOk(t) && OwnedOk(t, portable)
  {
    hide Print, ReadRecord, Valid, ByteLength, Read, Good, Allows, DirsOk, LocksOk, OwnedOk, SweepOk, PhaseOk;
    CleanEndHolds(s, p, file, portable);
    CleanEndOwned(s, p, file, portable);
  }

  lemma CleanEndHolds(s: Sys, p: Pid, file: string, portable: Portable)
    requires Inv(s, portable) && Enabled(s, p, Clean(file), portable) && s.procs[p].phase.stage.OwnerFile?
    ensures var t := Next(s, p, Clean(file), portable); SweepOk(t) && LocksOk(t)
  {
    hide Print, ReadRecord, Valid, ByteLength, Read, Good, Allows, DirOk, NotTorn, NoPlaintext, Removable, DirsOk,
         MakingOk, OwnedOk, Stoppable, CleaningOk;
    var t := Next(s, p, Clean(file), portable);
    assert PhaseOk(s, p, portable);
    assert SweepOk(t) by { hide LocksOk; }
    forall v | v in t.locks ensures t.locks[v] in t.procs && Holds(t.procs[t.locks[v]], v) {
      hide SweepOk;
      assert v in s.locks ==> Holds(s.procs[s.locks[v]], v);
    }
  }

  lemma CleanEndOwned(s: Sys, p: Pid, file: string, portable: Portable)
    requires Inv(s, portable) && Enabled(s, p, Clean(file), portable) && s.procs[p].phase.stage.OwnerFile?
    ensures OwnedOk(Next(s, p, Clean(file), portable), portable)
  {
    hide Print, ReadRecord, Valid, ByteLength, Read, Good, Allows, DirOk, NotTorn, NoPlaintext, Removable, DirsOk,
         MakingOk, SweepOk, LocksOk, Stoppable;
    var t := Next(s, p, Clean(file), portable);
    assert PhaseOk(s, p, portable);
    NotOwned(s, p, s.procs[p].phase.w, portable);
    NobodyElseOwns(s, p, s.procs[p].phase.w, portable);
    forall q, v | q in t.procs && v in t.procs[q].owned ensures OwnsWell(t, q, v, t.procs[q].owned[v], portable) {
      assert OwnsWell(s, q, v, s.procs[q].owned[v], portable);
    }
  }

  /** A step that removes nothing, or a file, the marker or the empty directory. */
  lemma CleanForwardKeeps(s: Sys, p: Pid, file: string, portable: Portable)
    requires Inv(s, portable) && Enabled(s, p, Clean(file), portable) && !s.procs[p].phase.stage.OwnerFile?
    requires var c := s.procs[p].phase; !Stoppable(s, c.w, c.record, c.stage, file)
    ensures Inv(Next(s, p, Clean(file), portable), portable)
  {
    hide Print, ReadRecord, Valid, ByteLength, Read, Good;
    var c, t := s.procs[p].phase, Next(s, p, Clean(file), portable);
    assert PhaseOk(s, p, portable);
    OthersIdle(s, p);
    NobodyElseOwns(s, p, c.w, portable);
    ReadElsewhere(s, t, portable);
    CleanDirOk(s, p, file, portable);
    CleanPhaseOk(s, p, file, portable);
    hide Allows, DirOk, NotTorn, NoPlaintext, Removable, CleaningOk, MakingOk, DirsOk, CleanDirs;
    assert SweepOk(t) && LocksOk(t);
    CleanOwnedOk(s, p, file, portable);
  }

  lemma CleanOwnedOk(s: Sys, p: Pid, file: string, portable: Portable)
    requires Inv(s, portable) && Enabled(s, p, Clean(file), portable) && !s.procs[p].phase.stage.OwnerFile?
    requires var c := s.procs[p].phase; !Stoppable(s, c.w, c.record, c.stage, file)
    ensures OwnedOk(Next(s, p, Clean(file), portable), portable)
  {
    hide Print, ReadRecord, Valid, ByteLength, Read, Good, Allows, DirOk, NoPlaintext, Removable, SweepOk, DirsOk,
         LocksOk;
    assert PhaseOk(s, p, portable);
    NobodyElseOwns(s, p, s.procs[p].phase.w, portable);
  }

  lemma CleanDirOk(s: Sys, p: Pid, file: string, portable: Portable)
    requires Inv(s, portable) && Enabled(s, p, Clean(file), portable) && !s.procs[p].phase.stage.OwnerFile?
    requires var c := s.procs[p].phase; !Stoppable(s, c.w, c.record, c.stage, file)
    ensures DirsOk(Next(s, p, Clean(file), portable), portable)
  {
    hide Print, ReadRecord, Valid, ByteLength, Read, Good, Allows, OwnedOk, SweepOk, LocksOk;
    assert PhaseOk(s, p, portable);
    ReadElsewhere(s, Next(s, p, Clean(file), portable), portable);
  }

  lemma CleanPhaseOk(s: Sys, p: Pid, file: string, portable: Portable)
    requires Inv(s, portable) && Enabled(s, p, Clean(file), portable) && !s.procs[p].phase.stage.OwnerFile?
    requires var c := s.procs[p].phase; !Stoppable(s, c.w, c.record, c.stage, file)
    ensures PhaseOk(Next(s, p, Clean(file), portable), p, portable)
  {
    hide Print, ReadRecord, Valid, ByteLength, Read, Good, Allows, OwnedOk, SweepOk, LocksOk;
    assert PhaseOk(s, p, portable);
    ReadElsewhere(s, Next(s, p, Clean(file), portable), portable);
  }

  lemma CleanKeeps(s: Sys, p: Pid, file: string, portable: Portable)
    requires Inv(s, portable) && Enabled(s, p, Clean(file), portable)
    ensures Inv(Next(s, p, Clean(file), portable), portable)
  {
    var c := s.procs[p].phase;
    hide Inv, Enabled, Next;
    if Stoppable(s, c.w, c.record, c.stage, file) {
      CleanStopKeeps(s, p, file, portable);
    } else if c.stage.OwnerFile? {
      CleanEndKeeps(s, p, file, portable);
    } else {
      CleanForwardKeeps(s, p, file, portable);
    }
  }

  /** A step of making a workspace. */
  lemma MakeKeeps(s: Sys, p: Pid, written: nat, portable: Portable)
    requires Inv(s, portable) && Enabled(s, p, Make(written), portable)
    ensures Inv(Next(s, p, Make(written), portable), portable)
  {
    hide Print, ReadRecord, Valid, ByteLength, Read, Good, Allows, PhaseOk, LocksOk, OwnedOk, DirsOk;
    MakeLocks(s, p, written, portable);
    MakeOwned(s, p, written, portable);
    MakeDirsOk(s, p, written, portable);
    MakePhaseOk(s, p, written, portable);
    FinishInv(Next(s, p, Make(written), portable), p, portable);
  }

  lemma MakeLocks(s: Sys, p: Pid, written: nat, portable: Portable)
    requires Inv(s, portable) && Enabled(s, p, Make(written), portable)
    ensures var t := Next(s, p, Make(written), portable);
            SweepOk(t) && LocksOk(t) && (t.sweep.None? || t.sweep == Some(p))
  {
    hide Print, ReadRecord, Valid, ByteLength, Read, Good, LocksOk, OwnedOk, DirsOk;
    MakeSweep(s, p, written, portable);
    MakeHolds(s, p, written, portable);
  }

  lemma MakeSweep(s: Sys, p: Pid, written: nat, portable: Portable)
    requires Inv(s, portable) && Enabled(s, p, Make(written), portable)
    ensures var t := Next(s, p, Make(written), portable); SweepOk(t) && (t.sweep.None? || t.sweep == Some(p))
  {
    hide Print, ReadRecord, Valid, ByteLength, Read, Good, Allows, OwnedOk, DirsOk, LocksOk, PhaseOk;
  }

  lemma MakeHolds(s: Sys, p: Pid, written: nat, portable: Portable)
    requires Inv(s, portable) && Enabled(s, p, Make(written), portable)
    ensures LocksOk(Next(s, p, Make(written), portable))
  {
    hide Print, ReadRecord, Valid, ByteLength, Read, Good, Allows, OwnedOk, DirsOk, NoPlaintext, CleaningOk, SweepOk;
    assert PhaseOk(s, p, portable);
    forall v | v in s.locks ensures Holds(s.procs[s.locks[v]], v) {}
  }

  lemma MakeOwned(s: Sys, p: Pid, written: nat, portable: Portable)
    requires Inv(s, portable) && Enabled(s, p, Make(written), portable)
    ensures OwnedOk(Next(s, p, Make(written), portable), portable)
  {
    hide Print, ReadRecord, Valid, ByteLength, Read, Good, Allows, SweepOk, LocksOk, DirsOk, NoPlaintext, CleaningOk;
    assert PhaseOk(s, p, portable);
    NobodyElseOwns(s, p, s.procs[p].phase.w, portable);
  }

  lemma ReadOthers(s: Sys, t: Sys, w: string, portable: Portable)
    requires s.owners.Keys <= t.owners.Keys <= s.owners.Keys + {w}
    requires forall v | v in s.owners && v != w :: t.owners[v] == s.owners[v]
    ensures forall v | v != w :: Read(t, v, portable) == Read(s, v, portable)
  {
    hide ReadRecord;
    forall v | v != w ensures Read(t, v, portable) == Read(s, v, portable) { assert v in t.owners <==> v in s.owners; }
  }

  lemma MakeDirsOk(s: Sys, p: Pid, written: nat, portable: Portable)
    requires Inv(s, portable) && Enabled(s, p, Make(written), portable)
    ensures DirsOk(Next(s, p, Make(written), portable), portable)
  {
    hide Print, ReadRecord, Valid, ByteLength, Read, Good, Allows, OwnedOk, SweepOk, LocksOk;
    var m, t := s.procs[p].phase, Next(s, p, Make(written), portable);
    assert PhaseOk(s, p, portable);
    ReadOthers(s, t, m.w, portable);
    if !m.made.OwnerOpened? && !m.made.OwnerLocked? { ReadGood(t, m.w, m.record, portable); }
  }

  lemma MakePhaseOk(s: Sys, p: Pid, written: nat, portable: Portable)
    requires Inv(s, portable) && Enabled(s, p, Make(written), portable)
    ensures PhaseOk(Next(s, p, Make(written), portable), p, portable)
  {
    hide Print, ReadRecord, Valid, ByteLength, Read, Good, Allows, OwnedOk, SweepOk, LocksOk, DirsOk;
    assert PhaseOk(s, p, portable);
    PrintedIsLonger(s.procs[p].phase.record);
  }

  lemma PrintedIsLonger(r: Record)
    ensures "" < Print(r)
  {
  }

  lemma IntrudeKeeps(s: Sys, w: string, file: string, portable: Portable)
    requires Inv(s, portable) && CanIntrude(s, w, file, portable)
    ensures Inv(Intrude(s, w, file), portable)
  {
    hide Print, ReadRecord, Valid, ByteLength, Read, Good, Allows;
    if s.sweep.Some? {
      var p := s.sweep.value;
      assert PhaseOk(s, p, portable);
      if s.procs[p].phase.Making? && s.procs[p].phase.w == w {
        ReadGoodMaking(s, p, portable);
      }
    }
    ReadElsewhere(s, Intrude(s, w, file), portable);
  }

  lemma ReadGoodMaking(s: Sys, p: Pid, portable: Portable)
    requires p in s.procs && s.procs[p].phase.Making? && PhaseOk(s, p, portable)
    requires s.procs[p].phase.made.DirectoryMade? || s.procs[p].phase.made.MarkerOpened?
    ensures Read(s, s.procs[p].phase.w, portable) == Some(s.procs[p].phase.record)
  {
    hide Print, Read, Good, Allows;
    ReadGood(s, s.procs[p].phase.w, s.procs[p].phase.record, portable);
  }

  // ----- what holds in every interleaving -----

  /** A step of the system: by a process, or by somebody who leaves a foreign member. */
  datatype Event = By(p: Pid, a: Action) | Foreign(w: string, file: string)

  predicate CanHappen(s: Sys, e: Event, portable: Portable) {
    match e
    case By(p, a) => Enabled(s, p, a, portable)
    case Foreign(w, file) => CanIntrude(s, w, file, portable)
  }

  function Happen(s: Sys, e: Event, portable: Portable): Sys
    requires CanHappen(s, e, portable)
  {
    match e
    case By(p, a) => Next(s, p, a, portable)
    case Foreign(w, file) => Intrude(s, w, file)
  }

  /** Every step keeps the invariant. */
  lemma StepKeeps(s: Sys, e: Event, portable: Portable)
    requires Inv(s, portable) && CanHappen(s, e, portable)
    ensures Inv(Happen(s, e, portable), portable)
  {
    hide Inv, Enabled, Next, Intrude, CanIntrude;
    match e
    case Foreign(w, file) => IntrudeKeeps(s, w, file, portable);
    case By(p, a) =>
      match a
      case Spawn => SpawnKeeps(s, p, portable);
      case Crash => CrashKeeps(s, p, portable);
      case BeginCreate(fileName) => BeginCreateKeeps(s, p, fileName, portable);
      case Take(w) => TakeKeeps(s, p, w, portable);
      case Skip(w) => SkipKeeps(s, p, w, portable);
      case Clean(file) => CleanKeeps(s, p, file, portable);
      case Reserve(r) => ReserveKeeps(s, p, r, portable);
      case Make(written) => MakeKeeps(s, p, written, portable);
      case BeginClose(w) => BeginCloseKeeps(s, p, w, portable);
      case WriteFile(w, file) => WriteFileKeeps(s, p, w, file, portable);
      case Abort => AbortKeeps(s, p, portable);
  }

  /** `t` can be reached from `s` by these events. */
  predicate Run(s: Sys, events: seq<Event>, t: Sys, portable: Portable)
    decreases |events|
  {
    if events == [] then t == s
    else CanHappen(s, events[0], portable) && Run(Happen(s, events[0], portable), events[1..], t, portable)
  }

  const START: Sys := Sys(map[], map[], map[], None, map[])

  /** Processes can start on an empty registry. */
  lemma StartIsSound(portable: Portable)
    ensures Inv(START, portable)
  {
  }

  lemma {:induction false} RunKeeps(s: Sys, events: seq<Event>, t: Sys, portable: Portable)
    requires Inv(s, portable) && Run(s, events, t, portable)
    ensures Inv(t, portable)
    decreases |events|
  {
    hide Inv, CanHappen, Happen;
    if events != [] {
      StepKeeps(s, events[0], portable);
      RunKeeps(Happen(s, events[0], portable), events[1..], t, portable);
    }
  }

  /** In every reachable state plaintext made through the API is in a directory with a complete
      marker, below a complete owner record. */
  lemma PlaintextIsAccountedFor(events: seq<Event>, t: Sys, w: string, file: string, portable: Portable)
    requires Run(START, events, t, portable) && w in t.dirs
    ensures w in t.owners && ReadRecord(Some(t.owners[w]), w, portable).Some?
    ensures var r := ReadRecord(Some(t.owners[w]), w, portable).value;
            file in t.dirs[w].files && Allows(r, file) ==> t.dirs[w].marker == Some(Print(r)) && t.owners[w] == Print(r)
  {
    hide Run, ReadRecord, Print, Allows;
    RunKeeps(START, events, t, portable);
    hide LocksOk, OwnedOk, SweepOk, PhaseOk;
    ReadIsGood(t, w, portable);
  }

  /** Nothing of the workspace is lost: its owner file, its lock, and its directory with all in it. */
  predicate LeftAlone(s: Sys, t: Sys, w: string) {
    && (w in s.locks ==> w in t.locks && t.locks[w] == s.locks[w])
    && (w in s.owners ==> w in t.owners && t.owners[w] == s.owners[w])
    && (w in s.dirs ==> w in t.dirs && t.dirs[w].marker == s.dirs[w].marker && s.dirs[w].files <= t.dirs[w].files)
  }

  /** A step of another process, or of an intruder, leaves a locked workspace alone. */
  lemma LockedIsLeftAlone(s: Sys, e: Event, w: string, portable: Portable)
    requires Inv(s, portable) && CanHappen(s, e, portable)
    requires w in s.locks && (e.By? ==> e.p != s.locks[w])
    ensures LeftAlone(s, Happen(s, e, portable), w)
    ensures e.By? ==> (w in Happen(s, e, portable).dirs <==> w in s.dirs)
    ensures e.By? && w in s.dirs ==> Happen(s, e, portable).dirs[w] == s.dirs[w]
  {
    hide Print, ReadRecord, Valid, ByteLength, Read, Good, Allows, DirOk, NotTorn, NoPlaintext, SweepOk, LocksOk,
         DirsOk, Removable;
    if e.By? && e.p in s.procs {
      assert PhaseOk(s, e.p, portable);
      if e.a.Clean? {
        CleanLeavesAlone(s, e.p, e.a.file, w, portable);
      } else if e.a.Make? {
        MakeLeavesAlone(s, e.p, e.a.written, w, portable);
      } else if e.a.WriteFile? {
        assert OwnsWell(s, e.p, e.a.w, s.procs[e.p].owned[e.a.w], portable);
      } else if e.a.Reserve? {
        ReservedHasLock(s, e.p, w, portable);
      }
      hide PhaseOk, OwnedOk, CleanStep, MakeStep;
    }
  }

  lemma CleanLeavesAlone(s: Sys, p: Pid, file: string, w: string, portable: Portable)
    requires Enabled(s, p, Clean(file), portable) && PhaseOk(s, p, portable) && w in s.locks && s.locks[w] != p
    ensures var t := CleanStep(s, p, file);
            LeftAlone(s, t, w) && (w in t.dirs <==> w in s.dirs) && (w in s.dirs ==> t.dirs[w] == s.dirs[w])
  {
    hide Print, ReadRecord, Valid, ByteLength, Read, Good, Allows, NotTorn, NoPlaintext, Removable, Stoppable;
  }

  lemma MakeLeavesAlone(s: Sys, p: Pid, written: nat, w: string, portable: Portable)
    requires Enabled(s, p, Make(written), portable) && PhaseOk(s, p, portable) && w in s.locks && s.locks[w] != p
    ensures var t := MakeStep(s, p, written);
            LeftAlone(s, t, w) && (w in t.dirs <==> w in s.dirs) && (w in s.dirs ==> t.dirs[w] == s.dirs[w])
  {
    hide Print, ReadRecord, Valid, ByteLength, Read, Good, Allows, NotTorn, NoPlaintext;
  }

  lemma ReservedHasLock(s: Sys, p: Pid, w: string, portable: Portable)
    requires Inv(s, portable) && p in s.procs && s.procs[p].phase.Scan? && w in s.locks
    ensures w in s.owners
  {
    hide Print, ReadRecord, Valid, ByteLength, Good, Allows, DirOk, NotTorn, NoPlaintext, DirsOk;
    if w !in s.owners { ReservedIsFree(s, p, w, portable); }
  }

  /** A member that the record does not allow is never removed. */
  lemma ForeignMembersStay(s: Sys, e: Event, w: string, file: string, portable: Portable)
    requires Inv(s, portable) && CanHappen(s, e, portable) && w in s.dirs && file in s.dirs[w].files
    requires Read(s, w, portable).Some? && !Allows(Read(s, w, portable).value, file)
    ensures var t := Happen(s, e, portable); w in t.dirs && file in t.dirs[w].files
  {
    hide Print, ReadRecord, Valid, ByteLength, Read, Good, Allows, DirOk, NotTorn, NoPlaintext, SweepOk, LocksOk,
         DirsOk, OwnedOk, Removable;
    if e.By? && e.p in s.procs {
      assert PhaseOk(s, e.p, portable);
      if e.a.Clean? { CleanSparesForeign(s, e.p, e.a.file, w, file, portable); }
      if e.a.Make? { MakeSparesMembers(s, e.p, e.a.written, w, file, portable); }
      hide PhaseOk, CleanStep, MakeStep;
    }
  }

  lemma CleanSparesForeign(s: Sys, p: Pid, gone: string, w: string, file: string, portable: Portable)
    requires Enabled(s, p, Clean(gone), portable) && PhaseOk(s, p, portable) && w in s.dirs && file in s.dirs[w].files
    requires Read(s, w, portable).Some? && !Allows(Read(s, w, portable).value, file)
    ensures var t := CleanStep(s, p, gone); w in t.dirs && file in t.dirs[w].files
  {
    hide Print, ReadRecord, Valid, ByteLength, Read, Good, Allows, NotTorn, NoPlaintext, Removable;
  }

  lemma MakeSparesMembers(s: Sys, p: Pid, written: nat, w: string, file: string, portable: Portable)
    requires Enabled(s, p, Make(written), portable) && PhaseOk(s, p, portable) && w in s.dirs && file in s.dirs[w].files
    ensures var t := MakeStep(s, p, written); w in t.dirs && file in t.dirs[w].files
  {
    hide Print, ReadRecord, Valid, ByteLength, Read, Good, Allows, NotTorn, NoPlaintext;
  }

  // ----- what counts as plaintext of a workspace -----

  /** The only members of a workspace that a removal deletes before the marker: the one file that the
      record names, or else what is named as an entry or a nested archive. The marker is never one. */
  lemma AllowedExactly(r: Record, name: string, portable: Portable)
    requires Valid(r, portable)
    ensures !Allows(r, MARKER_NAME)
    ensures r.fileName.Some? ==> (Allows(r, name) <==> Some(name) == r.fileName)
    ensures r.fileName.None? ==>
              (Allows(r, name) <==>
                exists rest: string ::
                  && (name == "entry-" + rest || name == "nested-" + rest) && 1 <= |rest| <= 128
                  && forall i | 0 <= i < |rest| ::
                       AlphaNumeric(rest[i]) || rest[i] == '.' || rest[i] == '_' || rest[i] == '-')
  {
    hide ValidWorkspace, ValidToken;
    assert MARKER_NAME[0] == '.';
    if r.fileName.Some? { SafeNameIsOneComponent(r.fileName.value, portable); }
    PlaintextExactly(name, "entry-");
    PlaintextExactly(name, "nested-");
    assert !PlaintextRest(MARKER_NAME, "entry-") by { assert MARKER_NAME[0] != "entry-"[0]; }
    assert !PlaintextRest(MARKER_NAME, "nested-") by { assert MARKER_NAME[0] != "nested-"[0]; }
  }

  lemma PlaintextExactly(name: string, prefix: string)
    ensures PlaintextRest(name, prefix) <==>
            exists rest: string ::
              && name == prefix + rest && 1 <= |rest| <= 128
              && forall i | 0 <= i < |rest| ::
                   AlphaNumeric(rest[i]) || rest[i] == '.' || rest[i] == '_' || rest[i] == '-'
  {
    if PlaintextRest(name, prefix) {
      var rest := name[|prefix|..];
      assert name == prefix + rest;
      forall i | 0 <= i < |rest|
        ensures AlphaNumeric(rest[i]) || rest[i] == '.' || rest[i] == '_' || rest[i] == '-'
      {
        assert rest[i] == name[|prefix| + i];
      }
    }
    if rest: string :| name == prefix + rest && 1 <= |rest| <= 128 && forall i | 0 <= i < |rest| ::
                   AlphaNumeric(rest[i]) || rest[i] == '.' || rest[i] == '_' || rest[i] == '-' {
      forall i | |prefix| <= i < |name| ensures AlphaNumeric(name[i]) || name[i] in "._-" {
        assert name[i] == rest[i - |prefix|];
      }
    }
  }

  // ----- after a crash -----

  /** An abandoned workspace that a scan takes down completely. */
  predicate Reclaimable(s: Sys, w: string, portable: Portable) {
    && w !in s.locks && Read(s, w, portable).Some?
    && (w in s.dirs ==> Removable(s.dirs[w], Read(s, w, portable).value))
  }

  /** Only members that the record allows, and not too many. */
  predicate OnlyPlaintext(s: Sys, w: string, r: Record) {
    w in s.dirs ==> |s.dirs[w].files| < MAX_WORKSPACE_ENTRIES && forall f | f in s.dirs[w].files :: Allows(r, f)
  }

  /** Wherever in a removal its process crashes, the workspace is gone or can be reclaimed: for a
      scan whose check is still to come if the check passes, and otherwise if nobody put foreign
      members into it. */
  lemma CrashInCleanupIsReclaimable(s: Sys, p: Pid, portable: Portable)
    requires Inv(s, portable) && p in s.procs && s.procs[p].phase.Cleaning?
    requires var c := s.procs[p].phase;
             if c.stage.Check? && c.purpose.ForScan? then c.w in s.dirs ==> Removable(s.dirs[c.w], c.record)
             else OnlyPlaintext(s, c.w, c.record)
    ensures Reclaimable(Crashed(s, p), s.procs[p].phase.w, portable)
  {
    hide Print, ReadRecord, Valid, ByteLength, Read, Good, Allows, SweepOk, LocksOk;
    var t, c := Crashed(s, p), s.procs[p].phase;
    assert PhaseOk(s, p, portable);
    if c.purpose.ForClose? && c.stage.Check? {
      assert OwnsWell(s, p, c.w, s.procs[p].owned[c.w], portable);
      ReadGood(s, c.w, s.procs[p].owned[c.w], portable);
    }
    ReadElsewhere(s, t, portable);
  }

  /** A live workspace whose process crashes can be reclaimed, also when its close was begun or
      has failed. */
  lemma CrashedOwnerIsReclaimable(s: Sys, p: Pid, w: string, portable: Portable)
    requires Inv(s, portable) && p in s.procs && w in s.procs[p].owned
    requires OnlyPlaintext(s, w, s.procs[p].owned[w])
    ensures Reclaimable(Crashed(s, p), w, portable)
  {
    hide Print, ReadRecord, Valid, ByteLength, Read, Good, Allows, SweepOk, LocksOk, PhaseOk;
    var t := Crashed(s, p);
    assert OwnsWell(s, p, w, s.procs[p].owned[w], portable);
    ReadGood(s, w, s.procs[p].owned[w], portable);
    ReadElsewhere(s, t, portable);
  }

  // ----- what becomes of an abandoned workspace -----

  /** Some scan is taking the workspace down. */
  predicate BeingReclaimed(s: Sys, w: string) {
    && s.sweep.Some? && s.sweep.value in s.procs
    && var c := s.procs[s.sweep.value].phase;
       c.Cleaning? && c.w == w && c.purpose.ForScan?
         && (c.stage.Files? ==> forall f | f in c.stage.todo :: Allows(c.record, f))
  }

  /** Abandoned, and reclaimable as soon as nobody is at it. */
  predicate Disposable(s: Sys, w: string, portable: Portable) {
    && Read(s, w, portable).Some?
    && (w in s.dirs ==> Removable(s.dirs[w], Read(s, w, portable).value))
    && (w !in s.locks || BeingReclaimed(s, w))
  }

  /** The owner file was gone at some instant of the run. */
  predicate GoneDuring(s: Sys, events: seq<Event>, w: string, portable: Portable)
    decreases |events|
  {
    || w !in s.owners
    || (events != [] && CanHappen(s, events[0], portable)
        && GoneDuring(Happen(s, events[0], portable), events[1..], w, portable))
  }

  predicate NoIntruders(events: seq<Event>) { forall i | 0 <= i < |events| :: events[i].By? }

  lemma DisposableIsReclaimable(s: Sys, w: string, portable: Portable)
    requires Disposable(s, w, portable) && !BeingReclaimed(s, w)
    ensures Reclaimable(s, w, portable)
  {
  }

  /** Each step of the scan that is at it leaves a disposable workspace disposable, or removes it. */
  lemma CleanDisposes(s: Sys, p: Pid, file: string, w: string, portable: Portable)
    requires Inv(s, portable) && Enabled(s, p, Clean(file), portable) && Disposable(s, w, portable)
    ensures var t := Next(s, p, Clean(file), portable); w !in t.owners || Disposable(t, w, portable)
  {
    hide Print, ReadRecord, Valid, ByteLength, Read, Good, Allows, DirOk, DirsOk, LocksOk, OwnedOk;
    var t := Next(s, p, Clean(file), portable);
    assert PhaseOk(s, p, portable);
    if s.procs[p].phase.stage.OwnerFile? {
      ReadRemoved(s, t, s.procs[p].phase.w, portable);
    } else {
      ReadElsewhere(s, t, portable);
    }
  }

  lemma EmptyIsUnreadable(w: string, portable: Portable)
    ensures ReadRecord(Some(""), w, portable) == None
  {
  }

  /** Nobody makes or owns a disposable workspace. */
  lemma DisposableIsNobodys(s: Sys, p: Pid, w: string, portable: Portable)
    requires Inv(s, portable) && p in s.procs && Disposable(s, w, portable)
    ensures s.procs[p].phase.Making? ==> s.procs[p].phase.w != w
    ensures w !in s.procs[p].owned
    ensures w in s.locks ==> s.sweep.Some? && s.locks[w] == s.sweep.value
  {
    hide Print, ReadRecord, Valid, ByteLength, Good, Allows, DirOk, NotTorn, NoPlaintext, DirsOk, LocksOk, Removable;
    assert PhaseOk(s, p, portable);
    EmptyIsUnreadable(w, portable);
    if s.sweep.Some? { assert PhaseOk(s, s.sweep.value, portable); }
    assert w in s.procs[p].owned ==> OwnsWell(s, p, w, s.procs[p].owned[w], portable);
  }

  /** No step of any process spoils a disposable workspace. */
  lemma StepDisposes(s: Sys, p: Pid, a: Action, w: string, portable: Portable)
    requires Inv(s, portable) && Enabled(s, p, a, portable) && Disposable(s, w, portable)
    ensures var t := Next(s, p, a, portable); w !in t.owners || Disposable(t, w, portable)
  {
    hide Print, ReadRecord, Valid, ByteLength, Good, Allows, DirOk, NotTorn, NoPlaintext, DirsOk, LocksOk, OwnedOk,
         Removable, PhaseOk;
    if a.Clean? {
      CleanDisposes(s, p, a.file, w, portable);
    } else if !a.Spawn? {
      DisposableIsNobodys(s, p, w, portable);
      hide CleanStep;
    }
  }

  /** An abandoned workspace without foreign members stays disposable until it is gone, through
      any steps of any processes, crashes included. */
  lemma {:induction false} AbandonedUntilGone(s: Sys, events: seq<Event>, t: Sys, w: string, portable: Portable)
    requires Inv(s, portable) && Run(s, events, t, portable) && NoIntruders(events) && Disposable(s, w, portable)
    ensures GoneDuring(s, events, w, portable) || Disposable(t, w, portable)
    decreases |events|
  {
    hide Inv, Enabled, Next, Disposable;
    if events != [] && w in s.owners {
      var u := Happen(s, events[0], portable);
      assert events[0].By?;
      StepKeeps(s, events[0], portable);
      StepDisposes(s, events[0].p, events[0].a, w, portable);
      if Disposable(u, w, portable) {
        assert NoIntruders(events[1..]);
        AbandonedUntilGone(u, events[1..], t, w, portable);
      }
    }
  }

  /** After the crash of an owner, at whatever point of its life, and any steps of any processes,
      the workspace is or was gone, is being taken down, or can be reclaimed. */
  lemma CrashedOwnerIsDisposedOf(s: Sys, p: Pid, w: string, events: seq<Event>, t: Sys, portable: Portable)
    requires Inv(s, portable) && p in s.procs && w in s.procs[p].owned && OnlyPlaintext(s, w, s.procs[p].owned[w])
    requires Run(Crashed(s, p), events, t, portable) && NoIntruders(events)
    ensures GoneDuring(Crashed(s, p), events, w, portable) || BeingReclaimed(t, w) || Reclaimable(t, w, portable)
  {
    hide Inv, Run, OnlyPlaintext, GoneDuring, Removable, BeingReclaimed, Read, Crashed;
    CrashedOwnerIsReclaimable(s, p, w, portable);
    CrashKeeps(s, p, portable);
    AbandonedUntilGone(Crashed(s, p), events, t, w, portable);
  }

  /** The same after the crash of a process that was removing it. */
  lemma CrashInCleanupIsDisposedOf(s: Sys, p: Pid, events: seq<Event>, t: Sys, portable: Portable)
    requires Inv(s, portable) && p in s.procs && s.procs[p].phase.Cleaning?
    requires var c := s.procs[p].phase;
             if c.stage.Check? && c.purpose.ForScan? then c.w in s.dirs ==> Removable(s.dirs[c.w], c.record)
             else OnlyPlaintext(s, c.w, c.record)
    requires Run(Crashed(s, p), events, t, portable) && NoIntruders(events)
    ensures var w := s.procs[p].phase.w;
            GoneDuring(Crashed(s, p), events, w, portable) || BeingReclaimed(t, w) || Reclaimable(t, w, portable)
  {
    hide Inv, Run, OnlyPlaintext, Removable, GoneDuring, BeingReclaimed, Read, Crashed;
    CrashInCleanupIsReclaimable(s, p, portable);
    CrashKeeps(s, p, portable);
    AbandonedUntilGone(Crashed(s, p), events, t, s.procs[p].phase.w, portable);
  }

  // ----- after a crash in creation -----

  /** What a process that is making a workspace has left when it crashes can be reclaimed. */
  predicate MadeReclaimable(s: Sys, m: Phase)
    requires m.Making?
  {
    match m.made
    case OwnerOpened => false
    case OwnerLocked => m.w in s.owners && s.owners[m.w] == Print(m.record.(fileName := None))
    case RecordWritten => true
    case DirectoryMade => m.w in s.dirs && s.dirs[m.w].files == {}
    case MarkerOpened => false
  }

  /** A crash in creation leaves something that can be reclaimed exactly between the end of the record
      and the start of the marker, if nobody put something into the directory, or when the record was
      cut off right before its file name. */
  lemma CrashInCreation(s: Sys, p: Pid, portable: Portable)
    requires Inv(s, portable) && p in s.procs && s.procs[p].phase.Making?
    ensures Reclaimable(Crashed(s, p), s.procs[p].phase.w, portable) <==> MadeReclaimable(s, s.procs[p].phase)
  {
    hide Print, ReadRecord, Valid, ByteLength, Read, Good, Allows, SweepOk, LocksOk, OwnedOk, DirsOk;
    var t, m := Crashed(s, p), s.procs[p].phase;
    assert PhaseOk(s, p, portable);
    ReadElsewhere(s, t, portable);
    match m.made
    case OwnerOpened => EmptyIsUnread(s, m.w, portable);
    case OwnerLocked => TornRecord(s, m.w, m.record, portable);
    case RecordWritten => ReadGood(s, m.w, m.record, portable);
    case DirectoryMade => ReadGood(s, m.w, m.record, portable);
    case MarkerOpened => ReadGood(s, m.w, m.record, portable);
  }

  lemma EmptyIsUnread(s: Sys, w: string, portable: Portable)
    requires w in s.owners && s.owners[w] == ""
    ensures Read(s, w, portable) == None
  {
    hide ReadRecord;
    EmptyIsUnreadable(w, portable);
  }

  /** A record that is not complete is read exactly when it was cut off before its file name. */
  lemma TornRecord(s: Sys, w: string, r: Record, portable: Portable)
    requires w in s.owners && s.owners[w] < Print(r) && Good(r, w, portable)
    ensures Read(s, w, portable).Some? <==> s.owners[w] == Print(r.(fileName := None))
  {
    hide Parse, Print, Valid, ByteLength;
    var text := s.owners[w];
    var n := |text|;
    assert text == Print(r)[..n];
    PrefixesThatParse(r, n, portable);
    ByteLengthAppend(text, Print(r)[n..]);
    assert text + Print(r)[n..] == Print(r);
    BareIsPrefix(r);
    assert n == |Print(r.(fileName := None))| ==> text == Print(r.(fileName := None));
  }

  /** Abandoned, and in a state that no scan removes: the record cannot be read or the check fails. */
  predicate Stuck(s: Sys, w: string, portable: Portable) {
    && w in s.owners
    && (Read(s, w, portable).Some? ==> w in s.dirs && !Removable(s.dirs[w], Read(s, w, portable).value))
    && forall p | p in s.procs :: NotAt(s.procs[p], w)
  }

  /** It neither owns nor makes it, and has at most begun to check it. */
  predicate NotAt(proc: Proc, w: string) {
    && w !in proc.owned && (proc.phase.Making? ==> proc.phase.w != w)
    && (proc.phase.Cleaning? && proc.phase.w == w ==> proc.phase.stage.Check? && proc.phase.purpose.ForScan?)
  }

  /** The owner file, and the directory with its marker and its members, are still there. */
  predicate Remains(s: Sys, t: Sys, w: string) {
    && (w in s.owners ==> w in t.owners && t.owners[w] == s.owners[w])
    && (w in t.dirs <==> w in s.dirs)
    && (w in s.dirs ==> t.dirs[w].marker == s.dirs[w].marker && s.dirs[w].files <= t.dirs[w].files)
  }

  lemma ReadSame(s: Sys, t: Sys, w: string, portable: Portable)
    requires w in s.owners && w in t.owners && s.owners[w] == t.owners[w]
    ensures Read(t, w, portable) == Read(s, w, portable)
  {
  }

  lemma NotRemovableGrows(d: Dir, e: Dir, r: Record)
    requires !Removable(d, r) && e.marker == d.marker && d.files <= e.files
    ensures !Removable(e, r)
  {
    hide Print, Allows;
    var more := e.files - d.files;
    assert e.files == d.files + more;
    assert |e.files| == |d.files| + |more|;
  }

  lemma CleanLeavesStuck(s: Sys, p: Pid, file: string, w: string, portable: Portable)
    requires Inv(s, portable) && Enabled(s, p, Clean(file), portable) && Stuck(s, w, portable)
    ensures var t := CleanStep(s, p, file);
            Remains(s, t, w) && t.procs.Keys == s.procs.Keys && NotAt(t.procs[p], w)
            && forall q | q in s.procs && q != p :: t.procs[q] == s.procs[q]
  {
    hide Print, ReadRecord, Valid, ByteLength, Read, Good, Allows, NotTorn, NoPlaintext, Removable, SweepOk, LocksOk,
         OwnedOk, DirsOk;
    assert PhaseOk(s, p, portable);
    assert NotAt(s.procs[p], w);
  }

  lemma MakeLeavesStuck(s: Sys, p: Pid, written: nat, w: string, portable: Portable)
    requires Enabled(s, p, Make(written), portable) && s.procs[p].phase.w != w && NotAt(s.procs[p], w)
    ensures var t := MakeStep(s, p, written);
            Remains(s, t, w) && NotAt(t.procs[p], w) && forall q | q in s.procs && q != p :: t.procs[q] == s.procs[q]
  {
    hide Print, ReadRecord, Read, Allows;
  }

  /** No step of any process, and no intruder, changes that. */
  lemma StepLeavesStuck(s: Sys, e: Event, w: string, portable: Portable)
    requires Inv(s, portable) && CanHappen(s, e, portable) && Stuck(s, w, portable)
    ensures var t := Happen(s, e, portable); Stuck(t, w, portable) && Remains(s, t, w)
  {
    hide Inv, Read, Removable, CleanStep, MakeStep, Allows, Valid, ByteLength, Print;
    var t := Happen(s, e, portable);
    if e.By? && e.a.Clean? {
      CleanLeavesStuck(s, e.p, e.a.file, w, portable);
    } else if e.By? && e.a.Make? {
      MakeLeavesStuck(s, e.p, e.a.written, w, portable);
    }
    assert Remains(s, t, w);
    assert forall q | q in t.procs :: NotAt(t.procs[q], w);
    ReadSame(s, t, w, portable);
    if Read(s, w, portable).Some? {
      NotRemovableGrows(s.dirs[w], t.dirs[w], Read(s, w, portable).value);
    }
  }

  lemma {:induction false} StuckStays(s: Sys, events: seq<Event>, t: Sys, w: string, portable: Portable)
    requires Inv(s, portable) && Run(s, events, t, portable) && Stuck(s, w, portable)
    ensures Stuck(t, w, portable) && Remains(s, t, w)
    decreases |events|
  {
    hide Inv, CanHappen, Happen, Stuck;
    if events != [] {
      var u := Happen(s, events[0], portable);
      StepKeeps(s, events[0], portable);
      StepLeavesStuck(s, events[0], w, portable);
      StuckStays(u, events[1..], t, w, portable);
    }
  }

  lemma CreationIsStuck(s: Sys, p: Pid, portable: Portable)
    requires Inv(s, portable) && p in s.procs && s.procs[p].phase.Making?
    requires !MadeReclaimable(s, s.procs[p].phase)
    ensures Stuck(Crashed(s, p), s.procs[p].phase.w, portable)
  {
    hide Print, ReadRecord, Valid, ByteLength, Read, Good, Allows, Removable, MadeReclaimable, LocksOk, OwnedOk,
         DirsOk;
    var t, m := Crashed(s, p), s.procs[p].phase;
    assert PhaseOk(s, p, portable);
    CrashInCreation(s, p, portable);
    NobodyElseOwns(s, p, m.w, portable);
    OthersIdle(s, p);
    ReadElsewhere(s, t, portable);
  }

  /** After a crash in creation what can be reclaimed is disposed of, and all else stays for ever, but
      there is never plaintext in it. */
  lemma CrashInCreationIsSettled(s: Sys, p: Pid, events: seq<Event>, t: Sys, portable: Portable)
    requires Inv(s, portable) && p in s.procs && s.procs[p].phase.Making?
    requires Run(Crashed(s, p), events, t, portable)
    ensures var m := s.procs[p].phase;
            if MadeReclaimable(s, m) then
              NoIntruders(events) ==>
                GoneDuring(Crashed(s, p), events, m.w, portable) || BeingReclaimed(t, m.w)
                || Reclaimable(t, m.w, portable)
            else
              && m.w in t.owners && t.owners[m.w] == s.owners[m.w] && (m.w in t.dirs <==> m.w in s.dirs)
              && (m.w in t.dirs ==> NoPlaintext(t.dirs[m.w], m.record))
  {
    hide Inv, Run, Removable, GoneDuring, BeingReclaimed, Read, Crashed, MadeReclaimable, Stuck;
    var w := s.procs[p].phase.w;
    CrashKeeps(s, p, portable);
    CrashInCreation(s, p, portable);
    if MadeReclaimable(s, s.procs[p].phase) {
      if NoIntruders(events) { AbandonedUntilGone(Crashed(s, p), events, t, w, portable); }
    } else {
      CreationIsStuck(s, p, portable);
      StuckStays(Crashed(s, p), events, t, w, portable);
      RunKeeps(Crashed(s, p), events, t, portable);
      NoPlaintextAfter(s, p, t, portable);
    }
  }

  lemma NoPlaintextAfter(s: Sys, p: Pid, t: Sys, portable: Portable)
    requires Inv(s, portable) && p in s.procs && s.procs[p].phase.Making? && Inv(t, portable)
    requires Remains(Crashed(s, p), t, s.procs[p].phase.w) && !MadeReclaimable(s, s.procs[p].phase)
    ensures var m := s.procs[p].phase;
            && m.w in t.owners && t.owners[m.w] == s.owners[m.w] && (m.w in t.dirs <==> m.w in s.dirs)
            && (m.w in t.dirs ==> NoPlaintext(t.dirs[m.w], m.record))
  {
    hide Print, ReadRecord, Valid, ByteLength, Read, Good, Allows, SweepOk, LocksOk, OwnedOk, MadeReclaimable;
    var m := s.procs[p].phase;
    assert PhaseOk(s, p, portable);
    if m.w in t.dirs {
      ReadGood(s, m.w, m.record, portable);
      ReadSame(s, t, m.w, portable);
      assert DirOk(t.dirs[m.w], Read(t, m.w, portable));
    }
  }
}
