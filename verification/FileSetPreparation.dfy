/** Binding a staged file set: the record that commit later journals. */
module FileSetPreparation {
  import opened Options
  import opened Sequences
  import opened FileSetModel
  import opened FileSetNames
  import opened FileSetVolume
  import opened FileSetPublication
  import Lexicographic

  predicate SortedByName(ms: seq<Member>) {
    forall i, j | 0 <= i < j < |ms| :: NameAtMost(ms[i].name, ms[j].name)
  }

  method SortMembers(ms: seq<Member>) returns (r: seq<Member>)
    ensures SortedByName(r) && multiset(r) == multiset(ms)
  {
    var key := (m: Member) => Units(m.name);
    r := Lexicographic.SortBy(ms, key);
    forall i, j | 0 <= i < j < |r| ensures NameAtMost(r[i].name, r[j].name) {
      assert Lexicographic.AtMost(key(r[i]), key(r[j]));
      if Units(r[i].name) == Units(r[j].name) { UnitsInjective(r[i].name, r[j].name); }
    }
  }

  lemma SortedWithout(ms: seq<Member>, i: nat)
    requires SortedByName(ms) && i < |ms|
    ensures SortedByName(ms[..i] + ms[i + 1..])
    ensures multiset(ms[..i] + ms[i + 1..] + [ms[i]]) == multiset(ms)
  {
    hide NameLess;
    var rest := ms[..i] + ms[i + 1..];
    assert ms == ms[..i] + [ms[i]] + ms[i + 1..];
    forall k, l | 0 <= k < l < |rest| ensures NameAtMost(rest[k].name, rest[l].name) {
      var k' := if k < i then k else k + 1;
      var l' := if l < i then l else l + 1;
      assert NameAtMost(ms[k'].name, ms[l'].name);
    }
  }

  /** The members in publication order: sorted by name with the primary moved to the end. */
  method PublicationOrder(ms: seq<Member>, primary: Name) returns (r: seq<Member>)
    requires exists i :: 0 <= i < |ms| && ms[i].name == primary
    ensures multiset(r) == multiset(ms)
    ensures |r| > 0 && r[|r| - 1].name == primary && SortedByName(r[..|r| - 1])
  {
    hide SortedByName;
    var sorted := SortMembers(ms);
    ghost var p :| 0 <= p < |ms| && ms[p].name == primary;
    assert ms[p] in multiset(ms);
    assert ms[p] in sorted;
    var i := 0;
    while sorted[i].name != primary
      invariant 0 <= i < |sorted|
      invariant exists q :: i <= q < |sorted| && sorted[q].name == primary
      decreases |sorted| - i
    {
      i := i + 1;
    }
    SortedWithout(sorted, i);
    r := sorted[..i] + sorted[i + 1..] + [sorted[i]];
    assert r[..|r| - 1] == sorted[..i] + sorted[i + 1..];
  }

  /** What the directory shows for one staged member. */
  function Observed(d: Disk, holder: Name, name: Name): Option<Member> {
    var inside := Inside(d, holder);
    if name in inside && inside[name].kind.File? && inside[name].id in d.inodes
      && d.inodes[inside[name].id].content.Data?
    then Some(Member(name, inside[name].id, d.inodes[inside[name].id].state, d.inodes[inside[name].id].content.bytes))
    else None
  }

  /** Some world from index `since` on showed the staged member exactly as `m` records it. */
  ghost predicate SeenAs(ws: seq<World>, since: nat, holder: Name, m: Member) {
    exists j :: since <= j < |ws| && Observed(ws[j].live, holder, m.name) == Some(m)
  }

  lemma SeenLater(ws: seq<World>, later: seq<World>, since: nat, from': nat, holder: Name, m: Member)
    requires ws <= later && since <= from' && SeenAs(ws, from', holder, m)
    ensures SeenAs(later, since, holder, m)
  {
    var j :| from' <= j < |ws| && Observed(ws[j].live, holder, m.name) == Some(m);
    assert later[j] == ws[j];
  }

  lemma SeenNow(ws: seq<World>, since: nat, holder: Name, name: Name, m: Member)
    requires since < |ws| && Observed(ws[|ws| - 1].live, holder, name) == Some(m)
    ensures m.name == name && SeenAs(ws, since, holder, m)
  {
  }

  predicate Distinct(names: seq<Name>) {
    forall i, j | 0 <= i < j < |names| :: names[i] != names[j]
  }

  /** The directory states and requests that preparation accepts. */
  predicate Preparable(d: Disk, primary: Name, holder: Name, staged: seq<Name>) {
    && 0 < |staged| <= MAX_OUTPUT_SET_MEMBERS && Distinct(staged) && primary in staged
    && holder in d.parent && d.parent[holder].kind.Directory?
    && Inside(d, holder).Keys == (set n | n in staged)
    && forall i | 0 <= i < |staged| :: staged[i] !in d.parent && Observed(d, holder, staged[i]).Some?
  }

  /** The state and digest found while binding one staged file. */
  method BindMember(v: Volume, holder: Name, name: Name) returns (m: Result<Member>)
    requires v.Valid()
    modifies v
    ensures v.Valid() && old(v.history) <= v.history && v.stage == old(v.stage)
    ensures old(v.Tracked()) ==> v.Tracked()
    ensures m.Err? ==> m.error == OutputExists || m.error == Unsupported
    ensures m.Ok? ==> m.value.name == name && SeenAs(v.history, |old(v.history)|, holder, m.value)
    ensures v.quiet ==> v.live == old(v.live)
    ensures v.quiet ==> (m.Ok? <==> name !in v.live.parent && Observed(v.live, holder, name).Some?)
    ensures v.quiet && m.Ok? ==> Some(m.value) == Observed(v.live, holder, name)
    ensures v.quiet && m.Err? ==> m.error == if name in v.live.parent then OutputExists else Unsupported
  {
    hide Trace, Observed, SeenAs;
    v.Interfere();
    if name in v.live.parent { return Err(OutputExists); }
    v.Interfere();
    var seen := Observed(v.live, holder, name);
    if seen.None? { return Err(Unsupported); }
    SeenNow(v.history, |old(v.history)|, holder, name, seen.value);
    m := Ok(seen.value);
  }

  /** `bound` lists the staged files as the directory shows them, in request order. */
  predicate BoundAs(d: Disk, holder: Name, staged: seq<Name>, bound: seq<Member>) {
    |bound| == |staged| && forall k | 0 <= k < |staged| :: Observed(d, holder, staged[k]) == Some(bound[k])
  }

  /** `bound` lists the staged files in request order, each as some world showed it. */
  ghost predicate SeenAll(ws: seq<World>, since: nat, holder: Name, staged: seq<Name>, bound: seq<Member>) {
    |bound| == |staged| && forall k | 0 <= k < |staged| ::
      bound[k].name == staged[k] && SeenAs(ws, since, holder, bound[k])
  }

  lemma SeenNext(ws: seq<World>, later: seq<World>, since: nat, holder: Name, staged: seq<Name>, bound: seq<Member>)
    requires ws <= later && since <= |ws| && |bound| <= |staged| && 0 < |bound|
    requires SeenAll(ws, since, holder, staged[..|bound| - 1], bound[..|bound| - 1])
    requires bound[|bound| - 1].name == staged[|bound| - 1] && SeenAs(later, |ws|, holder, bound[|bound| - 1])
    ensures SeenAll(later, since, holder, staged[..|bound|], bound)
  {
    var n := |bound| - 1;
    forall k | 0 <= k <= n ensures bound[k].name == staged[k] && SeenAs(later, since, holder, bound[k]) {
      if k < n {
        assert bound[..n][k].name == staged[..n][k];
        SeenLater(ws, later, since, since, holder, bound[..n][k]);
      } else {
        SeenLater(later, later, since, |ws|, holder, bound[n]);
      }
    }
  }

  /** The first staged name that cannot be bound is the reason: it is repeated, taken, or no regular file. */
  predicate BindingFails(d: Disk, holder: Name, staged: seq<Name>, e: Error) {
    exists k | 0 <= k < |staged| :: FailsFirst(d, holder, staged, k) && e == FailureAt(d, staged, k)
  }

  predicate FailsFirst(d: Disk, holder: Name, staged: seq<Name>, k: nat)
    requires k < |staged|
  {
    && (staged[k] in staged[..k] || staged[k] in d.parent || Observed(d, holder, staged[k]).None?)
    && forall l | 0 <= l < k ::
         staged[l] !in staged[..l] && staged[l] !in d.parent && Observed(d, holder, staged[l]).Some?
  }

  function FailureAt(d: Disk, staged: seq<Name>, k: nat): (e: Error)
    requires k < |staged|
    ensures e == OutputExists <==> staged[k] !in staged[..k] && staged[k] in d.parent
    ensures e == OutputExists || e == Unsupported
  {
    if staged[k] !in staged[..k] && staged[k] in d.parent then OutputExists else Unsupported
  }

  lemma FailsAt(d: Disk, holder: Name, staged: seq<Name>, i: nat, e: Error)
    requires i < |staged| && (forall k, l | 0 <= k < l < i :: staged[k] != staged[l])
    requires forall k | 0 <= k < i :: staged[k] !in d.parent && Observed(d, holder, staged[k]).Some?
    requires if staged[i] in staged[..i] then e == Unsupported
             else if staged[i] in d.parent then e == OutputExists
             else Observed(d, holder, staged[i]).None? && e == Unsupported
    ensures BindingFails(d, holder, staged, e)
  {
    hide Observed;
    assert forall l | 0 <= l < i :: staged[l] !in staged[..l];
    assert FailsFirst(d, holder, staged, i);
  }

  /** Binds the staged files one by one and rejects repeated names. */
  method BindMembers(v: Volume, holder: Name, staged: seq<Name>) returns (bound: Result<seq<Member>>)
    requires v.Valid()
    modifies v
    ensures v.Valid() && old(v.history) <= v.history && v.stage == old(v.stage)
    ensures old(v.Tracked()) ==> v.Tracked()
    ensures bound.Ok? ==> Distinct(staged) && NamedAs(staged, bound.value)
    ensures bound.Ok? ==> SeenAll(v.history, |old(v.history)|, holder, staged, bound.value)
    ensures v.quiet ==> v.live == old(v.live)
    ensures v.quiet ==> (bound.Ok? <==> Distinct(staged) && forall k | 0 <= k < |staged| ::
              staged[k] !in v.live.parent && Observed(v.live, holder, staged[k]).Some?)
    ensures v.quiet && bound.Ok? ==> BoundAs(v.live, holder, staged, bound.value)
    ensures v.quiet && bound.Err? ==> BindingFails(v.live, holder, staged, bound.error)
    ensures bound.Err? ==> bound.error == OutputExists || bound.error == Unsupported
    ensures v.quiet && bound.Ok? ==> forall k | 0 <= k < |staged| ::
              staged[k] !in staged[..k] && staged[k] !in v.live.parent && Observed(v.live, holder, staged[k]).Some?
  {
    hide Trace, Observed, SeenAs, SeenAll;
    var ms: seq<Member> := [];
    var names: set<Name> := {};
    var i := 0;
    NothingSeen(v.history, holder, staged, ms);
    assert ms[..0] == ms;
    while i < |staged|
      invariant 0 <= i <= |staged| && |ms| == i
      invariant v.Valid() && old(v.history) <= v.history && v.stage == old(v.stage)
      invariant old(v.Tracked()) ==> v.Tracked()
      invariant SeenAll(v.history, |old(v.history)|, holder, staged[..i], ms)
      invariant forall n :: n in names <==> exists k :: 0 <= k < i && staged[k] == n
      invariant forall k, l | 0 <= k < l < i :: staged[k] != staged[l]
      invariant forall k | 0 <= k < i :: staged[k] !in staged[..k]
      invariant v.quiet ==> v.live == old(v.live)
      invariant v.quiet ==> forall k | 0 <= k < i ::
                  staged[k] !in v.live.parent && Observed(v.live, holder, staged[k]) == Some(ms[k])
    {
      if staged[i] in names {
        if v.quiet { FailsAt(v.live, holder, staged, i, Unsupported); }
        return Err(Unsupported);
      }
      ghost var seen := v.history;
      assert staged[i] !in staged[..i];
      var m := BindMember(v, holder, staged[i]);
      if m.Err? {
        if v.quiet { FailsAt(v.live, holder, staged, i, m.error); }
        return Err(m.error);
      }
      assert (ms + [m.value])[..i] == ms;
      ms, names := ms + [m.value], names + {staged[i]};
      SeenNext(seen, v.history, |old(v.history)|, holder, staged, ms);
      i := i + 1;
    }
    assert staged[..i] == staged;
    SeenByThen(v.history, v.history, |old(v.history)|, |old(v.history)|, holder, staged, ms);
    bound := Ok(ms);
  }

  /** Hashing: success means that every staged file was found once more exactly as bound. */
  method HashMembers(v: Volume, holder: Name, staged: seq<Name>, bound: seq<Member>) returns (ok: bool)
    requires v.Valid() && |bound| == |staged|
    modifies v
    ensures v.Valid() && old(v.history) <= v.history && v.stage == old(v.stage)
    ensures old(v.Tracked()) ==> v.Tracked()
    ensures ok ==> SeenAll(v.history, |old(v.history)|, holder, staged, bound)
    ensures v.quiet ==> v.live == old(v.live) && v.durable == old(v.durable)
    ensures v.quiet ==> (ok <==> BoundAs(v.live, holder, staged, bound))
  {
    hide Trace, Observed, SeenAs, SeenAll;
    var i := 0;
    NothingSeen(v.history, holder, staged, bound);
    while i < |staged|
      invariant 0 <= i <= |staged|
      invariant v.Valid() && old(v.history) <= v.history && v.stage == old(v.stage)
      invariant old(v.Tracked()) ==> v.Tracked()
      invariant SeenAll(v.history, |old(v.history)|, holder, staged[..i], bound[..i])
      invariant v.quiet ==> v.live == old(v.live) && v.durable == old(v.durable)
      invariant v.quiet ==> forall k | 0 <= k < i :: Observed(v.live, holder, staged[k]) == Some(bound[k])
    {
      ghost var seen := v.history;
      v.Interfere();
      if Observed(v.live, holder, staged[i]) != Some(bound[i]) { return false; }
      SeenNow(v.history, |seen|, holder, staged[i], bound[i]);
      assert bound[..i + 1][..i] == bound[..i];
      SeenNext(seen, v.history, |old(v.history)|, holder, staged, bound[..i + 1]);
      i := i + 1;
    }
    assert staged[..i] == staged && bound[..i] == bound;
    ok := true;
  }

  lemma SeenByThen(ws: seq<World>, later: seq<World>, since: nat, from': nat, holder: Name, staged: seq<Name>,
                   bound: seq<Member>)
    requires ws <= later && since <= from' && SeenAll(ws, from', holder, staged, bound)
    ensures |bound| == |staged| && forall k | 0 <= k < |staged| :: bound[k].name == staged[k]
    ensures forall m | m in bound :: m.name in staged && SeenAs(later, since, holder, m)
  {
    forall m | m in bound ensures m.name in staged && SeenAs(later, since, holder, m) {
      var k :| 0 <= k < |bound| && bound[k] == m;
      SeenLater(ws, later, since, from', holder, m);
    }
  }

  lemma NothingSeen(ws: seq<World>, holder: Name, staged: seq<Name>, bound: seq<Member>)
    ensures SeenAll(ws, |ws|, holder, staged[..0], bound[..0])
  {
  }

  /** What preparation established about `rec`, seen from the directory state. */
  ghost predicate PreparedFrom(d: Disk, rec: Record, staged: seq<Name>) {
    && |rec.members| == |staged|
    && Preparable(d, rec.primary, rec.holder, staged)
    && rec.version == JOURNAL_VERSION && d.parent[rec.holder] == Entry(Directory, rec.holderId)
    && (exists bound :: BoundAs(d, rec.holder, staged, bound) && multiset(rec.members) == multiset(bound))
    && rec.members[|staged| - 1].name == rec.primary
  }

  /** Hashing and the closing look at the staging directory. */
  method HashAndVerify(v: Volume, holder: Name, holderId: Id, staged: seq<Name>, bound: seq<Member>) returns (ok: bool)
    requires v.Valid() && |bound| == |staged|
    modifies v
    ensures v.Valid() && old(v.history) <= v.history && v.stage == old(v.stage)
    ensures old(v.Tracked()) ==> v.Tracked()
    ensures ok ==> forall m | m in bound :: m.name in staged && SeenAs(v.history, |old(v.history)|, holder, m)
    ensures v.quiet ==> v.live == old(v.live) && v.durable == old(v.durable)
    ensures v.quiet ==> (ok <==>
                         BoundAs(v.live, holder, staged, bound) && HolderHolds(v.live, holder, holderId, staged))
  {
    hide Trace, Observed, BoundAs, SeenAs, SeenAll, KeepsFiles, EnvOk, Inside, HolderHolds;
    ok := HashMembers(v, holder, staged, bound);
    if !ok { return false; }
    ghost var hashed := v.history;
    v.Interfere();
    ok := HolderHolds(v.live, holder, holderId, staged);
    if ok { SeenByThen(hashed, v.history, |old(v.history)|, |old(v.history)|, holder, staged, bound); }
  }

  predicate HolderHolds(d: Disk, holder: Name, holderId: Id, staged: seq<Name>) {
    && holder in d.parent && d.parent[holder] == Entry(Directory, holderId)
    && Inside(d, holder).Keys == (set n | n in staged)
  }

  /** `prepare_file_set_publication`. Undisturbed it accepts exactly the preparable requests
      and records every member as found, the primary last; whatever else happens, a recorded
      member was there as recorded at some moment. No directory entry is changed. */
  method Prepare(v: Volume, primary: Name, holder: Name, staged: seq<Name>) returns (r: Result<Record>)
    requires v.Valid()
    modifies v
    ensures v.Valid() && v.stage == old(v.stage)
    ensures old(v.Tracked()) ==> v.Tracked()
    ensures r.Ok? ==> IsRecordOf(r.value, primary, holder, staged)
    ensures r.Ok? ==> forall m | m in r.value.members ::
            m.name in staged && SeenAs(v.history, |old(v.history)|, holder, m)
    ensures v.quiet ==> v.live == old(v.live)
    ensures v.quiet ==> (r.Ok? <==> Preparable(v.live, primary, holder, staged))
    ensures v.quiet && r.Ok? ==> PreparedFrom(v.live, r.value, staged) && v.durable == v.live
    ensures |staged| > MAX_OUTPUT_SET_MEMBERS <==> r == Err(ResourceLimit)
    ensures v.quiet && 0 < |staged| <= MAX_OUTPUT_SET_MEMBERS && r.Err?
            && holder in v.live.parent && v.live.parent[holder].kind.Directory? ==>
              if forall k | 0 <= k < |staged| ::
                   staged[k] !in staged[..k] && staged[k] !in v.live.parent && Observed(v.live, holder, staged[k]).Some?
              then r.error == Unsupported
              else BindingFails(v.live, holder, staged, r.error)
  {
    hide Trace, Observed, SortedByName, Distinct, BoundAs, KeepsFiles, Settled, EnvOk, SeenAs, SeenAll, Inside,
         IsRecordOf;
    if |staged| == 0 { return Err(Unsupported); }
    if |staged| > MAX_OUTPUT_SET_MEMBERS { return Err(ResourceLimit); }
    v.Interfere();
    if holder !in v.live.parent || !v.live.parent[holder].kind.Directory? { return Err(Unsupported); }
    var holderId := v.live.parent[holder].id;
    var bound := BindMembers(v, holder, staged);
    if bound.Err? { return Err(bound.error); }
    if primary !in staged { return Err(Unsupported); }
    v.Interfere();
    if Inside(v.live, holder).Keys != (set n | n in staged) { return Err(Unsupported); }
    var ok := v.SyncParent();
    if !ok { return Err(BindingChanged); }
    ghost var binding := v.history;
    ok := HashAndVerify(v, holder, holderId, staged, bound.value);
    if !ok { return Err(BindingChanged); }
    var rec := AsRecord(primary, holder, holderId, staged, bound.value);
    forall m | m in rec.members ensures m.name in staged && SeenAs(v.history, |old(v.history)|, holder, m) {
      assert m in multiset(rec.members);
      SeenLater(v.history, v.history, |old(v.history)|, |binding|, holder, m);
    }
    return Ok(rec);
  }

  predicate IsRecordOf(rec: Record, primary: Name, holder: Name, staged: seq<Name>) {
    && rec.version == JOURNAL_VERSION && rec.primary == primary && rec.holder == holder
    && 0 < |rec.members| == |staged| <= MAX_OUTPUT_SET_MEMBERS
    && rec.members[|staged| - 1].name == primary && SortedByName(rec.members[..|staged| - 1])
  }

  method AsRecord(primary: Name, holder: Name, holderId: Id, staged: seq<Name>, bound: seq<Member>)
    returns (rec: Record)
    requires NamedAs(staged, bound) && primary in staged && |staged| <= MAX_OUTPUT_SET_MEMBERS
    ensures IsRecordOf(rec, primary, holder, staged) && rec.holderId == holderId
    ensures multiset(rec.members) == multiset(bound)
  {
    ghost var p :| 0 <= p < |staged| && staged[p] == primary;
    assert bound[p].name == primary;
    var ordered := PublicationOrder(bound, primary);
    assert |ordered| == |multiset(ordered)| == |multiset(bound)| == |staged|;
    rec := Record(JOURNAL_VERSION, primary, holder, holderId, ordered);
  }

  /** The journal's name and identity are free for `rec`, and its staging directory, being a
      directory, is none of its files. The files may have further links anywhere. */
  predicate JournalFits(d: Disk, rec: Record, journalId: Id) {
    && JournalName(rec.primary) != rec.holder && !JournalAt(d, rec.primary)
    && (JournalName(rec.primary) in d.parent ==> d.parent[JournalName(rec.primary)].id !in Mine(rec, journalId))
    && rec.holderId !in MemberIds(rec.members) && journalId !in MemberIds(rec.members) + {rec.holderId}
  }

  predicate NamedAs(staged: seq<Name>, bound: seq<Member>) {
    |bound| == |staged| && forall k | 0 <= k < |staged| :: bound[k].name == staged[k]
  }

  lemma FoundInBoth(ms: seq<Member>, bound: seq<Member>)
    requires multiset(ms) == multiset(bound)
    ensures forall i | 0 <= i < |ms| :: exists k :: 0 <= k < |bound| && bound[k] == ms[i]
    ensures forall k | 0 <= k < |bound| :: exists i :: 0 <= i < |ms| && ms[i] == bound[k]
  {
    forall i | 0 <= i < |ms| ensures exists k :: 0 <= k < |bound| && bound[k] == ms[i] {
      assert ms[i] in multiset(bound);
    }
    forall k | 0 <= k < |bound| ensures exists i :: 0 <= i < |ms| && ms[i] == bound[k] {
      assert bound[k] in multiset(ms);
    }
  }

  /** The record lists exactly the bound members, each once. */
  lemma NamesStayDistinct(ms: seq<Member>, staged: seq<Name>, bound: seq<Member>, i: nat, j: nat)
    requires Distinct(staged) && NamedAs(staged, bound) && multiset(ms) == multiset(bound) && i < j < |ms|
    ensures ms[i].name != ms[j].name
  {
    if ms[i].name == ms[j].name {
      assert ms[i] in multiset(bound) && ms[j] in multiset(bound);
      var k :| 0 <= k < |bound| && bound[k] == ms[i];
      var l :| 0 <= l < |bound| && bound[l] == ms[j];
      assert staged[k] == staged[l];
      assert k == l;
      TwiceInSeq(ms, i, j);
      CountOnce(bound, bound[k]);
    }
  }

  lemma MemberNamesAre(ms: seq<Member>, staged: seq<Name>, bound: seq<Member>)
    requires NamedAs(staged, bound) && multiset(ms) == multiset(bound)
    ensures MemberNames(ms) == set n | n in staged
  {
    forall n | n in staged ensures n in MemberNames(ms) {
      var k :| 0 <= k < |staged| && staged[k] == n;
      assert bound[k] in multiset(ms);
    }
    forall m | m in ms ensures m.name in staged { assert m in multiset(bound); }
  }

  predicate DistinctStaged(d: Disk, holder: Name, staged: seq<Name>)
    requires forall n | n in staged :: n in Inside(d, holder)
  {
    forall i, j | 0 <= i < j < |staged| :: Inside(d, holder)[staged[i]].id != Inside(d, holder)[staged[j]].id
  }

  /** A prepared set stands at the start of its chain, so every promise about runs applies
      to it, exactly when no two staged files are links to one file and none carries the
      journal's name. */
  lemma PreparedStartsChain(d: Disk, rec: Record, staged: seq<Name>, journalId: Id)
    requires PreparedFrom(d, rec, staged) && JournalFits(d, rec, journalId)
    ensures (WellFormed(rec, journalId) && Stage(rec, journalId, d, 0)) <==>
              JournalName(rec.primary) !in staged && DistinctStaged(d, rec.holder, staged)
  {
    var bound: seq<Member> :| BoundAs(d, rec.holder, staged, bound) && multiset(rec.members) == multiset(bound);
    BoundNames(d, rec.holder, staged, bound);
    MemberNamesAre(rec.members, staged, bound);
    if JournalName(rec.primary) !in staged && DistinctIds(bound) {
      StartsChain(d, rec, staged, bound, journalId);
    }
    if WellFormed(rec, journalId) {
      assert DistinctMembers(rec.members);
      IdsStayDistinct(bound, rec.members);
    }
  }

  lemma BoundNames(d: Disk, holder: Name, staged: seq<Name>, bound: seq<Member>)
    requires BoundAs(d, holder, staged, bound)
    ensures NamedAs(staged, bound)
    ensures forall k | 0 <= k < |staged| ::
              staged[k] in Inside(d, holder) && Inside(d, holder)[staged[k]] == Entry(File, bound[k].id)
              && StagedState(d, bound[k])
  {
    forall k | 0 <= k < |staged| ensures Observed(d, holder, staged[k]) == Some(bound[k]) {}
  }

  lemma IdsStayDistinct(ms: seq<Member>, other: seq<Member>)
    requires multiset(ms) == multiset(other) && DistinctIds(other)
    ensures DistinctIds(ms)
  {
    forall i, j | 0 <= i < j < |ms| ensures ms[i].id != ms[j].id {
      assert ms[i] in multiset(other) && ms[j] in multiset(other);
      var k :| 0 <= k < |other| && other[k] == ms[i];
      var l :| 0 <= l < |other| && other[l] == ms[j];
      if ms[i].id == ms[j].id {
        assert k == l;
        TwiceInSeq(ms, i, j);
        assert forall x, y | 0 <= x < y < |other| :: other[x] != other[y];
        CountOnce(other, other[k]);
      }
    }
  }

  lemma StartsChain(d: Disk, rec: Record, staged: seq<Name>, bound: seq<Member>, journalId: Id)
    requires PreparedFrom(d, rec, staged)
    requires BoundAs(d, rec.holder, staged, bound) && multiset(rec.members) == multiset(bound)
    requires JournalFits(d, rec, journalId) && JournalName(rec.primary) !in staged && DistinctIds(bound)
    ensures WellFormed(rec, journalId) && Stage(rec, journalId, d, 0)
  {
    var ms := rec.members;
    hide BoundAs, Observed;
    BoundNames(d, rec.holder, staged, bound);
    MemberNamesAre(ms, staged, bound);
    StartDistinct(ms, staged, bound);
    assert rec.holder !in staged;
    hide NamedAs, DistinctIds, StagedState, Inside, JournalAt;
    StartEntries(d, rec, staged, bound);
    StartListings(d, rec, journalId);
    hide Part, OwnParent, Staged, Mine;
    assert WellFormed(rec, journalId);
    hide WellFormed;
  }

  lemma StartDistinct(ms: seq<Member>, staged: seq<Name>, bound: seq<Member>)
    requires NamedAs(staged, bound) && multiset(ms) == multiset(bound) && DistinctIds(bound)
    requires forall i, j | 0 <= i < j < |staged| :: staged[i] != staged[j]
    ensures DistinctMembers(ms)
  {
    IdsStayDistinct(ms, bound);
    forall i, j | 0 <= i < j < |ms| ensures ms[i].name != ms[j].name { NamesStayDistinct(ms, staged, bound, i, j); }
  }

  lemma StartEntries(d: Disk, rec: Record, staged: seq<Name>, bound: seq<Member>)
    requires NamedAs(staged, bound) && multiset(rec.members) == multiset(bound)
    requires forall k | 0 <= k < |staged| ::
               staged[k] in Inside(d, rec.holder) && Inside(d, rec.holder)[staged[k]] == Entry(File, bound[k].id)
               && StagedState(d, bound[k])
    ensures forall i | 0 <= i < |rec.members| ::
              && rec.members[i].name in Inside(d, rec.holder)
              && Inside(d, rec.holder)[rec.members[i].name] == Entry(File, rec.members[i].id)
              && StagedState(d, rec.members[i])
  {
    FoundInBoth(rec.members, bound);
  }

  lemma StartListings(d: Disk, rec: Record, journalId: Id)
    requires DistinctMembers(rec.members) && JournalFits(d, rec, journalId)
    requires rec.holder in d.parent && d.parent[rec.holder] == Entry(Directory, rec.holderId)
    requires forall n | n in MemberNames(rec.members) :: n !in d.parent
    requires Inside(d, rec.holder).Keys == MemberNames(rec.members)
    requires forall i | 0 <= i < |rec.members| :: rec.members[i].name in Inside(d, rec.holder)
                                               && Inside(d, rec.holder)[rec.members[i].name]
                                                 == Entry(File, rec.members[i].id)
    ensures Part(Named(d.parent, OwnNames(rec)), Mine(rec, journalId)) == OwnParent(rec, journalId, 0)
    ensures Part(Inside(d, rec.holder), Mine(rec, journalId)) == Staged(rec.members, 0)
  {
    assert OwnParent(rec, journalId, 0) == map[rec.holder := Entry(Directory, rec.holderId)];
    OnlyHolderIsOwn(d, rec, journalId);
    hide OwnParent, Named, OwnNames, JournalFits;
    InsideIsStaged(Inside(d, rec.holder), rec.members);
    hide Staged;
    forall n | n in Inside(d, rec.holder) ensures Inside(d, rec.holder)[n].id in Mine(rec, journalId) {
      var m :| m in rec.members && m.name == n;
    }
  }

  lemma OnlyHolderIsOwn(d: Disk, rec: Record, journalId: Id)
    requires JournalFits(d, rec, journalId)
    requires rec.holder in d.parent && d.parent[rec.holder] == Entry(Directory, rec.holderId)
    requires forall n | n in MemberNames(rec.members) :: n !in d.parent
    ensures Part(Named(d.parent, OwnNames(rec)), Mine(rec, journalId))
            == map[rec.holder := Entry(Directory, rec.holderId)]
  {
  }

  lemma InsideIsStaged(inside: map<Name, Entry>, ms: seq<Member>)
    requires DistinctMembers(ms) && inside.Keys == MemberNames(ms)
    requires forall i | 0 <= i < |ms| :: ms[i].name in inside && inside[ms[i].name] == Entry(File, ms[i].id)
    ensures inside == Staged(ms, 0)
  {
    StagedAt(ms, 0);
    forall n | n in inside ensures n in Staged(ms, 0) && inside[n] == Staged(ms, 0)[n] {
      var m :| m in ms && m.name == n;
      var i :| 0 <= i < |ms| && ms[i] == m;
    }
    forall n | n in Staged(ms, 0) ensures n in inside {
      var i :| 0 <= i < |ms| && ms[i].name == n;
    }
  }
}
