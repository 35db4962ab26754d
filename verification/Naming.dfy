/** The automatic numbered name for a new archive, single or split into volumes. */
module Naming {
  import opened Options
  import opened AsciiText
  import opened SplitFamily

  const USIZE: nat := 0x1_0000_0000_0000_0000
  const MAX_DIRECTORY_SNAPSHOT_ENTRIES: nat := 200_000

  const COMPOUND_CREATE_EXTENSIONS: seq<string> := [".tar.gz", ".tar.bz2", ".tar.xz", ".tar.zst", ".tar.lz4", ".tar.br",
                                                    ".tar.lzma"]

  /** A file name: valid text, or other bytes with what is shown for them. */
  datatype Name = Text(text: string) | Raw(bytes: seq<int>, shown: string)

  function Shown(n: Name): string { if n.Text? then n.text else n.shown }

  /** `str::parse::<usize>` on a string of digits. */
  function Parse(s: string): Option<nat>
    requires AllDigits(s)
  {
    if s != "" && Value(s) < USIZE then Some(Value(s)) else None
  }

  // ----- searching from the right -----

  predicate PairAt(s: string, i: int) { 0 <= i < |s| - 1 && s[i] == ' ' && s[i + 1] == '(' }

  function LastPair(s: string): (r: Option<nat>)
    ensures r.Some? ==> PairAt(s, r.value) && forall j | r.value < j :: !PairAt(s, j)
    ensures r.None? ==> forall j :: !PairAt(s, j)
  {
    if |s| < 2 then None
    else if PairAt(s, |s| - 2) then Some(|s| - 2)
    else
      var r := LastPair(s[..|s| - 1]);
      assert forall j | j < |s| - 2 :: PairAt(s, j) <==> PairAt(s[..|s| - 1], j);
      r
  }

  // ----- names with a number -----

  predicate EndsWith(s: string, suffix: string) { |s| >= |suffix| && s[|s| - |suffix|..] == suffix }

  function CompoundSplit(name: string, extensions: seq<string>): Option<Parts>
    requires forall i | 0 <= i < |extensions| :: extensions[i] != ""
  {
    if extensions == [] then None
    else
      var suffix := extensions[0];
      if EndsWith(LowerAll(name), suffix) && |name| > |suffix|
      then Some(Parts(name[..|name| - |suffix|], Some(name[|name| - |suffix| + 1..])))
      else CompoundSplit(name, extensions[1..])
  }

  /** `create_destination_name_parts` */
  function NameParts(name: string): Parts {
    var compound := CompoundSplit(name, COMPOUND_CREATE_EXTENSIONS);
    if compound.Some? then compound.value else PlainSplit(name)
  }

  /** What follows the number. */
  function Tail(name: string): string {
    var extension := NameParts(name).extension;
    if extension.Some? && extension.value != "" then "." + extension.value else ""
  }

  /** `numbered_create_destination` */
  function Candidate(name: string, n: nat): string { NameParts(name).stem + " (" + Decimal(n) + ")" + Tail(name) }

  /** `numbered_create_destination_index` */
  function Index(name: string): Option<nat> {
    var close := LastIndexOf(name, ')');
    if close.None? then None else NumberBefore(name, close.value)
  }

  /** The number between the last opening parenthesis and the closing one at `close`. */
  function NumberBefore(name: string, close: nat): Option<nat>
    requires close < |name|
  {
    var suffix := name[close + 1..];
    if suffix != "" && suffix[0] != '.' then None
    else
      var open := LastPair(name[..close]);
      if open.None? then None else Number(name[open.value + 2..close])
  }

  function Number(digits: string): Option<nat> {
    if digits == "" || !AllDigits(digits) then None
    else
      var number := Parse(digits);
      if number.Some? && number.value >= 2 then number else None
  }

  lemma LastPairIs(s: string, i: nat)
    requires PairAt(s, i) && forall j | i < j :: !PairAt(s, j)
    ensures LastPair(s) == Some(i)
  {
  }

  /** A printed number is read back, unless the extension has a closing parenthesis. */
  lemma IndexOfCandidate(name: string, n: nat)
    requires 2 <= n < USIZE && ')' !in Tail(name)
    ensures Index(Candidate(name, n)) == Some(n)
  {
    hide NameParts, Decimal, AllDigits, Index, Value;
    ValueOfDecimal(n);
    IndexOfParts(NameParts(name).stem, Decimal(n), Tail(name));
  }

  lemma IndexOfParts(stem: string, digits: string, tail: string)
    requires digits != "" && AllDigits(digits) && ')' !in tail && (tail != "" ==> tail[0] == '.')
    ensures Index(stem + " (" + digits + ")" + tail) == Number(digits)
  {
    hide Number;
    var s, close := stem + " (" + digits + ")" + tail, |stem| + 2 + |digits|;
    forall j | close < j < |s| ensures s[j] != ')' { assert s[j] == tail[j - close - 1]; }
    LastIndexIs(s, ')', close);
    assert s[close + 1..] == tail;
    var front := stem + " (" + digits;
    assert s[..close] == front;
    PairThenDigits(stem, digits);
    assert s[|stem| + 2..close] == digits;
  }

  lemma PairThenDigits(stem: string, digits: string)
    requires AllDigits(digits)
    ensures LastPair(stem + " (" + digits) == Some(|stem|)
  {
    hide LastPair, PairAt, AllDigits;
    var front := stem + " (" + digits;
    forall j | |stem| < j ensures !PairAt(front, j) { NoPairInDigits(stem, digits, j); }
    assert PairAt(front, |stem|) by { PairAfterStem(stem, digits); }
    LastPairIs(front, |stem|);
  }

  lemma PairAfterStem(stem: string, digits: string)
    ensures PairAt(stem + " (" + digits, |stem|)
  {
  }

  lemma NoPairInDigits(stem: string, digits: string, j: int)
    requires AllDigits(digits) && |stem| < j
    ensures !PairAt(stem + " (" + digits, j)
  {
    var front := stem + " (" + digits;
    if |stem| + 2 <= j < |front| {
      var c := digits[j - |stem| - 2];
      assert front[j] == c && IsDigit(c);
    }
  }

  /** With a closing parenthesis in the extension, what is read does not depend on the number. */
  lemma IndexIgnoresNumber(name: string, n: nat, m: nat)
    requires ')' in Tail(name)
    ensures Index(Candidate(name, n)) == Index(Candidate(name, m))
  {
    hide NameParts, Decimal, Index;
    IndexInTail(NameParts(name).stem + " (" + Decimal(n), Tail(name));
    IndexInTail(NameParts(name).stem + " (" + Decimal(m), Tail(name));
  }

  lemma IndexInTail(front: string, tail: string)
    requires ')' in tail
    ensures Index(front + ")" + tail) == Index(tail)
  {
    hide Number, LastIndexOf, LastPair;
    var head := front + ")";
    var c := LastIndexOf(tail, ')').value;
    var s, close := head + tail, |head| + c;
    forall j | close < j < |s| ensures s[j] != ')' { assert s[j] == tail[j - |head|]; }
    LastIndexIs(s, ')', close);
    assert s[close + 1..] == tail[c + 1..];
    assert s[..close] == head + tail[..c];
    PairBeyond(head, tail[..c]);
    var open := LastPair(tail[..c]);
    if open.Some? {
      assert s[|head| + open.value + 2..close] == tail[open.value + 2..c];
    } else if LastPair(s[..close]).Some? {
      NotANumber(s, LastPair(s[..close]).value + 2, |head| - 1, close);
    }
  }

  lemma NotANumber(s: string, from: nat, at: nat, to: nat)
    requires from <= at < to <= |s| && s[at] == ')'
    ensures Number(s[from..to]).None?
  {
    assert s[from..to][at - from] == ')';
  }

  lemma PairBeyond(head: string, tail: string)
    requires head != "" && head[|head| - 1] == ')'
    ensures LastPair(tail).Some? ==> LastPair(head + tail) == Some(|head| + LastPair(tail).value)
    ensures LastPair(tail).None? && LastPair(head + tail).Some? ==> LastPair(head + tail).value + 2 < |head|
  {
    hide LastPair;
    var s := head + tail;
    forall j: int | j >= |head| - 2 ensures PairAt(s, j) <==> PairAt(tail, j - |head|) {
      assert s[|head| - 1] == ')';
      if j >= |head| && j < |s| - 1 { assert s[j] == tail[j - |head|] && s[j + 1] == tail[j + 1 - |head|]; }
    }
    if LastPair(tail).Some? {
      var i := |head| + LastPair(tail).value;
      assert PairAt(s, i);
      LastPairIs(s, i);
    }
  }

  // ----- names that differ in ASCII case -----

  lemma LowerIndexOf(s: string, c: char)
    requires Lower(c) == c && !('a' <= c <= 'z')
    ensures LastIndexOf(LowerAll(s), c) == LastIndexOf(s, c)
  {
    var l := LowerAll(s);
    assert forall i | 0 <= i < |s| :: l[i] == c <==> s[i] == c;
    var r := LastIndexOf(l, c);
    if r.Some? { LastIndexIs(s, c, r.value); } else { assert c !in s; }
  }

  lemma LowerPair(s: string)
    ensures LastPair(LowerAll(s)) == LastPair(s)
  {
    var l := LowerAll(s);
    assert forall i :: PairAt(l, i) <==> PairAt(s, i);
    var r := LastPair(l);
    if r.Some? { LastPairIs(s, r.value); }
  }

  /** The number of a name does not depend on the case of its letters. */
  lemma IndexIgnoresCase(s: string)
    ensures Index(LowerAll(s)) == Index(s)
  {
    hide Number, LowerAll;
    var l := LowerAll(s);
    LowerIndexOf(s, ')');
    var close := LastIndexOf(s, ')');
    if close.Some? {
      LowerSlice(s, 0, close.value);
      LowerSlice(s, close.value + 1, |s|);
      LowerPair(s[..close.value]);
      var open := LastPair(s[..close.value]);
      if open.Some? {
        LowerSlice(s, open.value + 2, close.value);
        LowerNumber(s[open.value + 2..close.value]);
      }
    }
  }

  lemma LowerSlice(s: string, from: nat, to: nat)
    requires from <= to <= |s|
    ensures LowerAll(s)[from..to] == LowerAll(s[from..to])
    ensures from == 0 ==> LowerAll(s)[..to] == LowerAll(s[..to])
    ensures to == |s| ==> LowerAll(s)[from..] == LowerAll(s[from..])
    ensures from < to ==> (LowerAll(s)[from] == '.' <==> s[from] == '.')
  {
    assert to == |s| ==> s[from..] == s[from..to] && LowerAll(s)[from..] == LowerAll(s)[from..to];
    assert from == 0 ==> s[..to] == s[from..to] && LowerAll(s)[..to] == LowerAll(s)[from..to];
  }

  lemma LowerNumber(d: string)
    ensures Number(LowerAll(d)) == Number(d)
  {
    LowerDigits(d);
  }

  lemma LowerDigits(d: string)
    ensures AllDigits(LowerAll(d)) <==> AllDigits(d)
    ensures AllDigits(d) ==> LowerAll(d) == d
  {
    assert forall i | 0 <= i < |d| :: IsDigit(Lower(d[i])) <==> IsDigit(d[i]);
    if AllDigits(LowerAll(d)) {
      forall i | 0 <= i < |d| ensures IsDigit(d[i]) { assert IsDigit(LowerAll(d)[i]); }
    }
  }

  // ----- where the number goes -----

  /** A compressed tar archive keeps both its extensions after the number, in any letter case. */
  lemma CompoundKept(stem: string, ext: string, n: nat)
    requires stem != ""
    requires LowerAll(ext) in {".tar.gz", ".tar.bz2", ".tar.xz", ".tar.zst", ".tar.lz4", ".tar.br", ".tar.lzma"}
    ensures Candidate(stem + ext, n) == stem + " (" + Decimal(n) + ")" + ext
  {
    hide Decimal, PlainSplit, LowerAll, CompoundSplit, EndsWith;
    var name := stem + ext;
    LowerOfBoth(stem, ext);
    forall i | 0 <= i < |COMPOUND_CREATE_EXTENSIONS| && COMPOUND_CREATE_EXTENSIONS[i] != LowerAll(ext)
      ensures !EndsWith(LowerAll(name), COMPOUND_CREATE_EXTENSIONS[i])
    {
      NotBothEnd(LowerAll(name), LowerAll(ext), COMPOUND_CREATE_EXTENSIONS[i]);
    }
    CompoundFound(name, stem, ext, COMPOUND_CREATE_EXTENSIONS);
    DotFirst(ext);
  }

  lemma LowerOfBoth(stem: string, ext: string)
    ensures LowerAll(stem + ext)[|stem|..] == LowerAll(ext) && EndsWith(LowerAll(stem + ext), LowerAll(ext))
  {
    var l := LowerAll(stem + ext);
    forall i | 0 <= i < |ext| ensures l[|stem|..][i] == LowerAll(ext)[i] { assert (stem + ext)[|stem| + i] == ext[i]; }
    assert l[|stem|..] == LowerAll(ext);
  }

  lemma DotFirst(ext: string)
    requires LowerAll(ext) != "" && LowerAll(ext)[0] == '.'
    ensures ext != "" && ext == "." + ext[1..]
  {
    assert LowerAll(ext)[0] == Lower(ext[0]);
  }

  predicate TarExtension(e: string) { 7 <= |e| <= 9 && e[..5] == ".tar." }

  lemma NotBothEnd(s: string, a: string, b: string)
    requires TarExtension(a) && TarExtension(b) && a != b && EndsWith(s, a)
    ensures !EndsWith(s, b)
  {
    if |a| < |b| {
      assert b[|b| - |a|] == b[..5][|b| - |a|] && a[0] == a[..5][0];
      assert |s| >= |b| ==> s[|s| - |b|..][|b| - |a|] == s[|s| - |a|..][0];
    } else if |b| < |a| {
      assert a[|a| - |b|] == a[..5][|a| - |b|] && b[0] == b[..5][0];
      assert s[|s| - |a|..][|a| - |b|] == s[|s| - |b|..][0];
    }
  }

  /** Of extensions none of which ends another, the one a name has is split off. */
  lemma {:induction false} CompoundFound(name: string, stem: string, ext: string, extensions: seq<string>)
    requires forall i | 0 <= i < |extensions| :: |extensions[i]| > 1
    requires forall i | 0 <= i < |extensions| && extensions[i] != LowerAll(ext) ::
               !EndsWith(LowerAll(name), extensions[i])
    requires name == stem + ext && stem != "" && LowerAll(ext) in extensions
    requires LowerAll(name)[|stem|..] == LowerAll(ext)
    ensures CompoundSplit(name, extensions) == Some(Parts(stem, Some(ext[1..])))
  {
    if extensions[0] == LowerAll(ext) {
      assert name[..|stem|] == stem && name[|stem| + 1..] == ext[1..];
    } else {
      CompoundFound(name, stem, ext, extensions[1..]);
    }
  }

  /** Any other name keeps what follows its last dot, and a name without one gets the number at its end. */
  lemma PlainKept(stem: string, ext: string, n: nat)
    requires stem != "" && '.' !in ext && ext != ""
    requires forall i | 0 <= i < |COMPOUND_CREATE_EXTENSIONS| ::
               !EndsWith(LowerAll(stem + "." + ext), COMPOUND_CREATE_EXTENSIONS[i])
    ensures Candidate(stem + "." + ext, n) == stem + " (" + Decimal(n) + ")" + "." + ext
  {
    hide Decimal, LowerAll, EndsWith, CompoundSplit, PlainSplit;
    var name := stem + "." + ext;
    NoCompound(name, COMPOUND_CREATE_EXTENSIONS);
    PartsOf(stem, ext);
  }

  lemma NoDotKept(name: string, n: nat)
    requires '.' !in name
    ensures Candidate(name, n) == name + " (" + Decimal(n) + ")"
  {
    hide Decimal;
    forall i | 0 <= i < |COMPOUND_CREATE_EXTENSIONS| ensures !EndsWith(LowerAll(name), COMPOUND_CREATE_EXTENSIONS[i]) {
      var e := COMPOUND_CREATE_EXTENSIONS[i];
      assert forall j | 0 <= j < |name| :: LowerAll(name)[j] != '.';
      assert |name| >= |e| ==> LowerAll(name)[|name| - |e|..][0] != e[0];
    }
    NoCompound(name, COMPOUND_CREATE_EXTENSIONS);
  }

  lemma {:induction false} NoCompound(name: string, extensions: seq<string>)
    requires forall i | 0 <= i < |extensions| :: extensions[i] != "" && !EndsWith(LowerAll(name), extensions[i])
    ensures CompoundSplit(name, extensions) == None
  {
    if extensions != [] { NoCompound(name, extensions[1..]); }
  }

  // ----- the search -----

  /** Whether an existing entry occupies a name. */
  type Match = (Name, Name) -> bool

  datatype Kind = Single | Split

  /** `normalized_destination`: a split archive is named by its base, not by one of its volumes. */
  function NumberingBase(kind: Kind, name: string): string {
    if kind.Split? && SplitBase(name).Some? then SplitBase(name).value else name
  }

  predicate IsSqz(base: string) { HasExtension(base, "sqz") }

  /** The entry occupies the destination, or a member of its split family. */
  predicate TakenBy(kind: Kind, destination: Name, e: Name, occupies: Match) {
    if kind.Single? || destination.Raw? then occupies(destination, e)
    else
      var base := NumberingBase(kind, destination.text);
      occupies(Text(base), e) || OccupiesMember(base, base, e, occupies)
  }

  /** The entry occupies the file of the family of `candidate` that it looks like. */
  predicate OccupiesMember(base: string, candidate: string, e: Name, occupies: Match) {
    e.Text? && Member(candidate, e.text, IsSqz(base)).Some?
    && occupies(Text(Member(candidate, e.text, IsSqz(base)).value), e)
  }

  /** `has_conflict_with` */
  predicate Taken(kind: Kind, destination: Name, entries: seq<Name>, occupies: Match) {
    exists e | e in entries :: TakenBy(kind, destination, e, occupies)
  }

  /** The single pass over the snapshot collects the number `n` from the entry. */
  predicate Collects(kind: Kind, base: string, e: Name, occupies: Match, n: nat) {
    e.Text? &&
    (|| (Index(e.text) == Some(n) && occupies(Text(Candidate(base, n)), e))
     || (kind.Split? && ManagedBase(e.text, IsSqz(base)).Some?
         && Index(ManagedBase(e.text, IsSqz(base)).value) == Some(n)
         && OccupiesMember(base, Candidate(base, n), e, occupies)))
  }

  predicate Occupied(kind: Kind, base: string, entries: seq<Name>, occupies: Match, n: nat) {
    exists e | e in entries :: Collects(kind, base, e, occupies, n)
  }

  /** The single pass finds in each entry what probing the candidates would find. */
  ghost predicate PassAgrees(kind: Kind, base: string, entries: seq<Name>, occupies: Match) {
    forall n: nat, e | 2 <= n < USIZE && e in entries ::
      TakenBy(kind, Text(Candidate(base, n)), e, occupies) <==> Collects(kind, base, e, occupies, n)
  }

  /** A volume suffix does not change the number of a name. */
  lemma ManagedIndex(name: string, recovery: bool)
    ensures ManagedBase(name, recovery).Some? ==> Index(name) == Index(ManagedBase(name, recovery).value)
  {
    hide ManagedBase, Number;
    ManagedIsPrefix(name, recovery);
    if ManagedBase(name, recovery).Some? { SuffixKeepsIndex(ManagedBase(name, recovery).value, Suffix(name)); }
  }

  lemma SuffixKeepsIndex(base: string, suffix: string)
    requires suffix != "" && suffix[0] == '.' && ')' !in suffix
    ensures Index(base + suffix) == Index(base)
  {
    hide Number, LastPair;
    var s, close := base + suffix, LastIndexOf(base, ')');
    if close.Some? {
      forall j | close.value < j < |s| ensures s[j] != ')' {
        assert s[j] == if j < |base| then base[j] else suffix[j - |base|];
      }
      LastIndexIs(s, ')', close.value);
      assert s[close.value + 1..] == base[close.value + 1..] + suffix;
      assert s[..close.value] == base[..close.value];
      var open := LastPair(base[..close.value]);
      if open.Some? { assert s[open.value + 2..close.value] == base[open.value + 2..close.value]; }
    }
  }

  /** Each entry gives at most one number, its own. */
  lemma CollectsOwnNumber(kind: Kind, base: string, e: Name, occupies: Match, n: nat)
    requires Collects(kind, base, e, occupies, n)
    ensures e.Text? && Index(e.text) == Some(n)
  {
    hide Index, Candidate, Member;
    ManagedIndex(e.text, IsSqz(base));
  }

  method NumberedConflicts(kind: Kind, base: string, entries: seq<Name>, occupies: Match) returns (occupied: set<nat>)
    ensures forall n :: n in occupied <==> Occupied(kind, base, entries, occupies, n)
    ensures |occupied| <= |entries|
  {
    hide Candidate, Index, ManagedBase, Member, OccupiesMember, Collects;
    occupied := {};
    var recovery := IsSqz(base);
    var i := 0;
    while i < |entries|
      invariant 0 <= i <= |entries| && |occupied| <= i
      invariant forall n :: n in occupied <==> Occupied(kind, base, entries[..i], occupies, n)
    {
      var e := entries[i];
      ghost var before := occupied;
      if e.Text? {
        var number := NumberOf(kind, base, recovery, e, occupies);
        if number.Some? { occupied := occupied + {number.value}; }
      } else {
        NoText(kind, base, e, occupies);
      }
      assert entries[..i + 1] == entries[..i] + [e];
      forall n ensures n in occupied <==> Occupied(kind, base, entries[..i + 1], occupies, n) {
        if Occupied(kind, base, entries[..i], occupies, n) {
          var d :| d in entries[..i] && Collects(kind, base, d, occupies, n);
          assert d in entries[..i + 1];
        }
        assert e in entries[..i + 1];
      }
      i := i + 1;
    }
    assert entries[..|entries|] == entries;
  }

  lemma NoText(kind: Kind, base: string, e: Name, occupies: Match)
    requires e.Raw?
    ensures forall n :: !Collects(kind, base, e, occupies, n)
  {
  }

  /** What one entry gives: first by its own name, then as a volume. */
  method NumberOf(kind: Kind, base: string, recovery: bool, e: Name, occupies: Match) returns (r: Option<nat>)
    requires e.Text? && recovery == IsSqz(base)
    ensures forall n: nat :: Collects(kind, base, e, occupies, n) <==> r == Some(n)
  {
    hide Candidate, Index, ManagedBase, Member, IsSqz;
    ManagedIndex(e.text, recovery);
    r := None;
    var number := Index(e.text);
    if number.Some? && occupies(Text(Candidate(base, number.value)), e) { r := number; }
    if kind.Single? { return; }
    var managed := ManagedBase(e.text, recovery);
    if managed.None? { return; }
    number := Index(managed.value);
    if number.None? { return; }
    var expected := Member(Candidate(base, number.value), e.text, recovery);
    if expected.Some? && occupies(Text(expected.value), e) { r := number; }
  }

  datatype Found =
    Requested | Numbered(number: nat, name: string) | SnapshotTooLarge | SuffixesExhausted | UnsupportedName

  /** `find_available_create_destination`. The one pass agrees with probing every candidate in
      turn whenever it finds in each entry what probing would find. */
  method FindAvailable(kind: Kind, requested: Name, entries: seq<Name>, occupies: Match) returns (r: Found)
    ensures r.UnsupportedName? <==> kind.Split? && requested.Raw?
    ensures r.SnapshotTooLarge? <==> !r.UnsupportedName? && |entries| > MAX_DIRECTORY_SNAPSHOT_ENTRIES
    ensures !r.UnsupportedName? && !r.SnapshotTooLarge? ==>
              (r.Requested? <==> !Taken(kind, requested, entries, occupies))
    ensures !r.SuffixesExhausted?
    ensures r.Numbered? ==>
              var base := NumberingBase(kind, Shown(requested));
              && 2 <= r.number <= |entries| + 2 && r.name == Candidate(base, r.number)
              && IsFirstFree(kind, base, entries, occupies, r.number)
    ensures r.Numbered? && PassAgrees(kind, NumberingBase(kind, Shown(requested)), entries, occupies) ==>
              var base := NumberingBase(kind, Shown(requested));
              && !Taken(kind, Text(r.name), entries, occupies)
              && forall n: nat | 2 <= n < r.number :: Taken(kind, Text(Candidate(base, n)), entries, occupies)
  {
    hide Candidate, Index, Occupied, Taken, PassAgrees, NumberingBase;
    if kind.Split? && requested.Raw? { return UnsupportedName; }
    if |entries| > MAX_DIRECTORY_SNAPSHOT_ENTRIES { return SnapshotTooLarge; }
    var taken := AnyOccupies(kind, requested, entries, occupies);
    if !taken { return Requested; }
    var base := NumberingBase(kind, Shown(requested));
    var occupied := NumberedConflicts(kind, base, entries, occupies);
    var number := 2;
    while number in occupied
      invariant 2 <= number && number - 2 <= |occupied| && (forall n: nat | 2 <= n < number :: n in occupied)
      decreases |occupied| + 2 - number
    {
      RunBound(occupied, number + 1);
      if number + 1 >= USIZE { return SuffixesExhausted; }
      number := number + 1;
    }
    r := Numbered(number, Candidate(base, number));
    RunBound(occupied, number);
    if PassAgrees(kind, base, entries, occupies) { FirstFreeIsFree(kind, base, entries, occupies, number); }
  }

  /** The least number from 2 up that the single pass did not collect. */
  predicate IsFirstFree(kind: Kind, base: string, entries: seq<Name>, occupies: Match, n: nat) {
    n >= 2 && !Occupied(kind, base, entries, occupies, n) && forall m: nat | 2 <= m < n ::
      Occupied(kind, base, entries, occupies, m)
  }

  method AnyOccupies(kind: Kind, name: Name, entries: seq<Name>, occupies: Match) returns (taken: bool)
    ensures taken <==> Taken(kind, name, entries, occupies)
  {
    hide TakenBy;
    var i := 0;
    while i < |entries|
      invariant 0 <= i <= |entries| && forall k | 0 <= k < i :: !TakenBy(kind, name, entries[k], occupies)
    {
      if TakenBy(kind, name, entries[i], occupies) { return true; }
      i := i + 1;
    }
    taken := false;
  }

  /** A set that holds 2, 3, ..., n-1 has at least n-2 elements. */
  lemma {:induction false} RunBound(s: set<nat>, n: nat)
    requires n >= 2 && forall m: nat | 2 <= m < n :: m in s
    ensures n - 2 <= |s|
  {
    if n > 2 {
      RunBound(s - {n - 1}, n - 1);
    }
  }

  lemma FirstFreeIsFree(kind: Kind, base: string, entries: seq<Name>, occupies: Match, n: nat)
    requires IsFirstFree(kind, base, entries, occupies, n) && n < USIZE && PassAgrees(kind, base, entries, occupies)
    ensures !Taken(kind, Text(Candidate(base, n)), entries, occupies)
    ensures forall m: nat | 2 <= m < n :: Taken(kind, Text(Candidate(base, m)), entries, occupies)
  {
    hide Candidate, Index, TakenBy, Collects;
    forall m: nat | 2 <= m < n ensures Taken(kind, Text(Candidate(base, m)), entries, occupies) {
      assert Occupied(kind, base, entries, occupies, m);
    }
  }

  // ----- when the pass agrees with probing -----

  /** Names are compared exactly. */
  predicate Exactly(c: Name, e: Name) { c == e }

  /** Names are compared up to ASCII case, as on a case-insensitive file system. */
  predicate UpToCase(c: Name, e: Name) { c.Text? && e.Text? && LowerAll(c.text) == LowerAll(e.text) }

  /** Only names that are equal up to ASCII case occupy one another. */
  ghost predicate AtMostUpToCase(occupies: Match) {
    forall c: Name, e | c.Text? && occupies(c, e) :: UpToCase(c, e)
  }

  /** The extension has no closing parenthesis; a split base does not look like a volume, and has no
      extension with native parts. */
  predicate Orderly(kind: Kind, base: string) {
    && ')' !in Tail(base)
    && (kind.Split? ==> SplitBase(base).None? && !HasExtension(base, "zip") && !HasExtension(base, "swm"))
  }

  lemma TailEnds(base: string)
    ensures Tail(base) != "" ==> Tail(base)[0] == '.' && base == NameParts(base).stem + Tail(base)
                                 && NameParts(base).stem != ""
    ensures Tail(base) == "" ==> PlainSplit(base).extension.None? || PlainSplit(base).extension == Some("")
    ensures |base| <= |NameParts(base).stem| + |Tail(base)| + 1
  {
    hide CompoundSplit, PlainSplit, LowerAll;
    CompoundEnds(base, COMPOUND_CREATE_EXTENSIONS);
    PlainEnds(base);
    var parts := NameParts(base);
    if parts.extension.Some? && parts.extension.value != "" {
      assert parts.stem + "." + parts.extension.value == parts.stem + ("." + parts.extension.value);
    }
  }

  lemma PlainEnds(name: string)
    ensures var r := PlainSplit(name);
            if r.extension.Some? then r.stem != "" && name == r.stem + "." + r.extension.value else r.stem == name
  {
  }

  lemma {:induction false} CompoundEnds(name: string, extensions: seq<string>)
    requires forall i | 0 <= i < |extensions| :: |extensions[i]| > 1 && extensions[i][0] == '.'
    ensures var r := CompoundSplit(name, extensions);
            r.Some? ==> r.value.extension.Some? && r.value.stem != "" && r.value.extension.value != ""
                        && name == r.value.stem + "." + r.value.extension.value
  {
    if extensions != [] {
      var suffix := extensions[0];
      if EndsWith(LowerAll(name), suffix) && |name| > |suffix| {
        var cut := |name| - |suffix|;
        assert Lower(name[cut]) == LowerAll(name)[cut..][0] == '.';
        assert name == name[..cut] + [name[cut]] + name[cut + 1..];
      } else {
        CompoundEnds(name, extensions[1..]);
      }
    }
  }

  /** A candidate looks like a volume, and has an extension, exactly when its base does. */
  lemma CandidateLooks(base: string, n: nat)
    ensures SplitBase(Candidate(base, n)).Some? <==> SplitBase(base).Some?
    ensures forall extension | ')' !in extension && extension != "" ::
              HasExtension(Candidate(base, n), extension) <==> HasExtension(base, extension)
  {
    hide NameParts, CompoundSplit;
    TailEnds(base);
    var front := NameParts(base).stem + " (" + Decimal(n) + ")";
    if Tail(base) != "" {
      SameSuffix(front, NameParts(base).stem, Tail(base));
    } else {
      assert Candidate(base, n) == front;
      ClosedName(front);
      NoExtension(base);
    }
  }

  lemma NoExtension(base: string)
    requires PlainSplit(base).extension.None? || PlainSplit(base).extension == Some("")
    ensures SplitBase(base).None? && forall extension | extension != "" :: !HasExtension(base, extension)
  {
  }

  /** What probing an orderly candidate asks of an entry. */
  lemma ProbeOrderly(kind: Kind, base: string, n: nat, e: Name, occupies: Match)
    requires Orderly(kind, base)
    ensures TakenBy(kind, Text(Candidate(base, n)), e, occupies) <==>
              || occupies(Text(Candidate(base, n)), e)
              || (kind.Split? && OccupiesMember(base, Candidate(base, n), e, occupies))
    ensures kind.Split? && OccupiesMember(base, Candidate(base, n), e, occupies) ==>
              || occupies(Text(Candidate(base, n)), e)
              || (ManagedBase(e.text, IsSqz(base)).Some? && occupies(Text(Candidate(base, n) + Suffix(e.text)), e))
  {
    hide Candidate, Member, ManagedBase, Suffix, Tail;
    CandidateLooks(base, n);
    if e.Text? && kind.Split? { PlainMember(Candidate(base, n), e.text, IsSqz(base)); }
  }

  lemma SameLetters(a: string, b: string, suffix: string)
    requires LowerAll(a + suffix) == LowerAll(b + suffix)
    ensures LowerAll(a) == LowerAll(b)
  {
    var l, m := LowerAll(a + suffix), LowerAll(b + suffix);
    assert |a| == |b|;
    forall i | 0 <= i < |a| ensures LowerAll(a)[i] == LowerAll(b)[i] { assert l[i] == m[i]; }
  }

  /** For an orderly base the one pass agrees with probing. */
  lemma OrderlyPassAgrees(kind: Kind, base: string, entries: seq<Name>, occupies: Match)
    requires Orderly(kind, base) && AtMostUpToCase(occupies)
    ensures PassAgrees(kind, base, entries, occupies)
  {
    hide Candidate, Index, TakenBy, OccupiesMember, Orderly, Collects;
    forall n: nat, e | 2 <= n < USIZE && e in entries
      ensures TakenBy(kind, Text(Candidate(base, n)), e, occupies) <==> Collects(kind, base, e, occupies, n)
    {
      ProbeOrderly(kind, base, n, e, occupies);
      ProbedIsCollected(kind, base, n, e, occupies);
    }
  }

  lemma ProbedIsCollected(kind: Kind, base: string, n: nat, e: Name, occupies: Match)
    requires Orderly(kind, base) && AtMostUpToCase(occupies) && 2 <= n < USIZE
    ensures occupies(Text(Candidate(base, n)), e)
            || (kind.Split? && OccupiesMember(base, Candidate(base, n), e, occupies))
            <==> Collects(kind, base, e, occupies, n)
  {
    hide Candidate, Index, Member, ManagedBase, Tail;
    var candidate := Candidate(base, n);
    IndexOfCandidate(base, n);
    IndexIgnoresCase(candidate);
    ProbeOrderly(kind, base, n, e, occupies);
    if occupies(Text(candidate), e) {
      IndexIgnoresCase(e.text);
    } else if kind.Split? && OccupiesMember(base, candidate, e, occupies) {
      var managed := ManagedBase(e.text, IsSqz(base)).value;
      ManagedIsPrefix(e.text, IsSqz(base));
      assert UpToCase(Text(candidate + Suffix(e.text)), e);
      SameLetters(candidate, managed, Suffix(e.text));
      IndexIgnoresCase(managed);
    }
  }

  /** In particular under exact and under ASCII-case-insensitive comparison. */
  lemma CaseKeepsNumber(kind: Kind, base: string, entries: seq<Name>)
    requires Orderly(kind, base)
    ensures PassAgrees(kind, base, entries, Exactly) && PassAgrees(kind, base, entries, UpToCase)
  {
    hide Orderly, PassAgrees;
    OrderlyPassAgrees(kind, base, entries, Exactly);
    OrderlyPassAgrees(kind, base, entries, UpToCase);
  }

  /** The number picked for a taken destination is free, with its whole family, on every snapshot
      of a case-sensitive directory exactly when the base is orderly. */
  lemma SearchIsRightExactly(kind: Kind, requested: string)
    ensures var base := NumberingBase(kind, requested);
            (forall entries: seq<Name>, n: nat
               | n < USIZE && Taken(kind, Text(requested), entries, Exactly)
                 && IsFirstFree(kind, base, entries, Exactly, n) ::
               !Taken(kind, Text(Candidate(base, n)), entries, Exactly))
            <==> Orderly(kind, base)
  {
    hide Candidate, Index, Orderly, PassAgrees, IsFirstFree, Occupied, Taken, NumberingBase;
    var base := NumberingBase(kind, requested);
    if Orderly(kind, base) {
      forall entries: seq<Name>, n: nat | n < USIZE && IsFirstFree(kind, base, entries, Exactly, n)
        ensures !Taken(kind, Text(Candidate(base, n)), entries, Exactly)
      {
        CaseKeepsNumber(kind, base, entries);
        FirstFreeIsFree(kind, base, entries, Exactly, n);
      }
    } else {
      var entries, n := TakenButPicked(kind, requested);
    }
  }

  /** A snapshot on which a taken candidate is picked. */
  lemma TakenButPicked(kind: Kind, requested: string) returns (entries: seq<Name>, n: nat)
    requires !Orderly(kind, NumberingBase(kind, requested))
    ensures n < USIZE && Taken(kind, Text(requested), entries, Exactly)
    ensures IsFirstFree(kind, NumberingBase(kind, requested), entries, Exactly, n)
    ensures Taken(kind, Text(Candidate(NumberingBase(kind, requested), n)), entries, Exactly)
  {
    hide Candidate, Index, Tail, IsFirstFree, Taken;
    var base := NumberingBase(kind, requested);
    if kind.Split? && SplitBase(base).Some? {
      n := 2;
      entries := DoublySplit(base);
    } else if kind.Split? && HasExtension(base, "zip") {
      n := 2;
      entries := NativePart(base, true);
    } else if kind.Split? && HasExtension(base, "swm") {
      n := 2;
      entries := NativePart(base, false);
    } else {
      entries, n := ParenthesisTaken(kind, base);
    }
    BaseIsTaken(kind, requested, entries);
  }

  lemma BaseIsTaken(kind: Kind, requested: string, entries: seq<Name>)
    requires Text(NumberingBase(kind, requested)) in entries
    ensures Taken(kind, Text(requested), entries, Exactly)
  {
    assert TakenBy(kind, Text(requested), Text(NumberingBase(kind, requested)), Exactly);
  }

  /** What is collected from a name under exact comparison. */
  lemma CollectedExactly(kind: Kind, base: string, e: string, n: nat)
    ensures Collects(kind, base, Text(e), Exactly, n) ==>
              Index(e) == Some(n) && |e| >= |Candidate(base, n)|
              && (e == Candidate(base, n) || (kind.Split? && ManagedBase(e, IsSqz(base)).Some?))
    ensures Index(e) == Some(n) && e == Candidate(base, n) ==> Collects(kind, base, Text(e), Exactly, n)
  {
    hide Candidate, Index, Member, HasExtension, SplitBase, RecoveryBase;
    if Collects(kind, base, Text(e), Exactly, n) {
      CollectsOwnNumber(kind, base, Text(e), Exactly, n);
      if e != Candidate(base, n) {
        if SplitBase(e).None? {
          CandidateLooks(base, n);
          OneExtension(base);
        }
        MemberIsLonger(Candidate(base, n), e, IsSqz(base));
      }
    }
  }

  lemma OneExtension(base: string)
    requires IsSqz(base)
    ensures !HasExtension(base, "zip") && !HasExtension(base, "swm")
  {
  }

  lemma MemberIsLonger(candidate: string, e: string, recovery: bool)
    requires Member(candidate, e, recovery) == Some(e)
    requires SplitBase(e).Some? || (!HasExtension(candidate, "zip") && !HasExtension(candidate, "swm"))
    ensures |e| >= |candidate|
  {
    hide HasExtension, SplitBase, RecoveryBase, Suffix;
  }

  /** Two short entries leave the first number free. */
  lemma FreeBeside(kind: Kind, base: string, x: string)
    requires !Collects(kind, base, Text(x), Exactly, 2)
    ensures IsFirstFree(kind, base, [Text(base), Text(x)], Exactly, 2)
  {
    hide Candidate, Collects, Index, SplitBase, ManagedBase, IsSqz, LowerAll;
    LongerCandidate(base, 2);
    CollectedExactly(kind, base, base, 2);
  }

  /** A base that still looks like a volume: its family is that of another name. */
  lemma DoublySplit(base: string) returns (entries: seq<Name>)
    requires SplitBase(base).Some?
    ensures Text(base) in entries && IsFirstFree(Split, base, entries, Exactly, 2)
    ensures Taken(Split, Text(Candidate(base, 2)), entries, Exactly)
  {
    hide Candidate, Index, Collects, IsFirstFree;
    CandidateLooks(base, 2);
    var x := SplitBase(Candidate(base, 2)).value;
    entries := [Text(base), Text(x)];
    CollectedExactly(Split, base, x, 2);
    FreeBeside(Split, base, x);
    assert TakenBy(Split, Text(Candidate(base, 2)), Text(x), Exactly);
  }

  lemma PlainParts(name: string)
    requires PlainSplit(name).extension.Some?
    ensures var parts := PlainSplit(name);
            parts.stem != "" && '.' !in parts.extension.value && name == parts.stem + "." + parts.extension.value
  {
  }

  /** A left-over native part belongs to the family of a candidate and carries no number the pass reads. */
  lemma NativePart(base: string, zip: bool) returns (entries: seq<Name>)
    requires SplitBase(base).None? && HasExtension(base, if zip then "zip" else "swm")
    ensures Text(base) in entries && IsFirstFree(Split, base, entries, Exactly, 2)
    ensures Taken(Split, Text(Candidate(base, 2)), entries, Exactly)
  {
    hide Candidate, Index, Collects, IsFirstFree, PlainSplit, SplitBase;
    CandidateLooks(base, 2);
    var candidate := Candidate(base, 2);
    var parts := PlainSplit(candidate);
    PlainParts(candidate);
    var stem, extension := if zip then parts.stem else parts.stem + "2", if zip then "z01" else parts.extension.value;
    var x := stem + "." + extension;
    PartsOf(stem, extension);
    entries := [Text(base), Text(x)];
    assert !IsDigit(extension[0]) by { if !zip { assert LowerAll(extension)[0] == Lower(extension[0]) == 's'; } }
    if zip { NativeZipPart(candidate, x); } else { NativeWimPart(candidate, x); }
    CollectedExactly(Split, base, x, 2);
    FreeBeside(Split, base, x);
    assert TakenBy(Split, Text(candidate), Text(x), Exactly);
  }

  lemma NativeZipPart(candidate: string, x: string)
    requires HasExtension(candidate, "zip") && SplitBase(x).None?
    requires PlainSplit(x) == Parts(PlainSplit(candidate).stem, Some("z01")) && x == PlainSplit(candidate).stem + ".z01"
    ensures forall recovery :: Member(candidate, x, recovery) == Some(x)
    ensures x != candidate
  {
    hide PlainSplit, SplitBase, NativeWim;
    ZipNumber();
    assert NativeZip(candidate, x);
    assert LowerAll("z01")[1] == '0' && "zip"[1] == 'i';
    assert PlainSplit(x).extension != PlainSplit(candidate).extension;
    assert PlainSplit(candidate).stem + "." + "z01" == x;
  }

  lemma ZipNumber()
    ensures ZipVolume("z01")
  {
    var digits := "01";
    assert "z01"[1..] == digits && digits[..1] == "0" && "0"[..0] == "";
    assert Value("0") == 0 && Value(digits) == 1;
  }

  lemma NativeWimPart(candidate: string, x: string)
    requires HasExtension(candidate, "swm") && SplitBase(x).None?
    requires PlainSplit(x) == Parts(PlainSplit(candidate).stem + "2", PlainSplit(candidate).extension)
    requires candidate == PlainSplit(candidate).stem + "." + PlainSplit(candidate).extension.value
    requires x == PlainSplit(candidate).stem + "2" + "." + PlainSplit(candidate).extension.value
    ensures forall recovery :: Member(candidate, x, recovery) == Some(x)
    ensures x != candidate
  {
    hide PlainSplit, SplitBase;
    var stem := PlainSplit(candidate).stem;
    assert (stem + "2")[|stem|..] == "2";
    assert "2"[..0] == "";
    assert Decimal(2) == "2";
  }

  /** A closing parenthesis in the extension: the number of a candidate is not read back. */
  lemma ParenthesisTaken(kind: Kind, base: string) returns (entries: seq<Name>, n: nat)
    requires ')' in Tail(base) && (kind.Split? ==> SplitBase(base).None?)
    ensures 2 <= n < USIZE && Text(base) in entries && IsFirstFree(kind, base, entries, Exactly, n)
    ensures Taken(kind, Text(Candidate(base, n)), entries, Exactly)
  {
    hide Candidate, Index, Tail, Collects, IsSqz, SplitBase, ManagedBase, TakenBy;
    var second, third := Candidate(base, 2), Candidate(base, 3);
    entries := [Text(base), Text(second), Text(third)];
    IndexIgnoresNumber(base, 2, 3);
    n := if Index(second) == Some(2) then 3 else 2;
    CollectedExactly(kind, base, second, 2);
    CollectedExactly(kind, base, second, n);
    CollectedExactly(kind, base, third, n);
    CollectedExactly(kind, base, base, n);
    LongerCandidate(base, n);
    if n == 3 { assert Collects(kind, base, Text(second), Exactly, 2) && Text(second) in entries; }
    TakenByItself(kind, base, n);
    assert Text(Candidate(base, n)) in entries;
  }

  lemma TakenByItself(kind: Kind, base: string, n: nat)
    requires kind.Split? ==> SplitBase(base).None?
    ensures TakenBy(kind, Text(Candidate(base, n)), Text(Candidate(base, n)), Exactly)
  {
    hide Candidate, SplitBase, OccupiesMember;
    CandidateLooks(base, n);
  }

  lemma LongerCandidate(base: string, n: nat)
    ensures |Candidate(base, n)| > |base|
  {
    hide NameParts, CompoundSplit;
    TailEnds(base);
  }

  /** A concrete name of this kind: "a (2).b)c" is picked although it exists. */
  lemma ParenthesisExample()
    ensures ')' in Tail("a.b)c")
  {
    hide CompoundSplit;
    var name := "a.b)c";
    assert |name| == 5 && name[1] == '.' && name[3] == ')';
    LongSuffixes(name, COMPOUND_CREATE_EXTENSIONS);
    LastIndexIs(name, '.', 1);
    assert Tail(name)[2] == name[3];
  }

  lemma {:induction false} LongSuffixes(name: string, extensions: seq<string>)
    requires forall i | 0 <= i < |extensions| :: |extensions[i]| >= |name|
    requires forall i | 0 <= i < |extensions| :: extensions[i] != ""
    ensures CompoundSplit(name, extensions).None?
  {
    if extensions != [] { LongSuffixes(name, extensions[1..]); }
  }
}
