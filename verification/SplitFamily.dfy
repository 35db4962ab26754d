/** The file names of a split archive: numbered volumes, native ZIP and WIM parts, recovery volumes. */
module SplitFamily {
  import opened Options
  import opened AsciiText

  const U16: nat := 0x1_0000
  const U32: nat := 0x1_0000_0000
  const U64: nat := 0x1_0000_0000_0000_0000

  /** At least three digits that make a positive number below `limit`. */
  predicate VolumeDigits(s: string, limit: nat) {
    |s| >= 3 && AllDigits(s) && 0 < Value(s) < limit
  }

  /** `split_volume_name`: what a numbered volume is a volume of. */
  function SplitBase(name: string): Option<string> {
    var dot := LastIndexOf(name, '.');
    if dot.Some? && dot.value > 0 && VolumeDigits(name[dot.value + 1..], U32) then Some(name[..dot.value]) else None
  }

  predicate IsRecoverySuffix(s: string) { |s| >= 4 && LowerAll(s[..4]) == ".rev" && VolumeDigits(s[4..], U64) }

  /** `sqz_recovery_suffix`, and what is before it. */
  function RecoveryBase(name: string): Option<string> {
    var dot := LastIndexOf(name, '.');
    if dot.Some? && IsRecoverySuffix(name[dot.value..]) then Some(name[..dot.value]) else None
  }

  /** The part of a name from its last dot on. */
  function Suffix(name: string): string {
    var dot := LastIndexOf(name, '.');
    if dot.Some? then name[dot.value..] else ""
  }

  predicate HasExtension(name: string, extension: string) {
    PlainSplit(name).extension.Some? && LowerAll(PlainSplit(name).extension.value) == extension
  }

  predicate ZipVolume(extension: string) {
    |extension| >= 3 && Lower(extension[0]) == 'z' && AllDigits(extension[1..]) && 0 < Value(extension[1..]) < U64
  }

  /** `native_zip_volume_name` */
  predicate NativeZip(base: string, name: string) {
    && HasExtension(base, "zip") && PlainSplit(name).stem == PlainSplit(base).stem
    && PlainSplit(name).extension.Some? && ZipVolume(PlainSplit(name).extension.value)
  }

  /** `native_wim_volume_number` */
  function NativeWim(base: string, name: string): Option<nat> {
    var stem, other := PlainSplit(base).stem, PlainSplit(name).stem;
    if HasExtension(base, "swm") && HasExtension(name, "swm") && stem <= other then WimNumber(other[|stem|..]) else None
  }

  function WimNumber(s: string): Option<nat> {
    if s == "" || (|s| > 1 && s[0] == '0') then None
    else
      var number := ParseUnsigned(s, U32);
      if number.Some? && 2 <= number.value < U16 then number else None
  }

  /** `expected_managed_split_output_path`: where the family of `base` would have the file that
      `name` looks like. */
  function Member(base: string, name: string, recovery: bool): Option<string> {
    if name == base then Some(base)
    else if SplitBase(name).Some? then Some(base + Suffix(name))
    else if NativeZip(base, name) then Some(PlainSplit(base).stem + "." + PlainSplit(name).extension.value)
    else if NativeWim(base, name).Some?
    then Some(PlainSplit(base).stem + Decimal(NativeWim(base, name).value) + "." + PlainSplit(base).extension.value)
    else if recovery && RecoveryBase(name).Some? then Some(base + Suffix(name))
    else None
  }

  /** The name whose volume `name` is, as the naming search reads it. */
  function ManagedBase(name: string, recovery: bool): Option<string> {
    if SplitBase(name).Some? then SplitBase(name)
    else if recovery then RecoveryBase(name)
    else None
  }

  lemma ManagedIsPrefix(name: string, recovery: bool)
    ensures var base := ManagedBase(name, recovery);
            base.Some? ==> name == base.value + Suffix(name) && Suffix(name) != "" && Suffix(name)[0] == '.'
                           && ')' !in Suffix(name)
  {
    var base := ManagedBase(name, recovery);
    if base.Some? {
      var dot := LastIndexOf(name, '.').value;
      assert name == name[..dot] + name[dot..];
      forall i | dot <= i < |name| ensures name[i] != ')' {
        if SplitBase(name).Some? {
          assert i == dot || IsDigit(name[dot + 1..][i - dot - 1]);
        } else if i < dot + 4 {
          assert LowerAll(name[dot..][..4])[i - dot] == Lower(name[i]);
        } else {
          assert IsDigit(name[dot..][4..][i - dot - 4]);
        }
      }
    }
  }

  /** Without native parts a member is the base itself or the base with a volume suffix. */
  lemma PlainMember(base: string, name: string, recovery: bool)
    requires !HasExtension(base, "zip") && !HasExtension(base, "swm")
    ensures Member(base, name, recovery)
            == if name == base then Some(base)
               else if ManagedBase(name, recovery).Some? then Some(base + Suffix(name)) else None
  {
  }

  // ----- the names that are written -----

  /** At least three digits. */
  function Padded(n: nat): string {
    (if n < 10 then "00" else if n < 100 then "0" else "") + Decimal(n)
  }

  /** `volume_path` and `recovery_volume_path` */
  function VolumeName(base: string, n: nat): string { base + "." + Padded(n) }

  function RecoveryName(base: string, n: nat): string { base + ".rev" + Padded(n) }

  lemma {:induction false} PaddedDigits(n: nat, limit: nat)
    requires 0 < n < limit
    ensures VolumeDigits(Padded(n), limit)
  {
    hide Value, Decimal;
    var d := Decimal(n);
    ValueOfDecimal(n);
    ZeroInFront(d);
    ZeroInFront("0" + d);
    assert "0" + ("0" + d) == "00" + d;
    DigitsOf(n);
    assert Padded(n) == if n < 10 then "00" + d else if n < 100 then "0" + d else d by {
      assert "" + d == d;
    }
  }

  lemma DigitsOf(n: nat)
    ensures |Decimal(n)| >= if n < 10 then 1 else if n < 100 then 2 else 3
  {
  }

  /** A name is a volume of `base` exactly when it is the base with a dot and at least three digits, which
      make a positive number of 32 bits. */
  lemma SplitBaseExactly(name: string, base: string)
    ensures SplitBase(name) == Some(base) <==>
            base != "" && exists digits: string ::
              name == base + "." + digits && |digits| >= 3 && AllDigits(digits) && 0 < Value(digits) < 0x1_0000_0000
  {
    if SplitBase(name) == Some(base) {
      var digits := name[LastIndexOf(name, '.').value + 1..];
      assert name == base + "." + digits;
    }
    if digits: string :|
      name == base + "." + digits && |digits| >= 3 && AllDigits(digits) && 0 < Value(digits) < 0x1_0000_0000 {
      DotBefore(base, digits);
    }
  }

  lemma DotBefore(base: string, digits: string)
    requires '.' !in digits
    ensures var s := base + "." + digits;
            LastIndexOf(s, '.') == Some(|base|) && s[..|base|] == base && s[|base| + 1..] == digits
            && s[|base|..] == "." + digits
  {
    var s := base + "." + digits;
    forall j | |base| < j < |s| ensures s[j] != '.' { assert s[j] == digits[j - |base| - 1]; }
    LastIndexIs(s, '.', |base|);
  }

  /** Every volume that is written is found in the family of its base, where it was written. */
  lemma WrittenIsMember(base: string, n: nat, recovery: bool)
    requires base != "" && 0 < n < U32
    ensures SplitBase(VolumeName(base, n)) == Some(base)
    ensures Member(base, VolumeName(base, n), recovery) == Some(VolumeName(base, n))
  {
    hide Decimal, Value, Padded;
    PaddedDigits(n, U32);
    DotBefore(base, Padded(n));
    assert VolumeName(base, n) == base + Suffix(VolumeName(base, n));
    assert VolumeName(base, n) != base;
  }

  /** So is every recovery volume, where they are looked for. */
  lemma WrittenRecoveryIsMember(base: string, n: nat)
    requires base != "" && 0 < n < U64 && !HasExtension(base, "zip") && !HasExtension(base, "swm")
    ensures RecoveryBase(RecoveryName(base, n)) == Some(base)
    ensures Member(base, RecoveryName(base, n), true) == Some(RecoveryName(base, n))
  {
    hide Decimal, Value, Padded, HasExtension, AllDigits;
    var name, digits := RecoveryName(base, n), "rev" + Padded(n);
    RevDigits(n);
    DotBefore(base, digits);
    assert base + "." + digits == name;
    assert ("." + digits)[..4] == ".rev" && ("." + digits)[4..] == Padded(n);
    assert Suffix(name) == "." + digits && base + ("." + digits) == name;
    assert name != base by { assert |name| > |base|; }
    PlainMember(base, name, true);
  }

  lemma RevDigits(n: nat)
    requires 0 < n < U64
    ensures var digits := "rev" + Padded(n);
            '.' !in digits && !AllDigits(digits) && VolumeDigits(Padded(n), U64) && LowerAll(".rev") == ".rev"
  {
    hide Decimal, Value, Padded;
    PaddedDigits(n, U64);
    var digits := "rev" + Padded(n);
    assert forall i | 0 <= i < |digits| :: digits[i] == if i < 3 then "rev"[i] else Padded(n)[i - 3];
    assert !IsDigit(digits[0]);
  }

  /** A native ZIP part is a member of the family of its archive, a WIM part of that of its first part. */
  lemma NativePartsAreMembers(stem: string, n: nat)
    requires stem != "" && 0 < n < U16
    ensures Member(stem + ".zip", stem + ".z" + Padded(n), false) == Some(stem + ".z" + Padded(n))
    ensures n >= 2 ==> Member(stem + ".swm", stem + Decimal(n) + ".swm", false) == Some(stem + Decimal(n) + ".swm")
  {
    hide Decimal, Padded, Member;
    ZipPartIsMember(stem, n);
    if n >= 2 { WimPartIsMember(stem, n); }
  }

  /** A stem and a last extension. */
  lemma PartsOf(stem: string, extension: string)
    requires stem != "" && '.' !in extension
    ensures PlainSplit(stem + "." + extension) == Parts(stem, Some(extension))
    ensures !AllDigits(extension) ==> SplitBase(stem + "." + extension).None?
  {
    hide AllDigits, Value;
    DotBefore(stem, extension);
  }

  lemma ZipExtension(n: nat)
    requires 0 < n < U16
    ensures var extension := "z" + Padded(n);
            '.' !in extension && !AllDigits(extension) && ZipVolume(extension) && extension != "zip"
            && !AllDigits("zip") && LowerAll("zip") == "zip" && '.' !in "zip"
  {
    hide Decimal, Value, Padded;
    PaddedDigits(n, U64);
    var extension := "z" + Padded(n);
    assert forall i | 0 <= i < |extension| :: extension[i] == if i < 1 then 'z' else Padded(n)[i - 1];
    assert extension[1..] == Padded(n);
    assert !IsDigit(extension[0]) && IsDigit(Padded(n)[0]) && extension[1] != 'i';
    assert !IsDigit("zip"[0]);
  }

  lemma ZipPartIsMember(stem: string, n: nat)
    requires stem != "" && 0 < n < U16
    ensures Member(stem + ".zip", stem + ".z" + Padded(n), false) == Some(stem + ".z" + Padded(n))
  {
    hide PlainSplit, SplitBase, Padded, ZipVolume, LowerAll, AllDigits, Suffix, NativeWim, RecoveryBase;
    var base, name, extension := stem + "." + "zip", stem + ".z" + Padded(n), "z" + Padded(n);
    ZipExtension(n);
    PartsOf(stem, "zip");
    PartsOf(stem, extension);
    assert base == stem + ".zip" && name == stem + "." + extension;
  }

  lemma WimPartIsMember(stem: string, n: nat)
    requires stem != "" && 2 <= n < U16
    ensures Member(stem + ".swm", stem + Decimal(n) + ".swm", false) == Some(stem + Decimal(n) + ".swm")
  {
    hide PlainSplit, SplitBase, Decimal, ZipVolume, LowerAll, AllDigits, Suffix, WimNumber, RecoveryBase;
    var base, name := stem + "." + "swm", stem + Decimal(n) + "." + "swm";
    WimExtension(n);
    PartsOf(stem, "swm");
    PartsOf(stem + Decimal(n), "swm");
    assert base == stem + ".swm" && name == stem + Decimal(n) + ".swm";
    assert (stem + Decimal(n))[|stem|..] == Decimal(n);
    assert |name| != |base|;
  }

  lemma WimExtension(n: nat)
    requires 2 <= n < U16
    ensures LowerAll("swm") == "swm" && '.' !in "swm" && !AllDigits("swm") && WimNumber(Decimal(n)) == Some(n)
    ensures !ZipVolume("swm") && "swm" != "zip"
  {
    hide Decimal, Value;
    assert !IsDigit("swm"[0]) && Lower("swm"[0]) != 'z';
    ParseDecimal(n, U32);
    NoLeadingZero(n);
  }

  lemma {:induction false} NoLeadingZero(n: nat)
    requires n > 0
    ensures Decimal(n)[0] != '0'
  {
    if n >= 10 { NoLeadingZero(n / 10); }
  }

  /** What a name ends in after its last dot decides these questions. */
  lemma SameSuffix(a: string, b: string, tail: string)
    requires a != "" && b != "" && '.' in tail
    ensures SplitBase(a + tail).Some? <==> SplitBase(b + tail).Some?
    ensures PlainSplit(a + tail).extension == PlainSplit(b + tail).extension
  {
    hide AllDigits, Value, LastIndexOf;
    LastDot(tail);
    var dot := LastIndexOf(tail, '.').value;
    DotInTail(a, tail, dot);
    DotInTail(b, tail, dot);
  }

  lemma LastDot(tail: string)
    requires '.' in tail
    ensures LastIndexOf(tail, '.').Some?
  {
  }

  lemma DotInTail(a: string, tail: string, dot: nat)
    requires LastIndexOf(tail, '.') == Some(dot)
    ensures LastIndexOf(a + tail, '.') == Some(|a| + dot)
    ensures (a + tail)[|a| + dot + 1..] == tail[dot + 1..] && (a + tail)[|a| + dot..] == tail[dot..]
  {
    var s := a + tail;
    forall j | |a| + dot < j < |s| ensures s[j] != '.' { assert s[j] == tail[j - |a|]; }
    LastIndexIs(s, '.', |a| + dot);
  }

  /** A name that ends in a closing parenthesis is none of these. */
  lemma ClosedName(name: string)
    requires name != "" && name[|name| - 1] == ')'
    ensures SplitBase(name).None? && RecoveryBase(name).None?
    ensures forall extension | ')' !in extension :: !HasExtension(name, extension)
  {
    var dot := LastIndexOf(name, '.');
    if dot.Some? {
      var rest := name[dot.value + 1..];
      assert rest != "" && rest[|rest| - 1] == ')';
      assert !AllDigits(rest) by { assert !IsDigit(rest[|rest| - 1]); }
      if |rest| > 3 { assert name[dot.value..][4..] == rest[3..] && !IsDigit(rest[3..][|rest| - 4]); }
      forall extension | ')' !in extension ensures LowerAll(rest) != extension {
        assert LowerAll(rest)[|rest| - 1] == ')';
      }
    }
  }
}
