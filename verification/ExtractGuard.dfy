/** The byte streams behind an extraction guard: equal streams mean equal inputs. */
module ExtractGuard {
  import opened Options
  import opened ByteStream

  datatype EntryType = File | Dir | Symlink(target: Bytes) | Hardlink(target: Bytes) | Other

  datatype EntryMeta = EntryMeta(
    raw: Bytes, display: Bytes, encoding: Bytes, entryType: EntryType, size: nat, compressedSize: Option<nat>,
    modified: Time, unixMode: Option<nat>, crc32: Option<nat>, encrypted: bool)
  {
    /** The value ranges of the entry's machine types. */
    predicate Valid() {
      && |raw| < U64 && |display| < U64 && |encoding| < U64
      && (entryType.Symlink? || entryType.Hardlink? ==> |entryType.target| < U64)
      && size < U64 && (compressedSize.Some? ==> compressedSize.value < U64) && modified.Valid()
      && (unixMode.Some? ==> unixMode.value < U32) && (crc32.Some? ==> crc32.value < U32)
    }
  }

  const GUARD_LABEL: Bytes := Ascii("squallz-extract-input-guard-v1\0")

  function TypeTag(t: EntryType): byte {
    match t
    case File => 1
    case Dir => 2
    case Symlink(_) => 3
    case Hardlink(_) => 4
    case Other => 5
  }

  function TypeBody(t: EntryType): Bytes {
    match t
    case Symlink(target) => Prefixed(target)
    case Hardlink(target) => Prefixed(target)
    case _ => []
  }

  function TypeBytes(t: EntryType): Bytes { [TypeTag(t)] + TypeBody(t) }

  function OptionTag(v: Option<nat>): byte { if v.Some? then 1 else 0 }

  function OptionBody(v: Option<nat>, width: nat): Bytes { if v.Some? then LittleEndian(v.value, width) else [] }

  function Option64(v: Option<nat>): Bytes { [OptionTag(v)] + OptionBody(v, 8) }

  function Option32(v: Option<nat>): Bytes { [OptionTag(v)] + OptionBody(v, 4) }

  function PathBytes(e: EntryMeta): Bytes { Prefixed(e.raw) + Prefixed(e.display) + Prefixed(e.encoding) }

  function SizeBytes(e: EntryMeta): Bytes { TypeBytes(e.entryType) + Le64(e.size) + Option64(e.compressedSize) }

  function AttributeBytes(e: EntryMeta): Bytes { TimeBytes(e.modified) + Option32(e.unixMode) + Option32(e.crc32) }

  /** One entry, and whether it is part of the extraction. */
  function EntryBytes(e: EntryMeta, selected: bool): Bytes {
    PathBytes(e) + SizeBytes(e) + AttributeBytes(e) + U8(e.encrypted) + U8(selected)
  }

  function EntriesBytes(es: seq<EntryMeta>, selected: seq<bool>): Bytes
    requires |es| == |selected|
  {
    if es == [] then [] else EntryBytes(es[0], selected[0]) + EntriesBytes(es[1..], selected[1..])
  }

  type Selection = Option<seq<Bytes>>

  predicate IsSelected(selection: Selection, e: EntryMeta) {
    selection.None? || e.raw in selection.value
  }

  function SelectedFlags(selection: Selection, es: seq<EntryMeta>): (flags: seq<bool>)
    ensures |flags| == |es|
  {
    seq(|es|, i requires 0 <= i < |es| => IsSelected(selection, es[i]))
  }

  /** The whole stream; `source` is the digest of the source members. */
  function GuardBytes(source: Bytes, es: seq<EntryMeta>, selection: Selection): Bytes {
    GUARD_LABEL + source + U8(selection.Some?) + Le64(|es|) + EntriesBytes(es, SelectedFlags(selection, es))
  }

  // ----- reading the pieces back -----

  lemma ReadType(t: EntryType, x: Bytes, u: EntryType, y: Bytes)
    requires (t.Symlink? || t.Hardlink? ==> |t.target| < U64) && (u.Symlink? || u.Hardlink? ==> |u.target| < U64)
    requires TypeBytes(t) + x == TypeBytes(u) + y
    ensures t == u && x == y
  {
    hide Prefixed;
    assert TypeBytes(t) + x == [TypeTag(t)] + (TypeBody(t) + x);
    assert TypeBytes(u) + y == [TypeTag(u)] + (TypeBody(u) + y);
    ReadByte(TypeTag(t), TypeBody(t) + x, TypeTag(u), TypeBody(u) + y);
    if t.Symlink? || t.Hardlink? {
      ReadPrefixed(t.target, x, u.target, y);
    } else {
      assert [] + x == x && [] + y == y;
    }
  }

  lemma ReadOptionBody(v: Option<nat>, x: Bytes, w: Option<nat>, y: Bytes, width: nat)
    requires (v.Some? ==> v.value < Pow256(width)) && (w.Some? ==> w.value < Pow256(width)) && v.Some? == w.Some?
    requires OptionBody(v, width) + x == OptionBody(w, width) + y
    ensures v == w && x == y
  {
    if v.Some? {
      Split(LittleEndian(v.value, width), x, LittleEndian(w.value, width), y);
      LittleEndianInjective(v.value, w.value, width);
    } else {
      assert [] + x == x && [] + y == y;
    }
  }

  lemma ReadOption64(v: Option<nat>, x: Bytes, w: Option<nat>, y: Bytes)
    requires (v.Some? ==> v.value < U64) && (w.Some? ==> w.value < U64) && Option64(v) + x == Option64(w) + y
    ensures v == w && x == y
  {
    Widths();
    hide OptionBody, Pow256;
    assert Option64(v) + x == [OptionTag(v)] + (OptionBody(v, 8) + x);
    assert Option64(w) + y == [OptionTag(w)] + (OptionBody(w, 8) + y);
    ReadByte(OptionTag(v), OptionBody(v, 8) + x, OptionTag(w), OptionBody(w, 8) + y);
    ReadOptionBody(v, x, w, y, 8);
  }

  lemma ReadOption32(v: Option<nat>, x: Bytes, w: Option<nat>, y: Bytes)
    requires (v.Some? ==> v.value < U32) && (w.Some? ==> w.value < U32) && Option32(v) + x == Option32(w) + y
    ensures v == w && x == y
  {
    Widths();
    hide OptionBody, Pow256;
    assert Option32(v) + x == [OptionTag(v)] + (OptionBody(v, 4) + x);
    assert Option32(w) + y == [OptionTag(w)] + (OptionBody(w, 4) + y);
    ReadByte(OptionTag(v), OptionBody(v, 4) + x, OptionTag(w), OptionBody(w, 4) + y);
    ReadOptionBody(v, x, w, y, 4);
  }

  lemma Regroup3(a: Bytes, b: Bytes, c: Bytes, x: Bytes)
    ensures a + b + c + x == a + (b + (c + x))
  {
  }

  lemma ReadPath(e: EntryMeta, x: Bytes, f: EntryMeta, y: Bytes)
    requires e.Valid() && f.Valid() && PathBytes(e) + x == PathBytes(f) + y
    ensures e.raw == f.raw && e.display == f.display && e.encoding == f.encoding && x == y
  {
    hide Prefixed;
    Regroup3(Prefixed(e.raw), Prefixed(e.display), Prefixed(e.encoding), x);
    Regroup3(Prefixed(f.raw), Prefixed(f.display), Prefixed(f.encoding), y);
    ReadPrefixed(e.raw, Prefixed(e.display) + (Prefixed(e.encoding) + x), f.raw,
                 Prefixed(f.display) + (Prefixed(f.encoding) + y));
    ReadPrefixed(e.display, Prefixed(e.encoding) + x, f.display, Prefixed(f.encoding) + y);
    ReadPrefixed(e.encoding, x, f.encoding, y);
  }

  lemma ReadSize(e: EntryMeta, x: Bytes, f: EntryMeta, y: Bytes)
    requires e.Valid() && f.Valid() && SizeBytes(e) + x == SizeBytes(f) + y
    ensures e.entryType == f.entryType && e.size == f.size && e.compressedSize == f.compressedSize && x == y
  {
    hide TypeBytes, Le64, Option64;
    Regroup3(TypeBytes(e.entryType), Le64(e.size), Option64(e.compressedSize), x);
    Regroup3(TypeBytes(f.entryType), Le64(f.size), Option64(f.compressedSize), y);
    ReadType(e.entryType, Le64(e.size) + (Option64(e.compressedSize) + x), f.entryType,
             Le64(f.size) + (Option64(f.compressedSize) + y));
    Read64(e.size, Option64(e.compressedSize) + x, f.size, Option64(f.compressedSize) + y);
    ReadOption64(e.compressedSize, x, f.compressedSize, y);
  }

  lemma ReadAttributes(e: EntryMeta, x: Bytes, f: EntryMeta, y: Bytes)
    requires e.Valid() && f.Valid() && AttributeBytes(e) + x == AttributeBytes(f) + y
    ensures e.modified == f.modified && e.unixMode == f.unixMode && e.crc32 == f.crc32 && x == y
  {
    hide TimeBytes, Option32;
    Regroup3(TimeBytes(e.modified), Option32(e.unixMode), Option32(e.crc32), x);
    Regroup3(TimeBytes(f.modified), Option32(f.unixMode), Option32(f.crc32), y);
    ReadTime(e.modified, Option32(e.unixMode) + (Option32(e.crc32) + x), f.modified,
             Option32(f.unixMode) + (Option32(f.crc32) + y));
    ReadOption32(e.unixMode, Option32(e.crc32) + x, f.unixMode, Option32(f.crc32) + y);
    ReadOption32(e.crc32, x, f.crc32, y);
  }

  lemma EntryStream(e: EntryMeta, s: bool, x: Bytes)
    ensures EntryBytes(e, s) + x == PathBytes(e)
            + (SizeBytes(e) + (AttributeBytes(e) + (U8(e.encrypted) + (U8(s) + x))))
  {
    hide PathBytes, SizeBytes, AttributeBytes, U8;
  }

  lemma ReadEntry(e: EntryMeta, s: bool, x: Bytes, f: EntryMeta, t: bool, y: Bytes)
    requires e.Valid() && f.Valid() && EntryBytes(e, s) + x == EntryBytes(f, t) + y
    ensures e == f && s == t && x == y
  {
    hide PathBytes, SizeBytes, AttributeBytes, U8, EntryBytes;
    var eRest, fRest := U8(e.encrypted) + (U8(s) + x), U8(f.encrypted) + (U8(t) + y);
    EntryStream(e, s, x);
    EntryStream(f, t, y);
    ReadPath(e, SizeBytes(e) + (AttributeBytes(e) + eRest), f, SizeBytes(f) + (AttributeBytes(f) + fRest));
    ReadSize(e, AttributeBytes(e) + eRest, f, AttributeBytes(f) + fRest);
    ReadAttributes(e, eRest, f, fRest);
    ReadBool(e.encrypted, U8(s) + x, f.encrypted, U8(t) + y);
    ReadBool(s, x, t, y);
  }

  lemma {:induction false} ReadEntries(es: seq<EntryMeta>, s: seq<bool>, fs: seq<EntryMeta>, t: seq<bool>)
    requires |es| == |s| == |fs| == |t| && (forall e | e in es + fs :: e.Valid())
    requires EntriesBytes(es, s) == EntriesBytes(fs, t)
    ensures es == fs && s == t
  {
    hide EntryBytes;
    if es != [] {
      assert es[0] in es + fs && fs[0] in es + fs;
      ReadEntry(es[0], s[0], EntriesBytes(es[1..], s[1..]), fs[0], t[0], EntriesBytes(fs[1..], t[1..]));
      assert forall e | e in es[1..] + fs[1..] :: e in es + fs;
      ReadEntries(es[1..], s[1..], fs[1..], t[1..]);
      assert es == [es[0]] + es[1..] && fs == [fs[0]] + fs[1..];
      assert s == [s[0]] + s[1..] && t == [t[0]] + t[1..];
    }
  }

  /** Equal guard streams mean the same source state, the same entry metadata in the same
      order, the same whole-or-partial mode, and the same entries selected. */
  lemma GuardBinds(source: Bytes, es: seq<EntryMeta>, sel: Selection, source': Bytes, fs: seq<EntryMeta>,
                   sel': Selection)
    requires |source| == |source'| == 32 && |es| < U64 && |fs| < U64 && (forall e | e in es + fs :: e.Valid())
    requires GuardBytes(source, es, sel) == GuardBytes(source', fs, sel')
    ensures source == source' && es == fs && sel.Some? == sel'.Some?
    ensures forall e | e in es :: IsSelected(sel, e) <==> IsSelected(sel', e)
  {
    hide EntriesBytes, Le64;
    var x, y := EntriesBytes(es, SelectedFlags(sel, es)), EntriesBytes(fs, SelectedFlags(sel', fs));
    assert GuardBytes(source, es, sel) == GUARD_LABEL + (source + (U8(sel.Some?) + (Le64(|es|) + x)));
    assert GuardBytes(source', fs, sel') == GUARD_LABEL + (source' + (U8(sel'.Some?) + (Le64(|fs|) + y)));
    Split(GUARD_LABEL, source + (U8(sel.Some?) + (Le64(|es|) + x)), GUARD_LABEL,
          source' + (U8(sel'.Some?) + (Le64(|fs|) + y)));
    Split(source, U8(sel.Some?) + (Le64(|es|) + x), source', U8(sel'.Some?) + (Le64(|fs|) + y));
    ReadBool(sel.Some?, Le64(|es|) + x, sel'.Some?, Le64(|fs|) + y);
    Read64(|es|, x, |fs|, y);
    ReadEntries(es, SelectedFlags(sel, es), fs, SelectedFlags(sel', fs));
    forall e | e in es ensures IsSelected(sel, e) <==> IsSelected(sel', e) {
      var i :| 0 <= i < |es| && es[i] == e;
      assert SelectedFlags(sel, es)[i] == SelectedFlags(sel', fs)[i];
    }
  }

  // ----- the loop -----

  lemma {:induction false} EntriesAppend(es: seq<EntryMeta>, s: seq<bool>, i: nat)
    requires |es| == |s| && i < |es|
    ensures EntriesBytes(es[..i + 1], s[..i + 1]) == EntriesBytes(es[..i], s[..i]) + EntryBytes(es[i], s[i])
  {
    hide EntryBytes;
    if i == 0 {
      assert es[..1] == [es[0]] && s[..1] == [s[0]];
      assert EntriesBytes([], []) == [];
      assert es[..1][1..] == [] && s[..1][1..] == [];
    } else {
      EntriesAppend(es[1..], s[1..], i - 1);
      assert es[..i + 1][1..] == es[1..][..i] && s[..i + 1][1..] == s[1..][..i];
      assert es[..i][1..] == es[1..][..i - 1] && s[..i][1..] == s[1..][..i - 1];
    }
  }

  method HashHead(hasher: Hasher, source: Bytes, partial: bool, count: nat)
    modifies hasher
    ensures hasher.stream == old(hasher.stream) + source + U8(partial) + Le64(count)
  {
    hide U8, Le64;
    hasher.Update(source);
    hasher.Update(U8(partial));
    hasher.Update(Le64(count));
  }

  /** `build_extract_input_guard`: the loop feeds exactly the specified stream. */
  method BuildGuard(source: Bytes, entries: seq<EntryMeta>, selection: Selection) returns (hasher: Hasher)
    ensures fresh(hasher) && hasher.stream == GuardBytes(source, entries, selection)
  {
    hide EntriesBytes, Le64, U8, EntryBytes;
    hasher := new Hasher(GUARD_LABEL);
    HashHead(hasher, source, selection.Some?, |entries|);
    ghost var head := hasher.stream;
    ghost var flags := SelectedFlags(selection, entries);
    EntriesNone(entries, flags);
    var i := 0;
    while i < |entries|
      invariant 0 <= i <= |entries|
      invariant hasher.stream == head + EntriesBytes(entries[..i], flags[..i])
    {
      EntriesAppend(entries, flags, i);
      HashEntry(hasher, entries[i], IsSelected(selection, entries[i]));
      i := i + 1;
    }
    assert entries[..|entries|] == entries && flags[..|flags|] == flags;
  }

  lemma EntriesNone(es: seq<EntryMeta>, flags: seq<bool>)
    requires |es| == |flags|
    ensures EntriesBytes(es[..0], flags[..0]) == []
  {
  }

  method HashPath(hasher: Hasher, e: EntryMeta)
    modifies hasher
    ensures hasher.stream == old(hasher.stream) + PathBytes(e)
  {
    hide Prefixed;
    hasher.Update(Prefixed(e.raw));
    hasher.Update(Prefixed(e.display));
    hasher.Update(Prefixed(e.encoding));
  }

  /** `update_entry_type`. */
  method HashType(hasher: Hasher, t: EntryType)
    modifies hasher
    ensures hasher.stream == old(hasher.stream) + TypeBytes(t)
  {
    hide Prefixed;
    hasher.Update([TypeTag(t)]);
    match t
    case Symlink(target) => hasher.Update(Prefixed(target));
    case Hardlink(target) => hasher.Update(Prefixed(target));
    case _ =>
  }

  method HashSize(hasher: Hasher, e: EntryMeta)
    modifies hasher
    ensures hasher.stream == old(hasher.stream) + SizeBytes(e)
  {
    hide TypeBytes, Le64, Option64;
    HashType(hasher, e.entryType);
    hasher.Update(Le64(e.size));
    hasher.Update(Option64(e.compressedSize));
  }

  method HashAttributes(hasher: Hasher, e: EntryMeta)
    modifies hasher
    ensures hasher.stream == old(hasher.stream) + AttributeBytes(e)
  {
    hide TimeBytes, Option32;
    hasher.Update(TimeBytes(e.modified));
    hasher.Update(Option32(e.unixMode));
    hasher.Update(Option32(e.crc32));
  }

  method HashEntry(hasher: Hasher, e: EntryMeta, selected: bool)
    modifies hasher
    ensures hasher.stream == old(hasher.stream) + EntryBytes(e, selected)
  {
    hide PathBytes, SizeBytes, AttributeBytes, U8;
    ghost var before := hasher.stream;
    HashPath(hasher, e);
    HashSize(hasher, e);
    HashAttributes(hasher, e);
    assert hasher.stream == before + (PathBytes(e) + SizeBytes(e) + AttributeBytes(e));
    ghost var middle := hasher.stream;
    hasher.Update(U8(e.encrypted));
    hasher.Update(U8(selected));
    assert hasher.stream == middle + (U8(e.encrypted) + U8(selected));
    Regroup3(PathBytes(e) + SizeBytes(e) + AttributeBytes(e), U8(e.encrypted), U8(selected), []);
  }
}
