/** Self-delimiting pieces of a hashed byte stream. Each lemma says that the piece can be
    read back from the front of a longer stream, and where it ends. */
module ByteStream {
  type byte = x: int | 0 <= x < 256
  type Bytes = seq<byte>

  function Ascii(s: string): Bytes
    requires forall i | 0 <= i < |s| :: s[i] < 128 as char
  {
    seq(|s|, i requires 0 <= i < |s| => s[i] as int)
  }

  function Pow256(k: nat): nat { if k == 0 then 1 else 256 * Pow256(k - 1) }

  const U32: nat := 0x1_0000_0000
  const U64: nat := 0x1_0000_0000_0000_0000

  /** `k` bytes, least significant first. */
  function LittleEndian(n: nat, k: nat): (r: Bytes)
    ensures |r| == k
  {
    if k == 0 then [] else [n % 256] + LittleEndian(n / 256, k - 1)
  }

  function U8(b: bool): Bytes { if b then [1] else [0] }

  function Le32(n: nat): (r: Bytes) ensures |r| == 4 { LittleEndian(n, 4) }

  function Le64(n: nat): (r: Bytes) ensures |r| == 8 { LittleEndian(n, 8) }

  /** A length-prefixed string. */
  function Prefixed(v: Bytes): Bytes { Le64(|v|) + v }

  /** Equal streams that start with equally long pieces have equal pieces and equal rests. */
  lemma Split(p: Bytes, x: Bytes, q: Bytes, y: Bytes)
    requires |p| == |q| && p + x == q + y
    ensures p == q && x == y
  {
    assert p == (p + x)[..|p|] == (q + y)[..|q|] == q;
    assert x == (p + x)[|p|..] == (q + y)[|q|..] == y;
  }

  lemma Reassociate(a: Bytes, b: Bytes, x: Bytes)
    ensures a + b + x == a + (b + x)
  {
  }

  lemma {:induction false} LittleEndianInjective(a: nat, b: nat, k: nat)
    requires a < Pow256(k) && b < Pow256(k) && LittleEndian(a, k) == LittleEndian(b, k)
    ensures a == b
  {
    if k > 0 {
      Split([a % 256], LittleEndian(a / 256, k - 1), [b % 256], LittleEndian(b / 256, k - 1));
      assert [a % 256][0] == [b % 256][0];
      LittleEndianInjective(a / 256, b / 256, k - 1);
    }
  }

  lemma Widths()
    ensures Pow256(4) == U32 && Pow256(8) == U64
  {
    assert Pow256(1) == 256 && Pow256(2) == 0x1_0000 && Pow256(3) == 0x100_0000 && Pow256(4) == U32;
    assert Pow256(5) == 0x100_0000_0000 && Pow256(6) == 0x1_0000_0000_0000 && Pow256(7) == 0x100_0000_0000_0000;
  }

  lemma Read32(a: nat, x: Bytes, b: nat, y: Bytes)
    requires a < U32 && b < U32 && Le32(a) + x == Le32(b) + y
    ensures a == b && x == y
  {
    Widths();
    Split(Le32(a), x, Le32(b), y);
    LittleEndianInjective(a, b, 4);
  }

  lemma Read64(a: nat, x: Bytes, b: nat, y: Bytes)
    requires a < U64 && b < U64 && Le64(a) + x == Le64(b) + y
    ensures a == b && x == y
  {
    Widths();
    Split(Le64(a), x, Le64(b), y);
    LittleEndianInjective(a, b, 8);
  }

  lemma ReadBool(a: bool, x: Bytes, b: bool, y: Bytes)
    requires U8(a) + x == U8(b) + y
    ensures a == b && x == y
  {
    Split(U8(a), x, U8(b), y);
    assert U8(a)[0] == U8(b)[0];
  }

  lemma ReadPrefixed(v: Bytes, x: Bytes, w: Bytes, y: Bytes)
    requires |v| < U64 && |w| < U64 && Prefixed(v) + x == Prefixed(w) + y
    ensures v == w && x == y
  {
    assert Prefixed(v) + x == Le64(|v|) + (v + x);
    assert Prefixed(w) + y == Le64(|w|) + (w + y);
    Read64(|v|, v + x, |w|, w + y);
    Split(v, x, w, y);
  }

  // ----- values several streams share -----

  /** A file time: unknown, after the epoch, or before it. */
  datatype Time = Unknown | After(seconds: nat, nanos: nat) | Before(seconds: nat, nanos: nat) {
    predicate Valid() { Unknown? || (seconds < U64 && nanos < 1_000_000_000) }
  }

  function TimeTag(t: Time): byte { if t.Unknown? then 0 else if t.After? then 1 else 2 }

  function TimeBody(t: Time): Bytes { if t.Unknown? then [] else Le64(t.seconds) + Le32(t.nanos) }

  function TimeBytes(t: Time): Bytes { [TimeTag(t)] + TimeBody(t) }

  /** A leading byte can always be read. */
  lemma ReadByte(a: byte, x: Bytes, b: byte, y: Bytes)
    requires [a] + x == [b] + y
    ensures a == b && x == y
  {
    Split([a], x, [b], y);
    assert [a][0] == [b][0];
  }

  lemma ReadDuration(s: nat, n: nat, x: Bytes, s': nat, n': nat, y: Bytes)
    requires s < U64 && s' < U64 && n < U32 && n' < U32
    requires Le64(s) + Le32(n) + x == Le64(s') + Le32(n') + y
    ensures s == s' && n == n' && x == y
  {
    hide Le32, Le64;
    assert Le64(s) + Le32(n) + x == Le64(s) + (Le32(n) + x);
    assert Le64(s') + Le32(n') + y == Le64(s') + (Le32(n') + y);
    Read64(s, Le32(n) + x, s', Le32(n') + y);
    Read32(n, x, n', y);
  }

  lemma ReadTime(t: Time, x: Bytes, u: Time, y: Bytes)
    requires t.Valid() && u.Valid() && TimeBytes(t) + x == TimeBytes(u) + y
    ensures t == u && x == y
  {
    hide Le32, Le64, TimeTag, TimeBody;
    assert TimeBytes(t) + x == [TimeTag(t)] + (TimeBody(t) + x);
    assert TimeBytes(u) + y == [TimeTag(u)] + (TimeBody(u) + y);
    ReadByte(TimeTag(t), TimeBody(t) + x, TimeTag(u), TimeBody(u) + y);
    ReadTimeBody(t, x, u, y);
  }

  lemma ReadTimeBody(t: Time, x: Bytes, u: Time, y: Bytes)
    requires t.Valid() && u.Valid() && TimeTag(t) == TimeTag(u) && TimeBody(t) + x == TimeBody(u) + y
    ensures t == u && x == y
  {
    hide Le32, Le64;
    if t.Unknown? {
      assert TimeBody(t) + x == x && TimeBody(u) + y == y;
    } else {
      ReadDuration(t.seconds, t.nanos, x, u.seconds, u.nanos, y);
    }
  }

  /** The pair that identifies a file system object. */
  datatype Identity = Identity(filesystem: nat, entry: nat) {
    predicate Valid() { filesystem < U64 && entry < U64 }
  }

  function IdentityBytes(i: Identity): Bytes { Le64(i.filesystem) + Le64(i.entry) }

  lemma ReadIdentity(i: Identity, x: Bytes, j: Identity, y: Bytes)
    requires i.Valid() && j.Valid() && IdentityBytes(i) + x == IdentityBytes(j) + y
    ensures i == j && x == y
  {
    assert IdentityBytes(i) + x == Le64(i.filesystem) + (Le64(i.entry) + x);
    assert IdentityBytes(j) + y == Le64(j.filesystem) + (Le64(j.entry) + y);
    Read64(i.filesystem, Le64(i.entry) + x, j.filesystem, Le64(j.entry) + y);
    Read64(i.entry, x, j.entry, y);
  }

  /** A hasher, represented by the bytes it was fed: digests agree exactly when these do. */
  class Hasher {
    var stream: Bytes

    constructor (first: Bytes)
      ensures stream == first
    {
      stream := first;
    }

    method Update(bytes: Bytes)
      modifies this
      ensures stream == old(stream) + bytes
    {
      stream := stream + bytes;
    }
  }
}
