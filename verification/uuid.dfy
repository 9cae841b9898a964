/**
 * The 16-byte identifier of uuid.go: the two bit-field stamps of RFC 4122
 * (the variant in byte 8, section 4.1.1; the version in byte 6, section 4.1.3),
 * its construction from a digest of the serialised arguments, and its
 * 8-4-4-4-12 hexadecimal text form (section 3 of RFC 4122).
 *
 * MD5 is a parameter `md5` of every member that hashes, and the process-wide
 * random generator is replaced by the three values it would yield (`Draw`).
 */
module Uuid {
  import opened Serialise

  /** A Go `[16]byte`: an array value, so a sequence of exactly 16 bytes. */
  type UUID = u: seq<byte> | |u| == 16 witness seq(16, _ => 0 as byte)

  /** What the hash returns; `newUUID` keeps its first 16 bytes. */
  type Digest = d: seq<byte> | |d| >= 16 witness seq(16, _ => 0 as byte)

  /** The hash function (MD5 in the source), left uninterpreted. */
  type Hash = seq<byte> -> Digest

  /** A value of `rng.Int31()`. */
  type Int31 = x: uint32 | x < 0x8000_0000

  /** The three values the process-wide generator yields for one call of `NewID()`. */
  datatype Draw = Draw(a: Int31, b: Int31, c: Int31)

  // The variant selectors `setVariant` understands.
  const ReservedNcs: byte := 0x80
  const Rfc4122: byte := 0x40
  const ReservedMicrosoft: byte := 0x20
  const ReservedFuture: byte := 0x00

  /** The version `newUUID` stamps. */
  const Version: byte := 4

  /** Byte 8 after `setVariant(variant)`. */
  function VariantByte(b: byte, variant: byte): (r: byte)
    ensures variant == ReservedNcs ==> r & 0x80 == 0 && r & 0x7F == b & 0x7F
    ensures variant == Rfc4122 ==> r & 0xC0 == 0x80 && r & 0x3F == b & 0x3F
    ensures variant == ReservedMicrosoft ==> r & 0xE0 == 0xC0 && r & 0x1F == b & 0x1F
    ensures variant == ReservedFuture ==> r & 0xE0 == 0xE0 && r & 0x1F == b & 0x1F
    ensures (variant != ReservedNcs && variant != Rfc4122 && variant != ReservedMicrosoft
             && variant != ReservedFuture) ==> r == b
  {
    if variant == ReservedNcs then b & 0x7F
    else if variant == Rfc4122 then (b & 0x3F) | 0x80
    else if variant == ReservedMicrosoft then (b & 0x1F) | 0xC0
    else if variant == ReservedFuture then (b & 0x1F) | 0xE0
    else b
  }

  /** Byte 6 after `setVersion(version)`: the version's low nibble becomes the high nibble. */
  function VersionByte(b: byte, version: byte): (r: byte)
    ensures r >> 4 == version & 0x0F
    ensures r & 0x0F == b & 0x0F
  {
    (b & 0x0F) | (version << 4)
  }

  /** The identifier after `setVariant(variant)`. */
  function WithVariant(u: UUID, variant: byte): (r: UUID)
    ensures r[8] == VariantByte(u[8], variant)
    ensures forall i :: 0 <= i < 16 && i != 8 ==> r[i] == u[i]
  {
    u[8 := VariantByte(u[8], variant)]
  }

  /** The identifier after `setVersion(version)`. */
  function WithVersion(u: UUID, version: byte): (r: UUID)
    ensures r[6] == VersionByte(u[6], version)
    ensures forall i :: 0 <= i < 16 && i != 6 ==> r[i] == u[i]
  {
    u[6 := VersionByte(u[6], version)]
  }

  /** `setVariant` and `setVersion` touch different bytes, so their order does not matter. */
  lemma StampsCommute(u: UUID, variant: byte, version: byte)
    ensures WithVersion(WithVariant(u, variant), version) == WithVariant(WithVersion(u, version), variant)
  {
  }

  /** `(*UUID).setVariant`: rewrites the variant bits of byte 8 in place. */
  method SetVariant(u: array<byte>, variant: byte)
    requires u.Length == 16
    modifies u
    ensures u[..] == WithVariant(old(u[..]), variant)
  {
    if variant == ReservedNcs {
      u[8] := u[8] & 0x7F;
    } else if variant == Rfc4122 {
      u[8] := u[8] & 0x3F;
      u[8] := u[8] | 0x80;
    } else if variant == ReservedMicrosoft {
      u[8] := u[8] & 0x1F;
      u[8] := u[8] | 0xC0;
    } else if variant == ReservedFuture {
      u[8] := u[8] & 0x1F;
      u[8] := u[8] | 0xE0;
    }
  }

  /** `(*UUID).setVersion`: rewrites the high nibble of byte 6 in place. */
  method SetVersion(u: array<byte>, version: byte)
    requires u.Length == 16
    modifies u
    ensures u[..] == WithVersion(old(u[..]), version)
  {
    u[6] := (u[6] & 0x0F) | (version << 4);
  }

  /** The identifier `newUUID(args...)` returns, as a value: the specification of NewUuid, whose properties DeriveAgreement and NewUuid state. */
  function Derive(args: seq<uint32>, md5: Hash): UUID {
    WithVersion(WithVariant(md5(Serialised(args))[..16], Rfc4122), Version)
  }

  /** Carries version 4 and the RFC 4122 variant. */
  predicate Stamped(u: UUID) {
    u[6] >> 4 == 4 && u[8] & 0xC0 == 0x80
  }

  /**
   * Two digests agree on every bit an identifier keeps: all bytes but 6 and 8,
   * the low nibble of byte 6 and the low six bits of byte 8.
   */
  predicate KeptBitsAgree(d: Digest, e: Digest) {
    && (forall i :: 0 <= i < 16 && i != 6 && i != 8 ==> d[i] == e[i])
    && d[6] & 0x0F == e[6] & 0x0F
    && d[8] & 0x3F == e[8] & 0x3F
  }

  /** `newUUID`: copies the first 16 digest bytes into a fresh array, then stamps it. */
  method NewUuid(args: seq<uint32>, md5: Hash) returns (u: UUID)
    ensures Stamped(u)
    ensures var sum := md5(Serialised(args));
      && (forall i :: 0 <= i < 16 && i != 6 && i != 8 ==> u[i] == sum[i])
      && u[6] & 0x0F == sum[6] & 0x0F
      && u[8] & 0x3F == sum[8] & 0x3F
    ensures u == Derive(args, md5)
  {
    var uuid := new byte[16];
    var version: byte := 4;
    var sum := md5(Serialised(args));
    var i := 0;
    while i < 16
      invariant 0 <= i <= 16
      invariant forall k :: 0 <= k < i ==> uuid[k] == sum[k]
    {
      uuid[i] := sum[i];
      i := i + 1;
    }
    assert uuid[..] == sum[..16];
    SetVariant(uuid, Rfc4122);
    SetVersion(uuid, version);
    u := uuid[..];
    assert u == Derive(args, md5);
  }

  /** Two argument lists give the same identifier exactly when their digests agree on the kept bits. */
  lemma DeriveAgreement(xs: seq<uint32>, ys: seq<uint32>, md5: Hash)
    ensures Derive(xs, md5) == Derive(ys, md5)
      <==> KeptBitsAgree(md5(Serialised(xs)), md5(Serialised(ys)))
  {
  }

  /** A byte is determined by its two nibbles. */
  lemma NibblesDetermineByte(a: byte, b: byte)
    requires a >> 4 == b >> 4 && a & 0x0F == b & 0x0F
    ensures a == b
  {
  }

  // ---- Text form ----

  predicate IsHexDigit(c: char) {
    '0' <= c <= '9' || 'a' <= c <= 'f'
  }

  /** The value a lowercase hexadecimal digit stands for. */
  function HexValue(c: char): (v: nat)
    requires IsHexDigit(c)
    ensures v < 16
  {
    if c <= '9' then c as int - '0' as int else c as int - 'a' as int + 10
  }

  /** One lowercase hexadecimal digit. */
  function HexDigit(n: byte): (c: char)
    requires n < 16
    ensures IsHexDigit(c)
    ensures HexValue(c) == n as int
  {
    if n < 10 then ('0' as int + n as int) as char else ('a' as int + n as int - 10) as char
  }

  /** `%x` applied to a byte slice: two lowercase digits per byte, high nibble first. */
  function Hex(bs: seq<byte>): (s: string)
    ensures |s| == 2 * |bs|
  {
    if bs == [] then "" else [HexDigit(bs[0] >> 4), HexDigit(bs[0] & 0x0F)] + Hex(bs[1..])
  }

  /** `(UUID).String`: the 4-2-2-2-6 byte groups in hexadecimal, joined by hyphens. */
  function String(u: UUID): (s: string)
    ensures |s| == 36
  {
    Hex(u[0..4]) + "-" + Hex(u[4..6]) + "-" + Hex(u[6..8]) + "-" + Hex(u[8..10]) + "-" + Hex(u[10..])
  }

  /** Where the two digits of byte `i` start in the text form. */
  function DigitPosition(i: nat): nat {
    2 * i + (if i >= 4 then 1 else 0) + (if i >= 6 then 1 else 0)
      + (if i >= 8 then 1 else 0) + (if i >= 10 then 1 else 0)
  }

  lemma {:induction false} HexAt(bs: seq<byte>, k: nat)
    requires k < |bs|
    ensures Hex(bs)[2 * k] == HexDigit(bs[k] >> 4)
    ensures Hex(bs)[2 * k + 1] == HexDigit(bs[k] & 0x0F)
  {
    if k > 0 {
      HexAt(bs[1..], k - 1);
    }
  }

  /** The text form cut back into its five groups and four hyphens. */
  lemma StringGroups(u: UUID)
    ensures String(u)[0..8] == Hex(u[0..4]) && String(u)[8] == '-'
    ensures String(u)[9..13] == Hex(u[4..6]) && String(u)[13] == '-'
    ensures String(u)[14..18] == Hex(u[6..8]) && String(u)[18] == '-'
    ensures String(u)[19..23] == Hex(u[8..10]) && String(u)[23] == '-'
    ensures String(u)[24..36] == Hex(u[10..16])
  {
    var g0, g1, g2, g3, g4 := Hex(u[0..4]), Hex(u[4..6]), Hex(u[6..8]), Hex(u[8..10]), Hex(u[10..16]);
    assert u[10..] == u[10..16];
    var s := String(u);
    assert s == g0 + "-" + g1 + "-" + g2 + "-" + g3 + "-" + g4;
  }

  /** Digit `k` of the group that starts at text offset `offset` and holds bytes `start ..`. */
  lemma GroupAt(s: string, offset: nat, group: seq<byte>, k: nat)
    requires k < |group| && offset + 2 * |group| <= |s|
    requires s[offset..offset + 2 * |group|] == Hex(group)
    ensures s[offset + 2 * k] == HexDigit(group[k] >> 4)
    ensures s[offset + 2 * k + 1] == HexDigit(group[k] & 0x0F)
  {
    HexAt(group, k);
    assert s[offset + 2 * k] == s[offset..offset + 2 * |group|][2 * k];
    assert s[offset + 2 * k + 1] == s[offset..offset + 2 * |group|][2 * k + 1];
  }

  /** Byte `i` is written as its two hex digits at `DigitPosition(i)`. */
  lemma StringAt(u: UUID, i: nat)
    requires i < 16
    ensures DigitPosition(i) + 1 < 36
    ensures String(u)[DigitPosition(i)] == HexDigit(u[i] >> 4)
    ensures String(u)[DigitPosition(i) + 1] == HexDigit(u[i] & 0x0F)
  {
    StringGroups(u);
    var s := String(u);
    var offset, group, k;
    if i < 4 {
      offset, group, k := 0, u[0..4], i;
    } else if i < 6 {
      offset, group, k := 9, u[4..6], i - 4;
    } else if i < 8 {
      offset, group, k := 14, u[6..8], i - 6;
    } else if i < 10 {
      offset, group, k := 19, u[8..10], i - 8;
    } else {
      offset, group, k := 24, u[10..16], i - 10;
    }
    assert DigitPosition(i) == offset + 2 * k && group[k] == u[i];
    GroupAt(s, offset, group, k);
  }

  /** The 8-4-4-4-12 layout: hyphens at 8, 13, 18 and 23, two hex digits per byte elsewhere. */
  lemma StringLayout(u: UUID)
    ensures |String(u)| == 36
    ensures String(u)[8] == '-' && String(u)[13] == '-' && String(u)[18] == '-' && String(u)[23] == '-'
    ensures forall i :: 0 <= i < 16 ==>
      String(u)[DigitPosition(i)] == HexDigit(u[i] >> 4)
      && String(u)[DigitPosition(i) + 1] == HexDigit(u[i] & 0x0F)
  {
    StringGroups(u);
    forall i | 0 <= i < 16
      ensures String(u)[DigitPosition(i)] == HexDigit(u[i] >> 4)
      ensures String(u)[DigitPosition(i) + 1] == HexDigit(u[i] & 0x0F)
    {
      StringAt(u, i);
    }
  }

  /** A byte's value is sixteen times its high nibble plus its low nibble. */
  lemma NibbleValues(b: byte)
    ensures 16 * (b >> 4) as int + (b & 0x0F) as int == b as int
  {
    assert b == (b >> 4) * 16 + (b & 0x0F);
    assert (b >> 4) as int * 16 < 256;
  }

  /** Reading each byte's two digits back in base 16 gives the identifier's bytes. */
  lemma StringReadsBack(u: UUID)
    ensures forall i :: 0 <= i < 16 ==>
      IsHexDigit(String(u)[DigitPosition(i)]) && IsHexDigit(String(u)[DigitPosition(i) + 1])
      && 16 * HexValue(String(u)[DigitPosition(i)]) + HexValue(String(u)[DigitPosition(i) + 1]) == u[i] as int
  {
    forall i | 0 <= i < 16
      ensures IsHexDigit(String(u)[DigitPosition(i)]) && IsHexDigit(String(u)[DigitPosition(i) + 1])
      ensures 16 * HexValue(String(u)[DigitPosition(i)]) + HexValue(String(u)[DigitPosition(i) + 1]) == u[i] as int
    {
      StringAt(u, i);
      NibbleValues(u[i]);
    }
  }

  /** Distinct identifiers have distinct text forms. */
  lemma StringInjective(u: UUID, v: UUID)
    requires String(u) == String(v)
    ensures u == v
  {
    forall i | 0 <= i < 16 ensures u[i] == v[i] {
      StringAt(u, i);
      StringAt(v, i);
      NibblesDetermineByte(u[i], v[i]);
    }
  }

  // ---- NewID ----

  /** `NewID(args...)`: hashes the arguments, or, when there are none, three fresh random values. */
  function NewId(args: seq<uint32>, md5: Hash, draw: Draw): (id: string)
    ensures |id| == 36
  {
    if |args| == 0 then String(Derive([draw.a, draw.b, draw.c], md5)) else String(Derive(args, md5))
  }

  /** With arguments, the result depends on their serialisation only and never on the generator. */
  lemma NewIdDeterministic(xs: seq<uint32>, ys: seq<uint32>, md5: Hash, d: Draw, e: Draw)
    requires xs != [] && Serialised(xs) == Serialised(ys)
    ensures NewId(xs, md5, d) == NewId(ys, md5, e)
  {
  }

  /** Without arguments, the result is the identifier of the three drawn values. */
  lemma NewIdWithoutArguments(md5: Hash, d: Draw, e: Draw)
    ensures NewId([], md5, d) == NewId([d.a, d.b, d.c], md5, e)
  {
  }

  /** Every text carries the hyphens, the version digit `4` at 14 and a variant digit 8, 9, a or b at 19. */
  lemma NewIdStamped(args: seq<uint32>, md5: Hash, draw: Draw)
    ensures var id := NewId(args, md5, draw);
      && id[8] == '-' && id[13] == '-' && id[18] == '-' && id[23] == '-'
      && id[14] == '4'
      && id[19] in {'8', '9', 'a', 'b'}
  {
    var u := if |args| == 0 then Derive([draw.a, draw.b, draw.c], md5) else Derive(args, md5);
    StringLayout(u);
    assert DigitPosition(6) == 14 && DigitPosition(8) == 19;
  }

  /** Two different argument lists share a text only if their digests agree on all 122 kept bits. */
  lemma NewIdCollision(xs: seq<uint32>, ys: seq<uint32>, md5: Hash, d: Draw, e: Draw)
    requires xs != [] && ys != [] && xs != ys
    requires NewId(xs, md5, d) == NewId(ys, md5, e)
    ensures Serialised(xs) != Serialised(ys)
    ensures KeptBitsAgree(md5(Serialised(xs)), md5(Serialised(ys)))
  {
    StringInjective(Derive(xs, md5), Derive(ys, md5));
    DeriveAgreement(xs, ys, md5);
    if Serialised(xs) == Serialised(ys) {
      SerialisedInjective(xs, ys);
    }
  }
}
