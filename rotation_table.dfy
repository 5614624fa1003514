/** globe_rotation_lookup_table and its per-frame rebuild
    (precalculate_globe_rotation_lookup_table in main.cpp). */
module RotationTable {
  import opened FixedWidth

  /** One entry of the table: two seed words whose meaning is unknown
      (unk0, unk1) and the two halves of a derived 16.16 value. */
  datatype RotationEntry = RotationEntry(unk0: u16, unk1: u16, fpHi: u16, fpLo: u16)

  const MaxTilt: nat := 98
  /** The table has MAX_TILT + 1 entries. */
  const EntryCount: nat := MaxTilt + 1
  const MagicValue: nat := 398

  /** dxax after `MAGIC_VALUE * globe_rotation` and `dxax &= ~0xffff`:
      the 16.16 product floored to a whole number. */
  function FlooredProduct(rotation: u16): (dxax: u32)
    ensures dxax % 0x1_0000 == 0
    ensures dxax <= MagicValue * rotation < dxax + 0x1_0000
  {
    var product := AsU32(MagicValue * rotation);
    product - product % 0x1_0000
  }

  /** bx: the floored product plus 0x8000 (one half), divided by MAGIC_VALUE
      and stored in a uint16_t; neither the uint32_t sum nor the uint16_t
      store loses a bit. */
  function ScaleFactor(rotation: u16): (bx: u16)
    ensures bx == (FlooredProduct(rotation) + 0x8000) / MagicValue
    ensures bx <= 65453
  {
    AsU16(AsU32(FlooredProduct(rotation) + 0x8000) / MagicValue)
  }

  /** Entry i after the rebuild: entry 0 receives the floored product,
      entry i > 0 the uint32_t product 2 * bx * unk1; unk0/unk1 are kept. */
  function RebuiltEntry(e: RotationEntry, i: nat, rotation: u16): RotationEntry
  {
    if i == 0 then
      e.(fpHi := Hi(FlooredProduct(rotation)), fpLo := Lo(FlooredProduct(rotation)))
    else
      var dxax := AsU32(2 * ScaleFactor(rotation) * e.unk1);
      e.(fpHi := Hi(dxax), fpLo := Lo(dxax))
  }

  /** The table once entries 0 .. done-1 have been rebuilt. */
  function RebuiltUpTo(seed: seq<RotationEntry>, rotation: u16, done: nat): (r: seq<RotationEntry>)
    ensures |r| == |seed|
  {
    seq(|seed|, i requires 0 <= i < |seed| =>
      if i < done then RebuiltEntry(seed[i], i, rotation) else seed[i])
  }

  /** The table after a complete rebuild. */
  function Rebuilt(seed: seq<RotationEntry>, rotation: u16): (r: seq<RotationEntry>)
    ensures |r| == |seed|
  {
    RebuiltUpTo(seed, rotation, |seed|)
  }

  /** The seed checks of main.cpp: entry 0 has unk0 == 0 and unk1 != 0,
      every later entry has unk0 != 0. */
  predicate SeedAccepted(seed: seq<RotationEntry>)
  {
    && |seed| == EntryCount
    && seed[0].unk0 == 0 && seed[0].unk1 != 0
    && forall i | 1 <= i < EntryCount :: seed[i].unk0 != 0
  }

  /** The first index at or after i whose unk0 is zero, or |seed| if none. */
  function FirstZeroUnk0(seed: seq<RotationEntry>, i: nat): (r: nat)
    requires i <= |seed|
    ensures i <= r <= |seed|
    ensures forall j | i <= j < r :: seed[j].unk0 != 0
    ensures r < |seed| ==> seed[r].unk0 == 0
    decreases |seed| - i
  {
    if i == |seed| then i
    else if seed[i].unk0 == 0 then i
    else FirstZeroUnk0(seed, i + 1)
  }

  /** How many entries the builder rewrites before it stops: none when
      entry 0 is rejected, otherwise all entries before the first later
      entry that is rejected. */
  function RebuiltCount(seed: seq<RotationEntry>): (n: nat)
    requires |seed| == EntryCount
    ensures n <= EntryCount
    ensures n == EntryCount <==> SeedAccepted(seed)
  {
    if seed[0].unk0 != 0 || seed[0].unk1 == 0 then 0
    else FirstZeroUnk0(seed, 1)
  }

  /** precalculate_globe_rotation_lookup_table: rebuilds the derived halves
      of every entry in place, or stops at the first rejected seed entry,
      leaving that entry and the ones after it untouched. */
  method PrecalculateRotationTable(table: array<RotationEntry>, globeRotation: u16) returns (ok: bool)
    requires table.Length == EntryCount
    modifies table
    ensures ok <==> SeedAccepted(old(table[..]))
    ensures table[..] == RebuiltUpTo(old(table[..]), globeRotation, RebuiltCount(old(table[..])))
    ensures ok ==> table[..] == Rebuilt(old(table[..]), globeRotation)
  {
    ghost var seed := table[..];
    var dxax := AsU32(MagicValue * globeRotation);
    dxax := dxax - dxax % 0x1_0000;

    if table[0].unk0 != 0 || table[0].unk1 == 0 {
      assert table[..] == RebuiltUpTo(seed, globeRotation, 0);
      return false;
    }
    table[0] := table[0].(fpHi := Hi(dxax), fpLo := Lo(dxax));

    dxax := AsU32(dxax + 0x8000);
    var bx := AsU16(dxax / MagicValue);

    var i := 1;
    while i != MaxTilt + 1
      invariant 1 <= i <= EntryCount
      invariant bx == ScaleFactor(globeRotation)
      invariant forall j | 1 <= j < i :: seed[j].unk0 != 0
      invariant table[..] == RebuiltUpTo(seed, globeRotation, i)
    {
      if table[i].unk0 == 0 {
        assert FirstZeroUnk0(seed, 1) == i by { FirstZeroIs(seed, 1, i); }
        return false;
      }
      var product := AsU32(2 * bx * table[i].unk1);
      table[i] := table[i].(fpHi := Hi(product), fpLo := Lo(product));
      i := i + 1;
    }
    assert FirstZeroUnk0(seed, 1) == EntryCount by { FirstZeroIs(seed, 1, EntryCount); }
    return true;
  }

  lemma {:induction false} FirstZeroIs(seed: seq<RotationEntry>, from: nat, i: nat)
    requires from <= i <= |seed|
    requires forall j | from <= j < i :: seed[j].unk0 != 0
    requires i < |seed| ==> seed[i].unk0 == 0
    ensures FirstZeroUnk0(seed, from) == i
    decreases i - from
  {
    if from < i {
      FirstZeroIs(seed, from + 1, i);
    }
  }

  /** Entry 0 after a rebuild: its fractional half is zero and its whole
      half is floor(398 * rotation / 65536), at most 397; no entry's
      seed words change. */
  lemma RebuiltFirstEntry(seed: seq<RotationEntry>, rotation: u16)
    requires |seed| == EntryCount
    ensures Rebuilt(seed, rotation)[0].fpLo == 0
    ensures Rebuilt(seed, rotation)[0].fpHi == MagicValue * rotation / 0x1_0000 <= 397
    ensures forall i | 0 <= i < EntryCount ::
      Rebuilt(seed, rotation)[i].unk0 == seed[i].unk0 && Rebuilt(seed, rotation)[i].unk1 == seed[i].unk1
  {
  }

  lemma MulMonotone(a: nat, b: nat, c: nat, d: nat)
    requires a <= c && b <= d
    ensures a * b <= c * d
  {
  }

  /** Entries 1..98 after a rebuild hold 2 * bx * unk1 modulo 2^32 as a
      16.16 value; when unk1 <= 199 (the range func1 demands) the product
      does not wrap and the whole half is at most 397. */
  lemma RebuiltLaterEntry(seed: seq<RotationEntry>, rotation: u16, i: nat)
    requires |seed| == EntryCount && 1 <= i < EntryCount
    ensures var e := Rebuilt(seed, rotation)[i];
      e.fpHi * 0x1_0000 + e.fpLo == (2 * ScaleFactor(rotation) * seed[i].unk1) % 0x1_0000_0000
    ensures seed[i].unk1 <= 199 ==>
      var e := Rebuilt(seed, rotation)[i];
      e.fpHi * 0x1_0000 + e.fpLo == 2 * ScaleFactor(rotation) * seed[i].unk1 && e.fpHi <= 397
  {
    var bx := ScaleFactor(rotation);
    if seed[i].unk1 <= 199 {
      MulMonotone(2 * bx, seed[i].unk1, 2 * 65453, 199);
      assert 2 * bx * seed[i].unk1 <= 26050294;
    }
  }
}
