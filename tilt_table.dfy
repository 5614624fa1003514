/** globe_tilt_lookup_table and its per-frame rebuild
    (clamp and precalculate_globe_tilt_lookup_table in main.cpp). */
module TiltTable {
  import opened FixedWidth

  const MaxTilt: int := 98
  /** The table has MAX_TILT * 2 slots. */
  const TableSize: nat := 196

  /** clamp: min when value < min, max when value > max, value otherwise,
      returned as a uint16_t. */
  function Clamp(value: i16, min: i16, max: i16): (r: u16)
    ensures min <= max ==> min <= AsI16(r) <= max
    ensures min <= value <= max ==> AsI16(r) == value
    ensures value < min ==> AsI16(r) == min
    ensures min <= value && value > max ==> AsI16(r) == max
  {
    if value < min then AsU16(min)
    else if value > max then AsU16(max)
    else AsU16(value)
  }

  /** The tilt the builder works with: globe_tilt = clamp(globe_tilt, -MAX_TILT, MAX_TILT). */
  function ClampedTilt(tilt: i16): (t: i16)
    ensures -MaxTilt <= t <= MaxTilt
    ensures -MaxTilt <= tilt <= MaxTilt ==> t == tilt
    ensures tilt < -MaxTilt ==> t == -MaxTilt
    ensures tilt > MaxTilt ==> t == MaxTilt
  {
    AsI16(Clamp(tilt, -MaxTilt, MaxTilt))
  }

  /** Clamping twice is clamping once, so the table built from any tilt is
      the table built from its clamped value. */
  lemma ClampIdempotent(tilt: i16)
    ensures ClampedTilt(ClampedTilt(tilt)) == ClampedTilt(tilt)
    ensures TiltTableOf(ClampedTilt(ClampedTilt(tilt))) == TiltTableOf(ClampedTilt(tilt))
  {
  }

  /** `v | 0xff00` stored in a uint16_t: the high byte is forced to 0xff and
      the low byte of v is kept. */
  function OrFF00(v: int): (r: u16)
    ensures r / 0x100 == 0xFF && r % 0x100 == v % 0x100
  {
    0xFF00 + v % 0x100
  }

  /** Stage 1 (only for tilt > 0): --v from tilt - 98, stored as uint8_t,
      down to -98. */
  function Stage1(t: int): (s: seq<u16>)
    requires -MaxTilt <= t <= MaxTilt
  {
    if t > 0 then seq(t, k requires 0 <= k < t => AsU8(t - MaxTilt - 1 - k)) else []
  }

  /** The first value stage 2 stores: tilt + 98 minus the slots already filled. */
  function Stage2Start(t: int): int
  {
    if t > 0 then MaxTilt else t + MaxTilt
  }

  /** Stage 2: v-- from Stage2Start down to 0. */
  function Stage2(t: int): (s: seq<u16>)
    requires -MaxTilt <= t <= MaxTilt
  {
    seq(Stage2Start(t) + 1, k requires 0 <= k <= Stage2Start(t) => Stage2Start(t) - k)
  }

  /** Stage 3: v++ | 0xff00 for v from 1 to 98. */
  function Stage3(): seq<u16>
  {
    seq<u16>(MaxTilt, k requires 0 <= k < MaxTilt => OrFF00(k + 1))
  }

  /** Stage 4: v++ | 0xff00 for v from -98 to 0. */
  function Stage4(): seq<u16>
  {
    seq<u16>(MaxTilt + 1, k requires 0 <= k <= MaxTilt => OrFF00(k - MaxTilt))
  }

  /** Reference definition: the four stages laid end to end, cut at 196 slots. */
  function TiltTableOf(t: int): (table: seq<u16>)
    requires -MaxTilt <= t <= MaxTilt
    ensures |table| == TableSize
  {
    (Stage1(t) + Stage2(t) + Stage3() + Stage4())[..TableSize]
  }

  /** Slot j of the table, read off stage by stage: stage 2 always ends at
      slot t + 99 and stage 3 at slot t + 197. */
  function TiltSlot(t: int, j: nat): (v: u16)
    requires -MaxTilt <= t <= MaxTilt && j < TableSize
  {
    var s1 := if t > 0 then t else 0;
    if j < s1 then AsU8(t - MaxTilt - 1 - j)
    else if j < t + MaxTilt + 1 then Stage2Start(t) - (j - s1)
    else if j < t + 2 * MaxTilt + 1 then OrFF00(j - (t + MaxTilt + 1) + 1)
    else OrFF00(j - (t + 2 * MaxTilt + 1) - MaxTilt)
  }

  lemma TiltSlotIsTableEntry(t: int, j: nat)
    requires -MaxTilt <= t <= MaxTilt && j < TableSize
    ensures TiltTableOf(t)[j] == TiltSlot(t, j)
  {
    var s1, s2, s3, s4 := Stage1(t), Stage2(t), Stage3(), Stage4();
    var all := s1 + s2 + s3 + s4;
    assert |s1| == (if t > 0 then t else 0);
    assert |s1| + |s2| == t + MaxTilt + 1;
    if j < |s1| {
      assert all[j] == s1[j];
    } else if j < |s1| + |s2| {
      assert all[j] == s2[j - |s1|];
    } else if j < |s1| + |s2| + |s3| {
      assert all[j] == s3[j - |s1| - |s2|];
    } else {
      assert all[j] == s4[j - |s1| - |s2| - |s3|];
    }
  }

  lemma TiltTableSlots(t: int)
    requires -MaxTilt <= t <= MaxTilt
    ensures forall j | 0 <= j < TableSize :: TiltTableOf(t)[j] == TiltSlot(t, j)
  {
    forall j | 0 <= j < TableSize ensures TiltTableOf(t)[j] == TiltSlot(t, j) {
      TiltSlotIsTableEntry(t, j);
    }
  }

  /** A table whose every slot agrees with TiltSlot is the reference table. */
  lemma FilledTable(s: seq<u16>, t: int)
    requires -MaxTilt <= t <= MaxTilt && |s| == TableSize
    requires forall j | 0 <= j < TableSize :: s[j] == TiltSlot(t, j)
    ensures s == TiltTableOf(t)
  {
    TiltTableSlots(t);
  }

  /** Every slot's low byte, read as int8_t, lies in [-98, 98]; the high
      byte is 0x00 in the slots of stages 1 and 2 (before slot t + 99) and
      0xff in those of stages 3 and 4. */
  lemma TiltSlotRanges(t: int, j: nat)
    requires -MaxTilt <= t <= MaxTilt && j < TableSize
    ensures -MaxTilt <= LoByte(AsI16(TiltTableOf(t)[j])) <= MaxTilt
    ensures TiltTableOf(t)[j] / 0x100 == (if j < t + MaxTilt + 1 then 0x00 else 0xFF)
  {
    TiltSlotIsTableEntry(t, j);
    SlotRanges(t, j);
  }

  /** The same ranges, stage by stage, on the slot values. */
  lemma SlotRanges(t: int, j: nat)
    requires -MaxTilt <= t <= MaxTilt && j < TableSize
    ensures -MaxTilt <= LoByte(AsI16(TiltSlot(t, j))) <= MaxTilt
    ensures TiltSlot(t, j) / 0x100 == (if j < t + MaxTilt + 1 then 0x00 else 0xFF)
  {
    var s1 := if t > 0 then t else 0;
    if j < s1 {
      LowSlotByte(TiltSlot(t, j), t - MaxTilt - 1 - j);
    } else if j < t + MaxTilt + 1 {
      LowSlotByte(TiltSlot(t, j), TiltSlot(t, j));
    } else if j < t + 2 * MaxTilt + 1 {
      HighSlotByte(j - (t + MaxTilt + 1) + 1);
    } else {
      HighSlotByte(j - (t + 2 * MaxTilt + 1) - MaxTilt);
    }
  }

  /** A slot below 0x100 holding the uint8_t of x reads back as x. */
  lemma LowSlotByte(v: u16, x: int)
    requires -MaxTilt <= x <= MaxTilt && v == AsU8(x)
    ensures LoByte(AsI16(v)) == x && v / 0x100 == 0
  {
    assert AsI16(v) == v;
    if x < 0 {
      assert v == x + 0x100;
    }
  }

  /** A slot v | 0xff00 reads back as v in its low byte. */
  lemma HighSlotByte(x: int)
    requires -MaxTilt <= x <= MaxTilt
    ensures LoByte(AsI16(OrFF00(x))) == x && OrFF00(x) / 0x100 == 0xFF
  {
    var v := OrFF00(x);
    assert AsI16(v) == v as int - 0x1_0000;
    if x < 0 {
      assert v == 0xFF00 + x + 0x100;
      assert AsI16(v) % 0x100 == x + 0x100;
    } else {
      assert AsI16(v) % 0x100 == x;
    }
  }

  /** With no tilt, slots 0..98 count 98 down to 0 and slots 99..195 hold
      0xff01 up to 0xff61. */
  lemma TiltZeroTable()
    ensures forall j | 0 <= j <= MaxTilt :: TiltTableOf(0)[j] == MaxTilt - j
    ensures forall j | MaxTilt < j < TableSize :: TiltTableOf(0)[j] == 0xFF00 + (j - MaxTilt)
    ensures TiltTableOf(0)[MaxTilt + 1] == 0xFF01 && TiltTableOf(0)[TableSize - 1] == 0xFF61
  {
    TiltTableSlots(0);
  }

  /** precalculate_globe_tilt_lookup_table: clamps the tilt and fills all
      196 slots. */
  method PrecalculateTiltTable(table: array<u16>, globeTilt: i16)
    requires table.Length == TableSize
    modifies table
    ensures table[..] == TiltTableOf(ClampedTilt(globeTilt))
  {
    var tilt: i16 := AsI16(Clamp(globeTilt, -MaxTilt, MaxTilt));
    FillTiltTable(table, tilt);
  }

  /** The four counting loops of the tilt builder, stage after stage, each
      stage stopping at the end of the table or at its own bound. The
      builder of initial_port.cpp runs the same loops. */
  method FillTiltTable(table: array<u16>, tilt: i16)
    requires table.Length == TableSize && -MaxTilt <= tilt <= MaxTilt
    modifies table
    ensures table[..] == TiltTableOf(tilt)
  {
    var i := 0;

    // stage 1
    if tilt > 0 {
      var v := tilt - MaxTilt;
      while true
        invariant 0 <= i < tilt
        invariant v == tilt - MaxTilt - i
        invariant forall j | 0 <= j < i :: table[j] == TiltSlot(tilt, j)
        decreases tilt - i
      {
        v := v - 1;
        table[i] := AsU8(v);
        i := i + 1;
        if !(i != TableSize && v > -MaxTilt) {
          break;
        }
      }
    }
    if i == TableSize {
      // never taken: stage 1 stores at most 98 slots
      return;
    }

    // stage 2
    var v := tilt + MaxTilt - i;
    ghost var s1 := i;
    while true
      invariant s1 <= i < TableSize && i <= tilt + MaxTilt
      invariant s1 == (if tilt > 0 then tilt else 0)
      invariant v == Stage2Start(tilt) - (i - s1)
      invariant forall j | 0 <= j < i :: table[j] == TiltSlot(tilt, j)
      decreases TableSize - i
    {
      table[i] := v;
      v := v - 1;
      i := i + 1;
      if !(i != TableSize && v >= 0) {
        break;
      }
    }
    if i == TableSize {
      FilledTable(table[..], tilt);
      return;
    }

    // stage 3
    v := 1;
    while true
      invariant tilt + MaxTilt + 1 <= i < TableSize
      invariant v == i - (tilt + MaxTilt + 1) + 1 <= MaxTilt
      invariant forall j | 0 <= j < i :: table[j] == TiltSlot(tilt, j)
      decreases TableSize - i
    {
      table[i] := OrFF00(v);
      v := v + 1;
      i := i + 1;
      if !(i != TableSize && v <= MaxTilt) {
        break;
      }
    }
    if i == TableSize {
      FilledTable(table[..], tilt);
      return;
    }

    // stage 4
    v := -MaxTilt;
    while true
      invariant tilt + 2 * MaxTilt + 1 <= i < TableSize
      invariant v == i - (tilt + 2 * MaxTilt + 1) - MaxTilt <= 0
      invariant forall j | 0 <= j < i :: table[j] == TiltSlot(tilt, j)
      decreases TableSize - i
    {
      table[i] := OrFF00(v);
      v := v + 1;
      i := i + 1;
      if !(i != TableSize && v <= 0) {
        break;
      }
    }
    FilledTable(table[..], tilt);
  }
}
