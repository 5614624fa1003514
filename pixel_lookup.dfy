/** The per-pixel pipeline of main.cpp: func1 looks a tilt word up in a pair
    of slice tables and the rotation table, color_map_offset and pixel_color
    turn the result into a palette index, set_pixel_color and func2 store it. */
module PixelLookup {
  import opened FixedWidth
  import opened Faults
  import opened RotationTable
  import TiltTable
  import opened Traces

  /** Each slice table holds 99 values (its trailing unused byte is not part
      of the model). */
  const SliceValues: nat := 99

  /** table_slices_t: the left (table0) and right (table1) slice tables. */
  datatype TableSlices = TableSlices(table0: seq<u8>, table1: seq<u8>)

  predicate WellSized(s: TableSlices)
  {
    |s.table0| == SliceValues && |s.table1| == SliceValues
  }

  /** The global tables the pipeline reads: the rotation table, the tilt
      table and the MAP_BIN asset. */
  datatype Tables = Tables(rotation: seq<RotationEntry>, tilt: seq<u16>, mapData: seq<u8>)

  predicate ValidTables(t: Tables)
  {
    |t.rotation| == EntryCount && |t.tilt| == TiltTable.TableSize
  }

  /** result_t */
  datatype Func1Result = Func1Result(gd: i16, grlt0: i16, grlt1: u16, entryFpHi: u16)

  function Abs(x: int): nat
  {
    if x < 0 then -x else x
  }

  /** Every check func1 makes, written on unbounded integers: the low byte of
      ofs1 in [-98, 98], an even table0 byte of at most 196, an entry with
      unk0 <= 25334 and even, 3 <= unk1 <= 199, fp_hi <= 397, a table1 byte
      of at most 99 and a resulting gd in [0, 195]. */
  predicate Func1Admits(tables: TableSlices, rotation: seq<RotationEntry>, ofs1: i16)
    requires WellSized(tables) && |rotation| == EntryCount
  {
    var lo := LoByte(ofs1);
    -98 <= lo <= 98 &&
    var offset := Abs(lo);
    var index := tables.table0[offset];
    index <= 196 && index % 2 == 0 &&
    var e := rotation[index / 2];
    e.unk0 <= 25334 && e.unk0 % 2 == 0 && 3 <= e.unk1 <= 199 && e.fpHi <= 397 &&
    tables.table1[offset] <= 99 &&
    0 <= (if lo < 0 then e.unk1 - tables.table1[offset] else tables.table1[offset]) <= 195
  }

  /** func1. Each assert_throw is an InvariantViolation. The checks of
      main.cpp:216 (offset1 in [0, 98]), the range half of main.cpp:233 and
      main.cpp:246 can never fail and are not repeated here; the contract
      shows why. */
  function Func1(tables: TableSlices, rotation: seq<RotationEntry>, ofs1: i16): (r: Result<Func1Result>)
    requires WellSized(tables) && |rotation| == EntryCount
    ensures r.Ok? <==> Func1Admits(tables, rotation, ofs1)
    ensures r.Err? ==> r.fault == InvariantViolation
    ensures r.Ok? ==>
      0 <= r.value.gd <= 195 &&
      -25334 <= r.value.grlt0 <= 25334 && r.value.grlt0 % 2 == 0 &&
      6 <= r.value.grlt1 <= 398 && r.value.grlt1 % 2 == 0 &&
      r.value.entryFpHi <= 397
    ensures r.Ok? ==>
      var lo := LoByte(ofs1);
      var e := rotation[tables.table0[Abs(lo)] / 2];
      r.value.grlt0 == (if ofs1 < 0 then -(e.unk0 as int) else e.unk0 as int) &&
      r.value.gd == (if lo < 0 then e.unk1 - tables.table1[Abs(lo)] else tables.table1[Abs(lo)]) &&
      r.value.grlt1 == 2 * e.unk1 &&
      r.value.entryFpHi == e.fpHi
  {
    var lo := LoByte(ofs1);
    if !(-98 <= lo <= 98) then Err(InvariantViolation)
    else
      var offset1 := if lo < 0 then -lo else lo;
      var indexFromGd1 := tables.table0[offset1];
      if !(indexFromGd1 <= 196 && indexFromGd1 % 2 == 0) then Err(InvariantViolation)
      else
        var entry := rotation[indexFromGd1 / 2];
        if !(entry.unk0 <= 25334) then Err(InvariantViolation)
        else if !(3 <= entry.unk1 <= 199) then Err(InvariantViolation)
        else if !(entry.fpHi <= 397) then Err(InvariantViolation)
        else
          var grlt0 := AsI16(if ofs1 < 0 then -(entry.unk0 as int) else entry.unk0 as int);
          if !(grlt0 % 2 == 0) then Err(InvariantViolation)
          else
            var indexFromGd2 := tables.table1[offset1];
            if !(indexFromGd2 <= 99) then Err(InvariantViolation)
            else
              var gd := AsI16(if lo < 0 then entry.unk1 - indexFromGd2 else indexFromGd2);
              if !(0 <= gd <= 195) then Err(InvariantViolation)
              else
                Ok(Func1Result(gd, grlt0, AsU16(entry.unk1 * 2), entry.fpHi))
  }

  /** color_map_offset: value, plus adjust1 when value is negative, plus
      adjust2, each sum stored back into the int16_t value. */
  function ColorMapOffset(value: i16, adjust1: i16, adjust2: i16): (r: i16)
    ensures (r - ((if value < 0 then value + adjust1 else value) + adjust2)) % 0x1_0000 == 0
    ensures (value >= 0 || value + adjust1 < 0x8000) &&
            -0x8000 <= (if value < 0 then value + adjust1 else value) + adjust2 < 0x8000 ==>
            r == (if value < 0 then value + adjust1 else value) + adjust2
  {
    var v := if value < 0 then AsI16(value + adjust1) else value;
    AsI16(v + adjust2)
  }

  /** pixel_color: the low nibble of the map byte moved to palette entry
      0x10, and moved 12 further when bits 4-5 read 01 and the nibble is
      below 8. (`value & 0x0f` is value % 16 and `value & 0x30` is
      16 * ((value / 16) % 4).) */
  function PixelColor(value: u8): (c: u8)
    ensures 0x10 <= c <= 0x23
    ensures (value / 16) % 4 != 1 || value % 16 >= 8 ==> c == 0x10 + value % 16
    ensures (value / 16) % 4 == 1 && value % 16 < 8 ==> c == 0x1C + value % 16
  {
    var color := value % 16;
    var color' := if (value / 16) % 4 == 1 && color < 8 then color + 12 else color;
    AsU8(color' + 0x10)
  }

  /** MAGIC_OFS1: set_pixel_color reads MAP_BIN from this offset. */
  const MapCenter: int := 0x62FC

  /** set_pixel_color: check the map offset, read the map byte, store its
      colour at the framebuffer offset. */
  function PixelTrace(mapData: seq<u8>, fbOffset: int, mapOfs: int): (t: Trace)
    ensures t.fault.None? ==>
      -25334 <= mapOfs <= 25339 && 0 <= MapCenter + mapOfs < |mapData| &&
      t.writes == [PixelWrite(fbOffset, PixelColor(mapData[MapCenter + mapOfs]))]
    ensures t.fault.None? <==>
      -25334 <= mapOfs <= 25339 && 0 <= MapCenter + mapOfs < |mapData| && 0 <= fbOffset < FramebufferSize
    ensures t.fault.Some? ==> t.writes == []
  {
    if !(-25334 <= mapOfs <= 25339) then Stop(InvariantViolation)
    else if !(0 <= MapCenter + mapOfs < |mapData|) then Stop(OutOfBounds)
    else if !(0 <= fbOffset < FramebufferSize) then Stop(OutOfBounds)
    else Trace([PixelWrite(fbOffset, PixelColor(mapData[MapCenter + mapOfs]))], None)
  }

  method SetPixelColor(fb: array<u8>, fbOffset: int, mapData: seq<u8>, mapOfs: int) returns (fault: Option<Fault>)
    requires fb.Length == FramebufferSize
    modifies fb
    ensures fault == PixelTrace(mapData, fbOffset, mapOfs).fault
    ensures fb[..] == ApplyWrites(old(fb[..]), PixelTrace(mapData, fbOffset, mapOfs).writes)
  {
    if !(-25334 <= mapOfs <= 25339) {
      return Some(InvariantViolation);
    }
    if !(0 <= MapCenter + mapOfs < |mapData|) {
      return Some(OutOfBounds);
    }
    if !(0 <= fbOffset < fb.Length) {
      return Some(OutOfBounds);
    }
    fb[fbOffset] := PixelColor(mapData[MapCenter + mapOfs]);
    fault := None;
    assert [PixelWrite(fbOffset, PixelColor(mapData[MapCenter + mapOfs]))][..0] == [];
  }

  /** The map offsets func2 passes for the left and the right pixel. */
  function LeftMapOffset(res: Func1Result): i16
  {
    ColorMapOffset(AsI16(res.entryFpHi - res.gd), AsI16(res.grlt1), res.grlt0)
  }

  function RightMapOffset(res: Func1Result): i16
  {
    ColorMapOffset(AsI16(res.entryFpHi + res.gd - res.grlt1), AsI16(res.grlt1), res.grlt0)
  }

  /** For every result func1 accepts, neither map offset wraps: each is the
      plain integer formula, within +-26000. */
  lemma MapOffsetsExact(res: Func1Result)
    requires 0 <= res.gd <= 195 && -25334 <= res.grlt0 <= 25334
    requires 6 <= res.grlt1 <= 398 && res.entryFpHi <= 397
    ensures var v := res.entryFpHi - res.gd;
      LeftMapOffset(res) == (if v < 0 then v + res.grlt1 else v) + res.grlt0
    ensures var v := res.entryFpHi + res.gd - res.grlt1;
      RightMapOffset(res) == (if v < 0 then v + res.grlt1 else v) + res.grlt0
    ensures -26000 <= LeftMapOffset(res) <= 26000 && -26000 <= RightMapOffset(res) <= 26000
  {
  }

  /** func2: the tilt word for gd_val, func1, then the left and the right
      pixel. The re-checks of main.cpp:292-295 always hold after func1
      (see its contract) and are not repeated. */
  function Func2Trace(tables: Tables, slices: TableSlices, gdVal: i8, left: int, right: int): (t: Trace)
    requires ValidTables(tables) && WellSized(slices)
    ensures |t.writes| <= 2
    ensures t.fault.None? ==> |t.writes| == 2
    ensures |t.writes| >= 1 ==> t.writes[0].offset == left && 0 <= left < FramebufferSize
    ensures |t.writes| == 2 ==> t.writes[1].offset == right && 0 <= right < FramebufferSize
    ensures forall i | 0 <= i < |t.writes| :: 0x10 <= t.writes[i].color <= 0x23
  {
    var index := TiltTable.MaxTilt + gdVal;
    if !(0 <= index < |tables.tilt|) then Stop(OutOfBounds)
    else
      match Func1(slices, tables.rotation, AsI16(tables.tilt[index]))
      case Err(f) => Stop(f)
      case Ok(res) =>
        Then(PixelTrace(tables.mapData, left, LeftMapOffset(res)),
             PixelTrace(tables.mapData, right, RightMapOffset(res)))
  }

  method Func2(fb: array<u8>, tables: Tables, slices: TableSlices, gdVal: i8, left: int, right: int)
    returns (fault: Option<Fault>)
    requires ValidTables(tables) && WellSized(slices) && fb.Length == FramebufferSize
    modifies fb
    ensures fault == Func2Trace(tables, slices, gdVal, left, right).fault
    ensures fb[..] == ApplyWrites(old(fb[..]), Func2Trace(tables, slices, gdVal, left, right).writes)
  {
    var index := TiltTable.MaxTilt + gdVal;
    if !(0 <= index < |tables.tilt|) {
      return Some(OutOfBounds);
    }
    var someValue := tables.tilt[index];
    var res := Func1(slices, tables.rotation, AsI16(someValue));
    if res.Err? {
      return Some(res.fault);
    }
    ghost var fb0 := fb[..];
    fault := SetPixelColor(fb, left, tables.mapData, LeftMapOffset(res.value));
    if fault.Some? {
      return;
    }
    ghost var first := PixelTrace(tables.mapData, left, LeftMapOffset(res.value)).writes;
    fault := SetPixelColor(fb, right, tables.mapData, RightMapOffset(res.value));
    ApplyWritesAppend(fb0, first, PixelTrace(tables.mapData, right, RightMapOffset(res.value)).writes);
  }
}
