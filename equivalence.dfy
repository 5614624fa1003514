/** The register-level draw_globe of initial_port.cpp against the readable
    draw_globe of main.cpp: on every outline parse_unk0 accepts, whose
    header byte is where the south pass restarts, and on which main.cpp
    draws without a fault, both store the same pixels in the same order. */
module PortEquivalence {
  import opened FixedWidth
  import opened Faults
  import opened Traces
  import opened RotationTable
  import opened PixelLookup
  import opened InitialPort
  import OutlineParser
  import Rasterizer
  import opened PortDraw

  /** The tables main.cpp reads, over the same bytes and words as the port:
      the flat rotation words read as records. */
  function MainTables(d: PortData): (t: Tables)
    requires ValidData(d)
    ensures ValidTables(t)
  {
    Tables(Entries(d.rotation), d.tilt, d.mapData)
  }

  /** si at entry k of a ring: slice k. */
  function SliceCursor(k: nat): u16
    requires k <= Rasterizer.SliceCount
  {
    FirstSlice + SliceStride * k
  }

  /** The tilt table index: cs_1CAC + int8(b) (negated in the south pass)
      is MAX_TILT + gd_val. */
  lemma TiltIndexAgrees(b: u8, h: Rasterizer.Hemisphere)
    ensures TiltIndex(b, h == Rasterizer.South) == TiltTable.MaxTilt + Rasterizer.GdValue(b, h == Rasterizer.North)
  {
    if h == Rasterizer.South {
      var ax := AsU16(-(b as int));
      AsI8Congruent(ax % 0x100, -(b as int));
      AsI8Congruent(-(AsI8(b) as int), -(b as int));
    }
  }

  /** The slice offset bp is |lo(ofs1)|, negated exactly when lo(ofs1) < 0. */
  lemma SliceOffsetAgrees(word: u16)
    ensures SliceOffset(word) == (Abs(LoByte(AsI16(word))), LoByte(AsI16(word)) < 0)
    ensures Uint16AsInt16(word) < 0 <==> AsI16(word) < 0
  {
    var lo := LoByte(AsI16(word));
    AsI8Congruent(word % 0x100, AsI16(word) % 0x100);
    assert Uint8AsInt8(word % 0x100) == lo;
    var ax := AsU16(lo);
    assert ax == (if lo < 0 then lo as int + 0x1_0000 else lo as int);
    assert Uint16AsInt16(ax) == lo;
  }

  /** The reads of slice k and of the rotation words at the slice offset
      are the reads func1 makes of all_slices[k] and of entry t0 / 2. */
  lemma TableLookupAgrees(d: PortData, word: u16, k: nat)
    requires ValidData(d) && k < Rasterizer.SliceCount
    requires Func1(Rasterizer.SliceAt(d.globdata, k), Entries(d.rotation), AsI16(word)).Ok?
    ensures var res := Func1(Rasterizer.SliceAt(d.globdata, k), Entries(d.rotation), AsI16(word)).value;
      var lo := LoByte(AsI16(word));
      TableLookup(d, word, Abs(lo), lo < 0, SliceCursor(k))
        == Ok(LookupOf(res))
  {
    var slices := Rasterizer.SliceAt(d.globdata, k);
    var lo := LoByte(AsI16(word));
    var bp: int := Abs(lo);
    var si: int := SliceCursor(k);
    var t0: int := d.globdata[bp + si];
    var t1 := d.globdata[bp + si + Table1Offset];
    assert t0 == slices.table0[bp] && t1 == slices.table1[bp];
    EvenIndexEntry(d.rotation, t0);
    var e := Entries(d.rotation)[t0 / 2];
    assert TableLookup(d, word, bp, lo < 0, si) == Ok(SignedLookup(word, lo < 0, t1, e.unk0, e.unk1, e.fpHi));
    SliceOffsetAgrees(word);
  }

  /** With the lookups func1 accepts, the registers after the port's
      lookups hold gd, grlt_0, unk1 and fp_hi of func1's result. */
  lemma LookupAgrees(d: PortData, b: u8, h: Rasterizer.Hemisphere, k: nat)
    requires ValidData(d) && k < Rasterizer.SliceCount
    requires 0 <= TiltTable.MaxTilt + Rasterizer.GdValue(b, h == Rasterizer.North) < TiltTable.TableSize
    requires var word := d.tilt[TiltTable.MaxTilt + Rasterizer.GdValue(b, h == Rasterizer.North)];
      Func1(Rasterizer.SliceAt(d.globdata, k), Entries(d.rotation), AsI16(word)).Ok?
    ensures var word := d.tilt[TiltTable.MaxTilt + Rasterizer.GdValue(b, h == Rasterizer.North)];
      var res := Func1(Rasterizer.SliceAt(d.globdata, k), Entries(d.rotation), AsI16(word)).value;
      PortLookup(d, b, h == Rasterizer.South, SliceCursor(k))
        == Ok(LookupOf(res))
  {
    TiltIndexAgrees(b, h);
    var word := d.tilt[TiltTable.MaxTilt + Rasterizer.GdValue(b, h == Rasterizer.North)];
    SliceOffsetAgrees(word);
    TableLookupAgrees(d, word, k);
  }

  /** A uint16_t store of a value within one wrap of the range. */
  lemma U16Window(x: int)
    requires -0x1_0000 <= x < 0x2_0000
    ensures AsU16(x) == if x < 0 then x + 0x1_0000 else if x < 0x1_0000 then x else x - 0x1_0000
  {
  }

  /** The port's map offset arithmetic on uint16_t registers, for an
      offset v, cx = adjust1 and bx = adjust2 whose sums stay within
      int16_t, reads back as color_map_offset's exact sum. */
  lemma PortMapOffsetExact(v: i16, adjust1: u16, adjust2: i16)
    requires -0x8000 <= (if v < 0 then v + adjust1 else v) + adjust2 < 0x8000
    ensures Uint16AsInt16(PortMapOffset(AsU16(v), adjust1, AsU16(adjust2)))
         == (if v < 0 then v + adjust1 else v) + adjust2
  {
    var bp := AsU16(v);
    U16Window(v);
    assert Uint16AsInt16(bp) == v;
    var bp' := if v < 0 then AsU16(bp as int + adjust1) else bp;
    if v < 0 {
      U16Window(bp as int + adjust1);
    }
    var bx := AsU16(adjust2);
    U16Window(adjust2);
    U16Window(bp' as int + bx);
  }

  /** The registers the lookups leave for a result of func1. */
  function LookupOf(res: Func1Result): Lookup
    requires 0 <= res.gd
  {
    Lookup(res.gd, AsU16(res.grlt0), res.grlt1 / 2, res.entryFpHi)
  }

  /** For the results func1 returns, the left map offset of the port reads
      back as func2's. */
  lemma LeftOffsetAgrees(res: Func1Result)
    requires 0 <= res.gd <= 195 && -25334 <= res.grlt0 <= 25334
    requires 6 <= res.grlt1 <= 398 && res.grlt1 % 2 == 0 && res.entryFpHi <= 397
    ensures Uint16AsInt16(LeftOffset(LookupOf(res))) == LeftMapOffset(res)
  {
    MapOffsetsExact(res);
    var r := LookupOf(res);
    assert r.cx as int * 2 == res.grlt1;
    U16Window(res.grlt1);
    assert LeftOffset(r) == PortMapOffset(AsU16(res.entryFpHi - res.gd), res.grlt1, AsU16(res.grlt0));
    PortMapOffsetExact(res.entryFpHi - res.gd, res.grlt1, res.grlt0);
  }

  /** The same for the right map offset. */
  lemma RightOffsetAgrees(res: Func1Result)
    requires 0 <= res.gd <= 195 && -25334 <= res.grlt0 <= 25334
    requires 6 <= res.grlt1 <= 398 && res.grlt1 % 2 == 0 && res.entryFpHi <= 397
    ensures Uint16AsInt16(RightOffset(LookupOf(res))) == RightMapOffset(res)
  {
    MapOffsetsExact(res);
    var r := LookupOf(res);
    assert r.cx as int * 2 == res.grlt1;
    U16Window(res.grlt1);
    U16Window(res.entryFpHi + res.gd);
    var v := res.entryFpHi + res.gd - res.grlt1;
    assert RightOffset(r) == PortMapOffset(AsU16(v), res.grlt1, AsU16(res.grlt0));
    PortMapOffsetExact(v, res.grlt1, res.grlt0);
  }

  /** A pixel set_pixel_color stores is the pixel the port stores, for a
      register bp that reads back as the map offset. */
  lemma PixelAgrees(mapData: seq<u8>, x: int, cursor: u16, bp: u16, mapOfs: int)
    requires cursor as int == x && Uint16AsInt16(bp) == mapOfs
    requires PixelTrace(mapData, x, mapOfs).fault.None?
    ensures PortPixel(mapData, cursor, bp) == PixelTrace(mapData, x, mapOfs)
  {
  }

  /** Once func1 accepts, func2 is its two pixels. */
  lemma Func2Pixels(tables: Tables, slices: TableSlices, gdVal: i8, left: int, right: int)
    requires ValidTables(tables) && WellSized(slices)
    requires 0 <= TiltTable.MaxTilt + gdVal < |tables.tilt|
    requires Func1(slices, tables.rotation, AsI16(tables.tilt[TiltTable.MaxTilt + gdVal])).Ok?
    ensures var res := Func1(slices, tables.rotation, AsI16(tables.tilt[TiltTable.MaxTilt + gdVal])).value;
      Func2Trace(tables, slices, gdVal, left, right)
        == Then(PixelTrace(tables.mapData, left, LeftMapOffset(res)),
                PixelTrace(tables.mapData, right, RightMapOffset(res)))
  {
  }

  /** cs_1CAE and cs_1CB0 at entry k of a ring: k pixels left of the pixel
      before the row start and k pixels right of the row start. */
  function LeftCursor(lineStart: int, k: nat): u16
  {
    AsU16(lineStart - 1 - k)
  }

  function RightCursor(lineStart: int, k: nat): u16
  {
    AsU16(lineStart + k)
  }

  /** Cursors that stay inside the 16-bit range are the row positions
      themselves. */
  lemma CursorsExact(lineStart: int, k: nat)
    ensures 0 <= lineStart - 1 - k < 0x1_0000 ==> LeftCursor(lineStart, k) as int == lineStart - 1 - k
    ensures 0 <= lineStart + k < 0x1_0000 ==> RightCursor(lineStart, k) as int == lineStart + k
  {
    if 0 <= lineStart - 1 - k < 0x1_0000 {
      U16Window(lineStart - 1 - k);
    }
    if 0 <= lineStart + k < 0x1_0000 {
      U16Window(lineStart + k);
    }
  }

  /** Entry k of a ring that main.cpp draws without a fault: the port,
      with si at slice k and the cursors k pixels either side of the row
      start, stores the same two pixels. */
  lemma EntryAgrees(d: PortData, ring: seq<u8>, k: nat, h: Rasterizer.Hemisphere, lineStart: int)
    requires ValidData(d) && k < |ring|
    requires Rasterizer.EntryTrace(MainTables(d), Rasterizer.AllSlices(d.globdata), ring, k, h, lineStart).fault.None?
    ensures k < Rasterizer.SliceCount
    ensures PortEntryTrace(d, ring[k], h == Rasterizer.South, SliceCursor(k),
                           LeftCursor(lineStart, k), RightCursor(lineStart, k))
         == Rasterizer.EntryTrace(MainTables(d), Rasterizer.AllSlices(d.globdata), ring, k, h, lineStart)
  {
    var tables := MainTables(d);
    var slices := Rasterizer.AllSlices(d.globdata);
    var b := ring[k];
    var gdVal := Rasterizer.GdValue(b, h == Rasterizer.North);
    var left, right := lineStart - 1 - k, lineStart + k;
    var main := Rasterizer.EntryTrace(tables, slices, ring, k, h, lineStart);
    assert main == Func2Trace(tables, slices[k], gdVal, left, right);
    var index := TiltTable.MaxTilt + gdVal;
    assert 0 <= index < |tables.tilt|;
    var res := Func1(slices[k], tables.rotation, AsI16(d.tilt[index])).value;
    Func2Pixels(tables, slices[k], gdVal, left, right);
    var mainLeft := PixelTrace(d.mapData, left, LeftMapOffset(res));
    var mainRight := PixelTrace(d.mapData, right, RightMapOffset(res));
    assert main == Then(mainLeft, mainRight);
    LookupAgrees(d, b, h, k);
    var r := LookupOf(res);
    var leftCursor, rightCursor := LeftCursor(lineStart, k), RightCursor(lineStart, k);
    EntryPixels(d, b, h == Rasterizer.South, SliceCursor(k), leftCursor, rightCursor, r);
    assert 0 <= left < FramebufferSize && 0 <= right < FramebufferSize;
    CursorsExact(lineStart, k);
    LeftOffsetAgrees(res);
    PixelAgrees(d.mapData, left, leftCursor, LeftOffset(r), LeftMapOffset(res));
    RightOffsetAgrees(res);
    PixelAgrees(d.mapData, right, rightCursor, RightOffset(r), RightMapOffset(res));
  }
}
