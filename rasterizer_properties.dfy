/** What the traces of draw_hemisphere and draw_globe look like: mirrored
    pixel pairs around the row start, one row per ring, the north half above
    row 80 and the south half from row 80 down. */
module RasterizerProperties {
  import opened FixedWidth
  import opened Faults
  import opened Traces
  import opened PixelLookup
  import opened Rasterizer

  /** Entries k .. of a ring write mirrored pairs: write 2j is j places left
      of the row start (at lineStart - 1 - (k + j)), write 2j + 1 is j places
      right of it (at lineStart + k + j), each for a ring entry that has a
      slice; a ring drawn without a fault writes two pixels per entry. */
  lemma {:induction false} RingTraceShape(tables: Tables, slices: seq<TableSlices>, ring: seq<u8>, k: nat,
                                          h: Hemisphere, lineStart: int)
    requires ValidTables(tables) && ValidSlices(slices) && k <= |ring|
    ensures var t := RingTrace(tables, slices, ring, k, h, lineStart);
      (t.fault.None? ==> |t.writes| == 2 * (|ring| - k)) &&
      forall i | 0 <= i < |t.writes| ::
        k + i / 2 < |ring| && k + i / 2 < |slices| &&
        t.writes[i].offset == (if i % 2 == 0 then lineStart - 1 - (k + i / 2) else lineStart + (k + i / 2)) &&
        0 <= t.writes[i].offset < FramebufferSize && 0x10 <= t.writes[i].color <= 0x23
    decreases |ring| - k
  {
    var t := RingTrace(tables, slices, ring, k, h, lineStart);
    if k < |ring| {
      assert t == EntryThen(tables, slices, ring, k, h, lineStart);
      var e := EntryTrace(tables, slices, ring, k, h, lineStart);
      var rest := RingTrace(tables, slices, ring, k + 1, h, lineStart);
      EntryShape(tables, slices, ring, k, h, lineStart);
      RingTraceShape(tables, slices, ring, k + 1, h, lineStart);
      if e.fault.None? {
        ShiftedPairs(e.writes, rest.writes, k, lineStart);
      }
    }
  }

  /** One entry writes the pair for slice k, or part of it before a fault. */
  lemma EntryShape(tables: Tables, slices: seq<TableSlices>, ring: seq<u8>, k: nat,
                   h: Hemisphere, lineStart: int)
    requires ValidTables(tables) && ValidSlices(slices) && k < |ring|
    ensures var e := EntryTrace(tables, slices, ring, k, h, lineStart);
      |e.writes| <= 2 && (e.fault.None? ==> |e.writes| == 2) &&
      (|e.writes| > 0 ==> k < |slices|) &&
      forall i | 0 <= i < |e.writes| ::
        e.writes[i].offset == (if i == 0 then lineStart - 1 - k else lineStart + k) &&
        0 <= e.writes[i].offset < FramebufferSize && 0x10 <= e.writes[i].color <= 0x23
  {
  }

  /** Appending the pairs of the later entries after the pair of entry k. */
  lemma ShiftedPairs(first: seq<PixelWrite>, rest: seq<PixelWrite>, k: nat, lineStart: int)
    requires |first| == 2
    requires first[0].offset == lineStart - 1 - k && first[1].offset == lineStart + k
    requires forall i | 0 <= i < |rest| ::
      rest[i].offset == (if i % 2 == 0 then lineStart - 1 - (k + 1 + i / 2) else lineStart + (k + 1 + i / 2))
    ensures forall i | 0 <= i < |first + rest| ::
      (first + rest)[i].offset == (if i % 2 == 0 then lineStart - 1 - (k + i / 2) else lineStart + (k + i / 2))
  {
    forall i | 2 <= i < |first + rest|
      ensures (first + rest)[i] == rest[i - 2] && (i - 2) / 2 == i / 2 - 1 && (i - 2) % 2 == i % 2
    {
    }
  }

  /** A ring drawn without a fault has no more entries than there are slices
      (all_slices[index] exists for every index). */
  lemma {:induction false} FaultFreeRingFits(tables: Tables, slices: seq<TableSlices>, ring: seq<u8>, k: nat,
                                             h: Hemisphere, lineStart: int)
    requires ValidTables(tables) && ValidSlices(slices) && k < |ring|
    requires RingTrace(tables, slices, ring, k, h, lineStart).fault.None?
    ensures |ring| <= |slices|
    decreases |ring| - k
  {
    assert RingTrace(tables, slices, ring, k, h, lineStart) == EntryThen(tables, slices, ring, k, h, lineStart);
    if k + 1 < |ring| {
      FaultFreeRingFits(tables, slices, ring, k + 1, h, lineStart);
    }
  }

  /** The row start of a ring drawn in row `row`. */
  function RowStart(row: int): (r: int)
    ensures r % FramebufferWidth == 160 && r / FramebufferWidth == row
  {
    FrameBufferOffset(160, row)
  }

  /** Every write lands in the framebuffer, in the columns 96 .. 223 (64
      slices either side of column 160) and in the rows top .. bottom. */
  predicate WithinRows(ws: seq<PixelWrite>, top: int, bottom: int)
  {
    forall i | 0 <= i < |ws| ::
      0 <= ws[i].offset < FramebufferSize &&
      96 <= ws[i].offset % FramebufferWidth <= 223 &&
      top <= ws[i].offset / FramebufferWidth <= bottom
  }

  lemma WithinRowsThen(a: Trace, b: Trace, top: int, bottom: int)
    requires WithinRows(a.writes, top, bottom) && WithinRows(b.writes, top, bottom)
    ensures WithinRows(Then(a, b).writes, top, bottom)
  {
    if a.fault.None? {
      var ws := Then(a, b).writes;
      forall i | |a.writes| <= i < |ws|
        ensures ws[i] == b.writes[i - |a.writes|]
      {
      }
    }
  }

  /** Rows outside the framebuffer bound nothing. */
  lemma WithinRowsWiden(ws: seq<PixelWrite>, top: int, bottom: int, top': int, bottom': int)
    requires WithinRows(ws, top, bottom)
    requires top' <= top || top' <= 0
    requires bottom <= bottom' || bottom' >= FramebufferHeight - 1
    ensures WithinRows(ws, top', bottom')
  {
  }

  /** A ring drawn from row `row` stays in that row. */
  lemma RingRow(tables: Tables, slices: seq<TableSlices>, ring: seq<u8>, h: Hemisphere, row: int)
    requires ValidTables(tables) && ValidSlices(slices) && |slices| == SliceCount
    ensures WithinRows(RingTrace(tables, slices, ring, 0, h, RowStart(row)).writes, row, row)
  {
    var r := RingTrace(tables, slices, ring, 0, h, RowStart(row));
    RingTraceShape(tables, slices, ring, 0, h, RowStart(row));
    forall i | 0 <= i < |r.writes|
      ensures r.writes[i].offset % FramebufferWidth == (if i % 2 == 0 then 159 - i / 2 else 160 + i / 2)
      ensures r.writes[i].offset / FramebufferWidth == row
    {
      var x := if i % 2 == 0 then 159 - i / 2 else 160 + i / 2;
      assert r.writes[i].offset == FrameBufferOffset(x, row);
    }
  }

  /** Rings gl .. drawn from row `row` stay in that row and the rows above
      it (north) or below it (south). */
  lemma {:induction false} RingsRows(tables: Tables, slices: seq<TableSlices>, lines: seq<seq<u8>>, gl: nat,
                                     h: Hemisphere, row: int)
    requires ValidTables(tables) && ValidSlices(slices) && |slices| == SliceCount
    ensures WithinRows(RingsTrace(tables, slices, lines, gl, h, RowStart(row)).writes,
                       if h == North then 0 else row, if h == North then row else FramebufferHeight - 1)
    decreases |lines| - gl
  {
    var top := if h == North then 0 else row;
    var bottom := if h == North then row else FramebufferHeight - 1;
    var lineStart := RowStart(row);
    if gl < |lines| {
      assert RingsTrace(tables, slices, lines, gl, h, lineStart) == RingThen(tables, slices, lines, gl, h, lineStart);
      var r := RingTrace(tables, slices, lines[gl], 0, h, lineStart);
      var next := if h == North then row - 1 else row + 1;
      assert lineStart + LineIncrement(h) == RowStart(next);
      var rest := RingsTrace(tables, slices, lines, gl + 1, h, RowStart(next));
      RingRow(tables, slices, lines[gl], h, row);
      WithinRowsWiden(r.writes, row, row, top, bottom);
      RingsRows(tables, slices, lines, gl + 1, h, next);
      WithinRowsWiden(rest.writes, if h == North then 0 else next, if h == North then next else FramebufferHeight - 1, top, bottom);
      WithinRowsThen(r, rest, top, bottom);
    }
  }

  /** The north pass draws in rows 0 .. 79 and the south pass in rows
      80 .. 199, both within the columns 96 .. 223. */
  lemma HemisphereRows(tables: Tables, slices: seq<TableSlices>, lines: seq<seq<u8>>, h: Hemisphere)
    requires ValidTables(tables) && ValidSlices(slices) && |slices| == SliceCount
    ensures WithinRows(HemisphereTrace(tables, slices, lines, h).writes,
                       if h == North then 0 else 80, if h == North then 79 else FramebufferHeight - 1)
  {
    var row := if h == North then 79 else 80;
    assert FirstLineStart(h) == RowStart(row);
    RingsRows(tables, slices, lines, StartLine(h), h, row);
  }

  /** Every pixel of the north pass lies before every pixel of the south
      pass in the framebuffer, so the south pass never draws over the north
      pass. */
  lemma NorthBeforeSouth(tables: Tables, slices: seq<TableSlices>, lines: seq<seq<u8>>)
    requires ValidTables(tables) && ValidSlices(slices) && |slices| == SliceCount
    ensures var north := HemisphereTrace(tables, slices, lines, North);
      var south := HemisphereTrace(tables, slices, lines, South);
      forall i, j | 0 <= i < |north.writes| && 0 <= j < |south.writes| ::
        north.writes[i].offset < 80 * FramebufferWidth <= south.writes[j].offset
  {
    HemisphereRows(tables, slices, lines, North);
    HemisphereRows(tables, slices, lines, South);
  }

  /** Rings before gl play no part in drawing rings gl .. */
  lemma {:induction false} RingsIgnoreEarlier(tables: Tables, slices: seq<TableSlices>,
                                              lines: seq<seq<u8>>, other: seq<seq<u8>>, gl: nat,
                                              h: Hemisphere, lineStart: int)
    requires ValidTables(tables) && ValidSlices(slices)
    requires |lines| == |other| && forall j | gl <= j < |lines| :: lines[j] == other[j]
    ensures RingsTrace(tables, slices, lines, gl, h, lineStart) == RingsTrace(tables, slices, other, gl, h, lineStart)
    decreases |lines| - gl
  {
    if gl < |lines| {
      assert RingsTrace(tables, slices, lines, gl, h, lineStart) == RingThen(tables, slices, lines, gl, h, lineStart);
      assert RingsTrace(tables, slices, other, gl, h, lineStart) == RingThen(tables, slices, other, gl, h, lineStart);
      RingsIgnoreEarlier(tables, slices, lines, other, gl + 1, h, lineStart + LineIncrement(h));
    }
  }

  /** Rings gl .. of lines are rings gl - 1 .. of lines without its first ring. */
  lemma {:induction false} RingsShift(tables: Tables, slices: seq<TableSlices>, lines: seq<seq<u8>>, gl: nat,
                                      h: Hemisphere, lineStart: int)
    requires ValidTables(tables) && ValidSlices(slices) && 1 <= gl <= |lines|
    ensures RingsTrace(tables, slices, lines, gl, h, lineStart)
         == RingsTrace(tables, slices, lines[1..], gl - 1, h, lineStart)
    decreases |lines| - gl
  {
    if gl < |lines| {
      assert lines[1..][gl - 1] == lines[gl];
      assert RingsTrace(tables, slices, lines, gl, h, lineStart) == RingThen(tables, slices, lines, gl, h, lineStart);
      assert RingsTrace(tables, slices, lines[1..], gl - 1, h, lineStart)
          == RingThen(tables, slices, lines[1..], gl - 1, h, lineStart);
      RingsShift(tables, slices, lines, gl + 1, h, lineStart + LineIncrement(h));
    }
  }

  /** The south pass starts at ring 1: ring 0 (the northernmost row) is
      drawn by the north pass only. */
  lemma SouthSkipsRingZero(tables: Tables, slices: seq<TableSlices>, lines: seq<seq<u8>>, other: seq<seq<u8>>)
    requires ValidTables(tables) && ValidSlices(slices)
    requires |lines| == |other| && |lines| >= 1 && lines[1..] == other[1..]
    ensures HemisphereTrace(tables, slices, lines, South) == HemisphereTrace(tables, slices, other, South)
  {
    forall j | 1 <= j < |lines|
      ensures lines[j] == other[j]
    {
      assert lines[j] == lines[1..][j - 1];
    }
    RingsIgnoreEarlier(tables, slices, lines, other, 1, South, FirstLineStart(South));
  }
}
