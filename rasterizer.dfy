/** draw_hemisphere and draw_globe in main.cpp: the GLOBDATA_BIN slice
    layout and the two cursor loops that write mirrored pixel pairs. */
module Rasterizer {
  import opened FixedWidth
  import opened Faults
  import opened Traces
  import opened PixelLookup

  /** GLOBDATA_BIN_t: a 3290-byte outline header (unk0), 64 slices of 200
      bytes, one unused byte. In a slice, table0 starts at byte 0 and table1
      at byte 100 (0x64). */
  const HeaderSize: nat := 3290
  const SliceCount: nat := 64
  const SliceSize: nat := 200
  const Table1Offset: nat := 100
  const GlobdataSize: nat := HeaderSize + SliceCount * SliceSize + 1

  /** all_slices[k], read out of the asset bytes. */
  function SliceAt(globdata: seq<u8>, k: nat): (s: TableSlices)
    requires |globdata| == GlobdataSize && k < SliceCount
    ensures WellSized(s)
    ensures forall o | 0 <= o < SliceValues ::
      s.table0[o] == globdata[HeaderSize + SliceSize * k + o] &&
      s.table1[o] == globdata[HeaderSize + SliceSize * k + Table1Offset + o]
  {
    var base := HeaderSize + SliceSize * k;
    TableSlices(globdata[base .. base + SliceValues],
                globdata[base + Table1Offset .. base + Table1Offset + SliceValues])
  }

  /** all_slices */
  function AllSlices(globdata: seq<u8>): (slices: seq<TableSlices>)
    requires |globdata| == GlobdataSize
    ensures |slices| == SliceCount && ValidSlices(slices)
  {
    seq(SliceCount, k requires 0 <= k < SliceCount => SliceAt(globdata, k))
  }

  predicate ValidSlices(slices: seq<TableSlices>)
  {
    forall k | 0 <= k < |slices| :: WellSized(slices[k])
  }

  datatype Hemisphere = North | South

  /** frame_buffer_offset: row-major offset of column x in row y. */
  function FrameBufferOffset(x: int, y: int): (r: int)
    ensures 0 <= x < FramebufferWidth ==> r % FramebufferWidth == x && r / FramebufferWidth == y
  {
    y * FramebufferWidth + x
  }

  /** The north pass starts with ring 0, the south pass with ring 1. */
  function StartLine(h: Hemisphere): nat
  {
    if h == North then 0 else 1
  }

  /** The first row start: column 160 of row 79 (north) or of row 80 (south). */
  function FirstLineStart(h: Hemisphere): int
  {
    if h == North then FrameBufferOffset(160, 80 - 1) else FrameBufferOffset(160, 80 + 0)
  }

  /** framebuffer_line_inc: one row up (north) or down (south). */
  function LineIncrement(h: Hemisphere): int
  {
    if h == North then -(FramebufferWidth as int) else FramebufferWidth
  }

  /** The int8_t gd_val func2 receives for a ring byte: the byte read as
      int8_t, negated in the south. */
  function GdValue(b: u8, isNorth: bool): (g: i8)
    ensures b < 0x80 ==> g == (if isNorth then b as int else -(b as int))
  {
    var gdVal := AsI8(b);
    AsI8(if isNorth then gdVal as int else -(gdVal as int))
  }

  /** Entry k of a ring: func2 with slice k, the left pixel k places left of
      the row start and the right pixel k places right of it. Slice k must
      exist (all_slices has 64 entries). */
  function EntryTrace(tables: Tables, slices: seq<TableSlices>, ring: seq<u8>, k: nat,
                      h: Hemisphere, lineStart: int): Trace
    requires ValidTables(tables) && ValidSlices(slices) && k < |ring|
  {
    if k >= |slices| then Stop(OutOfBounds)
    else Func2Trace(tables, slices[k], GdValue(ring[k], h == North), lineStart - 1 - k, lineStart + k)
  }

  /** Entries k .. |ring|-1 of a ring. RingTrace and EntryThen unfold one
      step each, so that a proof about a whole ring does not see every entry. */
  function RingTrace(tables: Tables, slices: seq<TableSlices>, ring: seq<u8>, k: nat,
                     h: Hemisphere, lineStart: int): Trace
    requires ValidTables(tables) && ValidSlices(slices)
    decreases |ring| - k, 1
  {
    if k >= |ring| then Done() else EntryThen(tables, slices, ring, k, h, lineStart)
  }

  /** Entry k of a ring, then the entries after it. */
  function EntryThen(tables: Tables, slices: seq<TableSlices>, ring: seq<u8>, k: nat,
                     h: Hemisphere, lineStart: int): Trace
    requires ValidTables(tables) && ValidSlices(slices) && k < |ring|
    decreases |ring| - k, 0
  {
    Then(EntryTrace(tables, slices, ring, k, h, lineStart),
         RingTrace(tables, slices, ring, k + 1, h, lineStart))
  }

  /** Rings gl .. |lines|-1, one row apart. */
  function RingsTrace(tables: Tables, slices: seq<TableSlices>, lines: seq<seq<u8>>, gl: nat,
                      h: Hemisphere, lineStart: int): Trace
    requires ValidTables(tables) && ValidSlices(slices)
    decreases |lines| - gl, 1
  {
    if gl >= |lines| then Done() else RingThen(tables, slices, lines, gl, h, lineStart)
  }

  /** Ring gl, then the rings after it. */
  function RingThen(tables: Tables, slices: seq<TableSlices>, lines: seq<seq<u8>>, gl: nat,
                    h: Hemisphere, lineStart: int): Trace
    requires ValidTables(tables) && ValidSlices(slices) && gl < |lines|
    decreases |lines| - gl, 0
  {
    Then(RingTrace(tables, slices, lines[gl], 0, h, lineStart),
         RingsTrace(tables, slices, lines, gl + 1, h, lineStart + LineIncrement(h)))
  }

  /** draw_hemisphere */
  function HemisphereTrace(tables: Tables, slices: seq<TableSlices>, lines: seq<seq<u8>>,
                           h: Hemisphere): Trace
    requires ValidTables(tables) && ValidSlices(slices)
  {
    RingsTrace(tables, slices, lines, StartLine(h), h, FirstLineStart(h))
  }

  /** draw_globe: the north pass, then the south pass. */
  function GlobeTrace(tables: Tables, slices: seq<TableSlices>, lines: seq<seq<u8>>): Trace
    requires ValidTables(tables) && ValidSlices(slices)
  {
    Then(HemisphereTrace(tables, slices, lines, North), HemisphereTrace(tables, slices, lines, South))
  }

  /** One more entry of a ring drawn without a fault. */
  lemma RingStep(whole: Trace, done: seq<PixelWrite>, tables: Tables, slices: seq<TableSlices>,
                 ring: seq<u8>, k: nat, h: Hemisphere, lineStart: int)
    requires ValidTables(tables) && ValidSlices(slices) && k < |ring|
    requires whole == Then(Trace(done, None), RingTrace(tables, slices, ring, k, h, lineStart))
    requires EntryTrace(tables, slices, ring, k, h, lineStart).fault.None?
    ensures whole == Then(Trace(done + EntryTrace(tables, slices, ring, k, h, lineStart).writes, None),
                          RingTrace(tables, slices, ring, k + 1, h, lineStart))
  {
    assert RingTrace(tables, slices, ring, k, h, lineStart) == EntryThen(tables, slices, ring, k, h, lineStart);
    ThenStep(done, EntryTrace(tables, slices, ring, k, h, lineStart),
             RingTrace(tables, slices, ring, k + 1, h, lineStart));
  }

  /** An entry of a ring that faults ends the drawing. */
  lemma RingHalt(whole: Trace, done: seq<PixelWrite>, tables: Tables, slices: seq<TableSlices>,
                 ring: seq<u8>, k: nat, h: Hemisphere, lineStart: int)
    requires ValidTables(tables) && ValidSlices(slices) && k < |ring|
    requires whole == Then(Trace(done, None), RingTrace(tables, slices, ring, k, h, lineStart))
    requires EntryTrace(tables, slices, ring, k, h, lineStart).fault.Some?
    ensures whole.fault == EntryTrace(tables, slices, ring, k, h, lineStart).fault
    ensures whole.writes == done + EntryTrace(tables, slices, ring, k, h, lineStart).writes
  {
    assert RingTrace(tables, slices, ring, k, h, lineStart) == EntryThen(tables, slices, ring, k, h, lineStart);
    ThenHalt(done, EntryTrace(tables, slices, ring, k, h, lineStart),
             RingTrace(tables, slices, ring, k + 1, h, lineStart));
  }

  /** One more ring drawn without a fault. */
  lemma RingsStep(whole: Trace, done: seq<PixelWrite>, tables: Tables, slices: seq<TableSlices>,
                  lines: seq<seq<u8>>, gl: nat, h: Hemisphere, lineStart: int)
    requires ValidTables(tables) && ValidSlices(slices) && gl < |lines|
    requires whole == Then(Trace(done, None), RingsTrace(tables, slices, lines, gl, h, lineStart))
    requires RingTrace(tables, slices, lines[gl], 0, h, lineStart).fault.None?
    ensures whole == Then(Trace(done + RingTrace(tables, slices, lines[gl], 0, h, lineStart).writes, None),
                          RingsTrace(tables, slices, lines, gl + 1, h, lineStart + LineIncrement(h)))
  {
    assert RingsTrace(tables, slices, lines, gl, h, lineStart) == RingThen(tables, slices, lines, gl, h, lineStart);
    ThenStep(done, RingTrace(tables, slices, lines[gl], 0, h, lineStart),
             RingsTrace(tables, slices, lines, gl + 1, h, lineStart + LineIncrement(h)));
  }

  /** A ring that faults ends the drawing. */
  lemma RingsHalt(whole: Trace, done: seq<PixelWrite>, tables: Tables, slices: seq<TableSlices>,
                  lines: seq<seq<u8>>, gl: nat, h: Hemisphere, lineStart: int)
    requires ValidTables(tables) && ValidSlices(slices) && gl < |lines|
    requires whole == Then(Trace(done, None), RingsTrace(tables, slices, lines, gl, h, lineStart))
    requires RingTrace(tables, slices, lines[gl], 0, h, lineStart).fault.Some?
    ensures whole.fault == RingTrace(tables, slices, lines[gl], 0, h, lineStart).fault
    ensures whole.writes == done + RingTrace(tables, slices, lines[gl], 0, h, lineStart).writes
  {
    assert RingsTrace(tables, slices, lines, gl, h, lineStart) == RingThen(tables, slices, lines, gl, h, lineStart);
    ThenHalt(done, RingTrace(tables, slices, lines[gl], 0, h, lineStart),
             RingsTrace(tables, slices, lines, gl + 1, h, lineStart + LineIncrement(h)));
  }

  /** Nothing is left to draw. */
  lemma Finished(whole: Trace, done: seq<PixelWrite>, rest: Trace)
    requires whole == Then(Trace(done, None), rest) && rest == Done()
    ensures whole == Trace(done, None)
  {
    assert done + [] == done;
  }

  /** Nothing is drawn yet. */
  lemma Started(whole: Trace)
    ensures whole == Then(Trace([], None), whole)
  {
    assert [] + whole.writes == whole.writes;
  }

  /** One iteration of the inner loop of draw_hemisphere: func2 for entry k
      with slice k, whose absence (k >= 64) is an out-of-range access. */
  method DrawEntry(fb: array<u8>, hemisphere: Hemisphere, ring: seq<u8>, k: nat, lineStart: int,
                   leftOfs: int, rightOfs: int, slices: seq<TableSlices>, tables: Tables)
    returns (fault: Option<Fault>)
    requires fb.Length == FramebufferSize && ValidTables(tables) && ValidSlices(slices) && k < |ring|
    requires leftOfs == lineStart - 1 - k && rightOfs == lineStart + k
    modifies fb
    ensures fault == EntryTrace(tables, slices, ring, k, hemisphere, lineStart).fault
    ensures fb[..] == ApplyWrites(old(fb[..]), EntryTrace(tables, slices, ring, k, hemisphere, lineStart).writes)
  {
    if k >= |slices| {
      return Some(OutOfBounds);
    }
    ghost var before := fb[..];
    ghost var t := Func2Trace(tables, slices[k], GdValue(ring[k], hemisphere == North), leftOfs, rightOfs);
    assert t == EntryTrace(tables, slices, ring, k, hemisphere, lineStart);
    fault := Func2(fb, tables, slices[k], GdValue(ring[k], hemisphere == North), leftOfs, rightOfs);
    assert fb[..] == ApplyWrites(before, t.writes);
  }

  /** The inner loop of draw_hemisphere: one func2 call per ring entry, the
      left cursor moving left and the right cursor moving right. */
  method DrawRing(fb: array<u8>, hemisphere: Hemisphere, line: seq<u8>, lineStart: int,
                  slices: seq<TableSlices>, tables: Tables)
    returns (fault: Option<Fault>)
    requires fb.Length == FramebufferSize && ValidTables(tables) && ValidSlices(slices)
    modifies fb
    ensures fault == RingTrace(tables, slices, line, 0, hemisphere, lineStart).fault
    ensures fb[..] == ApplyWrites(old(fb[..]), RingTrace(tables, slices, line, 0, hemisphere, lineStart).writes)
  {
    ghost var whole := RingTrace(tables, slices, line, 0, hemisphere, lineStart);
    ghost var done: seq<PixelWrite> := [];
    Started(whole);
    var leftOfs := lineStart - 1;
    var rightOfs := lineStart;
    var index := 0;
    while index < |line|
      invariant 0 <= index <= |line|
      invariant fb[..] == ApplyWrites(old(fb[..]), done)
      invariant whole == Then(Trace(done, None), RingTrace(tables, slices, line, index, hemisphere, lineStart))
      invariant leftOfs == lineStart - 1 - index && rightOfs == lineStart + index
      decreases |line| - index
    {
      ghost var entry := EntryTrace(tables, slices, line, index, hemisphere, lineStart);
      fault := DrawEntry(fb, hemisphere, line, index, lineStart, leftOfs, rightOfs, slices, tables);
      leftOfs := leftOfs - 1;
      rightOfs := rightOfs + 1;
      ApplyWritesAppend(old(fb[..]), done, entry.writes);
      if fault.Some? {
        RingHalt(whole, done, tables, slices, line, index, hemisphere, lineStart);
        return;
      }
      RingStep(whole, done, tables, slices, line, index, hemisphere, lineStart);
      done := done + entry.writes;
      index := index + 1;
    }
    Finished(whole, done, RingTrace(tables, slices, line, index, hemisphere, lineStart));
    fault := None;
  }

  method DrawHemisphere(fb: array<u8>, hemisphere: Hemisphere, lines: seq<seq<u8>>,
                        slices: seq<TableSlices>, tables: Tables)
    returns (fault: Option<Fault>)
    requires fb.Length == FramebufferSize && ValidTables(tables) && ValidSlices(slices)
    modifies fb
    ensures fault == HemisphereTrace(tables, slices, lines, hemisphere).fault
    ensures fb[..] == ApplyWrites(old(fb[..]), HemisphereTrace(tables, slices, lines, hemisphere).writes)
  {
    var isNorth := hemisphere == North;
    var startLine := if isNorth then 0 else 1;
    var globeCenterOfs := if isNorth then FrameBufferOffset(160, 80 - 1) else FrameBufferOffset(160, 80 + 0);
    var lineInc := if isNorth then -(FramebufferWidth as int) else FramebufferWidth;
    var lineStart := globeCenterOfs;
    assert lineInc == LineIncrement(hemisphere);

    ghost var whole := HemisphereTrace(tables, slices, lines, hemisphere);
    ghost var done: seq<PixelWrite> := [];
    Started(whole);

    var gl := startLine;
    while gl < |lines|
      invariant fb[..] == ApplyWrites(old(fb[..]), done)
      invariant whole == Then(Trace(done, None), RingsTrace(tables, slices, lines, gl, hemisphere, lineStart))
      decreases |lines| - gl
    {
      ghost var ring := RingTrace(tables, slices, lines[gl], 0, hemisphere, lineStart);
      fault := DrawRing(fb, hemisphere, lines[gl], lineStart, slices, tables);
      ApplyWritesAppend(old(fb[..]), done, ring.writes);
      if fault.Some? {
        RingsHalt(whole, done, tables, slices, lines, gl, hemisphere, lineStart);
        return;
      }
      RingsStep(whole, done, tables, slices, lines, gl, hemisphere, lineStart);
      done := done + ring.writes;
      lineStart := lineStart + lineInc;
      gl := gl + 1;
      assert whole == Then(Trace(done, None), RingsTrace(tables, slices, lines, gl, hemisphere, lineStart));
    }
    Finished(whole, done, RingsTrace(tables, slices, lines, gl, hemisphere, lineStart));
    fault := None;
  }

  method DrawGlobe(fb: array<u8>, lines: seq<seq<u8>>, slices: seq<TableSlices>, tables: Tables)
    returns (fault: Option<Fault>)
    requires fb.Length == FramebufferSize && ValidTables(tables) && ValidSlices(slices)
    modifies fb
    ensures fault == GlobeTrace(tables, slices, lines).fault
    ensures fb[..] == ApplyWrites(old(fb[..]), GlobeTrace(tables, slices, lines).writes)
  {
    fault := DrawHemisphere(fb, North, lines, slices, tables);
    if fault.Some? {
      return;
    }
    ghost var northWrites := HemisphereTrace(tables, slices, lines, North).writes;
    fault := DrawHemisphere(fb, South, lines, slices, tables);
    ApplyWritesAppend(old(fb[..]), northWrites, HemisphereTrace(tables, slices, lines, South).writes);
  }
}
