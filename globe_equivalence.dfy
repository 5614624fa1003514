/** The port's stream state machine against main.cpp's rings and passes:
    entry by entry, ring by ring and pass by pass, the port stores the
    pixels main.cpp stores, and the whole of draw_globe agrees. */
module GlobeEquivalence {
  import opened FixedWidth
  import opened Faults
  import opened Traces
  import opened InitialPort
  import OutlineParser
  import Rasterizer
  import RasterizerProperties
  import opened PortDraw
  import opened PortEquivalence

  /** A uint16_t store forgets whole wraps of what it is given. */
  lemma AsU16Shift(x: int, c: int)
    ensures AsU16(AsU16(x) + c) == AsU16(x + c)
  {
    var q := x / 0x1_0000;
    assert x == q * 0x1_0000 + AsU16(x);
    assert x + c == q * 0x1_0000 + (AsU16(x) + c);
  }

  /** After an entry the port moves si by 200 and each cursor by one pixel:
      the cursors of entry k + 1. */
  lemma CursorsAdvance(lineStart: int, k: nat)
    requires k < Rasterizer.SliceCount
    ensures AsU16(SliceCursor(k) as int + SliceStride) == SliceCursor(k + 1)
    ensures AsU16(LeftCursor(lineStart, k) as int - 1) == LeftCursor(lineStart, k + 1)
    ensures AsU16(RightCursor(lineStart, k) as int + 1) == RightCursor(lineStart, k + 1)
  {
    AsU16Shift(lineStart - 1 - k, -1);
    AsU16Shift(lineStart + k, 1);
  }

  /** cs_1CB2 += cs_1CB4 on uint16_t is main.cpp's line_start += framebuffer_line_inc. */
  lemma LineStepAgrees(lineStart: int, h: Rasterizer.Hemisphere)
    ensures AsU16(AsU16(lineStart) as int + LineStep(h == Rasterizer.South))
         == AsU16(lineStart + Rasterizer.LineIncrement(h))
  {
    var step := LineStep(h == Rasterizer.South);
    AsU16Shift(lineStart, step);
    if h == Rasterizer.North {
      AsU16Shift(lineStart - 320, 0x1_0000);
      assert lineStart + step == (lineStart - 320) + 0x1_0000;
    }
  }

  /** One step of the inner loop after an entry. */
  lemma AdvanceStep(d: PortData, di: nat, south: bool, si: u16, left: u16, right: u16, lineStart: u16)
    requires ValidData(d) && di <= |d.globdata|
    ensures Advance(d, di, south, si, left, right, lineStart)
         == NextEntry(d, di, south, AsU16(si as int + SliceStride), AsU16(left as int - 1),
                      AsU16(right as int + 1), lineStart)
  {
  }

  /** A byte below 0x80 read by the loop test is the next entry. */
  lemma EntryStep(d: PortData, di: nat, south: bool, si: u16, left: u16, right: u16, lineStart: u16)
    requires ValidData(d) && di < |d.globdata| && d.globdata[di] < 0x80
    ensures NextEntry(d, di, south, si, left, right, lineStart)
         == PortRing(d, d.globdata[di], di + 1, south, si, left, right, lineStart)
  {
  }

  /** The first entry of a ring: the pass reading a ring byte at p is the
      inner loop at entry 0. */
  lemma RingEntered(d: PortData, p: nat, south: bool, lineStart: int)
    requires ValidData(d) && p < |d.globdata| && d.globdata[p] < 0x80
    ensures PortPass(d, p, south, AsU16(lineStart))
         == NextEntry(d, p, south, SliceCursor(0), LeftCursor(lineStart, 0), RightCursor(lineStart, 0),
                      AsU16(lineStart))
  {
    AsU16Shift(lineStart, -1);
  }

  /** Entry k of a ring laid out at p, drawn by main.cpp without a fault:
      the port draws it and moves to entry k + 1. */
  lemma EntryThenAgrees(d: PortData, ring: seq<u8>, p: nat, k: nat, di: nat, h: Rasterizer.Hemisphere,
                        lineStart: int)
    requires ValidData(d) && k < |ring| <= Rasterizer.SliceCount && di == p + k
    requires p + |ring| < |d.globdata| && d.globdata[p .. p + |ring|] == ring
    requires forall j | 0 <= j < |ring| :: ring[j] < 0x80
    requires Rasterizer.RingTrace(MainTables(d), Rasterizer.AllSlices(d.globdata), ring, k, h, lineStart).fault.None?
    ensures var entry := Rasterizer.EntryTrace(MainTables(d), Rasterizer.AllSlices(d.globdata), ring, k, h, lineStart);
      var later := Rasterizer.RingTrace(MainTables(d), Rasterizer.AllSlices(d.globdata), ring, k + 1, h, lineStart);
      entry.fault.None? && later.fault.None? &&
      Rasterizer.RingTrace(MainTables(d), Rasterizer.AllSlices(d.globdata), ring, k, h, lineStart) == Then(entry, later) &&
      NextEntry(d, di, h == Rasterizer.South, SliceCursor(k), LeftCursor(lineStart, k),
                RightCursor(lineStart, k), AsU16(lineStart))
      == Then(entry, NextEntry(d, di + 1, h == Rasterizer.South, SliceCursor(k + 1), LeftCursor(lineStart, k + 1),
                               RightCursor(lineStart, k + 1), AsU16(lineStart)))
  {
    var south := h == Rasterizer.South;
    var u := AsU16(lineStart);
    var si, left, right := SliceCursor(k), LeftCursor(lineStart, k), RightCursor(lineStart, k);
    var tables, slices := MainTables(d), Rasterizer.AllSlices(d.globdata);
    assert d.globdata[di] == ring[k];
    var entry := Rasterizer.EntryTrace(tables, slices, ring, k, h, lineStart);
    var later := Rasterizer.RingTrace(tables, slices, ring, k + 1, h, lineStart);
    assert Rasterizer.RingTrace(tables, slices, ring, k, h, lineStart) == Then(entry, later);
    EntryAgrees(d, ring, k, h, lineStart);
    CursorsAdvance(lineStart, k);
    AdvanceStep(d, di + 1, south, si, left, right, u);
    EntryStep(d, di, south, si, left, right, u);
  }

  /** Entries k .. of a ring laid out at p and closed by a negative byte:
      when main.cpp draws them without a fault, the port draws the same
      pixels and then goes on with the next ring one row further. */
  lemma {:induction false} RingAgrees(d: PortData, ring: seq<u8>, p: nat, k: nat, di: nat,
                                      h: Rasterizer.Hemisphere, lineStart: int)
    requires ValidData(d) && k <= |ring| <= Rasterizer.SliceCount && di == p + k
    requires p + |ring| < |d.globdata| && d.globdata[p .. p + |ring|] == ring
    requires forall j | 0 <= j < |ring| :: ring[j] < 0x80
    requires d.globdata[p + |ring|] >= 0x80
    requires Rasterizer.RingTrace(MainTables(d), Rasterizer.AllSlices(d.globdata), ring, k, h, lineStart).fault.None?
    ensures NextEntry(d, di, h == Rasterizer.South, SliceCursor(k),
                      LeftCursor(lineStart, k), RightCursor(lineStart, k), AsU16(lineStart))
         == Then(Rasterizer.RingTrace(MainTables(d), Rasterizer.AllSlices(d.globdata), ring, k, h, lineStart),
                 PortPass(d, p + |ring| + 1, h == Rasterizer.South, AsU16(lineStart + Rasterizer.LineIncrement(h))))
    decreases |ring| - k
  {
    var south := h == Rasterizer.South;
    var tables, slices := MainTables(d), Rasterizer.AllSlices(d.globdata);
    var rest := PortPass(d, p + |ring| + 1, south, AsU16(lineStart + Rasterizer.LineIncrement(h)));
    if k == |ring| {
      LineStepAgrees(lineStart, h);
    } else {
      var entry := Rasterizer.EntryTrace(tables, slices, ring, k, h, lineStart);
      var later := Rasterizer.RingTrace(tables, slices, ring, k + 1, h, lineStart);
      EntryThenAgrees(d, ring, p, k, di, h, lineStart);
      RingAgrees(d, ring, p, k + 1, di + 1, h, lineStart);
      ThenAssociative(entry, later, rest);
    }
  }

  /** The first of the rings laid out from p, and where the others start. */
  lemma FirstRing(g: seq<u8>, p: nat, rings: seq<seq<u8>>, ring: seq<u8>, rest: seq<seq<u8>>)
    requires OutlineParser.RingsAt(g, p, rings) && rings != [] && ring == rings[0] && rest == rings[1..]
    ensures 1 <= |ring| && p + |ring| < |g| && g[p .. p + |ring|] == ring
    ensures forall j | 0 <= j < |ring| :: ring[j] < 0x80
    ensures g[p] < 0x80 && g[p + |ring|] >= 0x80
    ensures OutlineParser.RingsAt(g, p + |ring| + 1, rest)
  {
    assert g[p] == g[p .. p + |ring|][0];
  }

  /** The first ring of the rings laid out at p: where the next ring
      starts, and main.cpp draws the others without a fault. */
  lemma RestLaidOut(d: PortData, rings: seq<seq<u8>>, p: nat, h: Rasterizer.Hemisphere, lineStart: int)
    requires ValidData(d) && rings != []
    requires OutlineParser.RingsAt(d.globdata, p, rings)
    requires Rasterizer.RingsTrace(MainTables(d), Rasterizer.AllSlices(d.globdata), rings, 0, h, lineStart).fault.None?
    ensures p + |rings[0]| + 1 < |d.globdata|
    ensures OutlineParser.RingsAt(d.globdata, p + |rings[0]| + 1, rings[1..])
    ensures Rasterizer.RingsTrace(MainTables(d), Rasterizer.AllSlices(d.globdata), rings[1..], 0, h,
                                  lineStart + Rasterizer.LineIncrement(h)).fault.None?
  {
    RingsUnfold(d, rings, h, lineStart);
  }

  /** main.cpp's rings: the first ring, then the others one row further. */
  lemma RingsUnfold(d: PortData, rings: seq<seq<u8>>, h: Rasterizer.Hemisphere, lineStart: int)
    requires ValidData(d) && rings != []
    ensures Rasterizer.RingsTrace(MainTables(d), Rasterizer.AllSlices(d.globdata), rings, 0, h, lineStart)
         == Then(Rasterizer.RingTrace(MainTables(d), Rasterizer.AllSlices(d.globdata), rings[0], 0, h, lineStart),
                 Rasterizer.RingsTrace(MainTables(d), Rasterizer.AllSlices(d.globdata), rings[1..], 0, h,
                                       lineStart + Rasterizer.LineIncrement(h)))
  {
    var tables, slices := MainTables(d), Rasterizer.AllSlices(d.globdata);
    RasterizerProperties.RingsShift(tables, slices, rings, 1, h, lineStart + Rasterizer.LineIncrement(h));
  }

  /** The first of the rings laid out at p: the port's pass draws it as
      main.cpp does and then starts the next ring's pass one row further. */
  lemma RingThenRest(d: PortData, rings: seq<seq<u8>>, p: nat, h: Rasterizer.Hemisphere, lineStart: int)
    requires ValidData(d) && rings != []
    requires OutlineParser.RingsAt(d.globdata, p, rings)
    requires Rasterizer.RingsTrace(MainTables(d), Rasterizer.AllSlices(d.globdata), rings, 0, h, lineStart).fault.None?
    ensures PortPass(d, p, h == Rasterizer.South, AsU16(lineStart))
         == Then(Rasterizer.RingTrace(MainTables(d), Rasterizer.AllSlices(d.globdata), rings[0], 0, h, lineStart),
                 PortPass(d, p + |rings[0]| + 1, h == Rasterizer.South, AsU16(lineStart + Rasterizer.LineIncrement(h))))
  {
    var south := h == Rasterizer.South;
    var tables, slices := MainTables(d), Rasterizer.AllSlices(d.globdata);
    var ring := rings[0];
    FirstRing(d.globdata, p, rings, ring, rings[1..]);
    RingsUnfold(d, rings, h, lineStart);
    RasterizerProperties.FaultFreeRingFits(tables, slices, ring, 0, h, lineStart);
    RingEntered(d, p, south, lineStart);
    RingAgrees(d, ring, p, 0, p, h, lineStart);
  }

  /** One ring of a pass: given that the port's pass from the next ring
      draws main.cpp's remaining rings, the pass from this ring draws this
      ring and then those. */
  lemma PassStep(d: PortData, rings: seq<seq<u8>>, p: nat, h: Rasterizer.Hemisphere, lineStart: int, end: Trace)
    requires ValidData(d) && rings != []
    requires OutlineParser.RingsAt(d.globdata, p, rings)
    requires Rasterizer.RingsTrace(MainTables(d), Rasterizer.AllSlices(d.globdata), rings, 0, h, lineStart).fault.None?
    requires p + |rings[0]| + 1 < |d.globdata|
    requires PortPass(d, p + |rings[0]| + 1, h == Rasterizer.South, AsU16(lineStart + Rasterizer.LineIncrement(h)))
          == Then(Rasterizer.RingsTrace(MainTables(d), Rasterizer.AllSlices(d.globdata), rings[1..], 0, h,
                                        lineStart + Rasterizer.LineIncrement(h)), end)
    ensures PortPass(d, p, h == Rasterizer.South, AsU16(lineStart))
         == Then(Rasterizer.RingsTrace(MainTables(d), Rasterizer.AllSlices(d.globdata), rings, 0, h, lineStart), end)
  {
    var tables, slices := MainTables(d), Rasterizer.AllSlices(d.globdata);
    var next := lineStart + Rasterizer.LineIncrement(h);
    RingsUnfold(d, rings, h, lineStart);
    RingThenRest(d, rings, p, h, lineStart);
    ThenAssociative(Rasterizer.RingTrace(tables, slices, rings[0], 0, h, lineStart),
                    Rasterizer.RingsTrace(tables, slices, rings[1..], 0, h, next), end);
  }

  /** No ring left: the closing byte ends the pass. */
  lemma PassEmpty(d: PortData, p: nat, h: Rasterizer.Hemisphere, lineStart: int, end: Trace)
    requires ValidData(d) && OutlineParser.RingsAt(d.globdata, p, [])
    requires end == if h == Rasterizer.South then Done() else SouthPass(d)
    ensures PortPass(d, p, h == Rasterizer.South, AsU16(lineStart))
         == Then(Rasterizer.RingsTrace(MainTables(d), Rasterizer.AllSlices(d.globdata), [], 0, h, lineStart), end)
  {
    PassEnds(d, p, h == Rasterizer.South, AsU16(lineStart));
  }

  /** The rings laid out from p as parse_unk0 reads them: when main.cpp
      draws them without a fault, the port's pass from p draws the same
      pixels, then (in the north pass) goes on with the south pass. */
  lemma {:induction false} PassAgrees(d: PortData, rings: seq<seq<u8>>, p: nat,
                                      h: Rasterizer.Hemisphere, lineStart: int, end: Trace)
    requires ValidData(d)
    requires OutlineParser.RingsAt(d.globdata, p, rings)
    requires Rasterizer.RingsTrace(MainTables(d), Rasterizer.AllSlices(d.globdata), rings, 0, h, lineStart).fault.None?
    requires end == if h == Rasterizer.South then Done() else SouthPass(d)
    ensures PortPass(d, p, h == Rasterizer.South, AsU16(lineStart))
         == Then(Rasterizer.RingsTrace(MainTables(d), Rasterizer.AllSlices(d.globdata), rings, 0, h, lineStart), end)
    decreases |rings|
  {
    if rings == [] {
      PassEmpty(d, p, h, lineStart, end);
    } else {
      RestLaidOut(d, rings, p, h, lineStart);
      PassAgrees(d, rings[1..], p + |rings[0]| + 1, h, lineStart + Rasterizer.LineIncrement(h), end);
      PassStep(d, rings, p, h, lineStart, end);
    }
  }

  /** A ring byte at the head of the outer loop starts a ring. */
  lemma PassRing(d: PortData, p: nat, south: bool, lineStart: u16)
    requires ValidData(d) && p < |d.globdata| && d.globdata[p] < 0x80
    ensures PortPass(d, p, south, lineStart) == RingThenPass(d, d.globdata[p], p + 1, south, lineStart)
  {
  }

  /** A step that ends normally and writes nothing changes nothing after it. */
  lemma ThenDone(a: Trace)
    ensures Then(a, Done()) == a
  {
    assert a.writes + [] == a.writes;
  }

  /** parse_unk0 reads the outline out of the first 3290 bytes of
      GLOBDATA_BIN; the same layout holds of the whole asset. */
  lemma {:induction false} RingsAtWiden(blob: seq<u8>, g: seq<u8>, p: nat, rings: seq<seq<u8>>)
    requires |blob| <= |g| && blob == g[..|blob|]
    requires OutlineParser.RingsAt(blob, p, rings)
    ensures OutlineParser.RingsAt(g, p, rings)
    decreases |rings|
  {
    assert blob[p] == g[p];
    if rings != [] {
      var n := |rings[0]|;
      assert p + n < |blob|;
      assert g[p .. p + n] == blob[p .. p + n] by {
        forall i | p <= i < p + n
          ensures g[i] == blob[i]
        {
        }
      }
      assert blob[p + n] == g[p + n];
      RingsAtWiden(blob, g, p + n + 1, rings[1..]);
    }
  }

  /** The south pass restarts the stream at 1 - int8(GLOBDATA_BIN[0]);
      the outline is consistent with it when that is where ring 1 starts,
      right after ring 0 and its closing byte. */
  predicate HeaderMatches(g: seq<u8>, lines: seq<seq<u8>>)
  {
    |g| >= 1 && |lines| >= 1 && -(Uint8AsInt8(g[0]) as int) == |lines[0]| + 1
  }

  /** The shipped header byte, -65: the south pass restarts at index 66,
      so the header points at ring 1 exactly when ring 0 holds 64 entries. */
  lemma ShippedHeader(g: seq<u8>, lines: seq<seq<u8>>)
    requires |g| >= 1 && |lines| >= 1 && g[RingsOffset - 1] == 0xBF
    ensures AsU16(RingsOffset - Uint8AsInt8(g[RingsOffset - 1])) == 66
    ensures HeaderMatches(g, lines) <==> |lines[0]| == 64
  {
  }

  /** When main.cpp's north pass runs without a fault, the outline has a
      second ring: its rings hold at most 64 entries each, too few for one
      ring to fill the 2866 bytes before the closing -1. */
  lemma AtLeastTwoRings(d: PortData, lines: seq<seq<u8>>)
    requires ValidData(d) && OutlineParser.RingsAt(d.globdata, 1, lines)
    requires Rasterizer.HemisphereTrace(MainTables(d), Rasterizer.AllSlices(d.globdata), lines,
                                        Rasterizer.North).fault.None?
    ensures |lines| >= 2
  {
    var tables, slices := MainTables(d), Rasterizer.AllSlices(d.globdata);
    assert lines != [];
    FirstRing(d.globdata, 1, lines, lines[0], lines[1..]);
    RingsUnfold(d, lines, Rasterizer.North, Rasterizer.FirstLineStart(Rasterizer.North));
    RasterizerProperties.FaultFreeRingFits(tables, slices, lines[0], 0, Rasterizer.North,
                                           Rasterizer.FirstLineStart(Rasterizer.North));
  }

  /** The north pass: the port draws main.cpp's north hemisphere from the
      first ring and then switches to the south pass. */
  lemma NorthAgrees(d: PortData, lines: seq<seq<u8>>)
    requires ValidData(d) && OutlineParser.RingsAt(d.globdata, 1, lines)
    requires Rasterizer.HemisphereTrace(MainTables(d), Rasterizer.AllSlices(d.globdata), lines,
                                        Rasterizer.North).fault.None?
    ensures PortGlobeTrace(d)
         == Then(Rasterizer.HemisphereTrace(MainTables(d), Rasterizer.AllSlices(d.globdata), lines, Rasterizer.North),
                 SouthPass(d))
  {
    PassAgrees(d, lines, RingsOffset, Rasterizer.North, Rasterizer.FirstLineStart(Rasterizer.North), SouthPass(d));
  }

  /** 1 - int8(GLOBDATA_BIN[0]) stored in di: the index of ring 1. */
  lemma RestartIndex(g: seq<u8>, lines: seq<seq<u8>>)
    requires HeaderMatches(g, lines)
    ensures AsU16(RingsOffset - Uint8AsInt8(g[RingsOffset - 1])) == 2 + |lines[0]|
  {
    U16Window(RingsOffset - Uint8AsInt8(g[RingsOffset - 1]));
  }

  /** Ring 1 starts right after ring 0 and its closing byte. */
  lemma SouthLayout(g: seq<u8>, lines: seq<seq<u8>>)
    requires OutlineParser.RingsAt(g, 1, lines) && |lines| >= 2
    ensures 2 + |lines[0]| < |g| && g[2 + |lines[0]|] < 0x80
    ensures OutlineParser.RingsAt(g, 2 + |lines[0]|, lines[1..])
  {
    FirstRing(g, 1, lines, lines[0], lines[1..]);
    FirstRing(g, 2 + |lines[0]|, lines[1..], lines[1..][0], lines[1..][1..]);
  }

  /** The south pass restarted at a ring di the header byte points at. */
  lemma SouthPassAt(d: PortData, di: nat)
    requires ValidData(d) && di < |d.globdata| && d.globdata[di] < 0x80
    requires AsU16(RingsOffset - Uint8AsInt8(d.globdata[RingsOffset - 1])) == di
    ensures SouthPass(d) == PortPass(d, di, true, SouthLineStart)
  {
    SouthPassStart(d);
    PassRing(d, di, true, SouthLineStart);
  }

  /** cs_1CB2 = 0x64a0 is main.cpp's first south row start, 80 * 320. */
  lemma SouthLineStartValue()
    ensures AsU16(Rasterizer.FirstLineStart(Rasterizer.South)) == SouthLineStart
  {
  }

  /** The header byte restarts the stream at ring 1, right after ring 0
      and its closing byte, with cs_1CB2 at row 80. */
  lemma SouthRestart(d: PortData, lines: seq<seq<u8>>)
    requires ValidData(d) && OutlineParser.RingsAt(d.globdata, 1, lines)
    requires HeaderMatches(d.globdata, lines) && |lines| >= 2
    ensures 2 + |lines[0]| < |d.globdata|
    ensures OutlineParser.RingsAt(d.globdata, 2 + |lines[0]|, lines[1..])
    ensures SouthPass(d) == PortPass(d, 2 + |lines[0]|, true, AsU16(Rasterizer.FirstLineStart(Rasterizer.South)))
  {
    SouthLayout(d.globdata, lines);
    RestartIndex(d.globdata, lines);
    SouthPassAt(d, 2 + |lines[0]|);
    SouthLineStartValue();
  }

  /** main.cpp's south hemisphere: rings 1 .. from row 80. */
  lemma SouthRings(d: PortData, lines: seq<seq<u8>>)
    requires ValidData(d) && |lines| >= 1
    ensures Rasterizer.HemisphereTrace(MainTables(d), Rasterizer.AllSlices(d.globdata), lines, Rasterizer.South)
         == Rasterizer.RingsTrace(MainTables(d), Rasterizer.AllSlices(d.globdata), lines[1..], 0, Rasterizer.South,
                                  Rasterizer.FirstLineStart(Rasterizer.South))
  {
    RasterizerProperties.RingsShift(MainTables(d), Rasterizer.AllSlices(d.globdata), lines, 1, Rasterizer.South,
                                    Rasterizer.FirstLineStart(Rasterizer.South));
  }

  /** The south pass: restarted at ring 1 by the header byte, the port
      draws main.cpp's south hemisphere and returns. */
  lemma SouthAgrees(d: PortData, lines: seq<seq<u8>>)
    requires ValidData(d) && OutlineParser.RingsAt(d.globdata, 1, lines)
    requires HeaderMatches(d.globdata, lines) && |lines| >= 2
    requires Rasterizer.HemisphereTrace(MainTables(d), Rasterizer.AllSlices(d.globdata), lines,
                                        Rasterizer.South).fault.None?
    ensures SouthPass(d)
         == Rasterizer.HemisphereTrace(MainTables(d), Rasterizer.AllSlices(d.globdata), lines, Rasterizer.South)
  {
    var start := Rasterizer.FirstLineStart(Rasterizer.South);
    SouthRestart(d, lines);
    SouthRings(d, lines);
    PassAgrees(d, lines[1..], 2 + |lines[0]|, Rasterizer.South, start, Done());
    ThenDone(Rasterizer.RingsTrace(MainTables(d), Rasterizer.AllSlices(d.globdata), lines[1..], 0,
                                   Rasterizer.South, start));
  }

  /** draw_globe of initial_port.cpp stores exactly the pixels draw_globe of
      main.cpp stores, in the same order, on every outline parse_unk0
      accepts whose header byte points the south pass at ring 1, whenever
      main.cpp draws it without a fault. */
  lemma GlobeAgrees(d: PortData, lines: seq<seq<u8>>)
    requires ValidData(d)
    requires OutlineParser.Parse(d.globdata[..OutlineParser.OutlineSize]) == Ok(lines)
    requires HeaderMatches(d.globdata, lines)
    requires Rasterizer.GlobeTrace(MainTables(d), Rasterizer.AllSlices(d.globdata), lines).fault.None?
    ensures PortGlobeTrace(d) == Rasterizer.GlobeTrace(MainTables(d), Rasterizer.AllSlices(d.globdata), lines)
  {
    var tables, slices := MainTables(d), Rasterizer.AllSlices(d.globdata);
    var blob := d.globdata[..OutlineParser.OutlineSize];
    OutlineParser.ParseFramed(blob, lines);
    RingsAtWiden(blob, d.globdata, 1, lines);
    var north := Rasterizer.HemisphereTrace(tables, slices, lines, Rasterizer.North);
    var south := Rasterizer.HemisphereTrace(tables, slices, lines, Rasterizer.South);
    assert north.fault.None? && south.fault.None?;
    AtLeastTwoRings(d, lines);
    NorthAgrees(d, lines);
    SouthAgrees(d, lines);
  }
}
