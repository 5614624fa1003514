/** draw_globe and draw_frame of initial_port.cpp: the register-level
    rasterizer. One stream cursor walks the outline bytes of GLOBDATA_BIN;
    each byte of a ring selects a tilt word, two slice bytes, three
    rotation words and two MAP_BIN bytes, and two pixels are stored at a
    left cursor that moves left and a right cursor that moves right. The
    first negative ring-start byte flips the row step and restarts the
    stream for the southern half; the second one ends the drawing. */
module PortDraw {
  import opened FixedWidth
  import opened Faults
  import opened Traces
  import opened InitialPort
  import PixelLookup
  import TiltTable
  import Rasterizer

  /** The data draw_globe reads: GLOBDATA_BIN, the flat rotation table
      (396 words), the tilt table (196 words) and MAP_BIN. */
  datatype PortData = PortData(globdata: seq<u8>, rotation: seq<u16>, tilt: seq<u16>, mapData: seq<u8>)

  predicate ValidData(d: PortData)
  {
    |d.globdata| == Rasterizer.GlobdataSize && |d.rotation| == WordCount && |d.tilt| == TiltTable.TableSize
  }

  /** cs_1CA8: where the rings start in GLOBDATA_BIN. */
  const RingsOffset: nat := 1
  /** cs_1CAA: the first slice; si moves 200 bytes per ring entry. */
  const FirstSlice: u16 := 3290
  const SliceStride: nat := Rasterizer.SliceSize
  /** table1 of a slice starts 0x64 bytes after table0. */
  const Table1Offset: nat := Rasterizer.Table1Offset
  /** cs_1CAC: the tilt table is indexed from its middle. */
  const TiltCenter: nat := 98
  /** The row starts of the two passes: column 160 of row 79 and of row 80. */
  const NorthLineStart: u16 := 0x6360
  const SouthLineStart: u16 := 0x64A0

  /** cs_1CB4: one row up (-320 as uint16_t) in the north pass, one row
      down in the south pass. */
  function LineStep(south: bool): (step: u16)
    ensures AsI16(step) == (if south then 320 else -320)
  {
    if south then 320 else AsU16(-320)
  }

  /** `cs_1CB4 = -cs_1CB4` turns the step of one pass into the step of the
      other, and only the step of the north pass reads as negative. */
  lemma LineStepNegated(south: bool)
    ensures AsU16(-(LineStep(south) as int)) == LineStep(!south)
    ensures Uint16AsInt16(LineStep(south)) < 0 <==> !south
  {
  }

  /** The registers once the table lookups of one ring entry are done: ax
      (the slice value, folded with unk1 when the low tilt byte is
      negative), bx (unk0, negated when the tilt word is negative), cx
      (unk1) and dx (fp_hi). */
  datatype Lookup = Lookup(ax: u16, bx: u16, cx: u16, dx: u16)

  /** The tilt table index of the outline byte b: cs_1CAC + int8(b), with b
      negated first in the south pass. */
  function TiltIndex(b: u8, south: bool): int
  {
    var ax: u16 := if south then AsU16(-(b as int)) else b;
    TiltCenter + Uint8AsInt8(ax % 0x100)
  }

  /** The low byte of the tilt word read as int8_t and widened back to
      uint16_t, then negated when it reads as negative: the offset into
      the two slice tables, and whether it was negated. */
  function SliceOffset(word: u16): (u16, bool)
  {
    var ax := AsU16(Uint8AsInt8(word % 0x100));
    var negative := Uint16AsInt16(ax) < 0;
    (if negative then AsU16(-(ax as int)) else ax, negative)
  }

  /** The lookups of one ring entry for the outline byte b: the tilt word,
      the slice bytes t0 and t1 at the slice offset in table0 and table1 of
      the slice at si, and rotation words 2 * t0 .. 2 * t0 + 2 (entry t0 / 2
      when t0 is even). Every read outside a table is an out-of-range
      access. */
  function PortLookup(d: PortData, b: u8, south: bool, si: u16): (r: Result<Lookup>)
    requires ValidData(d)
    ensures r.Err? ==> r.fault == OutOfBounds
  {
    var index := TiltIndex(b, south);
    if !(0 <= index < |d.tilt|) then Err(OutOfBounds)
    else
      var word := d.tilt[index];
      var (bp, negative) := SliceOffset(word);
      TableLookup(d, word, bp, negative, si)
  }

  /** The lookups after the tilt word: t0 and t1 at bp in table0 and table1
      of the slice at si, then rotation words 2 * t0 .. 2 * t0 + 2. */
  function TableLookup(d: PortData, word: u16, bp: u16, negative: bool, si: u16): (r: Result<Lookup>)
    requires ValidData(d)
    ensures r.Err? ==> r.fault == OutOfBounds
  {
    if !(bp + si + Table1Offset < |d.globdata|) then Err(OutOfBounds)
    else
      var t0 := d.globdata[bp + si];
      var t1 := d.globdata[bp + si + Table1Offset];
      if !(2 * t0 + 2 < |d.rotation|) then Err(OutOfBounds)
      else
        var bx := d.rotation[2 * t0 + 0];
        var cx := d.rotation[2 * t0 + 1];
        var dx := d.rotation[2 * t0 + 2];
        Ok(SignedLookup(word, negative, t1, bx, cx, dx))
  }

  /** The registers after the sign fix-ups: ax = cx - t1 when the low tilt
      byte was negative, bx negated when the whole tilt word is negative. */
  function SignedLookup(word: u16, negative: bool, t1: u8, bx: u16, cx: u16, dx: u16): Lookup
  {
    Lookup(if negative then AsU16(cx as int - t1) else t1,
           if Uint16AsInt16(word) < 0 then AsU16(-(bx as int)) else bx, cx, dx)
  }

  /** bp, moved up by cx when it reads as negative, then moved by bx. */
  function PortMapOffset(bp: u16, cx: u16, bx: u16): u16
  {
    var bp' := if Uint16AsInt16(bp) < 0 then AsU16(bp as int + cx) else bp;
    AsU16(bp' as int + bx)
  }

  /** One pixel: the MAP_BIN byte at 0x62FC + int16(bp), its palette index
      (computed inline exactly as pixel_color does) stored at the cursor. */
  function PortPixel(mapData: seq<u8>, cursor: u16, bp: u16): (t: Trace)
    ensures t.fault.None? <==>
      0 <= PixelLookup.MapCenter + Uint16AsInt16(bp) < |mapData| && cursor < FramebufferSize
    ensures t.fault.None? ==>
      t.writes == [PixelWrite(cursor, PixelLookup.PixelColor(mapData[PixelLookup.MapCenter + Uint16AsInt16(bp)]))]
    ensures t.fault.Some? ==> t.writes == [] && t.fault == Some(OutOfBounds)
  {
    var index := PixelLookup.MapCenter + Uint16AsInt16(bp);
    if !(0 <= index < |mapData|) then Stop(OutOfBounds)
    else if !(cursor < FramebufferSize) then Stop(OutOfBounds)
    else Trace([PixelWrite(cursor, PixelLookup.PixelColor(mapData[index]))], None)
  }

  /** The map offset of the left pixel: dx - ax, adjusted by cx * 2 and bx. */
  function LeftOffset(r: Lookup): u16
  {
    PortMapOffset(AsU16(r.dx as int - r.ax), AsU16(r.cx as int * 2), r.bx)
  }

  /** The map offset of the right pixel: dx + ax - cx * 2, adjusted the same way. */
  function RightOffset(r: Lookup): u16
  {
    var cx := AsU16(r.cx as int * 2);
    PortMapOffset(AsU16(AsU16(r.dx as int + r.ax) as int - cx), cx, r.bx)
  }

  /** The body of the inner loop for the outline byte b: the lookups, then
      the left pixel at the left cursor and the right pixel at the right
      cursor. */
  function PortEntryTrace(d: PortData, b: u8, south: bool, si: u16, left: u16, right: u16): (t: Trace)
    requires ValidData(d)
    ensures |t.writes| <= 2 && (t.fault.None? ==> |t.writes| == 2)
    ensures |t.writes| >= 1 ==> t.writes[0].offset == left
    ensures |t.writes| == 2 ==> t.writes[1].offset == right
    ensures t.fault.Some? ==> t.fault == Some(OutOfBounds)
  {
    match PortLookup(d, b, south, si)
    case Err(f) => Stop(f)
    case Ok(r) =>
      Then(PortPixel(d.mapData, left, LeftOffset(r)), PortPixel(d.mapData, right, RightOffset(r)))
  }

  /** One turn of the outer do-while from cs_1CA6 == ringStart: a negative
      byte there switches to the south pass (or, in the south pass, returns);
      any other byte starts a ring. The passes, rings and entries below are
      one state machine, each step handing over to the next. */
  function PortPass(d: PortData, ringStart: nat, south: bool, lineStart: u16): (t: Trace)
    requires ValidData(d) && ringStart <= |d.globdata|
    ensures t.fault.Some? ==> t.fault == Some(OutOfBounds)
    decreases if south then 0 else 1, |d.globdata| - ringStart, 4
  {
    if ringStart >= |d.globdata| then Stop(OutOfBounds)
    else if Uint8AsInt8(d.globdata[ringStart]) < 0 then
      if south then Done() else SouthPass(d)
    else RingThenPass(d, d.globdata[ringStart], ringStart + 1, south, lineStart)
  }

  /** The switch to the south pass: the stream restarts at
      1 - int8(GLOBDATA_BIN[0]) and its first byte starts a ring without a
      sign test. */
  function SouthPass(d: PortData): (t: Trace)
    requires ValidData(d)
    ensures t.fault.Some? ==> t.fault == Some(OutOfBounds)
    decreases 1, 0, 0
  {
    var di := AsU16(RingsOffset - Uint8AsInt8(d.globdata[RingsOffset - 1]));
    if di >= |d.globdata| then Stop(OutOfBounds)
    else RingThenPass(d, d.globdata[di], di + 1, true, SouthLineStart)
  }

  /** A ring from the row start: si at the first slice, cs_1CAE and cs_1CB0
      on either side of cs_1CB2. */
  function RingThenPass(d: PortData, b: u8, di: nat, south: bool, lineStart: u16): (t: Trace)
    requires ValidData(d) && di <= |d.globdata|
    ensures t.fault.Some? ==> t.fault == Some(OutOfBounds)
    decreases if south then 0 else 1, |d.globdata| - di, 3
  {
    PortRing(d, b, di, south, FirstSlice, AsU16(lineStart as int - 1), lineStart, lineStart)
  }

  /** The body of the inner do-while for the outline byte b, with di at the
      byte after it: the entry, then (unless it faulted) the rest. */
  function PortRing(d: PortData, b: u8, di: nat, south: bool, si: u16, left: u16, right: u16,
                    lineStart: u16): (t: Trace)
    requires ValidData(d) && di <= |d.globdata|
    ensures t.fault.Some? ==> t.fault == Some(OutOfBounds)
    decreases if south then 0 else 1, |d.globdata| - di, 2
  {
    Then(PortEntryTrace(d, b, south, si, left, right), Advance(d, di, south, si, left, right, lineStart))
  }

  /** After an entry: si moves to the next slice and the cursors one pixel
      apart each. */
  function Advance(d: PortData, di: nat, south: bool, si: u16, left: u16, right: u16,
                   lineStart: u16): (t: Trace)
    requires ValidData(d) && di <= |d.globdata|
    ensures t.fault.Some? ==> t.fault == Some(OutOfBounds)
    decreases if south then 0 else 1, |d.globdata| - di, 1
  {
    NextEntry(d, di, south, AsU16(si as int + SliceStride), AsU16(left as int - 1), AsU16(right as int + 1),
              lineStart)
  }

  /** The loop test of the inner do-while: the byte at di is read; a
      negative byte ends the ring, and the outer loop goes on after it one
      row further (cs_1CB2 += cs_1CB4); any other byte is the next entry. */
  function NextEntry(d: PortData, di: nat, south: bool, si: u16, left: u16, right: u16,
                     lineStart: u16): (t: Trace)
    requires ValidData(d) && di <= |d.globdata|
    ensures t.fault.Some? ==> t.fault == Some(OutOfBounds)
    decreases if south then 0 else 1, |d.globdata| - di, 0
  {
    if di >= |d.globdata| then Stop(OutOfBounds)
    else if Uint8AsInt8(d.globdata[di]) < 0 then
      PortPass(d, di + 1, south, AsU16(lineStart as int + LineStep(south)))
    else PortRing(d, d.globdata[di], di + 1, south, si, left, right, lineStart)
  }

  /** draw_globe of initial_port.cpp. */
  function PortGlobeTrace(d: PortData): Trace
    requires ValidData(d)
  {
    PortPass(d, RingsOffset, false, NorthLineStart)
  }

  /** The lookups at the head of the inner do-while, register by register. */
  method LookUpEntry(d: PortData, b: u8, south: bool, si: u16) returns (r: Result<Lookup>)
    requires ValidData(d)
    ensures r == PortLookup(d, b, south, si)
  {
    var ax: u16 := b;
    if south {
      ax := AsU16(-(ax as int));
    }
    var index := TiltCenter + Uint8AsInt8(ax % 0x100);
    assert index == TiltIndex(b, south);
    if !(0 <= index < |d.tilt|) {
      return Err(OutOfBounds);
    }
    var word := d.tilt[index];
    ax := AsU16(Uint8AsInt8(word % 0x100));
    var negative := Uint16AsInt16(ax) < 0;
    if negative {
      ax := AsU16(-(ax as int));
    }
    var bp: u16 := ax;
    assert (bp, negative) == SliceOffset(word);
    r := LookUpTables(d, word, bp, negative, si);
  }

  /** The slice and rotation reads of the lookups. */
  method LookUpTables(d: PortData, word: u16, bp: u16, negative: bool, si: u16) returns (r: Result<Lookup>)
    requires ValidData(d)
    ensures r == TableLookup(d, word, bp, negative, si)
  {
    if !(bp + si + Table1Offset < |d.globdata|) {
      return Err(OutOfBounds);
    }
    var ax: u16, bx: u16, cx: u16, dx: u16, bp := 0, 0, 0, 0, bp;
    bx := d.globdata[bp + si];
    ax := d.globdata[bp + si + Table1Offset];
    ghost var t1 := ax;
    bp := bx;
    if !(2 * bp + 2 < |d.rotation|) {
      return Err(OutOfBounds);
    }
    bx := d.rotation[2 * bp + 0];
    cx := d.rotation[2 * bp + 1];
    dx := d.rotation[2 * bp + 2];
    ghost var unk0 := bx;
    if negative {
      ax := AsU16(cx as int - ax);
    }
    if Uint16AsInt16(word) < 0 {
      bx := AsU16(-(bx as int));
    }
    assert Lookup(ax, bx, cx, dx) == SignedLookup(word, negative, t1, unk0, cx, dx);
    return Ok(Lookup(ax, bx, cx, dx));
  }

  /** Once the lookups succeed, an entry is its two pixels. */
  lemma EntryPixels(d: PortData, b: u8, south: bool, si: u16, left: u16, right: u16, r: Lookup)
    requires ValidData(d) && PortLookup(d, b, south, si) == Ok(r)
    ensures PortEntryTrace(d, b, south, si, left, right)
         == Then(PortPixel(d.mapData, left, LeftOffset(r)), PortPixel(d.mapData, right, RightOffset(r)))
  {
  }

  /** The body of the inner do-while up to the read of the next byte: the
      lookups, then the two pixels. */
  method DrawPortEntry(fb: array<u8>, d: PortData, b: u8, south: bool, si: u16, left: u16, right: u16)
    returns (fault: Option<Fault>)
    requires fb.Length == FramebufferSize && ValidData(d)
    modifies fb
    ensures fault == PortEntryTrace(d, b, south, si, left, right).fault
    ensures fb[..] == ApplyWrites(old(fb[..]), PortEntryTrace(d, b, south, si, left, right).writes)
  {
    var r := LookUpEntry(d, b, south, si);
    if r.Err? {
      return Some(r.fault);
    }
    var ax, bx, cx, dx := r.value.ax, r.value.bx, r.value.cx, r.value.dx;
    cx := AsU16(cx as int * 2);
    var bp := AsU16(dx as int - ax);
    bp := AdjustMapOffset(bp, cx, bx);
    dx := AsU16(dx as int + ax);
    assert bp == LeftOffset(r.value);
    ghost var rightBp := AsU16(dx as int - cx);
    assert RightOffset(r.value) == PortMapOffset(rightBp, cx, bx);

    ghost var before := fb[..];
    ghost var first := PortPixel(d.mapData, left, LeftOffset(r.value));
    ghost var second := PortPixel(d.mapData, right, RightOffset(r.value));
    EntryPixels(d, b, south, si, left, right, r.value);
    fault := DrawPortPixel(fb, d.mapData, left, bp);
    if fault.Some? {
      return;
    }

    bp := AsU16(dx as int - cx);
    bp := AdjustMapOffset(bp, cx, bx);
    fault := DrawPortPixel(fb, d.mapData, right, bp);
    ApplyWritesAppend(before, first.writes, second.writes);
  }

  /** The two statements that follow each map offset computation:
      `if (uint16_as_int16(bp) < 0) bp += cx; bp += bx;` */
  method AdjustMapOffset(bp: u16, cx: u16, bx: u16) returns (r: u16)
    ensures r == PortMapOffset(bp, cx, bx)
  {
    r := bp;
    if Uint16AsInt16(r) < 0 {
      r := AsU16(r as int + cx);
    }
    r := AsU16(r as int + bx);
  }

  /** `ax = map[0x62FC + int16(bp)]`, the inline colour and the store. */
  method DrawPortPixel(fb: array<u8>, mapData: seq<u8>, cursor: u16, bp: u16) returns (fault: Option<Fault>)
    requires fb.Length == FramebufferSize
    modifies fb
    ensures fault == PortPixel(mapData, cursor, bp).fault
    ensures fb[..] == ApplyWrites(old(fb[..]), PortPixel(mapData, cursor, bp).writes)
  {
    var index := PixelLookup.MapCenter + Uint16AsInt16(bp);
    if !(0 <= index < |mapData|) {
      return Some(OutOfBounds);
    }
    var ax: u16 := mapData[index];
    var al := ax % 0x10;
    if (ax / 0x10) % 4 == 1 {
      if al < 8 {
        al := al + 12;
      }
    }
    al := AsU8(al + 0x10);
    if !(cursor < fb.Length) {
      return Some(OutOfBounds);
    }
    fb[cursor] := al;
    fault := None;
    assert [PixelWrite(cursor, al)][..0] == [];
  }

  /** The first entry of a ring, drawn before the first loop test of the
      inner do-while. */
  method DrawFirstEntry(fb: array<u8>, d: PortData, b: u8, di: nat, south: bool, lineStart: u16)
    returns (fault: Option<Fault>, ghost writes: seq<PixelWrite>)
    requires fb.Length == FramebufferSize && ValidData(d) && di <= |d.globdata|
    modifies fb
    ensures fb[..] == ApplyWrites(old(fb[..]), writes)
    ensures RingThenPass(d, b, di, south, lineStart)
         == Then(Trace(writes, fault), Advance(d, di, south, FirstSlice, AsU16(lineStart as int - 1), lineStart, lineStart))
  {
    fault := DrawPortEntry(fb, d, b, south, FirstSlice, AsU16(lineStart as int - 1), lineStart);
    writes := PortEntryTrace(d, b, south, FirstSlice, AsU16(lineStart as int - 1), lineStart).writes;
  }

  /** The loop test of the inner do-while and, when the byte read is not
      negative, the entry for it: `ended` when the ring is complete. */
  method DrawNextEntry(fb: array<u8>, d: PortData, di: nat, south: bool, si: u16, left: u16, right: u16,
                       lineStart: u16)
    returns (fault: Option<Fault>, ended: bool, ghost writes: seq<PixelWrite>)
    requires fb.Length == FramebufferSize && ValidData(d) && di <= |d.globdata|
    modifies fb
    ensures fb[..] == ApplyWrites(old(fb[..]), writes)
    ensures ended ==> fault.None? && writes == [] && di < |d.globdata|
    ensures ended ==>
      NextEntry(d, di, south, si, left, right, lineStart)
        == PortPass(d, di + 1, south, AsU16(lineStart as int + LineStep(south)))
    ensures !ended && fault.Some? ==> NextEntry(d, di, south, si, left, right, lineStart) == Trace(writes, fault)
    ensures !ended && fault.None? ==> di < |d.globdata|
    ensures !ended && fault.None? ==>
      NextEntry(d, di, south, si, left, right, lineStart)
        == Then(Trace(writes, None), Advance(d, di + 1, south, si, left, right, lineStart))
  {
    if di >= |d.globdata| {
      return Some(OutOfBounds), false, [];
    }
    var b := d.globdata[di];
    if Uint8AsInt8(b) < 0 {
      return None, true, [];
    }
    fault := DrawPortEntry(fb, d, b, south, si, left, right);
    ended := false;
    writes := PortEntryTrace(d, b, south, si, left, right).writes;
  }

  /** One ring: the inner do-while from the outline byte b, with di at the
      byte after it, up to the negative byte at `next` that ends it. */
  method DrawRing(fb: array<u8>, d: PortData, b: u8, di: nat, south: bool, lineStart: u16, step: u16)
    returns (fault: Option<Fault>, next: nat, ghost writes: seq<PixelWrite>)
    requires fb.Length == FramebufferSize && ValidData(d) && di <= |d.globdata| && step == LineStep(south)
    modifies fb
    ensures fb[..] == ApplyWrites(old(fb[..]), writes)
    ensures fault.Some? ==> RingThenPass(d, b, di, south, lineStart) == Trace(writes, fault)
    ensures fault.None? ==> di <= next < |d.globdata|
    ensures fault.None? ==>
      RingThenPass(d, b, di, south, lineStart)
        == Then(Trace(writes, None), PortPass(d, next + 1, south, AsU16(lineStart as int + step)))
  {
    ghost var ring := RingThenPass(d, b, di, south, lineStart);
    ghost var entry;
    fault, entry := DrawFirstEntry(fb, d, b, di, south, lineStart);
    writes := entry;
    ghost var rest := Advance(d, di, south, FirstSlice, AsU16(lineStart as int - 1), lineStart, lineStart);
    if fault.Some? {
      ThenHalt([], Trace(entry, fault), rest);
      next := di;
      return;
    }
    ThenStep([], Trace(entry, fault), rest);
    Rasterizer.Started(ring);
    var si := FirstSlice;
    var left := AsU16(lineStart as int - 1);
    var right := lineStart;
    next := di;
    while true
      invariant di <= next <= |d.globdata|
      invariant fb[..] == ApplyWrites(old(fb[..]), writes)
      invariant ring == Then(Trace(writes, None), Advance(d, next, south, si, left, right, lineStart))
      decreases |d.globdata| - next
    {
      si := AsU16(si as int + SliceStride);
      left := AsU16(left as int - 1);
      right := AsU16(right as int + 1);
      var ended;
      fault, ended, entry := DrawNextEntry(fb, d, next, south, si, left, right, lineStart);
      ApplyWritesAppend(old(fb[..]), writes, entry);
      if ended {
        assert writes + entry == writes;
        return;
      }
      if fault.Some? {
        writes := writes + entry;
        return;
      }
      ThenStep(writes, Trace(entry, None), Advance(d, next + 1, south, si, left, right, lineStart));
      writes := writes + entry;
      next := next + 1;
    }
  }

  /** The head of the outer do-while: the byte at cs_1CA6 either starts a
      ring or, being negative, ends the pass. The end of the north pass
      negates cs_1CB4, moves cs_1CB2 to row 80 and restarts the stream at
      1 - int8(GLOBDATA_BIN[0]); the end of the south pass negates cs_1CB4
      back, and its sign ends draw_globe. `stop` when draw_globe returns
      here. */
  method FindRing(d: PortData, ringStart: nat, south: bool, lineStart: u16, step: u16)
    returns (stop: bool, fault: Option<Fault>, b: u8, di: nat, nowSouth: bool, nowLineStart: u16, nowStep: u16)
    requires ValidData(d) && ringStart <= |d.globdata| && step == LineStep(south)
    ensures stop ==> PortPass(d, ringStart, south, lineStart) == Trace([], fault)
    ensures !stop ==> di <= |d.globdata| && nowStep == LineStep(nowSouth)
    ensures !stop ==> (nowSouth == south && ringStart < di) || (!south && nowSouth)
    ensures !stop ==> PortPass(d, ringStart, south, lineStart) == RingThenPass(d, b, di, nowSouth, nowLineStart)
  {
    nowSouth, nowLineStart, nowStep := south, lineStart, step;
    var i: int := ringStart;
    if i >= |d.globdata| {
      return true, Some(OutOfBounds), 0, 0, nowSouth, nowLineStart, nowStep;
    }
    b := d.globdata[i];
    i := i + 1;
    if Uint8AsInt8(b) < 0 {
      PassEnds(d, ringStart, south, lineStart);
      nowSouth := true;
      i := RingsOffset;
      LineStepNegated(south);
      nowStep := AsU16(-(step as int));
      if Uint16AsInt16(nowStep) < 0 {
        return true, None, b, 0, nowSouth, nowLineStart, nowStep;
      }
      nowLineStart := SouthLineStart;
      b := d.globdata[i - 1];
      i := AsU16(i - Uint8AsInt8(b));
      SouthPassStart(d);
      if i >= |d.globdata| {
        return true, Some(OutOfBounds), b, 0, nowSouth, nowLineStart, nowStep;
      }
      b := d.globdata[i];
      i := i + 1;
    }
    return false, None, b, i, nowSouth, nowLineStart, nowStep;
  }

  /** draw_globe of initial_port.cpp: the outer do-while over the rings of
      both passes (cs_1CA6, cs_1CB2, cs_1CB4 and the hemisphere flag), each
      ring drawn by the inner do-while. */
  method DrawGlobe(fb: array<u8>, d: PortData) returns (fault: Option<Fault>)
    requires fb.Length == FramebufferSize && ValidData(d)
    modifies fb
    ensures fault == PortGlobeTrace(d).fault
    ensures fb[..] == ApplyWrites(old(fb[..]), PortGlobeTrace(d).writes)
  {
    ghost var whole := PortGlobeTrace(d);
    ghost var done: seq<PixelWrite> := [];
    Rasterizer.Started(whole);
    var ringStart: nat := RingsOffset;
    var step: u16 := AsU16(-320);
    var lineStart := NorthLineStart;
    var south := false;
    while true
      invariant ringStart <= |d.globdata| && step == LineStep(south)
      invariant fb[..] == ApplyWrites(old(fb[..]), done)
      invariant whole == Then(Trace(done, None), PortPass(d, ringStart, south, lineStart))
      decreases if south then 0 else 1, |d.globdata| - ringStart
    {
      var stop, b, di;
      stop, fault, b, di, south, lineStart, step := FindRing(d, ringStart, south, lineStart, step);
      if stop {
        assert done + [] == done;
        return;
      }
      ghost var writes;
      var next;
      fault, next, writes := DrawRing(fb, d, b, di, south, lineStart, step);
      ApplyWritesAppend(old(fb[..]), done, writes);
      if fault.Some? {
        done := done + writes;
        return;
      }
      ThenStep(done, Trace(writes, None), PortPass(d, next + 1, south, AsU16(lineStart as int + step)));
      done := done + writes;
      ringStart := next + 1;
      lineStart := AsU16(lineStart as int + step);
    }
  }

  /** A negative byte at the head of the outer do-while ends the pass. */
  lemma PassEnds(d: PortData, ringStart: nat, south: bool, lineStart: u16)
    requires ValidData(d) && ringStart < |d.globdata| && Uint8AsInt8(d.globdata[ringStart]) < 0
    ensures PortPass(d, ringStart, south, lineStart) == if south then Done() else SouthPass(d)
  {
  }

  /** The south pass starts where GLOBDATA_BIN[0] says. */
  lemma SouthPassStart(d: PortData)
    requires ValidData(d)
    ensures var di := AsU16(RingsOffset - Uint8AsInt8(d.globdata[RingsOffset - 1]));
      SouthPass(d) == if di >= |d.globdata| then Stop(OutOfBounds)
                      else RingThenPass(d, d.globdata[di], di + 1, true, SouthLineStart)
  {
  }
}
