# Globe renderer, modelled in Dafny

This project models the core of a DOS-era rotating-globe renderer that has
been ported to C++ twice:

- `main.cpp` is the readable renderer. Each frame it:
  - loads the 99-entry rotation table from `TABLAT.BIN`;
  - rebuilds its 16.16 fixed-point halves for the current rotation;
  - rebuilds the 196-slot tilt table for the current tilt;
  - walks the globe outline parsed from the head of `GLOBDATA.BIN` (`parse_unk0`);
  - draws the northern and then the southern hemisphere, pixel pair by pixel pair, into a 320x200 colour-index framebuffer;
  - compares that framebuffer with the one drawn by the register-level port.
- `initial_port.cpp` is that register-level port. It keeps the tables as flat `uint16_t` arrays and draws the globe in one loop over 16-bit registers (`ax`, `bx`, `cx`, `dx`, `si`, `di`, `bp`) that wrap around. Its end-of-ring and end-of-hemisphere conditions are sign tests on bytes of the outline.

The model has a layer for each of these:

- **Fixed-width arithmetic** (`FixedWidth`): the source's integer widths are subset types of `int`. Every narrowing (`uint8_t`, `int16_t`, a `uint32_t` product) is written out as a reduction modulo 2^8, 2^16 or 2^32.
- **Tables** (`RotationTable`, `TiltTable`, `InitialPort`): both builders are modelled as methods that update arrays in place. They are proved against reference functions: `Rebuilt` for the rotation table, `TiltTableOf` for the tilt table.
- **Outline** (`OutlineParser`): `parse_unk0` is a method with loops. It is proved equal to a recursive reference parser, and that parser is characterised by a layout predicate.
- **Readable renderer** (`PixelLookup`, `Rasterizer`, `RasterizerProperties`): `func1`, `func2`, `set_pixel_color`, `draw_hemisphere` and `draw_globe` are methods on the framebuffer array.
  - Each is proved to produce the pixel writes, and the fault, of a *trace*: a pure function listing the writes the operation makes in order and the fault, if any, that stops it.
  - An `assert_throw` that fails is the fault `InvariantViolation`.
  - An access outside the data is the fault `OutOfBounds`.
- **Register-level port** (`PortDraw`): the port's `draw_globe` is modelled the same way, by methods that follow its register updates and a trace function of its own.
- **Equivalence** (`PortEquivalence`, `GlobeEquivalence`, `Frame`): the port's trace equals the readable renderer's trace whenever the outline is the one the port's header byte expects and the readable renderer finishes without a fault. This holds entry by entry, ring by ring, hemisphere by hemisphere and frame by frame. So the framebuffer comparison in `draw_frame` always succeeds under those conditions.

The byte contents of `GLOBDATA.BIN`, `MAP.BIN` and `TABLAT.BIN` are parameters (byte sequences of the right sizes). All proofs hold for every such content.

## Model

| member | source | states |
|---|---|---|
| FixedWidth.Hi | main.cpp:50-53 | the upper 16 bits of a 32-bit value: r * 2^16 <= v < (r + 1) * 2^16 |
| FixedWidth.Lo | main.cpp:55-58 | the lower 16 bits: hi(v) * 2^16 + lo(v) reassembles v |
| FixedWidth.HiByte | main.cpp:60-63 | arithmetic shift of an int16_t by 8: r * 256 <= v < r * 256 + 256 |
| FixedWidth.LoByte | main.cpp:65-68 | the low byte read as int8_t: hi(v) * 256 + (lo(v) mod 256) reassembles v |
| FixedWidth.U16RoundTrip | initial_port.cpp:270 | a uint16_t rotation passed through the port's int16_t parameter and back to uint16_t is unchanged |
| InitialPort.Uint8AsInt8 | initial_port.cpp:24-27 | the byte reinterpreted in two's complement: u below 0x80, u - 256 from 0x80 |
| InitialPort.Uint16AsInt16 | initial_port.cpp:29-32 | the word reinterpreted in two's complement: u below 0x8000, u - 65536 from 0x8000 |
| InitialPort.UnnarrowedAtMaximum | initial_port.cpp:24-32 | the comparisons with INT8_MAX and INT16_MAX are off by one: at 127 and 32767 the expression is out of range (-129, -32769), and only the narrowing on return yields 127 and 32767; at every other input the expression is already the result |
| InitialPort.Entries | initial_port.cpp:21 | the flat 396-word table read as 99 four-word records: entry i is words 4i..4i+3 |
| InitialPort.EntriesWords | initial_port.cpp:21 | the flat layout and the record layout are inverse to each other in both directions |
| InitialPort.EvenIndexEntry | initial_port.cpp:168-174 | for an even slice byte t0, words 2*t0..2*t0+3 are exactly the record main.cpp reads at index t0 / 2 |
| InitialPort.LittleEndianWord | initial_port.cpp:272 | word i of TABLAT.BIN has byte 2i as its low byte and byte 2i+1 as its high byte |
| InitialPort.LoadRotationWords | initial_port.cpp:271-274 | after the load loop every one of the 396 words is the little-endian word of the file |
| InitialPort.PrecalculateRotationWords | initial_port.cpp:38-60 | the flat table read as records is main.cpp's rebuilt table for every seed (the port makes no seed checks), and words 4i, 4i+1 are untouched |
| InitialPort.PrecalculateTiltWords | initial_port.cpp:62-109 | for every int16_t tilt the port's builder, with its own two clamping comparisons, produces the same 196 slots as main.cpp's |
| RotationTable.FlooredProduct | main.cpp:77-80 | 398 * rotation with the fraction cleared: a multiple of 2^16 within 2^16 below the exact product |
| RotationTable.ScaleFactor | main.cpp:90-93 | bx is (floored product + 0.5) / 398 and never exceeds 65453, so it fits in uint16_t |
| RotationTable.RebuiltCount | main.cpp:84-98 | the number of entries the rebuild completes before an assert_throw stops it; all 99 exactly when the seed is accepted (entry 0 has unk0 = 0 and unk1 != 0, all later entries have unk0 != 0) |
| RotationTable.PrecalculateRotationTable | main.cpp:74-103 | reports success exactly when the seed is accepted; the table is rebuilt up to the first failing assertion and entirely on success |
| RotationTable.RebuiltFirstEntry | main.cpp:77-87 | entry 0 holds floor(398 * rotation / 2^16) <= 397 as its whole part and 0 as its fraction; no entry's seed words change |
| RotationTable.RebuiltLaterEntry | main.cpp:95-102 | entry i >= 1 holds 2 * bx * unk1 modulo 2^32; when unk1 <= 199 the product does not wrap and the whole part is at most 397 |
| TiltTable.Clamp | main.cpp:105-116 | min when value < min, max when value > max (and not below min), the value itself otherwise; so the result lies between min and max when min <= max |
| TiltTable.ClampedTilt | main.cpp:119 | the clamped tilt is -98 below -98, 98 above 98 and the tilt itself in between |
| TiltTable.ClampIdempotent | main.cpp:119 | clamping twice is clamping once, so the tables built from the two are equal |
| TiltTable.OrFF00 | main.cpp:148 | v or 0xff00 stored in uint16_t: high byte 0xff, low byte that of v |
| TiltTable.TiltSlotIsTableEntry | main.cpp:121-159 | slot j of the four stages laid end to end, read off stage by stage: stage 2 ends at slot t + 99 and stage 3 at slot t + 197 |
| TiltTable.FilledTable | main.cpp:121-159 | a table agreeing with the stage-by-stage slots everywhere is the reference table |
| TiltTable.TiltSlotRanges | main.cpp:121-159 | every slot's low byte, read as int8_t, lies in [-98, 98] (so func1's first assert_throw never fails on it); the high byte is 0x00 before slot t + 99 and 0xff from there on |
| TiltTable.SlotRanges | main.cpp:121-159 | the same ranges, on the stage-by-stage slot values |
| TiltTable.LowSlotByte | main.cpp:127 | a slot holding uint8_t(x) for x in [-98, 98] reads back x and has high byte 0 |
| TiltTable.HighSlotByte | main.cpp:148 | a slot holding x or 0xff00 reads back x and has high byte 0xff |
| TiltTable.TiltZeroTable | main.cpp:118-160 | with tilt 0, slots 0..98 count 98 down to 0 and slots 99..195 hold 0xff01 up to 0xff61 |
| TiltTable.PrecalculateTiltTable | main.cpp:118-160 | the table afterwards is the reference table of the clamped tilt |
| TiltTable.FillTiltTable | main.cpp:121-159 | the four counting loops, each stopping at the end of the table or at its own bound, fill exactly the reference table |
| OutlineParser.SignedByte | main.cpp:349 | the byte read as int8_t: negative exactly from 0x80, -1 exactly at 0xff, the byte itself otherwise |
| OutlineParser.RunFrom | main.cpp:355-360 | a run of non-negative bytes, all below 0x80, ending just before the first negative byte; reading past the blob is OutOfBounds |
| OutlineParser.RingsFrom | main.cpp:345-363 | a successful parse of the ring list ends at an index after its start and at most 2868 |
| OutlineParser.RunFromReads | main.cpp:355-360 | n non-negative bytes followed by a negative one are read as exactly that run, ending after the negative byte |
| OutlineParser.RingsFromLayout | main.cpp:345-365 | rings laid out from index p, each closed by a negative byte, with -1 at index 2867, are parsed back as exactly those rings |
| OutlineParser.LayoutOfRingsFrom | main.cpp:345-365 | conversely a ring list parsed from p up to index 2868 is laid out that way in the blob |
| OutlineParser.RingReads | main.cpp:349-360 | a ring at p followed by a negative byte: its first byte is the one read before the run, and the run is the rest of the ring |
| OutlineParser.RingStepLayout | main.cpp:345-363 | one step of the parse: either the -1 terminator at index 2867, or a ring starting with a non-negative byte followed by the rest of the layout |
| OutlineParser.RingsFromStep | main.cpp:349-361 | a ring whose first byte is non-negative is the first ring of the list, followed by the list parsed after it |
| OutlineParser.ParseFramed | main.cpp:314-373 | parse_unk0 succeeds with a list of rings exactly when the blob lays out those rings from index 1, the terminator at 2867 and zeros from 2869 on |
| OutlineParser.RingsAtShape | main.cpp:345-365 | laid-out rings are non-empty, every value is below 0x80, and their total footprint reaches index 2867 |
| OutlineParser.ParseShape | main.cpp:314-373 | every ring parse_unk0 returns is non-empty with values in [0, 127], and together they fill indices 1..2866 |
| OutlineParser.ReadRun | main.cpp:355-360 | the do-while loop reads the same run as the reference |
| OutlineParser.ParseUnk0 | main.cpp:314-373 | the loops, with their assert_throw checks, return the reference parse, including its faults |
| PixelLookup.Func1 | main.cpp:211-249 | succeeds exactly when every assert_throw of func1 holds, fails with InvariantViolation otherwise; the result's ranges, and gd and grlt_0 as read from the slices and the rotation entry |
| PixelLookup.ColorMapOffset | main.cpp:251-258 | value + adjust2, with adjust1 added first when value is negative, in int16_t; exact when no step overflows |
| PixelLookup.PixelColor | main.cpp:260-274 | the colour index is 0x10 + the low nibble, or 0x1C + the nibble for values whose bits 4-5 are 01 and whose nibble is below 8; always in [0x10, 0x23] |
| PixelLookup.PixelTrace | main.cpp:276-284 | writes one pixel exactly when the offset is in [-25334, 25339] and both the map byte and the framebuffer byte exist; the colour is pixel_color of MAP_BIN[0x62FC + offset] |
| PixelLookup.SetPixelColor | main.cpp:276-284 | the framebuffer afterwards is the old one with the pixel trace's write applied; the fault is the trace's |
| PixelLookup.MapOffsetsExact | main.cpp:298-311 | the two colour-map offsets func2 passes are computed without int16_t overflow and stay within +-26000 |
| PixelLookup.Func2Trace | main.cpp:286-312 | at most two writes, both when there is no fault: the left pixel and then the right one, each with a colour in [0x10, 0x23] |
| PixelLookup.Func2 | main.cpp:286-312 | the framebuffer afterwards is the old one with func2's writes applied; the fault is the trace's |
| Rasterizer.FrameBufferOffset | main.cpp:162-165 | for 0 <= x < 320 the offset lies in row y at column x |
| Rasterizer.GdValue | main.cpp:411-414 | the ring byte as int8_t, negated for the southern hemisphere |
| Rasterizer.DrawEntry | main.cpp:409-416 | one func2 call at pixels lineStart - 1 - k and lineStart + k; the framebuffer and the fault follow the entry's trace |
| Rasterizer.DrawRing | main.cpp:409-416 | the inner loop over one ring: the framebuffer and the fault follow the ring's trace |
| Rasterizer.DrawHemisphere | main.cpp:389-422 | the framebuffer and the fault follow the hemisphere's trace (ring 0 on for the north, ring 1 on for the south) |
| Rasterizer.DrawGlobe | main.cpp:424-429 | the northern hemisphere and then the southern one, stopping at the first fault |
| RasterizerProperties.RingTraceShape | main.cpp:409-416 | a ring's writes come in left/right pairs: write 2i at lineStart - 1 - (k + i), write 2i+1 at lineStart + k + i |
| RasterizerProperties.FaultFreeRingFits | main.cpp:409-413 | a ring drawn without a fault has no more entries than there are table slices, since all_slices[index] must exist for each |
| RasterizerProperties.RowStart | main.cpp:398-403 | the framebuffer offset of column 160 of a row |
| RasterizerProperties.RingRow | main.cpp:409-420 | a ring drawn from the centre of a row writes only into that row, leftwards from column 159 and rightwards from column 160 |
| RasterizerProperties.RingsRows | main.cpp:406-421 | rings gl.. drawn from a row write only into that row and the rows above it (north) or below it (south) |
| RasterizerProperties.HemisphereRows | main.cpp:395-421 | the northern hemisphere writes only into rows 0..79, the southern one only into rows 80..199 |
| RasterizerProperties.NorthBeforeSouth | main.cpp:424-429 | every pixel of the northern hemisphere lies before every pixel of the southern one in the framebuffer, so the south never draws over the north |
| RasterizerProperties.RingsIgnoreEarlier | main.cpp:406-408 | drawing from ring gl on does not depend on the rings before gl |
| RasterizerProperties.RingsShift | main.cpp:406-408 | drawing lines from ring gl is drawing lines[1..] from ring gl - 1 |
| RasterizerProperties.SouthSkipsRingZero | main.cpp:397 | the southern hemisphere does not depend on ring 0 |
| PortDraw.LineStep | initial_port.cpp:120 | the line increment as uint16_t: -320 for the north, +320 for the south |
| PortDraw.LineStepNegated | initial_port.cpp:138-143 | negating the increment switches hemispheres, and its sign says which hemisphere it is |
| PortDraw.PortPixel | initial_port.cpp:225-235 | writes one pixel exactly when the map byte and the framebuffer byte at the 16-bit cursors exist; otherwise OutOfBounds and no write |
| PortDraw.PortEntryTrace | initial_port.cpp:155-255 | at most two writes, both when there is no fault: the left pixel and then the right one; its only fault is OutOfBounds |
| PortDraw.LookUpEntry | initial_port.cpp:155-214 | the register lookups for one ring byte agree with the reference lookup |
| PortDraw.LookUpTables | initial_port.cpp:163-214 | the slice and rotation-table reads agree with the reference lookup |
| PortDraw.DrawPortEntry | initial_port.cpp:155-255 | the framebuffer and the fault follow the entry's port trace |
| PortDraw.AdjustMapOffset | initial_port.cpp:216-223 | the 16-bit bp adjustment agrees with its reference |
| PortDraw.DrawPortPixel | initial_port.cpp:225-235 | the framebuffer and the fault follow the pixel's port trace |
| PortDraw.DrawFirstEntry | initial_port.cpp:153-255 | the first entry of a ring: its writes are applied and the rest of the pass continues from it |
| PortDraw.DrawNextEntry | initial_port.cpp:257-266 | a following entry, or the end of the ring (a negative byte), with the pass continuing accordingly |
| PortDraw.DrawRing | initial_port.cpp:153-266 | one ring drawn by the register loop: on a fault the pass ends with it; otherwise the next byte index is after the ring |
| PortDraw.FindRing | initial_port.cpp:130-151 | the outer loop: stops at the end of the southern pass, or enters a ring (switching to the southern pass at the first negative header byte) |
| PortDraw.DrawGlobe | initial_port.cpp:111-268 | the framebuffer and the fault follow the port's globe trace |
| PortDraw.PassEnds | initial_port.cpp:136-143 | a negative byte where a ring would start ends the northern pass by restarting in the south, and ends the southern pass |
| PortDraw.SouthPassStart | initial_port.cpp:144-150 | the southern pass restarts at index 1 - int8(globdata[0]), at the southern line start |
| PortEquivalence.TiltIndexAgrees | initial_port.cpp:155-161 | the port's tilt-table index is MAX_TILT + gd_val in both hemispheres |
| PortEquivalence.SliceOffsetAgrees | initial_port.cpp:163-167 | the port's slice offset and sign flag are abs(lo(ofs1)) and lo(ofs1) < 0 |
| PortEquivalence.TableLookupAgrees | initial_port.cpp:163-214 | when func1 succeeds, the port's registers hold func1's grlt_0, grlt_1, gd and fp_hi |
| PortEquivalence.LookupAgrees | initial_port.cpp:155-214 | the port's lookup for a ring byte is func1 of the tilt slot main.cpp reads |
| PortEquivalence.PortMapOffsetExact | initial_port.cpp:216-223 | the port's 16-bit offset arithmetic reads back as color_map_offset |
| PortEquivalence.LeftOffsetAgrees | initial_port.cpp:216-223 | the port's left map offset equals func2's |
| PortEquivalence.RightOffsetAgrees | initial_port.cpp:238-243 | the port's right map offset equals func2's |
| PortEquivalence.PixelAgrees | initial_port.cpp:225-235 | with equal cursors and offsets, the port's pixel trace equals set_pixel_color's |
| PortEquivalence.CursorsExact | initial_port.cpp:235 | the port's 16-bit pixel cursors equal main.cpp's left and right offsets whenever those lie in [0, 65535] |
| PortEquivalence.EntryAgrees | initial_port.cpp:155-255 | when main.cpp draws an entry without fault, the port draws the same pixels in the same order |
| GlobeEquivalence.CursorsAdvance | initial_port.cpp:235-257 | the port's slice and pixel cursors advance exactly as main.cpp's index and offsets do |
| GlobeEquivalence.LineStepAgrees | initial_port.cpp:262-266 | the port's next line start is main.cpp's, modulo 2^16 |
| GlobeEquivalence.RingAgrees | initial_port.cpp:155-266 | from entry k on, the port's ring equals main.cpp's, followed by the rest of the pass |
| GlobeEquivalence.PassAgrees | initial_port.cpp:130-267 | from a laid-out ring on, the port's pass equals main.cpp's rings followed by the southern pass (or nothing, for the south) |
| GlobeEquivalence.ShippedHeader | initial_port.cpp:148-149 | with the header byte -65 of the shipped file the port restarts the south at index 66, which is right exactly when the first ring has 64 entries |
| GlobeEquivalence.AtLeastTwoRings | initial_port.cpp:136-150 | an outline whose northern hemisphere main.cpp draws without a fault has at least two rings, so the port's southern restart finds ring 1 |
| GlobeEquivalence.NorthAgrees | initial_port.cpp:130-151 | the port's whole trace is main.cpp's northern hemisphere followed by the port's southern pass |
| GlobeEquivalence.SouthRestart | initial_port.cpp:144-150 | the port's southern pass starts at ring 1 of the outline, at main.cpp's southern line start |
| GlobeEquivalence.SouthAgrees | initial_port.cpp:130-266 | the port's southern pass equals main.cpp's southern hemisphere |
| GlobeEquivalence.GlobeAgrees | initial_port.cpp:111-268 | when the header matches and main.cpp draws without fault, the port's globe trace equals main.cpp's |
| Frame.TablatEntries | main.cpp:431-436 | TABLAT.BIN read as records: each field of entry i is the little-endian word at bytes 8i + 2f |
| Frame.InitRotationTable | main.cpp:431-437 | the rotation table afterwards holds the records of TABLAT.BIN |
| Frame.LoadsAgree | main.cpp:431-437 | main.cpp's record load and the port's word load describe the same table |
| Frame.PortDrawFrame | initial_port.cpp:270-280 | the port's tables are the rebuilt ones and the framebuffer follows the port's trace for the frame |
| Frame.FrameTablesAgree | main.cpp:484-488 | the tables main.cpp draws with are those the port draws with, for the same rotation passed through int16_t |
| Frame.FrameAgrees | main.cpp:484-493 | when the outline matches the header and main.cpp draws the frame without fault, the port's frame trace equals main.cpp's |
| Frame.FrameMatches | main.cpp:492-499 | under those conditions, starting from equal framebuffers, the comparison never fails |
| Frame.DrawFrame | main.cpp:474-500 | the outcome (drawn, failed with a fault, or mismatch) follows the two traces; the framebuffer follows main.cpp's trace; the rotation table is rebuilt up to the first failing check and the tilt table untouched on a rejected seed, both rebuilt otherwise; the port's framebuffer and tables are the port's frame results when main.cpp draws without a fault and untouched when it does not; drawn implies the two framebuffers are equal |

## Left out

- SDL locking, `pal_color`, `draw_pixel` and the scaled copy to the screen (main.cpp:502-536) are presentation. The model stops at the colour-index framebuffer.
- The main loop, the animation state (`animated_t`, `complete_t`, which work in floating point) and the drag test are not part of this model. Each frame's tilt and rotation are parameters.
- The contents of `GLOBDATA.BIN`, `MAP.BIN`, `TABLAT.BIN` and `PAL.BIN` are parameters of the right sizes, not the shipped bytes. The outline is parsed once at startup in the source (`GLOBE_LINES`); here it is a parameter of each frame.
- `printf`, `assert` and `throw` are one fault: a failing `assert_throw` is `InvariantViolation`, and the model does not distinguish the message or the line.
- A read or write outside an array, which is undefined behaviour in C++, is the fault `OutOfBounds`. The model does not say what the hardware would do.
- The debug-only `assert(val0 == -65)` in `parse_unk0` (main.cpp:342) is not a fault here, because release builds skip it. The port instead relies on that byte: its use is modelled.
- `reinterpret_cast` of `TABLAT.BIN` into records (main.cpp:432) assumes a little-endian host. The model reads the bytes little-endian.
- Frame.FrameAgrees and GlobeEquivalence.GlobeAgrees are proved only when the header byte matches the first ring's length and main.cpp's trace has no fault. When main.cpp stops on an `assert_throw`, the port does not check that condition and may go on drawing. The model records both outcomes but does not relate them.
- Frame.DrawFrame reports a fault of the port's frame as `Failed`, where the C++ port would run into undefined behaviour.
- The framebuffer persists across frames in the source. Frame.FrameMatches covers one frame, starting from any content.
- The off-by-one comparisons with `INT8_MAX` and `INT16_MAX` in `uint8_as_int8` and `uint16_as_int16` are stated by InitialPort.UnnarrowedAtMaximum. They change no result on the usual two's-complement targets, so they are not listed as a finding.
