/** draw_frame of main.cpp and of initial_port.cpp: the rotation table
    reloaded from TABLAT_BIN, both tables rebuilt for the frame's tilt and
    rotation, the globe drawn, and main.cpp's frame-by-frame comparison of
    its framebuffer with the one the port draws. */
module Frame {
  import opened FixedWidth
  import opened Faults
  import opened Traces
  import opened RotationTable
  import opened InitialPort
  import TiltTable
  import OutlineParser
  import Rasterizer
  import PixelLookup
  import PortDraw
  import PortEquivalence
  import GlobeEquivalence

  /** TABLAT_BIN read as 396 little-endian words. */
  function TablatWords(tablat: seq<u8>): (words: seq<u16>)
    requires |tablat| == TablatSize
    ensures |words| == WordCount
  {
    seq(WordCount, i requires 0 <= i < WordCount => LittleEndianWord(tablat, i))
  }

  /** The seed records main.cpp copies out of TABLAT_BIN: entry i is made
      of bytes 8i .. 8i+7, two bytes per field, low byte first. */
  function TablatEntries(tablat: seq<u8>): (entries: seq<RotationEntry>)
    requires |tablat| == TablatSize
    ensures |entries| == EntryCount
    ensures forall i | 0 <= i < EntryCount ::
      entries[i].unk0 % 0x100 == tablat[8 * i] && entries[i].unk0 / 0x100 == tablat[8 * i + 1] &&
      entries[i].unk1 % 0x100 == tablat[8 * i + 2] && entries[i].unk1 / 0x100 == tablat[8 * i + 3]
  {
    Entries(TablatWords(tablat))
  }

  /** init_globe_rotation_lookup_table: the 99 seed records of TABLAT_BIN
      copied into the table. */
  method InitRotationTable(table: array<RotationEntry>, tablat: seq<u8>)
    requires table.Length == EntryCount && |tablat| == TablatSize
    modifies table
    ensures table[..] == TablatEntries(tablat)
  {
    var i := 0;
    while i != EntryCount
      invariant 0 <= i <= EntryCount
      invariant forall j | 0 <= j < i :: table[j] == TablatEntries(tablat)[j]
    {
      table[i] := RotationEntry(LittleEndianWord(tablat, 4 * i), LittleEndianWord(tablat, 4 * i + 1),
                                LittleEndianWord(tablat, 4 * i + 2), LittleEndianWord(tablat, 4 * i + 3));
      i := i + 1;
    }
  }

  /** The flat words the port loads are the records main.cpp copies. */
  lemma LoadsAgree(tablat: seq<u8>)
    requires |tablat| == TablatSize
    ensures Words(TablatEntries(tablat)) == TablatWords(tablat)
    ensures Entries(TablatWords(tablat)) == TablatEntries(tablat)
  {
    EntriesWords(TablatWords(tablat), TablatEntries(tablat));
  }

  /** The tables main.cpp draws a frame with, once the rebuilds are done. */
  function MainFrameTables(mapData: seq<u8>, tablat: seq<u8>, tilt: i16, rotation: u16): (t: PixelLookup.Tables)
    requires |tablat| == TablatSize
    ensures PixelLookup.ValidTables(t)
  {
    PixelLookup.Tables(Rebuilt(TablatEntries(tablat), rotation),
                       TiltTable.TiltTableOf(TiltTable.ClampedTilt(tilt)), mapData)
  }

  /** What main.cpp's draw_frame stores and how it ends: the rotation
      rebuild throws on a seed it rejects, before anything is drawn;
      otherwise draw_globe runs on the rebuilt tables. */
  function MainFrameTrace(globdata: seq<u8>, mapData: seq<u8>, tablat: seq<u8>, lines: seq<seq<u8>>,
                          tilt: i16, rotation: u16): (t: Trace)
    requires |globdata| == Rasterizer.GlobdataSize && |tablat| == TablatSize
    ensures !SeedAccepted(TablatEntries(tablat)) ==> t == Stop(InvariantViolation)
  {
    if !SeedAccepted(TablatEntries(tablat)) then Stop(InvariantViolation)
    else Rasterizer.GlobeTrace(MainFrameTables(mapData, tablat, tilt, rotation),
                               Rasterizer.AllSlices(globdata), lines)
  }

  /** The data the port's draw_globe reads once its draw_frame has loaded
      and rebuilt its flat tables. */
  function PortFrameData(globdata: seq<u8>, mapData: seq<u8>, tablat: seq<u8>, tilt: i16, rotation: i16)
    : (d: PortDraw.PortData)
    requires |globdata| == Rasterizer.GlobdataSize && |tablat| == TablatSize
    ensures PortDraw.ValidData(d)
  {
    PortDraw.PortData(globdata, Words(Rebuilt(TablatEntries(tablat), AsU16(rotation))),
                      TiltTable.TiltTableOf(TiltTable.ClampedTilt(tilt)), mapData)
  }

  /** What the port's draw_frame stores and how it ends. */
  function PortFrameTrace(globdata: seq<u8>, mapData: seq<u8>, tablat: seq<u8>, tilt: i16, rotation: i16): Trace
    requires |globdata| == Rasterizer.GlobdataSize && |tablat| == TablatSize
  {
    PortDraw.PortGlobeTrace(PortFrameData(globdata, mapData, tablat, tilt, rotation))
  }

  /** draw_frame of initial_port.cpp: TABLAT_BIN loaded word by word, the
      rotation (an int16_t, read back as uint16_t by the builder) and the
      tilt applied, then draw_globe. */
  method PortDrawFrame(fb: array<u8>, rotationWords: array<u16>, tiltWords: array<u16>,
                       globdata: seq<u8>, mapData: seq<u8>, tablat: seq<u8>, tilt: i16, rotation: i16)
    returns (fault: Option<Fault>)
    requires fb.Length == FramebufferSize && rotationWords.Length == WordCount
    requires tiltWords.Length == TiltTable.TableSize && rotationWords != tiltWords
    requires |globdata| == Rasterizer.GlobdataSize && |tablat| == TablatSize
    modifies fb, rotationWords, tiltWords
    ensures rotationWords[..] == PortFrameData(globdata, mapData, tablat, tilt, rotation).rotation
    ensures tiltWords[..] == PortFrameData(globdata, mapData, tablat, tilt, rotation).tilt
    ensures fault == PortFrameTrace(globdata, mapData, tablat, tilt, rotation).fault
    ensures fb[..] == ApplyWrites(old(fb[..]), PortFrameTrace(globdata, mapData, tablat, tilt, rotation).writes)
  {
    LoadRotationWords(rotationWords, tablat);
    assert rotationWords[..] == TablatWords(tablat);
    LoadsAgree(tablat);
    PrecalculateRotationWords(rotationWords, AsU16(rotation));
    EntriesWords(rotationWords[..], Rebuilt(TablatEntries(tablat), AsU16(rotation)));
    PrecalculateTiltWords(tiltWords, tilt);
    fault := PortDraw.DrawGlobe(fb, PortDraw.PortData(globdata, rotationWords[..], tiltWords[..], mapData));
  }

  /** The port's tables, read as main.cpp reads its own, are main.cpp's
      rebuilt tables: the int16_t rotation handed to the port converts back
      to the same uint16_t. */
  lemma FrameTablesAgree(globdata: seq<u8>, mapData: seq<u8>, tablat: seq<u8>, tilt: i16, rotation: u16)
    requires |globdata| == Rasterizer.GlobdataSize && |tablat| == TablatSize
    ensures PortEquivalence.MainTables(PortFrameData(globdata, mapData, tablat, tilt, AsI16(rotation)))
         == MainFrameTables(mapData, tablat, tilt, rotation)
  {
    U16RoundTrip(rotation);
    var rebuilt := Rebuilt(TablatEntries(tablat), rotation);
    EntriesWords(Words(rebuilt), rebuilt);
  }

  /** With the same assets, tilt and rotation, the port's draw_frame
      stores exactly the pixels main.cpp's draw_frame stores, in the same
      order, whenever main.cpp draws the frame without throwing, the
      outline parses and its header byte points at ring 1. */
  lemma FrameAgrees(globdata: seq<u8>, mapData: seq<u8>, tablat: seq<u8>, lines: seq<seq<u8>>,
                    tilt: i16, rotation: u16)
    requires |globdata| == Rasterizer.GlobdataSize && |tablat| == TablatSize
    requires OutlineParser.Parse(globdata[..OutlineParser.OutlineSize]) == Ok(lines)
    requires GlobeEquivalence.HeaderMatches(globdata, lines)
    requires MainFrameTrace(globdata, mapData, tablat, lines, tilt, rotation).fault.None?
    ensures PortFrameTrace(globdata, mapData, tablat, tilt, AsI16(rotation))
         == MainFrameTrace(globdata, mapData, tablat, lines, tilt, rotation)
  {
    var d := PortFrameData(globdata, mapData, tablat, tilt, AsI16(rotation));
    FrameTablesAgree(globdata, mapData, tablat, tilt, rotation);
    GlobeEquivalence.GlobeAgrees(d, lines);
  }

  /** How main.cpp's draw_frame ends: the frame is drawn and matches the
      port's, an assert_throw (or an out-of-range access) stops it, or the
      comparison with the port's framebuffer fails. */
  datatype FrameOutcome = Drawn | Failed(fault: Fault) | Mismatch

  /** The outcome of a frame from framebuffers fb and test (main.cpp's and
      the port's) as they were before it. */
  function FrameOutcomeOf(fb: seq<u8>, test: seq<u8>, globdata: seq<u8>, mapData: seq<u8>, tablat: seq<u8>,
                          lines: seq<seq<u8>>, tilt: i16, rotation: u16): FrameOutcome
    requires |globdata| == Rasterizer.GlobdataSize && |tablat| == TablatSize
  {
    var main := MainFrameTrace(globdata, mapData, tablat, lines, tilt, rotation);
    var port := PortFrameTrace(globdata, mapData, tablat, tilt, AsI16(rotation));
    if main.fault.Some? then Failed(main.fault.value)
    else if port.fault.Some? then Failed(port.fault.value)
    else if ApplyWrites(fb, main.writes) != ApplyWrites(test, port.writes) then Mismatch
    else Drawn
  }

  /** The comparison main.cpp makes after every frame never fails: from
      equal framebuffers, a frame main.cpp draws without throwing leaves
      both framebuffers equal again. */
  lemma FrameMatches(fb: seq<u8>, globdata: seq<u8>, mapData: seq<u8>, tablat: seq<u8>,
                     lines: seq<seq<u8>>, tilt: i16, rotation: u16)
    requires |globdata| == Rasterizer.GlobdataSize && |tablat| == TablatSize
    requires OutlineParser.Parse(globdata[..OutlineParser.OutlineSize]) == Ok(lines)
    requires GlobeEquivalence.HeaderMatches(globdata, lines)
    requires MainFrameTrace(globdata, mapData, tablat, lines, tilt, rotation).fault.None?
    ensures FrameOutcomeOf(fb, fb, globdata, mapData, tablat, lines, tilt, rotation) == Drawn
  {
    FrameAgrees(globdata, mapData, tablat, lines, tilt, rotation);
  }

  /** draw_frame of main.cpp without its SDL calls: the rotation table
      reloaded, both tables rebuilt, draw_globe, then the port's
      draw_frame into test_framebuffer and the comparison. */
  method DrawFrame(fb: array<u8>, test: array<u8>, rotationTable: array<RotationEntry>, tiltTable: array<u16>,
                   portRotation: array<u16>, portTilt: array<u16>,
                   globdata: seq<u8>, mapData: seq<u8>, tablat: seq<u8>, lines: seq<seq<u8>>,
                   tilt: i16, rotation: u16)
    returns (outcome: FrameOutcome)
    requires fb.Length == FramebufferSize && test.Length == FramebufferSize && fb != test
    requires rotationTable.Length == EntryCount && tiltTable.Length == TiltTable.TableSize
    requires portRotation.Length == WordCount && portTilt.Length == TiltTable.TableSize
    requires tiltTable != portRotation && tiltTable != portTilt && portRotation != portTilt
    requires |globdata| == Rasterizer.GlobdataSize && |tablat| == TablatSize
    modifies fb, test, rotationTable, tiltTable, portRotation, portTilt
    ensures outcome == FrameOutcomeOf(old(fb[..]), old(test[..]), globdata, mapData, tablat, lines, tilt, rotation)
    ensures fb[..] == ApplyWrites(old(fb[..]), MainFrameTrace(globdata, mapData, tablat, lines, tilt, rotation).writes)
    ensures SeedAccepted(TablatEntries(tablat)) ==>
      rotationTable[..] == Rebuilt(TablatEntries(tablat), rotation) &&
      tiltTable[..] == TiltTable.TiltTableOf(TiltTable.ClampedTilt(tilt))
    ensures !SeedAccepted(TablatEntries(tablat)) ==>
      rotationTable[..] == RebuiltUpTo(TablatEntries(tablat), rotation, RebuiltCount(TablatEntries(tablat))) &&
      tiltTable[..] == old(tiltTable[..])
    ensures MainFrameTrace(globdata, mapData, tablat, lines, tilt, rotation).fault.None? ==>
      test[..] == ApplyWrites(old(test[..]), PortFrameTrace(globdata, mapData, tablat, tilt, AsI16(rotation)).writes) &&
      portRotation[..] == PortFrameData(globdata, mapData, tablat, tilt, AsI16(rotation)).rotation &&
      portTilt[..] == PortFrameData(globdata, mapData, tablat, tilt, AsI16(rotation)).tilt
    ensures MainFrameTrace(globdata, mapData, tablat, lines, tilt, rotation).fault.Some? ==>
      test[..] == old(test[..]) && portRotation[..] == old(portRotation[..]) && portTilt[..] == old(portTilt[..])
    ensures outcome == Drawn ==> fb[..] == test[..]
  {
    var main := MainFrameTrace(globdata, mapData, tablat, lines, tilt, rotation);
    var port := PortFrameTrace(globdata, mapData, tablat, tilt, AsI16(rotation));
    InitRotationTable(rotationTable, tablat);
    var ok := PrecalculateRotationTable(rotationTable, rotation);
    if !ok {
      assert fb[..] == ApplyWrites(old(fb[..]), []);
      return Failed(InvariantViolation);
    }
    TiltTable.PrecalculateTiltTable(tiltTable, tilt);
    var fault := Rasterizer.DrawGlobe(fb, lines, Rasterizer.AllSlices(globdata),
                                      PixelLookup.Tables(rotationTable[..], tiltTable[..], mapData));
    if fault.Some? {
      return Failed(fault.value);
    }
    fault := PortDrawFrame(test, portRotation, portTilt, globdata, mapData, tablat, tilt, AsI16(rotation));
    if fault.Some? {
      return Failed(fault.value);
    }
    if fb[..] != test[..] {
      return Mismatch;
    }
    return Drawn;
  }
}
