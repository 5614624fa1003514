/** The table code of initial_port.cpp, the register-level reference
    implementation: its sign reinterpretations, the little-endian table load
    of draw_frame and the two builders over flat uint16_t arrays. */
module InitialPort {
  import opened FixedWidth
  import opened RotationTable
  import TiltTable

  /** globe_rotation_lookup_table[396]: 99 entries of four words. */
  const WordCount: nat := 4 * EntryCount
  /** TABLAT_BIN: 396 little-endian words. */
  const TablatSize: nat := 2 * WordCount

  /** The expression uint8_as_int8 returns, before the narrowing to int8_t:
      u when u < INT8_MAX (127), otherwise u - UINT8_MAX - 1. */
  function Uint8AsInt8Unnarrowed(u: u8): int
  {
    if u < 127 then u else u - 255 - 1
  }

  /** uint8_as_int8: two's-complement reinterpretation of a byte. */
  function Uint8AsInt8(u: u8): (r: i8)
    ensures r == AsI8(u)
    ensures r == (if u < 0x80 then u else u - 0x100)
  {
    AsI8(Uint8AsInt8Unnarrowed(u))
  }

  /** The expression uint16_as_int16 returns, before the narrowing to int16_t. */
  function Uint16AsInt16Unnarrowed(u: u16): int
  {
    if u < 32767 then u else u - 65535 - 1
  }

  /** uint16_as_int16: two's-complement reinterpretation of a word. */
  function Uint16AsInt16(u: u16): (r: i16)
    ensures r == AsI16(u)
    ensures r == (if u < 0x8000 then u else u - 0x1_0000)
  {
    AsI16(Uint16AsInt16Unnarrowed(u))
  }

  /** The comparisons with INT8_MAX and INT16_MAX are off by one: at 127 and
      32767 the expressions are -129 and -32769, out of range, and only the
      wrap-around of the narrowing on return gives the right values. */
  lemma UnnarrowedAtMaximum()
    ensures Uint8AsInt8Unnarrowed(127) == -129 && Uint8AsInt8(127) == 127
    ensures Uint16AsInt16Unnarrowed(32767) == -32769 && Uint16AsInt16(32767) == 32767
    ensures forall u: u8 | u != 127 :: Uint8AsInt8Unnarrowed(u) == Uint8AsInt8(u)
    ensures forall u: u16 | u != 32767 :: Uint16AsInt16Unnarrowed(u) == Uint16AsInt16(u)
  {
  }

  /** The flat table read as rotation_lookup_table_entry_t records: entry i
      is words 4i (unk0), 4i+1 (unk1), 4i+2 (fp_hi) and 4i+3 (fp_lo). */
  function Entries(words: seq<u16>): (entries: seq<RotationEntry>)
    requires |words| == WordCount
    ensures |entries| == EntryCount
    ensures forall i | 0 <= i < EntryCount ::
      entries[i] == RotationEntry(words[4 * i], words[4 * i + 1], words[4 * i + 2], words[4 * i + 3])
  {
    seq(EntryCount, i requires 0 <= i < EntryCount =>
      RotationEntry(words[4 * i], words[4 * i + 1], words[4 * i + 2], words[4 * i + 3]))
  }

  /** The records laid out as flat words. */
  function Words(entries: seq<RotationEntry>): (words: seq<u16>)
    requires |entries| == EntryCount
    ensures |words| == WordCount
  {
    seq(WordCount, j requires 0 <= j < WordCount =>
      var e := entries[j / 4];
      if j % 4 == 0 then e.unk0 else if j % 4 == 1 then e.unk1 else if j % 4 == 2 then e.fpHi else e.fpLo)
  }

  /** The flat and the record layout describe the same table. */
  lemma EntriesWords(words: seq<u16>, entries: seq<RotationEntry>)
    requires |words| == WordCount && |entries| == EntryCount
    ensures Entries(Words(entries)) == entries
    ensures Words(Entries(words)) == words
  {
    forall i | 0 <= i < EntryCount
      ensures Entries(Words(entries))[i] == entries[i]
    {
      assert (4 * i) / 4 == i && (4 * i + 1) / 4 == i && (4 * i + 2) / 4 == i && (4 * i + 3) / 4 == i;
    }
    forall j | 0 <= j < WordCount
      ensures Words(Entries(words))[j] == words[j]
    {
      var i := j / 4;
      assert j == 4 * i + j % 4;
    }
  }

  /** The port addresses the rotation table at word 2 * t0 for an even
      slice byte t0: the words of entry t0 / 2, as main.cpp reads them. */
  lemma EvenIndexEntry(words: seq<u16>, t0: nat)
    requires |words| == WordCount && t0 <= 2 * (EntryCount - 1) && t0 % 2 == 0
    ensures Entries(words)[t0 / 2]
         == RotationEntry(words[2 * t0], words[2 * t0 + 1], words[2 * t0 + 2], words[2 * t0 + 3])
  {
    assert 4 * (t0 / 2) == 2 * t0;
  }

  /** Word i of TABLAT_BIN: TABLAT_BIN[2i] + (TABLAT_BIN[2i+1] << 8). */
  function LittleEndianWord(tablat: seq<u8>, i: nat): (w: u16)
    requires 2 * i + 1 < |tablat|
    ensures w % 0x100 == tablat[2 * i] && w / 0x100 == tablat[2 * i + 1]
  {
    var lo: int := tablat[2 * i];
    var hi: int := tablat[2 * i + 1];
    lo + hi * 0x100
  }

  /** The first loop of draw_frame: the 396 words of TABLAT_BIN. */
  method LoadRotationWords(table: array<u16>, tablat: seq<u8>)
    requires table.Length == WordCount && |tablat| == TablatSize
    modifies table
    ensures forall i | 0 <= i < WordCount :: table[i] == LittleEndianWord(tablat, i)
  {
    var i := 0;
    while i != WordCount
      invariant 0 <= i <= WordCount
      invariant forall j | 0 <= j < i :: table[j] == LittleEndianWord(tablat, j)
    {
      var lo: int := tablat[2 * i + 0];
      var hi: int := tablat[2 * i + 1];
      var u: u16 := AsU16(lo + hi * 0x100);
      table[i] := u;
      i := i + 1;
    }
  }

  /** precalculate_globe_rotation_lookup_table of initial_port.cpp. It
      makes none of the seed checks of main.cpp and always rewrites the
      derived words of all 99 entries: afterwards the table, read as
      records, is main.cpp's rebuilt table, and words 4i and 4i+1 are
      untouched. */
  method PrecalculateRotationWords(table: array<u16>, globeRotation: u16)
    requires table.Length == WordCount
    modifies table
    ensures Entries(table[..]) == Rebuilt(Entries(old(table[..])), globeRotation)
    ensures forall i | 0 <= i < EntryCount ::
      table[4 * i] == old(table[4 * i]) && table[4 * i + 1] == old(table[4 * i + 1])
  {
    ghost var seed := Entries(table[..]);
    var dxax: u32 := AsU32(MagicValue * globeRotation);
    dxax := dxax - dxax % 0x1_0000;

    table[2] := Hi(dxax);
    table[3] := Lo(dxax);
    assert Entries(table[..]) == RebuiltUpTo(seed, globeRotation, 1);

    dxax := AsU32(dxax + 0x8000);
    var bx: u16 := AsU16(dxax / MagicValue);

    var i := 1;
    while i != EntryCount
      invariant 1 <= i <= EntryCount
      invariant bx == ScaleFactor(globeRotation)
      invariant Entries(table[..]) == RebuiltUpTo(seed, globeRotation, i)
    {
      var product: u32 := AsU32(2 * bx * table[4 * i + 1]);
      table[4 * i + 2] := Hi(product);
      table[4 * i + 3] := Lo(product);
      assert Entries(table[..]) == RebuiltUpTo(seed, globeRotation, i + 1);
      i := i + 1;
    }
  }

  /** precalculate_globe_tilt_lookup_table of initial_port.cpp: the tilt is
      clamped with two comparisons instead of clamp(), and the same four
      loops fill the table, so for every int16_t tilt both builders produce
      the same 196 words. */
  method PrecalculateTiltWords(table: array<u16>, globeTilt: i16)
    requires table.Length == TiltTable.TableSize
    modifies table
    ensures table[..] == TiltTable.TiltTableOf(TiltTable.ClampedTilt(globeTilt))
  {
    var tilt := globeTilt;
    if tilt < -98 {
      tilt := -98;
    }
    if tilt > 98 {
      tilt := 98;
    }
    TiltTable.FillTiltTable(table, tilt);
  }
}
