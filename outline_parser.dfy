/** parse_unk0: the globe outline at the head of GLOBDATA_BIN. After a
    header byte come the rings, one per framebuffer row: non-negative
    int8_t half-widths closed by any negative byte, and after the last ring
    a -1 at index 2867. The bytes from 2869 to the end are zero. */
module OutlineParser {
  import opened FixedWidth
  import opened Faults

  /** std::array<uint8_t, 3290> unk0 */
  const OutlineSize: nat := 3290
  /** The last index at which a ring (or the closing -1) may start. */
  const LastStart: nat := 2867
  /** di after the closing -1 has been read. */
  const EndIndex: nat := 2868
  /** The first byte of the zero padding. */
  const PaddingStart: nat := 2869

  /** A byte of the outline read as int8_t. */
  function SignedByte(b: u8): (v: i8)
    ensures v < 0 <==> b >= 0x80
    ensures v == -1 <==> b == 0xFF
    ensures v >= 0 ==> v == b
  {
    AsI8(b)
  }

  /** The rest of a ring from index p: the bytes up to the first negative
      one, and the index after that negative byte. Running past the end of
      the array is an out-of-range read. */
  function RunFrom(blob: seq<u8>, p: nat): (r: Result<(seq<u8>, nat)>)
    ensures r.Ok? ==>
      var (run, q) := r.value;
      q == p + |run| + 1 && q <= |blob| && blob[p .. p + |run|] == run &&
      (forall j | 0 <= j < |run| :: run[j] < 0x80) && blob[q - 1] >= 0x80
    ensures r.Err? ==> r.fault == OutOfBounds
    decreases |blob| - p
  {
    if p >= |blob| then Err(OutOfBounds)
    else if SignedByte(blob[p]) < 0 then Ok(([], p + 1))
    else
      match RunFrom(blob, p + 1)
      case Err(f) => Err(f)
      case Ok((run, q)) => Ok(([blob[p]] + run, q))
  }

  /** The outer loop of parse_unk0 from index di: the rings read and the
      index after the closing -1. */
  function RingsFrom(blob: seq<u8>, di: nat): (r: Result<(seq<seq<u8>>, nat)>)
    ensures r.Ok? ==> di < r.value.1 <= LastStart + 1
    decreases |blob| - di
  {
    if !(1 <= di <= LastStart) then Err(InvariantViolation)
    else if di >= |blob| then Err(OutOfBounds)
    else
      var val := SignedByte(blob[di]);
      if val == -1 then Ok(([], di + 1))
      else if val < 0 then Err(InvariantViolation)
      else
        match RunFrom(blob, di + 1)
        case Err(f) => Err(f)
        case Ok((run, next)) =>
          match RingsFrom(blob, next)
          case Err(f) => Err(f)
          case Ok((rings, end)) => Ok(([[blob[di]] + run] + rings, end))
  }

  predicate ZeroPadded(blob: seq<u8>)
  {
    forall i | PaddingStart <= i < |blob| :: blob[i] == 0
  }

  /** parse_unk0. The header byte (-65) is checked only by a debug assert
      and plays no part here; byte 2868 is never read. */
  function Parse(blob: seq<u8>): (r: Result<seq<seq<u8>>>)
    requires |blob| == OutlineSize
  {
    match RingsFrom(blob, 1)
    case Err(f) => Err(f)
    case Ok((rings, di)) =>
      if di != EndIndex then Err(InvariantViolation)
      else if !ZeroPadded(blob) then Err(InvariantViolation)
      else Ok(rings)
  }

  /** The layout parse_unk0 accepts, stated on the bytes: from index p, each
      ring is a non-empty run of bytes below 0x80 closed by a byte of at
      least 0x80, every ring starts at an index of at most 2867, and after
      the last ring comes 0xFF (-1) at index 2867. */
  predicate RingsAt(blob: seq<u8>, p: nat, rings: seq<seq<u8>>)
    decreases |rings|
  {
    1 <= p <= LastStart && p < |blob| &&
    if rings == [] then p == LastStart && blob[p] == 0xFF
    else
      var ring := rings[0];
      |ring| >= 1 && p + |ring| < |blob| && blob[p .. p + |ring|] == ring &&
      (forall j | 0 <= j < |ring| :: ring[j] < 0x80) &&
      blob[p + |ring|] >= 0x80 &&
      RingsAt(blob, p + |ring| + 1, rings[1..])
  }

  /** The whole outline: rings from index 1 and the zero padding. */
  predicate Framed(blob: seq<u8>, rings: seq<seq<u8>>)
  {
    |blob| == OutlineSize && RingsAt(blob, 1, rings) && ZeroPadded(blob)
  }

  /** A run of bytes below 0x80 closed by a negative byte is read whole. */
  lemma {:induction false} RunFromReads(blob: seq<u8>, p: nat, n: nat)
    requires p + n < |blob|
    requires forall j | p <= j < p + n :: blob[j] < 0x80
    requires blob[p + n] >= 0x80
    ensures RunFrom(blob, p) == Ok((blob[p .. p + n], p + n + 1))
    decreases n
  {
    if n > 0 {
      RunFromReads(blob, p + 1, n - 1);
      assert [blob[p]] + blob[p + 1 .. p + n] == blob[p .. p + n];
    }
  }

  lemma {:induction false} RingsFromLayout(blob: seq<u8>, p: nat, rings: seq<seq<u8>>)
    requires RingsAt(blob, p, rings)
    ensures RingsFrom(blob, p) == Ok((rings, EndIndex))
    decreases |rings|
  {
    if rings != [] {
      var ring := rings[0];
      RingReads(blob, p, ring);
      RingsFromLayout(blob, p + |ring| + 1, rings[1..]);
      assert [ring] + rings[1..] == rings;
    }
  }

  /** A ring laid out at p: its first byte, then the rest read as a run. */
  lemma RingReads(blob: seq<u8>, p: nat, ring: seq<u8>)
    requires |ring| >= 1 && p + |ring| < |blob| && blob[p .. p + |ring|] == ring
    requires forall j | 0 <= j < |ring| :: ring[j] < 0x80
    requires blob[p + |ring|] >= 0x80
    ensures blob[p] < 0x80
    ensures RunFrom(blob, p + 1) == Ok((ring[1..], p + |ring| + 1))
    ensures [blob[p]] + ring[1..] == ring
  {
    forall j | p + 1 <= j < p + |ring|
      ensures blob[j] < 0x80
    {
      assert blob[j] == ring[j - p];
    }
    assert blob[p] == ring[0];
    RunFromReads(blob, p + 1, |ring| - 1);
    assert blob[p + 1 .. p + |ring|] == ring[1..];
  }

  lemma {:induction false} LayoutOfRingsFrom(blob: seq<u8>, p: nat, rings: seq<seq<u8>>)
    requires RingsFrom(blob, p) == Ok((rings, EndIndex))
    ensures RingsAt(blob, p, rings)
    decreases |blob| - p
  {
    var next := RingStepLayout(blob, p, rings);
    if rings != [] {
      LayoutOfRingsFrom(blob, next, rings[1..]);
    }
  }

  /** One step of the outer loop, stated on the bytes: the closing -1 at
      2867, or a ring of bytes below 0x80 closed by a negative byte, after
      which the loop goes on at `next`. */
  lemma RingStepLayout(blob: seq<u8>, p: nat, rings: seq<seq<u8>>) returns (next: nat)
    requires RingsFrom(blob, p) == Ok((rings, EndIndex))
    ensures 1 <= p <= LastStart && p < |blob|
    ensures rings == [] ==> p == LastStart && blob[p] == 0xFF
    ensures rings != [] ==>
      |rings[0]| >= 1 && p + |rings[0]| < |blob| && blob[p .. p + |rings[0]|] == rings[0] &&
      (forall j | 0 <= j < |rings[0]| :: rings[0][j] < 0x80) &&
      blob[p + |rings[0]|] >= 0x80 && next == p + |rings[0]| + 1 &&
      RingsFrom(blob, next) == Ok((rings[1..], EndIndex))
  {
    next := p + 1;
    if blob[p] != 0xFF {
      var (run, q) := RunFrom(blob, p + 1).value;
      next := q;
      var rest := RingsFrom(blob, next).value.0;
      assert rings == [[blob[p]] + run] + rest;
      assert rings[1..] == rest;
      assert blob[p .. p + 1 + |run|] == [blob[p]] + blob[p + 1 .. p + 1 + |run|];
    }
  }

  /** parse_unk0 accepts exactly the outlines laid out as RingsAt describes,
      and returns their rings. */
  lemma ParseFramed(blob: seq<u8>, rings: seq<seq<u8>>)
    requires |blob| == OutlineSize
    ensures Parse(blob) == Ok(rings) <==> Framed(blob, rings)
  {
    if Parse(blob) == Ok(rings) {
      LayoutOfRingsFrom(blob, 1, rings);
    }
    if Framed(blob, rings) {
      RingsFromLayout(blob, 1, rings);
    }
  }

  /** Every ring parse_unk0 returns is non-empty and holds non-negative
      int8_t values; the rings and their closing bytes fill indices
      1 .. 2867 exactly. */
  lemma {:induction false} RingsAtShape(blob: seq<u8>, p: nat, rings: seq<seq<u8>>)
    requires RingsAt(blob, p, rings)
    ensures forall g | 0 <= g < |rings| :: |rings[g]| >= 1
    ensures forall g, j | 0 <= g < |rings| && 0 <= j < |rings[g]| :: rings[g][j] < 0x80
    ensures p + Footprint(rings) == LastStart
    decreases |rings|
  {
    if rings != [] {
      RingsAtShape(blob, p + |rings[0]| + 1, rings[1..]);
      forall g | 1 <= g < |rings|
        ensures rings[g] == rings[1..][g - 1]
      {
      }
    }
  }

  /** The bytes the rings take up, each with its closing byte. */
  function Footprint(rings: seq<seq<u8>>): nat
  {
    if rings == [] then 0 else |rings[0]| + 1 + Footprint(rings[1..])
  }

  lemma ParseShape(blob: seq<u8>)
    requires |blob| == OutlineSize && Parse(blob).Ok?
    ensures var rings := Parse(blob).value;
      (forall g | 0 <= g < |rings| :: |rings[g]| >= 1) &&
      (forall g, j | 0 <= g < |rings| && 0 <= j < |rings[g]| :: rings[g][j] < 0x80) &&
      1 + Footprint(rings) == LastStart
  {
    ParseFramed(blob, Parse(blob).value);
    RingsAtShape(blob, 1, Parse(blob).value);
  }

  /** The rings before the result of a later step of the outer loop. */
  function PrependRings(lines: seq<seq<u8>>, r: Result<(seq<seq<u8>>, nat)>): Result<(seq<seq<u8>>, nat)>
  {
    match r
    case Err(f) => Err(f)
    case Ok((rings, end)) => Ok((lines + rings, end))
  }

  /** The bytes before the result of a later step of the inner loop. */
  function PrependRun(values: seq<u8>, r: Result<(seq<u8>, nat)>): Result<(seq<u8>, nat)>
  {
    match r
    case Err(f) => Err(f)
    case Ok((run, q)) => Ok((values + run, q))
  }

  lemma PrependNoRings(r: Result<(seq<seq<u8>>, nat)>)
    ensures PrependRings([], r) == r
  {
    if r.Ok? {
      assert [] + r.value.0 == r.value.0;
    }
  }

  lemma PrependRingsTwice(a: seq<seq<u8>>, b: seq<seq<u8>>, r: Result<(seq<seq<u8>>, nat)>)
    ensures PrependRings(a, PrependRings(b, r)) == PrependRings(a + b, r)
  {
    if r.Ok? {
      assert a + (b + r.value.0) == (a + b) + r.value.0;
    }
  }

  lemma PrependNoBytes(r: Result<(seq<u8>, nat)>)
    ensures PrependRun([], r) == r
  {
    if r.Ok? {
      assert [] + r.value.0 == r.value.0;
    }
  }

  lemma PrependRunTwice(a: seq<u8>, b: seq<u8>, r: Result<(seq<u8>, nat)>)
    ensures PrependRun(a, PrependRun(b, r)) == PrependRun(a + b, r)
  {
    if r.Ok? {
      assert a + (b + r.value.0) == (a + b) + r.value.0;
    }
  }

  /** One ring read by the outer loop from di, whose bytes after the first
      are `run`, and the loop going on at `next`. */
  lemma RingsFromStep(blob: seq<u8>, di: nat, run: seq<u8>, next: nat)
    requires 1 <= di <= LastStart && di < |blob| && blob[di] < 0x80
    requires RunFrom(blob, di + 1) == Ok((run, next))
    ensures RingsFrom(blob, di) == PrependRings([[blob[di]] + run], RingsFrom(blob, next))
  {
  }

  /** The do-while of parse_unk0 after its first round: values are read
      until a negative one, which is consumed too. */
  method ReadRun(blob: seq<u8>, start: nat) returns (r: Result<(seq<u8>, nat)>)
    requires start <= |blob|
    ensures r == RunFrom(blob, start)
  {
    var values: seq<u8> := [];
    var di := start;
    PrependNoBytes(RunFrom(blob, start));
    while true
      invariant start <= di <= |blob|
      invariant RunFrom(blob, start) == PrependRun(values, RunFrom(blob, di))
      decreases |blob| - di
    {
      if di >= |blob| {
        return Err(OutOfBounds);
      }
      var val := SignedByte(blob[di]);
      di := di + 1;
      if val < 0 {
        assert values + [] == values;
        return Ok((values, di));
      }
      PrependRunTwice(values, [blob[di - 1]], RunFrom(blob, di));
      values := values + [blob[di - 1]];
    }
  }

  /** parse_unk0 with its two loops; each ring is collected in `values`. */
  method ParseUnk0(blob: seq<u8>) returns (r: Result<seq<seq<u8>>>)
    requires |blob| == OutlineSize
    ensures r == Parse(blob)
  {
    var lines: seq<seq<u8>> := [];
    var di: nat := 1;
    PrependNoRings(RingsFrom(blob, 1));
    while true
      invariant 1 <= di <= |blob|
      invariant RingsFrom(blob, 1) == PrependRings(lines, RingsFrom(blob, di))
      decreases |blob| - di
    {
      if !(1 <= di <= LastStart) {
        return Err(InvariantViolation);
      }
      var val := SignedByte(blob[di]);
      di := di + 1;
      if val == -1 {
        assert lines + [] == lines;
        break;
      }
      // assert_throw(val >= 0) of the do-while; on the later rounds the
      // loop condition has already established it.
      if val < 0 {
        return Err(InvariantViolation);
      }
      var rest := ReadRun(blob, di);
      if rest.Err? {
        return Err(rest.fault);
      }
      var values := [blob[di - 1]] + rest.value.0;
      RingsFromStep(blob, di - 1, rest.value.0, rest.value.1);
      PrependRingsTwice(lines, [values], RingsFrom(blob, rest.value.1));
      lines := lines + [values];
      di := rest.value.1;
    }
    if di != EndIndex {
      return Err(InvariantViolation);
    }
    var i := PaddingStart;
    while i < |blob|
      invariant PaddingStart <= i <= |blob|
      invariant forall j | PaddingStart <= j < i :: blob[j] == 0
    {
      if blob[i] != 0 {
        return Err(InvariantViolation);
      }
      i := i + 1;
    }
    return Ok(lines);
  }
}
