/** The 320x200 palette-indexed framebuffer and the record of what a drawing
    step writes into it. */
module Traces {
  import opened FixedWidth
  import opened Faults

  const FramebufferWidth: nat := 320
  const FramebufferHeight: nat := 200
  const FramebufferSize: nat := FramebufferWidth * FramebufferHeight

  /** One byte stored into the framebuffer. */
  datatype PixelWrite = PixelWrite(offset: int, color: u8)

  /** The writes a drawing step performs, in order, and the fault that
      stopped it, if any. Writes made before a fault stay in the buffer. */
  datatype Trace = Trace(writes: seq<PixelWrite>, fault: Option<Fault>)

  /** A step that writes nothing and ends normally. */
  function Done(): Trace
  {
    Trace([], None)
  }

  /** A step that stops with a fault before writing anything. */
  function Stop(f: Fault): Trace
  {
    Trace([], Some(f))
  }

  /** Sequential composition: b runs only if a ended without a fault. */
  function Then(a: Trace, b: Trace): Trace
  {
    if a.fault.Some? then a else Trace(a.writes + b.writes, b.fault)
  }

  lemma ThenAssociative(a: Trace, b: Trace, c: Trace)
    ensures Then(Then(a, b), c) == Then(a, Then(b, c))
  {
    if a.fault.None? && b.fault.None? {
      assert (a.writes + b.writes) + c.writes == a.writes + (b.writes + c.writes);
    }
  }

  /** A completed prefix followed by a step that ends normally. */
  lemma ThenStep(done: seq<PixelWrite>, a: Trace, b: Trace)
    requires a.fault.None?
    ensures Then(Trace(done, None), Then(a, b)) == Then(Trace(done + a.writes, None), b)
  {
    assert done + (a.writes + b.writes) == (done + a.writes) + b.writes;
  }

  /** A completed prefix followed by a step that faults: nothing after it runs. */
  lemma ThenHalt(done: seq<PixelWrite>, a: Trace, b: Trace)
    requires a.fault.Some?
    ensures Then(Trace(done, None), Then(a, b)) == Trace(done + a.writes, a.fault)
  {
  }

  /** The buffer after storing the writes in order (a write outside the
      buffer changes nothing; traces never hold one). */
  function ApplyWrites(fb: seq<u8>, ws: seq<PixelWrite>): (r: seq<u8>)
    ensures |r| == |fb|
    decreases |ws|
  {
    if ws == [] then fb
    else
      var w := ws[0];
      ApplyWrites(if 0 <= w.offset < |fb| then fb[w.offset := w.color] else fb, ws[1..])
  }

  lemma {:induction false} ApplyWritesAppend(fb: seq<u8>, a: seq<PixelWrite>, b: seq<PixelWrite>)
    ensures ApplyWrites(fb, a + b) == ApplyWrites(ApplyWrites(fb, a), b)
    decreases |a|
  {
    if a != [] {
      var w := a[0];
      assert (a + b)[1..] == a[1..] + b;
      ApplyWritesAppend(if 0 <= w.offset < |fb| then fb[w.offset := w.color] else fb, a[1..], b);
    } else {
      assert a + b == b;
    }
  }

}
