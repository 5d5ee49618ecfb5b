/** The scratch-reveal controller: the pointer state, the one-way reveal
    latch, the stroke throttle and the canvas pixel buffer, updated in place
    by the page's event handlers. */
module ScratchCard {
  import opened Coating

  /** The reveal check runs on every 15th accepted stroke. */
  const CheckEvery: nat := 15

  class Controller {
    /** The pointer (mouse button or touch) is down. */
    var isDrawing: bool
    /** The one-way latch: the coating has been cleared away. */
    var revealed: bool
    /** Accepted strokes since the last reset. */
    var throttleCounter: nat
    var width: nat
    var height: nat
    /** The canvas's RGBA bytes, 4 * width * height of them. */
    var pixels: array<byte>
    /** How many times the card has been revealed since it was last reset. */
    ghost var revealsSinceReset: nat

    ghost predicate Valid()
      reads this
    {
      pixels.Length == Channels * (width * height) &&
      revealsSinceReset == (if revealed then 1 else 0)
    }

    /** The transparent samples of the current buffer. */
    function Transparent(): nat
      reads this, pixels
    {
      ZeroCount(pixels[..], FirstAlpha)
    }

    /** Module start-up: the three state variables at their initial values,
        and the canvas at its initial size, transparent until it is painted. */
    constructor (w: nat, h: nat)
      ensures Valid() && fresh(pixels)
      ensures !isDrawing && !revealed && throttleCounter == 0
      ensures width == w && height == h
      ensures forall j | 0 <= j < pixels.Length :: pixels[j] == 0
    {
      isDrawing := false;
      revealed := false;
      throttleCounter := 0;
      width, height := w, h;
      pixels := new byte[Channels * (w * h)](_ => 0);
      revealsSinceReset := 0;
    }

    /** Sizes the canvas to its container (which clears it), fills it with the
        opaque gradient and adds noise. */
    method InitCanvas(r: Repaint)
      requires Valid() && r.Valid()
      modifies this
      ensures Valid() && fresh(pixels)
      ensures width == r.width && height == r.height
      ensures pixels[..] == r.Coat()
      ensures AllOpaque(pixels[..]) && Transparent() == 0
      ensures isDrawing == old(isDrawing) && revealed == old(revealed)
      ensures throttleCounter == old(throttleCounter) && revealsSinceReset == old(revealsSinceReset)
    {
      width, height := r.width, r.height;
      pixels := new byte[Channels * (width * height)](_ => 0);
      forall j | 0 <= j < pixels.Length {
        pixels[j] := PaintedAt(r.gradient, j);
      }
      assert pixels[..] == Painted(r.gradient);
      AddNoise(r.noise);
      FreshCoatingIsOpaque(r);
    }

    /** Walks the buffer pixel by pixel and perturbs R, G and B by the pixel's
        noise offset, clamped to [0, 255]; alpha is left alone. */
    method AddNoise(noise: seq<int>)
      requires Valid()
      requires |noise| == width * height && NoiseInRange(noise)
      modifies pixels
      ensures pixels[..] == Noised(old(pixels[..]), noise)
    {
      var i := 0;
      while i < pixels.Length
        invariant 0 <= i <= pixels.Length && i % Channels == 0
        invariant forall j | 0 <= j < i :: pixels[j] == NoisedAt(old(pixels[..]), noise, j)
        invariant forall j | i <= j < pixels.Length :: pixels[j] == old(pixels[j])
      {
        var offset := noise[i / Channels];
        pixels[i] := Clamp(pixels[i] as int + offset);
        pixels[i + 1] := Clamp(pixels[i + 1] as int + offset);
        pixels[i + 2] := Clamp(pixels[i + 2] as int + offset);
        i := i + Channels;
      }
    }

    /** A pointer-move stroke: ignored unless the pointer is down and the card
        is not yet revealed; otherwise erases the dab, counts the stroke and
        measures on every 15th. */
    method Scratch(dab: Dab)
      requires Valid()
      modifies this, pixels
      ensures Valid() && pixels == old(pixels) && width == old(width) && height == old(height)
      ensures isDrawing == old(isDrawing)
      ensures !old(isDrawing) || old(revealed) ==>
        pixels[..] == old(pixels[..]) && throttleCounter == old(throttleCounter) &&
        revealed == old(revealed) && revealsSinceReset == old(revealsSinceReset)
      ensures old(isDrawing) && !old(revealed) ==>
        pixels[..] == Erased(old(pixels[..]), dab) &&
        throttleCounter == old(throttleCounter) + 1 &&
        revealed == (throttleCounter % CheckEvery == 0 && RevealDue(pixels[..]))
      ensures Transparent() >= old(Transparent())
    {
      if !isDrawing || revealed {
        return;
      }
      ghost var before := pixels[..];
      forall j | 0 <= j < pixels.Length && IsAlpha(j) && j / Channels in dab {
        pixels[j] := EraseAlpha(pixels[j], dab[j / Channels]);
      }
      assert pixels[..] == Erased(before, dab);
      ErasedOnlyLowersAlpha(before, dab);
      ZeroCountMonotone(before, pixels[..], FirstAlpha);
      throttleCounter := throttleCounter + 1;
      if throttleCounter % CheckEvery == 0 {
        CheckRevealPercentage();
      }
    }

    /** The strided alpha scan: visits bytes 3, 67, 131, ... and counts the
        samples and the transparent ones among them. */
    method SampleAlpha() returns (transparentCount: nat, totalChecked: nat)
      ensures transparentCount == ZeroCount(pixels[..], FirstAlpha)
      ensures totalChecked == StrideCount(pixels.Length, FirstAlpha)
      ensures totalChecked == if pixels.Length > FirstAlpha then (pixels.Length - FirstAlpha + Stride - 1) / Stride else 0
      ensures transparentCount <= totalChecked
    {
      transparentCount, totalChecked := 0, 0;
      var i := FirstAlpha;
      while i < pixels.Length
        invariant transparentCount + ZeroCount(pixels[..], i) == ZeroCount(pixels[..], FirstAlpha)
        invariant totalChecked + StrideCount(pixels.Length, i) == StrideCount(pixels.Length, FirstAlpha)
        decreases pixels.Length - i
      {
        if pixels[i] == 0 {
          transparentCount := transparentCount + 1;
        }
        totalChecked := totalChecked + 1;
        i := i + Stride;
      }
    }

    /** Measures the buffer and trips the latch when more than 45% of the
        samples are transparent. Its only caller runs it while unrevealed. */
    method CheckRevealPercentage()
      requires Valid() && !revealed
      modifies this
      ensures Valid()
      ensures revealed == RevealDue(pixels[..])
      ensures pixels == old(pixels) && width == old(width) && height == old(height)
      ensures isDrawing == old(isDrawing) && throttleCounter == old(throttleCounter)
    {
      var transparentCount, totalChecked := SampleAlpha();
      if ExceedsThreshold(transparentCount, totalChecked) {
        CompleteReveal();
      }
    }

    /** Sets the latch. Its only caller runs it while unrevealed, so the card
        is revealed at most once between resets. */
    method CompleteReveal()
      requires Valid() && !revealed
      modifies this
      ensures Valid() && revealed && revealsSinceReset == old(revealsSinceReset) + 1
      ensures pixels == old(pixels) && width == old(width) && height == old(height)
      ensures isDrawing == old(isDrawing) && throttleCounter == old(throttleCounter)
    {
      revealed := true;
      revealsSinceReset := revealsSinceReset + 1;
    }

    /** mousedown / touchstart: the pointer goes down and the first stroke is
        scratched at once. */
    method PointerDown(dab: Dab)
      requires Valid()
      modifies this, pixels
      ensures Valid() && isDrawing && pixels == old(pixels)
      ensures width == old(width) && height == old(height)
      ensures old(revealed) ==>
        pixels[..] == old(pixels[..]) && revealed && throttleCounter == old(throttleCounter)
      ensures !old(revealed) ==>
        pixels[..] == Erased(old(pixels[..]), dab) &&
        throttleCounter == old(throttleCounter) + 1 &&
        revealed == (throttleCounter % CheckEvery == 0 && RevealDue(pixels[..]))
      ensures Transparent() >= old(Transparent())
    {
      isDrawing := true;
      Scratch(dab);
    }

    /** mouseup / touchend anywhere in the window. */
    method PointerUp()
      modifies this
      ensures !isDrawing
      ensures revealed == old(revealed) && throttleCounter == old(throttleCounter)
      ensures pixels == old(pixels) && width == old(width) && height == old(height)
      ensures revealsSinceReset == old(revealsSinceReset)
    {
      isDrawing := false;
    }

    /** Window resize: repaints the coating at the new size unless the card
        is revealed. The stroke counter is kept. */
    method Resize(r: Repaint)
      requires Valid() && r.Valid()
      modifies this
      ensures Valid()
      ensures isDrawing == old(isDrawing) && revealed == old(revealed)
      ensures throttleCounter == old(throttleCounter) && revealsSinceReset == old(revealsSinceReset)
      ensures old(revealed) ==>
        pixels == old(pixels) && width == old(width) && height == old(height)
      ensures !old(revealed) ==>
        fresh(pixels) && width == r.width && height == r.height &&
        pixels[..] == r.Coat() && Transparent() == 0
    {
      if !revealed {
        InitCanvas(r);
      }
    }

    /** The reset button: clears the latch and the stroke counter and
        repaints a fresh coating. */
    method ResetReveal(r: Repaint)
      requires Valid() && r.Valid()
      modifies this
      ensures Valid() && fresh(pixels)
      ensures !revealed && throttleCounter == 0 && revealsSinceReset == 0
      ensures isDrawing == old(isDrawing)
      ensures width == r.width && height == r.height
      ensures pixels[..] == r.Coat()
      ensures AllOpaque(pixels[..]) && Transparent() == 0
    {
      revealed := false;
      throttleCounter := 0;
      revealsSinceReset := 0;
      InitCanvas(r);
    }

    /** Routes a page event to the handler registered for it and gives the
        new state for each kind of event. Across every event, the latch is
        cleared by the reset button alone and, once set, stops pointer input
        and resize from touching the buffer; and only a repaint can make the
        coating less transparent. That the card is revealed at most once
        between resets rests on the latch clause together with CompleteReveal
        requiring an unrevealed card at its call site. Load fires once, when
        the page is ready, but strokes may come before it: on the canvas that
        is still transparent, 15 of them trip the latch, and the later load
        repaints anyway, which is why Load is excluded from the buffer clause. */
    method Dispatch(e: Event)
      requires Valid() && e.Valid()
      modifies this, pixels
      ensures Valid()
      // pointer down: the pointer is down and the first dab is scratched
      ensures e.IsDown() ==> isDrawing
      ensures e.IsDown() && old(revealed) ==>
        revealed && pixels[..] == old(pixels[..]) && throttleCounter == old(throttleCounter)
      ensures e.IsDown() && !old(revealed) ==>
        pixels[..] == Erased(old(pixels[..]), e.dab) &&
        throttleCounter == old(throttleCounter) + 1 &&
        revealed == (throttleCounter % CheckEvery == 0 && RevealDue(pixels[..]))
      // pointer move: a stroke only while drawing and unrevealed
      ensures e.IsMove() ==> isDrawing == old(isDrawing)
      ensures e.IsMove() && (!old(isDrawing) || old(revealed)) ==>
        pixels[..] == old(pixels[..]) && throttleCounter == old(throttleCounter) && revealed == old(revealed)
      ensures e.IsMove() && old(isDrawing) && !old(revealed) ==>
        pixels[..] == Erased(old(pixels[..]), e.dab) &&
        throttleCounter == old(throttleCounter) + 1 &&
        revealed == (throttleCounter % CheckEvery == 0 && RevealDue(pixels[..]))
      // pointer up: only the pointer state changes
      ensures e.IsUp() ==>
        !isDrawing && revealed == old(revealed) && throttleCounter == old(throttleCounter) &&
        pixels == old(pixels) && pixels[..] == old(pixels[..])
      // load and resize repaint (resize only while unrevealed) and keep the counter
      ensures e.Load? || e.WindowResize? ==>
        isDrawing == old(isDrawing) && revealed == old(revealed) && throttleCounter == old(throttleCounter)
      ensures e.Load? || (e.WindowResize? && !old(revealed)) ==>
        width == e.r.width && height == e.r.height && pixels[..] == e.r.Coat()
      // reset: latch and counter cleared, fresh coating
      ensures e.ResetClick? ==>
        !revealed && throttleCounter == 0 && isDrawing == old(isDrawing) &&
        width == e.r.width && height == e.r.height && pixels[..] == e.r.Coat()
      // across all events
      ensures old(revealed) && !e.ResetClick? ==> revealed
      ensures old(revealed) && !e.ResetClick? && !e.Load? ==>
        pixels == old(pixels) && pixels[..] == old(pixels[..])
      ensures old(revealed) && !revealed ==> e.ResetClick?
      ensures !e.Repaints() ==> pixels == old(pixels) && Transparent() >= old(Transparent())
      ensures e.Repaints() && !revealed ==> Transparent() == 0
      // the buffer is the old array or a new one, and only a repaint resizes
      ensures pixels == old(pixels) || fresh(pixels)
      ensures !e.Repaints() || (e.WindowResize? && old(revealed)) ==>
        width == old(width) && height == old(height)
    {
      match e
      case MouseDown(dab) => PointerDown(dab);
      case MouseMove(dab) => Scratch(dab);
      case MouseUp => PointerUp();
      case TouchStart(dab) => PointerDown(dab);
      case TouchMove(dab) => Scratch(dab);
      case TouchEnd => PointerUp();
      case Load(r) => InitCanvas(r);
      case WindowResize(r) => Resize(r);
      case ResetClick(r) => ResetReveal(r);
    }
  }

  /** The page events the controller listens to. Pointer events carry the
      brush dab at the pointer; load, resize and reset carry the repaint. */
  datatype Event =
    | MouseDown(dab: Dab) | MouseMove(dab: Dab) | MouseUp
    | TouchStart(dab: Dab) | TouchMove(dab: Dab) | TouchEnd
    | Load(r: Repaint) | WindowResize(r: Repaint) | ResetClick(r: Repaint)
  {
    predicate IsDown() {
      MouseDown? || TouchStart?
    }

    predicate IsMove() {
      MouseMove? || TouchMove?
    }

    predicate IsUp() {
      MouseUp? || TouchEnd?
    }

    predicate Repaints() {
      Load? || WindowResize? || ResetClick?
    }

    predicate Valid() {
      Repaints() ==> r.Valid()
    }
  }
}
