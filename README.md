# Scratch-card reveal controller

A model of the scratch-card widget's reveal controller (`script.js`). A canvas
covers a hidden image with an opaque "coating": a gradient fill with per-pixel
noise. The user scratches the coating away with mouse or touch strokes. Each
accepted stroke erases a brush-shaped dab of alpha. Every 15th stroke the
controller samples the alpha channel at a stride of 64 bytes (every 16th
pixel). When more than 45% of the samples are fully transparent, it trips a
one-way `revealed` latch. The latch holds until the reset button repaints the
coating.

Two modules:

- `Coating` (`Coating.dfy`): the pure definitions. An RGBA byte buffer with four
  bytes per pixel and alpha at offset 3. Painting the gradient (`Painted`),
  adding noise (`Noised`), erasing a dab (`Erased`), and counting the samples
  and the transparent ones among them (`StrideCount`, `ZeroCount`). Also the
  threshold test `ExceedsThreshold(t, n)`, which is `100*t > 45*n`, and the
  lemmas about all of these.
- `ScratchCard` (`ScratchCard.dfy`): the class `Controller`. Its fields are the
  three module variables `isDrawing`, `revealed` and `throttleCounter`, the
  canvas size, and the canvas pixels as an `array<byte>` updated in place. Each
  event handler is a method whose `ensures` gives the new state in terms of the
  `Coating` functions. A ghost counter `revealsSinceReset` shows that the card
  is revealed at most once between resets. `Dispatch` routes each page event to
  its handler, as the `addEventListener` registrations do.

Inputs that the source takes from the browser are parameters here:

- The container size, the gradient colour of each pixel and the noise draws
  come in as a `Repaint` value.
- Each stroke comes in as a `Dab`: a map from pixel index to brush coverage
  (255 inside the circle, less on the antialiased rim).
- A noise draw is an integer in [-10, 10]. A draw of `(Math.random() - 0.5) * 20`
  added to an integer byte and stored in the clamped array moves the byte by
  the rounded draw. That rounded draw is an integer in [-10, 10].

The percentage test `transparentCount / totalChecked > 0.45` is stated over
integers as `100 * transparentCount > 45 * totalChecked`. For every sample
count a canvas can produce the two agree. A ratio of integers can equal 0.45 only when it is
exactly 9/20, and then the double nearest to it is the literal 0.45 itself.
Any other ratio is at least 1/(20n) away from 0.45, which exceeds the
double rounding error while n stays below about 10^15; a canvas of w·h
pixels gives n of about w·h/16, far below that. There are no samples only when the canvas has no pixels.
Then `getImageData` at script.js:96 throws before the division, after the
stroke counter has been incremented, and no reveal happens. The integer test
gives `0 > 0`, false, which leaves the same state.

Three behaviours of `script.js` that the model keeps:

- `completeReveal` (script.js:153-171) sets the latch and runs the visual and
  audio effects. It does not call `saveRevealResult` from
  `supabase_logic.js`.
- A window resize while the card is unrevealed repaints the coating and loses
  the user's progress. It does not reset the stroke counter. So the
  transparent count is non-decreasing between repaints (resize, reset), not
  only between resets.
- Besides the latch, the counter and the coating, reset restores only the
  canvas's display and opacity, the instruction overlay and the success
  message (script.js:210-220). No other UI state is touched.

## Model

| member | source | states |
|---|---|---|
| `Coating.NoisedChangesOnlyColour` | script.js:52-62 | noise leaves every alpha byte unchanged, moves each R, G, B byte by at most 10 within [0, 255], and by exactly the offset when no clamping occurs |
| `Coating.EraseAlpha` | script.js:80-84 | destination-out never raises a pixel's alpha; full coverage makes it 0, no coverage leaves it |
| `Coating.ErasedOnlyLowersAlpha` | script.js:80-84 | an erase keeps the buffer length, raises no byte, changes only alpha bytes of covered pixels, keeps transparent bytes transparent and clears fully covered pixels |
| `Coating.SamplingCountsSampledIndices` | script.js:100-109 | the stride walk from byte 3 counts exactly the indices congruent to 3 modulo 64, and exactly the zero-alpha ones among them |
| `Coating.StrideCountIsSampleSet` | script.js:104-109 | the walk from any start i counts the indices in [i, len) congruent to i modulo 64 |
| `Coating.ZeroCountIsSampleSet` | script.js:104-109 | the walk from any start i counts the zero bytes at indices in [i, len) congruent to i modulo 64 |
| `Coating.StrideCount` | script.js:101-109 | the number of samples the loop takes from i is ceil((len - i) / 64), and 0 when i >= len |
| `Coating.ZeroCount` | script.js:104-109 | the transparent samples from i are never more than the samples |
| `Coating.Painted` | script.js:20-26 | the opaque fill gives 4 bytes per pixel, each pixel's gradient colour in R, G, B and alpha 255 everywhere |
| `Coating.Noised` | script.js:55-60 | the noise pass keeps the buffer length and every alpha byte |
| `Coating.Erased` | script.js:80-84 | the destination-out fill keeps the buffer length, raises no byte and changes only alpha bytes of covered pixels |
| `Coating.ExceedsThreshold` | script.js:111-113 | the 45% test needs a transparent sample (and so a sample); more than half of the samples transparent always passes, 40% or less never |
| `Coating.RevealDue` | script.js:96-113 | a buffer is due for reveal only when it has a transparent sample and more than 3 bytes |
| `Coating.OpaqueHasNoTransparentSamples` | script.js:104-109 | a buffer whose alpha bytes are all 255 has no transparent sample |
| `Coating.ZeroCountMonotone` | script.js:104-109 | a buffer that keeps every zero byte of another has at least as many transparent samples |
| `Coating.FreshCoatingIsOpaque` | script.js:16-29 | the painted and noised coating holds 4 bytes per pixel, has every alpha at 255 and no transparent sample |
| `Coating.RevealDueProperties` | script.js:111-115 | a reveal needs at least one transparent sample; an empty buffer or an opaque one never reveals; further erasing keeps a due reveal due |
| `ScratchCard.Controller.constructor` | script.js:7-9 | the card starts not drawing, unrevealed, with the stroke counter at 0 and a cleared canvas |
| `ScratchCard.Controller.InitCanvas` | script.js:11-29 | resizing clears and reallocates the buffer; the new buffer is the noised gradient, fully opaque, with no transparent sample; the latch, the counter and the pointer state are kept |
| `ScratchCard.Controller.AddNoise` | script.js:52-62 | the in-place loop over pixels leaves the buffer equal to the noised old buffer |
| `ScratchCard.Controller.Scratch` | script.js:74-91 | with the pointer up or the card revealed, nothing changes; otherwise the dab is erased, the counter goes up by exactly 1, and the latch trips exactly when the new count is a multiple of 15 and over 45% of the samples are transparent; the transparent count never falls |
| `ScratchCard.Controller.SampleAlpha` | script.js:96-109 | the strided loop returns the transparent and total sample counts, the total equals ceil((len - 3) / 64), and the transparent count is at most the total |
| `ScratchCard.Controller.CheckRevealPercentage` | script.js:93-116 | the latch is set exactly when the measured ratio exceeds 45%; nothing else changes |
| `ScratchCard.Controller.CompleteReveal` | script.js:153-154 | sets the latch and counts one reveal since the last reset |
| `ScratchCard.Controller.PointerDown` | script.js:174-178 | mousedown and touchstart set isDrawing and scratch the first dab at once |
| `ScratchCard.Controller.PointerUp` | script.js:180 | mouseup and touchend clear isDrawing and change nothing else |
| `ScratchCard.Controller.Resize` | script.js:194-199 | when revealed, resize changes nothing; otherwise it repaints a fresh opaque coating at the new size and keeps the counter |
| `ScratchCard.Controller.ResetReveal` | script.js:205-221 | clears the latch and the counter and repaints a fresh opaque coating with no transparent sample |
| `ScratchCard.Controller.Dispatch` | script.js:173-225 | gives the new state per event: pointer down sets isDrawing and scratches the dab as `Scratch` does; pointer move scratches only while drawing and unrevealed, erasing the dab, adding 1 to the counter and tripping the latch on a multiple of 15 past 45%; pointer up only clears isDrawing; load and resize keep the counter, latch and pointer state and repaint (resize only while unrevealed); reset clears latch and counter and repaints; the buffer is the old array or a fresh one, and only a repaint changes the size; across all events only reset clears the latch, a set latch keeps pointer input and resize off the buffer, and only a repaint can lower the transparent count |

## Left out

- Gradient colour stops, the coating text and its shadow (script.js:20-49). The gradient's colour at each pixel is an input. Text is drawn in opaque ink over an opaque coating, so it changes colour bytes only, and those are not modelled.
- The rasterisation of `ctx.arc(pos.x, pos.y, 40, …)` (script.js:80-84). A stroke is an input `Dab` of per-pixel coverage. Alpha is scaled by `(255 - coverage) / 255`, rounded down. A browser's own 8-bit rounding in compositing may differ by one step.
- Colour bytes of erased pixels. Browsers report a fully transparent pixel's RGB as 0, and a partly erased pixel's RGB can also change on readback, because the canvas stores premultiplied alpha and rounds. Only alpha is measured, so the model leaves colour bytes as they were and nothing else depends on them.
- `Math.random` in `addNoise` (script.js:56). Each pixel's noise is an input integer in [-10, 10], the same for R, G and B. The clamped array rounds exact halves to even, so a draw ending in .5 can move two channels of one pixel by offsets that differ by one. The model does not capture that.
- `getPos` (script.js:64-72) and `e.preventDefault()` (script.js:76): DOM geometry and event objects.
- `initAudio` and `playRevealSound` (script.js:119-151), and the audio resume in `completeReveal` (script.js:160-163): Web Audio with floating-point timing.
- The CSS opacity, display and class changes, the 800 ms `setTimeout`, and the forced reflow (script.js:155-170, 210-213, 219-220). `resetReveal` does not cancel the timer (script.js:165-166): a reset within 800 ms of a reveal sets `display = 'block'` (script.js:210), and the old timer then sets it back to `'none'`. The hidden canvas carries the pointer listeners (script.js:174, 179, 183, 188), so it gets no pointer events until the next reset. `Dispatch` accepts pointer events in that state anyway, which over-approximates what the page can receive.
- The canvas's size before the page's load event. It is a constructor parameter.
- The exception `getImageData` throws on a canvas with no pixels (script.js:53, 96). For such a canvas the model completes the repaint with an empty buffer and the check with no reveal. Those are the states the source is left in when the handler aborts. The effects that follow in the aborted handler are all presentation: the coating text, and the overlay and message updates of reset.
- `supabase_logic.js` and `check_supabase.js`: network calls to a hosted database, whose only logic is forwarding error results. `script.js` calls neither.
- ScratchCard.Controller.CompleteReveal: requires the card to be unrevealed. `completeReveal` has no guard of its own, but its only caller is `checkRevealPercentage`, which runs only from `scratch` after the `!revealed` check (script.js:75). The precondition makes "revealed at most once between resets" checkable.
- ScratchCard.Controller.CheckRevealPercentage: requires the card to be unrevealed, for the same reason.
