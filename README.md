# chigyo-games input-and-state core, modelled in Dafny

This project models the three pieces of single-threaded game logic in the
chigyo-games minigames:

- **The game-session store** (`stores/game.ts`). It is a strict finite state machine
  `instruction → practice → preCountdown → playing → finished`. `reset` leads
  back to `instruction` from every state. Any other pair of state and event
  throws a plain `Error` whose message names the current state and the event
  (`Invalid transition from <state> with event <event>`). Each successful transition is
  announced once on the store's event emitter. `tickRecord` broadcasts a frame
  number and does not touch the state.
- **The image sampler** (`composables/useImageSampler.ts`).
  - `getPixelRGB` clamps a pixel position to the image, floors it, and reads the
    RGB bytes of the RGBA raster, normalised by 255.
  - `sampleRGB` scales a UV coordinate by `(width-1, height-1)`. It then either
    rounds to the nearest pixel or blends the four neighbours bilinearly:
    horizontal first, then vertical, with the neighbour on the far side clamped
    at the edges.
  - `loadImage` guards against overlapping loads with an `isLoading` flag.
- **The drag tracker** (`composables/useDrag.ts`). Pointer-down starts a drag.
  Moves are handled only while a drag is active. Up, cancel, out and leave end the
  drag. Each handled event remaps the client point from the target's bounding
  box onto the virtual square `[-1, 1] × [-5/4, 5/4]`, sets
  `delta = current - prev`, reports the drag data to `onDrag` and then sets
  `prev = current`.

Files:

- `wrappers.dfy`: `Option` and `Outcome`.
- `linearly.dfy`: the `linearly` vector operations the core calls (`clamp`,
  `floor`, `round`, `lerp`, `efit`, component-wise arithmetic), defined over exact reals.
- `game.dfy`: module `GameStore`.
  - The transition table is the pure function `NextState`. `Run` applies a
    sequence of events.
  - The class `Store` holds the mutable `state`, the log of emitted events and
    the subscriber list.
- `image_sampler.dfy`: module `ImageSampler`.
  - `GetPixelRGB` and `SampleRGB` are pure functions over the loaded image, an
    `Option<Image>`.
  - The class `Sampler` holds the `imageData`, `isLoaded`, `isLoading` and
    `error` refs. Its two methods model `loadImage`, split at its `await`.
- `drag.dfy`: module `Drag`.
  - The pure `Step` and `Replay` functions are the reference semantics of the
    event handlers.
  - The class `DragTracker` has the fields `isDragging`, `initial`, `delta`,
    `current`, `prev` and a log of reported snapshots. A ghost history of
    handled events ties the fields to `Replay`.

Points worth knowing about the code:

- The doc comment of `sampleRGB` (composables/useImageSampler.ts:100) says v runs
  bottom-to-top, but line 109 maps v = 0 to raster row 0, the top row. The model
  follows the code, and so does `PixelPos`.
- `efit` sends the top edge of the target to -5/4, so the corner (right, top)
  maps to `[1, -5/4]`. `Drag.CentreThenTopRight` proves this.
- A failed load keeps whatever raster was loaded before. The code only assigns
  `imageData` on success.

## Model

| member | source | states |
|---|---|---|
| GameStore.TableExact | stores/game.ts:24-52 | a transition succeeds exactly for startPractice from instruction, startPreCountdown from practice, startMainCountdown from preCountdown, finish from playing, and reset from anywhere, with the listed target states |
| GameStore.OutsideTableFails | stores/game.ts:54-58 | a pair has no next state if and only if it matches no row of the table; this covers `transition('tickRecord')` |
| GameStore.ResetFromAnyState | stores/game.ts:50-52 | reset succeeds from each of the five states and yields instruction |
| GameStore.ForwardByOne | stores/game.ts:26-48 | every successful non-reset event moves exactly one phase forward, and it is the event of the forward path at that phase |
| GameStore.RunWithoutReset | stores/game.ts:24-62 | without a reset, a sequence of events reaches finished from a state if and only if it is the rest of the forward path from that state |
| GameStore.FinishedOnlyAlongPath | stores/game.ts:24-62 | finished is reached if and only if the events are the rest of the forward path with no reset, or some reset is reached without error and is followed by exactly practice, preCountdown, mainCountdown, finish |
| GameStore.PracticeThenFinishFails | stores/game.ts:26-58 | startPractice from instruction gives practice, and a following finish throws |
| GameStore.Store.constructor | stores/game.ts:20-22 | a new store is in instruction, with nothing emitted and no subscribers |
| GameStore.Store.Transition | stores/game.ts:24-62 | outside the table: the error InvalidTransition(state, event), naming the pair the message names, with state and emitted log unchanged; inside it: the new state is the table's target, and exactly one emission of the event is appended |
| GameStore.Store.On | stores/game.ts:64-73 | appends one subscriber (event, callback) and changes nothing else |
| GameStore.Store.TickRecord | stores/game.ts:75-77 | appends exactly one tickRecord emission carrying the frame, and the state is untouched |
| ImageSampler.GetPixelRGB | composables/useImageSampler.ts:78-96 | black when no image is loaded; every channel lies in [0, 1] |
| ImageSampler.PixelIndexInBounds | composables/useImageSampler.ts:85-95 | after clamping and flooring, 0 <= x <= width-1 and 0 <= y <= height-1. The index and index+2 lie inside the buffer, so the `?? 0` fallback is never taken and the result is that pixel's bytes divided by 255 |
| ImageSampler.SampleRGB | composables/useImageSampler.ts:102-135 | black when no image is loaded |
| ImageSampler.SampleInUnitRange | composables/useImageSampler.ts:102-135 | every sample, nearest or bilinear, has all channels in [0, 1] |
| ImageSampler.NearestIsClosestPixel | composables/useImageSampler.ts:109-113 | without interpolation, a UV in the unit square reads the pixel whose index is within one half of the scaled position on each axis, with halves rounded up |
| ImageSampler.FracAndCeilInRange | composables/useImageSampler.ts:116-122 | both components of the fractional offset lie in [0, 1), and the clamped far neighbour lies inside the image |
| ImageSampler.BilinearWithinCorners | composables/useImageSampler.ts:129-134 | each channel of the blend lies between the least and the greatest of the four corner samples for that channel |
| ImageSampler.BilinearIsWeightedAverage | composables/useImageSampler.ts:129-134 | the horizontal-then-vertical blend equals the standard bilinear weighted average of the four corners |
| ImageSampler.BilinearOnGrid | composables/useImageSampler.ts:109-134 | at integer pixel positions, bilinear sampling equals getPixelRGB at the floored position and equals nearest sampling |
| ImageSampler.Sampler.constructor | composables/useImageSampler.ts:24-29 | no image, not loaded, not loading, no error; interpolate as given, true when omitted |
| ImageSampler.Sampler.Sample | composables/useImageSampler.ts:102-135 | sampling the sampler's current raster with its own interpolation mode: black when nothing is loaded, every channel in [0, 1] |
| ImageSampler.Sampler.LoadImage | composables/useImageSampler.ts:34-38 | while a load is in flight, nothing changes; otherwise a load starts and the error is cleared |
| ImageSampler.Sampler.Settle | composables/useImageSampler.ts:37-72 | success stores the raster, sets isLoaded and leaves error null, because the start of the load cleared it; failure records the message and keeps the old raster; afterwards isLoading is false either way, and isLoaded still says whether a raster is present |
| Drag.RemapLandmarks | composables/useDrag.ts:63-69 | (left, top) maps to [-1, -5/4], (right, bottom) to [1, 5/4], and the box centre to [0, 0] |
| Drag.RemapInsideBox | composables/useDrag.ts:63-69 | a point inside the box maps inside [-1, 1] × [-5/4, 5/4] |
| Drag.RemapRoundTrip | composables/useDrag.ts:63-69 | the remap is exact and invertible, so mapping back with the swapped ranges recovers the client point |
| Drag.Snapshot | composables/useDrag.ts:57-77 | the reported current is the remapped point, and delta == current - prev. With setInitial, initial == prev == current and delta is zero; otherwise initial and prev are the previous ones |
| Drag.DownStartsDrag | composables/useDrag.ts:36-41 | pointer-down sets isDragging, sets initial = prev = current = the remapped point, and reports that data with delta [0, 0] |
| Drag.IdleMoveIgnored | composables/useDrag.ts:43-46 | a move while not dragging changes no field and reports nothing, whatever the box |
| Drag.UpOnlyEndsDrag | composables/useDrag.ts:48-55 | up, cancel, out and leave clear isDragging and change nothing else |
| Drag.OnDragOncePerHandledEvent | composables/useDrag.ts:36-77 | onDrag is called once if and only if the event is a pointer-down or a move during a drag; only pointer-down changes initial |
| Drag.StepKeepsConsistent | composables/useDrag.ts:36-80 | each single event, handled or ignored, preserves that prev == current, that every report has delta == current - prev, and that the last report matches the tracker |
| Drag.ReplayInvariant | composables/useDrag.ts:57-80 | after any sequence of events: prev == current, every reported snapshot has delta == current - prev, the last report carries the tracker's current and initial, and a drag is active only after some report |
| Drag.MoveMeasuredFromLastReport | composables/useDrag.ts:43-80 | during a drag, a move reports the drag's initial, prev equal to the previously reported current, and delta from it |
| Drag.CentreThenTopRight | composables/useDrag.ts:63-79 | pointer-down at the centre reports all zeros; a move to (right, top) then reports current [1, -5/4] and delta [1, -5/4] |
| Drag.DragTracker.constructor | composables/useDrag.ts:18-24 | not dragging, all four vectors zero, nothing reported |
| Drag.DragTracker.HandlePointerMove | composables/useDrag.ts:57-80 | appends the snapshot of the remapped point to the reports, then leaves the same data with prev caught up to current |
| Drag.DragTracker.PointerDown | composables/useDrag.ts:36-41 | dragging, initial = prev = current = the remapped point, delta zero, one report with that data; the fields remain the replay of the handled events |
| Drag.DragTracker.PointerMove | composables/useDrag.ts:43-46 | when not dragging, nothing changes and any box is accepted; when dragging, one snapshot whose prev and initial are the old current and initial, and the fields become that snapshot with prev settled |
| Drag.DragTracker.PointerUp | composables/useDrag.ts:48-55 | clears isDragging; the other fields and the reports stay as they were |

## Left out

- JavaScript numbers are modelled as exact reals. NaN, infinities and rounding
  error are not modelled, nor are non-finite pointer or UV positions.
- Drag.Remap: requires a box with positive width and height. With a zero-sized
  box the source divides by zero, and the resulting NaN/Infinity coordinates are
  not modelled. Only a pointer-down and a move during a drag need such a box; an
  idle move accepts any box, because the source drops it before reading one.
- The asynchronous fetch and decode of the image are not modelled: the `Image`
  element, the canvas, `getImageData` and promise resolution. So are the text of
  the error messages and the `console.error` call. Their result is the
  `LoadOutcome` parameter of `Sampler.Settle`.
- ImageSampler.Sampler.Settle: requires that a load is in flight, because it
  models the continuation of a started `loadImage`, not a call a consumer can make.
- The thrown `Error` and its message text are reduced to the value
  `InvalidTransition(from, event)`, which carries the two values the message names.
- The sampling functions are also given the raster and the interpolation flag as
  parameters. `Sampler.Sample` ties them to the sampler's own `imageData` and
  `interpolate`.
- The interleaving of other code during the `await` is not modelled. The model
  has only the two halves of `loadImage` and the flag that guards the first one.
- EventEmitter3 internals are not modelled: listener dispatch order, the call of
  each callback, `off` and the `onBeforeUnmount` unsubscribe. `on` only appends
  to the subscriber list, and the emitter is an append-only log of emissions.
- The frame number of `tickRecord` is modelled as an integer.
- `transition` accepts only the six event names of `Events`. Arbitrary strings
  outside that type are not modelled.
- DOM wiring is not modelled: `setPointerCapture`, `style.touchAction`,
  `watchEffect` and `useEventListener`. The bounding box is read per event and
  passed in with each pointer event.
- The source hands `onDrag` the live raw data object, which it mutates afterwards
  (`prev = current`). The model logs an immutable snapshot taken at call time, so
  it does not capture that aliasing.
- `utils/colors.ts`, `composables/useGameAPI.ts`, `utils/faucetsMaterial.ts`,
  `eslint.config.mjs` and `nuxt.config.ts` are not part of this model. They hold
  colour conversions delegated to an external library, HTTP submission, 3D
  material setup and build configuration.
