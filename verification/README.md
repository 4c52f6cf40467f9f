# Resize-coalescing render driver

This project models the one piece of logic that the textured-cubes example owns in
`src/main.ts`. The example keeps a module-level record, `toUpdate`, that holds a
pending surface size. Two callbacks share it:

- The window's `resize` listener overwrites the record with the window's inner size
  times the device pixel ratio. The ratio was read once at startup, as
  `devicePixelRatio ?? 1`.
- The per-frame `render` callback checks whether both fields are set. If they are,
  it sets the camera's `aspect` to `width / height`, recomputes the projection,
  calls `renderer.setSize(width, height, false)` and clears the record.

The model has three modules:

- `Host` (host.dfy) covers the values the browser supplies. It models JavaScript's
  nullable values and `??`, the window's inner size, the device pixel ratio and the
  quotient `x / y`. A zero divisor gives a non-finite result.
- `Driver` (driver.dfy) covers the driver state. That state is the captured ratio, the
  pending record, the camera (its `aspect` and the aspect its projection matrix was
  computed from) and the log of every `setSize` call. The renderer's surface is the
  last entry of that log. `Driver` also holds the three transitions `Startup`,
  `OnResize` and `Render`.
- `Trace` (trace.dfy) covers arbitrary interleavings of resize notifications and
  frames. It gives a reference definition of which sizes a run applies and proves
  that the state machine makes exactly those calls.

Sizes are exact reals, and `aspect` is an exact quotient. The pending record has two
independent optional fields, as in the source. Because of that, "both set or both
cleared" is a proved invariant, not a fact the types guarantee.

`devicePixelRatio ?? 1` replaces only `null` or `undefined`, so a reported ratio of
0 is kept as 0 (`Host.DeviceRatioFallback`). One consequence is proved in
`Driver.StartupAspect`. With a ratio of 0, the startup camera aspect comes from the
unscaled window, while the surface is 0 by 0. So the two agree only when the window
height is 0.

## Model

| member | source | states |
|---|---|---|
| Host.DeviceRatio | src/main.ts:17 | The ratio is the reported value when one is present and 1 when the display reports `null`/`undefined` |
| Host.DeviceRatioFallback | src/main.ts:17 | The ratio is 1 exactly when nothing is reported or 1 is reported; a reported 0 stays 0 |
| Host.Scaled | src/main.ts:39-40 | With ratio 1 the requested size is the window's inner size; with a positive ratio a side is zero exactly when the window's side is zero |
| Host.Divide | src/main.ts:106 | The quotient is finite exactly when the divisor is non-zero, and then it times the divisor gives back the dividend |
| Driver.Startup | src/main.ts:17-44 | At startup nothing is pending, the invariant holds, the ratio is the one read once, the only `setSize` call so far is the scaled window with style updates off, and the aspect is the unscaled window's quotient |
| Driver.StartupAspect | src/main.ts:20-44 | The startup aspect agrees with the startup surface exactly when the window height is 0 or the ratio is non-zero |
| Driver.OnResize | src/main.ts:38-41 | A notification queues both fields with the window size times the captured ratio, whatever was pending before, and leaves the camera, the renderer and the ratio untouched; it preserves the invariant |
| Driver.ResizeOverwrites | src/main.ts:38-41 | Last writer wins: two notifications in a row have the same effect as the second one alone |
| Driver.Reproject | src/main.ts:106-107 | After the camera update, with a non-zero height the aspect is finite and times the height gives back the width; with a zero height it is non-finite; the projection is computed from the new aspect, whatever the camera held before |
| Driver.Render | src/main.ts:104-111 | With both fields set, a render applies the requested aspect and appends one `setSize(width, height, false)` call, then clears the record; with either field null it changes nothing; from a whole-or-empty record, nothing is pending afterwards; it preserves the invariant, and after applying a size the aspect matches the surface |
| Driver.RenderIdempotent | src/main.ts:105-110 | A second render with no notification in between changes nothing, so two renders make at most one `setSize` call |
| Driver.RenderKeepsAspect | src/main.ts:105-108 | If the camera aspect matches the surface before a render, it still matches afterwards |
| Trace.Run | src/main.ts:33-110 | Any interleaving keeps the ratio captured at startup, preserves the invariant (whole-or-empty record, projection in sync, surface sized), and only appends to the `setSize` log |
| Trace.AppliedExactly | src/main.ts:38-110 | A size is in the reference list exactly when it comes from a notification that a frame immediately follows |
| Trace.RunCalls | src/main.ts:38-110 | From an idle state, any interleaving makes exactly the `setSize` calls of the reference list, in order |
| Trace.RunPending | src/main.ts:38-110 | From an idle state, a size is pending after a run exactly when the run ends with a notification, and it is that notification's scaled size |
| Trace.ResizesOnlyQueue | src/main.ts:38-41 | A burst of notifications queues the last one's size and never touches the camera or the renderer |
| Trace.CoalesceThenRender | src/main.ts:38-110 | Any burst of notifications followed by one frame applies only the last notification's size, to the surface and to the camera aspect, and leaves nothing pending |
| Trace.FramesKeep | src/main.ts:105-111 | Frames alone leave an idle state unchanged |
| Trace.FramesFromStartup | src/main.ts:33-111 | With no notification ever, frames from startup never call `setSize` and never change the camera |
| Trace.RatioReadOnce | src/main.ts:17-40 | A notification's effect does not depend on the ratio the display reports when it fires; the listener uses the ratio captured at startup |
| Trace.ResizeExamples | src/main.ts:17-40 | An 800 by 600 window with ratio 2 requests 1600 by 1200; with no ratio reported it requests 800 by 600 |
| Trace.InterleavingExample | src/main.ts:38-110 | Notify 100 by 100, render, notify 200 by 200 and then 300 by 300, render: the first frame applies 100 by 100 with aspect 1, then the surface goes straight to 300 by 300, again with aspect 1, and nothing is pending |

## Left out

- `updateProjectionMatrix`: the projection-matrix arithmetic lives in the rendering library. The model records only the aspect the matrix was computed from.
- `renderer.render(scene, camera)` (line 116) and `setAnimationLoop` (line 119): drawing and frame scheduling belong to the library. A frame is an event that may occur at any point in the interleaving.
- The render loop starts only after all textures have loaded (lines 96-119). The model lets frames arrive at any time, so it covers more interleavings than the program can produce.
- `setSize` internals, such as rounding by the renderer's own pixel ratio and the `updateStyle` handling: these are library behaviour. The model logs the arguments of each call.
- IEEE floating point: `innerWidth * dpi` and `width / height` are exact reals. Infinity and NaN from a zero divisor are one `NonFinite` value.
- Camera field of view, near and far planes and position (lines 20-26): these are fixed constants that this logic never reads.
- Texture loading, `LoadingManager` progress reporting (lines 48-63, 87-94) and scene assembly in `onLoad` (lines 65-76, 96-102): asynchronous I/O and DOM styling.
- The DOM element checks (lines 78-85): lookups in the host document that throw if an element is absent.
- The per-frame cube rotation of 0.01 (lines 112-115): float accumulation on library objects.
- `prettier.config.js`: formatter configuration, with no behaviour.
