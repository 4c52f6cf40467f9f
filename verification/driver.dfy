/** The resize-coalescing render driver: the `toUpdate` record, the window's
    `resize` listener that fills it and the resize branch of the per-frame
    `render` callback that consumes it. The camera and the renderer are reduced
    to the state those calls leave behind. */
module Driver {
  import opened Host

  /** The `QueuedWindowUpdates` record: a requested surface size, field by field.
      The two fields are independent here, so that "both or neither" is a proved
      property rather than a consequence of the type. */
  datatype Pending = Pending(width: Option<real>, height: Option<real>)

  /** Nothing requested: both fields `null`. */
  const Cleared: Pending := Pending(None, None)

  /** Either both fields are set or both are cleared. */
  predicate Coherent(p: Pending) {
    p.width.Some? == p.height.Some?
  }

  /** The guard of the resize branch of `render`: both fields are non-null. */
  predicate Queued(p: Pending) {
    p.width.Some? && p.height.Some?
  }

  /** The size a queued record asks for. */
  function Requested(p: Pending): Size
    requires Queued(p)
  {
    Size(p.width.value, p.height.value)
  }

  /** What the perspective camera holds: the `aspect` field and the aspect its
      projection matrix was last computed from by `updateProjectionMatrix`. */
  datatype Camera = Camera(aspect: Quotient, projectedAspect: Quotient)

  /** One call `renderer.setSize(width, height, updateStyle)`. */
  datatype SetSize = SetSize(size: Size, updateStyle: bool)

  /** The driver's whole state: the ratio captured at startup, the pending
      record, the camera, and every `setSize` call made on the renderer so far,
      oldest first. */
  datatype State = State(dpi: real, pending: Pending, camera: Camera, calls: seq<SetSize>)

  /** The renderer's surface: the size of the most recent `setSize` call. */
  function Surface(s: State): Size
    requires |s.calls| > 0
  {
    s.calls[|s.calls| - 1].size
  }

  /** Holds of every state the program can reach: the pending record is whole or
      empty, the projection matrix agrees with `aspect`, and the surface has been
      sized at least once. */
  predicate Invariant(s: State) {
    && Coherent(s.pending)
    && s.camera.projectedAspect == s.camera.aspect
    && |s.calls| > 0
  }

  /** The camera's aspect is the quotient of the current surface's sides. */
  predicate AspectMatchesSurface(s: State)
    requires |s.calls| > 0
  {
    s.camera.aspect == Divide(Surface(s).width, Surface(s).height)
  }

  /** Module initialisation: read the ratio once, build the camera with aspect
      `innerWidth / innerHeight` (its constructor computes the projection),
      leave the record empty and size the surface to the scaled window. */
  function Startup(w: Window, reportedRatio: Option<real>): (s: State)
    ensures Invariant(s)
    ensures !Queued(s.pending)
    ensures s.dpi == DeviceRatio(reportedRatio)
    ensures s.calls == [SetSize(Scaled(w, s.dpi), false)]
    ensures s.camera.aspect == Divide(w.innerWidth as real, w.innerHeight as real)
  {
    var dpi := DeviceRatio(reportedRatio);
    var aspect := Divide(w.innerWidth as real, w.innerHeight as real);
    State(dpi, Cleared, Camera(aspect, aspect), [SetSize(Scaled(w, dpi), false)])
  }

  /** The `resize` listener: overwrite the record with the window's current size
      times the ratio captured at startup. Camera and renderer are not touched. */
  function OnResize(s: State, w: Window): (r: State)
    ensures Queued(r.pending) && Coherent(r.pending)
    ensures Requested(r.pending) == Scaled(w, s.dpi)
    ensures r.dpi == s.dpi && r.camera == s.camera && r.calls == s.calls
    ensures Invariant(s) ==> Invariant(r)
  {
    s.(pending := Pending(Some(Scaled(w, s.dpi).width), Some(Scaled(w, s.dpi).height)))
  }

  /** The camera after `camera.aspect = width / height` and
      `camera.updateProjectionMatrix()`. Its previous state plays no part: the
      aspect is overwritten and the projection is recomputed from it. */
  function Reproject(size: Size): (r: Camera)
    ensures size.height != 0.0 ==> r.aspect.Finite? && r.aspect.value * size.height == size.width
    ensures size.height == 0.0 ==> r.aspect == NonFinite
    ensures r.projectedAspect == r.aspect
  {
    var aspect := Divide(size.width, size.height);
    Camera(aspect, aspect)
  }

  /** The resize branch of `render`: when both fields are set, apply them to the
      camera and the surface (without touching the canvas style) and clear the
      record; otherwise change nothing. */
  function Render(s: State): (r: State)
    ensures Queued(s.pending) ==> && r.pending == Cleared
                                  && r.camera.aspect == Divide(Requested(s.pending).width, Requested(s.pending).height)
                                  && r.calls == s.calls + [SetSize(Requested(s.pending), false)]
                                  && r.dpi == s.dpi
    ensures !Queued(s.pending) ==> r == s
    ensures Coherent(s.pending) ==> r.pending == Cleared
    ensures Invariant(s) ==> Invariant(r)
    ensures Queued(s.pending) ==> AspectMatchesSurface(r)
  {
    if Queued(s.pending) then
      var size := Requested(s.pending);
      State(s.dpi, Cleared, Reproject(size), s.calls + [SetSize(size, false)])
    else
      s
  }

  /** Last writer wins: a second notification before a frame replaces the first
      entirely. */
  lemma ResizeOverwrites(s: State, first: Window, second: Window)
    ensures OnResize(OnResize(s, first), second) == OnResize(s, second)
  {
  }

  /** A render consumes what it applies: a second render with no notification in
      between changes nothing, so two renders resize the surface at most once. */
  lemma RenderIdempotent(s: State)
    ensures Render(Render(s)) == Render(s)
    ensures |Render(Render(s)).calls| <= |s.calls| + 1
  {
  }

  /** A render preserves the agreement between camera aspect and surface, and
      establishes it whenever it applies a size. */
  lemma RenderKeepsAspect(s: State)
    requires |s.calls| > 0
    requires AspectMatchesSurface(s)
    ensures AspectMatchesSurface(Render(s))
  {
  }

  /** At startup the camera's aspect (taken from the unscaled window) agrees with
      the surface (sized to the scaled window) exactly when the window has zero
      height or the ratio is non-zero. The zero-height direction depends on
      `NonFinite` standing for both Infinity and NaN: in JavaScript a window of
      width 5 and height 0 with ratio 0 gives `5 / 0`, Infinity, against `0 / 0`,
      NaN. */
  lemma StartupAspect(w: Window, reportedRatio: Option<real>)
    ensures AspectMatchesSurface(Startup(w, reportedRatio))
            <==> w.innerHeight == 0 || DeviceRatio(reportedRatio) != 0.0
  {
    var s := Startup(w, reportedRatio);
    var dpi := DeviceRatio(reportedRatio);
    var x, y := w.innerWidth as real, w.innerHeight as real;
    assert Surface(s) == Size(x * dpi, y * dpi);
    if dpi != 0.0 {
      DivideScaled(x, y, dpi);
    } else if w.innerHeight != 0 {
      assert Divide(x * dpi, y * dpi) == NonFinite;
    }
  }
}
