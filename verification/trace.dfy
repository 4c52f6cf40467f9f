/** Arbitrary interleavings of the two callbacks, as the host serialises them:
    resize notifications and animation frames. */
module Trace {
  import opened Host
  import opened Driver

  /** A `resize` notification, with the window size and the device pixel ratio
      the display reports at that moment, or one animation frame. */
  datatype Event = Resize(window: Window, reportedRatio: Option<real>) | Frame

  /** Dispatch one event to its callback. The listener reads the window but not
      the ratio the display currently reports. */
  function Step(s: State, e: Event): State {
    match e
    case Resize(w, _) => OnResize(s, w)
    case Frame => Render(s)
  }

  /** Dispatch a sequence of events in order. */
  function Run(s: State, evs: seq<Event>): (r: State)
    decreases |evs|
    ensures r.dpi == s.dpi
    ensures Invariant(s) ==> Invariant(r)
    ensures |r.calls| >= |s.calls|
    ensures r.calls[..|s.calls|] == s.calls
  {
    if evs == [] then s else Run(Step(s, evs[0]), evs[1..])
  }

  /** No size is waiting to be applied. */
  predicate Idle(s: State) {
    Invariant(s) && s.pending == Cleared
  }

  /** The size the `setSize` call for a notification would apply. */
  function Applies(e: Event, dpi: real): SetSize
    requires e.Resize?
  {
    SetSize(Scaled(e.window, dpi), false)
  }

  /** Reference definition of the surface sizes a run applies from an idle
      state: a notification's size is applied exactly when the very next event
      is a frame. */
  function Applied(evs: seq<Event>, dpi: real): seq<SetSize>
    decreases |evs|
  {
    if |evs| < 2 then []
    else (if evs[0].Resize? && evs[1].Frame? then [Applies(evs[0], dpi)] else [])
         + Applied(evs[1..], dpi)
  }

  /** Every applied size comes from a notification that a frame immediately
      follows, and every such notification is applied: intermediate sizes are
      never applied. */
  lemma {:induction false} AppliedExactly(evs: seq<Event>, dpi: real, c: SetSize)
    ensures c in Applied(evs, dpi)
            <==> exists j :: 0 <= j < |evs| - 1 && evs[j].Resize? && evs[j + 1].Frame?
                             && c == Applies(evs[j], dpi)
    decreases |evs|
  {
    if |evs| >= 2 {
      var rest := evs[1..];
      AppliedExactly(rest, dpi, c);
      if c in Applied(evs, dpi) && !(evs[0].Resize? && evs[1].Frame? && c == Applies(evs[0], dpi)) {
        var j :| 0 <= j < |rest| - 1 && rest[j].Resize? && rest[j + 1].Frame? && c == Applies(rest[j], dpi);
        assert evs[j + 1] == rest[j] && evs[j + 2] == rest[j + 1];
      }
      if exists j :: 0 <= j < |evs| - 1 && evs[j].Resize? && evs[j + 1].Frame? && c == Applies(evs[j], dpi) {
        var j :| 0 <= j < |evs| - 1 && evs[j].Resize? && evs[j + 1].Frame? && c == Applies(evs[j], dpi);
        if j > 0 {
          assert rest[j - 1] == evs[j] && rest[j] == evs[j + 1];
        }
      }
    }
  }

  /** From an idle state, a run makes exactly the `setSize` calls of the
      reference definition, in order. */
  lemma {:induction false} RunCalls(s: State, evs: seq<Event>)
    requires Idle(s)
    ensures Run(s, evs).calls == s.calls + Applied(evs, s.dpi)
    decreases |evs|
  {
    if evs == [] {
      return;
    }
    var e, rest := evs[0], evs[1..];
    match e {
      case Frame =>
        RunCalls(s, rest);
      case Resize(w, _) =>
        var t := OnResize(s, w);
        if rest == [] {
        } else if rest[0].Frame? {
          var u := Render(t);
          assert Run(t, rest) == Run(u, rest[1..]);
          RunCalls(u, rest[1..]);
          assert rest[1..] == evs[2..];
        } else {
          ResizeOverwrites(s, w, rest[0].window);
          assert Run(t, rest) == Run(s, rest);
          RunCalls(s, rest);
        }
    }
  }

  /** From an idle state, a size is left pending after a run exactly when the
      run ends with a notification, and it is that notification's size. */
  lemma {:induction false} RunPending(s: State, evs: seq<Event>)
    requires Idle(s)
    ensures evs != [] && evs[|evs| - 1].Resize? ==>
              Queued(Run(s, evs).pending)
              && Requested(Run(s, evs).pending) == Scaled(evs[|evs| - 1].window, s.dpi)
    ensures !(evs != [] && evs[|evs| - 1].Resize?) ==> Run(s, evs).pending == Cleared
    decreases |evs|
  {
    if evs != [] {
      var t := Step(s, evs[0]);
      if t.pending == Cleared {
        RunPending(t, evs[1..]);
      } else if |evs| == 1 {
      } else {
        var u := Step(t, evs[1]);
        assert Run(s, evs) == Run(u, evs[2..]);
        if evs[1].Frame? {
          RunPending(u, evs[2..]);
          assert evs[2..] == [] || evs[2..][|evs[2..]| - 1] == evs[|evs| - 1];
        } else {
          ResizeOverwrites(s, evs[0].window, evs[1].window);
          assert Run(s, evs) == Run(s, evs[1..]);
          RunPending(s, evs[1..]);
          assert evs[1..][|evs[1..]| - 1] == evs[|evs| - 1];
        }
      }
    }
  }

  /** All events are notifications. */
  predicate AllResizes(evs: seq<Event>) {
    forall i :: 0 <= i < |evs| ==> evs[i].Resize?
  }

  /** Notifications between frames only overwrite the record; they never reach the
      camera or the renderer. */
  lemma {:induction false} ResizesOnlyQueue(s: State, evs: seq<Event>)
    requires AllResizes(evs) && evs != []
    ensures Queued(Run(s, evs).pending)
    ensures Requested(Run(s, evs).pending) == Scaled(evs[|evs| - 1].window, s.dpi)
    ensures Run(s, evs).camera == s.camera && Run(s, evs).calls == s.calls
    decreases |evs|
  {
    var t := OnResize(s, evs[0].window);
    if |evs| > 1 {
      ResizesOnlyQueue(t, evs[1..]);
      assert evs[1..][|evs[1..]| - 1] == evs[|evs| - 1];
    }
  }

  /** Any number of notifications followed by one frame apply the last
      notification's size, and only it, to the surface and the camera, and
      leave nothing pending. */
  lemma CoalesceThenRender(s: State, evs: seq<Event>)
    requires AllResizes(evs) && evs != []
    ensures var r := Run(s, evs + [Frame]);
            var last := Scaled(evs[|evs| - 1].window, s.dpi);
            && r.calls == s.calls + [SetSize(last, false)]
            && Surface(r) == last
            && r.camera.aspect == Divide(last.width, last.height)
            && r.pending == Cleared
  {
    RunAppend(s, evs, [Frame]);
    ResizesOnlyQueue(s, evs);
  }

  /** Running two sequences one after the other is running their concatenation. */
  lemma {:induction false} RunAppend(s: State, a: seq<Event>, b: seq<Event>)
    ensures Run(s, a + b) == Run(Run(s, a), b)
    decreases |a|
  {
    if a != [] {
      assert (a + b)[0] == a[0] && (a + b)[1..] == a[1..] + b;
      assert Run(s, a + b) == Run(Step(s, a[0]), a[1..] + b);
      RunAppend(Step(s, a[0]), a[1..], b);
      assert Run(s, a) == Run(Step(s, a[0]), a[1..]);
    } else {
      assert a + b == b;
    }
  }

  /** Frames alone, from startup, never resize the surface or touch the camera. */
  lemma {:induction false} FramesFromStartup(w: Window, reportedRatio: Option<real>, evs: seq<Event>)
    requires forall i :: 0 <= i < |evs| ==> evs[i] == Frame
    ensures Run(Startup(w, reportedRatio), evs) == Startup(w, reportedRatio)
  {
    FramesKeep(Startup(w, reportedRatio), evs);
  }

  /** Frames alone leave an idle state exactly as it was. */
  lemma {:induction false} FramesKeep(s: State, evs: seq<Event>)
    requires Idle(s)
    requires forall i :: 0 <= i < |evs| ==> evs[i] == Frame
    ensures Run(s, evs) == s
    decreases |evs|
  {
    if evs != [] {
      FramesKeep(s, evs[1..]);
    }
  }

  /** The ratio is read once at startup: a notification's outcome does not depend
      on the ratio the display reports when it fires. This records how `Step`
      models the listener, which multiplies by the `dpi` constant captured at
      startup instead of reading `devicePixelRatio` again (src/main.ts:39-40);
      that every run keeps the captured ratio is part of `Run`'s contract. */
  lemma RatioReadOnce(s: State, w: Window, now: Option<real>)
    ensures Step(s, Resize(w, now)) == Step(s, Resize(w, None))
  {
  }

  /** A notification at an 800 by 600 window on a display of ratio 2 requests
      1600 by 1200; with no ratio reported it requests 800 by 600. */
  lemma ResizeExamples()
    ensures Requested(Step(Startup(Window(800, 600), Some(2.0)), Resize(Window(800, 600), Some(2.0))).pending)
            == Size(1600.0, 1200.0)
    ensures Requested(Step(Startup(Window(800, 600), None), Resize(Window(800, 600), None)).pending)
            == Size(800.0, 600.0)
  {
  }

  /** Notify 100 by 100, render, notify 200 by 200 and then 300 by 300, render:
      the surface goes from 100 by 100 straight to 300 by 300, with aspect 1 at
      both frames. */
  lemma InterleavingExample(start: Window)
    ensures var s := Startup(start, Some(1.0));
            var first := Run(s, [Resize(Window(100, 100), None), Frame]);
            && first.calls == s.calls + [SetSize(Size(100.0, 100.0), false)]
            && first.camera.aspect == Finite(1.0)
    ensures var s := Startup(start, Some(1.0));
            var evs := [Resize(Window(100, 100), None), Frame,
                        Resize(Window(200, 200), None), Resize(Window(300, 300), None), Frame];
            var r := Run(s, evs);
            && r.calls == s.calls + [SetSize(Size(100.0, 100.0), false), SetSize(Size(300.0, 300.0), false)]
            && r.camera.aspect == Finite(1.0)
            && r.pending == Cleared
  {
    var s := Startup(start, Some(1.0));
    var evs := [Resize(Window(100, 100), None), Frame,
                Resize(Window(200, 200), None), Resize(Window(300, 300), None), Frame];
    RunCalls(s, evs);
    assert Applied(evs, 1.0) == [SetSize(Size(100.0, 100.0), false), SetSize(Size(300.0, 300.0), false)];
    RunAppend(s, evs[..2], evs[2..]);
    assert evs[..2] + evs[2..] == evs;
    CoalesceThenRender(s, evs[..1]);
    assert evs[..1] + [Frame] == evs[..2];
    var mid := Run(s, evs[..2]);
    CoalesceThenRender(mid, evs[2..4]);
    assert evs[2..4] + [Frame] == evs[2..];
  }
}
