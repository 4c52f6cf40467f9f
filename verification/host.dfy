/** The browser-side values the resize driver reads: optional values (JavaScript's
    `null`/`undefined`), the window's inner size, the device pixel ratio and the
    quotient `x / y` as JavaScript evaluates it. */
module Host {

  /** A JavaScript value that may be `null` or `undefined` (`None`). */
  datatype Option<+T> = None | Some(value: T) {

    /** The nullish-coalescing operator `this ?? fallback`: only a missing value
        is replaced; any present value, falsy or not, is kept. */
    function OrElse(fallback: T): T {
      match this
      case Some(v) => v
      case None => fallback
    }
  }

  /** The window's layout viewport, `innerWidth` by `innerHeight`, in CSS pixels. */
  datatype Window = Window(innerWidth: nat, innerHeight: nat)

  /** A width and height in device pixels. */
  datatype Size = Size(width: real, height: real)

  /** `window.devicePixelRatio ?? 1`: the ratio the display reports, or 1 when it
      reports nothing. */
  function DeviceRatio(reported: Option<real>): (dpi: real)
    ensures reported.None? ==> dpi == 1.0
    ensures reported.Some? ==> dpi == reported.value
  {
    reported.OrElse(1.0)
  }

  /** The ratio falls back to 1 exactly when the display reports nothing or reports
      1 itself; in particular a reported ratio of 0 is kept as 0. */
  lemma DeviceRatioFallback(reported: Option<real>)
    ensures DeviceRatio(reported) == 1.0 <==> reported == None || reported == Some(1.0)
    ensures reported == Some(0.0) ==> DeviceRatio(reported) == 0.0
  {
  }

  /** The window's inner size multiplied by the device pixel ratio. */
  function Scaled(w: Window, dpi: real): (s: Size)
    ensures dpi == 1.0 ==> s == Size(w.innerWidth as real, w.innerHeight as real)
    ensures dpi > 0.0 ==> (s.width == 0.0 <==> w.innerWidth == 0) && (s.height == 0.0 <==> w.innerHeight == 0)
  {
    Size(w.innerWidth as real * dpi, w.innerHeight as real * dpi)
  }

  /** The value of a JavaScript quotient of two numbers. A zero divisor gives
      `Infinity`, `-Infinity` or `NaN`, which this model does not tell apart. */
  datatype Quotient = Finite(value: real) | NonFinite

  /** `x / y` on exact reals, with the zero divisor made explicit. */
  function Divide(x: real, y: real): (q: Quotient)
    ensures q.Finite? <==> y != 0.0
    ensures q.Finite? ==> q.value * y == x
  {
    if y != 0.0 then Finite(x / y) else NonFinite
  }

  /** Scaling both operands by the same non-zero factor does not change a quotient. */
  lemma DivideScaled(x: real, y: real, k: real)
    requires k != 0.0
    ensures Divide(x * k, y * k) == Divide(x, y)
  {
    if y != 0.0 {
      assert (x * k) / (y * k) == x / y by {
        assert (x / y) * (y * k) == x * k;
      }
    }
  }
}
