/**
 The fade of the activity indicator, in 64-bit integer arithmetic (cc-zellij-plugin/src/session.rs:72-136).
 Arithmetic on u64 is checked: an intermediate value outside the 64-bit range would not verify.
 */
module Fade {
  newtype u64 = x: int | 0 <= x < 0x1_0000_0000_0000_0000

  const MAX_U64: nat := 0xFFFF_FFFF_FFFF_FFFF
  const SCALE: nat := 1_048_576

  // ---- The integer square root ----

  /** The floor of the square root. */
  function FloorSqrt(n: nat): (r: nat)
    ensures r * r <= n < (r + 1) * (r + 1)
  {
    if n == 0 then 0
    else
      var r := FloorSqrt(n - 1);
      if (r + 1) * (r + 1) <= n then r + 1 else r
  }

  lemma SquareMonotone(a: nat, b: nat)
    requires a <= b
    ensures a * a <= b * b
  {
    assert a * a <= a * b <= b * b;
  }

  lemma FloorSqrtIsUnique(n: nat, r: nat)
    requires r * r <= n < (r + 1) * (r + 1)
    ensures r == FloorSqrt(n)
  {
    var s := FloorSqrt(n);
    if r < s {
      SquareMonotone(r + 1, s);
    } else if s < r {
      SquareMonotone(s + 1, r);
    }
  }

  lemma FloorSqrtMonotone(m: nat, n: nat)
    requires m <= n
    ensures FloorSqrt(m) <= FloorSqrt(n)
  {
    if FloorSqrt(n) < FloorSqrt(m) {
      SquareMonotone(FloorSqrt(n) + 1, FloorSqrt(m));
    }
  }

  /** A Newton step from above never falls below the root. */
  lemma NewtonStaysAbove(n: nat, x: nat)
    requires x > 0
    ensures var y := (x + n / x) / 2; (y + 1) * (y + 1) > n
  {
    var q := n / x;
    var y := (x + q) / 2;
    assert n < x * (q + 1) by {
      assert n == x * q + n % x;
    }
    assert 2 * (y + 1) >= x + (q + 1);
    SquareMonotone(x + (q + 1), 2 * (y + 1));
    FourProducts(x, q + 1);
    assert (2 * (y + 1)) * (2 * (y + 1)) == 4 * ((y + 1) * (y + 1));
  }

  lemma FourProducts(a: nat, b: nat)
    ensures (a + b) * (a + b) >= 4 * (a * b)
  {
    assert (a + b) * (a + b) - 4 * (a * b) == (a - b) * (a - b);
    assert (a - b) * (a - b) >= 0;
  }

  lemma NewtonStops(n: nat, x: nat)
    requires x > 0 && (x + n / x) / 2 >= x
    ensures x * x <= n
  {
    assert n / x >= x;
    assert x * x <= x * (n / x) <= n;
  }

  lemma {:induction false} ProductGap(x: nat, q: nat)
    requires x > 0 && q > 0
    ensures x + q <= x * q + 1
    ensures x >= 2 ==> 2 * q <= x * q
  {
    if q > 1 {
      ProductGap(x, q - 1);
      assert x * q == x * (q - 1) + x;
    }
  }

  lemma QuotientBounds(n: nat, x: nat)
    requires 0 < x <= n
    ensures 0 < n / x && x * (n / x) <= n
  {
  }

  /** A Newton step stays within 64 bits: at one the argument is tiny, and from two on both halves are small. */
  lemma NewtonFits(n: nat, x: nat)
    requires n <= MAX_U64 && 0 < x <= n && 2 * x <= n + 1 && (x + 1) * (x + 1) > n
    ensures 0 < n / x && x + n / x <= n + 1 && x + n / x <= MAX_U64
  {
    QuotientBounds(n, x);
    ProductGap(x, n / x);
  }

  lemma StartIsAbove(n: nat)
    requires n > 0
    ensures (n + 1) * (n + 1) > n
    ensures var y := n / 2 + n % 2; y > 0 && 2 * y <= n + 1 && (y + 1) * (y + 1) > n
  {
    var y := n / 2 + n % 2;
    assert (y + 1) * (y + 1) == y * y + 2 * y + 1;
    assert (n + 1) * (n + 1) == n * n + 2 * n + 1;
  }

  /** Newton's method: terminates, never overflows, and returns the exact floor of the root for every 64-bit n. */
  method Isqrt(n: u64) returns (x: u64)
    ensures x as nat == FloorSqrt(n as nat)
  {
    if n == 0 {
      return 0;
    }
    x := n;
    var y := x / 2 + x % 2;
    ghost var m := n as nat;
    StartIsAbove(m);
    while y < x
      invariant 0 < y as nat <= m && 0 < x as nat <= m && 2 * (y as nat) <= m + 1
      invariant (x as nat + 1) * (x as nat + 1) > m && (y as nat + 1) * (y as nat + 1) > m
      invariant y >= x ==> (x as nat) * (x as nat) <= m
      decreases x
    {
      x := y;
      NewtonFits(m, x as nat);
      NewtonStaysAbove(m, x as nat);
      y := (x + n / x) / 2;
      if y >= x {
        NewtonStops(m, x as nat);
      }
    }
    FloorSqrtIsUnique(m, x as nat);
  }

  // ---- The ratio ----

  function SaturatingMul(a: nat, b: nat): nat {
    if a * b <= MAX_U64 then a * b else MAX_U64
  }

  /** The argument of the root: elapsed / duration, scaled by 1024 squared. */
  function Scaled(elapsed: nat, duration: nat): nat
    requires duration > 0
  {
    SaturatingMul(elapsed, SCALE) / duration
  }

  /** The square root of elapsed / duration, as a fraction of 1024. */
  function SqrtRatio(elapsed: nat, duration: nat): nat
    requires duration > 0
  {
    if elapsed >= duration then 1024
    else if FloorSqrt(Scaled(elapsed, duration)) <= 1024 then FloorSqrt(Scaled(elapsed, duration))
    else 1024
  }

  method SqrtRatio1024(elapsed: u64, duration: u64) returns (t: u64)
    requires duration > 0
    ensures t as nat == SqrtRatio(elapsed as nat, duration as nat)
  {
    if elapsed >= duration {
      return 1024;
    }
    var product: u64 := if elapsed as nat * SCALE <= MAX_U64 then (elapsed as nat * SCALE) as u64 else MAX_U64 as u64;
    t := Isqrt(product / duration);
    if t > 1024 {
      t := 1024;
    }
  }

  lemma MulMonotone(a: nat, b: nat, c: nat)
    requires a <= b
    ensures a * c <= b * c
  {
  }

  lemma DivBounds(a: nat, d: nat)
    requires d > 0
    ensures (a / d) * d <= a < (a / d + 1) * d
  {
  }

  lemma DivMonotone(a: nat, b: nat, d: nat)
    requires a <= b && d > 0
    ensures a / d <= b / d
  {
    DivBounds(a, d);
    DivBounds(b, d);
    var p, q := a / d, b / d;
    if q + 1 <= p {
      MulMonotone(q + 1, p, d);
    }
  }

  lemma ScaledMonotone(e1: nat, e2: nat, duration: nat)
    requires duration > 0 && e1 <= e2
    ensures Scaled(e1, duration) <= Scaled(e2, duration)
  {
    DivMonotone(SaturatingMul(e1, SCALE), SaturatingMul(e2, SCALE), duration);
  }

  /** The ratio never exceeds 1024, and never falls as time goes by. */
  lemma RatioIsMonotone(e1: nat, e2: nat, duration: nat)
    requires duration > 0 && e1 <= e2
    ensures SqrtRatio(e1, duration) <= SqrtRatio(e2, duration) <= 1024
  {
    ScaledMonotone(e1, e2, duration);
    FloorSqrtMonotone(Scaled(e1, duration), Scaled(e2, duration));
  }

  lemma DivLess(product: nat, duration: nat, bound: nat)
    requires duration > 0 && product < bound * duration
    ensures product / duration < bound
  {
  }

  lemma MulLess(a: nat, b: nat, c: nat)
    requires a < b && c > 0
    ensures a * c < b * c
  {
  }

  /** Before the end of the fade the ratio is below 1024, so the cap is never what decides. */
  lemma RatioIsCompleteExactlyAtTheEnd(elapsed: nat, duration: nat)
    requires duration > 0
    ensures SqrtRatio(elapsed, duration) == 1024 <==> elapsed >= duration
    ensures elapsed < duration ==> SqrtRatio(elapsed, duration) == FloorSqrt(Scaled(elapsed, duration))
  {
    if elapsed < duration {
      MulLess(elapsed, duration, SCALE);
      DivLess(SaturatingMul(elapsed, SCALE), duration, SCALE);
      var root := FloorSqrt(Scaled(elapsed, duration));
      if root >= 1024 {
        SquareMonotone(1024, root);
      }
    }
  }

  /** Without saturation the ratio is the exact floor of 1024 times the root of elapsed / duration. */
  lemma RatioIsExact(elapsed: nat, duration: nat)
    requires elapsed < duration && elapsed * SCALE <= MAX_U64
    ensures var t := SqrtRatio(elapsed, duration); t * t * duration <= elapsed * SCALE < (t + 1) * (t + 1) * duration
  {
    RatioIsCompleteExactlyAtTheEnd(elapsed, duration);
    var q, t := Scaled(elapsed, duration), SqrtRatio(elapsed, duration);
    DivBounds(elapsed * SCALE, duration);
    MulMonotone(t * t, q, duration);
    MulMonotone(q + 1, (t + 1) * (t + 1), duration);
  }

  // ---- The colors ----

  type Color = (nat, nat, nat)

  function LerpChannel(a: nat, b: nat, t: nat): nat
    requires a <= 255 && b <= 255
  {
    var t' := if t <= 1024 then t else 1024;
    MulMonotone(0, a, 1024 - t');
    MulMonotone(0, b, t');
    (a * (1024 - t') + b * t') / 1024
  }

  predicate IsColor(c: Color) {
    c.0 <= 255 && c.1 <= 255 && c.2 <= 255
  }

  function LerpColor(from: Color, to: Color, t: nat): Color
    requires IsColor(from) && IsColor(to)
  {
    (LerpChannel(from.0, to.0, t), LerpChannel(from.1, to.1, t), LerpChannel(from.2, to.2, t))
  }

  datatype Activity = Init | Working | WaitingPermission | WaitingNotification | Idle | DoneActivity | AgentDone

  function BaseColor(a: Activity): (c: Color)
    ensures IsColor(c)
  {
    match a
    case Init => (180, 175, 195)
    case Idle => (180, 175, 195)
    case Working => (180, 140, 255)
    case WaitingPermission => (255, 109, 109)
    case WaitingNotification => (255, 194, 102)
    case DoneActivity => (80, 200, 120)
    case AgentDone => (80, 180, 100)
  }

  const LIGHT_GREY: Color := (180, 175, 195)
  const DARK_GREY: Color := (70, 65, 80)

  predicate IsActive(a: Activity) {
    a.Working? || a.WaitingPermission? || a.WaitingNotification?
  }

  /** The color a fade ends in. */
  function EndColor(a: Activity): (c: Color)
    ensures IsColor(c)
  {
    if IsActive(a) then BaseColor(a) else if a.DoneActivity? || a.AgentDone? then LIGHT_GREY else DARK_GREY
  }

  function AtLeastOne(n: nat): nat {
    if n >= 1 then n else 1
  }

  /** How long the fade of an activity takes. */
  function FadeSeconds(a: Activity, doneTimeout: nat, idleFadeSecs: nat): (n: nat)
    ensures n > 0
  {
    AtLeastOne(if a.DoneActivity? || a.AgentDone? then doneTimeout else idleFadeSecs)
  }

  function FadedColor(a: Activity, elapsed: nat, doneTimeout: nat, idleFadeSecs: nat): Color {
    match a
    case Working => BaseColor(a)
    case WaitingPermission => BaseColor(a)
    case WaitingNotification => BaseColor(a)
    case DoneActivity => LerpColor(BaseColor(a), LIGHT_GREY, SqrtRatio(elapsed, AtLeastOne(doneTimeout)))
    case AgentDone => LerpColor(BaseColor(a), LIGHT_GREY, SqrtRatio(elapsed, AtLeastOne(doneTimeout)))
    case Idle => LerpColor(LIGHT_GREY, DARK_GREY, SqrtRatio(elapsed, AtLeastOne(idleFadeSecs)))
    case Init => LerpColor(LIGHT_GREY, DARK_GREY, SqrtRatio(elapsed, AtLeastOne(idleFadeSecs)))
  }

  /** x, y and z lie in this order on the way from a to b. */
  predicate OnTheWay(a: nat, x: nat, y: nat, b: nat) {
    a <= x <= y <= b || a >= x >= y >= b
  }

  /** The weighted sum is the start plus its share of the difference. */
  lemma WeightedSum(a: int, b: int, t: int)
    ensures a * (1024 - t) + b * t == 1024 * a + (b - a) * t
  {
    assert a * (1024 - t) == 1024 * a - a * t;
    assert (b - a) * t == b * t - a * t;
  }

  lemma LerpChannelMoves(a: nat, b: nat, t1: nat, t2: nat)
    requires a <= 255 && b <= 255 && t1 <= t2 <= 1024
    ensures OnTheWay(a, LerpChannel(a, b, t1), LerpChannel(a, b, t2), b)
    ensures LerpChannel(a, b, 0) == a && LerpChannel(a, b, 1024) == b
  {
    WeightedSum(a, b, t1);
    WeightedSum(a, b, t2);
    var w1, w2 := a * (1024 - t1) + b * t1, a * (1024 - t2) + b * t2;
    if a <= b {
      ShareMonotone(b - a, t1, t2);
    } else {
      ShareMonotone(a - b, t1, t2);
      assert (b - a) * t1 == -((a - b) * t1) && (b - a) * t2 == -((a - b) * t2);
    }
  }

  lemma ShareMonotone(d: nat, t1: nat, t2: nat)
    requires t1 <= t2 <= 1024
    ensures 0 <= d * t1 <= d * t2 <= d * 1024
  {
  }

  /** Whatever the activity, its fade leads from its base color to its end color; an active one does not fade. */
  lemma FadeShape(a: Activity, elapsed: nat, doneTimeout: nat, idleFadeSecs: nat)
    ensures IsActive(a) ==> FadedColor(a, elapsed, doneTimeout, idleFadeSecs) == BaseColor(a) == EndColor(a)
    ensures !IsActive(a) ==>
      FadedColor(a, elapsed, doneTimeout, idleFadeSecs) ==
      LerpColor(BaseColor(a), EndColor(a), SqrtRatio(elapsed, FadeSeconds(a, doneTimeout, idleFadeSecs)))
  {
  }

  lemma RatioStartsAtZero(duration: nat)
    requires duration > 0
    ensures SqrtRatio(0, duration) == 0
  {
    assert SaturatingMul(0, SCALE) == 0;
    assert Scaled(0, duration) == 0;
  }

  lemma LerpColorMoves(from: Color, to: Color, t1: nat, t2: nat)
    requires IsColor(from) && IsColor(to) && t1 <= t2 <= 1024
    ensures var c1, c2 := LerpColor(from, to, t1), LerpColor(from, to, t2);
      OnTheWay(from.0, c1.0, c2.0, to.0) && OnTheWay(from.1, c1.1, c2.1, to.1) && OnTheWay(from.2, c1.2, c2.2, to.2)
    ensures LerpColor(from, to, 0) == from && LerpColor(from, to, 1024) == to
  {
    LerpChannelMoves(from.0, to.0, t1, t2);
    LerpChannelMoves(from.1, to.1, t1, t2);
    LerpChannelMoves(from.2, to.2, t1, t2);
  }

  /**
   As time goes by every channel moves monotonically from the color the activity starts with to the color it ends
   in, starts exactly there, and arrives exactly when the fade is over.
   */
  lemma FadeMovesMonotonically(a: Activity, e1: nat, e2: nat, doneTimeout: nat, idleFadeSecs: nat)
    requires e1 <= e2
    ensures var c1, c2 := FadedColor(a, e1, doneTimeout, idleFadeSecs), FadedColor(a, e2, doneTimeout, idleFadeSecs);
      && OnTheWay(BaseColor(a).0, c1.0, c2.0, EndColor(a).0)
      && OnTheWay(BaseColor(a).1, c1.1, c2.1, EndColor(a).1)
      && OnTheWay(BaseColor(a).2, c1.2, c2.2, EndColor(a).2)
    ensures FadedColor(a, 0, doneTimeout, idleFadeSecs) == BaseColor(a)
    ensures e2 >= FadeSeconds(a, doneTimeout, idleFadeSecs) ==>
      FadedColor(a, e2, doneTimeout, idleFadeSecs) == EndColor(a)
  {
    FadeShape(a, 0, doneTimeout, idleFadeSecs);
    FadeShape(a, e1, doneTimeout, idleFadeSecs);
    FadeShape(a, e2, doneTimeout, idleFadeSecs);
    var n := FadeSeconds(a, doneTimeout, idleFadeSecs);
    RatioIsMonotone(e1, e2, n);
    RatioStartsAtZero(n);
    LerpColorMoves(BaseColor(a), EndColor(a), SqrtRatio(e1, n), SqrtRatio(e2, n));
  }
}
