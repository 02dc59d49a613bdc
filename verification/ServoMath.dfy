/** The arithmetic of source/actuator/pif_servo.c: angles to pulses and back, and how far a move has got. Divisions
    round as C's do, and every intermediate value is shown to fit the type C gives it. */
module ServoMath {
  import opened Words

  const FULL: nat := 1024

  lemma Times(a: int, b: int, c: int)
    requires a <= b && 0 <= c
    ensures a * c <= b * c
  {
  }

  lemma Cancel(a: int, b: int, c: int)
    requires a * c <= b * c && 0 < c
    ensures a <= b
  {
    if b < a {
      Times(b + 1, a, c);
    }
  }

  lemma NextMultiple(q: int, m: int)
    ensures (q + 1) * m == q * m + m
  {
  }

  lemma Quotient(a: int, m: int)
    requires 0 < m
    ensures (a / m) * m <= a < (a / m) * m + m
  {
  }

  /** Multiples of m below the next multiple. */
  lemma NotAbove(p: int, q: int, m: int)
    requires 0 < m && p * m < q * m + m
    ensures p <= q
  {
    if q < p {
      NextMultiple(q, m);
      Times(q + 1, p, m);
    }
  }

  lemma QuotientIs(a: int, m: int, q: int)
    requires 0 < m && q * m <= a < q * m + m
    ensures a / m == q
  {
    Quotient(a, m);
    NotAbove(a / m, q, m);
    NotAbove(q, a / m, m);
  }

  lemma QuotientMonotone(a: int, b: int, m: int)
    requires 0 < m && a <= b
    ensures a / m <= b / m
  {
    Quotient(a, m);
    Quotient(b, m);
    NotAbove(a / m, b / m, m);
  }

  // ---------------------------------------------------------------- scales

  /** The product of two scales, half a step included, is within 32 bits. */
  predicate Fit(a: int, b: int) {
    a * b + a / 2 < 0x8000_0000 && a * b + b / 2 < 0x8000_0000
  }

  /** The sum made for x on a scale up to from is within 32 bits. */
  predicate SumFits(x: nat, from: nat, to: nat) {
    x * to + from / 2 < 0x8000_0000
  }

  /** Exactly then no conversion overflows, from the one scale to the other or back. */
  lemma FitIsExact(a: nat, b: nat)
    ensures Fit(a, b)
            <==> (forall x: nat :: x <= a ==> SumFits(x, a, b)) && (forall y: nat :: y <= b ==> SumFits(y, b, a))
  {
    assert SumFits(a, a, b) && SumFits(b, b, a) ==> Fit(a, b);
    forall x: nat | x <= a
      ensures Fit(a, b) ==> SumFits(x, a, b)
    {
      Times(x, a, b);
    }
    forall y: nat | y <= b
      ensures Fit(a, b) ==> SumFits(y, b, a)
    {
      Times(y, b, a);
    }
  }

  /** x on a scale that goes up to from, taken to one that goes up to to, rounded to the nearest. */
  function Scaled(x: nat, from: nat, to: nat): (r: nat)
    requires 0 < from && x <= from && Fit(from, to)
    ensures r <= to
    ensures 2 * Abs(r * from - x * to) <= from
  {
    Times(x, from, to);
    ScaledFits(x * to, from, to);
    var sum: int32 := x * to + from / 2;
    sum / from
  }

  lemma ScaledFits(product: nat, from: nat, to: nat)
    requires 0 < from && product <= from * to
    ensures 0 <= (product + from / 2) / from <= to
    ensures 2 * Abs((product + from / 2) / from * from - product) <= from
  {
    var sum := product + from / 2;
    Quotient(sum, from);
    NotAbove(sum / from, to, from);
    NotAbove(0, sum / from, from);
  }

  lemma ScaledEnds(from: nat, to: nat)
    requires 0 < from && Fit(from, to)
    ensures Scaled(0, from, to) == 0 && Scaled(from, from, to) == to
  {
    QuotientIs(from / 2, from, 0);
    QuotientIs(from * to + from / 2, from, to);
  }

  lemma ScaledMonotone(x: nat, y: nat, from: nat, to: nat)
    requires 0 < from && x <= y <= from && Fit(from, to)
    ensures Scaled(x, from, to) <= Scaled(y, from, to)
  {
    Times(x, y, to);
    QuotientMonotone(x * to + from / 2, y * to + from / 2, from);
  }

  lemma SameScale(x: nat, n: nat)
    requires 0 < n && x <= n && Fit(n, n)
    ensures Scaled(x, n, n) == x
  {
    QuotientIs(x * n + n / 2, n, x);
  }

  /** From the coarser scale to the finer one and back is exact. */
  lemma ScaledBack(x: nat, coarse: nat, fine: nat)
    requires 0 < coarse <= fine && x <= coarse && Fit(coarse, fine) && Fit(fine, coarse)
    ensures Scaled(Scaled(x, coarse, fine), fine, coarse) == x
  {
    var y := Scaled(x, coarse, fine);
    if coarse == fine {
      SameScale(x, coarse);
    } else {
      QuotientIs(y * coarse + fine / 2, fine, x);
    }
  }

  /** From the finer scale to the coarser one and back is off by at most about half a coarse step. */
  lemma ScaledBackNear(y: nat, coarse: nat, fine: nat)
    requires 0 < coarse <= fine && y <= fine && Fit(coarse, fine) && Fit(fine, coarse)
    ensures 2 * (Abs(Scaled(Scaled(y, fine, coarse), coarse, fine) - y) * coarse) <= fine + coarse
  {
    var x := Scaled(y, fine, coarse);
    var z := Scaled(x, coarse, fine);
    Gap(z, y, coarse);
  }

  lemma Gap(a: nat, b: nat, m: nat)
    ensures Abs(a - b) * m == Abs(a * m - b * m)
  {
    assert (a - b) * m == a * m - b * m;
    Times(Abs(a - b), Abs(a - b), m);
    if a < b {
      Times(a, b, m);
    } else {
      Times(b, a, m);
    }
  }

  // ---------------------------------------------------------------- angles and pulses

  /** The range of a channel, with its trim and whether it is mounted the other way round. */
  datatype Range = Range(minPulse: uint16, maxPulse: uint16, minAngle: int16, maxAngle: int16, trim: int16,
                         reverse: bool)
  {
    function SpanAngle(): int {
      maxAngle - minAngle
    }

    function SpanPulse(): int {
      maxPulse - minPulse
    }

    /** What pifServo_SetRange and pifServo_SetTrim see to, and that the spans are not too large for 32 bits, which
        they leave to the caller. */
    predicate Valid() {
      && Abs(trim) < minPulse < maxPulse && -0x8000 < minAngle < maxAngle
      && Fit(SpanAngle(), SpanPulse()) && Fit(SpanPulse(), SpanAngle())
    }

    predicate Has(angle: int) {
      minAngle <= angle <= maxAngle
    }

    function ClampAngle(angle: int16): (r: int16)
      requires minAngle <= maxAngle
      ensures Has(r) && (Has(angle) ==> r == angle)
      ensures forall other :: Has(other) ==> Abs(r - angle) <= Abs(other - angle)
    {
      if angle < minAngle then minAngle else if angle > maxAngle then maxAngle else angle
    }

    /** The pulse of an angle before it is held to 16 bits. */
    function Pulse(angle: int16): (r: int32)
      requires Valid() && Has(angle)
      ensures minPulse + trim <= r <= maxPulse + trim
    {
      var offset := Scaled(angle - minAngle, SpanAngle(), SpanPulse());
      (if reverse then maxPulse - offset else minPulse + offset) + trim
    }

    /** _angleToPulse: never 0, which would detach the servo. */
    function AngleToPulse(angle: int16): (r: uint16)
      requires Valid() && Has(angle)
      ensures 0 < r
    {
      if Pulse(angle) > 0xFFFF then 0xFFFF else Pulse(angle)
    }

    /** _pulseToAngle */
    function PulseToAngle(pulse: uint16): (r: int16)
      requires Valid()
      ensures Has(r)
    {
      var p := pulse - trim;
      var held := if p < minPulse then minPulse else if p > maxPulse then maxPulse else p;
      var offset := if reverse then maxPulse - held else held - minPulse;
      minAngle + Scaled(offset, SpanPulse(), SpanAngle())
    }

    /** The ends of the range have the ends of the pulses, the other way round if reversed. */
    lemma EndPulses()
      requires Valid()
      ensures Pulse(minAngle) == (if reverse then maxPulse else minPulse) + trim
      ensures Pulse(maxAngle) == (if reverse then minPulse else maxPulse) + trim
    {
      ScaledEnds(SpanAngle(), SpanPulse());
    }

    /** The pulse of an angle divides the pulses as the angle does the angles, to the nearest. */
    lemma PulseIsNearest(angle: int16)
      requires Valid() && Has(angle)
      ensures var offset := Pulse(angle) - trim - minPulse;
              2 * Abs((if reverse then SpanPulse() - offset else offset) * SpanAngle()
                      - (angle - minAngle) * SpanPulse()) <= SpanAngle()
      ensures AngleToPulse(angle) == if Pulse(angle) > 0xFFFF then 0xFFFF else Pulse(angle)
    {
    }

    /** The angle of a pulse divides the angles as the pulse less the trim does the pulses, held between the ends, to
        the nearest. */
    lemma AngleIsNearest(pulse: uint16)
      requires Valid()
      ensures var p := pulse - trim;
              var offset := if p < minPulse then 0 else if p > maxPulse then SpanPulse() else p - minPulse;
              2 * Abs((PulseToAngle(pulse) - minAngle) * SpanPulse()
                      - (if reverse then SpanPulse() - offset else offset) * SpanAngle()) <= SpanPulse()
    {
    }

    /** A larger angle has no smaller a pulse, or no larger a one if reversed. */
    lemma PulseMonotone(a: int16, b: int16)
      requires Valid() && Has(a) && Has(b) && a <= b
      ensures if reverse then AngleToPulse(b) <= AngleToPulse(a) else AngleToPulse(a) <= AngleToPulse(b)
    {
      ScaledMonotone(a - minAngle, b - minAngle, SpanAngle(), SpanPulse());
    }

    /** With no more angles than pulses, an angle comes back from its pulse, unless that was held to 16 bits. */
    lemma AngleComesBack(angle: int16)
      requires Valid() && Has(angle) && SpanAngle() <= SpanPulse() && Pulse(angle) <= 0xFFFF
      ensures PulseToAngle(AngleToPulse(angle)) == angle
    {
      ScaledBack(angle - minAngle, SpanAngle(), SpanPulse());
    }

    /** With no more pulses than angles, a pulse of the range comes back from its angle. */
    lemma PulseComesBack(pulse: uint16)
      requires Valid() && SpanPulse() <= SpanAngle() && minPulse <= pulse - trim <= maxPulse
      ensures AngleToPulse(PulseToAngle(pulse)) == pulse
    {
      var p := pulse - trim;
      ScaledBack(if reverse then maxPulse - p else p - minPulse, SpanPulse(), SpanAngle());
    }

    /** From the finer of the scales the way there and back stays within about half a step of the coarser one. */
    lemma AngleComesBackNear(angle: int16)
      requires Valid() && Has(angle) && SpanPulse() <= SpanAngle() && Pulse(angle) <= 0xFFFF
      ensures 2 * (Abs(PulseToAngle(AngleToPulse(angle)) - angle) * SpanPulse()) <= SpanAngle() + SpanPulse()
    {
      ScaledBackNear(angle - minAngle, SpanPulse(), SpanAngle());
    }
  }

  // ---------------------------------------------------------------- how far a move has got

  datatype Profile = Linear | Ease

  /** C's division, which drops the fraction. */
  function TruncDiv(a: int, b: int): int
    requires b > 0
  {
    if a < 0 then -((-a) / b) else a / b
  }

  /** The sum that smoothstep shifts down. */
  function SmoothSum(t: nat): int {
    t * t * (3 * FULL - 2 * t)
  }

  lemma Expand(a: int, d: int, w: int)
    ensures (a + d) * (w - 2) == a * w - 2 * a + d * (w - 2)
  {
  }

  lemma Slope(t: nat, square: nat)
    requires t < FULL && square == t * t
    ensures (2 * t + 1) * (3 * FULL - 2 * t - 2) > 2 * square
  {
    Times(t, FULL - 1, t);
    assert (2 * t + 1) * (3070 - 2 * t) == 6138 * t + 3070 - 4 * (t * t);
  }

  lemma SmoothStep(t: nat, u: nat)
    requires u == t + 1 <= FULL
    ensures SmoothSum(t) < SmoothSum(u)
  {
    assert u * u == t * t + (2 * t + 1);
    Slope(t, t * t);
    Expand(t * t, 2 * t + 1, 3 * FULL - 2 * t);
  }

  lemma {:induction false} Grows(f: nat -> int, t: nat, u: nat)
    requires t <= u
    requires forall k, n :: t <= k < u && n == k + 1 ==> f(k) < f(n)
    ensures f(t) <= f(u) && (t < u ==> f(t) < f(u))
    decreases u - t
  {
    if t < u {
      var n := t + 1;
      assert f(t) < f(n);
      Grows(f, n, u);
    }
  }

  lemma SmoothSumGrows(t: nat, u: nat)
    requires t <= u <= FULL
    ensures SmoothSum(t) <= SmoothSum(u)
  {
    forall k, n | t <= k < u && n == k + 1
      ensures SmoothSum(k) < SmoothSum(n)
    {
      SmoothStep(k, n);
    }
    Grows(SmoothSum, t, u);
  }

  /** Smoothstep, 3t^2 - 2t^3, in 1/1024 steps. */
  function Smooth(t: nat): (r: nat)
    requires t <= FULL
    ensures r <= FULL && (r == FULL <==> t == FULL)
  {
    SmoothSumGrows(0, t);
    SmoothSumGrows(t, FULL);
    if t < FULL then
      SmoothSumGrows(t, FULL - 1);
      var sum: uint32 := SmoothSum(t);
      sum / 0x10_0000
    else FULL
  }

  lemma SmoothMonotone(t: nat, u: nat)
    requires t <= u <= FULL
    ensures Smooth(t) <= Smooth(u)
  {
    SmoothSumGrows(0, t);
    SmoothSumGrows(t, u);
  }

  lemma SmoothSumExpanded(t: nat, square: nat, cube: nat)
    requires square == t * t && cube == square * t
    ensures SmoothSum(t) == 3 * FULL * square - 2 * cube
  {
    assert square * (2 * t) == 2 * cube;
    assert square * (3 * FULL - 2 * t) == square * (3 * FULL) - square * (2 * t);
  }

  /** The second half of smoothstep mirrors the first. */
  lemma SmoothMirrors(t: nat, u: nat)
    requires t + u == FULL
    ensures SmoothSum(t) + SmoothSum(u) == 0x4000_0000
    ensures FULL - 1 <= Smooth(t) + Smooth(u) <= FULL
  {
    var square := t * t;
    var cube := square * t;
    SmoothSumExpanded(t, square, cube);
    assert u * u == FULL * FULL - 2 * FULL * t + square;
    MirrorProduct(t, square, cube);
    SmoothSumGrows(0, t);
    SmoothSumGrows(0, u);
  }

  lemma MirrorProduct(t: nat, square: nat, cube: nat)
    requires square == t * t && cube == square * t
    ensures (FULL * FULL - 2 * FULL * t + square) * (FULL + 2 * t)
            == 0x4000_0000 - 3 * FULL * square + 2 * cube
  {
    assert square * (2 * t) == 2 * cube;
    assert (2 * FULL * t) * (2 * t) == 4 * FULL * square;
    assert (FULL * FULL - 2 * FULL * t + square) * (FULL + 2 * t)
        == FULL * FULL * (FULL + 2 * t) - (2 * FULL * t) * (FULL + 2 * t) + square * (FULL + 2 * t);
  }

  /** It starts slowly: by then no more than three times the square of the share has been covered; and so it ends. */
  lemma SmoothStartsSlowly(t: nat)
    requires t <= FULL
    ensures FULL * Smooth(t) <= 3 * (t * t)
    ensures FULL * (FULL - Smooth(FULL - t)) <= 3 * (t * t) + FULL
  {
    SmoothSumExpanded(t, t * t, t * t * t);
    SmoothSumGrows(0, t);
    SmoothMirrors(t, FULL - t);
  }

  /** _progress, for a move of time ms, elapsed ms after it started: the share of the way, in 1/1024 steps. */
  function Progress(elapsed: nat, time: uint16, profile: Profile): (t: nat)
    ensures t <= FULL && (t == FULL <==> elapsed >= time)
  {
    if elapsed >= time then FULL
    else
      ShareBelow(elapsed, time);
      var shifted: uint32 := elapsed * FULL;
      var t := shifted / time;
      if profile == Ease then Smooth(t) else t
  }

  lemma ShareBelow(elapsed: nat, time: nat)
    requires elapsed < time
    ensures 0 <= elapsed * FULL / time < FULL
    ensures elapsed * FULL / time * time <= elapsed * FULL
  {
    var t := elapsed * FULL / time;
    Quotient(elapsed * FULL, time);
    Times(elapsed + 1, time, FULL);
    NotAbove(t + 1, FULL, time);
    NotAbove(0, t, time);
  }

  lemma ProgressMonotone(early: nat, late: nat, time: uint16, profile: Profile)
    requires early <= late
    ensures Progress(early, time, profile) <= Progress(late, time, profile)
  {
    if late < time {
      ShareBelow(early, time);
      ShareBelow(late, time);
      QuotientMonotone(early * FULL, late * FULL, time);
      if profile == Ease {
        SmoothMonotone(early * FULL / time, late * FULL / time);
      }
    }
  }

  /** Where a move is at share t of the way. */
  function Position(start: int16, target: int16, t: nat): (r: int16)
    requires t <= FULL
    ensures Abs(r - start) == Covered(Abs(target - start), t)
    ensures if start <= target then start <= r <= target else target <= r <= start
  {
    CoveredBetween(Abs(target - start), t);
    if t == FULL then target
    else
      var distance := target - start;
      ProductFits(distance, t);
      var product: int32 := distance * t;
      start + TruncDiv(product, FULL)
  }

  /** Steps covered of a distance at share t of the way. */
  function Covered(distance: nat, t: nat): nat {
    distance * t / FULL
  }

  lemma ProductFits(distance: int, t: nat)
    requires t <= FULL && Abs(distance) < 0x1_0000
    ensures -0x8000_0000 <= distance * t < 0x8000_0000
    ensures Abs(TruncDiv(distance * t, FULL)) == Covered(Abs(distance), t)
    ensures if distance < 0 then TruncDiv(distance * t, FULL) <= 0 else TruncDiv(distance * t, FULL) >= 0
  {
    assert (-distance) * t == -(distance * t);
    Times(t, FULL, Abs(distance));
    Times(0, t, Abs(distance));
  }

  lemma CoveredBetween(distance: nat, t: nat)
    requires t <= FULL
    ensures Covered(distance, t) <= distance
    ensures Covered(distance, t) == distance <==> t == FULL || distance == 0
  {
    Times(t, FULL, distance);
    if t < FULL && 0 < distance {
      Times(t, FULL - 1, distance);
    }
  }

  lemma CoveredMonotone(distance: nat, t: nat, u: nat)
    requires t <= u
    ensures Covered(distance, t) <= Covered(distance, u)
  {
    Times(t, u, distance);
  }

  /** A linear move whose time is what the distance takes at the speed, rounded up, has never covered more than the
      speed gives: distance in 0.1 degrees, speed in degrees per second. */
  lemma NeverTooFast(distance: nat, speed: uint16, time: uint16, elapsed: nat)
    requires distance * 100 <= time * speed
    ensures Covered(distance, Progress(elapsed, time, Linear)) * 100 <= elapsed * speed
  {
    var t := Progress(elapsed, time, Linear);
    var c := Covered(distance, t);
    CoveredBetween(distance, t);
    if elapsed >= time {
      Times(time, elapsed, speed);
    } else {
      ShareBelow(elapsed, time);
      CoveredShare(distance, time, elapsed, t, c);
      Times(distance * 100, time * speed, elapsed);
      SwapFactors(c, time, distance, elapsed, speed);
      Cancel(c * 100, elapsed * speed, time);
    }
  }

  lemma CoveredShare(distance: nat, time: nat, elapsed: nat, t: nat, c: nat)
    requires t * time <= elapsed * FULL && c == distance * t / FULL
    ensures c * time <= distance * elapsed
  {
    Times(c * FULL, distance * t, time);
    Times(t * time, elapsed * FULL, distance);
    assert c * FULL * time == c * time * FULL;
    assert distance * t * time == t * time * distance;
    assert elapsed * FULL * distance == distance * elapsed * FULL;
  }

  lemma SwapFactors(c: nat, time: nat, distance: nat, elapsed: nat, speed: nat)
    requires c * time <= distance * elapsed && distance * 100 * elapsed <= time * speed * elapsed
    ensures c * 100 * time <= elapsed * speed * time
  {
    assert c * 100 * time == c * time * 100;
    assert distance * 100 * elapsed == distance * elapsed * 100;
    assert time * speed * elapsed == elapsed * speed * time;
  }

  /** The time of a move at a speed: the fewest milliseconds at which the speed is not passed. */
  function TimeAtSpeed(distance: nat, speed: uint16): (time: uint32)
    requires distance < 0x1_0000 && 0 < speed
    ensures distance * 100 <= time * speed
    ensures forall less: nat :: less < time ==> less * speed < distance * 100
  {
    var sum: uint32 := distance * 100 + speed - 1;
    QuotientBetween(sum, speed);
    RoundedUp(distance * 100, speed, sum / speed);
    sum / speed
  }

  lemma RoundedUp(a: nat, m: nat, q: nat)
    requires 0 < m && q == (a + m - 1) / m
    ensures a <= q * m
    ensures forall less: nat :: less < q ==> less * m < a
  {
    Quotient(a + m - 1, m);
    forall less: nat | less < q
      ensures less * m < a
    {
      Times(less + 1, q, m);
      NextMultiple(less, m);
    }
  }

  lemma QuotientBetween(a: nat, m: nat)
    requires 0 < m
    ensures 0 <= a / m <= a
  {
    Quotient(a, m);
    Times(1, m, a);
    NotAbove(a / m, a, m);
    NotAbove(0, a / m, m);
  }
}
