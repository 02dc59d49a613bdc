/** How far a move of source/actuator/pif_servo.c has got by any time, in plain arithmetic: the share of the way that
    its profile has for the share of the time, up to the steps that are lost in rounding down. */
module ServoCurves {
  import opened Options
  import opened Words
  import opened ServoMath
  import opened ServoSpec

  // ---------------------------------------------------------------- the arithmetic

  /** The parts of a division by whole steps. */
  lemma Floor(a: nat, m: nat, q: nat)
    requires m > 0 && q == a / m
    ensures q * m <= a <= q * m + m - 1
  {
    Quotient(a, m);
  }

  lemma TimesUp(a: int, b: int, c: nat)
    requires a <= b
    ensures a * c <= b * c && c * a <= c * b
  {
    Times(a, b, c);
  }

  lemma Factors(k: int, a: int, b: int)
    ensures (k * a) * b == k * (a * b) == a * (k * b)
  {
  }

  lemma Distributes(a: int, b: int, c: int)
    ensures a * (b + c) == a * b + a * c && (b + c) * a == b * a + c * a
    ensures a * (b - c) == a * b - a * c && (b - c) * a == b * a - c * a
  {
  }

  /** With a share of t of the time in 1024 steps, and d of the distance for that share. */
  lemma LinearShare(distance: nat, elapsed: nat, time: nat, t: nat, d: nat)
    requires t * time <= 1024 * elapsed <= t * time + time - 1
    requires d * 1024 <= distance * t <= d * 1024 + 1023
    ensures d * time <= distance * elapsed
    ensures 1024 * (distance * elapsed) <= time * (1024 * d + 1023 + distance)
  {
    TimesUp(d * 1024, distance * t, time);
    TimesUp(t * time, 1024 * elapsed, distance);
    Factors(distance, t, time);
    Factors(1024, d, time);
    Factors(1024, distance, elapsed);
    TimesUp(distance * t, d * 1024 + 1023, time);
    TimesUp(1024 * elapsed, t * time + time, distance);
    Distributes(distance, t * time, time);
    Distributes(time, d * 1024 + 1023, distance);
  }

  /** 3x^2 - 2x^3 for x on a scale up to s, times its cube. */
  function Cubic(x: int, s: int): int {
    x * x * (3 * s - 2 * x)
  }

  lemma CubicParts(x: int, s: int, square: int)
    requires square == x * x
    ensures Cubic(x, s) == 3 * (s * square) - 2 * (x * square)
  {
    Distributes(square, 3 * s, 2 * x);
    Factors(3, s, square);
    Factors(2, x, square);
  }

  lemma CubicSlope(a: int, b: int, s: int)
    ensures Cubic(b, s) - Cubic(a, s) == (b - a) * (3 * s * (a + b) - 2 * (a * a + a * b + b * b))
  {
    hide Cubic;
    var aa, ab, bb := a * a, a * b, b * b;
    CubicParts(a, s, aa);
    CubicParts(b, s, bb);
    Distributes(b - a, 3 * s * (a + b), 2 * (aa + ab + bb));
    SlopeSquares(a, b, s, bb - aa);
    SlopeCubes(a, b, aa, ab, bb);
    Distributes(s, bb, aa);
  }

  lemma SlopeSquares(a: int, b: int, s: int, d: int)
    requires d == b * b - a * a
    ensures (b - a) * (3 * s * (a + b)) == 3 * (s * d)
  {
    assert (b - a) * (a + b) == d;
    Factors(3 * s, b - a, a + b);
    Factors(3, s, d);
  }

  lemma SlopeCubes(a: int, b: int, aa: int, ab: int, bb: int)
    requires aa == a * a && ab == a * b && bb == b * b
    ensures (b - a) * (2 * (aa + ab + bb)) == 2 * (b * bb) - 2 * (a * aa)
  {
    Factors(2, b - a, aa + ab + bb);
    Distributes(aa + ab + bb, b, a);
    Distributes(b, aa + ab, bb);
    Distributes(b, aa, ab);
    Distributes(a, aa, ab + bb);
    Distributes(a, ab, bb);
    assert b * aa == a * ab && b * ab == a * bb;
  }

  /** It rises, by no more than three halves of the way. */
  lemma CubicBounds(a: nat, b: nat, s: nat)
    requires a <= b <= s
    ensures Cubic(a, s) <= Cubic(b, s)
    ensures 2 * Cubic(b, s) <= 2 * Cubic(a, s) + 3 * (s * s) * (b - a)
  {
    var slope := 3 * s * (a + b) - 2 * (a * a + a * b + b * b);
    CubicSlope(a, b, s);
    SlopeBounds(a, b, s, slope);
    TimesUp(0, slope, b - a);
    TimesUp(2 * slope, 3 * (s * s), b - a);
    assert (b - a) * (2 * slope) == 2 * ((b - a) * slope);
  }

  lemma SlopeBounds(a: nat, b: nat, s: nat, slope: int)
    requires a <= b <= s && slope == 3 * s * (a + b) - 2 * (a * a + a * b + b * b)
    ensures 0 <= slope && 2 * slope <= 3 * (s * s)
  {
    TimesUp(a, s, a);
    TimesUp(b, s, b);
    TimesUp(b, s, a);
    TimesUp(a, s, b);
    var gap, spread := s - (a + b), a - b;
    assert gap * gap >= 0 && spread * spread >= 0;
    assert gap * gap == s * s - 2 * (s * (a + b)) + (a + b) * (a + b);
    assert spread * spread == a * a - 2 * (a * b) + b * b;
    assert (a + b) * (a + b) == a * a + 2 * (a * b) + b * b;
    assert 3 * s * (a + b) == 3 * (s * (a + b)) && s * (a + b) == s * a + s * b;
  }

  lemma CubicScaled(x: nat, s: nat, k: nat)
    ensures Cubic(k * x, k * s) == k * k * k * Cubic(x, s)
  {
    var kk := k * k;
    assert (k * x) * (k * x) == kk * (x * x);
    assert 3 * (k * s) - 2 * (k * x) == k * (3 * s - 2 * x);
    assert kk * (x * x) * (k * (3 * s - 2 * x)) == kk * k * (x * x * (3 * s - 2 * x));
  }

  lemma ScaledSquare(time: nat, cube: nat)
    requires cube == time * time * time
    ensures 3 * ((1024 * time) * (1024 * time)) * time == 0x30_0000 * cube
  {
    var square := time * time;
    assert (1024 * time) * (1024 * time) == 0x10_0000 * square;
    assert 3 * (0x10_0000 * square) * time == 0x30_0000 * (square * time);
  }

  lemma ScaledCubics(elapsed: nat, time: nat, t: nat, cube: nat)
    requires cube == time * time * time
    ensures Cubic(t * time, 1024 * time) == cube * SmoothSum(t)
    ensures Cubic(1024 * elapsed, 1024 * time) == 0x4000_0000 * Cubic(elapsed, time)
  {
    CubicScaled(t, 1024, time);
    CubicScaled(elapsed, time, 1024);
    assert t * time == time * t && 1024 * time == time * 1024;
    assert Cubic(t, 1024) == SmoothSum(t);
  }

  /** With a share of t of the time in 1024 steps. */
  lemma EasedSum(elapsed: nat, time: nat, t: nat, cube: nat)
    requires t * time <= 1024 * elapsed <= t * time + time - 1 && elapsed <= time && cube == time * time * time
    ensures cube * SmoothSum(t) <= 0x4000_0000 * Cubic(elapsed, time)
    ensures 0x8000_0000 * Cubic(elapsed, time) <= 2 * (cube * SmoothSum(t)) + 0x30_0000 * cube
  {
    hide Cubic, SmoothSum;
    var a, b, scale := t * time, 1024 * elapsed, 1024 * time;
    CubicBounds(a, b, scale);
    ScaledCubics(elapsed, time, t, cube);
    ScaledSquare(time, cube);
    assert 0 <= scale * scale;
    TimesUp(b - a, time, 3 * (scale * scale));
  }

  /** And with the share s of the way for it. */
  lemma EasedShare(sum: nat, cubic: int, s: nat, cube: nat)
    requires s * 0x10_0000 <= sum <= s * 0x10_0000 + 0xF_FFFF
    requires cube * sum <= 0x4000_0000 * cubic && 0x8000_0000 * cubic <= 2 * (cube * sum) + 0x30_0000 * cube
    ensures cube * s <= 1024 * cubic && 2048 * cubic <= cube * (2 * s + 5)
  {
    TimesUp(s * 0x10_0000, sum, cube);
    TimesUp(sum, s * 0x10_0000 + 0xF_FFFF, cube);
    assert cube * (s * 0x10_0000) == 0x10_0000 * (cube * s);
    assert cube * (s * 0x10_0000 + 0xF_FFFF) == 0x10_0000 * (cube * s) + 0xF_FFFF * cube;
    assert cube * (2 * s + 5) == 2 * (cube * s) + 5 * cube;
  }

  lemma EasedWay(distance: nat, cubic: nat, cube: nat, s: nat, d: nat)
    requires cube * s <= 1024 * cubic && 2048 * cubic <= cube * (2 * s + 5)
    requires d * 1024 <= distance * s <= d * 1024 + 1023
    ensures d * cube <= distance * cubic
    ensures 2048 * (distance * cubic) <= cube * (2048 * d + 2046 + 5 * distance)
  {
    TimesUp(d * 1024, distance * s, cube);
    TimesUp(cube * s, 1024 * cubic, distance);
    assert distance * s * cube == distance * (cube * s);
    assert distance * (1024 * cubic) == 1024 * (distance * cubic);
    assert d * 1024 * cube == 1024 * (d * cube);
    TimesUp(2048 * cubic, cube * (2 * s + 5), distance);
    assert distance * (2048 * cubic) == 2048 * (distance * cubic);
    assert distance * (cube * (2 * s + 5)) == cube * (2 * (distance * s) + 5 * distance);
    TimesUp(2 * (distance * s) + 5 * distance, 2048 * d + 2046 + 5 * distance, cube);
  }

  // ---------------------------------------------------------------- moves

  /** The way a move has made at t. */
  function Way(m: Move, t: int): (d: nat)
    requires m.at <= t
  {
    Abs(AngleAt(m, t) - m.start)
  }

  /** A move of any profile goes from its start to its target without turning, and in the end is there. */
  lemma WayIsTowards(m: Move, t: int)
    requires m.at <= t
    ensures AngleAt(m, t) == if m.start <= m.target then m.start + Way(m, t) else m.start - Way(m, t)
    ensures (t - m.at) / 1000 >= m.time ==> Way(m, t) == Abs(m.target - m.start)
  {
    MoveIsMonotone(m, t, t);
  }

  lemma WayIsShare(m: Move, t: int, share: nat)
    requires m.at <= t && share == Progress((t - m.at) / 1000, m.time, m.profile)
    ensures Way(m, t) * 1024 <= Abs(m.target - m.start) * share <= Way(m, t) * 1024 + 1023
  {
    hide Progress;
    var distance := Abs(m.target - m.start);
    assert Way(m, t) == Covered(distance, share);
    Floor(distance * share, FULL, Covered(distance, share));
  }

  /** The share of the time, and of the way, in 1024 steps. */
  lemma LinearProgress(e: nat, time: uint16) returns (share: nat)
    requires e < time
    ensures share == Progress(e, time, Linear) && share * time <= 1024 * e <= share * time + time - 1
  {
    share := Progress(e, time, Linear);
    Floor(e * 1024, time, share);
  }

  /** Main result for a linear move: until its time has passed it has made the share of the way that has passed of the
      time, but for less than 1/1024 of the way and one step: never more, and no less. */
  lemma LinearMove(m: Move, t: int)
    requires m.at <= t && m.profile == Linear && (t - m.at) / 1000 < m.time
    ensures var e, distance := (t - m.at) / 1000, Abs(m.target - m.start);
            && Way(m, t) * m.time <= distance * e
            && 1024 * (distance * e) <= m.time * (1024 * Way(m, t) + 1023 + distance)
  {
    var e := (t - m.at) / 1000;
    var share := LinearProgress(e, m.time);
    WayIsShare(m, t, share);
    LinearShare(Abs(m.target - m.start), e, m.time, share, Way(m, t));
  }

  /** Main result for an eased move: for the share x of its time it has made the share 3x^2 - 2x^3 of the way, but for
      less than 5/2048 of it and one step: never more, and no less. */
  lemma EasedMove(m: Move, t: int)
    requires m.at <= t && m.profile == Ease && (t - m.at) / 1000 < m.time
    ensures var e, distance, cube := (t - m.at) / 1000, Abs(m.target - m.start), m.time * m.time * m.time;
            && Way(m, t) * cube <= distance * (e * e * (3 * m.time - 2 * e))
            && 2048 * (distance * (e * e * (3 * m.time - 2 * e))) <= cube * (2048 * Way(m, t) + 2046 + 5 * distance)
  {
    hide Cubic, SmoothSum, Progress;
    var e, distance, cube := (t - m.at) / 1000, Abs(m.target - m.start), m.time * m.time * m.time;
    var step, share := EasedProgress(e, m.time);
    EasedSum(e, m.time, step, cube);
    EasedShare(SmoothSum(step), Cubic(e, m.time), share, cube);
    WayIsShare(m, t, share);
    CubicIs(e, m.time);
    EasedWay(distance, Cubic(e, m.time), cube, share, Way(m, t));
  }

  lemma CubicIs(e: nat, time: nat)
    requires e <= time
    ensures Cubic(e, time) == e * e * (3 * time - 2 * e) >= 0
  {
    assert e * e >= 0;
  }

  /** The share of the time in 1024 steps, and the share of the way for it. */
  lemma EasedProgress(e: nat, time: uint16) returns (step: nat, share: nat)
    requires e < time
    ensures share == Progress(e, time, Ease) && step * time <= 1024 * e <= step * time + time - 1
    ensures share * 0x10_0000 <= SmoothSum(step) <= share * 0x10_0000 + 0xF_FFFF
  {
    hide SmoothSum;
    step := e * 1024 / time;
    ShareBelow(e, time);
    Floor(e * 1024, time, step);
    share := Smooth(step);
    SmoothSumGrows(0, step);
    NoSum();
    Floor(SmoothSum(step), 0x10_0000, share);
  }

  lemma NoSum()
    ensures SmoothSum(0) == 0
  {
  }

  /** An update puts the channel there, with the pulse of that angle, and ends the move exactly when its time has
      passed. */
  lemma UpdateFollows(c: Channel, t: int)
    requires Sane(c) && Begun(c, t) && c.move.Some?
    ensures var m, r := c.move.value, Update(c, t);
            && r.angle == (if m.start <= m.target then m.start + Way(m, t) else m.start - Way(m, t))
            && r.pulse == c.range.AngleToPulse(r.angle)
            && (r.move == None <==> t - m.at >= m.time * 1000) && (r.move.Some? ==> r.move == c.move)
  {
    WayIsTowards(c.move.value, t);
  }
}
