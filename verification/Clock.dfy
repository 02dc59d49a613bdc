/** The 32-bit microsecond clock, that wraps about every 71 minutes, against absolute time. */
module Clock {
  import opened Words

  const WRAP: int := 0x1_0000_0000
  const HALF: int := 0x8000_0000

  /** What the clock shows at an absolute time. */
  function Stamp(t: int): uint32 {
    t % WRAP
  }

  /** Time left to a deadline, by the signed difference of two clock values, or 0 when it is over. */
  function Remain(end: uint32, now: uint32): uint32 {
    var diff := (end - now) % WRAP;
    if 0 < diff < HALF then diff else 0
  }

  lemma StampDifference(a: int, b: int)
    ensures (Stamp(a) - Stamp(b)) % WRAP == (a - b) % WRAP
  {
  }

  lemma StampSum(t: int, d: int)
    ensures (Stamp(t) + d) % WRAP == Stamp(t + d)
  {
  }

  /** Across any number of wraps, as long as the deadline is less than half a lap away, or over for no longer. */
  lemma RemainExact(end: int, now: int)
    requires -HALF <= end - now < HALF
    ensures Remain(Stamp(end), Stamp(now)) == if end > now then end - now else 0
  {
    StampDifference(end, now);
    var d := end - now;
    if d >= 0 {
      assert d % WRAP == d;
    } else {
      assert d % WRAP == d + WRAP;
    }
  }
}
