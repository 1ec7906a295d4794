/** `Math.round(completed / total * 100)` in exact integer arithmetic, and the
    `total ? ... : 0` guard around it that both the server summary and the profile
    page use. */
module Percent {

  /** The integer nearest to 100 * c / t, halves rounded up (Math.round). */
  function RoundedPercent(c: nat, t: nat): (p: nat)
    requires t > 0
    ensures 2 * t * p <= 200 * c + t < 2 * t * (p + 1)
  {
    var num := 200 * c + t;
    var q := num / (2 * t);
    assert num == (2 * t) * q + num % (2 * t);
    q
  }

  /** `t ? Math.round(c / t * 100) : 0` */
  function PercentOrZero(c: nat, t: nat): nat
  {
    if t == 0 then 0 else RoundedPercent(c, t)
  }

  /** A completed count within the total gives a percent within 0..100. */
  lemma PercentBounded(c: nat, t: nat)
    requires c <= t
    ensures PercentOrZero(c, t) <= 100
  {
    if t > 0 {
      var p := RoundedPercent(c, t);
      assert 2 * t * p <= 200 * c + t <= 200 * t + t;
      if p > 100 {
        assert 2 * t * p >= 2 * t * 101 by { MulMono(2 * t, 101, p); }
      }
    }
  }

  /** Everything completed is 100 percent, nothing completed is 0 percent. */
  lemma PercentEnds(t: nat)
    requires t > 0
    ensures RoundedPercent(t, t) == 100 && RoundedPercent(0, t) == 0
  {
    var p := RoundedPercent(t, t);
    if p > 100 { MulMono(2 * t, 101, p); }
    if p < 100 { MulMono(2 * t, p + 1, 100); }
    var z := RoundedPercent(0, t);
    if z > 0 { MulMono(2 * t, 1, z); }
  }

  /** More completed verses never give a lower percent. */
  lemma PercentMonotone(c1: nat, c2: nat, t: nat)
    requires c1 <= c2 && t > 0
    ensures RoundedPercent(c1, t) <= RoundedPercent(c2, t)
  {
    var p1 := RoundedPercent(c1, t);
    var p2 := RoundedPercent(c2, t);
    if p1 > p2 {
      MulMono(2 * t, p2 + 1, p1);
    }
  }

  lemma MulMono(k: nat, a: nat, b: nat)
    requires a <= b
    ensures k * a <= k * b
  {
  }
}
