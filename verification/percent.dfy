/** Progress percentages: the ratio `(completed / total) * 100` the cards compute in
    floating point, here as an exact rational, and `Math.round` of it. */
module Percent {

  /** `Math.round`: the integer nearest to `x`, halves rounded up. */
  function RoundHalfUp(x: real): (r: int)
    ensures r as real <= x + 0.5 < r as real + 1.0
  {
    (x + 0.5).Floor
  }

  /** `total > 0 ? (completed / total) * 100 : 0`: the guarded progress ratio. */
  function Ratio(completed: nat, total: nat): (r: real)
    requires completed <= total
    ensures 0.0 <= r <= 100.0
    ensures r == 100.0 <==> total > 0 && completed == total
    ensures r == 0.0 <==> completed == 0
    ensures total > 0 ==> r * total as real == 100.0 * completed as real
  {
    if total > 0 then
      var q := completed as real / total as real;
      assert q * total as real == completed as real;
      assert q <= 1.0;
      q * 100.0
    else 0.0
  }

  /** Integer reference for the rounded percentage: round-half-up of 100·c/t, that is
      floor((200·c + t) / 2t), and 0 for an empty list. */
  function RoundedPercent(completed: nat, total: nat): (r: int)
    requires completed <= total
    ensures 0 <= r <= 100
    ensures total == 0 || completed == 0 ==> r == 0
    ensures total > 0 && completed == total ==> r == 100
  {
    if total == 0 then 0
    else
      var n := 200 * completed + total;
      assert n < 101 * (2 * total);
      var r := n / (2 * total);
      DivBelow(n, 2 * total, 101);
      if completed == 0 then
        DivIs(n, 2 * total, 0);
        r
      else if completed == total then
        DivIs(n, 2 * total, 100);
        r
      else r
  }

  lemma MulLeq(x: int, y: int, b: nat)
    requires x <= y
    ensures x * b <= y * b
  {
    assert (y - x) * b >= 0;
  }

  /** a / b < k when a < k * b. */
  lemma DivBelow(a: nat, b: nat, k: nat)
    requires b > 0 && a < k * b
    ensures a / b < k
  {
    var d := a / b;
    assert d * b + a % b == a;
    if d >= k {
      MulLeq(k, d, b);
    }
  }

  /** a / b == q when q * b <= a < (q + 1) * b. */
  lemma DivIs(a: nat, b: nat, q: nat)
    requires b > 0 && q * b <= a < (q + 1) * b
    ensures a / b == q
  {
    var d := a / b;
    assert d * b + a % b == a;
    if d > q {
      MulLeq(q + 1, d, b);
    } else if d < q {
      MulLeq(d + 1, q, b);
    }
  }

  /** The source's `Math.round((completed / total) * 100)` equals the integer reference. */
  lemma RoundedPercentIsRounding(completed: nat, total: nat)
    requires 0 < total && completed <= total
    ensures RoundHalfUp(Ratio(completed, total)) == RoundedPercent(completed, total)
  {
    var t := total as real;
    var x := Ratio(completed, total);
    var n := 200 * completed + total;
    var q := RoundedPercent(completed, total);
    assert q == n / (2 * total);
    assert q * (2 * total) + n % (2 * total) == n;
    HalfUpBounds(x, t, n as real, q);
    FloorUnique(x + 0.5, q);
  }

  /** With x·t = 100c and n = 200c + t: q·2t <= n < (q + 1)·2t puts x + 1/2 in [q, q + 1). */
  lemma HalfUpBounds(x: real, t: real, n: real, q: int)
    requires t > 0.0 && (x + 0.5) * (2.0 * t) == n
    requires q as real * (2.0 * t) <= n < (q as real + 1.0) * (2.0 * t)
    ensures q as real <= x + 0.5 < q as real + 1.0
  {
    var y := x + 0.5;
    if y < q as real {
      MulLtReal(y, q as real, 2.0 * t);
    }
    if y >= q as real + 1.0 {
      MulLeqReal(q as real + 1.0, y, 2.0 * t);
    }
  }

  lemma MulLtReal(a: real, b: real, c: real)
    requires a < b && c > 0.0
    ensures a * c < b * c
  {
    assert (b - a) * c > 0.0;
  }

  lemma MulLeqReal(a: real, b: real, c: real)
    requires a <= b && c > 0.0
    ensures a * c <= b * c
  {
    assert (b - a) * c >= 0.0;
  }

  /** The floor is the one integer with y in [q, q + 1). */
  lemma FloorUnique(y: real, q: int)
    requires q as real <= y < q as real + 1.0
    ensures y.Floor == q
  {
  }

  /** With fewer than 200 steps, a rounded 100 means every step is done. */
  lemma HundredMeansAllDone(completed: nat, total: nat)
    requires completed <= total
    ensures total < 200 && RoundedPercent(completed, total) == 100 ==> completed == total
  {
    if completed < total < 200 {
      var n := 200 * completed + total;
      assert n < 100 * (2 * total);
      DivBelow(n, 2 * total, 100);
    }
  }

  /** From 200 steps on, one incomplete step still rounds to 100: 199 of 200 is 99.5%. */
  lemma HundredWithOneStepLeft(completed: nat, total: nat)
    requires total >= 200 && completed == total - 1
    ensures RoundedPercent(completed, total) == 100
  {
    var n := 200 * completed + total;
    assert 100 * (2 * total) <= n < 101 * (2 * total);
    DivIs(n, 2 * total, 100);
  }
}
