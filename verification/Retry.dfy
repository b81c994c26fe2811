/** How many attempts of a capped exponential back-off fill a given time. Durations are real seconds. */
module Retry {
  const U32_MAX: nat := 0xffff_ffff

  function Ceil(x: real): (n: int)
    ensures n as real - 1.0 < x <= n as real
  {
    -((-x).Floor)
  }

  /** The conversion to `u32`, which saturates. */
  function ToU32(n: int): (r: nat)
    ensures r <= U32_MAX
  {
    if n < 0 then 0 else if n > U32_MAX then U32_MAX else n
  }

  /** The delay after n doublings. */
  function Doubled(start: real, n: nat): real {
    if n == 0 then start else 2.0 * Doubled(start, n - 1)
  }

  /** The greatest integer not above the binary logarithm. */
  function FloorLog2(x: real): int
    requires x > 0.0
  {
    if x >= 1.0 then Doublings(x) else 0 - Halvings(x)
  }

  /** How often one can be doubled without going above x. */
  function Doublings(x: real): (n: nat)
    requires x >= 1.0
    ensures Doubled(1.0, n) <= x < Doubled(1.0, n + 1)
    decreases x.Floor
  {
    if x < 2.0 then 0
    else
      assert x / 2.0 < x && (x / 2.0).Floor < x.Floor by { HalfIsBelow(x); }
      1 + Doublings(x / 2.0)
  }

  /** How often x has to be doubled to reach one. */
  function Halvings(x: real): (k: nat)
    requires 0.0 < x < 1.0
    ensures k >= 1 && Doubled(x, k - 1) < 1.0 <= Doubled(x, k)
    decreases (1.0 / x).Floor
  {
    if 2.0 * x >= 1.0 then 1
    else
      assert (1.0 / (2.0 * x)).Floor < (1.0 / x).Floor by { HalfOfInverse(x); }
      DoubledTwice(x, Halvings(2.0 * x));
      DoubledTwice(x, Halvings(2.0 * x) - 1);
      1 + Halvings(2.0 * x)
  }

  lemma HalfIsBelow(x: real)
    requires x >= 2.0
    ensures (x / 2.0).Floor < x.Floor
  {
  }

  lemma HalfOfInverse(x: real)
    requires 0.0 < x < 0.5
    ensures (1.0 / (2.0 * x)).Floor < (1.0 / x).Floor
  {
    var y, z := 1.0 / x, 1.0 / (2.0 * x);
    assert y * x == 1.0 && z * (2.0 * x) == 1.0;
    assert x * (2.0 * z) == x * y;
    if 2.0 * z < y {
      ScaleStrictly(x, 2.0 * z, y);
    } else if y < 2.0 * z {
      ScaleStrictly(x, y, 2.0 * z);
    }
    if y < 2.0 {
      ScaleStrictly(x, y, 2.0);
    }
    HalfIsBelow(y);
  }

  lemma {:induction false} DoubledTwice(x: real, n: nat)
    ensures Doubled(2.0 * x, n) == Doubled(x, n + 1)
  {
    if n > 0 {
      DoubledTwice(x, n - 1);
    }
  }

  function Power2(n: int): real {
    if n >= 0 then Doubled(1.0, n) else OneOver(-n)
  }

  function OneOver(n: nat): real {
    if n == 0 then 1.0 else OneOver(n - 1) / 2.0
  }

  /**
   * The number of attempts for a factor of two. Where the logarithm is that of zero, of a negative number or of an
   * infinite one, what is converted at the end is no number or below all numbers, and becomes zero.
   */
  function CalculateTimes(start: real, maximum: real, total: real): nat
    requires 0.0 <= start && 0.0 <= maximum
  {
    if start == 0.0 || maximum <= start then 0
    else ToU32(Steps(start, maximum, total, SaturationSteps(start, maximum)))
  }

  function SaturationSteps(start: real, maximum: real): int
    requires 0.0 < start < maximum
  {
    RatioPositive(start, maximum);
    FloorLog2((maximum - start) / start)
  }

  /** A sum of a geometric series. */
  function TimeToSaturate(start: real, steps: int): real {
    start * (1.0 - Power2(steps)) / (1.0 - 2.0)
  }

  function Steps(start: real, maximum: real, total: real, saturationSteps: int): int
    requires maximum > 0.0
  {
    Ceil((total - TimeToSaturate(start, saturationSteps)) / maximum + saturationSteps as real)
  }

  lemma RatioPositive(start: real, maximum: real)
    requires 0.0 < start < maximum
    ensures (maximum - start) / start > 0.0
    ensures (maximum - start) / start * start == maximum - start
  {
  }

  /** The delays of the back-off, each capped, summed over some attempts. */
  function TotalDelay(start: real, maximum: real, times: nat): real {
    if times == 0 then 0.0
    else TotalDelay(start, maximum, times - 1) + Capped(Doubled(start, times - 1), maximum)
  }

  function Capped(delay: real, maximum: real): real {
    if delay <= maximum then delay else maximum
  }

  lemma RatioAtLeastOne(start: real, maximum: real)
    requires 0.0 < start && 2.0 * start <= maximum
    ensures (maximum - start) / start >= 1.0
  {
    var q := (maximum - start) / start;
    assert q * start == maximum - start;
    if q < 1.0 {
      ScaleStrictly(start, q, 1.0);
    }
  }

  lemma {:induction false} DoubledScales(start: real, n: nat)
    ensures Doubled(start, n) == start * Doubled(1.0, n)
  {
    if n > 0 {
      DoubledScales(start, n - 1);
    }
  }

  lemma {:induction false} DoubledGrows(start: real, n: nat, m: nat)
    requires start > 0.0 && n <= m
    ensures 0.0 < Doubled(start, n) <= Doubled(start, m)
  {
    if n < m {
      DoubledGrows(start, n, m - 1);
    } else if n > 0 {
      DoubledGrows(start, n - 1, n - 1);
    }
  }

  /** The step before saturation: after it the delay is above half of the room below the cap. */
  lemma Saturation(start: real, maximum: real) returns (n: nat)
    requires 0.0 < start && 2.0 * start <= maximum
    ensures n == SaturationSteps(start, maximum)
    ensures Doubled(start, n) <= maximum - start < 2.0 * Doubled(start, n)
    ensures TimeToSaturate(start, n) == Doubled(start, n) - start
  {
    RatioAtLeastOne(start, maximum);
    var ratio := (maximum - start) / start;
    n := Doublings(ratio);
    var power := Doubled(1.0, n);
    DoubledScales(start, n);
    assert Doubled(1.0, n + 1) == 2.0 * power;
    SaturationBounds(start, maximum - start, ratio, power, Doubled(start, n));
    Distribute(start, power);
  }

  lemma SaturationBounds(start: real, room: real, ratio: real, power: real, delay: real)
    requires start > 0.0 && ratio == room / start && delay == start * power
    requires power <= ratio < 2.0 * power
    ensures delay <= room < 2.0 * delay
  {
    assert ratio * start == room;
    Scale(start, power, ratio);
    ScaleStrictly(start, ratio, 2.0 * power);
  }

  lemma Distribute(s: real, a: real)
    ensures s * (1.0 - a) == s - s * a
  {
  }

  lemma Scale(s: real, a: real, b: real)
    requires s > 0.0 && a <= b
    ensures s * a <= s * b
  {
  }

  lemma ScaleStrictly(s: real, a: real, b: real)
    requires s > 0.0 && a < b
    ensures s * a < s * b
  {
  }

  /** Uncapped delays sum up to the next delay less the first. */
  lemma {:induction false} DelaysBeforeCap(start: real, maximum: real, times: nat)
    requires start > 0.0 && (times > 0 ==> Doubled(start, times - 1) <= maximum)
    ensures TotalDelay(start, maximum, times) == Doubled(start, times) - start
  {
    if times > 1 {
      DoubledGrows(start, times - 2, times - 1);
    }
    if times > 0 {
      DelaysBeforeCap(start, maximum, times - 1);
    }
  }

  /** x, n times. */
  function Multiple(x: real, n: nat): real {
    if n == 0 then 0.0 else Multiple(x, n - 1) + x
  }

  lemma {:induction false} MultipleIsProduct(x: real, n: nat)
    ensures Multiple(x, n) == n as real * x
  {
    if n > 0 {
      MultipleIsProduct(x, n - 1);
      assert n as real * x == (n - 1) as real * x + x;
    }
  }

  /** Capped delays grow by the cap. */
  lemma {:induction false} DelaysAfterCap(start: real, maximum: real, from: nat, times: nat)
    requires start > 0.0 && from <= times && maximum <= Doubled(start, from)
    ensures TotalDelay(start, maximum, times) == TotalDelay(start, maximum, from) + Multiple(maximum, times - from)
  {
    if from < times {
      DoubledGrows(start, from, times - 1);
      DelaysAfterCap(start, maximum, from, times - 1);
    }
  }

  /** The whole delay of the saturation steps and d more, when d more are needed. */
  lemma DelaysAroundCap(start: real, maximum: real, n: nat, d: nat)
    requires 0.0 < start && 2.0 * start <= maximum
    requires Doubled(start, n) <= maximum - start < 2.0 * Doubled(start, n)
    ensures d == 0 ==> TotalDelay(start, maximum, n + d) == Doubled(start, n) - start
    ensures d >= 1 ==> var excess := TotalDelay(start, maximum, n + d) - (2.0 * Doubled(start, n) - start + Multiple(maximum, d - 1));
                       -start <= excess <= 0.0 && (maximum <= 2.0 * Doubled(start, n) ==> excess == 0.0)
  {
    if n > 0 {
      DoubledGrows(start, n - 1, n);
    }
    DelaysBeforeCap(start, maximum, n);
    if d >= 1 {
      DelaysBeforeCap(start, maximum, n + 1);
      assert Doubled(start, n + 1) == 2.0 * Doubled(start, n);
      if maximum <= Doubled(start, n + 1) {
        DelaysAfterCap(start, maximum, n + 1, n + d);
      } else if d >= 2 {
        assert Doubled(start, n + 2) == 2.0 * Doubled(start, n + 1);
        DelaysAfterCap(start, maximum, n + 2, n + d);
      }
    }
  }

  // ---- the budget ----

  /** The attempts beyond saturation cover the remaining time, with less than one to spare. */
  lemma StepsBeyondSaturation(remaining: real, maximum: real, n: int) returns (d: nat)
    requires 0.0 <= remaining && 0.0 < maximum
    ensures Ceil(remaining / maximum + n as real) == n + d
    ensures Multiple(maximum, d) - maximum < remaining <= Multiple(maximum, d)
  {
    var q := remaining / maximum;
    assert q * maximum == remaining;
    if q < 0.0 {
      ScaleStrictly(maximum, q, 0.0);
    }
    d := Ceil(q);
    MultipleIsProduct(maximum, d);
    Scale(maximum, q, d as real);
    ScaleStrictly(maximum, d as real - 1.0, q);
    assert maximum * (d as real - 1.0) == d as real * maximum - maximum;
    assert Ceil(q + n as real) == d + n;
  }

  /**
   * The delays of the calculated attempts add up to the given time: less by at most half of start and cap and
   * a start, more by less than a cap.
   */
  ghost predicate FillsTheTime(start: real, maximum: real, total: real)
    requires 0.0 <= start && 0.0 <= maximum
  {
    var sum := TotalDelay(start, maximum, CalculateTimes(start, maximum, total));
    total - (maximum + start) / 2.0 - start < sum < total + maximum
  }

  /** A time of at least the steps before saturation, whose number of attempts fits. */
  predicate IsCovered(start: real, maximum: real, total: real)
    requires 0.0 <= start && 0.0 <= maximum
  {
    && 0.0 <= total && CalculateTimes(start, maximum, total) < U32_MAX
    && (0.0 < start < maximum ==> TimeToSaturate(start, SaturationSteps(start, maximum)) <= total)
  }

  /** The caps for which the formula is good. */
  predicate IsGoodCap(start: real, maximum: real) {
    0.0 < start && (3.0 * start <= 2.0 * maximum || (5.0 * start <= 4.0 * maximum && 10.0 * maximum < 13.0 * start))
  }

  /** The calculated attempts fill every time that they are to cover, if and only if the cap is a good one. */
  lemma FillsTheTimeExactly(start: real, maximum: real)
    requires 0.0 <= start && 0.0 <= maximum
    ensures IsGoodCap(start, maximum) <==>
              forall total :: IsCovered(start, maximum, total) ==> FillsTheTime(start, maximum, total)
  {
    if IsGoodCap(start, maximum) {
      forall total | IsCovered(start, maximum, total)
        ensures FillsTheTime(start, maximum, total)
      {
        if 2.0 * start <= maximum {
          DelaysFillTheTime(start, maximum, total);
        } else {
          LowCapFills(start, maximum, total);
        }
      }
    } else {
      var total := BadCapFails(start, maximum);
    }
  }

  lemma DelaysFillTheTime(start: real, maximum: real, total: real)
    requires 0.0 < start && 2.0 * start <= maximum && IsCovered(start, maximum, total)
    ensures FillsTheTime(start, maximum, total)
  {
    var n := Saturation(start, maximum);
    var d := StepsBeyondSaturation(total - TimeToSaturate(start, n), maximum, n);
    assert Steps(start, maximum, total, n) == n + d;
    DelaysAroundCap(start, maximum, n, d);
    if d >= 1 {
      assert Multiple(maximum, d) == Multiple(maximum, d - 1) + maximum;
    }
  }

  // ---- caps below twice the start ----

  /** The logarithm is negative, and the time to saturate with it. */
  lemma LowCap(start: real, maximum: real) returns (k: int)
    requires 0.0 < start < maximum < 2.0 * start
    ensures SaturationSteps(start, maximum) == -k && k >= 1
    ensures k == 1 <==> 3.0 * start <= 2.0 * maximum
    ensures k == 2 <==> 5.0 * start <= 4.0 * maximum && 2.0 * maximum < 3.0 * start
    ensures -start < TimeToSaturate(start, -k) < 0.0
    ensures k == 1 ==> TimeToSaturate(start, -k) == -0.5 * start
    ensures k == 2 ==> TimeToSaturate(start, -k) == -0.75 * start
  {
    RatioPositive(start, maximum);
    var ratio := (maximum - start) / start;
    RatioAgainst(start, maximum, ratio, 1.0);
    k := Halvings(ratio);
    OneOverBounds(k);
    RatioAgainst(start, maximum, ratio, 0.5);
    RatioAgainst(start, maximum, ratio, 0.25);
    assert Doubled(ratio, 0) == ratio && Doubled(ratio, 1) == 2.0 * ratio && Doubled(ratio, 2) == 4.0 * ratio;
    if k >= 3 {
      DoubledGrows(ratio, 2, k - 1);
    }
    var power := OneOver(k);
    assert Power2(-k) == power;
    NegativeTime(start, power, TimeToSaturate(start, -k));
    assert OneOver(1) == 0.5 && OneOver(2) == 0.25;
  }

  lemma NegativeTime(start: real, power: real, time: real)
    requires 0.0 < start && 0.0 < power < 1.0 && time == start * (1.0 - power) / (1.0 - 2.0)
    ensures -start < time < 0.0
  {
    var part := start * (1.0 - power);
    ScaleStrictly(start, 0.0, 1.0 - power);
    ScaleStrictly(start, 1.0 - power, 1.0);
    assert part / (1.0 - 2.0) == -part;
  }

  lemma RatioAgainst(start: real, maximum: real, ratio: real, part: real)
    requires 0.0 < start && ratio * start == maximum - start
    ensures ratio >= part <==> maximum - start >= start * part
  {
    if ratio >= part {
      Scale(start, part, ratio);
    } else {
      ScaleStrictly(start, ratio, part);
    }
  }

  lemma {:induction false} OneOverBounds(n: nat)
    requires n >= 1
    ensures 0.0 < OneOver(n) < 1.0
  {
    if n > 1 {
      OneOverBounds(n - 1);
    }
  }

  /** Every delay but the first is the cap. */
  lemma LowCapDelays(start: real, maximum: real, times: nat)
    requires 0.0 < start < maximum < 2.0 * start && times >= 1
    ensures TotalDelay(start, maximum, times) == start + Multiple(maximum, times - 1)
  {
    assert TotalDelay(start, maximum, 1) == start;
    assert Doubled(start, 1) == 2.0 * start;
    DelaysAfterCap(start, maximum, 1, times);
  }

  lemma LowCapFills(start: real, maximum: real, total: real)
    requires IsGoodCap(start, maximum) && 0.0 <= maximum < 2.0 * start && IsCovered(start, maximum, total)
    ensures FillsTheTime(start, maximum, total)
  {
    var k := LowCap(start, maximum);
    var d := StepsBeyondSaturation(total - TimeToSaturate(start, -k), maximum, -k);
    assert Steps(start, maximum, total, -k) == d - k;
    if d > k {
      LowCapDelays(start, maximum, d - k);
      assert Multiple(maximum, d - 1) + maximum == Multiple(maximum, d);
      assert d >= 2 ==> Multiple(maximum, d - 2) + maximum == Multiple(maximum, d - 1);
      assert d >= 3 ==> Multiple(maximum, d - 3) + maximum == Multiple(maximum, d - 2);
    } else {
      assert Multiple(maximum, 0) == 0.0 && Multiple(maximum, 1) == maximum && Multiple(maximum, 2) == 2.0 * maximum;
      assert d == 0 || d == 1 || d == 2;
    }
  }

  /** With any other cap some time is not filled: a long one without attempts, or one with a single attempt. */
  lemma BadCapFails(start: real, maximum: real) returns (total: real)
    requires 0.0 <= start && 0.0 <= maximum && !IsGoodCap(start, maximum)
    ensures IsCovered(start, maximum, total) && !FillsTheTime(start, maximum, total)
  {
    if start == 0.0 || maximum <= start {
      total := maximum + 2.0 * start;
    } else {
      var k := LowCap(start, maximum);
      total := TimeToSaturate(start, -k) + Multiple(maximum, k + 1);
      FewMultiples(maximum);
      if k >= 3 {
        MultipleGrows(maximum, 4, k + 1);
      }
      var d := StepsBeyondSaturation(total - TimeToSaturate(start, -k), maximum, -k);
      SameMultiple(maximum, d, k + 1);
      assert Steps(start, maximum, total, -k) == 1;
      LowCapDelays(start, maximum, 1);
    }
  }

  lemma FewMultiples(x: real)
    ensures Multiple(x, 1) == x && Multiple(x, 2) == 2.0 * x && Multiple(x, 3) == 3.0 * x && Multiple(x, 4) == 4.0 * x
  {
    assert Multiple(x, 0) == 0.0;
    assert Multiple(x, 1) == x;
    assert Multiple(x, 2) == x + x;
    assert Multiple(x, 3) == x + x + x;
  }

  lemma {:induction false} MultipleGrows(x: real, n: nat, m: nat)
    requires x > 0.0 && n <= m
    ensures Multiple(x, n) <= Multiple(x, m) && (n < m ==> Multiple(x, n) + x <= Multiple(x, m))
  {
    if n < m {
      MultipleGrows(x, n, m - 1);
    }
  }

  lemma SameMultiple(x: real, d: nat, e: nat)
    requires x > 0.0 && Multiple(x, d) - x < Multiple(x, e) <= Multiple(x, d)
    ensures d == e
  {
    if d < e {
      MultipleGrows(x, d, e);
    } else if e < d {
      MultipleGrows(x, e, d);
    }
  }

  /** The configuration that all requests share: from one second, up to ten minutes. */
  lemma DefaultDelaysFillTheTime(total: real)
    requires 0.0 <= total && CalculateTimes(1.0, 600.0, total) < U32_MAX
    ensures total - 88.0 <= TotalDelay(1.0, 600.0, CalculateTimes(1.0, 600.0, total)) < total + 512.0
  {
    var n := Saturation(1.0, 600.0);
    DefaultSaturation();
    var remaining := total - 511.0;
    if remaining >= 0.0 {
      var d := StepsBeyondSaturation(remaining, 600.0, 9);
      DelaysAroundCap(1.0, 600.0, 9, d);
      if d >= 1 {
        assert Multiple(600.0, d) == Multiple(600.0, d - 1) + 600.0;
      }
    } else {
      assert Ceil(remaining / 600.0 + 9.0) == 9;
      DelaysAroundCap(1.0, 600.0, 9, 0);
    }
  }

  lemma DefaultSaturation()
    ensures (600.0 - 1.0) / 1.0 == 599.0 && FloorLog2(599.0) == 9 && Doubled(1.0, 9) == 512.0
  {
    PowersOfTwo();
  }

  lemma PowersOfTwo()
    ensures Doubled(1.0, 9) == 512.0 && Doubled(1.0, 10) == 1024.0
  {
    assert Doubled(1.0, 3) == 8.0;
    assert Doubled(1.0, 6) == 64.0;
    assert Doubled(1.0, 9) == 512.0;
  }
}
