/** Error diffusion: how a ramped real-valued rate becomes whole events with send times. */
module Diffusion {

  datatype Profile = Full | Pilot

  function Ramp(p: Profile): nat { if p == Full then 120 else 10 }

  function Hold(p: Profile): nat { if p == Full then 900 else 60 }

  function Duration(ramp: nat, hold: nat): nat { 2 * ramp + hold }

  /** The share of the full rate offered during a second: up from 0.2, hold, and down again. */
  function Factor(ramp: nat, hold: nat, second: nat): real
    requires ramp > 0
  {
    if second < ramp then 0.2 + 0.8 * second as real / ramp as real
    else if second < ramp + hold then 1.0
    else 1.0 - 0.8 * (second - ramp - hold) as real / ramp as real
  }

  /** The factors of the first `s` seconds, added up. */
  ghost function Share(ramp: nat, hold: nat, s: nat): real
    requires ramp > 0
  {
    if s == 0 then 0.0 else Share(ramp, hold, s - 1) + Factor(ramp, hold, s - 1)
  }

  /** The cumulative offered rate over the first `s` seconds. */
  ghost function Offered(rate: nat, ramp: nat, hold: nat, s: nat): real
    requires ramp > 0
  {
    rate as real * Share(ramp, hold, s)
  }

  lemma OfferedStep(rate: nat, ramp: nat, hold: nat, s: nat)
    requires ramp > 0
    ensures Offered(rate, ramp, hold, s + 1) == Offered(rate, ramp, hold, s) + rate as real * Factor(ramp, hold, s)
  {
    Distribute(rate as real, Share(ramp, hold, s), Factor(ramp, hold, s));
  }

  lemma Distribute(q: real, a: real, b: real)
    ensures q * (a + b) == q * a + q * b
  {
  }

  lemma Scale(q: real, a: real, b: real)
    requires q >= 0.0 && a <= b
    ensures q * a <= q * b
  {
  }

  /** Events sent in the first `s` seconds: the floor of what was offered. */
  ghost function Cumulative(rate: nat, ramp: nat, hold: nat, s: nat): int
    requires ramp > 0
  {
    Offered(rate, ramp, hold, s).Floor
  }

  lemma RatioBounds(a: real, b: real, most: real)
    requires b > 0.0 && 0.0 <= a <= most * b
    ensures 0.0 <= a / b <= most
  {
    var q := a / b;
    assert q * b == a;
    ProductSign(q, b);
    ProductSign(most - q, b);
    assert (most - q) * b == most * b - q * b;
  }

  lemma ProductSign(q: real, b: real)
    requires b > 0.0
    ensures q < 0.0 <==> q * b < 0.0
  {
  }

  lemma FactorBounds(ramp: nat, hold: nat, second: nat)
    requires ramp > 0 && second < Duration(ramp, hold)
    ensures 0.2 <= Factor(ramp, hold, second) <= 1.0
  {
    if second < ramp {
      RatioBounds(0.8 * second as real, ramp as real, 0.8);
    } else if second >= ramp + hold {
      RatioBounds(0.8 * (second - ramp - hold) as real, ramp as real, 0.8);
    }
  }

  lemma {:induction false} ShareMonotone(ramp: nat, hold: nat, s: nat, t: nat)
    requires ramp > 0 && s <= t <= Duration(ramp, hold)
    ensures 0.0 <= Share(ramp, hold, s) <= Share(ramp, hold, t)
    decreases t
  {
    if t > 0 {
      ShareMonotone(ramp, hold, if s < t then s else t - 1, t - 1);
      FactorBounds(ramp, hold, t - 1);
    }
  }

  lemma CumulativeMonotone(rate: nat, ramp: nat, hold: nat, s: nat, t: nat)
    requires ramp > 0 && s <= t <= Duration(ramp, hold)
    ensures 0 <= Cumulative(rate, ramp, hold, s) <= Cumulative(rate, ramp, hold, t)
  {
    ShareMonotone(ramp, hold, s, t);
    Scale(rate as real, 0.0, Share(ramp, hold, s));
    Scale(rate as real, Share(ramp, hold, s), Share(ramp, hold, t));
  }

  /** Events `[Cumulative(s), Cumulative(s + 1))` are sent in second `s`, evenly spread from its start. */
  ghost predicate SpreadIn(times: seq<real>, rate: nat, ramp: nat, hold: nat, s: nat)
    requires ramp > 0 && s < Duration(ramp, hold)
  {
    var from, to := Cumulative(rate, ramp, hold, s), Cumulative(rate, ramp, hold, s + 1);
    && 0 <= from <= to <= |times|
    && forall i :: from <= i < to ==> times[i] == s as real + (i - from) as real / (to - from) as real
  }

  ghost predicate Diffused(times: seq<real>, rate: nat, ramp: nat, hold: nat, s: nat)
    requires ramp > 0 && s <= Duration(ramp, hold)
  {
    |times| == Cumulative(rate, ramp, hold, s) && forall t :: 0 <= t < s ==> SpreadIn(times, rate, ramp, hold, t)
  }

  lemma SpreadExtends(times: seq<real>, more: seq<real>, rate: nat, ramp: nat, hold: nat, s: nat)
    requires ramp > 0 && s <= Duration(ramp, hold) && forall t :: 0 <= t < s ==> SpreadIn(times, rate, ramp, hold, t)
    ensures forall t :: 0 <= t < s ==> SpreadIn(times + more, rate, ramp, hold, t)
  {
    forall t | 0 <= t < s ensures SpreadIn(times + more, rate, ramp, hold, t) {
      assert SpreadIn(times, rate, ramp, hold, t);
    }
  }

  method Diffuse(rate: nat, ramp: nat, hold: nat) returns (times: seq<real>)
    requires ramp > 0
    ensures Diffused(times, rate, ramp, hold, Duration(ramp, hold))
  {
    times := [];
    var carry := 0.0;
    var second := 0;
    while second < Duration(ramp, hold)
      invariant 0 <= second <= Duration(ramp, hold)
      invariant Diffused(times, rate, ramp, hold, second)
      invariant carry == Offered(rate, ramp, hold, second) - Cumulative(rate, ramp, hold, second) as real
    {
      carry := carry + rate as real * Factor(ramp, hold, second);
      OfferedStep(rate, ramp, hold, second);
      CumulativeMonotone(rate, ramp, hold, second, second + 1);
      var count := carry.Floor;
      assert count == Cumulative(rate, ramp, hold, second + 1) - Cumulative(rate, ramp, hold, second);
      carry := carry - count as real;
      var batch: seq<real> := [];
      var i := 0;
      while i < count
        invariant 0 <= i <= count && |batch| == i
        invariant forall j :: 0 <= j < i ==> batch[j] == second as real + j as real / count as real
      {
        batch := batch + [second as real + i as real / count as real];
        i := i + 1;
      }
      SpreadExtends(times, batch, rate, ramp, hold, second);
      times := times + batch;
      assert SpreadIn(times, rate, ramp, hold, second);
      second := second + 1;
    }
  }

  // ---------- consequences ----------

  /** The second in which an event is sent. */
  lemma {:induction false} SecondOf(rate: nat, ramp: nat, hold: nat, s: nat, i: nat) returns (t: nat)
    requires ramp > 0 && s <= Duration(ramp, hold) && i < Cumulative(rate, ramp, hold, s)
    ensures t < s && Cumulative(rate, ramp, hold, t) <= i < Cumulative(rate, ramp, hold, t + 1)
    decreases s
  {
    if i >= Cumulative(rate, ramp, hold, s - 1) { t := s - 1; } else { t := SecondOf(rate, ramp, hold, s - 1, i); }
  }

  lemma FractionBound(k: int, n: int)
    requires 0 <= k < n
    ensures 0.0 <= k as real / n as real < 1.0
  {
  }

  lemma InSecond(times: seq<real>, rate: nat, ramp: nat, hold: nat, s: nat, i: nat)
    requires ramp > 0 && s < Duration(ramp, hold) && SpreadIn(times, rate, ramp, hold, s)
    requires Cumulative(rate, ramp, hold, s) <= i < Cumulative(rate, ramp, hold, s + 1)
    ensures s as real <= times[i] < (s + 1) as real
  {
    FractionBound(i - Cumulative(rate, ramp, hold, s),
                  Cumulative(rate, ramp, hold, s + 1) - Cumulative(rate, ramp, hold, s));
  }

  lemma FractionIncreasing(k: int, l: int, n: int)
    requires 0 <= k < l < n
    ensures k as real / n as real < l as real / n as real
  {
  }

  ghost predicate Increasing(times: seq<real>) {
    forall i, j :: 0 <= i < j < |times| ==> times[i] < times[j]
  }

  /** Send times are strictly increasing, start at or after zero and end before the duration. */
  lemma DiffusedIncreasing(times: seq<real>, rate: nat, ramp: nat, hold: nat)
    requires ramp > 0 && Diffused(times, rate, ramp, hold, Duration(ramp, hold))
    ensures Increasing(times)
    ensures forall i :: 0 <= i < |times| ==> 0.0 <= times[i] < Duration(ramp, hold) as real
  {
    var d := Duration(ramp, hold);
    forall i | 0 <= i < |times| ensures 0.0 <= times[i] < d as real {
      var s := SecondOf(rate, ramp, hold, d, i);
      InSecond(times, rate, ramp, hold, s, i);
    }
    forall i, j | 0 <= i < j < |times| ensures times[i] < times[j] {
      var s := SecondOf(rate, ramp, hold, d, i);
      var t := SecondOf(rate, ramp, hold, d, j);
      assert SpreadIn(times, rate, ramp, hold, s) && SpreadIn(times, rate, ramp, hold, t);
      if s == t {
        var from, to := Cumulative(rate, ramp, hold, s), Cumulative(rate, ramp, hold, s + 1);
        FractionIncreasing(i - from, j - from, to - from);
      } else {
        if t < s { CumulativeMonotone(rate, ramp, hold, t + 1, s); }
        assert s < t;
        InSecond(times, rate, ramp, hold, s, i);
        InSecond(times, rate, ramp, hold, t, j);
      }
    }
  }

  /** How many send times lie before a whole second: exactly the floor of the offered rate. */
  lemma SentBefore(times: seq<real>, rate: nat, ramp: nat, hold: nat, s: nat, i: nat)
    requires ramp > 0 && s <= Duration(ramp, hold) && Diffused(times, rate, ramp, hold, Duration(ramp, hold))
    requires i < |times|
    ensures times[i] < s as real <==> i < Cumulative(rate, ramp, hold, s)
  {
    var t := SecondOf(rate, ramp, hold, Duration(ramp, hold), i);
    assert SpreadIn(times, rate, ramp, hold, t);
    InSecond(times, rate, ramp, hold, t, i);
    if t < s { CumulativeMonotone(rate, ramp, hold, t + 1, s); } else { CumulativeMonotone(rate, ramp, hold, s, t); }
  }

  // ---------- the total, in closed form ----------

  /** Ten times the ramp length times the factor is a whole number. */
  ghost function Tenths(ramp: nat, hold: nat, second: nat): int {
    if second < ramp then 2 * ramp + 8 * second
    else if second < ramp + hold then 10 * ramp
    else 10 * ramp - 8 * (second - ramp - hold)
  }

  ghost function TenthsUpTo(ramp: nat, hold: nat, s: nat): int {
    if s == 0 then 0 else TenthsUpTo(ramp, hold, s - 1) + Tenths(ramp, hold, s - 1)
  }

  lemma FactorTenths(ramp: nat, hold: nat, second: nat, d: real)
    requires ramp > 0 && d == 10.0 * ramp as real
    ensures Factor(ramp, hold, second) * d == Tenths(ramp, hold, second) as real
  {
    var r := ramp as real;
    if second < ramp {
      var q := 0.8 * second as real / r;
      assert q * r == 0.8 * second as real;
      assert (0.2 + q) * (10.0 * r) == 2.0 * r + 10.0 * (q * r);
    } else if second >= ramp + hold {
      var t := (second - ramp - hold) as real;
      var q := 0.8 * t / r;
      assert q * r == 0.8 * t;
      assert (1.0 - q) * (10.0 * r) == 10.0 * r - 10.0 * (q * r);
    }
  }

  ghost function SumTo(f: nat -> real, s: nat): real {
    if s == 0 then 0.0 else SumTo(f, s - 1) + f(s - 1)
  }

  lemma {:induction false} ShareIsSum(ramp: nat, hold: nat, s: nat, f: nat -> real)
    requires ramp > 0 && forall k: nat :: f(k) == Factor(ramp, hold, k)
    ensures Share(ramp, hold, s) == SumTo(f, s)
  {
    if s > 0 { ShareIsSum(ramp, hold, s - 1, f); }
  }

  lemma {:induction false} SumScaled(f: nat -> real, g: nat -> real, d: real, s: nat)
    requires forall k: nat :: g(k) == f(k) * d
    ensures SumTo(g, s) == SumTo(f, s) * d
  {
    if s > 0 {
      SumScaled(f, g, d, s - 1);
      Distribute(d, SumTo(f, s - 1), f(s - 1));
    }
  }

  lemma {:induction false} SumTenths(ramp: nat, hold: nat, s: nat, g: nat -> real)
    requires forall k: nat :: g(k) == Tenths(ramp, hold, k) as real
    ensures SumTo(g, s) == TenthsUpTo(ramp, hold, s) as real
  {
    if s > 0 { SumTenths(ramp, hold, s - 1, g); }
  }

  lemma {:induction false} AllFactorTenths(ramp: nat, hold: nat, d: real, f: nat -> real, g: nat -> real)
    requires ramp > 0 && d == 10.0 * ramp as real
    requires forall k: nat :: f(k) == Factor(ramp, hold, k) && g(k) == Tenths(ramp, hold, k) as real
    ensures forall k: nat :: g(k) == f(k) * d
  {
    forall k: nat ensures g(k) == f(k) * d {
      FactorTenths(ramp, hold, k, d);
    }
  }

  lemma {:induction false} ShareTenths(ramp: nat, hold: nat, s: nat, d: real)
    requires ramp > 0 && d == 10.0 * ramp as real
    ensures Share(ramp, hold, s) * d == TenthsUpTo(ramp, hold, s) as real
  {
    var f, g := (k: nat) => Factor(ramp, hold, k), (k: nat) => Tenths(ramp, hold, k) as real;
    AllFactorTenths(ramp, hold, d, f, g);
    ShareIsSum(ramp, hold, s, f);
    SumScaled(f, g, d, s);
    SumTenths(ramp, hold, s, g);
  }

  lemma {:induction false} TenthsUp(ramp: nat, hold: nat, s: nat)
    requires s <= ramp
    ensures TenthsUpTo(ramp, hold, s) == 2 * (ramp * s) + 4 * (s * (s - 1))
  {
    if s > 0 {
      TenthsUp(ramp, hold, s - 1);
      assert ramp * s == ramp * (s - 1) + ramp;
      assert s * (s - 1) == (s - 1) * (s - 2) + 2 * (s - 1);
    }
  }

  lemma {:induction false} TenthsFlat(ramp: nat, hold: nat, s: nat)
    requires s <= hold
    ensures TenthsUpTo(ramp, hold, ramp + s) == TenthsUpTo(ramp, hold, ramp) + 10 * (ramp * s)
  {
    if s > 0 {
      TenthsFlat(ramp, hold, s - 1);
      assert ramp * s == ramp * (s - 1) + ramp;
    }
  }

  lemma {:induction false} TenthsDown(ramp: nat, hold: nat, s: nat)
    requires s <= ramp
    ensures TenthsUpTo(ramp, hold, ramp + hold + s) == TenthsUpTo(ramp, hold, ramp + hold) + 10 * (ramp * s) - 4 * (s * (s - 1))
  {
    if s > 0 {
      TenthsDown(ramp, hold, s - 1);
      assert ramp * s == ramp * (s - 1) + ramp;
      assert s * (s - 1) == (s - 1) * (s - 2) + 2 * (s - 1);
    }
  }

  /** The up and down ramps together offer 1.2 times the ramp length at full rate. */
  lemma TenthsTotal(ramp: nat, hold: nat)
    ensures TenthsUpTo(ramp, hold, Duration(ramp, hold)) == 12 * (ramp * ramp) + 10 * (ramp * hold)
  {
    TenthsUp(ramp, hold, ramp);
    TenthsFlat(ramp, hold, hold);
    TenthsDown(ramp, hold, ramp);
    assert ramp * (ramp - 1) == ramp * ramp - ramp;
    assert Duration(ramp, hold) == ramp + hold + ramp;
  }

  lemma CancelScale(x: real, y: real, d: real)
    requires d > 0.0 && x * d == y * d
    ensures x == y
  {
    assert (x - y) * d == 0.0;
  }

  lemma RealProduct(a: int, b: int)
    ensures (a * b) as real == a as real * b as real
  {
  }

  lemma ScaledTotal(h: real, r: real)
    ensures (h + 1.2 * r) * (10.0 * r) == 12.0 * (r * r) + 10.0 * (r * h)
  {
  }

  /** The plan holds floor(rate * (hold + 1.2 * ramp)) events. */
  lemma TotalEvents(times: seq<real>, rate: nat, ramp: nat, hold: nat)
    requires ramp > 0 && Diffused(times, rate, ramp, hold, Duration(ramp, hold))
    ensures |times| == (rate as real * (hold as real + 1.2 * ramp as real)).Floor
  {
    var r, h := ramp as real, hold as real;
    var d := 10.0 * r;
    ShareTenths(ramp, hold, Duration(ramp, hold), d);
    TenthsTotal(ramp, hold);
    RealProduct(ramp, ramp);
    RealProduct(ramp, hold);
    ScaledTotal(h, r);
    CancelScale(Share(ramp, hold, Duration(ramp, hold)), h + 1.2 * r, d);
  }
}
