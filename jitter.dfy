/** The per-link start delay of the downloader (download.js). The random
    source yields a real number in [0, 1); here it is a fraction `num / den`
    with `0 <= num < den`, which keeps every step in integer arithmetic. */
module Jitter {

  /** One draw of the random source: the value `num / den`. */
  datatype Draw = Draw(num: nat, den: nat)

  /** The draw lies in [0, 1). */
  predicate ValidDraw(r: Draw)
  {
    r.num < r.den
  }

  /** The smallest delay, in milliseconds. */
  const MinDelay: int := 3000

  /** The largest delay for a batch of `n` links: `n * 60 * 1000 / 4`
      milliseconds. The division is exact, so the source's floating-point
      quotient is this integer. */
  function MaxDelay(n: nat): (ms: int)
    ensures ms == n * 15000
  {
    n * 60 * 1000 / 4
  }

  /** `randomIntFromInterval(min, max)`: `floor(r * (max - min + 1) + min)`.
      With `min` an integer that is `min + floor(r * (max - min + 1))`, and
      Dafny's division by a positive divisor rounds down. */
  function RandomIntFromInterval(min: int, max: int, r: Draw): (v: int)
    requires ValidDraw(r)
    ensures min <= max ==> min <= v <= max
  {
    FloorFractionBound(r, max - min + 1);
    min + (r.num * (max - min + 1)) / r.den
  }

  /** `floor(r * span)` lies in [0, span - 1] for a positive span. */
  lemma FloorFractionBound(r: Draw, span: int)
    requires ValidDraw(r)
    ensures span >= 1 ==> 0 <= (r.num * span) / r.den <= span - 1
  {
  }

  /** Every value of the interval is produced by some draw. */
  lemma EveryValueReachable(min: int, max: int, v: int)
    requires min <= v <= max
    ensures exists r :: ValidDraw(r) && RandomIntFromInterval(min, max, r) == v
  {
    var span := max - min + 1;
    var r := Draw(v - min, span);
    MulDivCancel(v - min, span);
    assert RandomIntFromInterval(min, max, r) == v;
  }

  /** Multiplying by a positive number and dividing by it again is the
      identity. */
  lemma MulDivCancel(a: nat, b: int)
    requires b > 0
    ensures (a * b) / b == a
  {
    var q := (a * b) / b;
    var m := (a * b) % b;
    assert a * b == b * q + m && 0 <= m < b;
    assert b * (a - q) == m;
    MulSign(b, a - q);
  }

  /** A positive factor keeps a product at least as far from zero as itself. */
  lemma MulSign(b: int, x: int)
    requires b > 0
    ensures x >= 1 ==> b * x >= b
    ensures x <= -1 ==> b * x <= -b
  {
  }

  /** The delay of one link of a batch of `n` links (download.js, the call
      in `downloadCourse`). */
  function LinkDelay(n: nat, r: Draw): (ms: int)
    requires ValidDraw(r)
    ensures n >= 1 ==> MinDelay <= ms <= n * 15000
  {
    RandomIntFromInterval(MinDelay, MaxDelay(n), r)
  }

  /** The delays scheduled for a whole batch, one draw per link. */
  function BatchDelays<L>(links: seq<L>, draws: seq<Draw>): (delays: seq<int>)
    requires |draws| == |links|
    requires forall i :: 0 <= i < |draws| ==> ValidDraw(draws[i])
    ensures |delays| == |links|
    ensures forall i :: 0 <= i < |delays| ==> MinDelay <= delays[i] <= |links| * 15000
  {
    seq(|links|, i requires 0 <= i < |links| => LinkDelay(|links|, draws[i]))
  }
}
