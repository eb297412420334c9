/**
 * The numbers the benchmark drivers print: the stretch-tree checksum, one line per
 * depth of the schedule (how many trees, of which depth, their summed checksum) and
 * the long-lived-tree checksum. `ExpectedReport` states their closed forms.
 */
module Reports {
  import opened Powers

  /** The smallest depth of the schedule (`minDepth` / `MinDepth` in both drivers). */
  const MinDepth := 4

  datatype DepthLine = DepthLine(trees: int, depth: int, check: int)

  datatype Report = Report(stretchCheck: int, lines: seq<DepthLine>, longLivedCheck: int)

  /** The number of depths `MinDepth, MinDepth + 2, ...` that do not exceed `maxDepth`. */
  function LineCount(maxDepth: int): nat
  {
    if maxDepth < MinDepth then 0 else (maxDepth - MinDepth) / 2 + 1
  }

  /** The depth of the `k`-th line of the schedule. */
  function ScheduleDepth(k: nat): int
  {
    MinDepth + 2 * k
  }

  /** Every depth of the schedule lies in `[MinDepth, maxDepth]`, and the next one lies above `maxDepth`. */
  lemma ScheduleBounds(maxDepth: int, k: nat)
    requires k < LineCount(maxDepth)
    ensures MinDepth <= ScheduleDepth(k) <= maxDepth
    ensures k + 1 == LineCount(maxDepth) <==> ScheduleDepth(k + 1) > maxDepth
  {
  }

  /** The `k`-th line: `2^(maxDepth - depth + MinDepth)` trees of the depth, each with checksum `2^(depth+1) - 1`. */
  function ExpectedLine(maxDepth: int, k: nat): DepthLine
    requires k < LineCount(maxDepth)
  {
    ScheduleBounds(maxDepth, k);
    var depth := ScheduleDepth(k);
    var trees := Pow2(maxDepth - depth + MinDepth);
    DepthLine(trees, depth, trees * (Pow2(depth + 1) - 1))
  }

  /** What a run with the given maximum depth prints, in closed form. */
  function ExpectedReport(maxDepth: int): Report
    requires maxDepth >= 0
  {
    Report(Pow2(maxDepth + 2) - 1,
           seq(LineCount(maxDepth), k requires 0 <= k < LineCount(maxDepth) => ExpectedLine(maxDepth, k)),
           Pow2(maxDepth + 1) - 1)
  }

  /** The largest value of the drivers' 32-bit `int` counters, `int.MaxValue`. */
  const Int32Max: int := Pow2(31) - 1

  /** Up to `maxDepth == 26` the stretch and long-lived checksums fit in a 32-bit `int`. */
  lemma ChecksFitInt32(maxDepth: int)
    requires 0 <= maxDepth <= 26
    ensures ExpectedReport(maxDepth).stretchCheck <= Int32Max
    ensures ExpectedReport(maxDepth).longLivedCheck <= Int32Max
  {
    var r := ExpectedReport(maxDepth);
    assert r.stretchCheck == Pow2(maxDepth + 2) - 1 && r.longLivedCheck == Pow2(maxDepth + 1) - 1;
    Pow2Monotone(maxDepth + 2, 31);
    Pow2Monotone(maxDepth + 1, 31);
  }

  /**
   * Up to `maxDepth == 26` every line's tree count and summed checksum fit in a 32-bit
   * `int`, and so do the partial sums and the shift `1 << (maxDepth - depth + MinDepth)`
   * behind them: each is at most the value it adds up to.
   */
  lemma LineFitsInt32(maxDepth: int, k: nat)
    requires 0 <= maxDepth <= 26 && k < LineCount(maxDepth)
    ensures ExpectedLine(maxDepth, k).trees <= ExpectedLine(maxDepth, k).check <= Int32Max
  {
    ScheduleBounds(maxDepth, k);
    var depth := ScheduleDepth(k);
    var e := maxDepth - depth + MinDepth;
    assert ExpectedLine(maxDepth, k) == DepthLine(Pow2(e), depth, Pow2(e) * (Pow2(depth + 1) - 1));
    ProductBelow(e, depth, 31);
  }

  /** `2^e * (2^(d+1) - 1)` is below `2^(e+d+1)`, hence below `2^n` once `e + d + 1 <= n`. */
  lemma ProductBelow(e: nat, d: nat, n: nat)
    requires e + d + 1 <= n
    ensures Pow2(e) <= Pow2(e) * (Pow2(d + 1) - 1) <= Pow2(n) - 1
  {
    Pow2Add(e, d + 1);
    Pow2Monotone(e + (d + 1), n);
    Pow2Monotone(1, d + 1);
    BelowProduct(Pow2(e), Pow2(d + 1), Pow2(n));
  }

  /** From `maxDepth == 27` on, the summed checksum of the first line no longer fits in a 32-bit `int`. */
  lemma FirstLineOverflowsInt32(maxDepth: int)
    requires maxDepth >= 27
    ensures ExpectedLine(maxDepth, 0).check > Int32Max
  {
    Pow2Monotone(27, maxDepth);
    Pow2Add(27, 4);
    assert Pow2(5) == 32 && Pow2(4) == 16;
    AboveProduct(Pow2(maxDepth), Pow2(27));
  }

  lemma BelowProduct(t: int, p: int, bound: int)
    requires t >= 1 && p >= 2 && t * p <= bound
    ensures t <= t * (p - 1) <= bound - 1
  {
  }

  lemma AboveProduct(a: int, b: int)
    requires a >= b >= 1
    ensures a * (32 - 1) > b * 16 - 1
  {
  }
}
