/** The sample interpolation of Sources/AWG.c: a waveform table holds one sample per ten
    index steps, and Average blends the two neighbouring samples by the index's last
    decimal digit. */
module Awg {
  import opened Types

  /** MAX_WAVE_SIZE: entries in each waveform lookup table. */
  const MaxWaveSize: nat := 10000

  /** The blend Average computes, in int: `lo` plus the share `step`/10 of the way to `hi`,
      the division truncating toward zero as C's does. */
  function Interpolate(lo: int, hi: int, step: int): (r: int)
    requires 0 <= step < 10
    ensures lo <= hi ==> lo <= r <= hi
    ensures hi <= lo ==> hi <= r <= lo
    ensures step == 0 ==> r == lo
  {
    TruncDiv((hi - lo) * step, 10) + lo
  }

  /** Average: the sample for `index` between waveform[index / 10] and the next sample. For
      a 16-bit index the test `index + 10 < 100000` always holds, so the branch that wraps
      to waveform[0] cannot be taken. */
  function Average(index: uint16, waveform: seq<uint16>): (r: uint16)
    requires |waveform| == MaxWaveSize
    ensures var lo, hi := waveform[index / 10], waveform[index / 10 + 1];
            (lo <= hi ==> lo <= r <= hi) && (hi <= lo ==> hi <= r <= lo)
    ensures index % 10 == 0 ==> r == waveform[index / 10]
  {
    var num1 := waveform[index / 10];
    if index + 10 < 100000 then
      var num2 := waveform[(index + 10) / 10];
      Interpolate(num1, num2, index % 10)
    else
      assert false; num1
  }

  /** Both table reads stay inside the table: the second one is the next sample. */
  lemma ReadsInTable(index: uint16)
    ensures index + 10 < 100000
    ensures (index + 10) / 10 == index / 10 + 1 && index / 10 + 1 <= 6554 < MaxWaveSize
  {
  }

  /** With the two samples fixed, the result moves from the first toward the second as the
      index's last digit grows. */
  lemma InterpolateMonotone(lo: int, hi: int, s: int, t: int)
    requires 0 <= s <= t < 10
    ensures lo <= hi ==> Interpolate(lo, hi, s) <= Interpolate(lo, hi, t)
    ensures hi <= lo ==> Interpolate(lo, hi, t) <= Interpolate(lo, hi, s)
  {
    var d := hi - lo;
    if d >= 0 {
      ScaleMonotone(d, s, t);
      DivMonotone(d * s, d * t);
    } else {
      ScaleMonotone(-d, s, t);
      Negate(d, s);
      Negate(d, t);
      DivMonotone(-d * s, -d * t);
    }
  }

  lemma ScaleMonotone(d: int, s: int, t: int)
    requires 0 <= d && 0 <= s <= t
    ensures 0 <= d * s <= d * t
  {
    assert d * t - d * s == d * (t - s);
  }

  lemma Negate(d: int, s: int)
    ensures d * s == -(-d * s)
  {
  }

  /** Between two table entries, Average is monotone in the index: rising toward the next
      sample when it is the larger, falling toward it when it is the smaller. */
  lemma AverageMonotone(i: uint16, j: uint16, waveform: seq<uint16>)
    requires |waveform| == MaxWaveSize && i / 10 == j / 10 && i <= j
    ensures var lo, hi := waveform[i / 10], waveform[i / 10 + 1];
            (lo <= hi ==> Average(i, waveform) <= Average(j, waveform))
            && (hi <= lo ==> Average(j, waveform) <= Average(i, waveform))
  {
    InterpolateMonotone(waveform[i / 10], waveform[i / 10 + 1], i % 10, j % 10);
  }

  /** Truncating division by ten is monotone on non-negative numbers, and negating the
      dividend negates the quotient. */
  lemma DivMonotone(a: int, b: int)
    requires 0 <= a <= b
    ensures TruncDiv(a, 10) <= TruncDiv(b, 10)
    ensures TruncDiv(-a, 10) == -TruncDiv(a, 10) && TruncDiv(-b, 10) == -TruncDiv(b, 10)
  {
  }

  /** Average on neighbouring samples 100 and 200, on a falling pair 200 and 100, and on a
      falling pair 200 and 105 whose blend -285 / 10 truncates to -28 (a floor would give
      -29 and so 171). */
  lemma AverageExamples(waveform: seq<uint16>)
    requires |waveform| == MaxWaveSize && waveform[4] == 100 && waveform[5] == 200
    requires waveform[6] == 100
    requires waveform[7] == 200 && waveform[8] == 105
    ensures Average(40, waveform) == 100 && Average(43, waveform) == 130
    ensures Average(49, waveform) == 190 && Average(57, waveform) == 130
    ensures Average(73, waveform) == 172
  {
  }
}
