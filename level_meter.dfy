/** The volume meter: on each audio-processing callback the byte-valued
    frequency bins are averaged, and the bar is four times the average,
    cut at the canvas width. */
module LevelMeter {

  /** An element of a `Uint8Array`. */
  newtype Uint8 = x: int | 0 <= x < 256

  const SCALE: real := 4.0

  function Sum(bins: seq<Uint8>): (s: int)
    ensures 0 <= s <= 255 * |bins|
    decreases |bins|
  {
    if bins == [] then 0 else Sum(bins[..|bins| - 1]) + bins[|bins| - 1] as int
  }

  function Average(bins: seq<Uint8>): real
    requires |bins| > 0
  {
    Sum(bins) as real / |bins| as real
  }

  function Min(a: real, b: real): (m: real)
    ensures m <= a && m <= b && (m == a || m == b)
  {
    if a <= b then a else b
  }

  /** The drawn width for the bins and the canvas width. */
  function VolumeWidth(bins: seq<Uint8>, canvasWidth: nat): (w: real)
    requires |bins| > 0
    ensures w <= Average(bins) * SCALE && w <= canvasWidth as real
    ensures w == Average(bins) * SCALE || w == canvasWidth as real
  {
    Min(Average(bins) * SCALE, canvasWidth as real)
  }

  /** `onaudioprocess`: sums the analyser's bins in a loop and scales the average. */
  method OnAudioProcess(bins: array<Uint8>, canvasWidth: nat) returns (volumeWidth: real)
    requires bins.Length > 0
    ensures volumeWidth == VolumeWidth(bins[..], canvasWidth)
  {
    var values := 0;
    var length := bins.Length;
    for i := 0 to length
      invariant values == Sum(bins[..i])
    {
      assert bins[..i + 1][..i] == bins[..i];
      values := values + bins[i] as int;
    }
    assert bins[..length] == bins[..];
    var average := values as real / length as real;
    volumeWidth := average * SCALE;
    volumeWidth := Min(volumeWidth, canvasWidth as real);
  }

  /** The average of byte bins lies in [0, 255]. */
  lemma AverageBounds(bins: seq<Uint8>)
    requires |bins| > 0
    ensures 0.0 <= Average(bins) <= 255.0
  {
    var n := |bins| as real;
    var s := Sum(bins) as real;
    assert s <= 255.0 * n;
    assert s / n <= 255.0 by {
      assert s / n * n == s;
    }
  }

  /** The bar never leaves the canvas: its width lies in [0, canvasWidth]. */
  lemma WidthBounds(bins: seq<Uint8>, canvasWidth: nat)
    requires |bins| > 0
    ensures 0.0 <= VolumeWidth(bins, canvasWidth) <= canvasWidth as real
    ensures VolumeWidth(bins, canvasWidth) <= 255.0 * SCALE
  {
    AverageBounds(bins);
  }

  /** A louder average never gives a narrower bar. */
  lemma WidthMonotone(quiet: seq<Uint8>, loud: seq<Uint8>, canvasWidth: nat)
    requires |quiet| > 0 && |loud| > 0
    requires Average(quiet) <= Average(loud)
    ensures VolumeWidth(quiet, canvasWidth) <= VolumeWidth(loud, canvasWidth)
  {
  }

  /** Raising one bin changes the sum by exactly the increase. */
  lemma {:induction false} SumUpdate(bins: seq<Uint8>, k: nat, v: Uint8)
    requires k < |bins|
    ensures Sum(bins[k := v]) == Sum(bins) - bins[k] as int + v as int
    decreases |bins|
  {
    var n := |bins| - 1;
    var b := bins[k := v];
    assert b[..n] == if k < n then bins[..n][k := v] else bins[..n];
    if k < n {
      SumUpdate(bins[..n], k, v);
    }
  }

  lemma DivideMonotone(a: real, b: real, n: real)
    requires a <= b && n > 0.0
    ensures a / n <= b / n
  {
    assert b / n - a / n == (b - a) / n;
  }

  /** A louder bin never narrows the bar. */
  lemma LouderBinWider(bins: seq<Uint8>, k: nat, v: Uint8, canvasWidth: nat)
    requires k < |bins| && bins[k] <= v
    ensures VolumeWidth(bins, canvasWidth) <= VolumeWidth(bins[k := v], canvasWidth)
  {
    SumUpdate(bins, k, v);
    DivideMonotone(Sum(bins) as real, Sum(bins[k := v]) as real, |bins| as real);
    WidthMonotone(bins, bins[k := v], canvasWidth);
  }
}
