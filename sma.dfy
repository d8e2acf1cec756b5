/** The trailing simple moving average, `close.rolling(window=w).mean()`. */
module MovingAverage {
  import opened Values

  /** Sum of a run of closes. */
  function Sum(s: seq<real>): real
  {
    if s == [] then 0.0 else Sum(s[..|s| - 1]) + s[|s| - 1]
  }

  /** Entry `i` of the rolling mean: undefined while fewer than `w` bars
      exist, otherwise the mean of the `w` closes ending at bar `i`. */
  function SmaAt(close: seq<real>, w: Window, i: nat): Option<real>
    requires i < |close|
  {
    if i + 1 < w then None else Some(Sum(close[i + 1 - w..i + 1]) / w as real)
  }

  /** The whole rolling-mean column. It is as long as the close column;
      entry `i` is undefined exactly when `i < w - 1`, and otherwise `w`
      times it is the sum of closes `i - w + 1 .. i`. */
  function Sma(close: seq<real>, w: Window): (r: seq<Option<real>>)
    ensures |r| == |close|
    ensures forall i :: 0 <= i < |close| ==> (r[i].None? <==> i + 1 < w)
    ensures forall i :: 0 <= i < |close| && r[i].Some? ==>
      r[i].value * w as real == Sum(close[i + 1 - w..i + 1])
    ensures forall i :: 0 <= i < |close| ==> r[i] == SmaAt(close, w, i)
  {
    seq(|close|, i requires 0 <= i < |close| => SmaAt(close, w, i))
  }

  lemma {:induction false} SumBounds(s: seq<real>, lo: real, hi: real)
    requires forall k :: 0 <= k < |s| ==> lo <= s[k] <= hi
    ensures |s| as real * lo <= Sum(s) <= |s| as real * hi
  {
    if s != [] {
      SumBounds(s[..|s| - 1], lo, hi);
    }
  }

  /** Dividing by a positive count keeps a sum's bounds. */
  lemma MeanBounds(total: real, n: real, lo: real, hi: real)
    requires n > 0.0 && n * lo <= total <= n * hi
    ensures lo <= total / n <= hi
  {
    var m := total / n;
    assert m * n == total;
    assert (m - lo) * n == total - n * lo;
    assert (hi - m) * n == n * hi - total;
  }

  /** A defined moving average lies between the smallest and the largest
      close of its window. */
  lemma SmaWithinWindowRange(close: seq<real>, w: Window, i: nat, lo: real, hi: real)
    requires i < |close| && i + 1 >= w
    requires forall k :: i + 1 - w <= k <= i ==> lo <= close[k] <= hi
    ensures SmaAt(close, w, i).Some?
    ensures lo <= SmaAt(close, w, i).value <= hi
  {
    var win := close[i + 1 - w..i + 1];
    forall k | 0 <= k < |win| ensures lo <= win[k] <= hi {
      assert win[k] == close[i + 1 - w + k];
    }
    SumBounds(win, lo, hi);
    MeanBounds(Sum(win), w as real, lo, hi);
  }

  /** For a constant close series every defined average is that constant. */
  lemma SmaOfConstant(close: seq<real>, w: Window, c: real)
    requires forall k :: 0 <= k < |close| ==> close[k] == c
    ensures forall i :: w - 1 <= i < |close| ==> Sma(close, w)[i] == Some(c)
  {
    forall i | w - 1 <= i < |close| ensures Sma(close, w)[i] == Some(c) {
      SmaWithinWindowRange(close, w, i, c, c);
    }
  }

  /** Recomputing the rolling mean on a series whose first `d` rows were
      dropped agrees with the original column wherever a full window fits
      in the shorter series, and is undefined elsewhere. */
  lemma SmaAfterDrop(close: seq<real>, w: Window, d: nat, j: nat)
    requires d + j < |close|
    ensures SmaAt(close[d..], w, j) == if j + 1 < w then None else SmaAt(close, w, d + j)
  {
    if j + 1 >= w {
      assert close[d..][j + 1 - w..j + 1] == close[d + j + 1 - w..d + j + 1];
    }
  }
}
