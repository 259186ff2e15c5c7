/** The entry-check rule of stock_analyzer/analyzer.py, `StockDataAnalyzer.check_asset`. The
    RSI column comes from pandas_ta and is an input here, one value per bar. */
module Analyzer {
  import opened Wrappers
  import opened Bars
  import opened Backtest

  /** The two rolling windows of the rule. */
  const CloseWindow: nat := 20
  const VolumeWindow: nat := 10

  /** `df["RSI"].dropna().iloc[-1]` on a column without any value raises an IndexError. */
  datatype AnalyzerError = NoRsiValue

  /** The close column of a series. */
  function Closes(s: Series): (xs: seq<Option<real>>)
    ensures |xs| == |s| && forall i :: 0 <= i < |s| ==> xs[i] == s[i].close
  {
    seq(|s|, i requires 0 <= i < |s| => s[i].close)
  }

  /** The volume column of a series. */
  function Volumes(s: Series): (xs: seq<Option<real>>)
    ensures |xs| == |s| && forall i :: 0 <= i < |s| ==> xs[i] == s[i].volume
  {
    seq(|s|, i requires 0 <= i < |s| => s[i].volume)
  }

  /** `xs.dropna().iloc[-1]`: the last value that is not missing, if there is one. */
  function LastDefined(xs: seq<Option<real>>): Option<real>
  {
    if |xs| == 0 then None
    else if xs[|xs| - 1].Some? then xs[|xs| - 1]
    else LastDefined(xs[..|xs| - 1])
  }

  /** The value `dropna().iloc[-1]` finds is missing exactly when every value is, and
      otherwise is a value of the column after which every value is missing. */
  lemma {:induction false} LastDefinedIsLast(xs: seq<Option<real>>)
    ensures LastDefined(xs).None? <==> forall i :: 0 <= i < |xs| ==> xs[i].None?
    ensures LastDefined(xs).Some? ==>
              exists i :: 0 <= i < |xs| && xs[i] == LastDefined(xs) && forall j :: i < j < |xs| ==> xs[j].None?
    decreases |xs|
  {
    if |xs| > 0 {
      var n := |xs|;
      if xs[n - 1].None? {
        var prefix := xs[..n - 1];
        LastDefinedIsLast(prefix);
        assert forall i :: 0 <= i < n - 1 ==> prefix[i] == xs[i];
        if LastDefined(xs).Some? {
          var i :| 0 <= i < n - 1 && prefix[i] == LastDefined(xs) && forall j :: i < j < n - 1 ==> prefix[j].None?;
          assert xs[i] == LastDefined(xs) && forall j :: i < j < n ==> xs[j].None?;
        }
      } else {
        assert xs[n - 1] == LastDefined(xs);
      }
    }
  }

  /** `xs.iloc[-1]` on a column that may be empty. */
  function LastValue(xs: seq<Option<real>>): (r: Option<real>)
    ensures |xs| > 0 ==> r == xs[|xs| - 1]
    ensures |xs| == 0 ==> r.None?
  {
    if |xs| == 0 then None else xs[|xs| - 1]
  }

  function Sum(xs: seq<real>): real
  {
    if |xs| == 0 then 0.0 else Sum(xs[..|xs| - 1]) + xs[|xs| - 1]
  }

  /** All values of a window are present. */
  predicate Complete(xs: seq<Option<real>>)
  {
    forall i :: 0 <= i < |xs| ==> xs[i].Some?
  }

  function Values(xs: seq<Option<real>>): (vs: seq<real>)
    requires Complete(xs)
    ensures |vs| == |xs| && forall i :: 0 <= i < |xs| ==> vs[i] == xs[i].value
  {
    seq(|xs|, i requires 0 <= i < |xs| => xs[i].value)
  }

  /** The last value of `xs.rolling(window=w).mean()`: the mean of the last `w` values. With
      the default `min_periods` every one of them must be present, so it is undefined when
      there are fewer than `w` rows or one of the last `w` is missing. */
  function RollingMeanLast(xs: seq<Option<real>>, w: nat): (r: Option<real>)
    requires w > 0
    ensures r.Some? <==> |xs| >= w && Complete(xs[|xs| - w..])
    ensures r.Some? ==> r.value * (w as real) == Sum(Values(xs[|xs| - w..]))
  {
    if |xs| < w then None
    else
      var window := xs[|xs| - w..];
      if Complete(window) then Some(Sum(Values(window)) / (w as real)) else None
  }

  /** The three inputs of the decision taken from the last row, besides the RSI. */
  function MovingClose(bars: Series): Option<real>
  {
    RollingMeanLast(Closes(bars), CloseWindow)
  }

  function MovingVolume(bars: Series): Option<real>
  {
    RollingMeanLast(Volumes(bars), VolumeWindow)
  }

  /** `check_asset(df, symbol)`: true exactly when the last RSI value is below 30, the last
      close is above the 20-bar mean of the closes and the last volume is above the 10-bar
      mean of the volumes. A comparison with a missing value is false. Without any RSI value
      the call fails. */
  function CheckAsset(bars: Series, rsi: seq<Option<real>>): (r: Result<bool, AnalyzerError>)
    requires |rsi| == |bars|
    ensures r.Err? <==> forall i :: 0 <= i < |rsi| ==> rsi[i].None?
    ensures r.Ok? ==> LastDefined(rsi).Some?
    ensures r.Ok? ==>
              (r.value <==>
                 && LastDefined(rsi).value < Oversold
                 && Less(MovingClose(bars), LastValue(Closes(bars)))
                 && Less(MovingVolume(bars), LastValue(Volumes(bars))))
  {
    LastDefinedIsLast(rsi);
    match LastDefined(rsi)
    case None => Err(NoRsiValue)
    case Some(lastRsi) =>
      var lastClose := LastValue(Closes(bars));
      var vol := LastValue(Volumes(bars));
      Ok(lastRsi < Oversold && Less(MovingClose(bars), lastClose) && Less(MovingVolume(bars), vol))
  }

  /** With fewer than 20 bars the close average is undefined and the rule never fires. */
  lemma CheckAssetNeedsTwentyBars(bars: Series, rsi: seq<Option<real>>)
    requires |rsi| == |bars|
    ensures |bars| < CloseWindow ==> CheckAsset(bars, rsi) != Ok(true)
  {
  }

  /** A sum of values that are all at least `v` is at least `v` times their number. */
  lemma {:induction false} SumAtLeast(xs: seq<real>, v: real)
    requires forall i :: 0 <= i < |xs| ==> xs[i] >= v
    ensures Sum(xs) >= (|xs| as real) * v
    decreases |xs|
  {
    if |xs| > 0 {
      var prefix := xs[..|xs| - 1];
      assert forall i :: 0 <= i < |prefix| ==> prefix[i] == xs[i];
      SumAtLeast(prefix, v);
    }
  }

  /** A value above the mean of a complete window is above some value of that window other
      than the last one, when the window ends with it: a value cannot exceed the mean of
      numbers it never falls below. */
  lemma AboveMeanBeatsEarlier(xs: seq<Option<real>>, w: nat)
    requires w > 0
    requires Less(RollingMeanLast(xs, w), LastValue(xs))
    ensures |xs| >= w
    ensures exists i :: |xs| - w <= i < |xs| - 1 && xs[i].Some? && xs[i].value < xs[|xs| - 1].value
  {
    var window := xs[|xs| - w..];
    var vs := Values(window);
    var last := xs[|xs| - 1].value;
    if forall i :: |xs| - w <= i < |xs| - 1 ==> xs[i].Some? && xs[i].value >= last {
      assert forall k :: 0 <= k < |vs| ==> vs[k] >= last by {
        forall k | 0 <= k < |vs|
          ensures vs[k] >= last
        {
          assert vs[k] == xs[|xs| - w + k].value;
        }
      }
      SumAtLeast(vs, last);
      assert false;
    }
  }

  /** When the rule fires the last close beats some close of the 19 bars before it, and the
      last volume beats some volume of the 9 bars before it. */
  lemma CheckAssetBeatsRecentBars(bars: Series, rsi: seq<Option<real>>)
    requires |rsi| == |bars|
    ensures CheckAsset(bars, rsi) == Ok(true) ==>
              && |bars| >= CloseWindow
              && (exists i :: |bars| - CloseWindow <= i < |bars| - 1 &&
                    Less(bars[i].close, bars[|bars| - 1].close))
              && (exists i :: |bars| - VolumeWindow <= i < |bars| - 1 &&
                    Less(bars[i].volume, bars[|bars| - 1].volume))
  {
    if CheckAsset(bars, rsi) == Ok(true) {
      assert Less(MovingClose(bars), LastValue(Closes(bars)));
      assert Less(MovingVolume(bars), LastValue(Volumes(bars)));
      BeatsRecentCloses(bars);
      BeatsRecentVolumes(bars);
    }
  }

  lemma BeatsRecentCloses(bars: Series)
    requires Less(MovingClose(bars), LastValue(Closes(bars)))
    ensures |bars| >= CloseWindow
    ensures exists i :: |bars| - CloseWindow <= i < |bars| - 1 && Less(bars[i].close, bars[|bars| - 1].close)
  {
    var closes := Closes(bars);
    AboveMeanBeatsEarlier(closes, CloseWindow);
    var i :| |closes| - CloseWindow <= i < |closes| - 1 && closes[i].Some? && closes[i].value < closes[|closes| - 1].value;
    assert Less(bars[i].close, bars[|bars| - 1].close);
  }

  lemma BeatsRecentVolumes(bars: Series)
    requires Less(MovingVolume(bars), LastValue(Volumes(bars)))
    ensures |bars| >= VolumeWindow
    ensures exists i :: |bars| - VolumeWindow <= i < |bars| - 1 && Less(bars[i].volume, bars[|bars| - 1].volume)
  {
    var volumes := Volumes(bars);
    AboveMeanBeatsEarlier(volumes, VolumeWindow);
    var i :| |volumes| - VolumeWindow <= i < |volumes| - 1 && volumes[i].Some? && volumes[i].value < volumes[|volumes| - 1].value;
    assert Less(bars[i].volume, bars[|bars| - 1].volume);
  }
}
