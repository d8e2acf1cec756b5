/** The free-function pipeline: `calculate_sma` (which drops the first
    `ma_2` rows), `generate_signals` (no bar-0 fallback) and
    `find_optimal_ma`, which reassigns its frame on every pair so that each
    trial runs on the frame the previous trial left behind. The close
    series that `get_data` would fetch is a parameter. */
module FreePipeline {
  import opened Values
  import opened MovingAverage
  import opened Crossover
  import opened Profit
  import opened GridSearch

  /** The frame `calculate_sma` returns: the close column with the
      `SMA_{ma_1}` and `SMA_{ma_2}` columns beside it. */
  datatype Frame = Frame(close: seq<real>, sma1: seq<Option<real>>, sma2: seq<Option<real>>)

  /** A frame with its "Buy Signals" and "Sell Signals" columns. */
  datatype Annotated = Annotated(frame: Frame, buys: seq<Option<real>>, sells: seq<Option<real>>)

  /** What the free `find_optimal_ma` returns: the annotated frame of the
      winning pair, that pair, and the best profit seen. */
  datatype Outcome = Outcome(data: Annotated, optimal: Pair, maxProfit: Float)

  predicate WellFormed(f: Frame)
  {
    |f.sma1| == |f.close| && |f.sma2| == |f.close|
  }

  /** `s.iloc[d:]`: the rows from `d` on, empty when `d` is past the end. */
  function Drop(s: seq<real>, d: nat): (r: seq<real>)
    ensures |r| == if d < |s| then |s| - d else 0
    ensures forall j :: 0 <= j < |r| ==> r[j] == s[d + j]
  {
    if d < |s| then s[d..] else []
  }

  lemma DropTwice(s: seq<real>, a: nat, b: nat)
    ensures Drop(Drop(s, a), b) == Drop(s, a + b)
  {
  }

  /** `calculate_sma`: both rolling means over the whole series, then only
      rows `ma_2 ..` are kept, so the frame has `max(0, n - ma_2)` rows, its
      `SMA_{ma_2}` column has no undefined entry left, and its
      `SMA_{ma_1}` column is undefined only where `ma_1 > ma_2 + 1` leaves a
      window short. */
  function CalculateSma(close: seq<real>, ma1: Window, ma2: Window): (f: Frame)
    ensures WellFormed(f)
    ensures |f.close| == if ma2 < |close| then |close| - ma2 else 0
    ensures f.close == Drop(close, ma2)
    ensures forall j :: 0 <= j < |f.close| ==>
      f.sma1[j] == SmaAt(close, ma1, ma2 + j) && f.sma2[j] == SmaAt(close, ma2, ma2 + j)
    ensures forall j :: 0 <= j < |f.close| ==> f.sma2[j].Some?
    ensures forall j :: 0 <= j < |f.close| ==> (f.sma1[j].None? <==> ma2 + j + 1 < ma1)
  {
    if ma2 < |close| then Frame(close[ma2..], Sma(close, ma1)[ma2..], Sma(close, ma2)[ma2..])
    else Frame([], [], [])
  }

  /** The frame with the signal columns the free generator writes. */
  function Annotate(f: Frame): Annotated
    requires WellFormed(f)
  {
    var sigs := Signals(f.sma1, f.sma2, false);
    Annotated(f, Column(f.close, sigs, Buy), Column(f.close, sigs, Sell))
  }

  /** The profit the free `generate_signals` returns for a frame. */
  function FreeProfit(f: Frame): Float
    requires WellFormed(f)
  {
    ProfitOf(Annotate(f).buys, Annotate(f).sells)
  }

  /** The free `generate_signals`: one pass carrying the trigger, with no
      bar-0 fallback, then `calculate_profit` on the two lists. */
  method GenerateSignals(f: Frame) returns (a: Annotated, profit: Float)
    requires WellFormed(f)
    ensures a == Annotate(f)
    ensures profit == FreeProfit(f)
  {
    var buys, sells := GenerateColumns(f.close, f.sma1, f.sma2, false);
    a := Annotated(f, buys, sells);
    profit := CalculateProfit(buys, sells);
  }

  /** How many rows the trials of `ps` drop in all: the sum of their `ma_2`. */
  function DropTotal(ps: seq<Pair>): nat
  {
    if ps == [] then 0 else DropTotal(ps[..|ps| - 1]) + ps[|ps| - 1].1
  }

  lemma DropTotalStep(ps: seq<Pair>, p: Pair)
    ensures DropTotal(ps + [p]) == DropTotal(ps) + p.1
  {
    assert (ps + [p])[..|ps|] == ps;
  }

  /** The frame left behind by one more trial drops that trial's `ma_2`
      further rows of the fetched series. */
  lemma DropAdvance(close: seq<real>, done: seq<Pair>, p: Pair)
    ensures Drop(Drop(close, DropTotal(done)), p.1) == Drop(close, DropTotal(done + [p]))
  {
    DropTotalStep(done, p);
    DropTwice(close, DropTotal(done), p.1);
  }

  /** The trials of the free `find_optimal_ma` as written: because the loop
      reassigns its frame, each pair is scored on the fetched series with
      the first `ma_2` rows of EVERY earlier trial dropped. */
  function DriftTrials(close: seq<real>, ps: seq<Pair>): (ts: seq<Trial>)
    ensures |ts| == |ps|
  {
    if ps == [] then []
    else
      var pre := ps[..|ps| - 1];
      var p := ps[|ps| - 1];
      DriftTrials(close, pre) + [Trial(p, FreeProfit(CalculateSma(Drop(close, DropTotal(pre)), p.0, p.1)))]
  }

  lemma DriftTrialsStep(close: seq<real>, ps: seq<Pair>, p: Pair)
    ensures DriftTrials(close, ps + [p]) ==
      DriftTrials(close, ps) + [Trial(p, FreeProfit(CalculateSma(Drop(close, DropTotal(ps)), p.0, p.1)))]
  {
    assert (ps + [p])[..|ps|] == ps;
  }

  /** The free `find_optimal_ma` as written. `None` is the `TypeError` that
      indexing a `None` optimum raises when no pair scored above `-inf`. */
  method FindOptimalMa(close: seq<real>, maRange: seq<Window>) returns (r: Option<Outcome>)
    ensures var best := Select(DriftTrials(close, Pairs(maRange, maRange)), Best(NegInf, None));
      (r.None? <==> best.pair.None?) &&
      (r.Some? ==> r.value == Outcome(Annotate(CalculateSma(close, best.pair.value.0, best.pair.value.1)),
                                      best.pair.value, best.profit))
  {
    var maxProfit := NegInf;
    var optimalMa: Option<Pair> := None;
    var data := close;
    ghost var done: seq<Pair> := [];
    assert Drop(close, 0) == close;
    for i := 0 to |maRange|
      invariant done == Pairs(maRange[..i], maRange)
      invariant data == Drop(close, DropTotal(done))
      invariant Best(maxProfit, optimalMa) == Select(DriftTrials(close, done), Best(NegInf, None))
    {
      var a := maRange[i];
      ghost var rows := done;
      assert Row(a, maRange[..0]) == [];
      for j := 0 to |maRange|
        invariant done == rows + Row(a, maRange[..j])
        invariant data == Drop(close, DropTotal(done))
        invariant Best(maxProfit, optimalMa) == Select(DriftTrials(close, done), Best(NegInf, None))
      {
        var b := maRange[j];
        RowAdvance(rows, a, maRange, j, done);
        if a != b {
          var f := CalculateSma(data, a, b);
          var annotated, profit := GenerateSignals(f);
          DriftTrialsStep(close, done, (a, b));
          DropAdvance(close, done, (a, b));
          assert f.close == Drop(data, b);
          SelectStep(DriftTrials(close, done), Trial((a, b), profit), Best(NegInf, None));
          data := f.close;
          if Greater(profit, maxProfit) {
            maxProfit := profit;
            optimalMa := Some((a, b));
          }
          done := done + [(a, b)];
        }
      }
      assert maRange[..|maRange|] == maRange;
      PairsAdvance(maRange, i, done);
    }
    assert maRange[..|maRange|] == maRange;
    if optimalMa.None? {
      return None;
    }
    var best := optimalMa.value;
    var annotated, _ := GenerateSignals(CalculateSma(close, best.0, best.1));
    r := Some(Outcome(annotated, best, maxProfit));
  }

  /** The trials of the corrected search: every pair is scored on the
      fetched series. */
  function FreshTrials(close: seq<real>, ps: seq<Pair>): (ts: seq<Trial>)
    ensures |ts| == |ps|
  {
    if ps == [] then []
    else
      var p := ps[|ps| - 1];
      FreshTrials(close, ps[..|ps| - 1]) + [Trial(p, FreeProfit(CalculateSma(close, p.0, p.1)))]
  }

  /** Trial `k` is pair `k` scored on the fetched series. */
  lemma {:induction false} FreshTrialsAt(close: seq<real>, ps: seq<Pair>)
    ensures forall k :: 0 <= k < |ps| ==>
      FreshTrials(close, ps)[k] == Trial(ps[k], FreeProfit(CalculateSma(close, ps[k].0, ps[k].1)))
  {
    if ps != [] {
      var pre := ps[..|ps| - 1];
      FreshTrialsAt(close, pre);
      forall k | 0 <= k < |ps| - 1
        ensures FreshTrials(close, ps)[k] == Trial(ps[k], FreeProfit(CalculateSma(close, ps[k].0, ps[k].1)))
      {
        assert FreshTrials(close, ps)[k] == FreshTrials(close, pre)[k];
        assert pre[k] == ps[k];
      }
    }
  }

  lemma FreshTrialsStep(close: seq<real>, ps: seq<Pair>, p: Pair)
    ensures FreshTrials(close, ps + [p]) == FreshTrials(close, ps) + [Trial(p, FreeProfit(CalculateSma(close, p.0, p.1)))]
  {
    assert (ps + [p])[..|ps|] == ps;
  }

  /** What selecting over fresh trials yields: no pair scores more than the
      selected profit, a selected pair is one of the pairs and the selected
      profit is its own, and nothing is selected exactly when every pair's
      profit is NaN. */
  lemma FreshSearchCorrect(close: seq<real>, ps: seq<Pair>)
    ensures var best := Select(FreshTrials(close, ps), Best(NegInf, None));
      (forall p :: p in ps ==> !Greater(FreeProfit(CalculateSma(close, p.0, p.1)), best.profit)) &&
      (best.pair.Some? ==>
        best.pair.value in ps &&
        best.profit == FreeProfit(CalculateSma(close, best.pair.value.0, best.pair.value.1))) &&
      (best.pair.None? <==> forall p :: p in ps ==> FreeProfit(CalculateSma(close, p.0, p.1)) == NaN)
  {
    var start := Best(NegInf, None);
    var trials := FreshTrials(close, ps);
    var best := Select(trials, start);
    FreshTrialsAt(close, ps);
    SelectUnbeaten(trials, start);
    SelectFirstWinner(trials, start);
    forall p | p in ps ensures !Greater(FreeProfit(CalculateSma(close, p.0, p.1)), best.profit) {
      var k :| 0 <= k < |ps| && ps[k] == p;
      assert trials[k].profit == FreeProfit(CalculateSma(close, p.0, p.1));
    }
    if best.pair.None? {
      forall p | p in ps ensures FreeProfit(CalculateSma(close, p.0, p.1)) == NaN {
        var k :| 0 <= k < |ps| && ps[k] == p;
        assert trials[k].profit == FreeProfit(CalculateSma(close, p.0, p.1));
        assert !Greater(trials[k].profit, NegInf);
      }
    } else {
      var k :| 0 <= k < |trials| && best == Best(trials[k].profit, Some(trials[k].pair));
      assert ps[k] in ps;
    }
  }

  /** The free `find_optimal_ma` with each trial run on the fetched series
      (the frame is no longer reassigned inside the loop). The reported best
      profit is the profit of the returned frame, no valid pair scores more,
      the winner is the first pair in loop order to score it, and the search
      fails only when every valid pair's profit is NaN. */
  method FindOptimalMaFresh(close: seq<real>, maRange: seq<Window>) returns (r: Option<Outcome>)
    ensures var best := Select(FreshTrials(close, Pairs(maRange, maRange)), Best(NegInf, None));
      (r.None? <==> best.pair.None?) &&
      (r.Some? ==> r.value == Outcome(Annotate(CalculateSma(close, best.pair.value.0, best.pair.value.1)),
                                      best.pair.value, best.profit))
    ensures r.None? <==> forall p :: p in Pairs(maRange, maRange) ==> FreeProfit(CalculateSma(close, p.0, p.1)) == NaN
    ensures r.Some? ==> r.value.maxProfit == ProfitOf(r.value.data.buys, r.value.data.sells)
    ensures r.Some? ==> r.value.optimal in Pairs(maRange, maRange)
    ensures r.Some? ==> forall p :: p in Pairs(maRange, maRange) ==>
      !Greater(FreeProfit(CalculateSma(close, p.0, p.1)), r.value.maxProfit)
  {
    var maxProfit := NegInf;
    var optimalMa: Option<Pair> := None;
    ghost var done: seq<Pair> := [];
    for i := 0 to |maRange|
      invariant done == Pairs(maRange[..i], maRange)
      invariant Best(maxProfit, optimalMa) == Select(FreshTrials(close, done), Best(NegInf, None))
    {
      var a := maRange[i];
      ghost var rows := done;
      assert Row(a, maRange[..0]) == [];
      for j := 0 to |maRange|
        invariant done == rows + Row(a, maRange[..j])
        invariant Best(maxProfit, optimalMa) == Select(FreshTrials(close, done), Best(NegInf, None))
      {
        var b := maRange[j];
        RowAdvance(rows, a, maRange, j, done);
        if a != b {
          var annotated, profit := GenerateSignals(CalculateSma(close, a, b));
          FreshTrialsStep(close, done, (a, b));
          SelectStep(FreshTrials(close, done), Trial((a, b), profit), Best(NegInf, None));
          if Greater(profit, maxProfit) {
            maxProfit := profit;
            optimalMa := Some((a, b));
          }
          done := done + [(a, b)];
        }
      }
      assert maRange[..|maRange|] == maRange;
      PairsAdvance(maRange, i, done);
    }
    assert maRange[..|maRange|] == maRange;
    FreshSearchCorrect(close, done);
    if optimalMa.None? {
      return None;
    }
    var best := optimalMa.value;
    var annotated, profit := GenerateSignals(CalculateSma(close, best.0, best.1));
    r := Some(Outcome(annotated, best, maxProfit));
  }
}
