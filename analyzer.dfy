/** The `StockAnalyzer` object: one fetched close series, the moving-average
    columns computed on it so far, the signal columns and profit of the
    current window pair, and the best pair a grid search has found. Unlike
    the free pipeline it never drops rows, and its generator buys at bar 0
    when neither comparison fires there. */
module Analyzer {
  import opened Values
  import opened MovingAverage
  import opened Crossover
  import opened Profit
  import opened GridSearch

  /** The signals the class generator emits for windows `w1` and `w2`. */
  function ClassSignals(close: seq<real>, w1: Window, w2: Window): (r: seq<Signal>)
    ensures |r| == |close|
  {
    Signals(Sma(close, w1), Sma(close, w2), true)
  }

  /** The "Buy Signals" column the class generator writes for a pair. */
  function PairBuys(close: seq<real>, p: Pair): (r: seq<Option<real>>)
    ensures |r| == |close|
  {
    Column(close, ClassSignals(close, p.0, p.1), Buy)
  }

  /** The "Sell Signals" column the class generator writes for a pair. */
  function PairSells(close: seq<real>, p: Pair): (r: seq<Option<real>>)
    ensures |r| == |close|
  {
    Column(close, ClassSignals(close, p.0, p.1), Sell)
  }

  /** Because the class generator's bar 0 always holds a Buy, no Sell is
      ever measured against a NaN Buy entry: the profit of every pair on
      every close series is a finite number. */
  lemma ClassProfitFinite(close: seq<real>, p: Pair)
    ensures ProfitOf(PairBuys(close, p), PairSells(close, p)).Num?
  {
    var buys, sells := PairBuys(close, p), PairSells(close, p);
    if |close| > 0 {
      ClassFirstBarBuys(close, p.0, p.1);
      assert buys[0] == Some(close[0]);
    }
    ProfitFiniteWhenFirstBarBuys(buys, sells);
  }

  /** The profit the object reports after `set_sma`, `generate_signals` and
      `calculate_profit` for one pair: always finite. */
  function PairProfit(close: seq<real>, p: Pair): (r: Float)
    ensures r.Num?
  {
    ClassProfitFinite(close, p);
    ProfitOf(PairBuys(close, p), PairSells(close, p))
  }

  /** The trials the object's grid search makes, in loop order. */
  function ClassTrials(close: seq<real>, ps: seq<Pair>): (ts: seq<Trial>)
    ensures |ts| == |ps|
  {
    if ps == [] then []
    else ClassTrials(close, ps[..|ps| - 1]) + [Trial(ps[|ps| - 1], PairProfit(close, ps[|ps| - 1]))]
  }

  lemma ClassTrialsStep(close: seq<real>, ps: seq<Pair>, p: Pair)
    ensures ClassTrials(close, ps + [p]) == ClassTrials(close, ps) + [Trial(p, PairProfit(close, p))]
  {
    assert (ps + [p])[..|ps|] == ps;
  }

  /** Trial `k` scores pair `k` on the whole series. */
  lemma {:induction false} ClassTrialsAt(close: seq<real>, ps: seq<Pair>)
    ensures forall k :: 0 <= k < |ps| ==> ClassTrials(close, ps)[k] == Trial(ps[k], PairProfit(close, ps[k]))
  {
    if ps != [] {
      var pre := ps[..|ps| - 1];
      ClassTrialsAt(close, pre);
      forall k | 0 <= k < |ps| - 1
        ensures ClassTrials(close, ps)[k] == Trial(ps[k], PairProfit(close, ps[k]))
      {
        assert ClassTrials(close, ps)[k] == ClassTrials(close, pre)[k];
        assert pre[k] == ps[k];
      }
    }
  }

  /** One more pair tried by the object: it takes over the best-so-far
      exactly when its profit is strictly greater. */
  lemma ClassSelectStep(close: seq<real>, done: seq<Pair>, p: Pair, start: Best)
    ensures var b := Select(ClassTrials(close, done), start);
      Select(ClassTrials(close, done + [p]), start) ==
        if Greater(PairProfit(close, p), b.profit) then Best(PairProfit(close, p), Some(p)) else b
  {
    ClassTrialsStep(close, done, p);
    SelectStep(ClassTrials(close, done), Trial(p, PairProfit(close, p)), start);
  }

  /** A best-so-far that is either the initial `(-inf, None)` or the
      profit of its own pair on `close`. */
  predicate Consistent(close: seq<real>, b: Best)
  {
    (b.pair.None? <==> b.profit == NegInf) &&
    (b.pair.Some? ==> b.profit == PairProfit(close, b.pair.value))
  }

  /** What the object's search yields from a consistent best-so-far: a
      consistent best that no tried pair and not the starting best beats,
      which is the starting one or one of the tried pairs, and which holds a
      pair as soon as one pair was tried. */
  lemma ClassSearchCorrect(close: seq<real>, ps: seq<Pair>, start: Best)
    requires Consistent(close, start)
    ensures var best := Select(ClassTrials(close, ps), start);
      Consistent(close, best) &&
      !Greater(start.profit, best.profit) &&
      (forall p :: p in ps ==> !Greater(PairProfit(close, p), best.profit)) &&
      (best == start || best.pair.value in ps) &&
      (ps != [] ==> best.pair.Some?)
  {
    var trials := ClassTrials(close, ps);
    var best := Select(trials, start);
    ClassTrialsAt(close, ps);
    SelectUnbeaten(trials, start);
    SelectFirstWinner(trials, start);
    forall p | p in ps ensures !Greater(PairProfit(close, p), best.profit) {
      var k :| 0 <= k < |ps| && ps[k] == p;
      assert trials[k].profit == PairProfit(close, p);
    }
    if best != start {
      var k :| 0 <= k < |trials| && best == Best(trials[k].profit, Some(trials[k].pair));
      assert ps[k] in ps;
    }
  }

  class StockAnalyzer {
    /** The windows the grid search tries, in order. */
    const maRange: seq<Window>
    /** The "Close" column of the fetched history. */
    const close: seq<real>
    /** The `SMA_{w}` columns present in the frame, by window. */
    var sma: map<Window, seq<Option<real>>>
    /** The "Buy Signals" and "Sell Signals" columns. */
    var buys: seq<Option<real>>
    var sells: seq<Option<real>>
    /** Whether the frame has the "Buy Signals" and "Sell Signals" columns
        at all: they exist once `generate_signals` has run. */
    var hasSignals: bool
    var ma1: Window
    var ma2: Window
    var profit: Float
    var maxProfit: Float
    var optimalMa: Option<Pair>

    /** Every moving-average column present is the rolling mean of the
        close series for its window, and the signal columns are equally
        long. */
    predicate Valid()
      reads this`sma, this`buys, this`sells
    {
      (forall w :: w in sma ==> sma[w] == Sma(close, w)) &&
      |buys| == |sells|
    }

    /** `__init__` followed by `get_data`, the fetched close series given
        as a parameter: no column computed yet, profit and best profit
        `-inf`, no optimum. */
    constructor (range: seq<Window>, w1: Window, w2: Window, history: seq<real>)
      ensures Valid() && Consistent(close, Best(maxProfit, optimalMa))
      ensures maRange == range && close == history && ma1 == w1 && ma2 == w2
      ensures sma == map[] && buys == [] && sells == [] && !hasSignals
      ensures profit == NegInf && maxProfit == NegInf && optimalMa == None
    {
      maRange := range;
      close := history;
      sma := map[];
      buys, sells := [], [];
      hasSignals := false;
      ma1, ma2 := w1, w2;
      profit, maxProfit := NegInf, NegInf;
      optimalMa := None;
    }

    /** `set_sma`: (re)writes the `SMA_{ma_1}` and `SMA_{ma_2}` columns. */
    method SetSma()
      requires Valid()
      modifies this`sma
      ensures Valid()
      ensures sma == old(sma)[ma1 := Sma(close, ma1)][ma2 := Sma(close, ma2)]
    {
      sma := sma[ma1 := Sma(close, ma1)][ma2 := Sma(close, ma2)];
    }

    /** `generate_signals`: one pass carrying the trigger, buying at bar 0
        when neither comparison fires there, writing both signal columns. */
    method GenerateSignals()
      requires Valid() && ma1 in sma && ma2 in sma
      modifies this`buys, this`sells, this`hasSignals
      ensures Valid() && hasSignals
      ensures buys == PairBuys(close, (ma1, ma2)) && sells == PairSells(close, (ma1, ma2))
    {
      buys, sells := GenerateColumns(close, sma[ma1], sma[ma2], true);
      hasSignals := true;
    }

    /** `calculate_profit` on the object's signal columns; the same index-tracking
        loop as the free function. */
    method CalculateProfit()
      requires Valid() && hasSignals
      modifies this`profit
      ensures Valid()
      ensures profit == ProfitOf(buys, sells)
    {
      profit := Profit.CalculateProfit(buys, sells);
    }

    /** One trial of the search: the object's windows set to `(a, b)`
        followed by `set_sma`, `generate_signals` and `calculate_profit`. */
    method Evaluate(a: Window, b: Window)
      requires Valid()
      modifies this`ma1, this`ma2, this`sma, this`buys, this`sells, this`hasSignals, this`profit
      ensures Valid() && hasSignals
      ensures ma1 == a && ma2 == b && sma.Keys == old(sma).Keys + {a, b}
      ensures buys == PairBuys(close, (a, b)) && sells == PairSells(close, (a, b))
      ensures profit == PairProfit(close, (a, b))
    {
      ma1, ma2 := a, b;
      SetSma();
      GenerateSignals();
      CalculateProfit();
    }

    /** One iteration of the search's inner loop for two different
        windows: evaluate the pair, and make it the best-so-far when its
        profit is strictly greater. After the trials `done`, this is one
        more step of the selection, and the object holds the pair's
        windows, columns and profit. */
    method TryPair(a: Window, b: Window, ghost done: seq<Pair>, ghost start: Best)
      requires Valid() && Consistent(close, Best(maxProfit, optimalMa))
      requires Best(maxProfit, optimalMa) == Select(ClassTrials(close, done), start)
      modifies this
      ensures Valid() && Consistent(close, Best(maxProfit, optimalMa))
      ensures Best(maxProfit, optimalMa) == Select(ClassTrials(close, done + [(a, b)]), start)
      ensures ma1 == a && ma2 == b && sma.Keys == old(sma).Keys + {a, b}
      ensures profit == PairProfit(close, (a, b)) && hasSignals
      ensures buys == PairBuys(close, (a, b)) && sells == PairSells(close, (a, b))
    {
      ClassSelectStep(close, done, (a, b), start);
      Evaluate(a, b);
      if Greater(profit, maxProfit) {
        maxProfit, optimalMa := profit, Some((a, b));
      }
    }

    /** The object holds the windows, columns and profit of the pair `p`. */
    ghost predicate Holds(p: Pair)
      reads this
    {
      (ma1, ma2) == p && ma1 in sma && ma2 in sma && profit == PairProfit(close, p) &&
      hasSignals && buys == PairBuys(close, p) && sells == PairSells(close, p)
    }

    /** The inner loop of the search for `ma_1 = a`: every window of the
        range other than `a` is tried as `ma_2`, in order. Afterwards the
        object holds the windows, columns and profit of the row's last pair,
        or is as before when the row is empty. */
    method SearchRow(a: Window, ghost done: seq<Pair>, ghost start: Best)
      requires Valid() && Consistent(close, Best(maxProfit, optimalMa))
      requires Best(maxProfit, optimalMa) == Select(ClassTrials(close, done), start)
      modifies this
      ensures Valid() && Consistent(close, Best(maxProfit, optimalMa))
      ensures Best(maxProfit, optimalMa) == Select(ClassTrials(close, done + Row(a, maRange)), start)
      ensures forall w :: w in old(sma) ==> w in sma
      ensures Row(a, maRange) == [] ==>
        unchanged(this`ma1, this`ma2, this`sma, this`buys, this`sells, this`hasSignals, this`profit)
      ensures Row(a, maRange) != [] ==>
        var last := Row(a, maRange)[|Row(a, maRange)| - 1];
        (ma1, ma2) == last && ma1 in sma && ma2 in sma && profit == PairProfit(close, last) &&
        hasSignals && buys == PairBuys(close, last) && sells == PairSells(close, last)
    {
      ghost var tried := done;
      ghost var last: Option<Pair> := None;
      assert maRange[..0] == [];
      for j := 0 to |maRange|
        invariant Valid() && Consistent(close, Best(maxProfit, optimalMa))
        invariant tried == done + Row(a, maRange[..j])
        invariant Best(maxProfit, optimalMa) == Select(ClassTrials(close, tried), start)
        invariant last == LastPair(a, maRange[..j])
        invariant forall w :: w in old(sma) ==> w in sma
        invariant last.None? ==>
          unchanged(this`ma1, this`ma2, this`sma, this`buys, this`sells, this`hasSignals, this`profit)
        invariant last.Some? ==> Holds(last.value)
      {
        var b := maRange[j];
        RowAdvance(done, a, maRange, j, tried);
        LastPairAdvance(a, maRange, j);
        if a != b {
          TryPair(a, b, tried, start);
          tried, last := tried + [(a, b)], Some((a, b));
        }
      }
      assert maRange[..|maRange|] == maRange;
      LastPairOfRow(a, maRange);
    }

    /** Both loops of `find_optimal_ma`: the pairs of two different windows
        of the range are tried in loop order, starting from the best-so-far
        that earlier searches left. Columns written before stay present. */
    method SearchPairs()
      requires Valid() && Consistent(close, Best(maxProfit, optimalMa))
      modifies this
      ensures Valid() && Consistent(close, Best(maxProfit, optimalMa))
      ensures Best(maxProfit, optimalMa) ==
        Select(ClassTrials(close, Pairs(maRange, maRange)), Best(old(maxProfit), old(optimalMa)))
      ensures forall w :: w in old(sma) ==> w in sma
      ensures old(hasSignals) ==> hasSignals
    {
      ghost var start := Best(maxProfit, optimalMa);
      ghost var done: seq<Pair> := [];
      for i := 0 to |maRange|
        invariant Valid() && Consistent(close, Best(maxProfit, optimalMa))
        invariant done == Pairs(maRange[..i], maRange)
        invariant Best(maxProfit, optimalMa) == Select(ClassTrials(close, done), start)
        invariant forall w :: w in old(sma) ==> w in sma
        invariant old(hasSignals) ==> hasSignals
      {
        SearchRow(maRange[i], done, start);
        done := done + Row(maRange[i], maRange);
        PairsAdvance(maRange, i, done);
      }
      assert maRange[..|maRange|] == maRange;
    }

    /** `find_optimal_ma`: every pair of two different windows of the range
        is evaluated on the whole series, in loop order, and replaces the
        best-so-far (which carries over from earlier searches) only when it
        scores strictly more; then the object is left holding the columns
        and profit of the best pair. `ok` is false where indexing the
        optimum raises because no search ever found one: exactly when no
        earlier search succeeded and the range holds no two different
        windows. */
    method FindOptimalMa() returns (ok: bool)
      requires Valid() && Consistent(close, Best(maxProfit, optimalMa))
      modifies this
      ensures ok <==>
        (old(optimalMa).Some? ||
         exists i, j :: 0 <= i < |maRange| && 0 <= j < |maRange| && maRange[i] != maRange[j])
      ensures Valid() && Consistent(close, Best(maxProfit, optimalMa))
      ensures Best(maxProfit, optimalMa) ==
        Select(ClassTrials(close, Pairs(maRange, maRange)), Best(old(maxProfit), old(optimalMa)))
      ensures optimalMa == old(optimalMa) || (optimalMa.Some? && optimalMa.value in Pairs(maRange, maRange))
      ensures !Greater(old(maxProfit), maxProfit)
      ensures forall p :: p in Pairs(maRange, maRange) ==> !Greater(PairProfit(close, p), maxProfit)
      ensures forall w :: w in old(sma) ==> w in sma
      ensures old(hasSignals) ==> hasSignals
      ensures ok ==> optimalMa.Some? && (ma1, ma2) == optimalMa.value && ma1 in sma && ma2 in sma
      ensures ok ==> hasSignals
      ensures ok ==> profit == maxProfit && profit.Num?
      ensures ok ==> buys == PairBuys(close, (ma1, ma2)) && sells == PairSells(close, (ma1, ma2))
    {
      ghost var start := Best(maxProfit, optimalMa);
      SearchPairs();
      ClassSearchCorrect(close, Pairs(maRange, maRange), start);
      PairsNonEmpty(maRange);
      if optimalMa.None? {
        return false;
      }
      Evaluate(optimalMa.value.0, optimalMa.value.1);
      ok := true;
    }

    /** `calc_invest_return`: buys `invest` worth of shares at the first
        Buy price and values them at the last Sell price. The result is in
        the ratio of the two prices to the investment, and for a positive
        investment at a positive price it exceeds the investment exactly
        when the last Sell price exceeds the first Buy price. */
    function CalcInvestReturn(invest: real): (r: real)
      reads this
      requires HasEntry(buys) && HasEntry(sells)
      requires buys[FirstEntry(buys)].value != 0.0
      ensures var firstBuy, lastSell := buys[FirstEntry(buys)].value, sells[LastEntry(sells)].value;
        r * firstBuy == invest * lastSell &&
        (invest > 0.0 && firstBuy > 0.0 ==> (r > invest <==> lastSell > firstBuy))
    {
      var firstBuy := buys[FirstEntry(buys)].value;
      var lastSell := sells[LastEntry(sells)].value;
      var shares := invest / firstBuy;
      ReturnRatio(invest, firstBuy, lastSell);
      shares * lastSell
    }
  }

  /** `invest / buy * sell` scaled back by the Buy price is `invest * sell`,
      and beats `invest` exactly when `sell > buy` for positive amounts. */
  lemma ReturnRatio(invest: real, buy: real, sell: real)
    requires buy != 0.0
    ensures invest / buy * sell * buy == invest * sell
    ensures invest > 0.0 && buy > 0.0 ==> (invest / buy * sell > invest <==> sell > buy)
  {
    var shares := invest / buy;
    assert shares * buy == invest;
    assert shares * sell * buy == shares * buy * sell;
    if invest > 0.0 && buy > 0.0 {
      assert shares > 0.0;
      assert shares * sell - invest == shares * (sell - buy);
    }
  }
}
