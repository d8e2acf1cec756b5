/** Worked examples on small series, where the two searches and the two
    generators can be followed bar by bar. */
module Scenarios {
  import opened Values
  import opened MovingAverage
  import opened Crossover
  import opened Profit
  import opened GridSearch
  import opened FreePipeline
  import opened Analyzer

  /** A three-bar series that dips and recovers. */
  const Dip: seq<real> := [2.0, 1.0, 2.0]

  /** The window range `[1, 2]`. */
  const OneTwo: seq<Window> := [1, 2]

  /** Over `[1, 2]` the search tries `(1, 2)` and then `(2, 1)`. */
  lemma OneTwoPairs()
    ensures Pairs(OneTwo, OneTwo) == [(1, 2), (2, 1)]
  {
    assert OneTwo[..1] == [1];
    assert [1][..0] == [];
    RowMembers(1, OneTwo);
    assert Row(1, OneTwo) == Row(1, [1]) + [(1, 2)];
    assert Row(1, [1]) == Row(1, []);
    assert Row(2, OneTwo) == Row(2, [1]) + [];
    assert Row(2, [1]) == Row(2, []) + [(2, 1)];
    assert Pairs([1], OneTwo) == Pairs([], OneTwo) + Row(1, OneTwo);
  }

  /** `calculate_sma` on the dip with windows `(1, 2)` keeps the last bar. */
  lemma DipFrameOneTwo()
    ensures CalculateSma(Dip, 1, 2) == Frame([2.0], [Some(2.0)], [Some(1.5)])
  {
    var f := CalculateSma(Dip, 1, 2);
    assert Dip[1..3] == [1.0, 2.0];
    assert Dip[2..3] == [2.0];
    SumOfTwo(1.0, 2.0);
    SumOfOne(2.0);
    assert f.close == [2.0];
    assert f.sma1[0] == SmaAt(Dip, 1, 2) == Some(2.0);
    assert f.sma2[0] == SmaAt(Dip, 2, 2) == Some(1.5);
  }

  /** Pair `(1, 2)` on the dip: one row is left, where the 1-bar mean is
      above the 2-bar one, so it buys and never sells: profit 0. */
  lemma DipProfitOneTwo()
    ensures FreeProfit(CalculateSma(Dip, 1, 2)) == Num(0.0)
  {
    DipFrameOneTwo();
    var f := Frame([2.0], [Some(2.0)], [Some(1.5)]);
    var a := Annotate(f);
    assert Signals(f.sma1, f.sma2, false)[0] == Buy;
    assert a.sells == [None];
    NoSellNoProfit(a.buys, a.sells);
  }

  /** `calculate_sma` on the dip with windows `(2, 1)` keeps the last two
      bars. */
  lemma DipFrameTwoOne()
    ensures CalculateSma(Dip, 2, 1) == Frame([1.0, 2.0], [Some(1.5), Some(1.5)], [Some(1.0), Some(2.0)])
  {
    var f := CalculateSma(Dip, 2, 1);
    assert Dip[0..2] == [2.0, 1.0] && Dip[1..3] == [1.0, 2.0];
    assert Dip[1..2] == [1.0] && Dip[2..3] == [2.0];
    SumOfTwo(2.0, 1.0);
    SumOfTwo(1.0, 2.0);
    SumOfOne(1.0);
    SumOfOne(2.0);
    assert f.close == [1.0, 2.0];
    assert f.sma1[0] == SmaAt(Dip, 2, 1) == Some(1.5);
    assert f.sma1[1] == SmaAt(Dip, 2, 2) == Some(1.5);
    assert f.sma2[0] == SmaAt(Dip, 1, 1) == Some(1.0);
    assert f.sma2[1] == SmaAt(Dip, 1, 2) == Some(2.0);
  }

  /** Pair `(2, 1)` on the whole dip: two rows are left; the 2-bar mean is
      above the 1-bar one at the 1.0 close and below it at the 2.0 close,
      so it buys at 1.0 and sells at 2.0: profit 1. */
  lemma DipProfitTwoOne()
    ensures FreeProfit(CalculateSma(Dip, 2, 1)) == Num(1.0)
  {
    DipFrameTwoOne();
    var f := Frame([1.0, 2.0], [Some(1.5), Some(1.5)], [Some(1.0), Some(2.0)]);
    var sigs := Signals(f.sma1, f.sma2, false);
    assert TriggerAfter(f.sma1, f.sma2, false, 1) == Long;
    assert sigs == [Buy, Sell];
    var a := Annotate(f);
    assert a.buys == [Some(1.0), None] && a.sells == [None, Some(2.0)];
    assert Scan(a.buys, a.sells, 1) == Tally(Num(0.0), 0, 0);
  }

  /** Pair `(2, 1)` after the as-written search dropped two rows for
      `(1, 2)`: one row is left, and a one-row frame with `ma_2 = 1` is
      empty after its own drop, so nothing is traded: profit 0. */
  lemma DriftProfitTwoOne()
    ensures FreeProfit(CalculateSma(Drop(Dip, 2), 2, 1)) == Num(0.0)
  {
    assert Drop(Dip, 2) == [2.0];
    assert CalculateSma([2.0], 2, 1) == Frame([], [], []);
  }

  /** The as-written trials on the dip: `(2, 1)` runs on the row that
      `(1, 2)` left behind. */
  lemma DipDriftTrials()
    ensures DriftTrials(Dip, [(1, 2), (2, 1)]) == [Trial((1, 2), Num(0.0)), Trial((2, 1), Num(0.0))]
  {
    DipProfitOneTwo();
    DriftProfitTwoOne();
    assert Drop(Dip, 0) == Dip;
    assert DropTotal([(1, 2)]) == 2 by {
      DropTotalStep([], (1, 2));
    }
    DriftTrialsStep(Dip, [], (1, 2));
    DriftTrialsStep(Dip, [(1, 2)], (2, 1));
  }

  /** Two trials scoring 0: the first one is kept. */
  lemma DriftSelectOnDip()
    ensures Select([Trial((1, 2), Num(0.0)), Trial((2, 1), Num(0.0))], Best(NegInf, None)) ==
      Best(Num(0.0), Some((1, 2)))
  {
    var t0, t1 := Trial((1, 2), Num(0.0)), Trial((2, 1), Num(0.0));
    assert [t0, t1] == [t0] + [t1];
    SelectStep([], t0, Best(NegInf, None));
    SelectStep([t0], t1, Best(NegInf, None));
  }

  /** A trial scoring 0 and then one scoring 1: the second one wins. */
  lemma FreshSelectOnDip()
    ensures Select([Trial((1, 2), Num(0.0)), Trial((2, 1), Num(1.0))], Best(NegInf, None)) ==
      Best(Num(1.0), Some((2, 1)))
  {
    var t0, t1 := Trial((1, 2), Num(0.0)), Trial((2, 1), Num(1.0));
    assert [t0, t1] == [t0] + [t1];
    SelectStep([], t0, Best(NegInf, None));
    SelectStep([t0], t1, Best(NegInf, None));
  }

  /** The corrected trials on the dip: both pairs run on the whole series. */
  lemma DipFreshTrials()
    ensures FreshTrials(Dip, [(1, 2), (2, 1)]) == [Trial((1, 2), Num(0.0)), Trial((2, 1), Num(1.0))]
  {
    DipProfitOneTwo();
    DipProfitTwoOne();
    FreshTrialsStep(Dip, [], (1, 2));
    FreshTrialsStep(Dip, [(1, 2)], (2, 1));
  }

  /** The free `find_optimal_ma` as written settles on `(1, 2)` with profit
      0 on the dip, although `(2, 1)` earns 1 on the very series it
      returns: the second trial ran on a frame the first one shortened. */
  lemma AsWrittenMissesBetterPair()
    ensures Select(DriftTrials(Dip, Pairs(OneTwo, OneTwo)), Best(NegInf, None)) == Best(Num(0.0), Some((1, 2)))
    ensures Greater(FreeProfit(CalculateSma(Dip, 2, 1)), Num(0.0))
  {
    OneTwoPairs();
    DipDriftTrials();
    DriftSelectOnDip();
    DipProfitTwoOne();
  }

  /** The corrected search picks `(2, 1)` with profit 1 on the dip. */
  lemma FreshFindsBetterPair()
    ensures Select(FreshTrials(Dip, Pairs(OneTwo, OneTwo)), Best(NegInf, None)) == Best(Num(1.0), Some((2, 1)))
  {
    OneTwoPairs();
    DipFreshTrials();
    FreshSelectOnDip();
  }

  /** Five bars that rise, fall, rise and fall. */
  const Zigzag: seq<real> := [10.0, 11.0, 9.0, 12.0, 8.0]

  lemma SumOfOne(a: real)
    ensures Sum([a]) == a
  {
    assert [a][..0] == [];
  }

  lemma SumOfTwo(a: real, b: real)
    ensures Sum([a, b]) == a + b
  {
    SumOfOne(a);
    assert Sum([a, b]) == Sum([a]) + b by {
      assert [a, b][..1] == [a];
    }
  }

  lemma SumOfThree(a: real, b: real, c: real)
    ensures Sum([a, b, c]) == a + b + c
  {
    assert Sum([a, b, c]) == Sum([a, b]) + c by {
      assert [a, b, c][..2] == [a, b];
    }
    SumOfTwo(a, b);
  }

  /** The 2-bar means of the zigzag. */
  lemma ZigzagTwoBarMeans()
    ensures Sma(Zigzag, 2) == [None, Some(10.5), Some(10.0), Some(10.5), Some(10.0)]
  {
    assert Zigzag[0..2] == [10.0, 11.0];
    assert Zigzag[1..3] == [11.0, 9.0];
    assert Zigzag[2..4] == [9.0, 12.0];
    assert Zigzag[3..5] == [12.0, 8.0];
    SumOfTwo(10.0, 11.0);
    SumOfTwo(11.0, 9.0);
    SumOfTwo(9.0, 12.0);
    SumOfTwo(12.0, 8.0);
  }

  /** The 3-bar means of the zigzag. */
  lemma ZigzagThreeBarMeans()
    ensures Sma(Zigzag, 3) == [None, None, Some(10.0), Some(32.0 / 3.0), Some(29.0 / 3.0)]
  {
    var s := Sma(Zigzag, 3);
    assert Zigzag[0..3] == [10.0, 11.0, 9.0];
    assert Zigzag[1..4] == [11.0, 9.0, 12.0];
    assert Zigzag[2..5] == [9.0, 12.0, 8.0];
    SumOfThree(10.0, 11.0, 9.0);
    SumOfThree(11.0, 9.0, 12.0);
    SumOfThree(9.0, 12.0, 8.0);
    assert s[2] == SmaAt(Zigzag, 3, 2) == Some(30.0 / 3.0);
    assert s[3] == SmaAt(Zigzag, 3, 3) == Some(32.0 / 3.0);
    assert s[4] == SmaAt(Zigzag, 3, 4) == Some(29.0 / 3.0);
  }

  /** The 2-bar and 3-bar means of the zigzag. */
  lemma ZigzagAverages()
    ensures Sma(Zigzag, 2) == [None, Some(10.5), Some(10.0), Some(10.5), Some(10.0)]
    ensures Sma(Zigzag, 3) == [None, None, Some(10.0), Some(32.0 / 3.0), Some(29.0 / 3.0)]
  {
    ZigzagTwoBarMeans();
    ZigzagThreeBarMeans();
  }

  /** The class generator on the zigzag with windows `(2, 3)`: the bar-0
      fallback buys at 10, the 2-bar mean dropping below the 3-bar one
      sells at 12, and its rising back above buys at 8; the sale books 2. */
  lemma ZigzagClassTrace()
    ensures PairBuys(Zigzag, (2, 3)) == [Some(10.0), None, None, None, Some(8.0)]
    ensures PairSells(Zigzag, (2, 3)) == [None, None, None, Some(12.0), None]
    ensures PairProfit(Zigzag, (2, 3)) == Num(2.0)
  {
    ZigzagAverages();
    var s1, s2 := Sma(Zigzag, 2), Sma(Zigzag, 3);
    assert TriggerAfter(s1, s2, true, 1) == Long;
    assert TriggerAfter(s1, s2, true, 2) == Long;
    assert TriggerAfter(s1, s2, true, 3) == Long;
    assert TriggerAfter(s1, s2, true, 4) == Short;
    var sigs := ClassSignals(Zigzag, 2, 3);
    assert sigs == [Buy, Hold, Hold, Sell, Buy];
    var buys, sells := PairBuys(Zigzag, (2, 3)), PairSells(Zigzag, (2, 3));
    assert buys == [Some(10.0), None, None, None, Some(8.0)];
    assert sells == [None, None, None, Some(12.0), None];
    assert Scan(buys, sells, 3) == Tally(Num(0.0), 0, 0);
    assert Scan(buys, sells, 4) == Tally(Num(2.0), 0, 3);
  }

  /** `calculate_sma` on the zigzag with windows `(2, 3)` keeps the last
      two bars and their means. */
  lemma ZigzagFreeFrame()
    ensures CalculateSma(Zigzag, 2, 3) ==
      Frame([12.0, 8.0], [Some(10.5), Some(10.0)], [Some(32.0 / 3.0), Some(29.0 / 3.0)])
  {
    ZigzagAverages();
    assert Zigzag[3..] == [12.0, 8.0];
  }

  /** The free generator on those two bars: the first sells before any
      Buy, the second buys. */
  lemma ZigzagFreeSignals()
    ensures var f := Frame([12.0, 8.0], [Some(10.5), Some(10.0)], [Some(32.0 / 3.0), Some(29.0 / 3.0)]);
      Annotate(f) == Annotated(f, [None, Some(8.0)], [Some(12.0), None])
  {
    var sma1: seq<Option<real>> := [Some(10.5), Some(10.0)];
    var sma2: seq<Option<real>> := [Some(32.0 / 3.0), Some(29.0 / 3.0)];
    assert TriggerAfter(sma1, sma2, false, 1) == Short;
    assert Signals(sma1, sma2, false) == [Sell, Buy];
  }

  /** The free pipeline on the zigzag with windows `(2, 3)`: only the last
      two bars survive `calculate_sma`; the first of them sells before any
      Buy, which books nothing, and the second buys: profit 0. */
  lemma ZigzagFreeTrace()
    ensures Annotate(CalculateSma(Zigzag, 2, 3)).buys == [None, Some(8.0)]
    ensures Annotate(CalculateSma(Zigzag, 2, 3)).sells == [Some(12.0), None]
    ensures FreeProfit(CalculateSma(Zigzag, 2, 3)) == Num(0.0)
  {
    ZigzagFreeFrame();
    ZigzagFreeSignals();
    var buys: seq<Option<real>> := [None, Some(8.0)];
    var sells: seq<Option<real>> := [Some(12.0), None];
    assert Scan(buys, sells, 1) == Tally(Num(0.0), 0, 0);
    assert Scan(buys, sells, 2) == Tally(Num(0.0), 1, 0);
  }
}
