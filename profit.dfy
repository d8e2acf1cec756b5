/** The profit scorer: a left-to-right pass over the Buy and Sell columns
    that keeps the index of the last Buy and of the last Sell seen and books
    `sell - buy` for a Sell that comes strictly after the last Buy; and the
    first-Buy/last-Sell investment simulation's helpers. */
module Profit {
  import opened Values

  /** The loop variables of `calculate_profit`. */
  datatype Tally = Tally(profit: Float, buyIdx: nat, sellIdx: nat)

  /** What a booked sale adds: `sell - buy`, NaN when the Buy entry it is
      measured against is NaN. */
  function Gain(sell: real, buy: Option<real>): Float
  {
    if buy.Some? then Num(sell - buy.value) else NaN
  }

  /** The loop variables after bars `0 .. k-1`. */
  function Scan(buys: seq<Option<real>>, sells: seq<Option<real>>, k: nat): (t: Tally)
    requires k <= |buys| <= |sells|
    ensures t.buyIdx == 0 || t.buyIdx < k
    ensures t.profit != NegInf
  {
    if k == 0 then Tally(Num(0.0), 0, 0)
    else
      var t := Scan(buys, sells, k - 1);
      var x := k - 1;
      var b := if buys[x].Some? then x else t.buyIdx;
      if sells[x].Some? then
        Tally(if x > b then Add(t.profit, Gain(sells[x].value, buys[b])) else t.profit, b, x)
      else
        Tally(t.profit, b, t.sellIdx)
  }

  /** The value `calculate_profit` returns. */
  function ProfitOf(buys: seq<Option<real>>, sells: seq<Option<real>>): (r: Float)
    requires |buys| <= |sells|
    ensures r != NegInf
  {
    Scan(buys, sells, |buys|).profit
  }

  /** The free `calculate_profit`: the loop over both columns. */
  method CalculateProfit(buys: seq<Option<real>>, sells: seq<Option<real>>) returns (profit: Float)
    requires |buys| <= |sells|
    ensures profit == ProfitOf(buys, sells)
  {
    profit := Num(0.0);
    var sellIdx, buyIdx := 0, 0;
    for x := 0 to |buys|
      invariant Scan(buys, sells, x) == Tally(profit, buyIdx, sellIdx)
    {
      if buys[x].Some? {
        buyIdx := x;
      }
      if sells[x].Some? {
        sellIdx := x;
        if sellIdx > buyIdx {
          profit := Add(profit, Gain(sells[sellIdx].value, buys[buyIdx]));
        }
      }
    }
  }

  // An independent description of the same figure, sale by sale.

  /** The last bar at or before `x` whose Buy entry is present, or 0 when
      there is none. */
  function LastBuy(buys: seq<Option<real>>, x: nat): (b: nat)
    requires x < |buys|
    ensures b <= x
    ensures forall y :: b < y <= x ==> buys[y].None?
    ensures buys[b].Some? || (b == 0 && forall y :: 0 <= y <= x ==> buys[y].None?)
  {
    if buys[x].Some? || x == 0 then x else LastBuy(buys, x - 1)
  }

  /** What the Sell at bar `s` books: its price minus the price of the last
      Buy at or before `s`, when that Buy is strictly earlier; nothing
      otherwise. */
  function Booked(buys: seq<Option<real>>, sells: seq<Option<real>>, s: nat): Float
    requires s < |buys| <= |sells|
  {
    var b := LastBuy(buys, s);
    if sells[s].Some? && s > b then Gain(sells[s].value, buys[b]) else Num(0.0)
  }

  /** The bookings of bars `0 .. k-1`, added up in bar order. */
  function TotalBooked(buys: seq<Option<real>>, sells: seq<Option<real>>, k: nat): (r: Float)
    requires k <= |buys| <= |sells|
    ensures r != NegInf
  {
    if k == 0 then Num(0.0) else Add(TotalBooked(buys, sells, k - 1), Booked(buys, sells, k - 1))
  }

  /** The loop's `buyIdx` is the last Buy seen, or 0 before any Buy. */
  lemma {:induction false} ScanTracksLastBuy(buys: seq<Option<real>>, sells: seq<Option<real>>, k: nat)
    requires 0 < k <= |buys| <= |sells|
    ensures Scan(buys, sells, k).buyIdx == LastBuy(buys, k - 1)
  {
    if k > 1 {
      ScanTracksLastBuy(buys, sells, k - 1);
    }
  }

  /** The index-tracking loop books exactly the sale-by-sale amounts. */
  lemma {:induction false} ScanBooksEachSell(buys: seq<Option<real>>, sells: seq<Option<real>>, k: nat)
    requires k <= |buys| <= |sells|
    ensures Scan(buys, sells, k).profit == TotalBooked(buys, sells, k)
  {
    if k > 0 {
      ScanBooksEachSell(buys, sells, k - 1);
      ScanTracksLastBuy(buys, sells, k);
      var x := k - 1;
      var p := TotalBooked(buys, sells, x);
      var b := Scan(buys, sells, k).buyIdx;
      if !(sells[x].Some? && x > b) {
        assert Add(p, Num(0.0)) == p;
      }
    }
  }

  lemma {:induction false} SilentPrefixBooksNothing(buys: seq<Option<real>>, sells: seq<Option<real>>, k: nat)
    requires k <= |buys| <= |sells|
    requires forall x :: 0 <= x < k ==> sells[x].None?
    ensures Scan(buys, sells, k).profit == Num(0.0)
  {
    if k > 0 {
      SilentPrefixBooksNothing(buys, sells, k - 1);
    }
  }

  /** Without any Sell the profit is 0. */
  lemma NoSellNoProfit(buys: seq<Option<real>>, sells: seq<Option<real>>)
    requires |buys| <= |sells|
    requires forall x :: 0 <= x < |buys| ==> sells[x].None?
    ensures ProfitOf(buys, sells) == Num(0.0)
  {
    SilentPrefixBooksNothing(buys, sells, |buys|);
  }

  lemma {:induction false} TotalNaNIff(buys: seq<Option<real>>, sells: seq<Option<real>>, k: nat)
    requires k <= |buys| <= |sells|
    ensures TotalBooked(buys, sells, k) == NaN <==>
      exists s :: 0 <= s < k && Booked(buys, sells, s) == NaN
  {
    if k > 0 {
      TotalNaNIff(buys, sells, k - 1);
    }
  }

  lemma BookedNaNIff(buys: seq<Option<real>>, sells: seq<Option<real>>, s: nat)
    requires s < |buys| <= |sells|
    ensures Booked(buys, sells, s) == NaN <==>
      0 < s && sells[s].Some? && forall b :: 0 <= b <= s ==> buys[b].None?
  {
  }

  /** The profit is NaN exactly when some Sell after bar 0 comes before
      every Buy: that Sell is measured against the NaN Buy entry of bar 0. */
  lemma ProfitNaNIff(buys: seq<Option<real>>, sells: seq<Option<real>>)
    requires |buys| <= |sells|
    ensures ProfitOf(buys, sells) == NaN <==>
      exists s :: 0 < s < |buys| && sells[s].Some? && forall b :: 0 <= b <= s ==> buys[b].None?
  {
    ScanBooksEachSell(buys, sells, |buys|);
    TotalNaNIff(buys, sells, |buys|);
    forall s | 0 <= s < |buys| {
      BookedNaNIff(buys, sells, s);
    }
  }

  /** When bar 0 holds a Buy the profit is a finite number. */
  lemma ProfitFiniteWhenFirstBarBuys(buys: seq<Option<real>>, sells: seq<Option<real>>)
    requires |buys| <= |sells|
    requires |buys| == 0 || buys[0].Some?
    ensures ProfitOf(buys, sells).Num?
  {
    ProfitNaNIff(buys, sells);
  }

  // `dropna().iloc[0]` and `dropna().iloc[-1]` on a signal column.

  predicate HasEntry(col: seq<Option<real>>)
  {
    exists i :: 0 <= i < |col| && col[i].Some?
  }

  /** The first bar at or after `k` whose entry is present. */
  function FirstEntryFrom(col: seq<Option<real>>, k: nat): (i: nat)
    requires exists j :: k <= j < |col| && col[j].Some?
    ensures k <= i < |col| && col[i].Some?
    ensures forall j :: k <= j < i ==> col[j].None?
    decreases |col| - k
  {
    if col[k].Some? then k else FirstEntryFrom(col, k + 1)
  }

  /** The last bar before `k` whose entry is present. */
  function LastEntryBefore(col: seq<Option<real>>, k: nat): (i: nat)
    requires k <= |col|
    requires exists j :: 0 <= j < k && col[j].Some?
    ensures i < k && col[i].Some?
    ensures forall j :: i < j < k ==> col[j].None?
  {
    if col[k - 1].Some? then k - 1 else LastEntryBefore(col, k - 1)
  }

  /** The first present entry's bar. */
  function FirstEntry(col: seq<Option<real>>): (i: nat)
    requires HasEntry(col)
    ensures i < |col| && col[i].Some?
    ensures forall j :: 0 <= j < i ==> col[j].None?
  {
    FirstEntryFrom(col, 0)
  }

  /** The last present entry's bar. */
  function LastEntry(col: seq<Option<real>>): (i: nat)
    requires HasEntry(col)
    ensures i < |col| && col[i].Some?
    ensures forall j :: i < j < |col| ==> col[j].None?
  {
    LastEntryBefore(col, |col|)
  }
}
