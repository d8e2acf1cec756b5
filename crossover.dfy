/** The crossover signal generator: a left-to-right pass over two moving
    averages that carries a trigger state and emits at most one Buy or Sell
    per bar. The class-based generator and the free function differ in one
    branch: the class one buys at bar 0 when neither comparison fires; the
    `firstBarBuy` flag selects that branch. */
module Crossover {
  import opened Values
  import opened MovingAverage

  /** The generator's `trigger`: 0 before any signal, 1 after a Buy, -1
      after a Sell. */
  datatype Trigger = Flat | Long | Short

  /** What one bar emits; `Hold` leaves both signal columns NaN. */
  datatype Signal = Hold | Buy | Sell

  /** `f > s` on two moving-average entries; false when either is NaN. */
  predicate Above(f: Option<real>, s: Option<real>)
  {
    f.Some? && s.Some? && f.value > s.value
  }

  /** `f < s` on two moving-average entries; false when either is NaN. */
  predicate Below(f: Option<real>, s: Option<real>)
  {
    f.Some? && s.Some? && f.value < s.value
  }

  /** The if/elif chain of one loop iteration, given the trigger before it. */
  function Decide(t: Trigger, f: Option<real>, s: Option<real>, firstBarBuy: bool): Signal
  {
    if Above(f, s) && t != Long then Buy
    else if Below(f, s) && t != Short then Sell
    else if firstBarBuy then Buy
    else Hold
  }

  /** The trigger after a bar that emitted `sig`. */
  function After(t: Trigger, sig: Signal): Trigger
  {
    match sig
    case Buy => Long
    case Sell => Short
    case Hold => t
  }

  /** The trigger once bars `0 .. k-1` have been processed. */
  function TriggerAfter(sma1: seq<Option<real>>, sma2: seq<Option<real>>, firstBarBuy: bool, k: nat): Trigger
    requires k <= |sma1| && k <= |sma2|
  {
    if k == 0 then Flat
    else
      var t := TriggerAfter(sma1, sma2, firstBarBuy, k - 1);
      After(t, Decide(t, sma1[k - 1], sma2[k - 1], firstBarBuy && k - 1 == 0))
  }

  /** What bar `x` emits. */
  function SignalAt(sma1: seq<Option<real>>, sma2: seq<Option<real>>, firstBarBuy: bool, x: nat): Signal
    requires x < |sma1| && x < |sma2|
  {
    Decide(TriggerAfter(sma1, sma2, firstBarBuy, x), sma1[x], sma2[x], firstBarBuy && x == 0)
  }

  /** The signal of every bar. */
  function Signals(sma1: seq<Option<real>>, sma2: seq<Option<real>>, firstBarBuy: bool): (r: seq<Signal>)
    requires |sma1| == |sma2|
    ensures |r| == |sma1|
    ensures forall x :: 0 <= x < |r| ==> r[x] == SignalAt(sma1, sma2, firstBarBuy, x)
  {
    seq(|sma1|, x requires 0 <= x < |sma1| => SignalAt(sma1, sma2, firstBarBuy, x))
  }

  /** The "Buy Signals" (kind Buy) or "Sell Signals" (kind Sell) column: the
      bar's close where the bar emitted that kind, NaN elsewhere. */
  function Column(close: seq<real>, sigs: seq<Signal>, kind: Signal): (r: seq<Option<real>>)
    requires |sigs| == |close|
    ensures |r| == |close|
  {
    seq(|close|, x requires 0 <= x < |close| => if sigs[x] == kind then Some(close[x]) else None)
  }

  /** The loop of `generate_signals`: one pass over the bars carrying the
      trigger, appending the close to the Buy or the Sell list, or NaN to
      both. With `firstBarBuy` it is the class generator's loop, whose
      extra branch buys at bar 0 when neither comparison fires. */
  method GenerateColumns(close: seq<real>, sma1: seq<Option<real>>, sma2: seq<Option<real>>, firstBarBuy: bool)
    returns (buys: seq<Option<real>>, sells: seq<Option<real>>)
    requires |sma1| == |close| && |sma2| == |close|
    ensures buys == Column(close, Signals(sma1, sma2, firstBarBuy), Buy)
    ensures sells == Column(close, Signals(sma1, sma2, firstBarBuy), Sell)
  {
    buys, sells := [], [];
    var trigger := Flat;
    for x := 0 to |close|
      invariant |buys| == x && |sells| == x
      invariant trigger == TriggerAfter(sma1, sma2, firstBarBuy, x)
      invariant forall i :: 0 <= i < x ==>
        buys[i] == if SignalAt(sma1, sma2, firstBarBuy, i) == Buy then Some(close[i]) else None
      invariant forall i :: 0 <= i < x ==>
        sells[i] == if SignalAt(sma1, sma2, firstBarBuy, i) == Sell then Some(close[i]) else None
    {
      if Above(sma1[x], sma2[x]) && trigger != Long {
        buys, sells := buys + [Some(close[x])], sells + [None];
        trigger := Long;
      } else if Below(sma1[x], sma2[x]) && trigger != Short {
        buys, sells := buys + [None], sells + [Some(close[x])];
        trigger := Short;
      } else if firstBarBuy && x == 0 {
        buys, sells := buys + [Some(close[x])], sells + [None];
        trigger := Long;
      } else {
        buys, sells := buys + [None], sells + [None];
      }
    }
  }

  /** The two columns never both hold a price at the same bar, and a price
      that is present is that bar's close. */
  lemma ColumnsExclusive(close: seq<real>, sma1: seq<Option<real>>, sma2: seq<Option<real>>, firstBarBuy: bool)
    requires |sma1| == |close| && |sma2| == |close|
    ensures var sigs := Signals(sma1, sma2, firstBarBuy);
      var buys, sells := Column(close, sigs, Buy), Column(close, sigs, Sell);
      |buys| == |close| && |sells| == |close| &&
      forall x :: 0 <= x < |close| ==>
        !(buys[x].Some? && sells[x].Some?) &&
        (buys[x].Some? ==> buys[x].value == close[x]) &&
        (sells[x].Some? ==> sells[x].value == close[x])
  {
  }

  /** What each kind of signal requires of the bar: a Buy needs the first
      average strictly above the second and a trigger other than 1, except
      for the class generator's bar-0 Buy, which fires when neither
      comparison does; a Sell needs the first average strictly below the
      second and a trigger other than -1; equal or undefined averages emit
      nothing past the fallback. */
  lemma SignalConditions(sma1: seq<Option<real>>, sma2: seq<Option<real>>, firstBarBuy: bool, x: nat)
    requires x < |sma1| && x < |sma2|
    ensures var t, sig := TriggerAfter(sma1, sma2, firstBarBuy, x), SignalAt(sma1, sma2, firstBarBuy, x);
      (sig == Buy <==>
        (Above(sma1[x], sma2[x]) && t != Long) ||
        (firstBarBuy && x == 0 && !(Below(sma1[x], sma2[x]) && t != Short))) &&
      (sig == Sell <==> Below(sma1[x], sma2[x]) && t != Short) &&
      (!Above(sma1[x], sma2[x]) && !Below(sma1[x], sma2[x]) ==>
        sig == if firstBarBuy && x == 0 then Buy else Hold)
  {
    if x == 0 {
      assert TriggerAfter(sma1, sma2, firstBarBuy, 0) == Flat;
    }
  }

  /** The trigger is 0 exactly as long as no bar has emitted a signal. */
  lemma {:induction false} TriggerFlatIffSilent(sma1: seq<Option<real>>, sma2: seq<Option<real>>, firstBarBuy: bool, k: nat)
    requires k <= |sma1| && k <= |sma2|
    ensures TriggerAfter(sma1, sma2, firstBarBuy, k) == Flat <==>
      forall y :: 0 <= y < k ==> SignalAt(sma1, sma2, firstBarBuy, y) == Hold
  {
    if k > 0 {
      TriggerFlatIffSilent(sma1, sma2, firstBarBuy, k - 1);
      var t := TriggerAfter(sma1, sma2, firstBarBuy, k - 1);
      assert TriggerAfter(sma1, sma2, firstBarBuy, k) == After(t, SignalAt(sma1, sma2, firstBarBuy, k - 1));
    }
  }

  /** After a bar that emitted a signal, the trigger records that signal
      until the next one. */
  lemma {:induction false} TriggerRecordsLastSignal(sma1: seq<Option<real>>, sma2: seq<Option<real>>, firstBarBuy: bool, i: nat, k: nat)
    requires i < k <= |sma1| && k <= |sma2|
    requires SignalAt(sma1, sma2, firstBarBuy, i) != Hold
    requires forall y :: i < y < k ==> SignalAt(sma1, sma2, firstBarBuy, y) == Hold
    ensures TriggerAfter(sma1, sma2, firstBarBuy, k) == After(Flat, SignalAt(sma1, sma2, firstBarBuy, i))
  {
    var t := TriggerAfter(sma1, sma2, firstBarBuy, k - 1);
    assert TriggerAfter(sma1, sma2, firstBarBuy, k) == After(t, SignalAt(sma1, sma2, firstBarBuy, k - 1));
    if k > i + 1 {
      TriggerRecordsLastSignal(sma1, sma2, firstBarBuy, i, k - 1);
    }
  }

  /** Signals strictly alternate: the next signal after a Buy is a Sell and
      the next signal after a Sell is a Buy. */
  lemma SignalsAlternate(sma1: seq<Option<real>>, sma2: seq<Option<real>>, firstBarBuy: bool, i: nat, j: nat)
    requires i < j < |sma1| && j < |sma2|
    requires SignalAt(sma1, sma2, firstBarBuy, i) != Hold
    requires SignalAt(sma1, sma2, firstBarBuy, j) != Hold
    requires forall y :: i < y < j ==> SignalAt(sma1, sma2, firstBarBuy, y) == Hold
    ensures SignalAt(sma1, sma2, firstBarBuy, i) != SignalAt(sma1, sma2, firstBarBuy, j)
  {
    TriggerRecordsLastSignal(sma1, sma2, firstBarBuy, i, j);
  }

  /** With window lengths of at least one, the class generator always buys
      at bar 0: at most one of the two averages is defined there, or both
      equal the first close, so neither comparison fires. */
  lemma ClassFirstBarBuys(close: seq<real>, w1: Window, w2: Window)
    requires |close| > 0
    ensures SignalAt(Sma(close, w1), Sma(close, w2), true, 0) == Buy
  {
    var s1, s2 := Sma(close, w1), Sma(close, w2);
    if s1[0].Some? && s2[0].Some? {
      assert w1 == 1 && w2 == 1;
      assert s1[0] == s2[0];
    }
  }

  /** The free generator, which has no bar-0 fallback, never emits anything
      when both averages are the same column (equal window lengths). */
  lemma EqualAveragesSilent(sma: seq<Option<real>>, x: nat)
    requires x < |sma|
    ensures SignalAt(sma, sma, false, x) == Hold
  {
  }
}
