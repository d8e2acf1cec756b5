/** The grid search over window pairs: the order in which pairs are tried
    and the strict-`>` best-so-far update. */
module GridSearch {
  import opened Values

  /** A candidate `(ma_1, ma_2)`. */
  type Pair = (Window, Window)

  /** One evaluated pair and the profit it scored. */
  datatype Trial = Trial(pair: Pair, profit: Float)

  /** The search's `(max_profit, optimal_ma)`. */
  datatype Best = Best(profit: Float, pair: Option<Pair>)

  /** The pairs the inner loop evaluates for `ma_1 = a`, in the order of
      `r`, skipping `ma_2 == a`. */
  function Row(a: Window, r: seq<Window>): seq<Pair>
  {
    if r == [] then []
    else
      assert r == r[..|r| - 1] + [r[|r| - 1]];
      Row(a, r[..|r| - 1]) + (if r[|r| - 1] == a then [] else [(a, r[|r| - 1])])
  }

  /** The pairs both loops evaluate, `ma_1` from `outer` in the outer loop
      and `ma_2` from `r` in the inner one. */
  function Pairs(outer: seq<Window>, r: seq<Window>): seq<Pair>
  {
    if outer == [] then []
    else
      assert outer == outer[..|outer| - 1] + [outer[|outer| - 1]];
      Pairs(outer[..|outer| - 1], r) + Row(outer[|outer| - 1], r)
  }

  /** A row holds exactly the pairs `(a, b)` with `b` in `r` and `b != a`. */
  lemma {:induction false} RowMembers(a: Window, r: seq<Window>)
    ensures forall p :: p in Row(a, r) <==> p.0 == a && p.1 in r && p.1 != a
  {
    if r != [] {
      var pre, b := r[..|r| - 1], r[|r| - 1];
      assert r == pre + [b];
      RowMembers(a, pre);
      RowStep(a, pre, b);
    }
  }

  /** Exactly the pairs of two different windows are tried; an equal pair
      never is. */
  lemma {:induction false} PairsMembers(outer: seq<Window>, r: seq<Window>)
    ensures forall p :: p in Pairs(outer, r) <==> p.0 in outer && p.1 in r && p.0 != p.1
  {
    if outer != [] {
      var pre, a := outer[..|outer| - 1], outer[|outer| - 1];
      assert outer == pre + [a];
      PairsMembers(pre, r);
      RowMembers(a, r);
      PairsStep(pre, a, r);
    }
  }

  /** The best-so-far after the given trials, in order: a trial replaces
      the best only when its profit is strictly greater. */
  function Select(trials: seq<Trial>, start: Best): Best
  {
    if trials == [] then start
    else
      var b := Select(trials[..|trials| - 1], start);
      var t := trials[|trials| - 1];
      if Greater(t.profit, b.profit) then Best(t.profit, Some(t.pair)) else b
  }

  /** One more trial: it takes over exactly when it scores strictly more. */
  lemma SelectStep(trials: seq<Trial>, t: Trial, start: Best)
    ensures Select(trials + [t], start) ==
      if Greater(t.profit, Select(trials, start).profit) then Best(t.profit, Some(t.pair))
      else Select(trials, start)
  {
    assert (trials + [t])[..|trials|] == trials;
  }

  /** The pairs of `outer` followed by one more outer window. */
  lemma PairsStep(outer: seq<Window>, a: Window, r: seq<Window>)
    ensures Pairs(outer + [a], r) == Pairs(outer, r) + Row(a, r)
  {
    assert (outer + [a])[..|outer|] == outer;
  }

  /** The pairs of one row followed by one more inner window. */
  lemma RowStep(a: Window, r: seq<Window>, b: Window)
    ensures Row(a, r + [b]) == Row(a, r) + if b == a then [] else [(a, b)]
  {
    assert (r + [b])[..|r|] == r;
  }

  /** The inner loop's pairs after one more inner window `r[j]`. */
  lemma RowAdvance(rows: seq<Pair>, a: Window, r: seq<Window>, j: nat, done: seq<Pair>)
    requires j < |r| && done == rows + Row(a, r[..j])
    ensures (if a != r[j] then done + [(a, r[j])] else done) == rows + Row(a, r[..j + 1])
  {
    var prefix := r[..j + 1];
    assert prefix[..|prefix| - 1] == r[..j];
    assert prefix[|prefix| - 1] == r[j];
  }

  /** The last pair of `Row(a, r)`, if the row has any. */
  function LastPair(a: Window, r: seq<Window>): Option<Pair>
  {
    if r == [] then None
    else if r[|r| - 1] != a then Some((a, r[|r| - 1]))
    else LastPair(a, r[..|r| - 1])
  }

  lemma {:induction false} LastPairOfRow(a: Window, r: seq<Window>)
    ensures LastPair(a, r).None? <==> Row(a, r) == []
    ensures Row(a, r) != [] ==> LastPair(a, r) == Some(Row(a, r)[|Row(a, r)| - 1])
  {
    if r != [] {
      LastPairOfRow(a, r[..|r| - 1]);
    }
  }

  /** The last pair after one more inner window `r[j]`. */
  lemma LastPairAdvance(a: Window, r: seq<Window>, j: nat)
    requires j < |r|
    ensures LastPair(a, r[..j + 1]) == if a != r[j] then Some((a, r[j])) else LastPair(a, r[..j])
  {
    var prefix := r[..j + 1];
    assert prefix[..|prefix| - 1] == r[..j];
    assert prefix[|prefix| - 1] == r[j];
  }

  /** The outer loop's pairs after one more outer window `r[i]`. */
  lemma PairsAdvance(r: seq<Window>, i: nat, done: seq<Pair>)
    requires i < |r| && done == Pairs(r[..i], r) + Row(r[i], r)
    ensures done == Pairs(r[..i + 1], r)
  {
    var outer := r[..i + 1];
    assert outer[..|outer| - 1] == r[..i];
    assert outer[|outer| - 1] == r[i];
  }

  /** A range yields at least one pair exactly when it holds two different
      windows. */
  lemma PairsNonEmpty(r: seq<Window>)
    ensures Pairs(r, r) != [] <==> exists i, j :: 0 <= i < |r| && 0 <= j < |r| && r[i] != r[j]
  {
    PairsMembers(r, r);
    if exists i, j :: 0 <= i < |r| && 0 <= j < |r| && r[i] != r[j] {
      var i, j :| 0 <= i < |r| && 0 <= j < |r| && r[i] != r[j];
      assert (r[i], r[j]) in Pairs(r, r);
    }
    if Pairs(r, r) != [] {
      var p := Pairs(r, r)[0];
      assert p in Pairs(r, r);
      var i :| 0 <= i < |r| && r[i] == p.0;
      var j :| 0 <= j < |r| && r[j] == p.1;
    }
  }

  /** No trial beats the selected profit, nor does the starting one. */
  lemma {:induction false} SelectUnbeaten(trials: seq<Trial>, start: Best)
    requires start.profit != NaN
    ensures Select(trials, start).profit != NaN
    ensures !Greater(start.profit, Select(trials, start).profit)
    ensures forall k :: 0 <= k < |trials| ==> !Greater(trials[k].profit, Select(trials, start).profit)
  {
    if trials != [] {
      var pre := trials[..|trials| - 1];
      SelectUnbeaten(pre, start);
      var b := Select(pre, start);
      var t := trials[|trials| - 1];
      if Greater(t.profit, b.profit) {
        forall k | 0 <= k < |trials| ensures !Greater(trials[k].profit, t.profit) {
          if k < |trials| - 1 {
            assert trials[k] == pre[k];
            if Greater(trials[k].profit, t.profit) {
              GreaterTransitive(trials[k].profit, t.profit, b.profit);
            }
          } else {
            GreaterIrreflexive(t.profit);
          }
        }
        if Greater(start.profit, t.profit) {
          GreaterTransitive(start.profit, t.profit, b.profit);
        }
      } else {
        forall k | 0 <= k < |trials| ensures !Greater(trials[k].profit, b.profit) {
          if k < |trials| - 1 {
            assert trials[k] == pre[k];
          }
        }
      }
    }
  }

  /** The selected pair is the starting one, or it is the FIRST trial, in
      order, whose profit equals the selected profit, and that profit beats
      the starting one. */
  lemma {:induction false} SelectFirstWinner(trials: seq<Trial>, start: Best)
    requires start.profit != NaN
    ensures var r := Select(trials, start);
      r == start ||
      exists k :: 0 <= k < |trials| && r == Best(trials[k].profit, Some(trials[k].pair)) &&
        Greater(r.profit, start.profit) &&
        forall j :: 0 <= j < k ==> trials[j].profit != r.profit
  {
    if trials != [] {
      var pre := trials[..|trials| - 1];
      SelectFirstWinner(pre, start);
      SelectUnbeaten(pre, start);
      var b := Select(pre, start);
      var n := |trials| - 1;
      var t := trials[n];
      if Greater(t.profit, b.profit) {
        GreaterThanAtMost(t.profit, b.profit, start.profit);
        forall j | 0 <= j < n ensures trials[j].profit != t.profit {
          assert trials[j] == pre[j];
        }
      } else if b != start {
        var k :| 0 <= k < |pre| && b == Best(pre[k].profit, Some(pre[k].pair)) &&
          Greater(b.profit, start.profit) &&
          forall j :: 0 <= j < k ==> pre[j].profit != b.profit;
        assert trials[k] == pre[k];
        forall j | 0 <= j < k ensures trials[j].profit != b.profit {
          assert trials[j] == pre[j];
        }
      }
    }
  }

  /** Starting from `-inf` over finite profits, the search returns the
      largest profit and the first pair, in order, that scores it. */
  lemma SelectArgMax(trials: seq<Trial>)
    requires |trials| > 0
    requires forall k :: 0 <= k < |trials| ==> trials[k].profit.Num?
    ensures var r := Select(trials, Best(NegInf, None));
      r.profit.Num? && r.pair.Some? &&
      (forall k :: 0 <= k < |trials| ==> trials[k].profit.val <= r.profit.val) &&
      exists k :: 0 <= k < |trials| && r.pair == Some(trials[k].pair) && r.profit == trials[k].profit &&
        forall j :: 0 <= j < k ==> trials[j].profit.val < r.profit.val
  {
    var start := Best(NegInf, None);
    SelectUnbeaten(trials, start);
    SelectFirstWinner(trials, start);
    var r := Select(trials, start);
    assert !Greater(trials[0].profit, r.profit);
    assert r != start;
  }
}
