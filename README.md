# Dual moving-average crossover engine

A Dafny model of the trading core of `main.py`. That core has four parts:

- the trailing simple moving average of a close series;
- the crossover signal generator, which carries a trigger state and writes a Buy or a Sell price per bar;
- the profit scorer, which books each Sell against the last Buy seen;
- the grid search over ordered pairs of window lengths.

The file holds two parallel implementations that differ, and the model keeps them apart.

- **The `StockAnalyzer` class** is modelled in `Analyzer`, as a Dafny class whose methods update its fields.
  - It never drops rows.
  - Its generator buys at bar 0 when neither comparison fires.
  - Its search keeps the best pair across calls.
- **The free functions** are modelled in `FreePipeline`.
  - `calculate_sma` keeps only the rows from `ma_2` on.
  - The generator has no bar-0 fallback.
  - `find_optimal_ma` reassigns its frame on every pair.

Both generators share one loop, `Crossover.GenerateColumns`. A flag selects the bar-0 fallback. Both scorers share one loop, `Profit.CalculateProfit`.

Prices are exact reals. A NaN entry of a moving-average or signal column is `None`. The profit and the best-so-far are Python floats restricted to what they can hold here: `-inf`, a finite value, or NaN. Python's `>` and `+` on those are modelled in `Values`.

The rolling mean is a pandas `rolling(...).mean()` call, not a loop. It is the specification function `Sma`, whose columns `StockAnalyzer.SetSma` and `FreePipeline.CalculateSma` assign.

Every loop is a method proved against a specification function:
- `Signals`/`Column` for the generator;
- `Scan`/`ProfitOf` for the profit loop;
- `Select` over the trials in loop order for the searches.

Lemmas state what the source promises about those functions. The close series that `get_data` would fetch is a parameter.

Modules:
- `Values`: `Option`, the float values and their comparison and addition, window lengths.
- `MovingAverage`: the rolling mean.
- `Crossover`: trigger, signals, the shared generator loop.
- `Profit`: the index-tracking loop, an independent sale-by-sale account of the same figure, and first/last present entries.
- `GridSearch`: pair order and strict-`>` selection.
- `FreePipeline`: the free functions.
- `Analyzer`: the class.
- `Scenarios`: worked examples on small series.

## Model

| member | source | states |
|---|---|---|
| Values.Add | main.py:121 | Python float `+`: the sum is NaN exactly when an operand is NaN, and two finite values add up to their sum |
| Values.GreaterTransitive | main.py:89 | Python's `>` on the profit values is transitive |
| Values.GreaterIrreflexive | main.py:89 | No profit value is `>` itself, so re-scoring the same profit never replaces the best |
| Values.GreaterThanAtMost | main.py:186 | A profit that beats the best-so-far beats every non-NaN value the best-so-far is not below |
| MovingAverage.Sma | main.py:36-37 | The rolling-mean column is as long as the series; entry `i` is undefined exactly when `i < w - 1`; otherwise `w` times it is the sum of closes `i-w+1 .. i` |
| MovingAverage.SmaWithinWindowRange | main.py:36-37 | A defined mean lies between the smallest and largest close of its window |
| MovingAverage.SmaOfConstant | main.py:36-37 | On a constant series every defined mean is that constant |
| MovingAverage.SmaAfterDrop | main.py:131-135 | The rolling mean recomputed on the series without its first `d` rows equals the original column shifted by `d` where a full window fits, and is undefined elsewhere |
| Crossover.GenerateColumns | main.py:40-61 | The generator loop writes exactly the Buy and Sell columns of the signal specification; with the flag set it is the class loop with its bar-0 branch, without it the free loop at lines 138-157 |
| Crossover.ColumnsExclusive | main.py:44-61 | Both columns are as long as the series; no bar holds both a Buy and a Sell; a present price is that bar's close |
| Crossover.SignalConditions | main.py:45-59 | A Buy fires exactly when the first mean is above the second and the trigger is not 1, or at bar 0 of the class generator when no Sell fires; a Sell exactly when the first mean is below and the trigger is not -1; equal or undefined means emit nothing past the fallback |
| Crossover.TriggerFlatIffSilent | main.py:43-59 | The trigger is 0 exactly as long as no bar has emitted a signal |
| Crossover.TriggerRecordsLastSignal | main.py:45-56 | After a signal and until the next one the trigger is 1 for a Buy and -1 for a Sell |
| Crossover.SignalsAlternate | main.py:141-153 | Present signals strictly alternate: the next signal after a Buy is a Sell and after a Sell a Buy |
| Crossover.ClassFirstBarBuys | main.py:53-56 | For windows of at least 1, the class generator always buys at bar 0 |
| Crossover.EqualAveragesSilent | main.py:143-153 | The free generator emits nothing when both means are the same column |
| Profit.CalculateProfit | main.py:111-122 | The index-tracking loop returns the profit of its scanning specification; the class `calculate_profit` (lines 64-75) runs the same loop and returns the same value on the same columns |
| Profit.LastBuy | main.py:115-117 | The last bar at or before `x` holding a Buy, or 0 when there is none: no Buy lies between it and `x` |
| Profit.ScanTracksLastBuy | main.py:115-117 | The loop's `buyIdx` after bar `x` is the last Buy at or before `x`, or 0 |
| Profit.ScanBooksEachSell | main.py:111-122 | The loop's profit equals the sale-by-sale sum: each Sell at bar `s` books `sell[s] - buy[b]` for the last Buy `b` when `s > b`, and nothing otherwise |
| Profit.NoSellNoProfit | main.py:111-122 | Without any Sell the profit is 0 |
| Profit.BookedNaNIff | main.py:119-121 | A single Sell books NaN exactly when it lies after bar 0 and no Buy is at or before it |
| Profit.ProfitNaNIff | main.py:111-122 | The profit is NaN exactly when some Sell after bar 0 precedes every Buy |
| Profit.ProfitFiniteWhenFirstBarBuys | main.py:111-122 | When bar 0 holds a Buy the profit is finite |
| Profit.FirstEntry | main.py:102 | `dropna().iloc[0]`: the first present entry, with none before it |
| Profit.LastEntry | main.py:106 | `dropna().iloc[-1]`: the last present entry, with none after it |
| GridSearch.RowMembers | main.py:79-82 | The inner loop tries `(a, b)` exactly for the windows `b` of the range other than `a` |
| GridSearch.PairsMembers | main.py:78-82 | Both loops together try exactly the pairs of two different windows of the range; an equal pair is never evaluated |
| GridSearch.PairsNonEmpty | main.py:78-82 | Some pair is tried exactly when the range holds two different windows |
| GridSearch.SelectStep | main.py:89-92 | One more trial replaces the best-so-far exactly when its profit is strictly greater |
| GridSearch.SelectUnbeaten | main.py:89-92 | After the trials no trial's profit and not the starting profit is `>` the best profit, which is not NaN |
| GridSearch.SelectFirstWinner | main.py:89-92 | The best is the starting one, or the first trial in loop order scoring the best profit, which beats the starting profit |
| GridSearch.SelectArgMax | main.py:186-188 | From `-inf` over finite profits the search returns the maximum profit and the first pair in loop order attaining it |
| FreePipeline.Drop | main.py:134 | `iloc[d:]` keeps rows `d ..`, and is empty past the end |
| FreePipeline.DropTwice | main.py:183 | Dropping `a` rows and then `b` rows drops `a + b` rows |
| FreePipeline.CalculateSma | main.py:131-135 | The frame keeps `max(0, n - ma_2)` rows, and row `j` holds both rolling means of bar `ma_2 + j` of the original series; the `ma_2` column is defined everywhere, the `ma_1` one exactly where `ma_1 <= ma_2 + j + 1` |
| FreePipeline.GenerateSignals | main.py:138-157 | The free generator writes the Buy and Sell columns of the signal specification without the bar-0 fallback and returns their profit |
| FreePipeline.DropAdvance | main.py:183 | The frame after one more trial is the fetched series without the `ma_2` rows of every trial so far |
| FreePipeline.FindOptimalMa | main.py:174-193 | As written: the result is the selection over trials in which each pair is scored on the series already truncated by all earlier trials; it fails exactly when no trial scored above `-inf`, and otherwise returns the re-fetched frame annotated for the winner, the winner and its score |
| FreePipeline.FreshTrialsAt | main.py:183-184 | In the corrected search, trial `k` is pair `k` scored on the fetched series |
| FreePipeline.FreshSearchCorrect | main.py:178-188 | Over fresh trials no pair scores above the selected profit; a selected pair is one of the pairs, with its own profit; nothing is selected exactly when every pair's profit is NaN |
| FreePipeline.FindOptimalMaFresh | main.py:174-193 | Corrected search: the returned best profit is the profit of the returned frame, no pair of two different windows scores more, the winner is one of them, and the search fails exactly when every pair's profit is NaN |
| Analyzer.ClassProfitFinite | main.py:64-75 | Because bar 0 always buys, the class profit of every pair on every series is finite |
| Analyzer.PairProfit | main.py:83-87 | The profit the object reports for one pair is a finite number |
| Analyzer.ClassTrialsAt | main.py:83-87 | Trial `k` of the class search is pair `k` with its profit on the whole series |
| Analyzer.ClassSelectStep | main.py:89-92 | One more pair tried by the object replaces the best exactly when its profit is strictly greater |
| Analyzer.ClassSearchCorrect | main.py:78-92 | From a consistent best-so-far, the search yields one that no tried pair and not the starting one beats, that is the start or a tried pair with its own profit, and that holds a pair once any pair was tried |
| Analyzer.StockAnalyzer.constructor | main.py:7-15 | A new analyzer has no SMA columns and no Buy/Sell columns, profit and best profit `-inf`, and no optimum |
| Analyzer.StockAnalyzer.SetSma | main.py:34-37 | Writes the `SMA_{ma_1}` and `SMA_{ma_2}` columns as the rolling means of the whole series, leaving the others |
| Analyzer.StockAnalyzer.GenerateSignals | main.py:40-61 | Writes the Buy and Sell columns of the class generator for the current windows; afterwards the frame has both signal columns |
| Analyzer.StockAnalyzer.CalculateProfit | main.py:64-75 | Requires the Buy and Sell columns to exist, as reading them does; sets the profit to the scorer's value on them |
| Analyzer.StockAnalyzer.Evaluate | main.py:83-87 | After setting the windows to `(a, b)` the object holds that pair's columns and finite profit; the SMA columns are the earlier ones plus `SMA_a` and `SMA_b` |
| Analyzer.StockAnalyzer.TryPair | main.py:83-92 | One inner iteration is one more step of the strict-`>` selection, keeping the best-so-far consistent; afterwards the object holds the pair's windows, its Buy and Sell columns and its profit, and its SMA columns are the earlier ones plus the pair's two |
| Analyzer.StockAnalyzer.SearchRow | main.py:79-92 | The inner loop for `ma_1 = a` is the selection over the pairs of row `a`; afterwards the object holds the windows, columns and profit of the row's last pair, or leaves them as they were when the row is empty; SMA columns written earlier stay present |
| Analyzer.StockAnalyzer.SearchPairs | main.py:78-92 | Both loops together are the selection, in loop order, over all pairs of two different windows, starting from the best-so-far earlier searches left; SMA and signal columns written earlier stay present |
| Analyzer.StockAnalyzer.FindOptimalMa | main.py:77-98 | The best is the selection over all pairs, in loop order, carried over from earlier searches; no pair beats it and it never decreases; it fails exactly when no earlier search succeeded and the range has no two different windows; otherwise the object is left with the optimum's windows, columns and finite profit, equal to the best profit; SMA and signal columns written earlier stay present |
| Analyzer.StockAnalyzer.CalcInvestReturn | main.py:100-108 | `invest / firstBuy * lastSell` for the first present Buy and the last present Sell: the return times the Buy price is the investment times the Sell price, and a positive investment at a positive price grows exactly when the last Sell is above the first Buy |
| Analyzer.ReturnRatio | main.py:103-107 | `invest / buy * sell` scaled back by `buy` is `invest * sell`, and for positive amounts exceeds `invest` exactly when `sell > buy` |
| Scenarios.ZigzagAverages | main.py:36-37 | The 2-bar and 3-bar means of closes 10, 11, 9, 12, 8 |
| Scenarios.ZigzagClassTrace | main.py:40-75 | On closes 10, 11, 9, 12, 8 with windows (2, 3) the class buys at 10, sells at 12, buys at 8, and scores 2 |
| Scenarios.ZigzagFreeTrace | main.py:131-157 | On the same series and windows the free pipeline keeps bars 12 and 8, sells then buys, and scores 0 |
| Scenarios.AsWrittenMissesBetterPair | main.py:178-188 | On closes 2, 1, 2 with range [1, 2] the as-written search settles on (1, 2) with 0, though (2, 1) earns more on the fetched series |
| Scenarios.FreshFindsBetterPair | main.py:174-193 | On the same input the corrected search picks (2, 1) with profit 1 |

## Left out

- `get_data` and `StockAnalyzer.get_data` fetch prices over the network. The close series is a parameter instead: of the constructor, and of the free `find_optimal_ma`. The re-fetch at the end of the free search is taken to return the same series.
- The ticker symbol is not modelled. It selects the series that is fetched (main.py:31, 126, 177, 190) and labels the plots (main.py:20, 27, 163, 170). The fetched close series is a parameter instead.
- `plot`, `plot_data`, every `print` and the `main` driver are display and I/O.
- `tradingbot_sentiment.py` (broker, news and sentiment calls) is not part of this model.
- IEEE float rounding is not modelled. Prices and means are exact reals, and profits are `-inf`, finite or NaN.
- Pandas frames are reduced to their columns.
- Analyzer.StockAnalyzer.CalculateProfit: requires the Buy and Sell columns to exist (`hasSignals`). The `KeyError` that `calculate_profit` raises before `generate_signals` has run is a precondition, not an error path.
- Analyzer.StockAnalyzer.GenerateSignals: requires both `SMA_{ma_1}` and `SMA_{ma_2}` columns to be present. The `KeyError` that `generate_signals` raises when `set_sma` has not run for the current windows is a precondition, not an error path.
- Window lengths are at least 1; a rolling window of length 0 is not modelled.
- Only the `Close` column of the frame is modelled; the frame's other columns and its index are not.
- Analyzer.StockAnalyzer.CalcInvestReturn: requires a first Buy price other than 0. Pandas would return `inf` or NaN for a zero price. The missing Buy or Sell that makes `.iloc` raise is a precondition.
- Analyzer.StockAnalyzer.FindOptimalMa: when indexing the missing optimum raises, the method returns `ok == false`. Beyond the best-so-far and the columns that stay present, it does not state the fields the object is left with.
- FreePipeline.FindOptimalMa: the `TypeError` from indexing a `None` optimum is the `None` result.

## Findings

| source | as written | input that shows it | evidently intended | confidence | as-written member | corrected member |
|---|---|---|---|---|---|---|
| main.py:183 | `data = calculate_sma(data, ma_1, ma_2)` reassigns the frame inside the loop, so each pair is scored on the series with the first `ma_2` rows of every earlier trial dropped | closes 2, 1, 2 and range [1, 2]: (1, 2) scores 0 on the whole series; (2, 1) then runs on the single remaining row, which its own drop empties, and scores 0; the search returns (1, 2) with 0, while (2, 1) earns 1 on the series the function re-fetches and returns | every pair scored on the fetched series, as the re-fetch before the final recomputation suggests | not executed; the input is hand-traced and proved in the model | Scenarios.AsWrittenMissesBetterPair | FreePipeline.FindOptimalMaFresh |
