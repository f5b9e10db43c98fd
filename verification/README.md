# Review-classification evaluation core, modelled in Dafny

This project models the evaluation and label-normalisation layer of the
AI-Customer-Review-Classification pipeline: the code that turns a language
model's free-text answer into a list of allowed category labels, reduces
several human annotations to one gold label, and scores model predictions
against that gold standard.

The modelled parts are:

- **Label parsing.** `parse_labels` pulls a JSON array out of a model reply
  and maps each string item onto the configured vocabulary. The mapping
  uses an exact match after normalisation, or else the first vocabulary key
  contained in the item. The result comes back in vocabulary order.
- **Labelling loop.** The runner labels every row of a table with one
  model. It copies the table, adds the `<vendor>_<model>_raw` and
  `<vendor>_<model>_labels` columns, and stores the raw reply and the
  JSON-encoded parsed labels row by row. A failed call stores `""` and `[]`.
  The model writes row `i` by position, while `df.at[i, col]`
  (`src/labeling/runner.py:45-46`) writes by index label. The two agree
  because the table the runner receives has the index `0..n-1`: it is reset
  at `src/main_label_reviews.py:52`.
- **Prompt.** `build_prompt` builds the single-text prompt.
- **Review cleaning.** The review cleaner repairs mojibake, transliterates,
  collapses whitespace and strips each review. It then keeps only the rows
  whose review is text of at least 20 characters.
- **Gold labels.** The gold-label generator takes a majority vote over the
  annotator columns. A tie is resolved either to the first annotator's
  label or to `AMBIGUOUS`. The generator also builds the reduced output
  rows, their field names and the run statistics.
- **Classification metrics** (`evaluate_predictions.py`):
  - the confusion matrix;
  - per-class precision, recall, F1 and support;
  - macro-F1;
  - the multiclass Matthews correlation;
  - the rank-based binary AUC, proved equal to the Mann-Whitney statistic;
  - `evaluate_one`, which puts them together.
- **Krippendorff's alpha.** The nominal alpha is computed from the
  coincidence matrix.
- **Benchmark driver** (`compute_metrics.py`):
  - label cleaning;
  - reading a model's prediction cell;
  - locating the prediction column;
  - the row-count guard;
  - the summary rows, sorted by macro-F1;
  - the per-class rows.

Python's `str.strip`, `str.find`/`rfind`, `dict` and `Counter` behaviour,
`sorted` and `json.loads`/`json.dumps` are written out in the helper
modules `Text`, `Dicts`, `Sorting` and `Json`. Table cells that may hold
`None`, `NaN`, text or another value are the `Cells.Cell` datatype.

### Behaviour of the code worth knowing

Three places where the code does something a reader might not expect:

- **`evaluate_one` confusion matrix.** The confusion matrix is built from
  the raw values, while the label list is built from the coerced ones
  (`src/evaluate_predictions.py:126-129`). So a `None`/`NaN` value is never
  counted, even though its coerced form `""` is a label.
  `EvaluatePredictions.EvaluateSkipsNonText` states this.
- **Matthews correlation with one class.** For a perfect prediction with a
  single class, the code returns 0 rather than 1. The denominator is 0 at
  `src/evaluate_predictions.py:90`, so `EvaluatePerfect` promises the
  Matthews value only when there are at least two labels.
- **Majority-vote ties.** A tie between two labels that both occur more
  than once is not a "tie" for `majority_vote`. It returns the first label
  in `Counter.most_common` order (`src/benchmark/generate_gold_labels.py:31-33`).

## Model

| member | source | states |
|---|---|---|
| EvaluatePredictions.LabelIndex | src/evaluate_predictions.py:45 | the label-to-index dict answers exactly for members of the label list, with the position of the last occurrence (later entries overwrite earlier ones) |
| EvaluatePredictions.LabelIndexDistinct | src/evaluate_predictions.py:45 | with distinct labels each label maps to its own position |
| EvaluatePredictions.Zeros | src/evaluate_predictions.py:47 | the initial matrix is k×k and all zero |
| EvaluatePredictions.Confusion | src/evaluate_predictions.py:44-52 | the confusion matrix is square over the label list and has no negative cell |
| EvaluatePredictions.ConfusionMatrix | src/evaluate_predictions.py:44-52 | the loop over `zip(true, pred)` computes the confusion matrix of the zipped pairs |
| EvaluatePredictions.ConfusionCounts | src/evaluate_predictions.py:48-51 | with distinct labels, cell [a][b] is the number of pairs (labels[a], labels[b]) |
| EvaluatePredictions.BumpTotal | src/evaluate_predictions.py:51 | one increment adds exactly one to the cell total |
| EvaluatePredictions.ConfusionTotal | src/evaluate_predictions.py:48-51 | the cell total equals the number of pairs whose two values are both labels; other pairs are skipped |
| EvaluatePredictions.ConfusionMatrixTotal | src/evaluate_predictions.py:48 | the cell total is at most the length of the shorter input, because `zip` stops there |
| EvaluatePredictions.Known | src/evaluate_predictions.py:48-50 | the number of pairs that are counted never exceeds the number of pairs |
| EvaluatePredictions.RowSums | src/evaluate_predictions.py:82 | entry a is the sum of row a |
| EvaluatePredictions.Column | src/evaluate_predictions.py:64 | column b of the matrix, one entry per row |
| EvaluatePredictions.SumExceptSplit | src/evaluate_predictions.py:62-65 | tp + fn is the row sum, so support is the number of true occurrences |
| EvaluatePredictions.RatioBounds | src/evaluate_predictions.py:66-67 | a guarded ratio tp/(tp+x) lies in [0, 1] |
| EvaluatePredictions.F1Bounds | src/evaluate_predictions.py:68 | the guarded harmonic mean of two values in [0, 1] lies in [0, 1] |
| EvaluatePredictions.ScoresBounds | src/evaluate_predictions.py:61-68 | support is the row sum; precision, recall and F1 lie in [0, 1]; zero support gives recall 0 and F1 0 (the zero-division guards) |
| EvaluatePredictions.PerfectClassScores | src/evaluate_predictions.py:62-68 | a class with no off-diagonal entries in its row and column scores precision = recall = F1 = 1 |
| EvaluatePredictions.ScoreTable | src/evaluate_predictions.py:61-72 | after n labels the per-label dict has at most n entries |
| EvaluatePredictions.F1Values | src/evaluate_predictions.py:74 | `f1s.values()` in dict order |
| EvaluatePredictions.PrecisionRecallF1 | src/evaluate_predictions.py:55-75 | the per-label loop builds the score table and the macro-F1 over all k labels (0 when there are none) |
| EvaluatePredictions.ClassScoresOf | src/evaluate_predictions.py:62-68 | the per-class arithmetic computes the class scores of row/column i |
| EvaluatePredictions.ScoreTableDistinct | src/evaluate_predictions.py:61-72 | with distinct labels the table has one entry per label, in label order, carrying that class's scores |
| EvaluatePredictions.ScoreTableKeys | src/evaluate_predictions.py:69-72 | with distinct labels the dict keys are the labels in order |
| EvaluatePredictions.ScoreTableAt | src/evaluate_predictions.py:69-72 | entry q of the dict is label q with the scores of class q |
| EvaluatePredictions.ScoreTableBounds | src/evaluate_predictions.py:68-71 | every stored F1 lies in [0, 1] |
| EvaluatePredictions.MacroBounds | src/evaluate_predictions.py:74 | macro-F1 lies in [0, 1] and is 0 for an empty label list |
| EvaluatePredictions.MacroAllOne | src/evaluate_predictions.py:74 | the mean of k ≥ 1 F1 values that are all 1 is 1 |
| EvaluatePredictions.ColSums | src/evaluate_predictions.py:81 | entry b of the column sums is the sum of column b |
| EvaluatePredictions.Diagonal | src/evaluate_predictions.py:83 | the diagonal holds C[i][i] |
| EvaluatePredictions.Matthews | src/evaluate_predictions.py:78-92 | the MCC is 0 exactly when one of the two radicand terms is 0; otherwise it is num/sqrt(radicand) with a positive radicand |
| EvaluatePredictions.ColSumsTotal | src/evaluate_predictions.py:81-84 | the column sums add up to the cell total s |
| EvaluatePredictions.SquareOfSum | src/evaluate_predictions.py:87-88 | the sum of squares of non-negative counts is at most the square of their sum |
| EvaluatePredictions.TermsNonNegative | src/evaluate_predictions.py:87-88 | both radicand terms s² − Σp² and s² − Σt² are non-negative |
| EvaluatePredictions.CrossPositive | src/evaluate_predictions.py:87 | two positive classes make s² − Σx² strictly positive |
| EvaluatePredictions.DiagonalSums | src/evaluate_predictions.py:81-82 | on a diagonal matrix the row and column sums are the diagonal |
| EvaluatePredictions.TermsDiagonal | src/evaluate_predictions.py:83-88 | on a diagonal matrix the numerator and both radicand terms coincide |
| EvaluatePredictions.MatthewsPerfect | src/evaluate_predictions.py:78-92 | a diagonal matrix with two positive classes has MCC num/sqrt(num²) with num > 0, i.e. 1 |
| EvaluatePredictions.ScoredLeOrder | src/evaluate_predictions.py:97 | the (score, truth) key order is total and transitive |
| EvaluatePredictions.SortedPairs | src/evaluate_predictions.py:97 | the sorted pairs are a permutation of `zip(scores, true)` and ordered by (score, truth) |
| EvaluatePredictions.RunStart | src/evaluate_predictions.py:106-108 | the start of the tie run holding position m: every element from it to m has m's score, and the element before it does not |
| EvaluatePredictions.RunEnd | src/evaluate_predictions.py:107-109 | the end of the tie run holding position m: every element from m to it has m's score, and the element after it does not |
| EvaluatePredictions.Ranks | src/evaluate_predictions.py:103-114 | one rank per pair, each the average rank of its tie run |
| EvaluatePredictions.RunStartWithin | src/evaluate_predictions.py:106-108 | every position inside a run that starts at i has run start i |
| EvaluatePredictions.RunEndWithin | src/evaluate_predictions.py:107-109 | every position inside a run that ends at j has run end j |
| EvaluatePredictions.AssignRanks | src/evaluate_predictions.py:103-114 | the nested while loops assign every position the average rank (i+1+j+1)/2 of its tie run |
| EvaluatePredictions.RunSum | src/evaluate_predictions.py:111-113 | a run of n copies of the average rank sums to the ranks it replaces |
| EvaluatePredictions.LastRunRanks | src/evaluate_predictions.py:111-113 | every rank in the last complete run is that run's average |
| EvaluatePredictions.RanksLastRun | src/evaluate_predictions.py:111-113 | appending a run adds exactly the ranks s+1 … i to the prefix sum |
| EvaluatePredictions.RanksPrefixSum | src/evaluate_predictions.py:103-114 | at every run boundary i, the ranks so far sum to i(i+1)/2 |
| EvaluatePredictions.RanksSum | src/evaluate_predictions.py:103-114 | averaged tie ranks still sum to N(N+1)/2, as untied ranks do |
| EvaluatePredictions.ComputeAucBinary | src/evaluate_predictions.py:95-121 | the AUC is None exactly when there are no positives or no negatives; otherwise the value of the mid-rank formula, which `AucMannWhitney.AucMannWhitney` identifies |
| AucMannWhitney.SumOfPermutation | src/evaluate_predictions.py:97 | sorting the pairs does not change any sum over them |
| AucMannWhitney.BeforeRun | src/evaluate_predictions.py:103-114 | in sorted order, every pair before a run of equal scores scores lower |
| AucMannWhitney.AfterRun | src/evaluate_predictions.py:103-114 | in sorted order, every pair after a run of equal scores scores higher |
| AucMannWhitney.RunCredit | src/evaluate_predictions.py:103-114 | against a run at positions s..e, the lower scores count 2 and the equal ones 1, s + e + 1 in all |
| AucMannWhitney.RankCredit | src/evaluate_predictions.py:103-114 | twice a position's mid-rank is one more than its credits against all pairs, 2 per lower score and 1 per equal one |
| AucMannWhitney.RankSumCredit | src/evaluate_predictions.py:116-119 | twice the rank sum of the positives is their total credit plus their number |
| AucMannWhitney.CreditTransfer | src/evaluate_predictions.py:97 | that total is the same over the sorted pairs and over `zip(scores, true)` |
| AucMannWhitney.ClassSplit | src/evaluate_predictions.py:116-119 | with 0/1 truth values, a credit splits into one against negatives and one against positives |
| AucMannWhitney.NegativeCredit | src/evaluate_predictions.py:116-119 | the credit against negatives is twice the beaten ones plus the tied ones |
| AucMannWhitney.CreditByClass | src/evaluate_predictions.py:116-119 | the positives' total credit is 2P + T, plus their credits among themselves, plus their number |
| AucMannWhitney.CrossAntisymmetric | src/evaluate_predictions.py:120 | credits between positives, taken both ways, add up to two per pair, so among n_pos positives they total n_pos squared |
| AucMannWhitney.ClassCounts | src/evaluate_predictions.py:98-99 | with 0/1 truth values of the scores' length, `sum(true)` counts the positives and `len(true) - sum(true)` the negatives |
| AucMannWhitney.BeatenTiedBound | src/evaluate_predictions.py:120 | a positive beats or ties at most every negative |
| AucMannWhitney.WinsDrawsBound | src/evaluate_predictions.py:120 | P + T is at most n_pos * n_neg |
| AucMannWhitney.DoubledRankSum | src/evaluate_predictions.py:116-119 | twice the positive rank sum is 2P + T + n_pos squared + n_pos |
| AucMannWhitney.AucMannWhitney | src/evaluate_predictions.py:95-121 | on aligned scores and 0/1 truth values with both classes present, the AUC is (P + T/2) / (n_pos * n_neg), P counting positive-over-negative pairs and T tied pairs: the Mann-Whitney statistic the comment at line 96 names |
| AucMannWhitney.AucWithinUnit | src/evaluate_predictions.py:95-121 | on aligned scores and 0/1 truth values, a defined AUC lies between 0 and 1 |
| AucMannWhitney.AucUnequalLengths | src/evaluate_predictions.py:97-99 | as written, one score against truth values [0, 1] gives an AUC of -1 |
| AucMannWhitney.AucAligned | src/evaluate_predictions.py:95-121 | the AUC with both class counts taken over the pairs `zip` keeps; equal to the code's on equal lengths |
| AucMannWhitney.AucAlignedWithinUnit | src/evaluate_predictions.py:95-121 | with 0/1 truth values, the aligned AUC lies between 0 and 1 whatever the lengths |
| AucMannWhitney.EvaluateAucWithinUnit | src/evaluate_predictions.py:133-137 | the AUC `evaluate_one` reports for scores aligned with the labels lies between 0 and 1 |
| EvaluatePredictions.SumPositiveRanks | src/evaluate_predictions.py:116-119 | the loop adds the ranks of exactly the pairs with truth 1 |
| EvaluatePredictions.Coerce | src/evaluate_predictions.py:126 | text coerces to itself; None and NaN to "" |
| EvaluatePredictions.CoerceAll | src/evaluate_predictions.py:126-127 | element-wise coercion of a column |
| EvaluatePredictions.LessEqOrder | src/evaluate_predictions.py:128 | Python's string order is total and transitive |
| EvaluatePredictions.LabelSet | src/evaluate_predictions.py:128 | the label list is strictly increasing (so distinct) and holds exactly the coerced true and predicted values |
| EvaluatePredictions.SortedLabels | src/evaluate_predictions.py:128 | sorting a set's elements gives a strictly increasing list with the same members |
| EvaluatePredictions.LabelCells | src/evaluate_predictions.py:129 | the label list as cells, compared with the raw values |
| EvaluatePredictions.TrueBinary | src/evaluate_predictions.py:136 | truth value i becomes 1 exactly when its string is the positive label |
| EvaluatePredictions.EvaluateOne | src/evaluate_predictions.py:124-148 | the method produces the evaluation record (labels, confusion, scores, macro-F1, MCC, AUC) |
| EvaluatePredictions.KnownAll | src/evaluate_predictions.py:49-51 | when every pair is labelled, every pair is counted |
| EvaluatePredictions.KnownMissing | src/evaluate_predictions.py:49-50 | an unlabelled truth value makes the count fall short of the pair count |
| EvaluatePredictions.EvaluateCounts | src/evaluate_predictions.py:128-129 | cell [a][b] of the result counts the raw pairs (labels[a], labels[b]) |
| EvaluatePredictions.EvaluateScores | src/evaluate_predictions.py:130-137 | one score entry per label with its class scores; macro-F1 in [0, 1]; an AUC only when scores are given and there are exactly two labels |
| EvaluatePredictions.EvaluateAllText | src/evaluate_predictions.py:126-129 | with all-text inputs, every aligned pair is counted |
| EvaluatePredictions.TextLabelled | src/evaluate_predictions.py:126-129 | every text value appears in the label list |
| EvaluatePredictions.EvaluateSkipsNonText | src/evaluate_predictions.py:49-50 | a None/NaN truth value is not counted, although "" is a label |
| EvaluatePredictions.PerfectConfusion | src/evaluate_predictions.py:124-129 | evaluating a text column against itself gives zero off-diagonal cells and a positive diagonal |
| EvaluatePredictions.PerfectDiagonal | src/evaluate_predictions.py:124-129 | the same, stated for the whole matrix, with a non-empty label list |
| EvaluatePredictions.PerfectTable | src/evaluate_predictions.py:55-75 | such a matrix gives precision = recall = F1 = 1 for every class and macro-F1 = 1 |
| EvaluatePredictions.PerfectMetrics | src/evaluate_predictions.py:55-92 | such a matrix is diagonal, scores 1 everywhere and, with at least two labels, has MCC 1 |
| EvaluatePredictions.EvaluatePerfect | src/evaluate_predictions.py:124-148 | perfect prediction: diagonal confusion, all class scores 1, macro-F1 1, MCC 1 when there are at least two labels |
| KrippendorffAlpha.Row | src/benchmark/krippendorff_alpha.py:46-55 | the pairs of one label against the others number m − 1 |
| KrippendorffAlpha.CountCoincidences | src/benchmark/krippendorff_alpha.py:36-55 | the loops produce the coincidence counter of all ordered pairs i ≠ j within units, and `total_pairs` is their number |
| KrippendorffAlpha.CountUnit | src/benchmark/krippendorff_alpha.py:42-55 | one unit with at least two labels adds its m(m−1) ordered pairs to the counter |
| KrippendorffAlpha.CountRow | src/benchmark/krippendorff_alpha.py:46-55 | one label's inner loop adds its pairs with every other label |
| KrippendorffAlpha.Tick | src/benchmark/krippendorff_alpha.py:54 | one `O[(a, b)] += 1` keeps the counter equal to the tally of the pairs seen |
| KrippendorffAlpha.KrippendorffAlphaNominal | src/benchmark/krippendorff_alpha.py:27-88 | the method computes alpha: None (NaN) without pairs, 1 without expected disagreement, else 1 − Do/De |
| KrippendorffAlpha.AlphaFromCounts | src/benchmark/krippendorff_alpha.py:60-88 | from a counter with total > 0, the method computes the alpha of the counts |
| KrippendorffAlpha.ComputeMarginals | src/benchmark/krippendorff_alpha.py:61-63 | the loop computes the marginals o(a), keyed in first-seen order |
| KrippendorffAlpha.ObservedSum | src/benchmark/krippendorff_alpha.py:66-69 | the loop sums the counts of pairs with different labels |
| KrippendorffAlpha.ExpectedSum | src/benchmark/krippendorff_alpha.py:75-80 | the double loop sums o(a)·o(b) over distinct marginal keys |
| KrippendorffAlpha.RowsLength | src/benchmark/krippendorff_alpha.py:46-55 | n outer iterations produce n(m−1) pairs |
| KrippendorffAlpha.UnitPairsLength | src/benchmark/krippendorff_alpha.py:43-55 | a unit contributes m(m−1) pairs, none when m < 2 |
| KrippendorffAlpha.AllPairsLength | src/benchmark/krippendorff_alpha.py:40-55 | the total pair count is the sum of m(m−1) over the units |
| KrippendorffAlpha.PairsPerUnitZero | src/benchmark/krippendorff_alpha.py:44-45 | the total is zero exactly when every unit has fewer than two present labels |
| KrippendorffAlpha.RowCount | src/benchmark/krippendorff_alpha.py:46-54 | the count of (a, b) in one label's row is the number of b's other than itself, when that label is a |
| KrippendorffAlpha.RowsCount | src/benchmark/krippendorff_alpha.py:46-54 | after n rows, (a, b) occurs n_a·n_b times, minus n_a when a = b |
| KrippendorffAlpha.RowsStep | src/benchmark/krippendorff_alpha.py:46 | one more outer iteration adds that row's count |
| KrippendorffAlpha.FullRowCount | src/benchmark/krippendorff_alpha.py:49-54 | a full row pairs label i with every other position |
| KrippendorffAlpha.UnitPairsCount | src/benchmark/krippendorff_alpha.py:46-54 | within a unit, (a, b) occurs n_a·n_b − [a = b]·n_a times |
| KrippendorffAlpha.AllPairsSymmetric | src/benchmark/krippendorff_alpha.py:40-55 | (a, b) and (b, a) occur equally often |
| KrippendorffAlpha.CoincidenceSymmetric | src/benchmark/krippendorff_alpha.py:36-55 | the coincidence matrix is symmetric |
| KrippendorffAlpha.RowMembers | src/benchmark/krippendorff_alpha.py:47-52 | pairs only combine labels of the unit |
| KrippendorffAlpha.RowsMembers | src/benchmark/krippendorff_alpha.py:46-52 | the same for all rows of a unit |
| KrippendorffAlpha.AllPairsOneCategory | src/benchmark/krippendorff_alpha.py:42-54 | when every present label of the units with at least two is c, every pair is (c, c); units with fewer add no pairs |
| KrippendorffAlpha.MarginalsSum | src/benchmark/krippendorff_alpha.py:61-63 | the marginals add up to the total count |
| KrippendorffAlpha.MarginalsEntries | src/benchmark/krippendorff_alpha.py:61-63 | each marginal is non-negative and keyed by a first label of some pair |
| KrippendorffAlpha.MarginalsNonNegative | src/benchmark/krippendorff_alpha.py:61-63 | the marginals are non-negative |
| KrippendorffAlpha.MarginalsTotal | src/benchmark/krippendorff_alpha.py:60-63 | the marginals of the coincidence counter sum to `total_pairs` |
| KrippendorffAlpha.DisagreementBounds | src/benchmark/krippendorff_alpha.py:66-69 | the disagreeing count lies between 0 and the total count |
| KrippendorffAlpha.ExpectedRowNonNegative | src/benchmark/krippendorff_alpha.py:76-80 | one inner loop of the expected numerator is non-negative |
| KrippendorffAlpha.ExpectedNonNegative | src/benchmark/krippendorff_alpha.py:75-80 | the expected numerator is non-negative |
| KrippendorffAlpha.ExpectedOneKey | src/benchmark/krippendorff_alpha.py:75-80 | with a single category the expected numerator is 0 |
| KrippendorffAlpha.ExpectedRowOneKey | src/benchmark/krippendorff_alpha.py:76-80 | with a single category every inner loop adds 0 |
| KrippendorffAlpha.CountsPositive | src/benchmark/krippendorff_alpha.py:54 | every counter entry is positive |
| KrippendorffAlpha.ObservedProportion | src/benchmark/krippendorff_alpha.py:66-70 | Do lies in [0, 1] |
| KrippendorffAlpha.AlphaUndefined | src/benchmark/krippendorff_alpha.py:57-58 | alpha is undefined (NaN) exactly when no unit has two present labels |
| KrippendorffAlpha.AlphaAtMostOne | src/benchmark/krippendorff_alpha.py:83-88 | a defined alpha is at most 1 |
| KrippendorffAlpha.CountsAlphaAtMostOne | src/benchmark/krippendorff_alpha.py:66-88 | the alpha of non-negative counts is at most 1 |
| KrippendorffAlpha.AlphaOfAtMostOne | src/benchmark/krippendorff_alpha.py:83-88 | 1 − Do/De ≤ 1 when Do, De ≥ 0, and 1 when De = 0 |
| KrippendorffAlpha.AlphaOneCategory | src/benchmark/krippendorff_alpha.py:83-85 | one category among the ratings of units with at least two (and at least one such unit) gives alpha 1, whatever the units with fewer hold |
| KrippendorffAlpha.PairsOneCategory | src/benchmark/krippendorff_alpha.py:60-85 | a non-empty pair list of one category has alpha 1 |
| KrippendorffAlpha.CountsOneCategory | src/benchmark/krippendorff_alpha.py:75-85 | a counter holding only (c, c) has alpha 1 |
| KrippendorffAlpha.AlphaOfNoExpected | src/benchmark/krippendorff_alpha.py:83-85 | no expected disagreement gives alpha 1 |
| GenerateGoldLabels.TopIndex | src/benchmark/generate_gold_labels.py:27-31 | `most_common()[0]`: a largest count, and the first entry holding it |
| GenerateGoldLabels.MajorityVoteNone | src/benchmark/generate_gold_labels.py:22-29 | the vote is None exactly when no annotation is present |
| GenerateGoldLabels.TallyTop | src/benchmark/generate_gold_labels.py:26-31 | the top entry is a label with the highest count, preceded only by labels with lower counts, in first-occurrence order |
| GenerateGoldLabels.MajorityVoteWinner | src/benchmark/generate_gold_labels.py:31-33 | when some label occurs at least twice, the vote is the first label with the highest count |
| GenerateGoldLabels.MajorityVoteAllDistinct | src/benchmark/generate_gold_labels.py:34-37 | with all annotations distinct, the vote is the first annotation under "first" and `AMBIGUOUS` otherwise |
| GenerateGoldLabels.MajorityVoteFromInputs | src/benchmark/generate_gold_labels.py:22-37 | the vote is always one of the annotations, or `AMBIGUOUS` under the non-"first" policy |
| GenerateGoldLabels.Annotations | src/benchmark/generate_gold_labels.py:69 | one annotation per annotator column: its stripped value, or None when that is empty or absent |
| GenerateGoldLabels.KeptFields | src/benchmark/generate_gold_labels.py:79 | the reduced row only holds original fields that are neither annotator columns nor dropped metadata |
| GenerateGoldLabels.KeptFieldsLookup | src/benchmark/generate_gold_labels.py:79 | a kept key looks up its original value; any other key is absent |
| GenerateGoldLabels.ReducedRowLookup | src/benchmark/generate_gold_labels.py:79-80 | the output row maps `gold_label` to the vote or "", kept keys to their values, and nothing else |
| GenerateGoldLabels.FieldNamesMembers | src/benchmark/generate_gold_labels.py:84-85 | the field names end with `gold_label`; the others are exactly the kept keys of the first row (none without rows) |
| GenerateGoldLabels.StatsOfStep | src/benchmark/generate_gold_labels.py:71-76 | each row updates the missing/ambiguous/label counters once |
| GenerateGoldLabels.ReducedRows | src/benchmark/generate_gold_labels.py:67-81 | one output row per input row |
| GenerateGoldLabels.ReducedRowsAt | src/benchmark/generate_gold_labels.py:79-81 | output row i is the reduction of input row i |
| GenerateGoldLabels.ReducedRowsStep | src/benchmark/generate_gold_labels.py:81 | each iteration appends one reduced row |
| GenerateGoldLabels.ReduceRow | src/benchmark/generate_gold_labels.py:69-80 | the method computes the gold label and the reduced row of one input row |
| GenerateGoldLabels.GoldRows | src/benchmark/generate_gold_labels.py:58-85 | the main loop produces the reduced rows (row i from input row i), the output field names and the statistics of all rows |
| GenerateGoldLabels.StatsTotal | src/benchmark/generate_gold_labels.py:59-76 | every row lands in exactly one of missing, ambiguous or a label count, so they add up to the row total |
| GenerateGoldLabels.BumpedOnce | src/benchmark/generate_gold_labels.py:71-76 | one row adds exactly one to the tallied total |
| GenerateGoldLabels.ProjectLookup | src/benchmark/generate_gold_labels.py:46 | a written row holds every field name, with "" for a missing value, and nothing else |
| GenerateGoldLabels.WriteRows | src/benchmark/generate_gold_labels.py:40-47 | every row is written projected onto the field names, in order |
| LabelParser.Normalize | src/labeling/parser.py:30-31 | the normal form is no longer than its input and holds only lower-case alphanumerics |
| LabelParser.NormalizeConcat | src/labeling/parser.py:30-31 | normalisation distributes over concatenation |
| LabelParser.NormalizeSpaces | src/labeling/parser.py:30-31 | whitespace normalises to nothing |
| LabelParser.NormalizeStrip | src/labeling/parser.py:39 | stripping before normalising changes nothing |
| LabelParser.Normalized | src/labeling/parser.py:33 | the vocabulary's normal forms, position by position |
| LabelParser.LastWithKey | src/labeling/parser.py:33 | the label a key maps to is a vocabulary label with that normal form, and there is none exactly when no label has it |
| LabelParser.AllowedMapKeys | src/labeling/parser.py:33 | the allowed map's keys are the distinct normal forms in first-seen order |
| LabelParser.AllowedMapValues | src/labeling/parser.py:33 | each key maps to the last vocabulary label with that normal form |
| LabelParser.LookupAllowedMap | src/labeling/parser.py:33-41 | a lookup in the allowed map finds the last label with that normal form |
| LabelParser.LastWithKeyCanonical | src/labeling/parser.py:33 | with distinct normal forms, a label's own key maps back to it |
| LabelParser.FirstContained | src/labeling/parser.py:46-49 | the fallback finds the first map key contained in the item, and there is no match exactly when no key is contained |
| LabelParser.SearchContained | src/labeling/parser.py:46-49 | the for/break loop appends the label of the first contained key, or nothing |
| LabelParser.MatchItem | src/labeling/parser.py:36-49 | an item yields at most one label, always a map value; non-strings yield none |
| LabelParser.MatchCanonical | src/labeling/parser.py:37-42 | with distinct normal forms, a vocabulary label as an item maps to itself |
| LabelParser.Cleaned | src/labeling/parser.py:35-49 | at most one allowed label per item |
| LabelParser.CleanedStep | src/labeling/parser.py:36-49 | each item appends its matches |
| LabelParser.CleanItems | src/labeling/parser.py:35-49 | the item loop computes the cleaned label list |
| LabelParser.CleanedCanonical | src/labeling/parser.py:35-49 | a list of vocabulary labels cleans to itself |
| LabelParser.InVocabOrder | src/labeling/parser.py:52 | the ordered list is no longer than the vocabulary |
| LabelParser.InVocabOrderMembers | src/labeling/parser.py:52 | the ordered list holds exactly the vocabulary labels that were cleaned |
| LabelParser.InVocabOrderSubsequence | src/labeling/parser.py:52 | the ordered list is a subsequence of the vocabulary |
| LabelParser.InVocabOrderCongruent | src/labeling/parser.py:52 | the ordering depends only on which labels were cleaned, not on their order or repetition |
| LabelParser.InVocabOrderFixes | src/labeling/parser.py:52 | a subsequence of a distinct vocabulary is already in vocabulary order |
| LabelParser.NarrowToBrackets | src/labeling/parser.py:18-22 | text not starting with "[" is cut from the first "[" to the last "]" when both exist |
| LabelParser.ParseLabels | src/labeling/parser.py:7-56 | the method computes the parsed labels; None, undecodable text and non-lists give [] |
| LabelParser.LabelsInVocabularyOrder | src/labeling/parser.py:7-56 | parsed labels are a subsequence of the vocabulary, no more of them than labels in it, and distinct when the vocabulary is |
| LabelParser.EncodedIsBracketed | src/labeling/parser.py:14-22 | an encoded label list survives stripping and bracket narrowing |
| LabelParser.CanonicalRoundTrip | src/labeling/parser.py:7-53 | parsing `json.dumps` of a vocabulary subsequence returns that subsequence |
| LabelParser.ParseLabelsIdempotent | src/labeling/parser.py:7-53 | re-parsing the JSON of parsed labels returns the same labels |
| Json.EncodeStrings | src/labeling/runner.py:46 | `json.dumps` of a list of strings is bracketed text |
| Json.Strings | src/labeling/runner.py:46 | the JSON values of a list of strings, element by element |
| Json.EscapeStringDecodes | src/labeling/runner.py:46 | the string decoder reads back exactly what the escaper wrote, stopping at the closing quote |
| Json.QuoteDecodes | src/labeling/runner.py:46 | a quoted string decodes to that string |
| Json.JoinQuotedDecodes | src/labeling/runner.py:46 | the ", "-joined items decode to the list of strings |
| Json.EncodeStringsParses | src/labeling/runner.py:46 | an encoded list parses as that JSON array with nothing left over |
| Json.EncodeStringsDecodes | src/labeling/parser.py:24 | `json.loads(json.dumps(xs))` is xs for every list of strings |
| ComputeMetrics.CleanLabel | src/benchmark/compute_metrics.py:36-39 | the cleaned label is stripped; None/NaN becomes "Others" and text becomes its strip |
| ComputeMetrics.CleanLabelIdempotent | src/benchmark/compute_metrics.py:36-39 | cleaning a cleaned label changes nothing |
| ComputeMetrics.Element | src/benchmark/compute_metrics.py:57-59 | a JSON element is a missing value exactly when it is null or NaN |
| ComputeMetrics.ParseModelLabelsCell | src/benchmark/compute_metrics.py:42-64 | the prediction is a stripped label; a missing or blank cell gives "Others" |
| ComputeMetrics.FirstItem | src/benchmark/compute_metrics.py:55-62 | the bracketed branch gives a stripped label |
| ComputeMetrics.ParsePlainCell | src/benchmark/compute_metrics.py:50-64 | a cell not starting with "[" predicts its stripped text |
| ComputeMetrics.ParseBracketedCell | src/benchmark/compute_metrics.py:55-62 | a cell starting with "[" predicts the first item of its decoded JSON |
| ComputeMetrics.ParseEncodedCell | src/benchmark/compute_metrics.py:55-62 | a JSON-encoded label list predicts its stripped first label, or "Others" when empty |
| ComputeMetrics.FirstString | src/benchmark/compute_metrics.py:58-60 | the first item of a decoded list of strings is its stripped first string, or "Others" |
| ComputeMetrics.Column | src/benchmark/compute_metrics.py:107 | a column has one cell per row |
| ComputeMetrics.FirstEndingWith | src/benchmark/compute_metrics.py:68-70 | the first column with the suffix, or none when no column has it |
| ComputeMetrics.FindPredCol | src/benchmark/compute_metrics.py:67-72 | found exactly when some column ends with `_labels`, and then the first one; otherwise the error names the columns |
| ComputeMetrics.CleanAll | src/benchmark/compute_metrics.py:86 | the gold column cleaned element-wise |
| ComputeMetrics.Predictions | src/benchmark/compute_metrics.py:107 | the prediction column parsed element-wise |
| ComputeMetrics.NameOrderTotal | src/benchmark/compute_metrics.py:88 | the file-name order is total and transitive |
| ComputeMetrics.ModelFilesSelected | src/benchmark/compute_metrics.py:88 | the model files are exactly the matching files of the listing, sorted by name |
| ComputeMetrics.ClassRows | src/benchmark/compute_metrics.py:140-148 | one per-class row per allowed label, in order |
| ComputeMetrics.ClassRowMissing | src/benchmark/compute_metrics.py:144-147 | a label missing from the report gets rounded zeros and support 0 |
| ComputeMetrics.EvaluateModelFile | src/benchmark/compute_metrics.py:96-148 | the method computes one file's outcome |
| ComputeMetrics.EvaluateFileShape | src/benchmark/compute_metrics.py:101-148 | provided the library calls return, one file succeeds exactly when the row counts match and a prediction column exists; a count mismatch reports both counts; success gives a summary row tagged with the model and one per-class row per allowed label |
| ComputeMetrics.Outcomes | src/benchmark/compute_metrics.py:96-148 | one outcome per model file |
| ComputeMetrics.CollectOk | src/benchmark/compute_metrics.py:96-148 | the loop completes exactly when every file succeeds |
| ComputeMetrics.CollectFirstError | src/benchmark/compute_metrics.py:96-106 | the first failing file's error is the one raised |
| ComputeMetrics.CollectAborts | src/benchmark/compute_metrics.py:96-106 | nothing after the first error matters |
| ComputeMetrics.CollectRows | src/benchmark/compute_metrics.py:93-148 | on success: one summary row per file in file order, and k per-class rows per file |
| ComputeMetrics.CollectRowAt | src/benchmark/compute_metrics.py:140-148 | per-class row j of file i sits at position i·k + j |
| ComputeMetrics.CollectBlocks | src/benchmark/compute_metrics.py:140-148 | the per-class rows form one block per file, tagged with its model, with labels in order |
| ComputeMetrics.Tags | src/benchmark/compute_metrics.py:129 | one model tag per file |
| ComputeMetrics.MacroOrder | src/benchmark/compute_metrics.py:152 | "macro-F1 descending" is total and transitive |
| ComputeMetrics.SummaryRows | src/benchmark/compute_metrics.py:131-138 | the summary rows of successful outcomes, in order |
| ComputeMetrics.SortSummary | src/benchmark/compute_metrics.py:152 | sorting keeps exactly the summary rows and orders them by descending macro-F1 |
| ComputeMetrics.RunBenchmark | src/benchmark/compute_metrics.py:78-153 | the method computes the benchmark outputs, or the first error |
| ComputeMetrics.BenchmarkGuards | src/benchmark/compute_metrics.py:83-106 | provided the library calls return, the run succeeds exactly when the gold column exists, there is a model file, and every file has the gold row count and a prediction column |
| ComputeMetrics.BenchmarkRowMismatch | src/benchmark/compute_metrics.py:101-104 | the first file with the wrong row count aborts the run with both counts |
| ComputeMetrics.BenchmarkCollect | src/benchmark/compute_metrics.py:93-153 | on success the outputs are the sorted summary rows and the collected per-class rows, each file reporting the gold row count and one row per label |
| ComputeMetrics.BenchmarkSummary | src/benchmark/compute_metrics.py:131-152 | the summary is a permutation of the per-file rows, sorted by descending macro-F1, each with n_samples equal to the gold row count |
| ComputeMetrics.BenchmarkPerClass | src/benchmark/compute_metrics.py:140-153 | the per-class output is one block per model file in file order, each listing the allowed labels in order |
| Runner.Filled | src/labeling/runner.py:28-29 | a column set to one value holds it in every row |
| Runner.WithColumn | src/labeling/runner.py:28-29 | assigning a column keeps every existing column and adds the new one |
| Runner.SetColumnKeeps | src/labeling/runner.py:28-29 | assigning a column leaves every other column at its place and with its contents |
| Runner.Table.Copy | src/labeling/runner.py:24 | the copy has the same columns, contents and length |
| Runner.Table.SetColumn | src/labeling/runner.py:28-29 | `df[name] = v` replaces or appends a column filled with v and changes nothing else |
| Runner.Table.SetCell | src/labeling/runner.py:45-46 | `df.at[i, name] = v` changes exactly that cell |
| Runner.AddModelColumns | src/labeling/runner.py:25-29 | both model columns are present and all None, and the other columns are unchanged |
| Runner.StoreRow | src/labeling/runner.py:37-46 | row i receives the raw reply ("" on failure) and the JSON of its parsed labels; nothing else changes |
| Runner.FillRows | src/labeling/runner.py:34-46 | after the loop every row holds its own reply and labels, and the other columns are unchanged |
| Runner.LabelDataFrameWithModel | src/labeling/runner.py:10-52 | a missing text column fails exactly when there are rows; otherwise a fresh table with the two model columns added, the other cells unchanged, and every row's raw and labels cells derived from the oracle's answer for its review |
| Runner.LabelsCellDecodes | src/labeling/runner.py:39-46 | a stored labels cell is valid JSON of a vocabulary subsequence |
| Runner.LabelsCellReparses | src/labeling/runner.py:39-46 | parsing a stored labels cell again returns the same labels |
| Runner.LabelsCellPrediction | src/labeling/runner.py:46 | the benchmark reads a stored labels cell as its first label, or "Others" when it is empty |
| Prompts.SystemPromptIsStripped | src/prompts.py:3-77 | the system prompt has no surrounding whitespace |
| Prompts.PromptWith | src/prompts.py:85-86 | the prompt starts with the instructions and the review header, ends with the closing line, and has room for exactly the stripped review |
| Prompts.BuildPrompt | src/prompts.py:80-86 | the prompt starts with the system prompt and review header and ends with the closing instruction |
| Prompts.PromptRoundTrip | src/prompts.py:85-86 | the review part of the prompt is the stripped review ("" for None) |
| Prompts.PromptDeterminedByStrippedReview | src/prompts.py:85-86 | two prompts are equal exactly when the stripped reviews are |
| Prompts.BuildPromptRoundTrip | src/prompts.py:80-86 | the review can be read back from the built prompt, and it is stripped |
| DataCleaner.MojibakeTableSafe | data_cleaner.py:13-24 | no replacement reintroduces a mojibake sequence |
| DataCleaner.MojibakeRemoved | data_cleaner.py:31-32 | after the replacement loop, no table sequence remains |
| DataCleaner.MojibakeGone | data_cleaner.py:13-32 | none of the ten mojibake sequences survives |
| DataCleaner.NoBreakUnchanged | data_cleaner.py:38 | replacing a character that does not occur changes nothing |
| DataCleaner.ReplaceSpaceKeepsText | data_cleaner.py:38 | replacing a whitespace character by a space keeps the non-space text |
| DataCleaner.CollapseWs | data_cleaner.py:39 | whitespace runs become single plain spaces; emptiness and a leading space are kept |
| DataCleaner.CollapseKeepsText | data_cleaner.py:39 | collapsing keeps the non-space characters in order |
| DataCleaner.CollapseFixesCollapsed | data_cleaner.py:39 | already-collapsed text is unchanged |
| DataCleaner.StripKeepsForm | data_cleaner.py:42 | stripping keeps collapsed text collapsed |
| DataCleaner.StripKeepsText | data_cleaner.py:42 | stripping keeps the non-space characters |
| DataCleaner.TidyShape | data_cleaner.py:38-42 | tidied text has no line breaks, no double or non-plain spaces, and no outer space |
| DataCleaner.TidyKeepsText | data_cleaner.py:38-42 | tidying keeps the non-space characters in order |
| DataCleaner.TidyIdempotent | data_cleaner.py:38-42 | tidying twice is tidying once |
| DataCleaner.CleanText | data_cleaner.py:26-42 | text is cleaned; any other value is returned unchanged |
| DataCleaner.Indexed | data_cleaner.py:10 | rows keep their original index |
| DataCleaner.CleanRows | data_cleaner.py:45 | the cleaner is applied to every row, keeping its index |
| DataCleaner.CleanRowsSnoc | data_cleaner.py:45 | applying row by row is the same as applying to all |
| DataCleaner.KeptRowsSound | data_cleaner.py:10-48 | every kept row is a text review, cleaned, of length at least 20, at its original index |
| DataCleaner.KeptRowsComplete | data_cleaner.py:10-48 | every text review whose cleaned form has at least 20 characters is kept |
| DataCleaner.KeptRowsExactly | data_cleaner.py:10-48 | a row is kept exactly when it is a text review whose cleaned form has at least 20 characters |
| DataCleaner.CleanReviews | data_cleaner.py:10-48 | the method computes exactly the kept rows |
| Text.Strip | src/labeling/parser.py:14 | `str.strip`: the result has no outer whitespace, and the input is the result padded with whitespace |
| Text.StripStripped | src/labeling/parser.py:14 | stripping stripped text changes nothing |
| Text.Find | src/labeling/parser.py:19 | `str.find`: -1 exactly when absent, otherwise the first occurrence |
| Text.RFind | src/labeling/parser.py:20 | `str.rfind`: -1 exactly when absent, otherwise the last occurrence |
| Text.IndexOf | src/labeling/parser.py:46-47 | substring search finds the first occurrence, or none |
| Text.ReplaceAllRemoves | data_cleaner.py:32 | `str.replace` leaves no occurrence of the pattern when the replacement cannot recreate one |
| Text.Lower | src/labeling/parser.py:31 | lower-casing keeps alphanumerics alphanumeric and leaves no upper-case letter |
| Dicts.Lookup | src/evaluate_predictions.py:45 | a dict lookup succeeds exactly for present keys, with the last-written value |
| Dicts.PutLookup | src/evaluate_predictions.py:69-72 | after `d[key] = v`, key maps to v and every other key keeps its value |
| Dicts.TallyKeys | src/benchmark/generate_gold_labels.py:26 | a `Counter`'s keys are the distinct values in first-seen order |
| Dicts.TallyCounts | src/benchmark/generate_gold_labels.py:26 | each `Counter` entry counts its key's occurrences |
| Cells.Present | src/benchmark/generate_gold_labels.py:23 | the kept votes are exactly the non-None, non-empty annotations |
| Sorting.SortBy | src/benchmark/compute_metrics.py:152 | sorting is a permutation |
| Sorting.SortBySorted | src/benchmark/compute_metrics.py:152 | under a total, transitive order, the result is sorted |

## Findings

| source | as written | input that shows it | evidently intended | confidence | as-written member | corrected member |
|---|---|---|---|---|---|---|
| src/evaluate_predictions.py:97-99 | `n_pos` and `n_neg` are counted over all of `true`, while the ranked pairs come from `zip(scores, true)`, which stops at the shorter list | `compute_auc_binary([0.5], [0, 1])` returns -1.0, outside [0, 1] | the class counts taken over the paired values, so the AUC stays in [0, 1]; `main` always passes two columns of one table, which agree in length | not executed | AucMannWhitney.AucUnequalLengths | AucMannWhitney.AucAligned, with AucMannWhitney.AucAlignedWithinUnit and AucMannWhitney.EvaluateAucWithinUnit |

## Left out

- The vendor clients, `main_label_reviews` and the network calls they make are not part of this model. The model call is an oracle `(row, model, review) -> Reply` whose reply is either a failure or a (possibly missing) text. Exceptions raised by the call or by `parse_labels` are the `Failed` reply.
- Configuration loading is not modelled. `LABEL_ORDER`/`ALLOWED_LABELS` are the `vocab`/`allowed` parameters.
- `align_data`, argument parsing, `read_rows`/`read_ratings` and all CSV, Excel and pandas file I/O are left out. Tables are given as values: `Frame`, `Runner.Table`, and rows as association lists. Rows read with `csv.DictReader` are assumed complete, every field a string. A short line gives `None` fields, on which `.strip()` at `src/benchmark/generate_gold_labels.py:69` raises `AttributeError`, and a long line adds a `None` key holding a list; that crash is not modelled.
- `print`, `time.sleep` and the `save_every` progress report in the runner are left out. They do not affect the result table.
- The sklearn `classification_report` and `matthews_corrcoef` and the `krippendorff.alpha` package used by the benchmark driver are opaque library code. They are the fields of a `Library` parameter, as is Python's `round(x, 4)`.
- ComputeMetrics.BenchmarkGuards: the library calls are modelled as never raising. `krippendorff.alpha` (`src/benchmark/compute_metrics.py:124-127`) asserts that there is more than one value in the domain. So with every gold label "Others" and every prediction cell `["Others"]`, or with zero rows in both files, every guard holds, yet the run aborts with an `AssertionError`. The model returns a result there.
- ComputeMetrics.EvaluateFileShape: the same assumption applies to one file. Its success direction holds only when `classification_report`, `matthews_corrcoef` and `krippendorff.alpha` return; the single-valued label domain above makes the file fail in the code.
- ComputeMetrics.RunBenchmark: pandas `sort_values` uses an unstable quicksort. The model sorts stably, so the order of summary rows with equal macro-F1 is not captured. Permutation and order by macro-F1 are proved.
- ComputeMetrics.Element: Python's `str()` of a non-string JSON value (a number, list or object) is the `show` parameter rather than a re-implementation of `repr`.
- Floating point is modelled as exact reals. Rounding error, infinities and NaN arithmetic are not captured, and NaN results are `None`.
- EvaluatePredictions.Matthews: the square root is not taken. The result keeps the numerator and the radicand, so MCC = num/sqrt(radicand).
- `unidecode` is the `transliterate` parameter of the review cleaner. No property of it is assumed.
- LabelParser.Normalize: `str.lower` and `str.isalnum` are modelled for ASCII letters and digits only. Unicode case mapping and other alphanumerics are not captured.
- KrippendorffAlpha.KrippendorffAlphaNominal: the `categories` set the source fills but never reads is left out.
- The language detection, duplicate removal, column drops and sampling steps of the review cleaner are left out. They are I/O-bound or depend on a third-party classifier. Only text cleaning and the length filter are modelled.
- Json.EncodeStrings: strings holding lone surrogate code points, which Python can encode but which do not occur in model replies, are not covered by the round-trip lemmas.
- LabelParser.ParseLabels: a `\u` escape of a lone surrogate (one without its pair) is treated as undecodable, so the reply parses to `[]`. Python's `json.loads` accepts it, but a Dafny string cannot hold a lone surrogate. The interpreter's limits are not modelled either: `json.loads` raises `RecursionError` on arrays or objects nested past Python's recursion limit and, from Python 3.11, `ValueError` on an integer literal of more than 4300 digits, so `parse_labels` returns `[]` for such a reply, while the model decodes it and returns its labels.
- ComputeMetrics.ParseModelLabelsCell: the same interpreter limits are not modelled. A `[` cell nested past Python's recursion limit, or holding an integer of more than 4300 digits, gives `"Others"` in the code, while the model decodes it and returns its first item.
- The Python-level `try/except` in `parse_labels` is modelled as a total function. Undecodable input and non-list JSON give `[]`, as the except branch does; the errors that branch also catches on well-formed JSON (nesting depth, integer length) are the ones admitted under LabelParser.ParseLabels above.
