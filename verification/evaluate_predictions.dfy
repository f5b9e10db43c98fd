/** `evaluate_predictions.py`: the confusion matrix over a fixed label list, per-class
    precision / recall / F1 and macro-F1, multiclass Matthews correlation, rank-based
    binary AUC, and `evaluate_one`, which ties them together. */
module EvaluatePredictions {
  import opened Wrappers
  import opened Seqs
  import opened Text
  import opened Cells
  import opened Dicts
  import opened Sorting

  // ---------------------------------------------------------------- confusion matrix

  /** Rows are true labels, columns predicted labels. */
  type Matrix = seq<seq<int>>

  predicate IsSquare(C: Matrix, k: int) {
    |C| == k && forall a :: 0 <= a < |C| ==> |C[a]| == k
  }

  predicate NonNegative(C: Matrix) {
    forall a, b :: 0 <= a < |C| && 0 <= b < |C[a]| ==> C[a][b] >= 0
  }

  /** `idx = {l: i for i, l in enumerate(labels)}`: a label's position, the last one
      when it is listed twice. */
  function LabelIndex<T(==)>(labels: seq<T>, x: T): (r: Option<nat>)
    ensures r.Some? <==> x in labels
    ensures r.Some? ==> r.value < |labels| && labels[r.value] == x
    ensures r.Some? ==> forall q :: r.value < q < |labels| ==> labels[q] != x
  {
    if labels == [] then None
    else if labels[|labels| - 1] == x then Some(|labels| - 1)
    else LabelIndex(labels[..|labels| - 1], x)
  }

  lemma LabelIndexDistinct<T>(labels: seq<T>, a: nat)
    requires Distinct(labels) && a < |labels|
    ensures LabelIndex(labels, labels[a]) == Some(a)
  {
  }

  /** `[[0] * k for _ in range(k)]`. */
  function Zeros(k: nat): (C: Matrix)
    ensures IsSquare(C, k)
    ensures forall a, b :: 0 <= a < k && 0 <= b < k ==> C[a][b] == 0
  {
    seq(k, _ => seq(k, _ => 0))
  }

  /** `C[a][b] += 1`. */
  function Bump(C: Matrix, a: nat, b: nat): Matrix
    requires a < |C| && b < |C[a]|
  {
    C[a := C[a][b := C[a][b] + 1]]
  }

  /** The matrix after counting `pairs` in order; a pair with a value outside `labels`
      is skipped. */
  function Confusion<T(==)>(pairs: seq<(T, T)>, labels: seq<T>): (C: Matrix)
    ensures IsSquare(C, |labels|) && NonNegative(C)
  {
    if pairs == [] then Zeros(|labels|)
    else
      var C' := Confusion(pairs[..|pairs| - 1], labels);
      var (t, p) := pairs[|pairs| - 1];
      match (LabelIndex(labels, t), LabelIndex(labels, p))
        case (Some(a), Some(b)) => Bump(C', a, b)
        case _ => C'
  }

  /** `confusion_matrix(true, pred, labels)`. */
  method ConfusionMatrix<T(==)>(truth: seq<T>, pred: seq<T>, labels: seq<T>) returns (C: Matrix)
    ensures C == Confusion(Zip(truth, pred), labels)
  {
    var k := |labels|;
    C := Zeros(k);
    var pairs := Zip(truth, pred);
    for i := 0 to |pairs|
      invariant C == Confusion(pairs[..i], labels)
    {
      assert pairs[..i + 1][..i] == pairs[..i];
      var (t, p) := pairs[i];
      var ti, pi := LabelIndex(labels, t), LabelIndex(labels, p);
      if ti.Some? && pi.Some? {
        C := C[ti.value := C[ti.value][pi.value := C[ti.value][pi.value] + 1]];
      }
    }
    assert pairs[..|pairs|] == pairs;
  }

  /** With distinct labels, cell (a, b) counts the aligned pairs equal to
      `(labels[a], labels[b])`. */
  lemma {:induction false} ConfusionCounts<T>(pairs: seq<(T, T)>, labels: seq<T>, a: nat, b: nat)
    requires Distinct(labels) && a < |labels| && b < |labels|
    ensures Confusion(pairs, labels)[a][b] == Count(pairs, (labels[a], labels[b]))
    decreases |pairs|
  {
    if pairs != [] {
      var init := pairs[..|pairs| - 1];
      ConfusionCounts(init, labels, a, b);
      LabelIndexDistinct(labels, a);
      LabelIndexDistinct(labels, b);
      var C' := Confusion(init, labels);
      var (t, p) := pairs[|pairs| - 1];
      assert Count(pairs, (labels[a], labels[b]))
        == Count(init, (labels[a], labels[b])) + (if (t, p) == (labels[a], labels[b]) then 1 else 0);
      match (LabelIndex(labels, t), LabelIndex(labels, p))
      case (Some(a'), Some(b')) =>
        assert Confusion(pairs, labels) == Bump(C', a', b');
        assert (a', b') == (a, b) <==> (t, p) == (labels[a], labels[b]);
      case _ =>
        assert (t, p) != (labels[a], labels[b]);
    }
  }

  function RowSums(C: Matrix): (r: seq<int>)
    ensures |r| == |C| && forall a :: 0 <= a < |C| ==> r[a] == Sum(C[a])
  {
    seq(|C|, a requires 0 <= a < |C| => Sum(C[a]))
  }

  /** The sum of all cells. */
  function CellSum(C: Matrix): int {
    Sum(RowSums(C))
  }

  /** Number of pairs whose two values are both labels. */
  function Known<T(==)>(pairs: seq<(T, T)>, labels: seq<T>): (n: nat)
    ensures n <= |pairs|
  {
    if pairs == [] then 0
    else
      var (t, p) := pairs[|pairs| - 1];
      Known(pairs[..|pairs| - 1], labels) + (if t in labels && p in labels then 1 else 0)
  }

  lemma {:induction false} SumZeros(s: seq<int>)
    requires forall k :: 0 <= k < |s| ==> s[k] == 0
    ensures Sum(s) == 0
    decreases |s|
  {
    if s != [] {
      SumZeros(s[..|s| - 1]);
    }
  }

  lemma BumpTotal(C: Matrix, a: nat, b: nat)
    requires a < |C| && b < |C[a]|
    ensures CellSum(Bump(C, a, b)) == CellSum(C) + 1
  {
    var row := C[a][b := C[a][b] + 1];
    SumUpdate(C[a], b, C[a][b] + 1);
    assert RowSums(Bump(C, a, b)) == RowSums(C)[a := Sum(row)];
    SumUpdate(RowSums(C), a, Sum(row));
  }

  /** Every counted pair adds exactly one to the matrix: the cells sum to the number of
      aligned pairs with both values in `labels`. */
  lemma {:induction false} ConfusionTotal<T>(pairs: seq<(T, T)>, labels: seq<T>)
    ensures CellSum(Confusion(pairs, labels)) == Known(pairs, labels)
    decreases |pairs|
  {
    if pairs == [] {
      var Z := Zeros(|labels|);
      forall a | 0 <= a < |Z| ensures Sum(Z[a]) == 0 {
        SumZeros(Z[a]);
      }
      SumZeros(RowSums(Z));
    } else {
      ConfusionTotal(pairs[..|pairs| - 1], labels);
      var C' := Confusion(pairs[..|pairs| - 1], labels);
      var (t, p) := pairs[|pairs| - 1];
      if t in labels && p in labels {
        BumpTotal(C', LabelIndex(labels, t).value, LabelIndex(labels, p).value);
      }
    }
  }

  /** The matrix counts exactly the aligned pairs whose values are both labels; `zip`
      stops at the shorter list. */
  lemma ConfusionMatrixTotal<T>(truth: seq<T>, pred: seq<T>, labels: seq<T>)
    ensures CellSum(Confusion(Zip(truth, pred), labels)) == Known(Zip(truth, pred), labels)
    ensures Known(Zip(truth, pred), labels) <= Min(|truth|, |pred|)
  {
    ConfusionTotal(Zip(truth, pred), labels);
  }

  // ---------------------------------------------------------------- per-class scores

  /** `sum(s[j] for j in range(len(s)) if j != i)`. */
  function SumExcept(s: seq<int>, i: int): int {
    if s == [] then 0
    else SumExcept(s[..|s| - 1], i) + (if |s| - 1 != i then s[|s| - 1] else 0)
  }

  lemma {:induction false} SumExceptSplit(s: seq<int>, i: nat)
    requires i < |s|
    ensures SumExcept(s, i) + s[i] == Sum(s)
    decreases |s|
  {
    if i < |s| - 1 {
      SumExceptSplit(s[..|s| - 1], i);
    } else {
      SumExceptAll(s[..|s| - 1], i);
    }
  }

  lemma {:induction false} SumExceptAll(s: seq<int>, i: int)
    requires |s| <= i
    ensures SumExcept(s, i) == Sum(s)
    decreases |s|
  {
    if s != [] {
      SumExceptAll(s[..|s| - 1], i);
    }
  }

  lemma {:induction false} SumExceptNonNegative(s: seq<int>, i: int)
    requires forall k :: 0 <= k < |s| ==> s[k] >= 0
    ensures SumExcept(s, i) >= 0
    decreases |s|
  {
    if s != [] {
      SumExceptNonNegative(s[..|s| - 1], i);
    }
  }

  /** Column `b` of `C`: `[C[a][b] for a in range(len(C))]`. */
  function Column(C: Matrix, b: nat): (col: seq<int>)
    requires forall a :: 0 <= a < |C| ==> b < |C[a]|
    ensures |col| == |C| && forall a :: 0 <= a < |C| ==> col[a] == C[a][b]
  {
    seq(|C|, a requires 0 <= a < |C| => C[a][b])
  }

  datatype ClassScores = ClassScores(precision: real, recall: real, f1: real, support: int)

  /** `n / d if d > 0 else 0.0`. */
  function Ratio(n: int, d: int): real {
    if d > 0 then n as real / d as real else 0.0
  }

  /** `2 * p * r / (p + r) if (p + r) > 0 else 0.0`. */
  function F1(p: real, r: real): real {
    if p + r > 0.0 then 2.0 * p * r / (p + r) else 0.0
  }

  /** The scores of class `i`: tp on the diagonal, fn the rest of its row, fp the rest of
      its column. */
  function Scores(C: Matrix, i: nat): ClassScores
    requires IsSquare(C, |C|) && i < |C|
  {
    var tp := C[i][i];
    var fn := SumExcept(C[i], i);
    var fp := SumExcept(Column(C, i), i);
    var p := Ratio(tp, tp + fp);
    var r := Ratio(tp, tp + fn);
    ClassScores(p, r, F1(p, r), tp + fn)
  }

  lemma RatioBounds(n: int, d: int)
    requires 0 <= n <= d
    ensures 0.0 <= Ratio(n, d) <= 1.0
  {
    if d > 0 {
      assert n as real <= d as real;
    }
  }

  lemma F1Bounds(p: real, r: real)
    requires 0.0 <= p <= 1.0 && 0.0 <= r <= 1.0
    ensures 0.0 <= F1(p, r) <= 1.0
  {
    if p + r > 0.0 {
      assert p * r <= p by {
        assert p * (1.0 - r) >= 0.0;
      }
      assert p * r <= r by {
        assert (1.0 - p) * r >= 0.0;
      }
      assert 0.0 <= p * r;
      DivBounds(2.0 * p * r, p + r);
    }
  }

  /** Support is the row sum (tp + fn); precision, recall and F1 lie in [0, 1]; a class
      with no support has recall 0 and F1 0. */
  lemma ScoresBounds(C: Matrix, i: nat)
    requires IsSquare(C, |C|) && NonNegative(C) && i < |C|
    ensures var sc := Scores(C, i);
      && sc.support == Sum(C[i]) && sc.support >= 0
      && 0.0 <= sc.precision <= 1.0 && 0.0 <= sc.recall <= 1.0 && 0.0 <= sc.f1 <= 1.0
      && (sc.support == 0 ==> sc.recall == 0.0 && sc.f1 == 0.0)
  {
    var tp := C[i][i];
    SumExceptSplit(C[i], i);
    SumExceptNonNegative(C[i], i);
    SumExceptNonNegative(Column(C, i), i);
    var fn := SumExcept(C[i], i);
    var fp := SumExcept(Column(C, i), i);
    RatioBounds(tp, tp + fp);
    RatioBounds(tp, tp + fn);
    F1Bounds(Ratio(tp, tp + fp), Ratio(tp, tp + fn));
  }

  /** A class whose row and column are zero off the diagonal, with some support, scores
      1.0 on all three ratios. */
  lemma PerfectClassScores(C: Matrix, i: nat)
    requires IsSquare(C, |C|) && i < |C| && C[i][i] > 0
    requires forall j :: 0 <= j < |C| && j != i ==> C[i][j] == 0 && C[j][i] == 0
    ensures Scores(C, i) == ClassScores(1.0, 1.0, 1.0, C[i][i])
  {
    SumExceptZero(C[i], i);
    SumExceptZero(Column(C, i), i);
    var tp := C[i][i] as real;
    assert tp / tp == 1.0;
    assert F1(1.0, 1.0) == 1.0;
  }

  lemma {:induction false} SumExceptZero(s: seq<int>, i: int)
    requires forall j :: 0 <= j < |s| && j != i ==> s[j] == 0
    ensures SumExcept(s, i) == 0
    decreases |s|
  {
    if s != [] {
      SumExceptZero(s[..|s| - 1], i);
    }
  }

  /** The dictionaries after the first `n` iterations of the loop over `labels`: a
      label listed twice keeps its first place and its last scores. */
  function ScoreTable<T(==)>(C: Matrix, labels: seq<T>, n: nat): (table: seq<(T, ClassScores)>)
    requires IsSquare(C, |labels|) && n <= |labels|
    ensures |table| <= n
  {
    if n == 0 then []
    else Put(ScoreTable(C, labels, n - 1), labels[n - 1], Scores(C, n - 1))
  }

  function F1Values<T>(table: seq<(T, ClassScores)>): (r: seq<real>)
    ensures |r| == |table| && forall q :: 0 <= q < |table| ==> r[q] == table[q].1.f1
  {
    seq(|table|, q requires 0 <= q < |table| => table[q].1.f1)
  }

  /** `sum(f1s.values()) / k if k > 0 else 0.0`. */
  function Macro<T>(table: seq<(T, ClassScores)>, k: nat): real {
    if k > 0 then SumReal(F1Values(table)) / k as real else 0.0
  }

  /** `precision_recall_f1_from_confusion`: the four dictionaries are kept as one
      dictionary of per-class records with the same keys in the same order. */
  method PrecisionRecallF1<T(==)>(C: Matrix, labels: seq<T>) returns (scores: seq<(T, ClassScores)>, macro: real)
    requires IsSquare(C, |labels|)
    ensures scores == ScoreTable(C, labels, |labels|)
    ensures macro == Macro(scores, |labels|)
  {
    var k := |labels|;
    scores := [];
    for i := 0 to k
      invariant scores == ScoreTable(C, labels, i)
    {
      var sc := ClassScoresOf(C, i);
      scores := Put(scores, labels[i], sc);
    }
    macro := if k > 0 then SumReal(F1Values(scores)) / k as real else 0.0;
  }

  /** One iteration of the loop over the labels: the scores of class `i`. */
  method ClassScoresOf(C: Matrix, i: nat) returns (sc: ClassScores)
    requires IsSquare(C, |C|) && i < |C|
    ensures sc == Scores(C, i)
  {
    var tp := C[i][i];
    var fn := SumExcept(C[i], i);
    var fp := SumExcept(Column(C, i), i);
    var support := tp + fn;
    var prec := if tp + fp > 0 then tp as real / (tp + fp) as real else 0.0;
    var rec := if tp + fn > 0 then tp as real / (tp + fn) as real else 0.0;
    var f1 := if prec + rec > 0.0 then 2.0 * prec * rec / (prec + rec) else 0.0;
    sc := ClassScores(prec, rec, f1, support);
  }

  /** With distinct labels the table has one entry per label, in label order, holding
      that class's scores. */
  lemma ScoreTableDistinct<T>(C: Matrix, labels: seq<T>, n: nat)
    requires IsSquare(C, |labels|) && n <= |labels| && Distinct(labels)
    ensures |ScoreTable(C, labels, n)| == n
    ensures forall q :: 0 <= q < n ==> ScoreTable(C, labels, n)[q] == (labels[q], Scores(C, q))
  {
    ScoreTableKeys(C, labels, n);
    forall q | 0 <= q < n ensures ScoreTable(C, labels, n)[q] == (labels[q], Scores(C, q)) {
      ScoreTableAt(C, labels, n, q);
    }
  }

  /** With distinct labels the keys of the table are the labels seen so far. */
  lemma {:induction false} ScoreTableKeys<T>(C: Matrix, labels: seq<T>, n: nat)
    requires IsSquare(C, |labels|) && n <= |labels| && Distinct(labels)
    ensures Keys(ScoreTable(C, labels, n)) == labels[..n]
    decreases n
  {
    if n > 0 {
      ScoreTableKeys(C, labels, n - 1);
      var prev := ScoreTable(C, labels, n - 1);
      NewLabel(labels, n - 1);
      KeyIndexAbsent(prev, labels[n - 1]);
      KeysSnoc(prev, (labels[n - 1], Scores(C, n - 1)));
      PrefixStep(labels, n - 1);
    }
  }

  /** Label `i` of a distinct list is not among the labels before it. */
  lemma NewLabel<T>(labels: seq<T>, i: nat)
    requires i < |labels| && Distinct(labels)
    ensures labels[i] !in labels[..i]
  {
    forall j | 0 <= j < i ensures labels[..i][j] != labels[i] {
      assert labels[j] != labels[i];
    }
  }

  /** With distinct labels entry `q` of the table is label `q` with its scores. */
  lemma {:induction false} ScoreTableAt<T>(C: Matrix, labels: seq<T>, n: nat, q: nat)
    requires IsSquare(C, |labels|) && q < n <= |labels| && Distinct(labels)
    ensures q < |ScoreTable(C, labels, n)| && ScoreTable(C, labels, n)[q] == (labels[q], Scores(C, q))
    decreases n
  {
    var prev := ScoreTable(C, labels, n - 1);
    ScoreTableKeys(C, labels, n - 1);
    NewLabel(labels, n - 1);
    KeyIndexAbsent(prev, labels[n - 1]);
    if q < n - 1 {
      ScoreTableAt(C, labels, n - 1, q);
    }
  }

  lemma {:induction false} SumRealBounds(s: seq<real>)
    requires forall q :: 0 <= q < |s| ==> 0.0 <= s[q] <= 1.0
    ensures 0.0 <= SumReal(s) <= |s| as real
    decreases |s|
  {
    if s != [] {
      SumRealBounds(s[..|s| - 1]);
    }
  }

  lemma {:induction false} ScoreTableBounds<T>(C: Matrix, labels: seq<T>, n: nat)
    requires IsSquare(C, |labels|) && NonNegative(C) && n <= |labels|
    ensures forall q :: 0 <= q < |ScoreTable(C, labels, n)| ==> 0.0 <= ScoreTable(C, labels, n)[q].1.f1 <= 1.0
    decreases n
  {
    if n > 0 {
      ScoreTableBounds(C, labels, n - 1);
      ScoresBounds(C, n - 1);
    }
  }

  /** Macro-F1 lies in [0, 1]; it is 0.0 for an empty label list. */
  lemma MacroBounds<T>(C: Matrix, labels: seq<T>)
    requires IsSquare(C, |labels|) && NonNegative(C)
    ensures var m := Macro(ScoreTable(C, labels, |labels|), |labels|);
      0.0 <= m <= 1.0 && (labels == [] ==> m == 0.0)
  {
    var table := ScoreTable(C, labels, |labels|);
    ScoreTableBounds(C, labels, |labels|);
    SumRealBounds(F1Values(table));
    if |labels| > 0 {
      DivBounds(SumReal(F1Values(table)), |labels| as real);
    }
  }

  // ---------------------------------------------------------------- Matthews correlation

  /** Column sums of a matrix whose rows all have `w` cells (`t_k`). */
  function ColSums(C: Matrix, w: nat): (r: seq<int>)
    requires forall a :: 0 <= a < |C| ==> |C[a]| == w
    ensures |r| == w && forall b :: 0 <= b < w ==> r[b] == Sum(Column(C, b))
  {
    seq(w, b requires 0 <= b < w => Sum(Column(C, b)))
  }

  function Diagonal(C: Matrix): (d: seq<int>)
    requires IsSquare(C, |C|)
    ensures |d| == |C| && forall i :: 0 <= i < |C| ==> d[i] == C[i][i]
  {
    seq(|C|, i requires 0 <= i < |C| => C[i][i])
  }

  /** `sum(xs[i] * ys[i] for i in range(k))`. */
  function Dot(xs: seq<int>, ys: seq<int>): int
    requires |xs| == |ys|
  {
    if xs == [] then 0 else Dot(xs[..|xs| - 1], ys[..|ys| - 1]) + xs[|xs| - 1] * ys[|ys| - 1]
  }

  /** The integer parts of the coefficient: `num` and the two radicand terms. */
  datatype MccTerms = MccTerms(num: int, term1: int, term2: int)

  function Terms(C: Matrix): MccTerms
    requires IsSquare(C, |C|)
  {
    var t := ColSums(C, |C|);
    var p := RowSums(C);
    var c := Sum(Diagonal(C));
    var s := CellSum(C);
    MccTerms(c * s - Dot(p, t), s * s - Dot(p, p), s * s - Dot(t, t))
  }

  /** The coefficient is `num / sqrt(radicand)`, or 0.0 when the square root is 0. */
  datatype Mcc = ZeroDenominator | Quotient(num: int, radicand: int)

  /** `matthews_corrcoef_multiclass(C)` for a count matrix. */
  function Matthews(C: Matrix): (r: Mcc)
    requires IsSquare(C, |C|) && NonNegative(C)
    ensures r.ZeroDenominator? <==> Terms(C).term1 == 0 || Terms(C).term2 == 0
    ensures r.Quotient? ==> r.num == Terms(C).num && r.radicand > 0
  {
    var m := Terms(C);
    TermsNonNegative(C);
    if m.term1 * m.term2 == 0 then ZeroDenominator else Quotient(m.num, m.term1 * m.term2)
  }

  lemma {:induction false} SumPointwise(xs: seq<int>, ys: seq<int>, zs: seq<int>)
    requires |xs| == |ys| == |zs| && forall q :: 0 <= q < |zs| ==> zs[q] == xs[q] + ys[q]
    ensures Sum(zs) == Sum(xs) + Sum(ys)
    decreases |zs|
  {
    if zs != [] {
      SumPointwise(xs[..|xs| - 1], ys[..|ys| - 1], zs[..|zs| - 1]);
    }
  }

  /** Summing by columns gives the same total as summing by rows. */
  lemma {:induction false} ColSumsTotal(C: Matrix, w: nat)
    requires forall a :: 0 <= a < |C| ==> |C[a]| == w
    ensures Sum(ColSums(C, w)) == CellSum(C)
    decreases |C|
  {
    if C == [] {
      SumZeros(ColSums(C, w));
    } else {
      var init, row := C[..|C| - 1], C[|C| - 1];
      ColSumsTotal(init, w);
      forall b | 0 <= b < w ensures ColSums(C, w)[b] == ColSums(init, w)[b] + row[b] {
        ColumnSumStep(C, b);
      }
      SumPointwise(ColSums(init, w), row, ColSums(C, w));
      RowSumsStep(C);
    }
  }

  /** A column sum is the column sum of all rows but the last, plus the last row's cell. */
  lemma ColumnSumStep(C: Matrix, b: nat)
    requires C != [] && forall a :: 0 <= a < |C| ==> b < |C[a]|
    ensures Sum(Column(C, b)) == Sum(Column(C[..|C| - 1], b)) + C[|C| - 1][b]
  {
    assert Column(C, b)[..|C| - 1] == Column(C[..|C| - 1], b);
  }

  /** The total is the total of all rows but the last, plus the last row's sum. */
  lemma RowSumsStep(C: Matrix)
    requires C != []
    ensures CellSum(C) == CellSum(C[..|C| - 1]) + Sum(C[|C| - 1])
  {
    assert RowSums(C)[..|C| - 1] == RowSums(C[..|C| - 1]);
  }

  lemma {:induction false} SquareOfSum(xs: seq<int>)
    requires forall q :: 0 <= q < |xs| ==> xs[q] >= 0
    ensures Dot(xs, xs) <= Sum(xs) * Sum(xs)
    ensures Sum(xs) >= 0
    decreases |xs|
  {
    if xs != [] {
      var ys, x := xs[..|xs| - 1], xs[|xs| - 1];
      SquareOfSum(ys);
      var S := Sum(ys);
      assert (S + x) * (S + x) == S * S + 2 * S * x + x * x;
      assert S * x >= 0;
    }
  }

  lemma RowSumsNonNegative(C: Matrix)
    requires NonNegative(C)
    ensures forall a :: 0 <= a < |C| ==> RowSums(C)[a] >= 0
  {
    forall a | 0 <= a < |C| ensures Sum(C[a]) >= 0 {
      SumNonNegative(C[a]);
    }
  }

  /** Both radicand terms are non-negative: row and column sums are non-negative and
      each set adds up to the total. */
  lemma TermsNonNegative(C: Matrix)
    requires IsSquare(C, |C|) && NonNegative(C)
    ensures Terms(C).term1 >= 0 && Terms(C).term2 >= 0
  {
    var t := ColSums(C, |C|);
    RowSumsNonNegative(C);
    SquareOfSum(RowSums(C));
    forall b | 0 <= b < |C| ensures t[b] >= 0 {
      SumNonNegative(Column(C, b));
    }
    SquareOfSum(t);
    ColSumsTotal(C, |C|);
  }

  predicate IsDiagonal(C: Matrix) {
    forall a, b :: 0 <= a < |C| && 0 <= b < |C[a]| && a != b ==> C[a][b] == 0
  }

  lemma {:induction false} SumSingle(s: seq<int>, i: nat)
    requires i < |s| && forall j :: 0 <= j < |s| && j != i ==> s[j] == 0
    ensures Sum(s) == s[i]
  {
    SumExceptZero(s, i);
    SumExceptSplit(s, i);
  }

  lemma {:induction false} CrossPositive(xs: seq<int>, a: nat, b: nat)
    requires forall q :: 0 <= q < |xs| ==> xs[q] >= 0
    requires a < b < |xs| && xs[a] > 0 && xs[b] > 0
    ensures Sum(xs) * Sum(xs) - Dot(xs, xs) > 0
    decreases |xs|
  {
    var ys, x := xs[..|xs| - 1], xs[|xs| - 1];
    var S := Sum(ys);
    SquareOfSum(ys);
    assert (S + x) * (S + x) - (Dot(ys, ys) + x * x) == S * S - Dot(ys, ys) + 2 * x * S;
    if b == |xs| - 1 {
      SumExceptSplit(ys, a);
      SumExceptNonNegative(ys, a);
      assert S >= ys[a] > 0;
      assert x * S > 0;
    } else {
      CrossPositive(ys, a, b);
      assert x * S >= 0;
    }
  }

  /** A diagonal matrix (perfect predictions) with at least two classes present gives
      `num == term1 == term2 > 0`, so the coefficient is exactly 1. */
  lemma MatthewsPerfect(C: Matrix, a: nat, b: nat)
    requires IsSquare(C, |C|) && NonNegative(C) && IsDiagonal(C)
    requires a < b < |C| && C[a][a] > 0 && C[b][b] > 0
    ensures var m := Terms(C); m.num == m.term1 == m.term2 > 0
    ensures Matthews(C) == Quotient(Terms(C).num, Terms(C).num * Terms(C).num)
  {
    DiagonalSums(C);
    TermsDiagonal(C);
    DiagonalNonNegative(C);
    CrossPositive(Diagonal(C), a, b);
    PositiveProduct(Terms(C).num, Terms(C).num);
  }

  lemma DiagonalNonNegative(C: Matrix)
    requires IsSquare(C, |C|) && NonNegative(C)
    ensures forall q :: 0 <= q < |C| ==> Diagonal(C)[q] >= 0
  {
    forall q | 0 <= q < |C| ensures Diagonal(C)[q] >= 0 {
      assert C[q][q] >= 0;
    }
  }

  /** In a diagonal matrix every row sum and every column sum is the diagonal cell. */
  lemma DiagonalSums(C: Matrix)
    requires IsSquare(C, |C|) && IsDiagonal(C)
    ensures RowSums(C) == Diagonal(C) && ColSums(C, |C|) == Diagonal(C)
  {
    var d := Diagonal(C);
    forall i | 0 <= i < |C| ensures RowSums(C)[i] == d[i] {
      SumSingle(C[i], i);
    }
    forall i | 0 <= i < |C| ensures ColSums(C, |C|)[i] == d[i] {
      SumSingle(Column(C, i), i);
    }
  }

  /** When row and column sums are both the diagonal, the numerator and both radicand
      terms coincide. */
  lemma TermsDiagonal(C: Matrix)
    requires IsSquare(C, |C|) && RowSums(C) == Diagonal(C) && ColSums(C, |C|) == Diagonal(C)
    ensures var S := Sum(Diagonal(C));
      Terms(C) == MccTerms(S * S - Dot(Diagonal(C), Diagonal(C)), S * S - Dot(Diagonal(C), Diagonal(C)),
        S * S - Dot(Diagonal(C), Diagonal(C)))
  {
  }

  // ---------------------------------------------------------------- binary AUC

  /** A score paired with its 0/1 truth value. */
  type Scored = (real, int)

  /** The tuple order of `key=lambda x: (x[0], x[1])`. */
  predicate ScoredLe(x: Scored, y: Scored) {
    x.0 < y.0 || (x.0 == y.0 && x.1 <= y.1)
  }

  lemma ScoredLeOrder()
    ensures Total(ScoredLe) && Transitive(ScoredLe)
  {
  }

  /** `sorted(zip(scores, true), key=...)`. */
  function SortedPairs(scores: seq<real>, truth: seq<int>): (r: seq<Scored>)
    ensures multiset(r) == multiset(Zip(scores, truth))
    ensures SortedBy(r, ScoredLe)
  {
    ScoredLeOrder();
    SortBySorted(Zip(scores, truth), ScoredLe);
    SortBy(Zip(scores, truth), ScoredLe)
  }

  /** First position of the run of equal scores holding position `m`. */
  function RunStart(xs: seq<Scored>, m: nat): (r: nat)
    requires m < |xs|
    ensures r <= m
    ensures r == 0 || xs[r - 1].0 != xs[r].0
    ensures forall q :: r <= q <= m ==> xs[q].0 == xs[m].0
  {
    if m > 0 && xs[m - 1].0 == xs[m].0 then RunStart(xs, m - 1) else m
  }

  /** Last position of the run of equal scores holding position `m`. */
  function RunEnd(xs: seq<Scored>, m: nat): (r: nat)
    requires m < |xs|
    ensures m <= r < |xs|
    ensures r == |xs| - 1 || xs[r + 1].0 != xs[r].0
    ensures forall q :: m <= q <= r ==> xs[q].0 == xs[m].0
    decreases |xs| - m
  {
    if m + 1 < |xs| && xs[m + 1].0 == xs[m].0 then RunEnd(xs, m + 1) else m
  }

  /** The mid-rank of position `m`: the mean of the 1-based ranks of its run. */
  function Rank(xs: seq<Scored>, m: nat): real
    requires m < |xs|
  {
    (RunStart(xs, m) + 1 + RunEnd(xs, m) + 1) as real / 2.0
  }

  function Ranks(xs: seq<Scored>): (r: seq<real>)
    ensures |r| == |xs| && forall m :: 0 <= m < |xs| ==> r[m] == Rank(xs, m)
  {
    seq(|xs|, m requires 0 <= m < |xs| => Rank(xs, m))
  }

  /** Within a maximal run `i..j` of equal scores every position has run `i..j`. */
  lemma {:induction false} RunStartWithin(xs: seq<Scored>, i: nat, m: nat)
    requires i <= m < |xs| && (i == 0 || xs[i - 1].0 != xs[i].0)
    requires forall q :: i <= q <= m ==> xs[q].0 == xs[i].0
    ensures RunStart(xs, m) == i
    decreases m
  {
    if m > i {
      RunStartWithin(xs, i, m - 1);
    }
  }

  lemma {:induction false} RunEndWithin(xs: seq<Scored>, j: nat, m: nat)
    requires m <= j < |xs| && (j == |xs| - 1 || xs[j + 1].0 != xs[j].0)
    requires forall q :: m <= q <= j ==> xs[q].0 == xs[j].0
    ensures RunEnd(xs, m) == j
    decreases j - m
  {
    if m < j {
      RunEndWithin(xs, j, m + 1);
    }
  }

  /** The rank-assignment loop: each run of equal scores at positions i..j gets
      `(i + 1 + j + 1) / 2.0`. */
  method AssignRanks(paired: seq<Scored>) returns (ranks: seq<real>)
    ensures ranks == Ranks(paired)
  {
    ranks := [];
    var N := |paired|;
    var i := 0;
    while i < N
      invariant 0 <= i <= N && |ranks| == i
      invariant forall m :: 0 <= m < i ==> ranks[m] == Rank(paired, m)
      invariant i == 0 || i == N || paired[i - 1].0 != paired[i].0
    {
      var j := i;
      while j + 1 < N && paired[j + 1].0 == paired[i].0
        invariant i <= j < N
        invariant forall q :: i <= q <= j ==> paired[q].0 == paired[i].0
      {
        j := j + 1;
      }
      var avgRank := (i + 1 + j + 1) as real / 2.0;
      forall m | i <= m <= j ensures Rank(paired, m) == avgRank {
        RunStartWithin(paired, i, m);
        RunEndWithin(paired, j, m);
      }
      var q := i;
      while q <= j
        invariant i <= q <= j + 1 && |ranks| == q
        invariant forall m :: 0 <= m < q ==> ranks[m] == Rank(paired, m)
      {
        ranks := ranks + [avgRank];
        q := q + 1;
      }
      i := j + 1;
    }
  }

  lemma {:induction false} SumRealConst(s: seq<real>, v: real)
    requires forall q :: 0 <= q < |s| ==> s[q] == v
    ensures SumReal(s) == |s| as real * v
    decreases |s|
  {
    if s != [] {
      SumRealConst(s[..|s| - 1], v);
    }
  }

  /** A run at positions `s..i-1` whose every rank is `(s + 1 + i) / 2` adds up to
      (s + 1) + ... + i. */
  lemma RunSum(run: seq<real>, s: nat, i: nat)
    requires s < i && |run| == i - s
    requires forall q :: 0 <= q < |run| ==> run[q] == (s + 1 + i) as real / 2.0
    ensures SumReal(run) == Triangle(i) - Triangle(s)
  {
    SumRealConst(run, (s + 1 + i) as real / 2.0);
    RunArith(s, i, |run|);
  }

  lemma RunArith(s: nat, i: nat, n: nat)
    requires s < i && n == i - s
    ensures n as real * ((s + 1 + i) as real / 2.0)
      == (i * (i + 1)) as real / 2.0 - (s * (s + 1)) as real / 2.0
  {
    assert n * (s + 1 + i) == i * (i + 1) - s * (s + 1);
    assert n as real * (s + 1 + i) as real == (n * (s + 1 + i)) as real;
  }

  /** Every position of the last run before boundary `i`, which starts at `s`, has
      rank `(s + 1 + i) / 2`. */
  lemma LastRunRanks(xs: seq<Scored>, s: nat, i: nat)
    requires 0 < i <= |xs| && (i == |xs| || xs[i - 1].0 != xs[i].0)
    requires s == RunStart(xs, i - 1)
    ensures forall q :: 0 <= q < i - s ==> Ranks(xs)[s..i][q] == (s + 1 + i) as real / 2.0
  {
    forall q | 0 <= q < i - s ensures Ranks(xs)[s..i][q] == (s + 1 + i) as real / 2.0 {
      RunStartWithin(xs, s, s + q);
      RunEndWithin(xs, i - 1, s + q);
    }
  }

  /** The last run before boundary `i` (positions s..i-1) adds (s + 1) + ... + i. */
  lemma RanksLastRun(xs: seq<Scored>, s: nat, i: nat)
    requires 0 < i <= |xs| && (i == |xs| || xs[i - 1].0 != xs[i].0)
    requires s == RunStart(xs, i - 1)
    ensures SumReal(Ranks(xs)[..i]) == SumReal(Ranks(xs)[..s]) + (Triangle(i) - Triangle(s))
  {
    LastRunRanks(xs, s, i);
    RunSum(Ranks(xs)[s..i], s, i);
    SumRealSplit(Ranks(xs), s, i);
  }

  /** Up to any run boundary `i`, the mid-ranks add up to 1 + 2 + ... + i. */
  lemma {:induction false} RanksPrefixSum(xs: seq<Scored>, i: nat)
    requires i <= |xs| && (i == 0 || i == |xs| || xs[i - 1].0 != xs[i].0)
    ensures SumReal(Ranks(xs)[..i]) == Triangle(i)
    decreases i
  {
    if i > 0 {
      RanksPrefixSum(xs, RunStart(xs, i - 1));
      RanksLastRun(xs, RunStart(xs, i - 1), i);
    }
  }

  /** 1 + 2 + ... + n, in closed form. */
  function Triangle(n: nat): real {
    (n * (n + 1)) as real / 2.0
  }

  /** The mid-ranks of N positions add up to N(N+1)/2. */
  lemma RanksSum(xs: seq<Scored>)
    ensures SumReal(Ranks(xs)) == (|xs| * (|xs| + 1)) as real / 2.0
    ensures |Ranks(xs)| == |xs|
  {
    RanksPrefixSum(xs, |xs|);
    assert Ranks(xs)[..|xs|] == Ranks(xs);
  }

  /** Sum of the ranks of the first `n` positions whose truth value is 1. */
  function PositiveRankSum(xs: seq<Scored>, n: nat): real
    requires n <= |xs|
  {
    if n == 0 then 0.0
    else PositiveRankSum(xs, n - 1) + (if xs[n - 1].1 == 1 then Rank(xs, n - 1) else 0.0)
  }

  /** `compute_auc_binary`: undefined without positives or without negatives (counted
      over `true`), otherwise the Mann-Whitney statistic from the mid-ranks. */
  function Auc(scores: seq<real>, truth: seq<int>): Option<real> {
    var paired := SortedPairs(scores, truth);
    var nPos := Sum(truth);
    var nNeg := |truth| - nPos;
    if nPos == 0 || nNeg == 0 then None
    else Some((PositiveRankSum(paired, |paired|) - (nPos * (nPos + 1)) as real / 2.0) / (nPos * nNeg) as real)
  }

  method ComputeAucBinary(scores: seq<real>, truth: seq<int>) returns (auc: Option<real>)
    ensures auc == Auc(scores, truth)
    ensures auc.None? <==> Sum(truth) == 0 || Sum(truth) == |truth|
  {
    var paired := SortedPairs(scores, truth);
    var nPos := Sum(truth);
    var nNeg := |truth| - nPos;
    if nPos == 0 || nNeg == 0 {
      return None;
    }
    var sumRanksPos := SumPositiveRanks(paired);
    PositiveProduct(nPos, nNeg);
    auc := Some((sumRanksPos - (nPos * (nPos + 1)) as real / 2.0) / (nPos * nNeg) as real);
  }

  /** The loop of `compute_auc_binary` adding up the mid-ranks of the positives. */
  method SumPositiveRanks(paired: seq<Scored>) returns (sumRanksPos: real)
    ensures sumRanksPos == PositiveRankSum(paired, |paired|)
  {
    var ranks := AssignRanks(paired);
    sumRanksPos := 0.0;
    for m := 0 to |paired|
      invariant sumRanksPos == PositiveRankSum(paired, m)
    {
      if paired[m].1 == 1 {
        sumRanksPos := sumRanksPos + ranks[m];
      }
    }
  }

  lemma PositiveProduct(x: int, y: int)
    requires x != 0 && y != 0
    ensures x * y != 0
  {}

  // ---------------------------------------------------------------- evaluate_one

  /** A label as `evaluate_one` coerces it for the label list: None and NaN become
      the empty string, anything else `str(x)`. */
  function Coerce(c: Cell): (r: string)
    ensures c.Text? ==> r == c.s
    ensures IsNa(c) ==> r == ""
  {
    if IsNa(c) then "" else Str(c)
  }

  function CoerceAll(cs: seq<Cell>): (r: seq<string>)
    ensures |r| == |cs| && forall i :: 0 <= i < |cs| ==> r[i] == Coerce(cs[i])
  {
    seq(|cs|, i requires 0 <= i < |cs| => Coerce(cs[i]))
  }

  lemma LessEqOrder()
    ensures Total(LessEq) && Transitive(LessEq)
  {
    forall a, b ensures LessEq(a, b) || LessEq(b, a) {
      LessTrichotomy(a, b);
    }
    forall a, b, c | LessEq(a, b) && LessEq(b, c) ensures LessEq(a, c) {
      if a != b && b != c {
        LessTransitive(a, b, c);
      }
    }
  }

  /** `sorted(list(set(true_s) | set(pred_s)))`: every coerced value once, in strictly
      increasing string order. */
  function LabelSet(truth: seq<Cell>, pred: seq<Cell>): (labels: seq<string>)
    ensures Distinct(labels)
    ensures forall i, j :: 0 <= i < j < |labels| ==> Less(labels[i], labels[j])
    ensures forall l :: l in labels <==> l in CoerceAll(truth) || l in CoerceAll(pred)
  {
    var all := CoerceAll(truth) + CoerceAll(pred);
    var d := Dedup(all);
    SortedLabels(d);
    forall l ensures l in d <==> l in CoerceAll(truth) || l in CoerceAll(pred) {
      assert l in d <==> l in all;
    }
    SortBy(d, LessEq)
  }

  /** Sorting distinct strings orders them strictly and keeps exactly their values. */
  lemma SortedLabels(d: seq<string>)
    requires Distinct(d)
    ensures var r := SortBy(d, LessEq);
      && Distinct(r)
      && (forall i, j :: 0 <= i < j < |r| ==> Less(r[i], r[j]))
      && (forall l :: l in r <==> l in d)
  {
    var r := SortBy(d, LessEq);
    LessEqOrder();
    SortBySorted(d, LessEq);
    PermutationDistinct(d, r);
    forall l ensures l in r <==> l in d {
      assert l in r <==> l in multiset(r);
      assert l in d <==> l in multiset(d);
    }
  }

  /** The labels as the cells `confusion_matrix` compares the raw values against. */
  function LabelCells(labels: seq<string>): (r: seq<Cell>)
    ensures |r| == |labels| && forall i :: 0 <= i < |labels| ==> r[i] == Text(labels[i])
  {
    seq(|labels|, i requires 0 <= i < |labels| => Text(labels[i]))
  }

  /** `[1 if str(t) == pos_label else 0 for t in true_labels]`. */
  function TrueBinary(truth: seq<Cell>, pos: string): (r: seq<int>)
    ensures |r| == |truth|
    ensures forall i :: 0 <= i < |truth| ==> r[i] == if Str(truth[i]) == pos then 1 else 0
  {
    seq(|truth|, i requires 0 <= i < |truth| => if Str(truth[i]) == pos then 1 else 0)
  }

  /** The dictionary `evaluate_one` returns; the four per-class dictionaries are one
      table of records. */
  datatype Evaluation = Evaluation(
    labels: seq<string>,
    confusion: Matrix,
    scores: seq<(string, ClassScores)>,
    macroF1: real,
    mcc: Mcc,
    auc: Option<real>)

  /** What `evaluate_one` computes. The confusion matrix is built from the raw values,
      not from the coerced strings, so a missing, NaN or numeric value is never counted
      even though its coerced form is a label. */
  function Evaluate(truth: seq<Cell>, pred: seq<Cell>, probs: Option<seq<real>>): Evaluation {
    var labels := LabelSet(truth, pred);
    var C := Confusion(Zip(truth, pred), LabelCells(labels));
    var table := ScoreTable(C, labels, |labels|);
    var auc := if probs.Some? && |labels| == 2
      then Auc(probs.value, TrueBinary(truth, labels[1])) else None;
    Evaluation(labels, C, table, Macro(table, |labels|), Matthews(C), auc)
  }

  method EvaluateOne(truth: seq<Cell>, pred: seq<Cell>, probs: Option<seq<real>>) returns (e: Evaluation)
    ensures e == Evaluate(truth, pred, probs)
  {
    var labels := LabelSet(truth, pred);
    var C := ConfusionMatrix(truth, pred, LabelCells(labels));
    var scores, macro := PrecisionRecallF1(C, labels);
    var mcc := Matthews(C);
    var auc: Option<real> := None;
    if probs.Some? && |labels| == 2 {
      var pos := labels[1];
      auc := ComputeAucBinary(probs.value, TrueBinary(truth, pos));
    }
    e := Evaluation(labels, C, scores, macro, mcc, auc);
  }

  /** Every pair with both values among the labels: all of them are counted. */
  lemma {:induction false} KnownAll<T>(pairs: seq<(T, T)>, labels: seq<T>)
    requires forall i :: 0 <= i < |pairs| ==> pairs[i].0 in labels && pairs[i].1 in labels
    ensures Known(pairs, labels) == |pairs|
    decreases |pairs|
  {
    if pairs != [] {
      KnownAll(pairs[..|pairs| - 1], labels);
    }
  }

  /** A pair whose true value is not a label is not counted. */
  lemma {:induction false} KnownMissing<T>(pairs: seq<(T, T)>, labels: seq<T>, i: nat)
    requires i < |pairs| && pairs[i].0 !in labels
    ensures Known(pairs, labels) < |pairs|
    decreases |pairs|
  {
    var init := pairs[..|pairs| - 1];
    if i < |pairs| - 1 {
      assert init[i] == pairs[i];
      KnownMissing(init, labels, i);
    }
  }

  /** The confusion matrix of `evaluate_one`: square over the sorted labels, and cell
      (a, b) counts the aligned rows whose raw values are the strings `labels[a]` and
      `labels[b]`. */
  lemma EvaluateCounts(truth: seq<Cell>, pred: seq<Cell>, probs: Option<seq<real>>, a: nat, b: nat)
    requires var e := Evaluate(truth, pred, probs); a < |e.labels| && b < |e.labels|
    ensures var e := Evaluate(truth, pred, probs);
      && IsSquare(e.confusion, |e.labels|)
      && e.confusion[a][b] == Count(Zip(truth, pred), (Text(e.labels[a]), Text(e.labels[b])))
  {
    var labels := LabelSet(truth, pred);
    var cells := LabelCells(labels);
    assert Distinct(cells) by {
      forall i, j | 0 <= i < j < |cells| ensures cells[i] != cells[j] {
        assert labels[i] != labels[j];
      }
    }
    ConfusionCounts(Zip(truth, pred), cells, a, b);
  }

  /** The score table has one entry per label, in label order, with that class's
      scores; macro-F1 lies in [0, 1]; AUC is only reported for two labels and a
      score list. */
  lemma EvaluateScores(truth: seq<Cell>, pred: seq<Cell>, probs: Option<seq<real>>)
    ensures var e := Evaluate(truth, pred, probs);
      && |e.scores| == |e.labels|
      && (forall q :: 0 <= q < |e.labels| ==> e.scores[q] == (e.labels[q], Scores(e.confusion, q)))
      && 0.0 <= e.macroF1 <= 1.0
      && (e.auc.Some? ==> probs.Some? && |e.labels| == 2)
  {
    var e := Evaluate(truth, pred, probs);
    ScoreTableDistinct(e.confusion, e.labels, |e.labels|);
    MacroBounds(e.confusion, e.labels);
  }

  /** When every value is a string, as the command line passes them, every aligned row
      is counted. */
  lemma EvaluateAllText(truth: seq<Cell>, pred: seq<Cell>, probs: Option<seq<real>>)
    requires forall i :: 0 <= i < |truth| ==> truth[i].Text?
    requires forall i :: 0 <= i < |pred| ==> pred[i].Text?
    ensures CellSum(Evaluate(truth, pred, probs).confusion) == Min(|truth|, |pred|)
  {
    var cells := LabelCells(LabelSet(truth, pred));
    var pairs := Zip(truth, pred);
    forall i | 0 <= i < |pairs| ensures pairs[i].0 in cells && pairs[i].1 in cells {
      TextLabelled(truth, pred, i);
    }
    KnownAll(pairs, cells);
    ConfusionTotal(pairs, cells);
    assert Evaluate(truth, pred, probs).confusion == Confusion(pairs, cells);
  }

  /** A string value at a position both lists share is one of the label cells. */
  lemma TextLabelled(truth: seq<Cell>, pred: seq<Cell>, i: nat)
    requires i < |truth| && i < |pred|
    ensures var cells := LabelCells(LabelSet(truth, pred));
      (truth[i].Text? ==> truth[i] in cells) && (pred[i].Text? ==> pred[i] in cells)
  {
    var labels := LabelSet(truth, pred);
    if truth[i].Text? {
      assert CoerceAll(truth)[i] == truth[i].s;
      LabelCellFor(labels, truth[i].s);
    }
    if pred[i].Text? {
      assert CoerceAll(pred)[i] == pred[i].s;
      LabelCellFor(labels, pred[i].s);
    }
  }

  lemma LabelCellFor(labels: seq<string>, l: string)
    requires l in labels
    ensures Text(l) in LabelCells(labels)
  {
    var a :| 0 <= a < |labels| && labels[a] == l;
    assert LabelCells(labels)[a] == Text(l);
  }

  /** A true value that is missing, NaN or a number is coerced into the label list but
      its row is never counted, because the matrix compares the raw values. */
  lemma EvaluateSkipsNonText(truth: seq<Cell>, pred: seq<Cell>, probs: Option<seq<real>>, i: nat)
    requires i < |truth| && i < |pred| && !truth[i].Text?
    ensures CellSum(Evaluate(truth, pred, probs).confusion) < Min(|truth|, |pred|)
  {
    var cells := LabelCells(LabelSet(truth, pred));
    var pairs := Zip(truth, pred);
    assert pairs[i].0 !in cells;
    KnownMissing(pairs, cells, i);
    ConfusionTotal(pairs, cells);
    assert Evaluate(truth, pred, probs).confusion == Confusion(pairs, cells);
  }

  /** With predictions equal to the truth and every value a string, the matrix is
      diagonal with every label on the diagonal at least once. */
  lemma PerfectConfusion(truth: seq<Cell>, probs: Option<seq<real>>, a: nat, b: nat)
    requires forall i :: 0 <= i < |truth| ==> truth[i].Text?
    requires var e := Evaluate(truth, truth, probs); a < |e.labels| && b < |e.labels|
    ensures var C := Evaluate(truth, truth, probs).confusion;
      (a != b ==> C[a][b] == 0) && C[a][a] > 0
  {
    var labels := LabelSet(truth, truth);
    var pairs := Zip(truth, truth);
    EvaluateCounts(truth, truth, probs, a, b);
    EvaluateCounts(truth, truth, probs, a, a);
    CountPositive(pairs, (Text(labels[a]), Text(labels[a])));
    if a != b {
      CountPositive(pairs, (Text(labels[a]), Text(labels[b])));
      assert labels[a] != labels[b];
      assert (Text(labels[a]), Text(labels[b])) !in pairs by {
        forall k | 0 <= k < |pairs| ensures pairs[k] != (Text(labels[a]), Text(labels[b])) {
          assert pairs[k] == (truth[k], truth[k]);
        }
      }
    }
    assert labels[a] in CoerceAll(truth);
    var k :| 0 <= k < |truth| && CoerceAll(truth)[k] == labels[a];
    assert pairs[k] == (Text(labels[a]), Text(labels[a]));
  }

  /** A diagonal matrix with every class present scores 1.0 everywhere. */
  lemma PerfectTable(C: Matrix, labels: seq<string>)
    requires IsSquare(C, |labels|) && Distinct(labels) && labels != []
    requires forall a, b :: 0 <= a < |C| && 0 <= b < |C| ==> (a != b ==> C[a][b] == 0) && C[a][a] > 0
    ensures var table := ScoreTable(C, labels, |labels|);
      && (forall q :: 0 <= q < |table| ==>
            table[q].1.precision == 1.0 && table[q].1.recall == 1.0 && table[q].1.f1 == 1.0)
      && Macro(table, |labels|) == 1.0
  {
    var table := ScoreTable(C, labels, |labels|);
    ScoreTableDistinct(C, labels, |labels|);
    forall q | 0 <= q < |labels| ensures table[q].1 == ClassScores(1.0, 1.0, 1.0, C[q][q]) {
      PerfectClassScores(C, q);
    }
    MacroAllOne(table, |labels|);
  }

  lemma MacroAllOne<T>(table: seq<(T, ClassScores)>, k: nat)
    requires |table| == k > 0 && forall q :: 0 <= q < k ==> table[q].1.f1 == 1.0
    ensures Macro(table, k) == 1.0
  {
    var f1s := F1Values(table);
    SumRealConst(f1s, 1.0);
    var n := k as real;
    assert SumReal(f1s) == n * 1.0;
    assert Macro(table, k) == n / n;
  }

  /** Perfect predictions over string values: the matrix is diagonal, every class
      scores 1.0 on precision, recall and F1, macro-F1 is 1.0, and with at least two
      labels the Matthews coefficient is exactly 1 (numerator equal to both terms). */
  lemma EvaluatePerfect(truth: seq<Cell>, probs: Option<seq<real>>)
    requires |truth| > 0 && forall i :: 0 <= i < |truth| ==> truth[i].Text?
    ensures var e := Evaluate(truth, truth, probs);
      && IsDiagonal(e.confusion)
      && (forall q :: 0 <= q < |e.scores| ==>
            e.scores[q].1.precision == 1.0 && e.scores[q].1.recall == 1.0 && e.scores[q].1.f1 == 1.0)
      && e.macroF1 == 1.0
      && (|e.labels| >= 2 ==>
            var n := Terms(e.confusion).num; n > 0 && e.mcc == Quotient(n, n * n))
  {
    var e := Evaluate(truth, truth, probs);
    PerfectDiagonal(truth, probs);
    PerfectMetrics(e.confusion, e.labels);
  }

  /** Perfect predictions over string values: some label, and a diagonal matrix with
      every label on the diagonal at least once. */
  lemma PerfectDiagonal(truth: seq<Cell>, probs: Option<seq<real>>)
    requires |truth| > 0 && forall i :: 0 <= i < |truth| ==> truth[i].Text?
    ensures Evaluate(truth, truth, probs).labels != []
    ensures IsSquare(Evaluate(truth, truth, probs).confusion, |Evaluate(truth, truth, probs).labels|)
    ensures forall a, b ::
      0 <= a < |Evaluate(truth, truth, probs).confusion| && 0 <= b < |Evaluate(truth, truth, probs).confusion| ==>
      (a != b ==> Evaluate(truth, truth, probs).confusion[a][b] == 0)
      && Evaluate(truth, truth, probs).confusion[a][a] > 0
  {
    var e := Evaluate(truth, truth, probs);
    var C := e.confusion;
    var k := |e.labels|;
    assert CoerceAll(truth)[0] in e.labels;
    EvaluateCounts(truth, truth, probs, 0, 0);
    forall a, b | 0 <= a < k && 0 <= b < k ensures (a != b ==> C[a][b] == 0) && C[a][a] > 0 {
      PerfectConfusion(truth, probs, a, b);
    }
  }

  /** The metrics of a diagonal matrix with every class present. */
  lemma PerfectMetrics(C: Matrix, labels: seq<string>)
    requires IsSquare(C, |labels|) && Distinct(labels) && labels != []
    requires forall a, b :: 0 <= a < |C| && 0 <= b < |C| ==> (a != b ==> C[a][b] == 0) && C[a][a] > 0
    ensures IsDiagonal(C)
    ensures var table := ScoreTable(C, labels, |labels|);
      && (forall q :: 0 <= q < |table| ==>
            table[q].1.precision == 1.0 && table[q].1.recall == 1.0 && table[q].1.f1 == 1.0)
      && Macro(table, |labels|) == 1.0
    ensures |labels| >= 2 ==> var n := Terms(C).num; n > 0 && Matthews(C) == Quotient(n, n * n)
  {
    PerfectTable(C, labels);
    if |labels| >= 2 {
      MatthewsPerfect(C, 0, 1);
    }
  }
}
