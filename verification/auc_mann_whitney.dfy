/** The rank formula of `compute_auc_binary` read as the Mann-Whitney statistic: with
    scores and 0/1 truth values of equal length, the AUC is the share of (positive,
    negative) pairs in which the positive is scored higher, a tie counting one half. */
module AucMannWhitney {
  import opened Wrappers
  import opened Cells
  import opened Seqs
  import opened Sorting
  import opened EvaluatePredictions

  // ---------------------------------------------------------------- pair counts

  /** Number of negatives in `ys` scored strictly below `v`. */
  function Beaten(v: real, ys: seq<Scored>): nat {
    if ys == [] then 0
    else Beaten(v, ys[..|ys| - 1]) + (if ys[|ys| - 1].1 == 0 && ys[|ys| - 1].0 < v then 1 else 0)
  }

  /** Number of negatives in `ys` scored exactly `v`. */
  function Tied(v: real, ys: seq<Scored>): nat {
    if ys == [] then 0
    else Tied(v, ys[..|ys| - 1]) + (if ys[|ys| - 1].1 == 0 && ys[|ys| - 1].0 == v then 1 else 0)
  }

  /** Number of pairs (positive in `xs`, negative in `ys`) with the positive scored higher. */
  function Wins(xs: seq<Scored>, ys: seq<Scored>): nat {
    if xs == [] then 0
    else Wins(xs[..|xs| - 1], ys) + (if xs[|xs| - 1].1 == 1 then Beaten(xs[|xs| - 1].0, ys) else 0)
  }

  /** Number of pairs (positive in `xs`, negative in `ys`) with equal scores. */
  function Draws(xs: seq<Scored>, ys: seq<Scored>): nat {
    if xs == [] then 0
    else Draws(xs[..|xs| - 1], ys) + (if xs[|xs| - 1].1 == 1 then Tied(xs[|xs| - 1].0, ys) else 0)
  }

  function Positives(xs: seq<Scored>): nat {
    if xs == [] then 0 else Positives(xs[..|xs| - 1]) + (if xs[|xs| - 1].1 == 1 then 1 else 0)
  }

  function Negatives(xs: seq<Scored>): nat {
    if xs == [] then 0 else Negatives(xs[..|xs| - 1]) + (if xs[|xs| - 1].1 == 0 then 1 else 0)
  }

  /** P: the pairs (i, j) with `true[i] == 1`, `true[j] == 0` and `scores[i] > scores[j]`. */
  function Above(scores: seq<real>, truth: seq<int>): nat {
    Wins(Zip(scores, truth), Zip(scores, truth))
  }

  /** T: the pairs (i, j) with `true[i] == 1`, `true[j] == 0` and `scores[i] == scores[j]`. */
  function Level(scores: seq<real>, truth: seq<int>): nat {
    Draws(Zip(scores, truth), Zip(scores, truth))
  }

  predicate Binary(truth: seq<int>) {
    forall i :: 0 <= i < |truth| ==> truth[i] == 0 || truth[i] == 1
  }

  predicate BinaryPairs(xs: seq<Scored>) {
    forall q :: 0 <= q < |xs| ==> xs[q].1 == 0 || xs[q].1 == 1
  }

  // ---------------------------------------------------------------- sums over pairs

  /** Sum of `f` over the elements of `xs`. */
  function SumOf(f: Scored -> int, xs: seq<Scored>): int {
    if xs == [] then 0 else SumOf(f, xs[..|xs| - 1]) + f(xs[|xs| - 1])
  }

  lemma {:induction false} SumOfConcat(f: Scored -> int, a: seq<Scored>, b: seq<Scored>)
    ensures SumOf(f, a + b) == SumOf(f, a) + SumOf(f, b)
    decreases |b|
  {
    if b == [] {
      assert a + b == a;
    } else {
      assert (a + b)[..|a + b| - 1] == a + b[..|b| - 1];
      SumOfConcat(f, a, b[..|b| - 1]);
    }
  }

  /** A sum does not depend on the order of the elements. */
  lemma {:induction false} SumOfPermutation(f: Scored -> int, a: seq<Scored>, b: seq<Scored>)
    requires multiset(a) == multiset(b)
    ensures SumOf(f, a) == SumOf(f, b)
    decreases |a|
  {
    if a != [] {
      var x := a[|a| - 1];
      var a' := a[..|a| - 1];
      assert a == a' + [x];
      assert x in multiset(b);
      var k :| 0 <= k < |b| && b[k] == x;
      var b' := b[..k] + b[k + 1..];
      assert b == b[..k] + [x] + b[k + 1..];
      assert multiset(b) == multiset(b[..k]) + multiset{x} + multiset(b[k + 1..]);
      assert multiset(a) == multiset(a') + multiset{x};
      assert multiset(b') == multiset(b[..k]) + multiset(b[k + 1..]);
      assert multiset(a') == multiset(a) - multiset{x};
      assert multiset(b') == multiset(b) - multiset{x};
      SumOfPermutation(f, a', b');
      assert SumOf(f, [x]) == f(x) by {
        assert [x][..0] == [];
      }
      SumOfConcat(f, b[..k], [x]);
      SumOfConcat(f, b[..k] + [x], b[k + 1..]);
      SumOfConcat(f, b[..k], b[k + 1..]);
    }
  }

  /** Functions that agree on the elements have equal sums. */
  lemma {:induction false} SumOfCongruent(f: Scored -> int, g: Scored -> int, xs: seq<Scored>)
    requires forall q :: 0 <= q < |xs| ==> f(xs[q]) == g(xs[q])
    ensures SumOf(f, xs) == SumOf(g, xs)
    decreases |xs|
  {
    if xs != [] {
      SumOfCongruent(f, g, xs[..|xs| - 1]);
    }
  }

  lemma {:induction false} SumOfAdd(f: Scored -> int, g: Scored -> int, h: Scored -> int, xs: seq<Scored>)
    requires forall q :: 0 <= q < |xs| ==> f(xs[q]) == g(xs[q]) + h(xs[q])
    ensures SumOf(f, xs) == SumOf(g, xs) + SumOf(h, xs)
    decreases |xs|
  {
    if xs != [] {
      SumOfAdd(f, g, h, xs[..|xs| - 1]);
    }
  }

  lemma {:induction false} SumOfConst(f: Scored -> int, xs: seq<Scored>, c: int)
    requires forall q :: 0 <= q < |xs| ==> f(xs[q]) == c
    ensures SumOf(f, xs) == |xs| * c
    decreases |xs|
  {
    if xs != [] {
      SumOfConst(f, xs[..|xs| - 1], c);
    }
  }

  // ---------------------------------------------------------------- doubled credits

  /** Twice the credit a score `v` earns against a score `w`: 2 above, 1 tied, 0 below. */
  function Credit(v: real, w: real): nat {
    if v > w then 2 else if v == w then 1 else 0
  }

  /** Credit of `v` against any element. */
  function Against(v: real): Scored -> int {
    (y: Scored) => Credit(v, y.0)
  }

  /** Credit of `v` against the elements of class `t` only. */
  function AgainstClass(v: real, t: int): Scored -> int {
    (y: Scored) => if y.1 == t then Credit(v, y.0) else 0
  }

  /** Twice a positive's mid-rank in `ys`, by its credits against `ys`. */
  function PositiveCredit(ys: seq<Scored>): Scored -> int {
    (x: Scored) => if x.1 == 1 then SumOf(Against(x.0), ys) + 1 else 0
  }

  /** A positive's credits against the positives of `ys`. */
  function PositiveRow(ys: seq<Scored>): Scored -> int {
    (x: Scored) => if x.1 == 1 then SumOf(AgainstClass(x.0, 1), ys) else 0
  }

  /** A positive's credits from the positives of `ys`, seen from `ys`. */
  function PositiveColumn(x: Scored): Scored -> int {
    (y: Scored) => if x.1 == 1 && y.1 == 1 then Credit(y.0, x.0) else 0
  }

  /** Credits of the positives of `xs` against the positives of `ys`. */
  function Cross(xs: seq<Scored>, ys: seq<Scored>): int {
    SumOf(PositiveRow(ys), xs)
  }

  // ---------------------------------------------------------------- mid-ranks as credits

  /** Sorted pairs have non-decreasing scores. */
  lemma SortedScores(xs: seq<Scored>)
    requires SortedBy(xs, ScoredLe)
    ensures forall i, j :: 0 <= i < j < |xs| ==> xs[i].0 <= xs[j].0
  {
    forall i, j | 0 <= i < j < |xs| ensures xs[i].0 <= xs[j].0 {
      assert ScoredLe(xs[i], xs[j]);
    }
  }

  /** With non-decreasing scores, the positions before the run of `m` score lower. */
  lemma BeforeRun(xs: seq<Scored>, m: nat)
    requires m < |xs|
    requires forall i, j :: 0 <= i < j < |xs| ==> xs[i].0 <= xs[j].0
    ensures forall q :: 0 <= q < RunStart(xs, m) ==> xs[q].0 < xs[m].0
  {
    var s := RunStart(xs, m);
    forall q | 0 <= q < s ensures xs[q].0 < xs[m].0 {
      assert xs[s - 1].0 != xs[s].0 && xs[s].0 == xs[m].0;
      assert xs[q].0 <= xs[s - 1].0 <= xs[s].0;
    }
  }

  /** With non-decreasing scores, the positions after the run of `m` score higher. */
  lemma AfterRun(xs: seq<Scored>, m: nat)
    requires m < |xs|
    requires forall i, j :: 0 <= i < j < |xs| ==> xs[i].0 <= xs[j].0
    ensures forall q :: RunEnd(xs, m) < q < |xs| ==> xs[q].0 > xs[m].0
  {
    var e := RunEnd(xs, m);
    forall q | e < q < |xs| ensures xs[q].0 > xs[m].0 {
      assert xs[e + 1].0 != xs[e].0 && xs[e].0 == xs[m].0;
      assert xs[e].0 <= xs[e + 1].0 <= xs[q].0;
    }
  }

  /** Credits against a sequence split into lower scores at `0..s-1`, equal ones at
      `s..e` and higher ones after `e`: two for each lower, one for each equal. */
  lemma RunCredit(xs: seq<Scored>, v: real, s: nat, e: nat)
    requires s <= e < |xs|
    requires forall q :: 0 <= q < s ==> xs[q].0 < v
    requires forall q :: s <= q <= e ==> xs[q].0 == v
    requires forall q :: e < q < |xs| ==> xs[q].0 > v
    ensures SumOf(Against(v), xs) == s + e + 1
  {
    var f := Against(v);
    var below, run, above := xs[..s], xs[s..e + 1], xs[e + 1..];
    ThreeParts(xs, s, e + 1);
    forall q | 0 <= q < |below| ensures f(below[q]) == 2 {
      assert below[q] == xs[q];
    }
    forall q | 0 <= q < |run| ensures f(run[q]) == 1 {
      assert run[q] == xs[s + q];
    }
    forall q | 0 <= q < |above| ensures f(above[q]) == 0 {
      assert above[q] == xs[e + 1 + q];
    }
    SumOfConst(f, below, 2);
    SumOfConst(f, run, 1);
    SumOfConst(f, above, 0);
    SumOfConcat(f, below, run);
    SumOfConcat(f, below + run, above);
  }

  /** In a sorted sequence, twice a position's mid-rank is one more than its credits
      against all elements: the positions before its run count 2, the run 1 each. */
  lemma RankCredit(xs: seq<Scored>, m: nat)
    requires SortedBy(xs, ScoredLe) && m < |xs|
    ensures 2.0 * Rank(xs, m) == (SumOf(Against(xs[m].0), xs) + 1) as real
  {
    SortedScores(xs);
    BeforeRun(xs, m);
    AfterRun(xs, m);
    RunCredit(xs, xs[m].0, RunStart(xs, m), RunEnd(xs, m));
  }

  lemma ThreeParts(xs: seq<Scored>, s: nat, t: nat)
    requires s <= t <= |xs|
    ensures xs == xs[..s] + xs[s..t] + xs[t..]
  {
  }

  /** Twice the rank sum of the positives among the first `n` sorted positions. */
  lemma {:induction false} RankSumCredit(xs: seq<Scored>, n: nat)
    requires SortedBy(xs, ScoredLe) && n <= |xs|
    ensures 2.0 * PositiveRankSum(xs, n) == SumOf(PositiveCredit(xs), xs[..n]) as real
    decreases n
  {
    if n > 0 {
      RankSumCredit(xs, n - 1);
      assert xs[..n][..n - 1] == xs[..n - 1];
      if xs[n - 1].1 == 1 {
        RankCredit(xs, n - 1);
      }
    }
  }

  /** The credit sum is the same over the zipped pairs as over their sorted order. */
  lemma CreditTransfer(xs: seq<Scored>, z: seq<Scored>)
    requires multiset(xs) == multiset(z)
    ensures SumOf(PositiveCredit(xs), xs) == SumOf(PositiveCredit(z), z)
  {
    SumOfPermutation(PositiveCredit(xs), xs, z);
    forall q | 0 <= q < |z| ensures PositiveCredit(xs)(z[q]) == PositiveCredit(z)(z[q]) {
      SumOfPermutation(Against(z[q].0), xs, z);
    }
    SumOfCongruent(PositiveCredit(xs), PositiveCredit(z), z);
  }

  // ---------------------------------------------------------------- splitting by class

  /** With 0/1 truth values, a credit against all is one against negatives plus one
      against positives. */
  lemma {:induction false} ClassSplit(v: real, ys: seq<Scored>)
    requires BinaryPairs(ys)
    ensures SumOf(Against(v), ys) == SumOf(AgainstClass(v, 0), ys) + SumOf(AgainstClass(v, 1), ys)
    decreases |ys|
  {
    if ys != [] {
      ClassSplit(v, ys[..|ys| - 1]);
    }
  }

  /** Credits against negatives count the beaten ones twice and the tied ones once. */
  lemma {:induction false} NegativeCredit(v: real, ys: seq<Scored>)
    ensures SumOf(AgainstClass(v, 0), ys) == 2 * Beaten(v, ys) + Tied(v, ys)
    decreases |ys|
  {
    if ys != [] {
      NegativeCredit(v, ys[..|ys| - 1]);
    }
  }

  /** The credit sum of the positives of `xs` against `ys`, by class. */
  lemma {:induction false} CreditByClass(xs: seq<Scored>, ys: seq<Scored>)
    requires BinaryPairs(ys)
    ensures SumOf(PositiveCredit(ys), xs)
      == 2 * Wins(xs, ys) + Draws(xs, ys) + Cross(xs, ys) + Positives(xs)
    decreases |xs|
  {
    if xs != [] {
      var x := xs[|xs| - 1];
      CreditByClass(xs[..|xs| - 1], ys);
      if x.1 == 1 {
        ClassSplit(x.0, ys);
        NegativeCredit(x.0, ys);
      }
    }
  }

  // ---------------------------------------------------------------- positives among themselves

  /** One positive against the positives of `ys` and back: each pair shares 2. */
  lemma {:induction false} PairShare(x: Scored, ys: seq<Scored>)
    requires x.1 == 1
    ensures SumOf(AgainstClass(x.0, 1), ys) + SumOf(PositiveColumn(x), ys) == 2 * Positives(ys)
    decreases |ys|
  {
    if ys != [] {
      PairShare(x, ys[..|ys| - 1]);
    }
  }

  /** Appending `x` to the columns adds its column. */
  lemma ColumnsSnoc(xs: seq<Scored>, x: Scored, ys: seq<Scored>)
    ensures Cross(ys, xs + [x]) == Cross(ys, xs) + SumOf(PositiveColumn(x), ys)
  {
    forall q | 0 <= q < |ys|
      ensures PositiveRow(xs + [x])(ys[q]) == PositiveRow(xs)(ys[q]) + PositiveColumn(x)(ys[q])
    {
      assert (xs + [x])[..|xs|] == xs;
    }
    SumOfAdd(PositiveRow(xs + [x]), PositiveRow(xs), PositiveColumn(x), ys);
  }

  lemma {:induction false} ColumnVanishes(x: Scored, ys: seq<Scored>)
    requires x.1 != 1
    ensures SumOf(PositiveColumn(x), ys) == 0
  {
    SumOfConst(PositiveColumn(x), ys, 0);
  }

  /** Credits of positives against positives, both ways, add up to two per pair. */
  lemma {:induction false} CrossAntisymmetric(xs: seq<Scored>, ys: seq<Scored>)
    ensures Cross(xs, ys) + Cross(ys, xs) == 2 * Positives(xs) * Positives(ys)
    decreases |xs|
  {
    if xs != [] {
      var xs', x := xs[..|xs| - 1], xs[|xs| - 1];
      assert xs == xs' + [x];
      CrossAntisymmetric(xs', ys);
      ColumnsSnoc(xs', x, ys);
      var p := if x.1 == 1 then 1 else 0;
      assert Cross(xs, ys) == Cross(xs', ys) + PositiveRow(ys)(x);
      assert PositiveRow(ys)(x) + SumOf(PositiveColumn(x), ys) == 2 * p * Positives(ys) by {
        if x.1 == 1 {
          PairShare(x, ys);
        } else {
          ColumnVanishes(x, ys);
        }
      }
      assert Positives(xs) == Positives(xs') + p;
      assert 2 * Positives(xs) * Positives(ys) == 2 * Positives(xs') * Positives(ys) + 2 * p * Positives(ys);
    } else {
      SumOfConst(PositiveRow(xs), ys, 0);
    }
  }

  // ---------------------------------------------------------------- class counts

  lemma {:induction false} ZipPrefix(scores: seq<real>, truth: seq<int>, n: nat)
    requires n <= |scores| == |truth|
    ensures Zip(scores, truth)[..n] == Zip(scores[..n], truth[..n])
  {
  }

  /** `sum(true)` counts the positive pairs and `len(true) - sum(true)` the negative
      ones, when truth values are 0/1 and the lengths agree. */
  lemma {:induction false} ClassCounts(scores: seq<real>, truth: seq<int>)
    requires |scores| == |truth| && Binary(truth)
    ensures Sum(truth) == Positives(Zip(scores, truth))
    ensures |truth| - Sum(truth) == Negatives(Zip(scores, truth))
    decreases |truth|
  {
    if truth != [] {
      var n := |truth| - 1;
      ClassCounts(scores[..n], truth[..n]);
      ZipPrefix(scores, truth, n);
    }
  }

  /** No positive beats or ties more negatives than there are. */
  lemma {:induction false} BeatenTiedBound(v: real, ys: seq<Scored>)
    ensures Beaten(v, ys) + Tied(v, ys) <= Negatives(ys)
    decreases |ys|
  {
    if ys != [] {
      BeatenTiedBound(v, ys[..|ys| - 1]);
    }
  }

  lemma {:induction false} WinsDrawsBound(xs: seq<Scored>, ys: seq<Scored>)
    ensures Wins(xs, ys) + Draws(xs, ys) <= Positives(xs) * Negatives(ys)
    decreases |xs|
  {
    if xs != [] {
      var xs', x := xs[..|xs| - 1], xs[|xs| - 1];
      WinsDrawsBound(xs', ys);
      var p := if x.1 == 1 then 1 else 0;
      if x.1 == 1 {
        BeatenTiedBound(x.0, ys);
      }
      assert Positives(xs) * Negatives(ys) == Positives(xs') * Negatives(ys) + p * Negatives(ys);
    }
  }

  // ---------------------------------------------------------------- the statistic

  /** Over a whole sorted sequence, twice the positive rank sum is the credit sum. */
  lemma SortedCreditSum(xs: seq<Scored>)
    requires SortedBy(xs, ScoredLe)
    ensures 2.0 * PositiveRankSum(xs, |xs|) == SumOf(PositiveCredit(xs), xs) as real
  {
    RankSumCredit(xs, |xs|);
    assert xs[..|xs|] == xs;
  }

  /** The credit sum of the positives: 2P + T, plus p * p among themselves, plus p. */
  lemma CreditTotal(z: seq<Scored>)
    requires BinaryPairs(z)
    ensures SumOf(PositiveCredit(z), z)
      == 2 * Wins(z, z) + Draws(z, z) + Positives(z) * Positives(z) + Positives(z)
  {
    CreditByClass(z, z);
    CrossAntisymmetric(z, z);
  }

  lemma BinaryZip(scores: seq<real>, truth: seq<int>)
    requires Binary(truth)
    ensures BinaryPairs(Zip(scores, truth))
  {
  }

  /** Sorting keeps the number of pairs. */
  lemma SortedLength(scores: seq<real>, truth: seq<int>)
    requires |scores| == |truth|
    ensures |SortedPairs(scores, truth)| == |truth|
  {
    var xs := SortedPairs(scores, truth);
    assert |xs| == |multiset(xs)| == |multiset(Zip(scores, truth))| == |Zip(scores, truth)|;
  }

  /** Twice the positive rank sum: 2P + T plus the positives' ranks among themselves. */
  lemma DoubledRankSum(scores: seq<real>, truth: seq<int>)
    requires |scores| == |truth| && Binary(truth)
    ensures 2.0 * PositiveRankSum(SortedPairs(scores, truth), |truth|)
      == (2 * Above(scores, truth) + Level(scores, truth) + Sum(truth) * Sum(truth) + Sum(truth)) as real
  {
    var z := Zip(scores, truth);
    var xs := SortedPairs(scores, truth);
    SortedLength(scores, truth);
    SortedCreditSum(xs);
    CreditTransfer(xs, z);
    BinaryZip(scores, truth);
    CreditTotal(z);
    ClassCounts(scores, truth);
  }

  /** `compute_auc_binary` on aligned scores and 0/1 truth values with both classes present
      is (P + T/2) / (n_pos * n_neg): the Mann-Whitney statistic it is said to equal. */
  lemma AucMannWhitney(scores: seq<real>, truth: seq<int>)
    requires |scores| == |truth| && Binary(truth)
    requires 0 < Sum(truth) < |truth|
    ensures Auc(scores, truth)
      == Some((Above(scores, truth) as real + Level(scores, truth) as real / 2.0)
              / (Sum(truth) * (|truth| - Sum(truth))) as real)
  {
    DoubledRankSum(scores, truth);
    SortedLength(scores, truth);
    var p := Sum(truth);
    RankArith(PositiveRankSum(SortedPairs(scores, truth), |truth|), Above(scores, truth), Level(scores, truth), p);
  }

  lemma RankArith(r: real, w: nat, d: nat, p: int)
    requires 2.0 * r == (2 * w + d + p * p + p) as real
    ensures r - (p * (p + 1)) as real / 2.0 == w as real + d as real / 2.0
  {
    assert p * (p + 1) == p * p + p;
  }

  /** On aligned scores and 0/1 truth values the AUC lies between 0 and 1. */
  lemma AucWithinUnit(scores: seq<real>, truth: seq<int>)
    requires |scores| == |truth| && Binary(truth)
    ensures Auc(scores, truth).Some? ==> 0.0 <= Auc(scores, truth).value <= 1.0
  {
    ClassCounts(scores, truth);
    var p, n := Sum(truth), |truth| - Sum(truth);
    if p != 0 && n != 0 {
      AucMannWhitney(scores, truth);
      var z := Zip(scores, truth);
      WinsDrawsBound(z, z);
      PositiveProduct(p, n);
      RatioWithinUnit(Above(scores, truth) as real + Level(scores, truth) as real / 2.0, (p * n) as real);
    }
  }

  lemma RatioWithinUnit(u: real, d: real)
    requires 0.0 <= u <= d && d > 0.0
    ensures 0.0 <= u / d <= 1.0
  {
    assert u / d * d == u;
  }

  // ---------------------------------------------------------------- unequal lengths

  /** `zip` drops the truth value that has no score while `sum(true)` still counts it:
      one score against truth values [0, 1] has no positive pair, yet n_pos is 1, and
      the AUC comes out as -1. */
  lemma AucUnequalLengths()
    ensures Auc([0.5], [0, 1]) == Some(-1.0)
  {
    var xs := SortedPairs([0.5], [0, 1]);
    assert Zip([0.5], [0, 1]) == [(0.5, 0)];
    assert |xs| == |multiset(xs)| == 1;
    assert xs[0] in multiset(xs);
    assert xs == [(0.5, 0)];
    assert Sum([0, 1]) == 1 by {
      assert [0, 1][..1] == [0];
      assert [0][..0] == [];
    }
    assert PositiveRankSum(xs, 1) == 0.0;
  }

  /** `compute_auc_binary` with both class counts taken over the pairs `zip` keeps. */
  function AucAligned(scores: seq<real>, truth: seq<int>): (r: Option<real>)
    ensures |scores| == |truth| ==> r == Auc(scores, truth)
  {
    var n := Min(|scores|, |truth|);
    assert scores[..|scores|] == scores && truth[..|truth|] == truth;
    Auc(scores[..n], truth[..n])
  }

  /** With 0/1 truth values the aligned AUC lies between 0 and 1 whatever the lengths. */
  lemma AucAlignedWithinUnit(scores: seq<real>, truth: seq<int>)
    requires Binary(truth)
    ensures AucAligned(scores, truth).Some? ==> 0.0 <= AucAligned(scores, truth).value <= 1.0
  {
    var n := Min(|scores|, |truth|);
    AucWithinUnit(scores[..n], truth[..n]);
  }

  /** The AUC `evaluate_one` reports for aligned scores is the aligned one, so it lies
      between 0 and 1. */
  lemma EvaluateAucWithinUnit(truth: seq<Cell>, pred: seq<Cell>, probs: Option<seq<real>>)
    requires probs.Some? ==> |probs.value| == |truth|
    ensures Evaluate(truth, pred, probs).auc.Some? ==> 0.0 <= Evaluate(truth, pred, probs).auc.value <= 1.0
  {
    var labels := LabelSet(truth, pred);
    if probs.Some? && |labels| == 2 {
      var binary := TrueBinary(truth, labels[1]);
      assert Binary(binary);
      AucAlignedWithinUnit(probs.value, binary);
    }
  }
}
