/** `krippendorff_alpha.py`: nominal Krippendorff's alpha in the coincidence-matrix
    formulation. Ordered pairs of ratings within a unit are counted, the counts give
    marginals, and alpha is one minus the ratio of observed to expected disagreement. */
module KrippendorffAlpha {
  import opened Wrappers
  import opened Seqs
  import opened Dicts
  import opened Cells

  /** An ordered pair of category labels, a key of the coincidence counter `O`. */
  type Pair = (string, string)

  /** A unit's ratings; `None` is a missing rating. */
  type Unit = seq<Option<string>>

  /** One pass of the inner loop for rating `i`: the pairs `(labels[i], labels[j])`
      for `j < n`, `j != i`. */
  function Row(labels: seq<string>, i: nat, n: nat): (r: seq<Pair>)
    requires i < |labels| && n <= |labels|
    ensures |r| == if i < n then n - 1 else n
  {
    if n == 0 then []
    else Row(labels, i, n - 1) + (if n - 1 == i then [] else [(labels[i], labels[n - 1])])
  }

  /** The first `n` passes of the outer loop. */
  function Rows(labels: seq<string>, n: nat): seq<Pair>
    requires n <= |labels|
  {
    if n == 0 then []
    else Rows(labels, n - 1) + Row(labels, n - 1, |labels|)
  }

  /** The ordered pairs a unit adds to `O`, in loop order; a unit with fewer than two
      ratings adds none. */
  function UnitPairs(labels: seq<string>): seq<Pair> {
    if |labels| < 2 then [] else Rows(labels, |labels|)
  }

  /** Every pair counted over the units, in loop order. */
  function AllPairs(data: seq<Unit>): seq<Pair> {
    if data == [] then []
    else AllPairs(data[..|data| - 1]) + UnitPairs(Present(data[|data| - 1]))
  }

  /** Sum over units of m(m-1), m the number of present ratings, for units with m >= 2. */
  function PairsPerUnit(data: seq<Unit>): int {
    if data == [] then 0
    else
      var m := |Present(data[|data| - 1])|;
      PairsPerUnit(data[..|data| - 1]) + (if m < 2 then 0 else m * (m - 1))
  }

  /** `o_dot[a] += cnt` for each entry `((a, b), cnt)` of `O`, in order. */
  function Marginals(O: seq<(Pair, int)>): seq<(string, int)> {
    if O == [] then []
    else
      var m := Marginals(O[..|O| - 1]);
      var e := O[|O| - 1];
      AddTo(m, e.0.0, e.1)
  }

  /** The numerator of `Do`: the counts of pairs of two different categories. */
  function Disagreement(O: seq<(Pair, int)>): int {
    if O == [] then 0
    else
      var e := O[|O| - 1];
      Disagreement(O[..|O| - 1]) + (if e.0.0 == e.0.1 then 0 else e.1)
  }

  /** The inner loop of the numerator of `De` for entry `x`, over the first `n` entries. */
  function ExpectedRow(odot: seq<(string, int)>, x: nat, n: nat): int
    requires x < |odot| && n <= |odot|
  {
    if n == 0 then 0
    else
      ExpectedRow(odot, x, n - 1)
        + (if odot[x].0 == odot[n - 1].0 then 0 else odot[x].1 * odot[n - 1].1)
  }

  /** `De_num`: the products of the marginals of two different categories. */
  function Expected(odot: seq<(string, int)>, n: nat): int
    requires n <= |odot|
  {
    if n == 0 then 0 else Expected(odot, n - 1) + ExpectedRow(odot, n - 1, |odot|)
  }

  /** `krippendorff_alpha_nominal`; `None` stands for the NaN returned when no unit has
      two ratings. */
  function Alpha(data: seq<Unit>): Option<real> {
    AlphaOfPairs(AllPairs(data))
  }

  /** Alpha from the counted pairs: undefined when there are none. */
  function AlphaOfPairs(pairs: seq<Pair>): Option<real> {
    if pairs == [] then None else Some(AlphaOfCounts(Tally(pairs), |pairs|))
  }

  /** Alpha from the coincidence counts `O` and `total_pairs`. */
  function AlphaOfCounts(O: seq<(Pair, int)>, total: int): real
    requires total > 0
  {
    AlphaOf(Disagreement(O), total, ExpectedTotal(Marginals(O)))
  }

  /** `De_num` over all the keys of `o_dot`. */
  function ExpectedTotal(odot: seq<(string, int)>): int {
    Expected(odot, |odot|)
  }

  /** A real division by a positive integer. */
  function Ratio(n: int, d: int): real
    requires d > 0
  {
    n as real / d as real
  }

  /** The final step: `Do = dis / total`, `De = expectedNum / total^2`, and alpha is 1.0
      when `De == 0`, else `1 - Do / De`. */
  function AlphaOf(dis: int, total: int, expectedNum: int): real
    requires total > 0
  {
    PositiveSquare(total);
    if Ratio(expectedNum, total * total) == 0.0 then 1.0
    else 1.0 - Ratio(dis, total) / Ratio(expectedNum, total * total)
  }

  lemma PositiveSquare(n: int)
    requires n > 0
    ensures n * n > 0
  {
  }

  /** The counting loops of `krippendorff_alpha_nominal` (`categories`, which is
      never read, is left out). */
  method CountCoincidences(data: seq<Unit>) returns (O: seq<(Pair, int)>, total: int)
    ensures O == Tally(AllPairs(data)) && total == |AllPairs(data)|
  {
    O, total := [], 0;
    for u := 0 to |data|
      invariant O == Tally(AllPairs(data[..u])) && total == |AllPairs(data[..u])|
    {
      PrefixStep(data, u);
      var labels := Present(data[u]);
      assert AllPairs(data[..u + 1]) == AllPairs(data[..u]) + UnitPairs(labels);
      if |labels| < 2 {
        ConcatNil(AllPairs(data[..u]));
        continue;
      }
      O, total := CountUnit(O, total, labels, AllPairs(data[..u]));
    }
    TakeAll(data);
  }

  /** The two nested loops over the ratings of one unit with at least two ratings. */
  method CountUnit(O0: seq<(Pair, int)>, total0: int, labels: seq<string>, ghost before: seq<Pair>)
    returns (O: seq<(Pair, int)>, total: int)
    requires |labels| >= 2 && O0 == Tally(before) && total0 == |before|
    ensures O == Tally(before + UnitPairs(labels)) && total == |before + UnitPairs(labels)|
  {
    O, total := O0, total0;
    var m := |labels|;
    ConcatNil(before);
    for i := 0 to m
      invariant O == Tally(before + Rows(labels, i)) && total == |before + Rows(labels, i)|
    {
      O, total := CountRow(O, total, labels, i, before + Rows(labels, i));
      ConcatAssoc(before, Rows(labels, i), Row(labels, i, m));
    }
  }

  /** The inner loop for rating `i`: every other rating `j` adds `(labels[i], labels[j])`. */
  method CountRow(O0: seq<(Pair, int)>, total0: int, labels: seq<string>, i: nat, ghost start: seq<Pair>)
    returns (O: seq<(Pair, int)>, total: int)
    requires i < |labels| && O0 == Tally(start) && total0 == |start|
    ensures O == Tally(start + Row(labels, i, |labels|)) && total == |start + Row(labels, i, |labels|)|
  {
    O, total := O0, total0;
    var a := labels[i];
    ConcatNil(start);
    for j := 0 to |labels|
      invariant O == Tally(start + Row(labels, i, j)) && total == |start + Row(labels, i, j)|
    {
      if i != j {
        var b := labels[j];
        Tick(O, start + Row(labels, i, j), (a, b));
        ConcatAssoc(start, Row(labels, i, j), [(a, b)]);
        O := AddTo(O, (a, b), 1);
        total := total + 1;
      } else {
        ConcatNil(Row(labels, i, j));
      }
    }
  }

  /** One `O[(a, b)] += 1` step keeps `O` the counter of the pairs seen so far. */
  lemma Tick(O: seq<(Pair, int)>, ps: seq<Pair>, p: Pair)
    requires O == Tally(ps)
    ensures AddTo(O, p, 1) == Tally(ps + [p])
  {
    TallySnoc(ps, p);
  }

  method KrippendorffAlphaNominal(data: seq<Unit>) returns (alpha: Option<real>)
    ensures alpha == Alpha(data)
  {
    var O, total := CountCoincidences(data);
    if total == 0 {
      return None;
    }
    var a := AlphaFromCounts(O, total);
    alpha := Some(a);
  }

  /** Everything after the counting loops: marginals, `Do`, `De` and the result. */
  method AlphaFromCounts(O: seq<(Pair, int)>, total: int) returns (alpha: real)
    requires total > 0
    ensures alpha == AlphaOfCounts(O, total)
  {
    var odot := ComputeMarginals(O);
    var observed := ObservedSum(O);
    observed := observed / total as real;
    var expectedNum := ExpectedSum(odot);
    PositiveSquare(total);
    var expected := expectedNum / (total * total) as real;
    assert observed == Ratio(Disagreement(O), total);
    assert expected == Ratio(ExpectedTotal(odot), total * total);
    if expected == 0.0 {
      return 1.0;
    }
    alpha := 1.0 - observed / expected;
  }

  /** The marginals loop over the entries of `O`. */
  method ComputeMarginals(O: seq<(Pair, int)>) returns (odot: seq<(string, int)>)
    ensures odot == Marginals(O)
  {
    odot := [];
    for k := 0 to |O|
      invariant odot == Marginals(O[..k])
    {
      PrefixStep(O, k);
      var e := O[k];
      odot := AddTo(odot, e.0.0, e.1);
    }
    TakeAll(O);
  }

  /** The loop summing `cnt * d` over the entries of `O`, before the division. */
  method ObservedSum(O: seq<(Pair, int)>) returns (observed: real)
    ensures observed == Disagreement(O) as real
  {
    observed := 0.0;
    for k := 0 to |O|
      invariant observed == Disagreement(O[..k]) as real
    {
      PrefixStep(O, k);
      var d := if O[k].0.0 == O[k].0.1 then 0.0 else 1.0;
      observed := observed + O[k].1 as real * d;
    }
    TakeAll(O);
  }

  /** The nested loops over the keys of `o_dot` accumulating `De_num`. */
  method ExpectedSum(odot: seq<(string, int)>) returns (expectedNum: real)
    ensures expectedNum == Expected(odot, |odot|) as real
  {
    expectedNum := 0.0;
    for x := 0 to |odot|
      invariant expectedNum == Expected(odot, x) as real
    {
      for y := 0 to |odot|
        invariant expectedNum == (Expected(odot, x) + ExpectedRow(odot, x, y)) as real
      {
        if odot[x].0 != odot[y].0 {
          expectedNum := expectedNum + (odot[x].1 * odot[y].1) as real;
        }
      }
    }
  }

  // ---------------------------------------------------------------- pair counts

  lemma {:induction false} RowsLength(labels: seq<string>, n: nat)
    requires n <= |labels|
    ensures |Rows(labels, n)| == n * (|labels| - 1)
    decreases n
  {
    if n > 0 {
      RowsLength(labels, n - 1);
      assert n * (|labels| - 1) == (n - 1) * (|labels| - 1) + (|labels| - 1);
    }
  }

  /** A unit with m >= 2 present ratings adds exactly m(m-1) ordered pairs. */
  lemma UnitPairsLength(labels: seq<string>)
    ensures |UnitPairs(labels)| == if |labels| < 2 then 0 else |labels| * (|labels| - 1)
  {
    if |labels| >= 2 {
      RowsLength(labels, |labels|);
    }
  }

  /** `total_pairs` is the sum of m(m-1) over the units with m >= 2. */
  lemma {:induction false} AllPairsLength(data: seq<Unit>)
    ensures |AllPairs(data)| == PairsPerUnit(data)
    decreases |data|
  {
    if data != [] {
      AllPairsLength(data[..|data| - 1]);
      UnitPairsLength(Present(data[|data| - 1]));
    }
  }

  lemma {:induction false} PairsPerUnitZero(data: seq<Unit>)
    ensures PairsPerUnit(data) >= 0
    ensures PairsPerUnit(data) == 0 <==> forall u :: 0 <= u < |data| ==> |Present(data[u])| < 2
    decreases |data|
  {
    if data != [] {
      var init := data[..|data| - 1];
      PairsPerUnitZero(init);
      var m := |Present(data[|data| - 1])|;
      if m >= 2 {
        assert m * (m - 1) > 0;
      }
      assert forall u :: 0 <= u < |init| ==> init[u] == data[u];
    }
  }

  /** How often row `i` (over the first `n` ratings) holds the pair `(a, b)`. */
  lemma {:induction false} RowCount(labels: seq<string>, i: nat, n: nat, a: string, b: string)
    requires i < |labels| && n <= |labels|
    ensures Count(Row(labels, i, n), (a, b))
      == if labels[i] == a then Count(labels[..n], b) - (if i < n && labels[i] == b then 1 else 0) else 0
    decreases n
  {
    if n > 0 {
      RowCount(labels, i, n - 1, a, b);
      CountPrefix(labels, n - 1, b);
      if n - 1 != i {
        CountSnoc(Row(labels, i, n - 1), (labels[i], labels[n - 1]), (a, b));
      } else {
        ConcatNil(Row(labels, i, n - 1));
      }
    }
  }

  /** How often the first `n` rows hold the pair `(a, b)`. */
  lemma {:induction false} RowsCount(labels: seq<string>, n: nat, a: string, b: string)
    requires n <= |labels|
    ensures Count(Rows(labels, n), (a, b))
      == Count(labels[..n], a) * Count(labels, b) - (if a == b then Count(labels[..n], a) else 0)
    decreases n
  {
    if n > 0 {
      var x := labels[n - 1];
      RowsCount(labels, n - 1, a, b);
      RowsStep(labels, n, a, b);
      FullRowCount(labels, n - 1, a, b);
      CountPrefix(labels, n - 1, a);
      PairCountStep(Count(labels[..n - 1], a), Count(labels, b), Count(Rows(labels, n - 1), (a, b)),
        Count(Row(labels, n - 1, |labels|), (a, b)), Count(labels[..n], a), x == a, x == b, a == b);
    }
  }

  /** The first `n` rows hold the pairs of the first `n - 1` rows and those of row `n - 1`. */
  lemma RowsStep(labels: seq<string>, n: nat, a: string, b: string)
    requires 0 < n <= |labels|
    ensures Count(Rows(labels, n), (a, b))
      == Count(Rows(labels, n - 1), (a, b)) + Count(Row(labels, n - 1, |labels|), (a, b))
  {
    CountConcat(Rows(labels, n - 1), Row(labels, n - 1, |labels|), (a, b));
  }

  /** A full row `i` holds `(a, b)` once per other rating `b` when rating `i` is `a`. */
  lemma FullRowCount(labels: seq<string>, i: nat, a: string, b: string)
    requires i < |labels|
    ensures Count(Row(labels, i, |labels|), (a, b))
      == if labels[i] == a then Count(labels, b) - (if labels[i] == b then 1 else 0) else 0
  {
    RowCount(labels, i, |labels|, a, b);
    TakeAll(labels);
  }

  /** The arithmetic of one step of `RowsCount`: row `n - 1` adds `n_b` pairs (less one
      when the rating itself is `b`) when the rating is `a`, and none otherwise. */
  lemma PairCountStep(A: int, B: int, before: int, row: int, A2: int, isA: bool, isB: bool, same: bool)
    requires before == A * B - (if same then A else 0)
    requires row == if isA then B - (if isB then 1 else 0) else 0
    requires A2 == A + (if isA then 1 else 0)
    requires isA ==> (same <==> isB)
    ensures before + row == A2 * B - (if same then A2 else 0)
  {
    if isA {
      MulSucc(A, B);
    }
  }

  lemma MulSucc(x: int, y: int)
    ensures (x + 1) * y == x * y + y
  {
  }

  /** Within a unit, the pair `(a, b)` occurs `n_a * n_b` times, less `n_a` when
      `a == b` (a rating is never paired with itself); a unit with fewer than two
      ratings gives 0 either way. */
  lemma UnitPairsCount(labels: seq<string>, a: string, b: string)
    ensures Count(UnitPairs(labels), (a, b))
      == Count(labels, a) * Count(labels, b) - (if a == b then Count(labels, a) else 0)
  {
    if |labels| >= 2 {
      RowsCount(labels, |labels|, a, b);
      TakeAll(labels);
    } else if |labels| == 1 {
      assert labels[..0] == [];
    }
  }

  lemma {:induction false} AllPairsSymmetric(data: seq<Unit>, a: string, b: string)
    ensures Count(AllPairs(data), (a, b)) == Count(AllPairs(data), (b, a))
    decreases |data|
  {
    if data != [] {
      var init := data[..|data| - 1];
      var labels := Present(data[|data| - 1]);
      AllPairsSymmetric(init, a, b);
      CountConcat(AllPairs(init), UnitPairs(labels), (a, b));
      CountConcat(AllPairs(init), UnitPairs(labels), (b, a));
      UnitPairsCount(labels, a, b);
      UnitPairsCount(labels, b, a);
    }
  }

  /** The coincidence counts are symmetric: `O[(a, b)] == O[(b, a)]`. */
  lemma CoincidenceSymmetric(data: seq<Unit>, a: string, b: string)
    ensures Lookup(Tally(AllPairs(data)), (a, b)).GetOr(0) == Lookup(Tally(AllPairs(data)), (b, a)).GetOr(0)
  {
    var ps := AllPairs(data);
    CountPositive(ps, (a, b));
    CountPositive(ps, (b, a));
    TallyLookup(ps, (a, b));
    TallyLookup(ps, (b, a));
    AllPairsSymmetric(data, a, b);
  }

  lemma {:induction false} RowMembers(labels: seq<string>, i: nat, n: nat)
    requires i < |labels| && n <= |labels|
    ensures forall p :: p in Row(labels, i, n) ==> p.0 in labels && p.1 in labels
    decreases n
  {
    if n > 0 {
      RowMembers(labels, i, n - 1);
    }
  }

  lemma {:induction false} RowsMembers(labels: seq<string>, n: nat)
    requires n <= |labels|
    ensures forall p :: p in Rows(labels, n) ==> p.0 in labels && p.1 in labels
    decreases n
  {
    if n > 0 {
      RowsMembers(labels, n - 1);
      RowMembers(labels, n - 1, |labels|);
    }
  }

  /** When every rating of the units with two or more is `c`, every counted pair is
      `(c, c)`; units with fewer ratings add no pairs, whatever they hold. */
  lemma {:induction false} AllPairsOneCategory(data: seq<Unit>, c: string)
    requires forall u, x :: 0 <= u < |data| && |Present(data[u])| >= 2 && x in Present(data[u]) ==> x == c
    ensures forall p :: p in AllPairs(data) ==> p == (c, c)
    decreases |data|
  {
    if data != [] {
      var init := data[..|data| - 1];
      assert forall u :: 0 <= u < |init| ==> init[u] == data[u];
      AllPairsOneCategory(init, c);
      var labels := Present(data[|data| - 1]);
      if |labels| >= 2 {
        RowsMembers(labels, |labels|);
      }
    }
  }

  // ---------------------------------------------------------------- marginals and disagreement

  /** The marginals add up to the sum of the counts. */
  lemma {:induction false} MarginalsSum(O: seq<(Pair, int)>)
    ensures Sum(Values(Marginals(O))) == Sum(Values(O))
    decreases |O|
  {
    if O != [] {
      var init, e := O[..|O| - 1], O[|O| - 1];
      MarginalsSum(init);
      var m := Marginals(init);
      AddToSum(m, e.0.0, e.1);
      SplitLast(O);
      ValuesSnoc(init, e);
      SumSnoc(Values(init), e.1);
    }
  }

  /** Marginals of non-negative counts are non-negative, and their keys are the first
      components of the keys of `O`. */
  lemma {:induction false} MarginalsEntries(O: seq<(Pair, int)>)
    requires forall e :: e in O ==> e.1 >= 0
    ensures forall e :: e in Marginals(O) ==> e.1 >= 0 && exists f :: f in O && f.0.0 == e.0
    decreases |O|
  {
    if O != [] {
      var init, last := O[..|O| - 1], O[|O| - 1];
      assert forall e :: e in init ==> e in O;
      MarginalsEntries(init);
      var m := Marginals(init);
      var v := Lookup(m, last.0.0).GetOr(0) + last.1;
      PutEntries(m, last.0.0, v);
      assert v >= 0 by {
        if Lookup(m, last.0.0).Some? {
          assert m[KeyIndex(m, last.0.0)] in m;
        }
      }
    }
  }

  /** `Do` before the division: between 0 and the total of the counts. */
  lemma {:induction false} DisagreementBounds(O: seq<(Pair, int)>)
    requires forall q :: 0 <= q < |O| ==> O[q].1 >= 0
    ensures 0 <= Disagreement(O) <= Sum(Values(O))
    decreases |O|
  {
    if O != [] {
      var init := O[..|O| - 1];
      DisagreementBounds(init);
      SplitLast(O);
      ValuesSnoc(init, O[|O| - 1]);
      SumSnoc(Values(init), O[|O| - 1].1);
    }
  }

  lemma {:induction false} ExpectedRowNonNegative(odot: seq<(string, int)>, x: nat, n: nat)
    requires x < |odot| && n <= |odot| && forall q :: 0 <= q < |odot| ==> odot[q].1 >= 0
    ensures ExpectedRow(odot, x, n) >= 0
    decreases n
  {
    if n > 0 {
      ExpectedRowNonNegative(odot, x, n - 1);
      assert odot[x].1 * odot[n - 1].1 >= 0;
    }
  }

  lemma {:induction false} ExpectedNonNegative(odot: seq<(string, int)>, n: nat)
    requires n <= |odot| && forall q :: 0 <= q < |odot| ==> odot[q].1 >= 0
    ensures Expected(odot, n) >= 0
    decreases n
  {
    if n > 0 {
      ExpectedNonNegative(odot, n - 1);
      ExpectedRowNonNegative(odot, n - 1, |odot|);
    }
  }

  lemma {:induction false} ExpectedOneKey(odot: seq<(string, int)>, n: nat, c: string)
    requires n <= |odot| && forall q :: 0 <= q < |odot| ==> odot[q].0 == c
    ensures Expected(odot, n) == 0
    decreases n
  {
    if n > 0 {
      ExpectedOneKey(odot, n - 1, c);
      ExpectedRowOneKey(odot, n - 1, |odot|, c);
    }
  }

  lemma {:induction false} ExpectedRowOneKey(odot: seq<(string, int)>, x: nat, n: nat, c: string)
    requires x < |odot| && n <= |odot| && forall q :: 0 <= q < |odot| ==> odot[q].0 == c
    ensures ExpectedRow(odot, x, n) == 0
    decreases n
  {
    if n > 0 {
      ExpectedRowOneKey(odot, x, n - 1, c);
    }
  }

  // ---------------------------------------------------------------- alpha

  /** The marginals of the coincidence counts sum to `total_pairs`. */
  lemma MarginalsTotal(data: seq<Unit>)
    ensures Sum(Values(Marginals(Tally(AllPairs(data))))) == |AllPairs(data)|
  {
    MarginalsSum(Tally(AllPairs(data)));
    TallySum(AllPairs(data));
  }

  /** The counts of a counter, by position, are positive. */
  lemma CountsPositive(ps: seq<Pair>)
    ensures forall q :: 0 <= q < |Tally(ps)| ==> Tally(ps)[q].1 > 0
  {
    var O := Tally(ps);
    TallyEntries(ps);
    forall q | 0 <= q < |O| ensures O[q].1 > 0 {
      assert O[q] in O;
    }
  }

  /** `Do` is a proportion: it lies in [0, 1]. */
  lemma ObservedProportion(data: seq<Unit>)
    requires |AllPairs(data)| > 0
    ensures 0.0 <= Ratio(Disagreement(Tally(AllPairs(data))), |AllPairs(data)|) <= 1.0
  {
    var ps := AllPairs(data);
    var O := Tally(ps);
    CountsPositive(ps);
    DisagreementBounds(O);
    TallySum(ps);
    DivBounds(Disagreement(O) as real, |ps| as real);
  }

  /** The result is undefined (NaN) exactly when no unit has two present ratings. */
  lemma AlphaUndefined(data: seq<Unit>)
    ensures Alpha(data).None? <==> forall u :: 0 <= u < |data| ==> |Present(data[u])| < 2
  {
    AllPairsLength(data);
    PairsPerUnitZero(data);
    assert Alpha(data).None? <==> |AllPairs(data)| == 0;
  }

  /** Marginals of non-negative counts are non-negative, by position. */
  lemma MarginalsNonNegative(O: seq<(Pair, int)>)
    requires forall q :: 0 <= q < |O| ==> O[q].1 >= 0
    ensures forall q :: 0 <= q < |Marginals(O)| ==> Marginals(O)[q].1 >= 0
  {
    var odot := Marginals(O);
    assert forall e :: e in O ==> e.1 >= 0;
    MarginalsEntries(O);
    forall q | 0 <= q < |odot| ensures odot[q].1 >= 0 {
      assert odot[q] in odot;
    }
  }

  /** Alpha never exceeds 1. */
  lemma AlphaAtMostOne(data: seq<Unit>)
    ensures Alpha(data).Some? ==> Alpha(data).value <= 1.0
  {
    var ps := AllPairs(data);
    if ps != [] {
      CountsPositive(ps);
      CountsAlphaAtMostOne(Tally(ps), |ps|);
    }
  }

  /** Alpha computed from any non-negative counts is at most 1. */
  lemma CountsAlphaAtMostOne(O: seq<(Pair, int)>, total: int)
    requires total > 0 && forall q :: 0 <= q < |O| ==> O[q].1 >= 0
    ensures AlphaOfCounts(O, total) <= 1.0
  {
    var odot := Marginals(O);
    DisagreementBounds(O);
    MarginalsNonNegative(O);
    ExpectedNonNegative(odot, |odot|);
    AlphaOfAtMostOne(Disagreement(O), total, ExpectedTotal(odot));
  }

  /** With non-negative disagreement counts the ratio `Do / De` is non-negative. */
  lemma AlphaOfAtMostOne(dis: int, total: int, expectedNum: int)
    requires total > 0 && dis >= 0 && expectedNum >= 0
    ensures AlphaOf(dis, total, expectedNum) <= 1.0
  {
    PositiveSquare(total);
    assert Ratio(dis, total) >= 0.0 && Ratio(expectedNum, total * total) >= 0.0;
  }

  /** When every rating of the units with two or more is the same category and some
      unit has two ratings, the expected disagreement is 0 and the result is exactly 1.0;
      ratings in units with fewer than two are not counted and may differ. */
  lemma AlphaOneCategory(data: seq<Unit>, c: string, u: nat)
    requires forall v, x :: 0 <= v < |data| && |Present(data[v])| >= 2 && x in Present(data[v]) ==> x == c
    requires u < |data| && |Present(data[u])| >= 2
    ensures Alpha(data) == Some(1.0)
  {
    var ps := AllPairs(data);
    AllPairsLength(data);
    PairsPerUnitZero(data);
    AllPairsOneCategory(data, c);
    PairsOneCategory(ps, c);
  }

  /** Pairs that are all `(c, c)` give alpha 1.0. */
  lemma PairsOneCategory(ps: seq<Pair>, c: string)
    requires ps != [] && forall p :: p in ps ==> p == (c, c)
    ensures AlphaOfPairs(ps) == Some(1.0)
  {
    var O := Tally(ps);
    TallyEntries(ps);
    CountsOneCategory(O, |ps|, c);
  }

  /** Counts whose keys are all `(c, c)` give alpha 1.0: `o_dot` has the one key `c`. */
  lemma CountsOneCategory(O: seq<(Pair, int)>, total: int, c: string)
    requires total > 0 && forall e :: e in O ==> e.0 == (c, c) && e.1 > 0
    ensures AlphaOfCounts(O, total) == 1.0
  {
    var odot := Marginals(O);
    MarginalsEntries(O);
    forall q | 0 <= q < |odot| ensures odot[q].0 == c {
      assert odot[q] in odot;
    }
    ExpectedOneKey(odot, |odot|, c);
    AlphaOfNoExpected(Disagreement(O), total);
  }

  /** No expected disagreement gives alpha 1.0, whatever was observed. */
  lemma AlphaOfNoExpected(dis: int, total: int)
    requires total > 0
    ensures AlphaOf(dis, total, 0) == 1.0
  {
    PositiveSquare(total);
    assert Ratio(0, total * total) == 0.0;
  }
}
