/** `generate_gold_labels.py`: one gold label per row by majority vote over the
    annotator columns, the reduced output rows and their field names. */
module GenerateGoldLabels {
  import opened Wrappers
  import opened Seqs
  import opened Text
  import opened Dicts
  import opened Cells

  /** A CSV row as `csv.DictReader` yields it: field name to text, in header order.
      Rows are taken with distinct field names, as a dict holds each key once; with a
      repeated name `FieldNames` would list it twice where `keys()` lists it once. */
  type Row = seq<(string, string)>

  const Ambiguous := "AMBIGUOUS"
  const GoldField := "gold_label"

  /** Metadata columns removed from the output (`columns_to_drop`). */
  const Dropped: set<string> := {"score", "userName", "app", "platform", ""}

  /** Position in a counter of `most_common()[0]`: the largest count, and among equal
      counts the entry inserted first (`most_common` sorts stably by count). */
  function TopIndex<K>(t: seq<(K, int)>): (i: nat)
    requires t != []
    ensures i < |t|
    ensures forall q :: 0 <= q < |t| ==> t[q].1 <= t[i].1
    ensures forall q :: 0 <= q < i ==> t[q].1 < t[i].1
  {
    if |t| == 1 then 0
    else
      var b := TopIndex(t[..|t| - 1]);
      if t[|t| - 1].1 > t[b].1 then |t| - 1 else b
  }

  /** `majority_vote(labels, tie_break)`. */
  function MajorityVote(labels: seq<Option<string>>, tieBreak: string): Option<string> {
    var vals := Present(labels);
    if vals == [] then None
    else
      var mostCommon := Tally(vals);
      if mostCommon == [] then None
      else
        var top := mostCommon[TopIndex(mostCommon)];
        if top.1 > 1 then Some(top.0)
        else if tieBreak == "first" then Some(vals[0])
        else Some(Ambiguous)
  }

  /** The vote is `None` exactly when no annotation is present. */
  lemma MajorityVoteNone(labels: seq<Option<string>>, tieBreak: string)
    ensures MajorityVote(labels, tieBreak).None? <==> Present(labels) == []
  {
    var vals := Present(labels);
    if vals != [] {
      TallyKeys(vals);
      assert |Dedup(vals)| > 0 by {
        assert vals[0] in Dedup(vals);
      }
    }
  }

  /** The top entry of the counter of `vals` read through `Dedup(vals)`: the distinct
      labels in order of first appearance, each with its count. */
  lemma TallyTop(vals: seq<string>)
    requires vals != []
    ensures var t := Tally(vals);
      var d := Dedup(vals);
      t != [] && |t| == |d|
      && var k := TopIndex(t);
      && t[k] == (d[k], Count(vals, d[k]))
      && (forall j :: 0 <= j < |d| ==> Count(vals, d[j]) <= Count(vals, d[k]))
      && (forall j :: 0 <= j < k ==> Count(vals, d[j]) < Count(vals, d[k]))
  {
    var t := Tally(vals);
    TallyKeys(vals);
    TallyCounts(vals);
    var d := Dedup(vals);
    assert vals[0] in d;
    forall j | 0 <= j < |t| ensures d[j] == t[j].0 && t[j].1 == Count(vals, d[j]) {
      assert Keys(t)[j] == t[j].0;
    }
  }

  /** When some label occurs at least twice, the vote is the label with the highest
      count, the first to appear among those tied at that count. `Dedup(vals)` lists
      the distinct labels in order of first appearance. */
  lemma MajorityVoteWinner(labels: seq<Option<string>>, tieBreak: string, x: string)
    requires Count(Present(labels), x) >= 2
    ensures var vals := Present(labels);
      var d := Dedup(vals);
      var k := TopIndex(Tally(vals));
      && k < |d|
      && MajorityVote(labels, tieBreak) == Some(d[k])
      && (forall j :: 0 <= j < |d| ==> Count(vals, d[j]) <= Count(vals, d[k]))
      && (forall j :: 0 <= j < k ==> Count(vals, d[j]) < Count(vals, d[k]))
  {
    var vals := Present(labels);
    CountPositive(vals, x);
    TallyTop(vals);
    var d := Dedup(vals);
    var i :| 0 <= i < |d| && d[i] == x;
    assert Count(vals, d[i]) >= 2;
  }

  /** With every present label distinct, 'first' takes the first present label and
      any other tie mode gives AMBIGUOUS (a single lone label included). */
  lemma MajorityVoteAllDistinct(labels: seq<Option<string>>, tieBreak: string)
    requires Present(labels) != [] && Distinct(Present(labels))
    ensures MajorityVote(labels, tieBreak)
      == if tieBreak == "first" then Some(Present(labels)[0]) else Some(Ambiguous)
  {
    var vals := Present(labels);
    TallyTop(vals);
    var t := Tally(vals);
    CountDistinct(vals, t[TopIndex(t)].0);
  }

  /** A vote other than AMBIGUOUS is one of the present labels. */
  lemma MajorityVoteFromInputs(labels: seq<Option<string>>, tieBreak: string)
    ensures var r := MajorityVote(labels, tieBreak);
      r.Some? ==> r.value in Present(labels) || (r.value == Ambiguous && tieBreak != "first")
  {
    var vals := Present(labels);
    if vals != [] {
      TallyTop(vals);
    }
  }

  // ---------------------------------------------------------------- rows

  /** `r.get(c, '').strip() or None` for each annotator column. */
  function Annotations(r: Row, cols: seq<string>): (labels: seq<Option<string>>)
    ensures |labels| == |cols|
    ensures forall i :: 0 <= i < |cols| ==>
      labels[i] == (var v := Strip(Lookup(r, cols[i]).GetOr("")); if v == "" then None else Some(v))
  {
    seq(|cols|, i requires 0 <= i < |cols| =>
      var v := Strip(Lookup(r, cols[i]).GetOr("")); if v == "" then None else Some(v))
  }

  function Gold(r: Row, cols: seq<string>, tieBreak: string): Option<string> {
    MajorityVote(Annotations(r, cols), tieBreak)
  }

  /** A field kept in the output: neither an annotator column nor dropped metadata. */
  predicate Kept(k: string, cols: seq<string>) {
    k !in cols && k !in Dropped
  }

  /** `{k: v for k, v in r.items() if kept}` followed by `gold_label = gold or ''`. */
  function ReducedRow(r: Row, cols: seq<string>, tieBreak: string): Row {
    Put(KeptFields(r, cols), GoldField, Gold(r, cols, tieBreak).GetOr(""))
  }

  function KeptFields(r: Row, cols: seq<string>): (kept: Row)
    ensures forall e :: e in kept ==> e in r && Kept(e.0, cols)
  {
    if r == [] then []
    else
      var rest := KeptFields(r[..|r| - 1], cols);
      var e := r[|r| - 1];
      if Kept(e.0, cols) then rest + [e] else rest
  }

  /** The reduced row holds the gold label (or '') under `gold_label` and, under every
      other key, the original value when the field is kept and nothing otherwise. */
  lemma ReducedRowLookup(r: Row, cols: seq<string>, tieBreak: string, k: string)
    ensures Lookup(ReducedRow(r, cols, tieBreak), k)
      == if k == GoldField then Some(Gold(r, cols, tieBreak).GetOr(""))
         else if Kept(k, cols) then Lookup(r, k) else None
  {
    PutLookup(KeptFields(r, cols), GoldField, Gold(r, cols, tieBreak).GetOr(""), k);
    if k != GoldField {
      KeptFieldsLookup(r, cols, k);
    }
  }

  lemma {:induction false} KeptFieldsLookup(r: Row, cols: seq<string>, k: string)
    ensures Lookup(KeptFields(r, cols), k) == if Kept(k, cols) then Lookup(r, k) else None
    decreases |r|
  {
    if r != [] {
      var init, e := r[..|r| - 1], r[|r| - 1];
      KeptFieldsLookup(init, cols, k);
      var rest := KeptFields(init, cols);
      if Kept(e.0, cols) {
        if e.0 == k {
          assert KeyIndex(rest + [e], k) == |rest|;
        } else {
          assert (rest + [e])[..|rest|] == rest;
        }
      }
      if e.0 != k {
        assert r[..|r| - 1] == init;
      }
    }
  }

  /** The output field names: the first row's kept fields, then `gold_label`. */
  function FieldNames(rows: seq<Row>, cols: seq<string>): seq<string> {
    var original := if rows == [] then [] else Keys(rows[0]);
    Filter(original, k => Kept(k, cols)) + [GoldField]
  }

  /** The field names end with `gold_label`; before it come exactly the kept fields of
      the first row (none without rows), in the first row's order. */
  lemma FieldNamesMembers(rows: seq<Row>, cols: seq<string>)
    ensures var names := FieldNames(rows, cols);
      && names != [] && names[|names| - 1] == GoldField
      && (forall k :: k in names[..|names| - 1] <==>
            rows != [] && k in Keys(rows[0]) && Kept(k, cols))
  {
    var original := if rows == [] then [] else Keys(rows[0]);
    var p := k => Kept(k, cols);
    FilterMembers(original, p);
    var names := FieldNames(rows, cols);
    assert names[..|names| - 1] == Filter(original, p);
  }

  /** The tallies `main` keeps while reducing rows. */
  datatype Stats = Stats(missing: nat, ties: nat, counts: seq<(string, int)>)

  /** Which of the three tallies a gold value bumps. */
  function Bumped(s: Stats, gold: Option<string>): Stats {
    var missing := if gold.None? || gold == Some("") then s.missing + 1 else s.missing;
    var ties := if gold == Some(Ambiguous) then s.ties + 1 else s.ties;
    var counts := if gold.Some? && gold.value != "" && gold.value != Ambiguous
      then AddTo(s.counts, gold.value, 1)
      else s.counts;
    Stats(missing, ties, counts)
  }

  function StatsOf(rows: seq<Row>, cols: seq<string>, tieBreak: string): Stats {
    if rows == [] then Stats(0, 0, [])
    else Bumped(StatsOf(rows[..|rows| - 1], cols, tieBreak), Gold(rows[|rows| - 1], cols, tieBreak))
  }

  lemma StatsOfStep(rows: seq<Row>, cols: seq<string>, tieBreak: string, i: nat)
    requires i < |rows|
    ensures StatsOf(rows[..i + 1], cols, tieBreak)
      == Bumped(StatsOf(rows[..i], cols, tieBreak), Gold(rows[i], cols, tieBreak))
  {
    PrefixStep(rows, i);
  }

  /** The reduced rows, in input order. */
  function ReducedRows(rows: seq<Row>, cols: seq<string>, tieBreak: string): (out: seq<Row>)
    ensures |out| == |rows|
  {
    if rows == [] then []
    else ReducedRows(rows[..|rows| - 1], cols, tieBreak) + [ReducedRow(rows[|rows| - 1], cols, tieBreak)]
  }

  /** Output row `i` is input row `i` reduced. */
  lemma {:induction false} ReducedRowsAt(rows: seq<Row>, cols: seq<string>, tieBreak: string, i: nat)
    requires i < |rows|
    ensures ReducedRows(rows, cols, tieBreak)[i] == ReducedRow(rows[i], cols, tieBreak)
    decreases |rows|
  {
    if i < |rows| - 1 {
      ReducedRowsAt(rows[..|rows| - 1], cols, tieBreak, i);
    }
  }

  lemma ReducedRowsStep(rows: seq<Row>, cols: seq<string>, tieBreak: string, i: nat)
    requires i < |rows|
    ensures ReducedRows(rows[..i + 1], cols, tieBreak)
      == ReducedRows(rows[..i], cols, tieBreak) + [ReducedRow(rows[i], cols, tieBreak)]
  {
    PrefixStep(rows, i);
  }

  /** The body of the row loop of `main`: the gold label and the reduced row. */
  method ReduceRow(r: Row, cols: seq<string>, tieBreak: string) returns (newRow: Row, gold: Option<string>)
    ensures gold == Gold(r, cols, tieBreak)
    ensures newRow == ReducedRow(r, cols, tieBreak)
  {
    var labels := Annotations(r, cols);
    gold := MajorityVote(labels, tieBreak);
    newRow := KeptFields(r, cols);
    newRow := Put(newRow, GoldField, gold.GetOr(""));
  }

  /** The loop of `main`: one reduced row per input row, and the tallies. */
  method GoldRows(rows: seq<Row>, cols: seq<string>, tieBreak: string)
    returns (outRows: seq<Row>, fieldnames: seq<string>, stats: Stats)
    ensures |outRows| == |rows|
    ensures forall i :: 0 <= i < |rows| ==> outRows[i] == ReducedRow(rows[i], cols, tieBreak)
    ensures fieldnames == FieldNames(rows, cols)
    ensures stats == StatsOf(rows, cols, tieBreak)
  {
    outRows := [];
    stats := Stats(0, 0, []);
    for i := 0 to |rows|
      invariant outRows == ReducedRows(rows[..i], cols, tieBreak)
      invariant stats == StatsOf(rows[..i], cols, tieBreak)
    {
      StatsOfStep(rows, cols, tieBreak, i);
      ReducedRowsStep(rows, cols, tieBreak, i);
      var newRow, gold := ReduceRow(rows[i], cols, tieBreak);
      stats := Bumped(stats, gold);
      outRows := outRows + [newRow];
    }
    TakeAll(rows);
    forall i | 0 <= i < |rows| ensures outRows[i] == ReducedRow(rows[i], cols, tieBreak) {
      ReducedRowsAt(rows, cols, tieBreak, i);
    }
    fieldnames := FieldNames(rows, cols);
  }

  /** Every row bumps exactly one tally: missing plus ties plus the label counts is the
      number of rows. */
  lemma {:induction false} StatsTotal(rows: seq<Row>, cols: seq<string>, tieBreak: string)
    ensures Tallied(StatsOf(rows, cols, tieBreak)) == |rows|
    decreases |rows|
  {
    if rows != [] {
      StatsTotal(rows[..|rows| - 1], cols, tieBreak);
      BumpedOnce(StatsOf(rows[..|rows| - 1], cols, tieBreak), Gold(rows[|rows| - 1], cols, tieBreak));
    }
  }

  /** Everything the three tallies have counted. */
  function Tallied(s: Stats): int {
    s.missing + s.ties + Sum(Values(s.counts))
  }

  /** Each gold value is counted by exactly one of the tallies. */
  lemma BumpedOnce(s: Stats, gold: Option<string>)
    ensures Tallied(Bumped(s, gold)) == Tallied(s) + 1
  {
    if gold.Some? && gold.value != "" && gold.value != Ambiguous {
      AddToSum(s.counts, gold.value, 1);
    }
  }

  /** `{k: r.get(k, '') for k in fieldnames}`. */
  function Project(r: Row, fieldnames: seq<string>): (out: Row) {
    if fieldnames == [] then []
    else
      var k := fieldnames[|fieldnames| - 1];
      Put(Project(r, fieldnames[..|fieldnames| - 1]), k, Lookup(r, k).GetOr(""))
  }

  /** A projected row has exactly the field names as keys, each holding the row's
      value or '' when the row lacks it. */
  lemma {:induction false} ProjectLookup(r: Row, fieldnames: seq<string>, k: string)
    ensures Lookup(Project(r, fieldnames), k)
      == if k in fieldnames then Some(Lookup(r, k).GetOr("")) else None
    decreases |fieldnames|
  {
    if fieldnames != [] {
      var init, last := fieldnames[..|fieldnames| - 1], fieldnames[|fieldnames| - 1];
      ProjectLookup(r, init, k);
      PutLookup(Project(r, init), last, Lookup(r, last).GetOr(""), k);
      assert k in fieldnames <==> k in init || k == last;
    }
  }

  /** `write_rows`: the rows as written, each projected onto the field names (the file
      itself is not modelled). */
  method WriteRows(rows: seq<Row>, fieldnames: seq<string>) returns (written: seq<Row>)
    ensures |written| == |rows|
    ensures forall i :: 0 <= i < |rows| ==> written[i] == Project(rows[i], fieldnames)
  {
    written := [];
    for i := 0 to |rows|
      invariant |written| == i
      invariant forall j :: 0 <= j < i ==> written[j] == Project(rows[j], fieldnames)
    {
      var out: Row := [];
      for q := 0 to |fieldnames|
        invariant out == Project(rows[i], fieldnames[..q])
      {
        assert fieldnames[..q + 1][..q] == fieldnames[..q];
        var k := fieldnames[q];
        out := Put(out, k, Lookup(rows[i], k).GetOr(""));
      }
      assert fieldnames[..|fieldnames|] == fieldnames;
      written := written + [out];
    }
  }
}
