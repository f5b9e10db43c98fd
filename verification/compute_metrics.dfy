/** `compute_metrics.py`: cleaning of gold and model label cells, the choice of the
    prediction column, and the benchmark loop that turns every `labels_*.csv` file into
    one summary row and one per-class row per allowed label. The classification
    report, MCC, alpha and `round(x, 4)` come from libraries and are parameters. */
module ComputeMetrics {
  import opened Wrappers
  import opened Seqs
  import opened Text
  import opened Cells
  import opened Json
  import opened Sorting

  const Others := "Others"
  const GoldColumn := "gold_label"
  const LabelsSuffix := "_labels"

  // ---------------------------------------------------------------- cells

  /** `clean_label(x)`: `None` and `NaN` become "Others", anything else its stripped
      `str()`. */
  function CleanLabel(x: Cell): (r: string)
    ensures IsStripped(r)
    ensures IsNa(x) ==> r == Others
    ensures x.Text? ==> r == Strip(x.s)
  {
    if IsNa(x) then Others else Strip(Str(x))
  }

  /** A decoded array item as `clean_label` sees it: JSON `null` is `None`, the `NaN`
      literal a float NaN, a string itself; any other value reaches `clean_label` only
      through `str()`, so it is carried as that text (`show` gives it, Python's `str` of
      the decoded number, list or dict). */
  function Element(j: Json, show: Json -> string): (c: Cell)
    ensures IsNa(c) <==> j == JNull || j == JNumber("NaN")
  {
    match j
      case JNull => Null
      case JString(s) => Text(s)
      case JBool(b) => Num(if b then "True" else "False")
      case _ => if j == JNumber("NaN") then NaN else Num(show(j))
  }

  /** `parse_model_labels_cell(cell)`: the first item of a JSON array cell, or the
      stripped cell text; "Others" for a missing or blank cell, an empty or non-list
      array value, and undecodable text. */
  function ParseModelLabelsCell(cell: Cell, show: Json -> string): (r: string)
    ensures IsStripped(r)
    ensures IsNa(cell) || Strip(Str(cell)) == [] ==> r == Others
  {
    if IsNa(cell) then Others
    else
      var s := Strip(Str(cell));
      if s == [] then Others
      else if StartsWith(s, "[") then FirstItem(Decode(s), show)
      else CleanLabel(Text(s))
  }

  /** The cleaned first item of a decoded list; "Others" when decoding failed, the value
      is not a list or the list is empty. */
  function FirstItem(decoded: Option<Json>, show: Json -> string): (r: string)
    ensures IsStripped(r)
  {
    match decoded
      case Some(JArray(items)) => if |items| > 0 then CleanLabel(Element(items[0], show)) else Others
      case _ => Others
  }

  /** Cleaning is idempotent: a cleaned label, cleaned again, is unchanged. */
  lemma CleanLabelIdempotent(x: Cell)
    ensures CleanLabel(Text(CleanLabel(x))) == CleanLabel(x)
  {
    StripStripped(CleanLabel(x));
  }

  /** A plain (non-bracketed) label cell is read as itself once stripped; in particular
      every stripped, non-empty label not starting with '[' is a fixed point. */
  lemma ParsePlainCell(s: string, show: Json -> string)
    requires Strip(s) != [] && Strip(s)[0] != '['
    ensures ParseModelLabelsCell(Text(s), show) == Strip(s)
  {
    var t := Strip(s);
    assert Str(Text(s)) == s;
    assert !StartsWith(t, "[") by {
      assert t[0] != '[';
    }
    assert ParseModelLabelsCell(Text(s), show) == CleanLabel(Text(t));
    StripStripped(t);
  }

  /** A stripped cell text opening with '[' is read as the first item of its JSON
      decoding. */
  lemma ParseBracketedCell(s: string, show: Json -> string)
    requires IsStripped(s) && s != [] && s[0] == '['
    ensures ParseModelLabelsCell(Text(s), show) == FirstItem(Decode(s), show)
  {
    StripStripped(s);
    assert Str(Text(s)) == s;
    assert StartsWith(s, "[") by {
      assert s[..1] == "[";
    }
  }

  /** The labels cell the labelling loop writes, `json.dumps(labels)`, reads back as its
      first label (stripped), or "Others" for an empty list. */
  lemma ParseEncodedCell(xs: seq<string>, show: Json -> string)
    ensures ParseModelLabelsCell(Text(EncodeStrings(xs)), show)
      == if xs == [] then Others else Strip(xs[0])
  {
    ParseBracketedCell(EncodeStrings(xs), show);
    EncodeStringsDecodes(xs);
    FirstString(xs, show);
  }

  /** The first item of a decoded list of strings is its first string, stripped. */
  lemma FirstString(xs: seq<string>, show: Json -> string)
    ensures FirstItem(Some(JArray(Strings(xs))), show) == if xs == [] then Others else Strip(xs[0])
  {
    if xs != [] {
      assert Strings(xs)[0] == JString(xs[0]);
    }
  }

  // ---------------------------------------------------------------- tables

  /** A table as `pd.read_csv` yields it: column names (made unique by pandas), the
      cells column by column, and the row count. */
  datatype Frame = Frame(columns: seq<string>, data: seq<seq<Cell>>, length: nat)

  predicate WellFormed(f: Frame) {
    |f.data| == |f.columns| && forall j :: 0 <= j < |f.data| ==> |f.data[j]| == f.length
  }

  /** `df[name]`. */
  function Column(f: Frame, name: string): (cells: seq<Cell>)
    requires WellFormed(f) && name in f.columns
    ensures |cells| == f.length
  {
    f.data[Position(f.columns, name)]
  }

  /** What the benchmark can fail with (the exceptions `main` raises). */
  datatype MetricsError =
    | MissingGoldColumn
    | NoModelFiles
    | RowMismatch(gold: nat, model: nat)
    | NoPredictionColumn(columns: seq<string>)

  function FirstEndingWith(columns: seq<string>, suffix: string): (r: Option<nat>)
    ensures r.Some? ==> r.value < |columns| && EndsWith(columns[r.value], suffix)
    ensures r.Some? ==> forall q :: 0 <= q < r.value ==> !EndsWith(columns[q], suffix)
    ensures r.None? ==> forall q :: 0 <= q < |columns| ==> !EndsWith(columns[q], suffix)
  {
    if columns == [] then None
    else if EndsWith(columns[0], suffix) then Some(0)
    else match FirstEndingWith(columns[1..], suffix)
      case None => None
      case Some(i) => Some(i + 1)
  }

  /** `find_pred_col(df)`: the first column, in column order, whose name ends with
      "_labels"; without one, the error naming every column. */
  function FindPredCol(columns: seq<string>): (r: Result<string, MetricsError>)
    ensures r.Ok? <==> exists q :: 0 <= q < |columns| && EndsWith(columns[q], LabelsSuffix)
    ensures r.Ok? ==> EndsWith(r.value, LabelsSuffix)
    ensures r.Ok? ==>
      exists q :: 0 <= q < |columns| && columns[q] == r.value && forall p :: 0 <= p < q ==> !EndsWith(columns[p], LabelsSuffix)
    ensures r.Err? ==> r.error == NoPredictionColumn(columns)
  {
    match FirstEndingWith(columns, LabelsSuffix)
      case Some(i) => Ok(columns[i])
      case None => Err(NoPredictionColumn(columns))
  }

  // ---------------------------------------------------------------- library results

  /** One class entry of `classification_report(..., output_dict=True)`. */
  datatype ClassReport = ClassReport(precision: Option<real>, recall: Option<real>, f1: Option<real>, support: Option<nat>)

  /** The report: per-label entries plus the macro and weighted averages' F1. */
  datatype Report = Report(classes: map<string, ClassReport>, macroF1: real, weightedF1: real)

  /** The library calls of the loop: the classification report over the allowed labels,
      `matthews_corrcoef`, `krippendorff.alpha` on the two label lists, `round(x, 4)`,
      and Python's `str` of a decoded JSON number, list or dict. They are total here:
      the model assumes they return, although `krippendorff.alpha` raises when the two
      label lists hold a single value between them. */
  datatype Library = Library(
    report: (seq<string>, seq<string>, seq<string>) -> Report,
    mcc: (seq<string>, seq<string>) -> real,
    alpha: (seq<string>, seq<string>) -> real,
    round4: real -> real,
    show: Json -> string)

  datatype SummaryRow = SummaryRow(model: string, samples: nat, alpha: real, macroF1: real, weightedF1: real, mcc: real)
  datatype PerClassRow = PerClassRow(model: string, classLabel: string, precision: real, recall: real, f1: real, support: nat)

  /** A file of the outputs directory: its name and its table. */
  datatype ModelFile = ModelFile(name: string, frame: Frame)

  /** `MODEL_DIR.glob("labels_*.csv")`. */
  predicate Matches(f: ModelFile) {
    |f.name| >= 11 && StartsWith(f.name, "labels_") && EndsWith(f.name, ".csv")
  }

  predicate NameOrder(a: ModelFile, b: ModelFile) {
    LessEq(a.name, b.name)
  }

  /** `sorted(...)` of the matching files. */
  function ModelFiles(listing: seq<ModelFile>): seq<ModelFile> {
    SortBy(Filter(listing, Matches), NameOrder)
  }

  /** The file stem with every "labels_" removed. */
  function Tag(f: ModelFile): string
    requires Matches(f)
  {
    ReplaceAll(f.name[..|f.name| - 4], "labels_", "")
  }

  /** `report.get(lbl, {})`. */
  function Entry(report: Report, lbl: string): ClassReport {
    if lbl in report.classes then report.classes[lbl] else ClassReport(None, None, None, None)
  }

  /** The per-class row of one label, missing entries read as 0.0 (support 0). */
  function ClassRow(tag: string, lbl: string, report: Report, lib: Library): PerClassRow {
    var e := Entry(report, lbl);
    PerClassRow(tag, lbl, lib.round4(e.precision.GetOr(0.0)), lib.round4(e.recall.GetOr(0.0)),
      lib.round4(e.f1.GetOr(0.0)), e.support.GetOr(0))
  }

  /** The evaluation of one model file: the row-count guard, the prediction column,
      the cleaned predictions and the rows built from the library results. */
  function EvaluateFile(goldClean: seq<string>, f: ModelFile, allowed: seq<string>, lib: Library)
    : Result<(SummaryRow, seq<PerClassRow>), MetricsError>
    requires WellFormed(f.frame) && Matches(f)
  {
    if |goldClean| != f.frame.length then Err(RowMismatch(|goldClean|, f.frame.length))
    else match FindPredCol(f.frame.columns)
      case Err(e) => Err(e)
      case Ok(col) =>
        var yPred := Predictions(Column(f.frame, col), lib.show);
        var report := lib.report(goldClean, yPred, allowed);
        var tag := Tag(f);
        var summary := SummaryRow(tag, |goldClean|, lib.round4(lib.alpha(goldClean, yPred)),
          lib.round4(report.macroF1), lib.round4(report.weightedF1), lib.round4(lib.mcc(goldClean, yPred)));
        Ok((summary, ClassRows(tag, allowed, report, lib)))
  }

  /** `model_df[pred_col].apply(parse_model_labels_cell)`. */
  function Predictions(cells: seq<Cell>, show: Json -> string): (r: seq<string>)
    ensures |r| == |cells| && forall i :: 0 <= i < |cells| ==> r[i] == ParseModelLabelsCell(cells[i], show)
  {
    seq(|cells|, i requires 0 <= i < |cells| => ParseModelLabelsCell(cells[i], show))
  }

  /** One per-class row per allowed label, in the allowed labels' order. */
  function ClassRows(tag: string, allowed: seq<string>, report: Report, lib: Library): (rows: seq<PerClassRow>)
    ensures |rows| == |allowed| && forall j :: 0 <= j < |allowed| ==> rows[j] == ClassRow(tag, allowed[j], report, lib)
  {
    seq(|allowed|, j requires 0 <= j < |allowed| => ClassRow(tag, allowed[j], report, lib))
  }

  predicate FilesWellFormed(files: seq<ModelFile>) {
    forall i :: 0 <= i < |files| ==> WellFormed(files[i].frame) && Matches(files[i])
  }

  /** What one file contributes: its summary row and its per-class rows, or an error. */
  type Outcome = Result<(SummaryRow, seq<PerClassRow>), MetricsError>

  /** The evaluation of every file, in file order. */
  function Outcomes(goldClean: seq<string>, files: seq<ModelFile>, allowed: seq<string>, lib: Library)
    : (r: seq<Outcome>)
    requires FilesWellFormed(files)
    ensures |r| == |files| && forall i :: 0 <= i < |files| ==> r[i] == EvaluateFile(goldClean, files[i], allowed, lib)
  {
    seq(|files|, i requires 0 <= i < |files| => EvaluateFile(goldClean, files[i], allowed, lib))
  }

  /** The loop over the files: the first failure aborts it, otherwise every file adds
      its summary row and its per-class rows, in file order. */
  function Collect(outs: seq<Outcome>): Result<(seq<SummaryRow>, seq<PerClassRow>), MetricsError> {
    if outs == [] then Ok(([], []))
    else
      match Collect(outs[..|outs| - 1])
        case Err(e) => Err(e)
        case Ok((summary, perClass)) =>
          match outs[|outs| - 1]
            case Err(e) => Err(e)
            case Ok((row, rows)) => Ok((summary + [row], perClass + rows))
  }

  predicate MacroAtLeast(a: SummaryRow, b: SummaryRow) {
    a.macroF1 >= b.macroF1
  }

  /** The two tables `main` writes: the summary, by macro-F1 from highest, and the
      per-class rows. */
  datatype Outputs = Outputs(summary: seq<SummaryRow>, perClass: seq<PerClassRow>)

  predicate ListingWellFormed(listing: seq<ModelFile>) {
    forall i :: 0 <= i < |listing| ==> WellFormed(listing[i].frame)
  }

  /** `gold[GOLD_COL].apply(clean_label)`. */
  function CleanAll(cells: seq<Cell>): (r: seq<string>)
    ensures |r| == |cells| && forall i :: 0 <= i < |cells| ==> r[i] == CleanLabel(cells[i])
  {
    seq(|cells|, i requires 0 <= i < |cells| => CleanLabel(cells[i]))
  }

  /** `main` of the benchmark, minus reading and writing files. */
  function Benchmark(gold: Frame, listing: seq<ModelFile>, allowed: seq<string>, lib: Library)
    : Result<Outputs, MetricsError>
    requires WellFormed(gold) && ListingWellFormed(listing)
  {
    if GoldColumn !in gold.columns then Err(MissingGoldColumn)
    else
      var goldClean := CleanAll(Column(gold, GoldColumn));
      var files := ModelFiles(listing);
      ModelFilesWellFormed(listing);
      if files == [] then Err(NoModelFiles)
      else match Collect(Outcomes(goldClean, files, allowed, lib))
        case Err(e) => Err(e)
        case Ok((summary, perClass)) => Ok(Outputs(SortBy(summary, MacroAtLeast), perClass))
  }

  // ---------------------------------------------------------------- selection

  lemma NameOrderTotal()
    ensures Total(NameOrder) && Transitive(NameOrder)
  {
    forall a, b ensures NameOrder(a, b) || NameOrder(b, a) {
      LessTrichotomy(a.name, b.name);
    }
    forall a, b, c | NameOrder(a, b) && NameOrder(b, c) ensures NameOrder(a, c) {
      if a.name != b.name && b.name != c.name {
        LessTransitive(a.name, b.name, c.name);
      }
    }
  }

  /** The files evaluated are exactly the matching ones (as a multiset), in name order. */
  lemma ModelFilesSelected(listing: seq<ModelFile>)
    ensures multiset(ModelFiles(listing)) == multiset(Filter(listing, Matches))
    ensures forall f :: f in ModelFiles(listing) <==> f in listing && Matches(f)
    ensures SortedBy(ModelFiles(listing), NameOrder)
  {
    NameOrderTotal();
    SortBySorted(Filter(listing, Matches), NameOrder);
    FilterMembers(listing, Matches);
    var s := ModelFiles(listing);
    forall f ensures f in s <==> f in Filter(listing, Matches) {
      assert f in s <==> f in multiset(s);
      assert f in Filter(listing, Matches) <==> f in multiset(Filter(listing, Matches));
    }
  }

  lemma ModelFilesWellFormed(listing: seq<ModelFile>)
    requires ListingWellFormed(listing)
    ensures FilesWellFormed(ModelFiles(listing))
  {
    ModelFilesSelected(listing);
    var s := ModelFiles(listing);
    forall i | 0 <= i < |s| ensures WellFormed(s[i].frame) && Matches(s[i]) {
      assert s[i] in s;
    }
  }

  // ---------------------------------------------------------------- methods

  /** The body of the file loop. */
  method EvaluateModelFile(goldClean: seq<string>, f: ModelFile, allowed: seq<string>, lib: Library)
    returns (r: Outcome)
    requires WellFormed(f.frame) && Matches(f)
    ensures r == EvaluateFile(goldClean, f, allowed, lib)
  {
    if |goldClean| != f.frame.length {
      return Err(RowMismatch(|goldClean|, f.frame.length));
    }
    var found := FindPredCol(f.frame.columns);
    if found.Err? {
      return Err(found.error);
    }
    var yPred := Predictions(Column(f.frame, found.value), lib.show);
    var report := lib.report(goldClean, yPred, allowed);
    var tag := Tag(f);
    var summary := SummaryRow(tag, |goldClean|, lib.round4(lib.alpha(goldClean, yPred)),
      lib.round4(report.macroF1), lib.round4(report.weightedF1), lib.round4(lib.mcc(goldClean, yPred)));
    var perClass: seq<PerClassRow> := [];
    for j := 0 to |allowed|
      invariant |perClass| == j
      invariant forall q :: 0 <= q < j ==> perClass[q] == ClassRow(tag, allowed[q], report, lib)
    {
      perClass := perClass + [ClassRow(tag, allowed[j], report, lib)];
    }
    assert perClass == ClassRows(tag, allowed, report, lib);
    return Ok((summary, perClass));
  }

  /** Once a prefix of the outcomes fails, the whole loop fails with the same error. */
  lemma {:induction false} CollectAborts(outs: seq<Outcome>, n: nat)
    requires n <= |outs| && Collect(outs[..n]).Err?
    ensures Collect(outs) == Collect(outs[..n])
    decreases |outs|
  {
    if n < |outs| {
      var init := outs[..|outs| - 1];
      assert init[..n] == outs[..n];
      CollectAborts(init, n);
    } else {
      assert outs[..n] == outs;
    }
  }

  /** `main`: the guards, then one evaluation per file in name order, then the sorted
      summary. */
  method RunBenchmark(gold: Frame, listing: seq<ModelFile>, allowed: seq<string>, lib: Library)
    returns (r: Result<Outputs, MetricsError>)
    requires WellFormed(gold) && ListingWellFormed(listing)
    ensures r == Benchmark(gold, listing, allowed, lib)
  {
    if GoldColumn !in gold.columns {
      return Err(MissingGoldColumn);
    }
    var goldClean := CleanAll(Column(gold, GoldColumn));
    var files := ModelFiles(listing);
    ModelFilesWellFormed(listing);
    if files == [] {
      return Err(NoModelFiles);
    }
    ghost var outs := Outcomes(goldClean, files, allowed, lib);
    var summary: seq<SummaryRow> := [];
    var perClass: seq<PerClassRow> := [];
    for i := 0 to |files|
      invariant Collect(outs[..i]) == Ok((summary, perClass))
    {
      assert outs[..i + 1][..i] == outs[..i];
      var out := EvaluateModelFile(goldClean, files[i], allowed, lib);
      if out.Err? {
        CollectAborts(outs, i + 1);
        return Err(out.error);
      }
      summary := summary + [out.value.0];
      perClass := perClass + out.value.1;
    }
    assert outs[..|files|] == outs;
    return Ok(Outputs(SortBy(summary, MacroAtLeast), perClass));
  }

  // ---------------------------------------------------------------- properties

  /** A missing report entry gives the row of zeros (each through `round`). */
  lemma ClassRowMissing(tag: string, lbl: string, report: Report, lib: Library)
    requires lbl !in report.classes
    ensures var row := ClassRow(tag, lbl, report, lib);
      row.precision == lib.round4(0.0) && row.recall == lib.round4(0.0) && row.f1 == lib.round4(0.0)
      && row.support == 0 && row.model == tag && row.classLabel == lbl
  {
  }

  /** One file evaluates exactly when its row count matches the gold file's and it has a
      prediction column; it then yields a summary row over all gold rows and one row per
      allowed label, in order, all under the file's tag. */
  lemma EvaluateFileShape(goldClean: seq<string>, f: ModelFile, allowed: seq<string>, lib: Library)
    requires WellFormed(f.frame) && Matches(f)
    ensures var r := EvaluateFile(goldClean, f, allowed, lib);
      && (r.Ok? <==> |goldClean| == f.frame.length && FindPredCol(f.frame.columns).Ok?)
      && (|goldClean| != f.frame.length ==> r == Err(RowMismatch(|goldClean|, f.frame.length)))
      && (r.Ok? ==> (r.value.0.model == Tag(f) && r.value.0.samples == |goldClean|
            && |r.value.1| == |allowed|
            && forall j :: 0 <= j < |allowed| ==>
                 r.value.1[j].model == Tag(f) && r.value.1[j].classLabel == allowed[j]))
  {
  }

  /** The loop succeeds exactly when every file does. */
  lemma {:induction false} CollectOk(outs: seq<Outcome>)
    ensures Collect(outs).Ok? <==> forall i :: 0 <= i < |outs| ==> outs[i].Ok?
    decreases |outs|
  {
    if outs != [] {
      var init := outs[..|outs| - 1];
      CollectOk(init);
      assert forall i :: 0 <= i < |init| ==> init[i] == outs[i];
    }
  }

  /** When the outcomes before position `i` succeed and outcome `i` fails, the loop
      stops with outcome `i`'s error: later files are never read. */
  lemma CollectFirstError(outs: seq<Outcome>, i: nat)
    requires i < |outs| && outs[i].Err?
    requires forall j :: 0 <= j < i ==> outs[j].Ok?
    ensures Collect(outs) == Err(outs[i].error)
  {
    var pre := outs[..i];
    assert outs[..i + 1][..i] == pre;
    CollectOk(pre);
    CollectAborts(outs, i + 1);
  }

  /** Where block `i` starts when every block has `k` rows: `i * k`, written as repeated
      addition so that the layout proofs stay linear. */
  function Offset(i: nat, k: nat): nat {
    if i == 0 then 0 else Offset(i - 1, k) + k
  }

  /** Where row `j` of block `i` lies: `i * k + j`. */
  function Slot(i: nat, j: nat, k: nat): nat {
    Offset(i, k) + j
  }

  lemma {:induction false} OffsetProduct(i: nat, k: nat)
    ensures Offset(i, k) == i * k
  {
    if i > 0 {
      OffsetProduct(i - 1, k);
      assert i * k == (i - 1) * k + k;
    }
  }

  /** Row `j` of block `i` lies before the end of block `m - 1`. */
  lemma {:induction false} BlockIndex(i: nat, j: nat, k: nat, m: nat)
    requires i < m && j < k
    ensures Slot(i, j, k) < Offset(m, k)
  {
    if i + 1 < m {
      BlockIndex(i, j, k, m - 1);
    }
  }

  /** A successful loop whose outcomes each carry `k` per-class rows gives one summary
      row per outcome, in order, and `k` per-class rows per outcome. */
  lemma {:induction false} CollectRows(outs: seq<Outcome>, k: nat)
    requires Collect(outs).Ok?
    requires forall i :: 0 <= i < |outs| ==> outs[i].Ok? ==> |outs[i].value.1| == k
    ensures var out := Collect(outs).value;
      && (forall i :: 0 <= i < |outs| ==> outs[i].Ok?)
      && |out.0| == |outs|
      && (forall i :: 0 <= i < |outs| ==> out.0[i] == outs[i].value.0)
      && |out.1| == Offset(|outs|, k)
    decreases |outs|
  {
    CollectOk(outs);
    if outs != [] {
      var n := |outs|;
      var init := outs[..n - 1];
      assert forall i :: 0 <= i < n - 1 ==> init[i] == outs[i];
      CollectRows(init, k);
      var prev := Collect(init).value;
      var last := outs[n - 1].value;
      assert Collect(outs).value == (prev.0 + [last.0], prev.1 + last.1);
    }
  }

  /** Per-class row `Slot(i, j, k)` of a successful loop is row `j` of outcome `i`. */
  lemma {:induction false} CollectRowAt(outs: seq<Outcome>, k: nat, i: nat, j: nat)
    requires Collect(outs).Ok?
    requires forall i :: 0 <= i < |outs| ==> outs[i].Ok? ==> |outs[i].value.1| == k
    requires i < |outs| && j < k
    ensures outs[i].Ok? && Slot(i, j, k) < |Collect(outs).value.1|
      && Collect(outs).value.1[Slot(i, j, k)] == outs[i].value.1[j]
    decreases |outs|
  {
    CollectRows(outs, k);
    var n := |outs|;
    var init := outs[..n - 1];
    assert forall q :: 0 <= q < n - 1 ==> init[q] == outs[q];
    CollectRows(init, k);
    var prev := Collect(init).value;
    var last := outs[n - 1].value;
    assert Collect(outs).value == (prev.0 + [last.0], prev.1 + last.1);
    if i < n - 1 {
      CollectRowAt(init, k, i, j);
      BlockIndex(i, j, k, n - 1);
    }
  }

  lemma MacroOrder()
    ensures Total(MacroAtLeast) && Transitive(MacroAtLeast)
  {
  }

  /** `main` succeeds exactly when the gold file has `gold_label`, some `labels_*.csv`
      file exists, and every such file has the gold file's row count and a prediction
      column. */
  lemma BenchmarkGuards(gold: Frame, listing: seq<ModelFile>, allowed: seq<string>, lib: Library)
    requires WellFormed(gold) && ListingWellFormed(listing)
    ensures var files := ModelFiles(listing);
      Benchmark(gold, listing, allowed, lib).Ok?
      <==> (GoldColumn in gold.columns && files != []
        && forall i :: 0 <= i < |files| ==>
             files[i].frame.length == gold.length && FindPredCol(files[i].frame.columns).Ok?)
  {
    var files := ModelFiles(listing);
    ModelFilesWellFormed(listing);
    if GoldColumn in gold.columns && files != [] {
      var goldClean := CleanAll(Column(gold, GoldColumn));
      var outs := Outcomes(goldClean, files, allowed, lib);
      CollectOk(outs);
      forall i | 0 <= i < |files|
        ensures outs[i].Ok? <==> files[i].frame.length == gold.length && FindPredCol(files[i].frame.columns).Ok?
      {
        EvaluateFileShape(goldClean, files[i], allowed, lib);
      }
    }
  }

  /** A row-count mismatch in the first file (in name order) that breaks a guard aborts
      the run with that mismatch, before any metric of that file is produced. */
  lemma BenchmarkRowMismatch(gold: Frame, listing: seq<ModelFile>, allowed: seq<string>, lib: Library, i: nat)
    requires WellFormed(gold) && ListingWellFormed(listing) && GoldColumn in gold.columns
    requires i < |ModelFiles(listing)|
    requires forall j :: 0 <= j < i ==>
      ModelFiles(listing)[j].frame.length == gold.length && FindPredCol(ModelFiles(listing)[j].frame.columns).Ok?
    requires ModelFiles(listing)[i].frame.length != gold.length
    ensures Benchmark(gold, listing, allowed, lib)
      == Err(RowMismatch(gold.length, ModelFiles(listing)[i].frame.length))
  {
    var files := ModelFiles(listing);
    ModelFilesWellFormed(listing);
    var goldClean := CleanAll(Column(gold, GoldColumn));
    var outs := Outcomes(goldClean, files, allowed, lib);
    forall j | 0 <= j < i ensures outs[j].Ok? {
      EvaluateFileShape(goldClean, files[j], allowed, lib);
    }
    EvaluateFileShape(goldClean, files[i], allowed, lib);
    CollectFirstError(outs, i);
  }

  /** The successful run, read through the outcomes of its files. */
  lemma BenchmarkCollect(gold: Frame, listing: seq<ModelFile>, allowed: seq<string>, lib: Library)
    requires WellFormed(gold) && ListingWellFormed(listing)
    requires Benchmark(gold, listing, allowed, lib).Ok?
    ensures GoldColumn in gold.columns && FilesWellFormed(ModelFiles(listing))
    ensures var outs := Outcomes(CleanAll(Column(gold, GoldColumn)), ModelFiles(listing), allowed, lib);
      && Collect(outs).Ok?
      && Benchmark(gold, listing, allowed, lib).value
         == Outputs(SortBy(Collect(outs).value.0, MacroAtLeast), Collect(outs).value.1)
      && (forall i :: 0 <= i < |outs| ==> outs[i].Ok? ==>
            (outs[i].value.0.samples == gold.length && |outs[i].value.1| == |allowed|))
      && (forall i :: 0 <= i < |outs| && outs[i].Ok? ==>
            Tagged(outs[i].value.1, Tag(ModelFiles(listing)[i]), allowed))
  {
    ModelFilesWellFormed(listing);
    var files := ModelFiles(listing);
    var goldClean := CleanAll(Column(gold, GoldColumn));
    var outs := Outcomes(goldClean, files, allowed, lib);
    forall i | 0 <= i < |outs| ensures outs[i].Ok? ==>
      (outs[i].value.0.samples == gold.length && |outs[i].value.1| == |allowed|)
    {
      EvaluateFileShape(goldClean, files[i], allowed, lib);
    }
    forall i | 0 <= i < |outs| && outs[i].Ok? ensures Tagged(outs[i].value.1, Tag(files[i]), allowed) {
      EvaluateFileShape(goldClean, files[i], allowed, lib);
    }
  }

  /** The summary rows of outcomes that all succeeded, in order. */
  function SummaryRows(outs: seq<Outcome>): (rows: seq<SummaryRow>)
    requires forall i :: 0 <= i < |outs| ==> outs[i].Ok?
    ensures |rows| == |outs| && forall i :: 0 <= i < |outs| ==> rows[i] == outs[i].value.0
  {
    seq(|outs|, i requires 0 <= i < |outs| => outs[i].value.0)
  }

  /** Sorting the summary by macro-F1 keeps its rows and orders them from highest. */
  lemma SortSummary(rows: seq<SummaryRow>)
    ensures multiset(SortBy(rows, MacroAtLeast)) == multiset(rows)
    ensures SortedBy(SortBy(rows, MacroAtLeast), MacroAtLeast)
    ensures forall r :: r in SortBy(rows, MacroAtLeast) ==> r in rows
  {
    MacroOrder();
    SortBySorted(rows, MacroAtLeast);
    forall r | r in SortBy(rows, MacroAtLeast) ensures r in rows {
      assert r in multiset(SortBy(rows, MacroAtLeast));
    }
  }

  /** On success the summary is the files' summary rows (one per file in name order,
      each over every gold row) reordered by macro-F1 from highest to lowest. */
  lemma BenchmarkSummary(gold: Frame, listing: seq<ModelFile>, allowed: seq<string>, lib: Library)
    requires WellFormed(gold) && ListingWellFormed(listing)
    requires Benchmark(gold, listing, allowed, lib).Ok?
    ensures GoldColumn in gold.columns && FilesWellFormed(ModelFiles(listing))
    ensures var summary := Benchmark(gold, listing, allowed, lib).value.summary;
      var outs := Outcomes(CleanAll(Column(gold, GoldColumn)), ModelFiles(listing), allowed, lib);
      && (forall i :: 0 <= i < |outs| ==> outs[i].Ok?)
      && multiset(summary) == multiset(SummaryRows(outs))
      && SortedBy(summary, MacroAtLeast)
      && forall r :: r in summary ==> r.samples == gold.length
  {
    BenchmarkCollect(gold, listing, allowed, lib);
    var outs := Outcomes(CleanAll(Column(gold, GoldColumn)), ModelFiles(listing), allowed, lib);
    CollectRows(outs, |allowed|);
    var rows := Collect(outs).value.0;
    assert rows == SummaryRows(outs);
    SortSummary(rows);
  }

  /** The tags of the files, in file order. */
  function Tags(files: seq<ModelFile>): (tags: seq<string>)
    requires FilesWellFormed(files)
    ensures |tags| == |files| && forall i :: 0 <= i < |files| ==> tags[i] == Tag(files[i])
  {
    seq(|files|, i requires 0 <= i < |files| => Tag(files[i]))
  }

  /** `rows` is one block of `|allowed|` rows per tag, in order: row `Slot(i, j, k)`
      (that is, `i * k + j`) is allowed label `j` under tag `i`. */
  predicate BlockLayout(rows: seq<PerClassRow>, tags: seq<string>, allowed: seq<string>) {
    && |rows| == Offset(|tags|, |allowed|)
    && forall i, j :: 0 <= i < |tags| && 0 <= j < |allowed| ==>
         && Slot(i, j, |allowed|) < |rows|
         && rows[Slot(i, j, |allowed|)].model == tags[i]
         && rows[Slot(i, j, |allowed|)].classLabel == allowed[j]
  }

  /** One block of per-class rows: the allowed labels in order, all under `tag`. */
  predicate Tagged(rows: seq<PerClassRow>, tag: string, allowed: seq<string>) {
    |rows| == |allowed| && forall j :: 0 <= j < |rows| ==> rows[j].model == tag && rows[j].classLabel == allowed[j]
  }

  /** Outcomes whose blocks each list the allowed labels under their own tag collect
      into a block layout. */
  lemma CollectBlocks(outs: seq<Outcome>, tags: seq<string>, allowed: seq<string>)
    requires Collect(outs).Ok? && |tags| == |outs|
    requires forall i :: 0 <= i < |outs| && outs[i].Ok? ==> Tagged(outs[i].value.1, tags[i], allowed)
    ensures BlockLayout(Collect(outs).value.1, tags, allowed)
  {
    var k := |allowed|;
    CollectOk(outs);
    assert forall i :: 0 <= i < |outs| ==> outs[i].Ok? ==> |outs[i].value.1| == k;
    CollectRows(outs, k);
    var perClass := Collect(outs).value.1;
    forall i, j | 0 <= i < |tags| && 0 <= j < k
      ensures Slot(i, j, k) < |perClass| && perClass[Slot(i, j, k)].model == tags[i]
        && perClass[Slot(i, j, k)].classLabel == allowed[j]
    {
      CollectRowAt(outs, k, i, j);
      assert Tagged(outs[i].value.1, tags[i], allowed);
    }
  }

  /** On success the per-class table holds, for file `i` in name order and allowed label
      `j`, that label's row under the file's tag at position `Slot(i, j, k)` (k allowed
      labels). */
  lemma BenchmarkPerClass(gold: Frame, listing: seq<ModelFile>, allowed: seq<string>, lib: Library)
    requires WellFormed(gold) && ListingWellFormed(listing)
    requires Benchmark(gold, listing, allowed, lib).Ok?
    ensures FilesWellFormed(ModelFiles(listing))
    ensures BlockLayout(Benchmark(gold, listing, allowed, lib).value.perClass, Tags(ModelFiles(listing)), allowed)
  {
    BenchmarkCollect(gold, listing, allowed, lib);
    var files := ModelFiles(listing);
    var outs := Outcomes(CleanAll(Column(gold, GoldColumn)), files, allowed, lib);
    CollectBlocks(outs, Tags(files), allowed);
  }
}
