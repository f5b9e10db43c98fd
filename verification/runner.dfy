/** `runner.py`: `label_dataframe_with_model` asks a model for every row of a copy of the
    table and stores the raw answer and the parsed labels (as JSON text) in two new
    columns. The model call is a parameter that answers or fails. */
module Runner {
  import opened Wrappers
  import opened Seqs
  import opened Text
  import opened Cells
  import opened Json
  import opened LabelParser
  import ComputeMetrics

  /** What one model call gives: a raised exception, or the returned value (`None` or
      text). */
  datatype Reply = Failed | Replied(text: Option<string>)

  /** What makes the function raise: the text column is missing from a non-empty table
      (`df.iloc[i][text_col]` is read outside the `try`). */
  datatype RunnerError = MissingTextColumn(name: string)

  /** `n` copies of `v`: a column set to one value. */
  function Filled(n: nat, v: Cell): (cells: seq<Cell>)
    ensures |cells| == n && forall i :: 0 <= i < n ==> cells[i] == v
  {
    seq(n, _ => v)
  }

  /** A pandas table, column by column, updated in place. */
  class Table {
    var columns: seq<string>
    var data: seq<seq<Cell>>
    var length: nat

    ghost predicate Valid()
      reads this
    {
      |data| == |columns| && forall j :: 0 <= j < |data| ==> |data[j]| == length
    }

    /** `df.copy()`. */
    constructor Copy(src: Table)
      requires src.Valid()
      ensures Valid() && columns == src.columns && data == src.data && length == src.length
    {
      columns := src.columns;
      data := src.data;
      length := src.length;
    }

    /** `df.iloc[i][name]`. */
    function Get(i: nat, name: string): Cell
      reads this
      requires Valid() && name in columns && i < length
    {
      data[Position(columns, name)][i]
    }

    /** `df[name] = v`: overwrites an existing column, or appends a new one. */
    method SetColumn(name: string, v: Cell)
      requires Valid()
      modifies this
      ensures Valid() && length == old(length)
      ensures columns == WithColumn(old(columns), name)
      ensures name in old(columns) ==>
        data == old(data)[Position(old(columns), name) := Filled(length, v)]
      ensures name !in old(columns) ==> data == old(data) + [Filled(length, v)]
    {
      if name in columns {
        data := data[Position(columns, name) := Filled(length, v)];
      } else {
        columns := columns + [name];
        data := data + [Filled(length, v)];
      }
    }

    /** `df.at[i, name] = v`. */
    method SetCell(i: nat, name: string, v: Cell)
      requires Valid() && name in columns && i < length
      modifies this
      ensures Valid() && columns == old(columns) && length == old(length)
      ensures var p := Position(columns, name); data == old(data)[p := old(data)[p][i := v]]
    {
      var p := Position(columns, name);
      data := data[p := data[p][i := v]];
    }
  }

  /** The column names after `df[name] = ...`. */
  function WithColumn(columns: seq<string>, name: string): (r: seq<string>)
    ensures name in r && forall c :: c in columns ==> c in r
  {
    if name in columns then columns else columns + [name]
  }

  function RawColumn(vendor: string, modelName: string): string {
    vendor + "_" + modelName + "_raw"
  }

  function LabelsColumn(vendor: string, modelName: string): string {
    vendor + "_" + modelName + "_labels"
  }

  /** The parsed labels of a reply: none when the call failed. */
  function ReplyLabels(reply: Reply, vocab: seq<string>): seq<string> {
    match reply
      case Failed => []
      case Replied(text) => Labels(text, vocab)
  }

  /** The raw cell of a row: the returned value, or "" when the call failed. */
  function RawCell(reply: Reply): Cell {
    match reply
      case Failed => Text("")
      case Replied(text) => if text.Some? then Text(text.value) else Null
  }

  /** The labels cell of a row: `json.dumps(labels)`, "[]" when the call failed. */
  function LabelsCell(reply: Reply, vocab: seq<string>): Cell {
    Text(EncodeStrings(ReplyLabels(reply, vocab)))
  }

  /** The review handed to the model for row `i`. Reading the text column of the copy
      sees the original cell, unless the text column is one of the two new columns,
      whose row `i` still holds `None` at that point. */
  function Review(df: Table, textCol: string, rawCol: string, labelsCol: string, i: nat): string
    reads df
    requires df.Valid() && i < df.length && textCol in WithColumn(WithColumn(df.columns, rawCol), labelsCol)
  {
    if textCol == rawCol || textCol == labelsCol then Str(Null) else Str(df.Get(i, textCol))
  }

  /** Setting column `name` leaves every other column where it was, with its cells. */
  lemma SetColumnKeeps(cols: seq<string>, data: seq<seq<Cell>>, name: string, v: Cell,
                       cols': seq<string>, data': seq<seq<Cell>>, n: nat, c: string)
    requires |data| == |cols| && c in cols && c != name && cols' == WithColumn(cols, name)
    requires name in cols ==> data' == data[Position(cols, name) := Filled(n, v)]
    requires name !in cols ==> data' == data + [Filled(n, v)]
    ensures c in cols' && Position(cols', c) == Position(cols, c)
    ensures Position(cols, c) < |data'| && data'[Position(cols, c)] == data[Position(cols, c)]
  {
    if name !in cols {
      PositionAppend(cols, name, c);
    }
  }

  // ---------------------------------------------------------------- the loop

  /** `df[raw_col] = None` and `df[labels_col] = None` on the copy. */
  method AddModelColumns(out: Table, rawCol: string, labelsCol: string)
    requires out.Valid() && rawCol != labelsCol
    modifies out
    ensures out.Valid() && out.length == old(out.length)
    ensures out.columns == WithColumn(WithColumn(old(out.columns), rawCol), labelsCol)
    ensures forall c :: c in old(out.columns) && c != rawCol && c != labelsCol ==>
      Position(out.columns, c) == Position(old(out.columns), c)
      && out.data[Position(out.columns, c)] == old(out.data)[Position(old(out.columns), c)]
    ensures out.data[Position(out.columns, rawCol)] == Filled(out.length, Null)
    ensures out.data[Position(out.columns, labelsCol)] == Filled(out.length, Null)
  {
    ghost var cols0, data0 := out.columns, out.data;
    out.SetColumn(rawCol, Null);
    ghost var cols1, data1 := out.columns, out.data;
    out.SetColumn(labelsCol, Null);
    forall c | c in cols0 && c != rawCol && c != labelsCol
      ensures Position(out.columns, c) == Position(cols0, c)
      ensures out.data[Position(out.columns, c)] == data0[Position(cols0, c)]
    {
      SetColumnKeeps(cols0, data0, rawCol, Null, cols1, data1, out.length, c);
      SetColumnKeeps(cols1, data1, labelsCol, Null, out.columns, out.data, out.length, c);
    }
    SetColumnKeeps(cols1, data1, labelsCol, Null, out.columns, out.data, out.length, rawCol);
  }

  /** What call `i` answers: the model asked about row `i`'s review. */
  function Answer(df: Table, textCol: string, rawCol: string, labelsCol: string,
                  modelName: string, call: (nat, string, string) -> Reply, i: nat): Reply
    reads df
    requires df.Valid() && i < df.length && textCol in WithColumn(WithColumn(df.columns, rawCol), labelsCol)
  {
    call(i, modelName, Review(df, textCol, rawCol, labelsCol, i))
  }

  /** The body of one iteration: parse the reply and store both cells of row `i`. */
  method StoreRow(out: Table, i: nat, rawCol: string, labelsCol: string, reply: Reply, vocab: seq<string>)
    requires out.Valid() && rawCol in out.columns && labelsCol in out.columns && i < out.length
    requires rawCol != labelsCol
    modifies out
    ensures out.Valid() && out.columns == old(out.columns) && out.length == old(out.length)
    ensures var rp, lp := Position(out.columns, rawCol), Position(out.columns, labelsCol);
      && (forall j :: 0 <= j < |out.columns| && j != rp && j != lp ==> out.data[j] == old(out.data)[j])
      && out.data[rp] == old(out.data)[rp][i := RawCell(reply)]
      && out.data[lp] == old(out.data)[lp][i := LabelsCell(reply, vocab)]
  {
    var raw: Cell;
    var labels: seq<string>;
    if reply.Failed? {
      raw := Text("");
      labels := [];
    } else {
      raw := if reply.text.Some? then Text(reply.text.value) else Null;
      labels := ParseLabels(reply.text, vocab);
    }
    out.SetCell(i, rawCol, raw);
    out.SetCell(i, labelsCol, Text(EncodeStrings(labels)));
  }

  /** The row loop: row `i` gets call `i`'s raw answer and its labels as JSON; no other
      cell changes. */
  method FillRows(out: Table, df: Table, textCol: string, rawCol: string, labelsCol: string,
                  modelName: string, call: (nat, string, string) -> Reply, vocab: seq<string>)
    requires out != df && out.Valid() && df.Valid() && out.length == df.length && rawCol != labelsCol
    requires out.columns == WithColumn(WithColumn(df.columns, rawCol), labelsCol)
    requires out.length > 0 ==> textCol in out.columns
    requires textCol in df.columns && textCol != rawCol && textCol != labelsCol ==>
      out.data[Position(out.columns, textCol)] == df.data[Position(df.columns, textCol)]
    requires out.data[Position(out.columns, rawCol)] == Filled(out.length, Null)
    requires out.data[Position(out.columns, labelsCol)] == Filled(out.length, Null)
    modifies out
    ensures out.Valid() && out.columns == old(out.columns) && out.length == old(out.length)
    ensures forall j :: (0 <= j < |out.columns| && j != Position(out.columns, rawCol)
      && j != Position(out.columns, labelsCol)) ==> out.data[j] == old(out.data)[j]
    ensures forall k :: 0 <= k < out.length ==>
      out.data[Position(out.columns, rawCol)][k]
        == RawCell(Answer(df, textCol, rawCol, labelsCol, modelName, call, k))
    ensures forall k :: 0 <= k < out.length ==>
      out.data[Position(out.columns, labelsCol)][k]
        == LabelsCell(Answer(df, textCol, rawCol, labelsCol, modelName, call, k), vocab)
  {
    var cols, n := out.columns, out.length;
    var rp, lp := Position(cols, rawCol), Position(cols, labelsCol);
    for i := 0 to n
      invariant out.Valid() && out.columns == cols && out.length == n
      invariant forall j :: 0 <= j < |cols| && j != rp && j != lp ==> out.data[j] == old(out.data)[j]
      invariant forall k :: 0 <= k < i ==>
        out.data[rp][k] == RawCell(Answer(df, textCol, rawCol, labelsCol, modelName, call, k))
      invariant forall k :: 0 <= k < i ==>
        out.data[lp][k] == LabelsCell(Answer(df, textCol, rawCol, labelsCol, modelName, call, k), vocab)
      invariant forall k :: i <= k < n ==> out.data[rp][k] == Null && out.data[lp][k] == Null
    {
      var review := Str(out.Get(i, textCol));
      assert review == Review(df, textCol, rawCol, labelsCol, i);
      var reply := call(i, modelName, review);
      StoreRow(out, i, rawCol, labelsCol, reply, vocab);
    }
  }

  /** `label_dataframe_with_model`: a new table holding every column of `df` unchanged
      and the two model columns; call `i` (of the model, on row `i`'s review) fills row
      `i` of both. */
  method LabelDataFrameWithModel(df: Table, textCol: string, vendor: string, modelName: string,
                                 call: (nat, string, string) -> Reply, vocab: seq<string>)
    returns (r: Result<Table, RunnerError>)
    requires df.Valid()
    ensures var rawCol, labelsCol := RawColumn(vendor, modelName), LabelsColumn(vendor, modelName);
      var cols := WithColumn(WithColumn(df.columns, rawCol), labelsCol);
      && (r.Err? <==> df.length > 0 && textCol !in cols)
      && (r.Ok? ==>
          fresh(r.value) && r.value.Valid()
          && r.value.length == df.length
          && r.value.columns == cols
          && (forall c :: c in df.columns && c != rawCol && c != labelsCol ==>
                forall i :: 0 <= i < df.length ==> r.value.Get(i, c) == df.Get(i, c))
          && forall i :: 0 <= i < df.length ==>
               var reply := Answer(df, textCol, rawCol, labelsCol, modelName, call, i);
               r.value.Get(i, rawCol) == RawCell(reply)
               && r.value.Get(i, labelsCol) == LabelsCell(reply, vocab))
  {
    var out := new Table.Copy(df);
    var rawCol := RawColumn(vendor, modelName);
    var labelsCol := LabelsColumn(vendor, modelName);
    assert rawCol != labelsCol by {
      assert rawCol[|rawCol| - 1] == 'w' && labelsCol[|labelsCol| - 1] == 's';
    }
    AddModelColumns(out, rawCol, labelsCol);
    if out.length > 0 && textCol !in out.columns {
      return Err(MissingTextColumn(textCol));
    }
    ghost var added := out.data;
    FillRows(out, df, textCol, rawCol, labelsCol, modelName, call, vocab);
    forall c | c in df.columns && c != rawCol && c != labelsCol
      ensures forall i :: 0 <= i < df.length ==> out.Get(i, c) == df.Get(i, c)
    {
      assert out.data[Position(out.columns, c)] == added[Position(out.columns, c)];
    }
    return Ok(out);
  }

  // ---------------------------------------------------------------- properties

  /** The labels cell always holds a JSON list of vocabulary labels in vocabulary order,
      which decodes back to those labels. */
  lemma LabelsCellDecodes(reply: Reply, vocab: seq<string>)
    ensures var labels := ReplyLabels(reply, vocab);
      && IsSubsequence(labels, vocab)
      && Decode(LabelsCell(reply, vocab).s) == Some(JArray(Strings(labels)))
  {
    var labels := ReplyLabels(reply, vocab);
    if reply.Replied? {
      LabelsInVocabularyOrder(reply.text, vocab);
    } else {
      assert IsSubsequence([], vocab) by {
        assert IsSubsequence([], vocab) == IsSubsequence(labels, vocab);
      }
    }
    EncodeStringsDecodes(labels);
  }

  /** Parsing a stored labels cell again gives the same labels. */
  lemma LabelsCellReparses(reply: Reply, vocab: seq<string>)
    requires Distinct(Normalized(vocab))
    ensures Labels(Some(LabelsCell(reply, vocab).s), vocab) == ReplyLabels(reply, vocab)
  {
    if reply.Replied? {
      ParseLabelsIdempotent(reply.text, vocab);
    } else {
      CanonicalRoundTrip(vocab, []);
    }
  }

  /** The benchmark reads a stored labels cell as its first label, or "Others" when the
      call failed or found no label (vocabulary labels carry no outer whitespace). */
  lemma LabelsCellPrediction(reply: Reply, vocab: seq<string>, show: Json -> string)
    requires forall v :: v in vocab ==> IsStripped(v)
    ensures var labels := ReplyLabels(reply, vocab);
      ComputeMetrics.ParseModelLabelsCell(LabelsCell(reply, vocab), show)
        == if labels == [] then ComputeMetrics.Others else labels[0]
  {
    var labels := ReplyLabels(reply, vocab);
    LabelsCellDecodes(reply, vocab);
    ComputeMetrics.ParseEncodedCell(labels, show);
    if labels != [] {
      SubsequenceProperties(labels, vocab);
      StripStripped(labels[0]);
    }
  }
}
