/** The review-text clean-up of `data_cleaner.py`: mojibake repair, transliteration,
    line-break and whitespace normalisation, stripping, and the row filters on the
    `content` column. */
module DataCleaner {
  import opened Seqs
  import opened Text
  import opened Cells

  /** `MOJIBAKE_REPLACEMENTS`, in dictionary order: UTF-8 punctuation and accented
      letters that were decoded as Mac Roman, with what they should have been. */
  const MojibakeReplacements: seq<(string, string)> := [
    ("\U{201A}\U{C4}\U{F4}", "'"),
    ("\U{201A}\U{C4}\U{F6}", "'"),
    ("\U{201A}\U{C4}\U{FA}", "\""),
    ("\U{201A}\U{C4}\U{F9}", "\""),
    ("\U{221A}\U{A7}", "a"),
    ("\U{221A}\U{A9}", "e"),
    ("\U{221A}\U{AE}", "i"),
    ("\U{221A}\U{B1}", "n"),
    ("\U{221A}\U{2265}", ">="),
    ("\U{221A}\U{2264}", "<=")
  ]

  /** Every key and value is non-empty and no value shares a character with any key,
      so a replacement can neither leave its own key behind nor rebuild another. */
  predicate TableSafe(table: seq<(string, string)>) {
    forall i, j :: 0 <= i < |table| && 0 <= j < |table| ==>
      table[i].0 != [] && table[i].1 != [] && SharesNoChar(table[j].1, table[i].0)
  }

  lemma MojibakeTableSafe()
    ensures TableSafe(MojibakeReplacements)
  {
  }

  predicate KeysNonEmpty(table: seq<(string, string)>) {
    forall i :: 0 <= i < |table| ==> table[i].0 != []
  }

  /** The string after `s = s.replace(bad, good)` for every entry of `table` in order. */
  function FixMojibake(s: string, table: seq<(string, string)>): string
    requires KeysNonEmpty(table)
    decreases |table|
  {
    if table == [] then s
    else ReplaceAll(FixMojibake(s, table[..|table| - 1]), table[|table| - 1].0, table[|table| - 1].1)
  }

  /** After the replacement loop no key of a safe table occurs in the text. */
  lemma {:induction false} MojibakeRemoved(s: string, table: seq<(string, string)>)
    requires TableSafe(table)
    ensures forall i :: 0 <= i < |table| ==> Absent(FixMojibake(s, table), table[i].0)
    decreases |table|
  {
    if table != [] {
      var init := table[..|table| - 1];
      var (bad, good) := table[|table| - 1];
      MojibakeRemoved(s, init);
      var t := FixMojibake(s, init);
      forall i | 0 <= i < |table|
        ensures Absent(ReplaceAll(t, bad, good), table[i].0)
      {
        if i == |table| - 1 {
          ReplaceAllRemoves(t, bad, good);
        } else {
          assert table[i] == init[i];
          ReplaceAllKeepsAbsent(t, bad, good, table[i].0);
        }
      }
    }
  }

  lemma MojibakeGone(s: string)
    ensures forall i :: 0 <= i < |MojibakeReplacements| ==>
      Absent(FixMojibake(s, MojibakeReplacements), MojibakeReplacements[i].0)
  {
    MojibakeTableSafe();
    MojibakeRemoved(s, MojibakeReplacements);
  }

  /** No two adjacent characters are both whitespace. */
  predicate NoDoubleSpace(s: string) {
    forall k :: 0 <= k < |s| - 1 ==> !(IsSpace(s[k]) && IsSpace(s[k + 1]))
  }

  /** The only whitespace character in `s` is the plain space. */
  predicate OnlyPlainSpaces(s: string) {
    forall k :: 0 <= k < |s| && IsSpace(s[k]) ==> s[k] == ' '
  }

  /** `re.sub(r"\s+", " ", s)`: every maximal run of whitespace becomes one space. */
  function CollapseWs(s: string): (r: string)
    ensures NoDoubleSpace(r) && OnlyPlainSpaces(r)
    ensures s == [] <==> r == []
    ensures s != [] ==> (IsSpace(r[0]) <==> IsSpace(s[0]))
    decreases |s|
  {
    if s == [] then []
    else if IsSpace(s[0]) then
      var n := LeadingSpaces(s);
      " " + CollapseWs(s[n..])
    else
      [s[0]] + CollapseWs(s[1..])
  }

  predicate NotSpace(c: char) {
    !IsSpace(c)
  }

  /** The non-whitespace characters of `s`, in order. */
  function NonSpace(s: string): string {
    Filter(s, NotSpace)
  }

  lemma NonSpaceOfSpaces(s: string)
    requires AllSpace(s)
    ensures NonSpace(s) == []
  {
    FilterNone(s, NotSpace);
  }

  /** Collapsing whitespace keeps every other character, in order. */
  lemma {:induction false} CollapseKeepsText(s: string)
    ensures NonSpace(CollapseWs(s)) == NonSpace(s)
    decreases |s|
  {
    if s != [] {
      if IsSpace(s[0]) {
        var n := LeadingSpaces(s);
        CollapseKeepsText(s[n..]);
        SplitAt(s, n);
        FilterConcat(s[..n], s[n..], NotSpace);
        NonSpaceOfSpaces(s[..n]);
        FilterConcat(" ", CollapseWs(s[n..]), NotSpace);
        NonSpaceOfSpaces(" ");
      } else {
        CollapseKeepsText(s[1..]);
        assert s == [s[0]] + s[1..];
        FilterConcat([s[0]], s[1..], NotSpace);
        FilterConcat([s[0]], CollapseWs(s[1..]), NotSpace);
      }
    }
  }

  /** A string already in collapsed form is left as it is. */
  lemma {:induction false} CollapseFixesCollapsed(s: string)
    requires NoDoubleSpace(s) && OnlyPlainSpaces(s)
    ensures CollapseWs(s) == s
    decreases |s|
  {
    if s != [] {
      assert NoDoubleSpace(s[1..]) && OnlyPlainSpaces(s[1..]);
      CollapseFixesCollapsed(s[1..]);
      if IsSpace(s[0]) {
        assert LeadingSpaces(s) == 1 by {
          assert |s| == 1 || !IsSpace(s[1]);
        }
      }
    }
  }

  /** Steps 3 and 4 of `clean_text`: line breaks become spaces, whitespace runs
      collapse, and the ends are stripped. */
  function Tidy(t: string): string {
    Strip(CollapseWs(ReplaceAll(ReplaceAll(t, "\n", " "), "\r", " ")))
  }

  /** The clean-up of one review string; `transliterate` stands for `unidecode`. */
  function Clean(s: string, transliterate: string -> string): string {
    MojibakeTableSafe();
    Tidy(transliterate(FixMojibake(s, MojibakeReplacements)))
  }

  /** Stripping keeps the collapsed form. */
  lemma StripKeepsForm(c: string)
    requires NoDoubleSpace(c) && OnlyPlainSpaces(c)
    ensures NoDoubleSpace(Strip(c)) && OnlyPlainSpaces(Strip(c))
  {
    var a, b := StripSplit(c);
    var r := Strip(c);
    forall k | 0 <= k < |r| ensures r[k] == c[|a| + k] {
    }
  }

  /** Stripping keeps the non-whitespace text. */
  lemma StripKeepsText(c: string)
    ensures NonSpace(Strip(c)) == NonSpace(c)
  {
    var a, b := StripSplit(c);
    var r := Strip(c);
    NonSpaceAfter(a + r, b);
    NonSpaceBefore(a, r);
  }

  /** Whatever text it is given, the result has no line break, no run of whitespace,
      only plain spaces, and no whitespace at either end. */
  lemma TidyShape(t: string)
    ensures var r := Tidy(t);
      && '\n' !in r && '\r' !in r
      && NoDoubleSpace(r) && OnlyPlainSpaces(r) && IsStripped(r)
  {
    StripKeepsForm(CollapseWs(ReplaceAll(ReplaceAll(t, "\n", " "), "\r", " ")));
  }

  /** Line-break replacement, whitespace collapse and stripping remove only whitespace:
      every other character survives, in order. */
  lemma TidyKeepsText(t: string)
    ensures NonSpace(Tidy(t)) == NonSpace(t)
  {
    var u := ReplaceAll(ReplaceAll(t, "\n", " "), "\r", " ");
    ReplaceSpaceKeepsText(t, "\n");
    ReplaceSpaceKeepsText(ReplaceAll(t, "\n", " "), "\r");
    CollapseKeepsText(u);
    StripKeepsText(CollapseWs(u));
  }

  /** Text that is already tidy is left as it is, so tidying twice changes nothing. */
  lemma TidyIdempotent(t: string)
    ensures Tidy(Tidy(t)) == Tidy(t)
  {
    var r := Tidy(t);
    TidyShape(t);
    NoBreakUnchanged(r, "\n");
    NoBreakUnchanged(r, "\r");
    CollapseFixesCollapsed(r);
    StripPadded([], r, []);
    assert [] + r + [] == r;
  }

  /** `replace` of a one-character string that does not occur changes nothing. */
  lemma NoBreakUnchanged(s: string, w: string)
    requires |w| == 1 && w[0] !in s
    ensures ReplaceAll(s, w, " ") == s
  {
  }

  /** Replacing a whitespace character by a space keeps the non-whitespace text. */
  lemma {:induction false} ReplaceSpaceKeepsText(s: string, w: string)
    requires |w| == 1 && IsSpace(w[0])
    ensures NonSpace(ReplaceAll(s, w, " ")) == NonSpace(s)
    decreases |s|
  {
    var i := IndexOf(s, w);
    if i >= 0 {
      var rest := s[i + 1..];
      ReplaceSpaceKeepsText(rest, w);
      OccursSplit(s, w, i);
      NonSpaceAround(s[..i], w, rest);
      NonSpaceAround(s[..i], " ", ReplaceAll(rest, w, " "));
    }
  }

  /** An occurrence splits its string into what comes before, itself and what follows. */
  lemma OccursSplit(s: string, sub: string, i: int)
    requires OccursAt(s, sub, i)
    ensures s == s[..i] + sub + s[i + |sub|..]
  {
    SplitAt(s, i);
    SplitAt(s[i..], |sub|);
    ConcatAssoc(s[..i], sub, s[i + |sub|..]);
  }

  /** Leading whitespace adds nothing to the non-whitespace text. */
  lemma NonSpaceBefore(x: string, b: string)
    requires AllSpace(x)
    ensures NonSpace(x + b) == NonSpace(b)
  {
    FilterConcat(x, b, NotSpace);
    NonSpaceOfSpaces(x);
  }

  /** Trailing whitespace adds nothing to the non-whitespace text. */
  lemma NonSpaceAfter(a: string, x: string)
    requires AllSpace(x)
    ensures NonSpace(a + x) == NonSpace(a)
  {
    FilterConcat(a, x, NotSpace);
    NonSpaceOfSpaces(x);
  }

  /** Whitespace between two strings adds nothing to their non-whitespace text. */
  lemma NonSpaceAround(a: string, x: string, b: string)
    requires AllSpace(x)
    ensures NonSpace(a + x + b) == NonSpace(a) + NonSpace(b)
  {
    FilterConcat(a + x, b, NotSpace);
    FilterConcat(a, x, NotSpace);
    NonSpaceOfSpaces(x);
  }

  /** `clean_text`: a string goes through the whole clean-up, any other value is
      returned unchanged. */
  method CleanText(cell: Cell, transliterate: string -> string) returns (r: Cell)
    ensures cell.Text? ==> r == Text(Clean(cell.s, transliterate))
    ensures !cell.Text? ==> r == cell
  {
    if !cell.Text? {
      return cell;
    }
    MojibakeTableSafe();
    var table := MojibakeReplacements;
    var s := cell.s;
    var i := 0;
    while i < |table|
      invariant 0 <= i <= |table|
      invariant s == FixMojibake(cell.s, table[..i])
    {
      var (bad, good) := table[i];
      assert table[..i + 1][..i] == table[..i];
      s := ReplaceAll(s, bad, good);
      i := i + 1;
    }
    assert table[..|table|] == table;
    s := transliterate(s);
    s := ReplaceAll(ReplaceAll(s, "\n", " "), "\r", " ");
    s := CollapseWs(s);
    r := Text(Strip(s));
  }

  /** A row of the `content` column: the row's index label and its cell. */
  type Row = (nat, Cell)

  /** The column as loaded, each cell paired with its row index. */
  function Indexed(contents: seq<Cell>): (rows: seq<Row>)
    ensures |rows| == |contents|
    ensures forall k :: 0 <= k < |rows| ==> rows[k] == (k, contents[k])
  {
    seq(|contents|, k requires 0 <= k < |contents| => (k, contents[k]))
  }

  predicate Present(row: Row) {
    !IsNa(row.1)
  }

  /** `.str.len() >= 20`: a string of at least 20 characters (any other value fails). */
  predicate LongEnough(row: Row) {
    row.1.Text? && |row.1.s| >= 20
  }

  function CleanCell(c: Cell, transliterate: string -> string): Cell {
    if c.Text? then Text(Clean(c.s, transliterate)) else c
  }

  /** `.apply(clean_text)` over the rows, keeping each row's index. */
  function CleanRows(rows: seq<Row>, transliterate: string -> string): (r: seq<Row>)
    ensures |r| == |rows|
    ensures forall k :: 0 <= k < |rows| ==> r[k] == (rows[k].0, CleanCell(rows[k].1, transliterate))
  {
    if rows == [] then []
    else
      var last := rows[|rows| - 1];
      CleanRows(rows[..|rows| - 1], transliterate) + [(last.0, CleanCell(last.1, transliterate))]
  }

  /** The rows the script keeps: present, cleaned, then long enough. */
  function KeptRows(contents: seq<Cell>, transliterate: string -> string): seq<Row> {
    Filter(CleanRows(Filter(Indexed(contents), Present), transliterate), LongEnough)
  }

  /** A surviving row is a string cell at its original index, cleaned, of at least 20
      characters. */
  lemma KeptRowsSound(contents: seq<Cell>, transliterate: string -> string, i: nat, c: Cell)
    requires (i, c) in KeptRows(contents, transliterate)
    ensures i < |contents| && contents[i].Text?
    ensures c == Text(Clean(contents[i].s, transliterate)) && |c.s| >= 20
  {
    var present := Filter(Indexed(contents), Present);
    var cleaned := CleanRows(present, transliterate);
    FilterMembers(cleaned, LongEnough);
    var k :| 0 <= k < |cleaned| && cleaned[k] == (i, c);
    FilterMembers(Indexed(contents), Present);
    assert present[k] in present;
    var j :| 0 <= j < |contents| && Indexed(contents)[j] == present[k];
  }

  /** Every string cell whose cleaned form has at least 20 characters survives. */
  lemma KeptRowsComplete(contents: seq<Cell>, transliterate: string -> string, i: nat)
    requires i < |contents| && contents[i].Text? && |Clean(contents[i].s, transliterate)| >= 20
    ensures (i, Text(Clean(contents[i].s, transliterate))) in KeptRows(contents, transliterate)
  {
    var present := Filter(Indexed(contents), Present);
    var cleaned := CleanRows(present, transliterate);
    FilterMembers(Indexed(contents), Present);
    var row: Row := (i, contents[i]);
    assert Indexed(contents)[i] == row;
    assert row in present;
    var k :| 0 <= k < |present| && present[k] == row;
    assert cleaned[k] == (i, Text(Clean(contents[i].s, transliterate)));
    FilterMembers(cleaned, LongEnough);
  }

  /** A row survives exactly when its original cell is a string whose cleaned form has
      at least 20 characters, and it then holds that cleaned form. */
  lemma KeptRowsExactly(contents: seq<Cell>, transliterate: string -> string, i: nat, c: Cell)
    ensures (i, c) in KeptRows(contents, transliterate) <==>
      && i < |contents| && contents[i].Text?
      && c == Text(Clean(contents[i].s, transliterate)) && |c.s| >= 20
  {
    if (i, c) in KeptRows(contents, transliterate) {
      KeptRowsSound(contents, transliterate, i, c);
    }
    if i < |contents| && contents[i].Text? && c == Text(Clean(contents[i].s, transliterate)) && |c.s| >= 20 {
      KeptRowsComplete(contents, transliterate, i);
    }
  }

  /** One more row cleaned: the cleaned prefix grows by that row. */
  lemma CleanRowsSnoc(rows: seq<Row>, i: nat, transliterate: string -> string)
    requires i < |rows|
    ensures CleanRows(rows[..i + 1], transliterate)
      == CleanRows(rows[..i], transliterate) + [(rows[i].0, CleanCell(rows[i].1, transliterate))]
  {
    assert rows[..i + 1][..i] == rows[..i];
  }

  /** The script's three stages on the `content` column: drop missing cells, clean
      every cell, keep cleaned strings of at least 20 characters. */
  method CleanReviews(contents: seq<Cell>, transliterate: string -> string) returns (kept: seq<Row>)
    ensures kept == KeptRows(contents, transliterate)
  {
    var rows := Filter(Indexed(contents), Present);
    var cleaned: seq<Row> := [];
    var i := 0;
    while i < |rows|
      invariant 0 <= i <= |rows|
      invariant cleaned == CleanRows(rows[..i], transliterate)
    {
      var c := CleanText(rows[i].1, transliterate);
      CleanRowsSnoc(rows, i, transliterate);
      cleaned := cleaned + [(rows[i].0, c)];
      i := i + 1;
    }
    assert rows[..|rows|] == rows;
    kept := Filter(cleaned, LongEnough);
  }
}
