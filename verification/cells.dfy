/** A table cell as pandas hands it over: missing (`None`), a float `NaN`, another
    number (kept as the text `str()` gives for it) or a string. */
module Cells {
  import opened Wrappers

  datatype Cell = Null | NaN | Num(repr: string) | Text(s: string)

  /** `pd.isna(x)` for a cell. */
  predicate IsNa(c: Cell) {
    c.Null? || c.NaN?
  }

  /** Python's `str(x)` for a cell. */
  function Str(c: Cell): (r: string)
    ensures c.Text? ==> r == c.s
  {
    match c
      case Null => "None"
      case NaN => "nan"
      case Num(repr) => repr
      case Text(s) => s
  }

  /** The ratings that are neither `None` nor the empty string:
      `[v for v in labels if v is not None and v != '']`. */
  function Present(labels: seq<Option<string>>): (r: seq<string>)
    ensures |r| <= |labels|
    ensures forall x :: x in r <==> Some(x) in labels && x != ""
  {
    if labels == [] then []
    else
      var init := Present(labels[..|labels| - 1]);
      var v := labels[|labels| - 1];
      assert labels == labels[..|labels| - 1] + [v];
      if v.Some? && v.value != "" then init + [v.value] else init
  }
}
