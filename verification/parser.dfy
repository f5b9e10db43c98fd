/** `parse_labels`: turns a model's free-text answer into canonical labels of the
    vocabulary (`LABEL_ORDER`, passed in as `vocab`), in vocabulary order. */
module LabelParser {
  import opened Wrappers
  import opened Seqs
  import opened Text
  import opened Json
  import opened Dicts

  /** The inner `normalize`: lower-cased, alphanumeric characters only. */
  function Normalize(s: string): (r: string)
    ensures |r| <= |s|
    ensures forall k :: 0 <= k < |r| ==> IsAlnum(r[k]) && !('A' <= r[k] <= 'Z')
  {
    if s == [] then []
    else
      var c := s[|s| - 1];
      Normalize(s[..|s| - 1]) + (if IsAlnum(c) then [Lower(c)] else [])
  }

  // ---------------------------------------------------------------- allowed_map

  /** `{normalize(lbl): lbl for lbl in vocab}` as its entries in dictionary order. */
  function AllowedMap(vocab: seq<string>): seq<(string, string)>
  {
    if vocab == [] then []
    else
      var l := vocab[|vocab| - 1];
      Put(AllowedMap(vocab[..|vocab| - 1]), Normalize(l), l)
  }

  function Normalized(vocab: seq<string>): (ns: seq<string>)
    ensures |ns| == |vocab| && forall q :: 0 <= q < |vocab| ==> ns[q] == Normalize(vocab[q])
  {
    if vocab == [] then [] else Normalized(vocab[..|vocab| - 1]) + [Normalize(vocab[|vocab| - 1])]
  }

  /** The last label of `vocab` whose normalised form is `key`: the value the dictionary
      comprehension leaves under `key`. */
  function LastWithKey(vocab: seq<string>, key: string): (r: Option<string>)
    ensures r.Some? ==> r.value in vocab && Normalize(r.value) == key
    ensures r.None? ==> forall q :: 0 <= q < |vocab| ==> Normalize(vocab[q]) != key
  {
    if vocab == [] then None
    else if Normalize(vocab[|vocab| - 1]) == key then Some(vocab[|vocab| - 1])
    else LastWithKey(vocab[..|vocab| - 1], key)
  }

  /** The dictionary's keys are the distinct normalised labels, in order of first
      appearance. */
  lemma {:induction false} AllowedMapKeys(vocab: seq<string>)
    ensures Keys(AllowedMap(vocab)) == Dedup(Normalized(vocab))
    decreases |vocab|
  {
    if vocab != [] {
      var init := vocab[..|vocab| - 1];
      var l := vocab[|vocab| - 1];
      var m := AllowedMap(init);
      AllowedMapKeys(init);
      assert Normalized(vocab)[..|vocab| - 1] == Normalized(init);
      PutKeys(m, Normalize(l), l);
    }
  }

  /** Each key of the dictionary holds the last label normalising to it. */
  lemma {:induction false} AllowedMapValues(vocab: seq<string>)
    ensures forall q :: 0 <= q < |AllowedMap(vocab)| ==>
      LastWithKey(vocab, AllowedMap(vocab)[q].0) == Some(AllowedMap(vocab)[q].1)
    decreases |vocab|
  {
    if vocab != [] {
      var init := vocab[..|vocab| - 1];
      var l := vocab[|vocab| - 1];
      var m := AllowedMap(init);
      AllowedMapValues(init);
      AllowedMapKeys(init);
      assert Distinct(Keys(m));
      var r := AllowedMap(vocab);
      var k := Normalize(l);
      var i := KeyIndex(m, k);
      assert r == if i < 0 then m + [(k, l)] else m[i := (k, l)];
      forall q | 0 <= q < |r| ensures LastWithKey(vocab, r[q].0) == Some(r[q].1) {
        if r[q].0 == k {
          if i >= 0 {
            assert Keys(m)[i] == k;
            assert q < |m| ==> Keys(m)[q] == k;
            assert q == i;
          }
          assert r[q].1 == l;
        } else {
          if i < 0 {
            assert q < |m|;
          } else {
            assert q != i;
          }
          assert r[q] == m[q];
          assert LastWithKey(vocab, r[q].0) == LastWithKey(init, m[q].0);
        }
      }
    }
  }

  lemma LookupAllowedMap(vocab: seq<string>, key: string)
    ensures Lookup(AllowedMap(vocab), key) == LastWithKey(vocab, key)
  {
    var m := AllowedMap(vocab);
    AllowedMapKeys(vocab);
    AllowedMapValues(vocab);
    var i := KeyIndex(m, key);
    if i < 0 {
      forall q | 0 <= q < |vocab| ensures Normalize(vocab[q]) != key {
        assert Normalized(vocab)[q] in Dedup(Normalized(vocab));
      }
    } else {
      assert m[i].0 == key;
    }
  }

  // ---------------------------------------------------------------- matching

  /** Index of the first entry, in dictionary order, whose key occurs inside `item`. */
  function FirstContained(m: seq<(string, string)>, item: string): (r: Option<nat>)
    ensures r.Some? ==> r.value < |m| && Contains(item, m[r.value].0)
    ensures forall q :: 0 <= q < |m| && (r.None? || q < r.value) ==> !Contains(item, m[q].0)
  {
    if m == [] then None
    else if Contains(item, m[0].0) then Some(0)
    else match FirstContained(m[1..], item)
      case None => None
      case Some(q) => Some(q + 1)
  }

  /** What one decoded element contributes to `cleaned`: nothing for a non-string, the
      label whose normalised form equals the element's, or failing that the first label
      whose normalised form occurs inside it. */
  function MatchItem(m: seq<(string, string)>, item: Json): (r: seq<string>)
    ensures |r| <= 1
    ensures forall x :: x in r ==> x in Values(m)
  {
    if !item.JString? then []
    else
      var norm := Normalize(Strip(item.s));
      match Lookup(m, norm)
        case Some(v) => [v]
        case None =>
          match FirstContained(m, norm)
            case None => []
            case Some(q) => [m[q].1]
  }

  function Cleaned(m: seq<(string, string)>, items: seq<Json>): (r: seq<string>)
    ensures |r| <= |items|
    ensures forall x :: x in r ==> x in Values(m)
  {
    if items == [] then []
    else Cleaned(m, items[..|items| - 1]) + MatchItem(m, items[|items| - 1])
  }

  /** `[lab for lab in vocab if lab in cleaned]`. */
  function InVocabOrder(vocab: seq<string>, cleaned: seq<string>): (r: seq<string>)
    ensures |r| <= |vocab|
  {
    if vocab == [] then []
    else
      var l := vocab[|vocab| - 1];
      InVocabOrder(vocab[..|vocab| - 1], cleaned) + (if l in cleaned then [l] else [])
  }

  /** The text handed to the JSON decoder: the stripped answer, cut down to the span from
      its first `[` to its last `]` when it does not already start with `[` and holds
      both brackets (an empty span when the last `]` comes before the first `[`). */
  function Bracketed(text: string): string
  {
    if StartsWith(text, "[") then text
    else
      var start, end := Find(text, '['), RFind(text, ']');
      if start != -1 && end != -1 then Slice(text, start, end + 1) else text
  }

  /** What `parse_labels` returns for `raw` (`None` for a Python `None`). */
  function Labels(raw: Option<string>, vocab: seq<string>): seq<string>
  {
    match raw
      case None => []
      case Some(text) => LabelsOfDecoded(Decode(Bracketed(Strip(text))), vocab)
  }

  /** The labels found in a decoded answer; anything but a list gives none. */
  function LabelsOfDecoded(data: Option<Json>, vocab: seq<string>): seq<string>
  {
    match data
      case Some(JArray(items)) => InVocabOrder(vocab, Cleaned(AllowedMap(vocab), items))
      case _ => []
  }

  /** The inner search of the matching loop: the first dictionary entry whose key occurs
      in `norm`, scanned in dictionary order and left at the first hit. */
  method SearchContained(allowed: seq<(string, string)>, norm: string) returns (found: seq<string>)
    ensures found == match FirstContained(allowed, norm)
      case None => []
      case Some(q) => [allowed[q].1]
  {
    var j := 0;
    while j < |allowed|
      invariant 0 <= j <= |allowed|
      invariant forall q :: 0 <= q < j ==> !Contains(norm, allowed[q].0)
    {
      if Contains(norm, allowed[j].0) {
        assert FirstContained(allowed, norm) == Some(j);
        return [allowed[j].1];
      }
      j := j + 1;
    }
    return [];
  }

  /** The matching loop: each string element is mapped through the dictionary, first by
      exact normalised match, then by the inner search. */
  method CleanItems(allowed: seq<(string, string)>, items: seq<Json>) returns (cleaned: seq<string>)
    ensures cleaned == Cleaned(allowed, items)
  {
    cleaned := [];
    var i := 0;
    while i < |items|
      invariant 0 <= i <= |items|
      invariant cleaned == Cleaned(allowed, items[..i])
    {
      var item := items[i];
      var step: seq<string> := [];
      if item.JString? {
        var norm := Normalize(Strip(item.s));
        var hit := Lookup(allowed, norm);
        if hit.Some? {
          step := [hit.value];
        } else {
          step := SearchContained(allowed, norm);
        }
      }
      CleanedStep(allowed, items, i);
      cleaned := cleaned + step;
      i := i + 1;
    }
    TakeAll(items);
  }

  lemma CleanedStep(m: seq<(string, string)>, items: seq<Json>, i: nat)
    requires i < |items|
    ensures Cleaned(m, items[..i + 1]) == Cleaned(m, items[..i]) + MatchItem(m, items[i])
  {
    PrefixStep(items, i);
  }

  /** The rebinding of the answer before decoding: a text that does not start with `[`
      but holds both brackets is cut down to the span from its first `[` to its last `]`. */
  method NarrowToBrackets(text: string) returns (r: string)
    ensures r == Bracketed(text)
  {
    r := text;
    if !StartsWith(r, "[") {
      var start := Find(r, '[');
      var end := RFind(r, ']');
      if start != -1 && end != -1 {
        r := Slice(r, start, end + 1);
      }
    }
  }

  /** `parse_labels`: the stripped text is narrowed to its bracketed part, decoded, and
      each string element is mapped to a label; the labels found are returned in
      vocabulary order. Every failure returns the empty list. */
  method ParseLabels(raw: Option<string>, vocab: seq<string>) returns (labels: seq<string>)
    ensures labels == Labels(raw, vocab)
  {
    if raw.None? {
      return [];
    }
    var text := NarrowToBrackets(Strip(raw.value));
    var data := Decode(text);
    assert Labels(raw, vocab) == LabelsOfDecoded(data, vocab);
    if !(data.Some? && data.value.JArray?) {
      return [];
    }
    var cleaned := CleanItems(AllowedMap(vocab), data.value.items);
    labels := InVocabOrder(vocab, cleaned);
  }

  // ---------------------------------------------------------------- properties

  /** A label is in the ordered result exactly when it is in the vocabulary and was
      matched. */
  lemma {:induction false} InVocabOrderMembers(vocab: seq<string>, cleaned: seq<string>)
    ensures forall x :: x in InVocabOrder(vocab, cleaned) <==> x in vocab && x in cleaned
    decreases |vocab|
  {
    if vocab != [] {
      var init := vocab[..|vocab| - 1];
      InVocabOrderMembers(init, cleaned);
      assert vocab == init + [vocab[|vocab| - 1]];
    }
  }

  lemma {:induction false} InVocabOrderSubsequence(vocab: seq<string>, cleaned: seq<string>)
    ensures IsSubsequence(InVocabOrder(vocab, cleaned), vocab)
    decreases |vocab|
  {
    if vocab != [] {
      var init, l := vocab[..|vocab| - 1], vocab[|vocab| - 1];
      var r' := InVocabOrder(init, cleaned);
      InVocabOrderSubsequence(init, cleaned);
      assert init + [l] == vocab;
      if l in cleaned {
        var r := r' + [l];
        assert r[..|r| - 1] == r';
      } else {
        assert InVocabOrder(vocab, cleaned) == r';
        SubsequenceExtend(r', init, l);
      }
    }
  }

  /** What `parse_labels` returns is a subsequence of the vocabulary: only vocabulary
      labels, in vocabulary order, no more of them than the vocabulary holds, and none
      twice when the vocabulary has no repeats. */
  lemma LabelsInVocabularyOrder(raw: Option<string>, vocab: seq<string>)
    ensures IsSubsequence(Labels(raw, vocab), vocab)
    ensures |Labels(raw, vocab)| <= |vocab|
    ensures forall x :: x in Labels(raw, vocab) ==> x in vocab
    ensures Distinct(vocab) ==> Distinct(Labels(raw, vocab))
  {
    var r := Labels(raw, vocab);
    if r != [] {
      var items := Decode(Bracketed(Strip(raw.value))).value.items;
      InVocabOrderSubsequence(vocab, Cleaned(AllowedMap(vocab), items));
    }
    SubsequenceProperties(r, vocab);
  }

  lemma {:induction false} NormalizeConcat(a: string, b: string)
    ensures Normalize(a + b) == Normalize(a) + Normalize(b)
    decreases |b|
  {
    if b == [] {
      assert a + b == a;
    } else {
      assert (a + b)[..|a + b| - 1] == a + b[..|b| - 1];
      NormalizeConcat(a, b[..|b| - 1]);
    }
  }

  lemma {:induction false} NormalizeSpaces(a: string)
    requires AllSpace(a)
    ensures Normalize(a) == []
    decreases |a|
  {
    if a != [] {
      NormalizeSpaces(a[..|a| - 1]);
    }
  }

  /** Stripping before normalising changes nothing: whitespace is never alphanumeric. */
  lemma NormalizeStrip(x: string)
    ensures Normalize(Strip(x)) == Normalize(x)
  {
    var a, b := StripSplit(x);
    var r := Strip(x);
    NormalizeConcat(a + r, b);
    NormalizeConcat(a, r);
    NormalizeSpaces(a);
    NormalizeSpaces(b);
  }

  /** With no two labels normalising alike, the dictionary maps each label's key to it. */
  lemma LastWithKeyCanonical(vocab: seq<string>, l: string)
    requires Distinct(Normalized(vocab)) && l in vocab
    ensures LastWithKey(vocab, Normalize(l)) == Some(l)
  {
    var r := LastWithKey(vocab, Normalize(l));
    var i :| 0 <= i < |vocab| && vocab[i] == l;
    assert Normalized(vocab)[i] == Normalize(l);
    var j :| 0 <= j < |vocab| && vocab[j] == r.value;
    assert Normalized(vocab)[j] == Normalize(l);
  }

  lemma MatchCanonical(vocab: seq<string>, l: string)
    requires Distinct(Normalized(vocab)) && l in vocab
    ensures MatchItem(AllowedMap(vocab), JString(l)) == [l]
  {
    NormalizeStrip(l);
    LastWithKeyCanonical(vocab, l);
    LookupAllowedMap(vocab, Normalize(l));
  }

  lemma {:induction false} CleanedCanonical(vocab: seq<string>, xs: seq<string>)
    requires Distinct(Normalized(vocab)) && forall x :: x in xs ==> x in vocab
    ensures Cleaned(AllowedMap(vocab), Strings(xs)) == xs
    decreases |xs|
  {
    if xs != [] {
      var m := AllowedMap(vocab);
      var xs', l := xs[..|xs| - 1], xs[|xs| - 1];
      assert xs == xs' + [l];
      var js := Strings(xs);
      assert js[..|js| - 1] == Strings(xs');
      assert js[|js| - 1] == JString(l);
      assert Cleaned(m, js) == Cleaned(m, Strings(xs')) + MatchItem(m, JString(l));
      CleanedCanonical(vocab, xs');
      MatchCanonical(vocab, l);
    }
  }

  lemma {:induction false} InVocabOrderCongruent(vocab: seq<string>, a: seq<string>, b: seq<string>)
    requires forall x :: x in vocab ==> (x in a <==> x in b)
    ensures InVocabOrder(vocab, a) == InVocabOrder(vocab, b)
    decreases |vocab|
  {
    if vocab != [] {
      InVocabOrderCongruent(vocab[..|vocab| - 1], a, b);
    }
  }

  lemma LastNotInInit(vocab: seq<string>)
    requires vocab != [] && Distinct(vocab)
    ensures Distinct(vocab[..|vocab| - 1]) && vocab[|vocab| - 1] !in vocab[..|vocab| - 1]
  {
    var init := vocab[..|vocab| - 1];
    forall i | 0 <= i < |init| ensures init[i] != vocab[|vocab| - 1] {
      assert vocab[i] != vocab[|vocab| - 1];
    }
  }

  lemma SameMembersBesides(init: seq<string>, xs': seq<string>, l: string)
    requires l !in init
    ensures forall x :: x in init ==> (x in xs' <==> x in xs' + [l])
  {
  }

  lemma InVocabOrderStepTaken(vocab: seq<string>, xs: seq<string>)
    requires vocab != [] && xs != [] && xs[|xs| - 1] == vocab[|vocab| - 1]
    requires vocab[|vocab| - 1] !in vocab[..|vocab| - 1]
    requires InVocabOrder(vocab[..|vocab| - 1], xs[..|xs| - 1]) == xs[..|xs| - 1]
    ensures InVocabOrder(vocab, xs) == xs
  {
    var init, l, xs' := vocab[..|vocab| - 1], vocab[|vocab| - 1], xs[..|xs| - 1];
    SplitLast(xs);
    SameMembersBesides(init, xs', l);
    InVocabOrderCongruent(init, xs', xs);
    assert InVocabOrder(vocab, xs) == InVocabOrder(init, xs) + [l];
  }

  lemma InVocabOrderStepSkipped(vocab: seq<string>, xs: seq<string>)
    requires vocab != [] && vocab[|vocab| - 1] !in xs
    requires InVocabOrder(vocab[..|vocab| - 1], xs) == xs
    ensures InVocabOrder(vocab, xs) == xs
  {
  }

  /** Reordering by the vocabulary leaves a list already in vocabulary order alone. */
  lemma {:induction false} InVocabOrderFixes(vocab: seq<string>, xs: seq<string>)
    requires Distinct(vocab) && IsSubsequence(xs, vocab)
    ensures InVocabOrder(vocab, xs) == xs
    decreases |vocab|
  {
    if vocab != [] {
      var init, l := vocab[..|vocab| - 1], vocab[|vocab| - 1];
      LastNotInInit(vocab);
      if xs != [] && xs[|xs| - 1] == l {
        InVocabOrderFixes(init, xs[..|xs| - 1]);
        InVocabOrderStepTaken(vocab, xs);
      } else {
        assert IsSubsequence(xs, init);
        SubsequenceProperties(xs, init);
        InVocabOrderFixes(init, xs);
        InVocabOrderStepSkipped(vocab, xs);
      }
    }
  }

  /** `json.dumps` of a list starts with `[` and ends with `]`, so neither stripping nor
      bracket narrowing touches it. */
  lemma EncodedIsBracketed(xs: seq<string>)
    ensures Bracketed(Strip(EncodeStrings(xs))) == EncodeStrings(xs)
  {
    var e := EncodeStrings(xs);
    assert IsStripped(e);
    StripPadded([], e, []);
    assert [] + e + [] == e;
    assert e[..1] == "[";
  }

  /** A list of distinct-keyed vocabulary labels in vocabulary order, written out by
      `json.dumps`, parses back to itself. */
  lemma CanonicalRoundTrip(vocab: seq<string>, xs: seq<string>)
    requires Distinct(Normalized(vocab)) && IsSubsequence(xs, vocab)
    ensures Labels(Some(EncodeStrings(xs)), vocab) == xs
  {
    assert Distinct(vocab) by {
      forall i, j | 0 <= i < j < |vocab| ensures vocab[i] != vocab[j] {
        assert Normalized(vocab)[i] != Normalized(vocab)[j];
      }
    }
    var e := EncodeStrings(xs);
    SubsequenceProperties(xs, vocab);
    calc {
      Labels(Some(e), vocab);
      LabelsOfDecoded(Decode(Bracketed(Strip(e))), vocab);
      { EncodedIsBracketed(xs); }
      LabelsOfDecoded(Decode(e), vocab);
      { EncodeStringsDecodes(xs); }
      LabelsOfDecoded(Some(JArray(Strings(xs))), vocab);
      InVocabOrder(vocab, Cleaned(AllowedMap(vocab), Strings(xs)));
      { CleanedCanonical(vocab, xs); }
      InVocabOrder(vocab, xs);
      { InVocabOrderFixes(vocab, xs); }
      xs;
    }
  }

  /** Parsing the JSON text the labelling loop stores gives back the same labels. */
  lemma ParseLabelsIdempotent(raw: Option<string>, vocab: seq<string>)
    requires Distinct(Normalized(vocab))
    ensures Labels(Some(EncodeStrings(Labels(raw, vocab))), vocab) == Labels(raw, vocab)
  {
    LabelsInVocabularyOrder(raw, vocab);
    CanonicalRoundTrip(vocab, Labels(raw, vocab));
  }
}
