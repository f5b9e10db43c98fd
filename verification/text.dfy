/** The Python `str` operations the core relies on, stated over `seq<char>`.
    Whitespace is Python's own `str.isspace()` set (which `re`'s `\s` also matches);
    lower-casing and `isalnum` are modelled for ASCII only. */
module Text {
  import opened Seqs

  /** Python's `str.isspace()` for a single character. */
  predicate IsSpace(c: char) {
    || ('\t' <= c <= '\r')
    || ('\U{1C}' <= c <= ' ')
    || c == '\U{85}' || c == '\U{A0}' || c == '\U{1680}'
    || ('\U{2000}' <= c <= '\U{200A}')
    || c == '\U{2028}' || c == '\U{2029}' || c == '\U{202F}' || c == '\U{205F}' || c == '\U{3000}'
  }

  predicate AllSpace(s: string) {
    forall k :: 0 <= k < |s| ==> IsSpace(s[k])
  }

  /** Neither end of `s` is whitespace: what `str.strip()` guarantees of its result. */
  predicate IsStripped(s: string) {
    s == [] || (!IsSpace(s[0]) && !IsSpace(s[|s| - 1]))
  }

  /** `s` is `r` with whitespace (possibly none) on either side. */
  predicate PaddedBy(s: string, r: string) {
    exists i :: 0 <= i <= |s| - |r| && s[i..i + |r|] == r && AllSpace(s[..i]) && AllSpace(s[i + |r|..])
  }

  function LeadingSpaces(s: string): (n: nat)
    ensures n <= |s|
    ensures AllSpace(s[..n])
    ensures n < |s| ==> !IsSpace(s[n])
  {
    if s == [] || !IsSpace(s[0]) then 0 else 1 + LeadingSpaces(s[1..])
  }

  function TrailingSpaces(s: string): (n: nat)
    ensures n <= |s|
    ensures AllSpace(s[|s| - n..])
    ensures n < |s| ==> !IsSpace(s[|s| - 1 - n])
  {
    if s == [] || !IsSpace(s[|s| - 1]) then 0 else 1 + TrailingSpaces(s[..|s| - 1])
  }

  /** Python's `str.strip()`: the result has no whitespace at either end and is what
      remains of `s` once whitespace is removed from both ends. */
  function Strip(s: string): (r: string)
    ensures IsStripped(r)
    ensures PaddedBy(s, r)
  {
    var i := LeadingSpaces(s);
    var t := s[i..];
    var j := TrailingSpaces(t);
    var r := t[..|t| - j];
    assert s[i..i + |r|] == r && s[..i] == s[..i] && s[i + |r|..] == t[|t| - j..];
    assert r != [] ==> r[0] == t[0] && r[|r| - 1] == t[|t| - 1 - j];
    r
  }

  lemma {:induction false} LeadingSpacesPadded(a: string, y: string)
    requires AllSpace(a) && (y == [] || !IsSpace(y[0]))
    ensures LeadingSpaces(a + y) == |a|
    decreases |a|
  {
    if a == [] {
      assert a + y == y;
    } else {
      assert (a + y)[1..] == a[1..] + y;
      LeadingSpacesPadded(a[1..], y);
    }
  }

  lemma {:induction false} TrailingSpacesPadded(y: string, b: string)
    requires AllSpace(b) && (y == [] || !IsSpace(y[|y| - 1]))
    ensures TrailingSpaces(y + b) == |b|
    decreases |b|
  {
    if b == [] {
      assert y + b == y;
    } else {
      assert (y + b)[..|y + b| - 1] == y + b[..|b| - 1];
      TrailingSpacesPadded(y, b[..|b| - 1]);
    }
  }

  /** `strip()` removes exactly the padding: whitespace around an already stripped string. */
  lemma StripPadded(a: string, x: string, b: string)
    requires AllSpace(a) && AllSpace(b) && IsStripped(x)
    ensures Strip(a + x + b) == x
  {
    if x == [] {
      assert a + x + b == (a + b) + [];
      LeadingSpacesPadded(a + b, []);
    } else {
      assert a + x + b == a + (x + b);
      LeadingSpacesPadded(a, x + b);
      assert (a + x + b)[|a|..] == x + b;
      TrailingSpacesPadded(x, b);
      assert (x + b)[..|x|] == x;
    }
  }
  /** The padding `strip()` removes: whitespace before and after the result. */
  lemma StripSplit(s: string) returns (a: string, b: string)
    ensures AllSpace(a) && AllSpace(b) && s == a + Strip(s) + b
  {
    var i := LeadingSpaces(s);
    var t := s[i..];
    var j := TrailingSpaces(t);
    var r := t[..|t| - j];
    assert Strip(s) == r;
    a, b := s[..i], t[|t| - j..];
    SplitAt(t, |t| - j);
    SplitAt(s, i);
    ConcatAssoc(a, r, b);
  }

  /** Stripping an already stripped string changes nothing. */
  lemma StripStripped(x: string)
    requires IsStripped(x)
    ensures Strip(x) == x
  {
    StripPadded([], x, []);
    assert [] + x + [] == x;
  }


  /** Index of the first `c` in `s`, or -1 (Python's `str.find`). */
  function Find(s: string, c: char): (r: int)
    ensures -1 <= r < |s|
    ensures r == -1 <==> c !in s
    ensures r >= 0 ==> s[r] == c && c !in s[..r]
  {
    if s == [] then -1
    else if s[0] == c then 0
    else
      var r := Find(s[1..], c);
      assert r >= 0 ==> s[..r + 1] == [s[0]] + s[1..][..r];
      if r < 0 then -1 else r + 1
  }

  /** Index of the last `c` in `s`, or -1 (Python's `str.rfind`). */
  function RFind(s: string, c: char): (r: int)
    ensures -1 <= r < |s|
    ensures r == -1 <==> c !in s
    ensures r >= 0 ==> s[r] == c && c !in s[r + 1..]
  {
    if s == [] then -1
    else if s[|s| - 1] == c then |s| - 1
    else
      var init := s[..|s| - 1];
      var r := RFind(init, c);
      assert s == init + [s[|s| - 1]];
      assert r >= 0 ==> s[r + 1..] == init[r + 1..] + [s[|s| - 1]];
      r
  }

  predicate OccursAt(s: string, sub: string, i: int) {
    0 <= i && i + |sub| <= |s| && s[i..i + |sub|] == sub
  }

  /** Python's `sub in s`. */
  predicate Contains(s: string, sub: string) {
    exists i | 0 <= i <= |s| - |sub| :: OccursAt(s, sub, i)
  }

  /** `s` holds no occurrence of `sub`. */
  ghost predicate Absent(s: string, sub: string) {
    forall i :: !OccursAt(s, sub, i)
  }

  /** Index of the leftmost occurrence of `sub` in `s`, or -1 (Python's `str.find`). */
  function IndexOf(s: string, sub: string): (r: int)
    ensures -1 <= r
    ensures r >= 0 ==> OccursAt(s, sub, r)
    ensures forall i :: 0 <= i && (r < 0 || i < r) ==> !OccursAt(s, sub, i)
    decreases |s|
  {
    if |s| < |sub| then -1
    else if sub <= s then 0
    else
      var r := IndexOf(s[1..], sub);
      assert forall i :: 1 <= i ==> (OccursAt(s, sub, i) <==> OccursAt(s[1..], sub, i - 1)) by {
        forall i | 1 <= i ensures OccursAt(s, sub, i) <==> OccursAt(s[1..], sub, i - 1) {
          if i + |sub| <= |s| {
            var u, v := s[i..i + |sub|], s[1..][i - 1..i - 1 + |sub|];
            forall m | 0 <= m < |sub| ensures u[m] == v[m] {
              assert u[m] == s[i + m] && v[m] == s[1..][i - 1 + m];
            }
            assert u == v;
          }
        }
      }
      assert s[0..|sub|] == s[..|sub|];
      if r < 0 then -1 else r + 1
  }

  lemma IndexOfAbsent(s: string, sub: string)
    ensures IndexOf(s, sub) < 0 <==> Absent(s, sub)
  {
  }

  /** Python's `s.replace(pat, rep)`: every leftmost, non-overlapping occurrence of `pat`
      is replaced by `rep`, scanning left to right. */
  function ReplaceAll(s: string, pat: string, rep: string): string
    requires pat != []
    decreases |s|
  {
    var i := IndexOf(s, pat);
    if i < 0 then s else s[..i] + rep + ReplaceAll(s[i + |pat|..], pat, rep)
  }

  predicate SharesNoChar(a: string, b: string) {
    forall c :: c in a ==> c !in b
  }

  lemma AbsentSlice(s: string, k: string, lo: nat, hi: nat)
    requires lo <= hi <= |s| && Absent(s, k)
    ensures Absent(s[lo..hi], k)
  {
    var t := s[lo..hi];
    forall i ensures !OccursAt(t, k, i) {
      if 0 <= i && i + |k| <= |t| {
        assert |t| == hi - lo;
        var u, v := t[i..i + |k|], s[lo + i..lo + i + |k|];
        forall m | 0 <= m < |k| ensures u[m] == v[m] {
          assert t[i + m] == s[lo + i + m];
        }
        assert u == v;
        assert !OccursAt(s, k, lo + i);
      }
    }
  }

  /** Joining two pieces free of `k` creates no `k` when a character foreign to `k`
      stands at the seam. */
  lemma AbsentConcat(x: string, y: string, k: string)
    requires k != [] && Absent(x, k) && Absent(y, k)
    requires (x != [] && x[|x| - 1] !in k) || (y != [] && y[0] !in k)
    ensures Absent(x + y, k)
  {
    var s := x + y;
    forall i ensures !OccursAt(s, k, i) {
      if 0 <= i && i + |k| <= |s| {
      var w := s[i..i + |k|];
      if i + |k| <= |x| {
        assert w == x[i..i + |k|];
        assert !OccursAt(x, k, i);
      } else if i >= |x| {
        assert w == y[i - |x|..i - |x| + |k|];
        assert !OccursAt(y, k, i - |x|);
      } else if x != [] && x[|x| - 1] !in k {
        assert w[|x| - 1 - i] == x[|x| - 1];
      } else {
        assert w[|x| - i] == y[0];
      }
      }
    }
  }

  lemma AbsentForeign(s: string, k: string)
    requires k != [] && SharesNoChar(s, k)
    ensures Absent(s, k)
  {
    forall i ensures !OccursAt(s, k, i) {
      if 0 <= i && i + |k| <= |s| {
        assert s[i..i + |k|][0] == s[i] && s[i] in s && k[0] in k;
      }
    }
  }

  /** After `replace(pat, rep)`, no `pat` remains, provided `rep` is non-empty and shares
      no character with `pat`. */
  lemma {:induction false} ReplaceAllRemoves(s: string, pat: string, rep: string)
    requires pat != [] && rep != [] && SharesNoChar(rep, pat)
    ensures Absent(ReplaceAll(s, pat, rep), pat)
    decreases |s|
  {
    var i := IndexOf(s, pat);
    if i < 0 {
      IndexOfAbsent(s, pat);
    } else {
      var rest := s[i + |pat|..];
      ReplaceAllRemoves(rest, pat, rep);
      var tail := ReplaceAll(rest, pat, rep);
      AbsentForeign(rep, pat);
      assert Absent(s[..i], pat) by {
        forall j ensures !OccursAt(s[..i], pat, j) {
          if 0 <= j && j + |pat| <= i {
            SliceOfPrefix(s, i, j, j + |pat|);
            assert !OccursAt(s, pat, j);
          }
        }
      }
      AbsentConcat(rep, tail, pat);
      AbsentConcat(s[..i], rep + tail, pat);
      ConcatAssoc(s[..i], rep, tail);
    }
  }

  /** `str.isalnum()` for ASCII characters. */
  predicate IsAlnum(c: char) {
    ('0' <= c <= '9') || ('a' <= c <= 'z') || ('A' <= c <= 'Z')
  }

  /** `str.lower()` for ASCII characters. */
  function Lower(c: char): (r: char)
    ensures IsAlnum(c) <==> IsAlnum(r)
    ensures !('A' <= r <= 'Z')
  {
    if 'A' <= c <= 'Z' then (c as int + 32) as char else c
  }

  /** Python's `s.startswith(p)`. */
  predicate StartsWith(s: string, p: string) {
    |p| <= |s| && s[..|p|] == p
  }

  /** Python's `s.endswith(p)`. */
  predicate EndsWith(s: string, p: string) {
    |p| <= |s| && s[|s| - |p|..] == p
  }

  /** Python's slice `s[a:b]` for indices within bounds: empty when `b <= a`. */
  function Slice(s: string, a: nat, b: nat): (r: string)
    requires a <= |s| && b <= |s|
    ensures a <= b ==> r == s[a..b]
    ensures b <= a ==> r == []
  {
    if a <= b then s[a..b] else []
  }

  /** Python's `<` on strings: lexicographic by code point. */
  predicate Less(a: string, b: string) {
    if a == [] then b != []
    else if b == [] then false
    else if a[0] != b[0] then a[0] < b[0]
    else Less(a[1..], b[1..])
  }

  /** Python's `a <= b` on strings. */
  predicate LessEq(a: string, b: string) {
    a == b || Less(a, b)
  }

  lemma {:induction false} LessTrichotomy(a: string, b: string)
    ensures a == b || Less(a, b) || Less(b, a)
    decreases |a|
  {
    if a != [] && b != [] && a[0] == b[0] {
      LessTrichotomy(a[1..], b[1..]);
      if a[1..] == b[1..] {
        assert a == [a[0]] + a[1..] && b == [b[0]] + b[1..];
      }
    }
  }

  lemma {:induction false} LessTransitive(a: string, b: string, c: string)
    requires Less(a, b) && Less(b, c)
    ensures Less(a, c)
    decreases |a|
  {
    if a != [] && a[0] == b[0] && b[0] == c[0] {
      LessTransitive(a[1..], b[1..], c[1..]);
    }
  }

  lemma {:induction false} LessIrreflexive(a: string)
    ensures !Less(a, a)
    decreases |a|
  {
    if a != [] {
      LessIrreflexive(a[1..]);
    }
  }

  /** Replacing cannot create an occurrence of `k` when neither the text nor the
      replacement holds one and the replacement shares no character with `k`. */
  lemma {:induction false} ReplaceAllKeepsAbsent(s: string, pat: string, rep: string, k: string)
    requires pat != [] && k != [] && rep != [] && SharesNoChar(rep, k) && Absent(s, k)
    ensures Absent(ReplaceAll(s, pat, rep), k)
    decreases |s|
  {
    var i := IndexOf(s, pat);
    if i >= 0 {
      var rest := s[i + |pat|..];
      AbsentSlice(s, k, i + |pat|, |s|);
      assert s[i + |pat|..|s|] == rest;
      ReplaceAllKeepsAbsent(rest, pat, rep, k);
      var tail := ReplaceAll(rest, pat, rep);
      AbsentForeign(rep, k);
      AbsentSlice(s, k, 0, i);
      assert s[0..i] == s[..i];
      AbsentConcat(rep, tail, k);
      AbsentConcat(s[..i], rep + tail, k);
      assert s[..i] + rep + tail == s[..i] + (rep + tail);
    }
  }
}
