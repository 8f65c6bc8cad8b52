// Python string operations the LTBox code relies on, over `string`
// (= seq<char>): `str.isspace`, `strip`, `split(sep)`, `split()`,
// `sep.join`, `startswith`, the `in` substring test, ASCII `upper` and the
// code-point order `sorted` uses.

module Text {

  /** Python's `str.isspace` for one character (the whitespace that `strip`,
    * `split()` and the regular-expression class `\s` use on `str`). */
  predicate IsSpace(c: char)
  {
    ('\U{9}' <= c <= '\U{D}') || ('\U{1C}' <= c <= '\U{20}') ||
    c == '\U{85}' || c == '\U{A0}' || c == '\U{1680}' ||
    ('\U{2000}' <= c <= '\U{200A}') || c == '\U{2028}' || c == '\U{2029}' ||
    c == '\U{202F}' || c == '\U{205F}' || c == '\U{3000}'
  }

  predicate AllSpace(s: string)
  {
    forall k :: 0 <= k < |s| ==> IsSpace(s[k])
  }

  /** No whitespace at either end (what `strip` leaves). */
  predicate Trimmed(s: string)
  {
    s == [] || (!IsSpace(s[0]) && !IsSpace(s[|s| - 1]))
  }

  /** The first index at or after `i` that is not whitespace. */
  function SkipSpaces(s: string, i: nat): (k: nat)
    requires i <= |s|
    ensures i <= k <= |s|
    ensures forall m :: i <= m < k ==> IsSpace(s[m])
    ensures k < |s| ==> !IsSpace(s[k])
    decreases |s| - i
  {
    if i == |s| || !IsSpace(s[i]) then i else SkipSpaces(s, i + 1)
  }

  /** The end of `s[lo..j]` once trailing whitespace is dropped. */
  function TrimEnd(s: string, lo: nat, j: nat): (k: nat)
    requires lo <= j <= |s|
    ensures lo <= k <= j
    ensures forall m :: k <= m < j ==> IsSpace(s[m])
    ensures k > lo ==> !IsSpace(s[k - 1])
    decreases j
  {
    if j == lo || !IsSpace(s[j - 1]) then j else TrimEnd(s, lo, j - 1)
  }

  /** Python's `s.strip()`. */
  function Strip(s: string): (r: string)
    ensures Trimmed(r)
    ensures |r| <= |s|
    ensures r == [] <==> AllSpace(s)
  {
    var i := SkipSpaces(s, 0);
    var j := TrimEnd(s, i, |s|);
    assert i < |s| ==> j > i;
    s[i..j]
  }

  /** `strip` removes exactly the surrounding whitespace: whatever trimmed
    * text is wrapped in whitespace, stripping gives that text back. */
  lemma StripExact(p: string, r: string, q: string)
    requires AllSpace(p) && AllSpace(q) && Trimmed(r)
    ensures Strip(p + r + q) == r
  {
    var s := p + r + q;
    var i := SkipSpaces(s, 0);
    var j := TrimEnd(s, i, |s|);
    if r == [] {
      assert AllSpace(s) by {
        forall k | 0 <= k < |s| ensures IsSpace(s[k]) {
          if k < |p| { assert s[k] == p[k]; } else { assert s[k] == q[k - |p|]; }
        }
      }
    } else {
      assert s[|p|] == r[0];
      assert forall m :: 0 <= m < |p| ==> s[m] == p[m];
      assert i == |p|;
      assert s[|p| + |r| - 1] == r[|r| - 1];
      assert forall m :: |p| + |r| <= m < |s| ==> s[m] == q[m - |p| - |r|];
      assert j == |p| + |r|;
      assert s[i..j] == r;
    }
  }

  predicate StartsWith(s: string, prefix: string)
  {
    |prefix| <= |s| && s[..|prefix|] == prefix
  }

  /** `sub` occurs in `s` starting at index `i`. */
  predicate OccursAt(s: string, sub: string, i: nat)
  {
    i + |sub| <= |s| && s[i..i + |sub|] == sub
  }

  /** Python's `sub in s`. */
  function Contains(s: string, sub: string): (b: bool)
    ensures b <==> exists i: nat :: OccursAt(s, sub, i)
    decreases |s|
  {
    if StartsWith(s, sub) then
      assert OccursAt(s, sub, 0);
      true
    else if s == [] then
      assert |sub| > 0;
      false
    else
      var b := Contains(s[1..], sub);
      if b then
        var i: nat :| OccursAt(s[1..], sub, i);
        assert s[1..][i..i + |sub|] == s[i + 1..i + 1 + |sub|];
        assert OccursAt(s, sub, i + 1);
        true
      else
        assert forall i: nat :: !OccursAt(s, sub, i) by {
          forall i: nat ensures !OccursAt(s, sub, i) {
            if i > 0 && i + |sub| <= |s| {
              assert !OccursAt(s[1..], sub, i - 1);
              assert s[1..][i - 1..i - 1 + |sub|] == s[i..i + |sub|];
            }
          }
        }
        false
  }

  /** Python's `str.upper()` on ASCII letters; other characters unchanged. */
  function AsciiUpper(s: string): (r: string)
    ensures |r| == |s|
    ensures forall k :: 0 <= k < |s| ==>
      r[k] == (if 'a' <= s[k] <= 'z' then (s[k] as int - 32) as char else s[k])
  {
    if s == [] then []
    else [if 'a' <= s[0] <= 'z' then (s[0] as int - 32) as char else s[0]] + AsciiUpper(s[1..])
  }

  /** The first index of `c` in `s`, or `|s|` when `c` does not occur. */
  function IndexOf(s: string, c: char): (k: nat)
    ensures k <= |s|
    ensures k < |s| ==> s[k] == c
    ensures forall m :: 0 <= m < k ==> s[m] != c
  {
    if s == [] then 0
    else if s[0] == c then 0
    else 1 + IndexOf(s[1..], c)
  }

  /** Python's `s.split(c)` for a one-character separator. */
  function Split(s: string, c: char): (parts: seq<string>)
    ensures |parts| >= 1
    ensures forall k :: 0 <= k < |parts| ==> c !in parts[k]
    decreases |s|
  {
    var k := IndexOf(s, c);
    if k == |s| then [s]
    else [s[..k]] + Split(s[k + 1..], c)
  }

  /** Python's `c.join(parts)`. */
  function Join(parts: seq<string>, c: char): string
  {
    if |parts| == 0 then ""
    else if |parts| == 1 then parts[0]
    else parts[0] + [c] + Join(parts[1..], c)
  }

  /** Joining the pieces of a split gives the original text back. */
  lemma {:induction false} JoinSplit(s: string, c: char)
    ensures Join(Split(s, c), c) == s
    decreases |s|
  {
    var k := IndexOf(s, c);
    if k < |s| {
      var rest := Split(s[k + 1..], c);
      JoinSplit(s[k + 1..], c);
      JoinCons(s[..k], rest, c);
      assert s == s[..k] + [c] + s[k + 1..];
    }
  }

  /** Joining a first piece in front of at least one more. */
  lemma JoinCons(a: string, rest: seq<string>, c: char)
    requires |rest| >= 1
    ensures Join([a] + rest, c) == a + [c] + Join(rest, c)
  {
    assert ([a] + rest)[1..] == rest;
  }

  /** Splitting a join of separator-free pieces gives the pieces back: the
    * comma-joined lists the source puts on a command line determine the
    * lists. */
  lemma {:induction false} SplitJoin(parts: seq<string>, c: char)
    requires |parts| >= 1
    requires forall k :: 0 <= k < |parts| ==> c !in parts[k]
    ensures Split(Join(parts, c), c) == parts
    decreases |parts|
  {
    if |parts| == 1 {
      assert IndexOf(parts[0], c) == |parts[0]|;
    } else {
      assert parts == [parts[0]] + parts[1..];
      JoinCons(parts[0], parts[1..], c);
      SplitFirst(parts[0], c, Join(parts[1..], c));
      SplitJoin(parts[1..], c);
    }
  }

  /** Splitting at the first separator: the text before it is the first
    * piece and the rest is split on. */
  lemma SplitFirst(a: string, c: char, b: string)
    requires c !in a
    ensures Split(a + [c] + b, c) == [a] + Split(b, c)
  {
    var s := a + [c] + b;
    assert forall m :: 0 <= m < |a| ==> s[m] == a[m];
    assert s[|a|] == c;
    assert IndexOf(s, c) == |a|;
    assert s[..|a|] == a && s[|a| + 1..] == b;
  }

  /** The first index at which `pat` occurs in `s`, or `|s|` if none. */
  function Find(s: string, pat: string): (k: nat)
    requires |pat| > 0
    ensures k <= |s|
    ensures k < |s| ==> OccursAt(s, pat, k)
    ensures forall m: nat :: m < k ==> !OccursAt(s, pat, m)
    decreases |s|
  {
    if |s| < |pat| then
      assert forall m: nat :: !OccursAt(s, pat, m);
      |s|
    else if s[..|pat|] == pat then 0
    else
      var k := 1 + Find(s[1..], pat);
      assert forall m: nat :: 1 <= m ==> (OccursAt(s, pat, m) <==> OccursAt(s[1..], pat, m - 1)) by {
        forall m: nat | 1 <= m ensures OccursAt(s, pat, m) <==> OccursAt(s[1..], pat, m - 1) {
          if m + |pat| <= |s| { assert s[1..][m - 1..m - 1 + |pat|] == s[m..m + |pat|]; }
        }
      }
      k
  }

  /** A pattern whose first character is absent does not occur. */
  lemma NoOccurWithoutFirst(s: string, pat: string)
    requires |pat| > 0 && pat[0] !in s
    ensures !Contains(s, pat)
  {
    forall i: nat | i + |pat| <= |s| ensures !OccursAt(s, pat, i) {
      assert s[i..i + |pat|][0] == s[i];
    }
  }

  /** A two-character pattern absent from `a` and from `b` and not formed
    * across the join is absent from `a + b`. */
  lemma NoOccurConcat2(a: string, b: string, pat: string)
    requires |pat| == 2 && !Contains(a, pat) && !Contains(b, pat)
    requires a == [] || b == [] || a[|a| - 1] != pat[0] || b[0] != pat[1]
    ensures !Contains(a + b, pat)
  {
    forall i: nat ensures !OccursAt(a + b, pat, i) {
      NoOccurConcat2At(a, b, pat, i);
    }
  }

  lemma NoOccurConcat2At(a: string, b: string, pat: string, i: nat)
    requires |pat| == 2 && !OccursAt(a, pat, i) && (i < |a| || !OccursAt(b, pat, i - |a|))
    requires a == [] || b == [] || a[|a| - 1] != pat[0] || b[0] != pat[1]
    ensures !OccursAt(a + b, pat, i)
  {
    var s := a + b;
    if i + 2 <= |s| {
      if i + 2 <= |a| {
        assert s[i..i + 2] == a[i..i + 2];
      } else if i >= |a| {
        assert s[i..i + 2] == b[i - |a|..i - |a| + 2];
      } else {
        assert s[i..i + 2][0] == a[|a| - 1] && s[i..i + 2][1] == b[0];
      }
    }
  }

  /** `Find` stops at a two-character pattern that starts `b` when `a` holds
    * no occurrence and does not end with its first character. */
  lemma FindAfter2(a: string, b: string, pat: string)
    requires |pat| == 2 && !Contains(a, pat) && StartsWith(b, pat)
    requires a == [] || a[|a| - 1] != pat[0]
    ensures Find(a + b, pat) == |a|
  {
    var s := a + b;
    assert s[|a|..|a| + 2] == b[..2];
    assert OccursAt(s, pat, |a|);
    forall i: nat | i < |a| ensures !OccursAt(s, pat, i) {
      if i + 2 <= |a| {
        assert !OccursAt(a, pat, i);
        assert s[i..i + 2] == a[i..i + 2];
      } else {
        assert s[i..i + 2][0] == a[|a| - 1];
      }
    }
  }

  /** `Find` reports an absent pattern at the end. */
  lemma FindAbsent(s: string, pat: string)
    requires |pat| > 0 && !Contains(s, pat)
    ensures Find(s, pat) == |s|
  {
  }

  /** The text after the last `c` in `s` (all of `s` if there is none):
    * Python's `s.split(c)[-1]`. */
  function AfterLast(s: string, c: char): (r: string)
    ensures c !in r
    ensures |r| <= |s| && r == s[|s| - |r|..]
    ensures |r| < |s| ==> s[|s| - |r| - 1] == c
    decreases |s|
  {
    var k := IndexOf(s, c);
    if k == |s| then s else AfterLast(s[k + 1..], c)
  }

  /** The text after the last separator is everything after a separator
    * that is not followed by another. */
  lemma {:induction false} AfterLastSplit(a: string, c: char, b: string)
    requires c !in b
    ensures AfterLast(a + [c] + b, c) == b
    decreases |a|
  {
    var s := a + [c] + b;
    var j := IndexOf(s, c);
    assert s[|a|] == c;
    assert j <= |a|;
    if j == |a| {
      assert s[j + 1..] == b;
      assert IndexOf(b, c) == |b|;
    } else {
      assert s[j + 1..] == a[j + 1..] + [c] + b;
      AfterLastSplit(a[j + 1..], c, b);
    }
  }

  /** Length of the run of non-whitespace characters at the start of `s`. */
  function WordLength(s: string): (n: nat)
    ensures n <= |s|
    ensures forall m :: 0 <= m < n ==> !IsSpace(s[m])
    ensures n < |s| ==> IsSpace(s[n])
  {
    if s == [] || IsSpace(s[0]) then 0 else 1 + WordLength(s[1..])
  }

  /** Python's `s.split()`: the maximal runs of non-whitespace characters. */
  function Words(s: string): (ws: seq<string>)
    ensures forall k :: 0 <= k < |ws| ==> ws[k] != [] && !HasSpace(ws[k])
    decreases |s|
  {
    var i := SkipSpaces(s, 0);
    if i == |s| then []
    else
      var n := WordLength(s[i..]);
      [s[i..][..n]] + Words(s[i..][n..])
  }

  predicate HasSpace(s: string)
  {
    exists k :: 0 <= k < |s| && IsSpace(s[k])
  }

  /** Only whitespace gives no words. */
  lemma WordsOfSpace(p: string)
    requires AllSpace(p)
    ensures Words(p) == []
  {
    assert SkipSpaces(p, 0) == |p|;
  }

  /** After leading whitespace, the first word is the whole run of
    * non-whitespace characters up to the next whitespace or the end; the
    * rest is split on from there. */
  lemma WordsCons(p: string, w: string, q: string)
    requires AllSpace(p) && w != [] && !HasSpace(w)
    requires q == [] || IsSpace(q[0])
    ensures Words(p + w + q) == [w] + Words(q)
  {
    var s := p + w + q;
    var i := SkipSpaces(s, 0);
    assert s[|p|] == w[0];
    assert i == |p|;
    var t := s[i..];
    assert t == w + q;
    var n := WordLength(t);
    forall m | 0 <= m < |w| ensures !IsSpace(t[m]) {
      assert t[m] == w[m];
    }
    assert |w| < |t| ==> t[|w|] == q[0] && IsSpace(t[|w|]);
    assert n == |w|;
    assert t[..n] == w && t[n..] == q;
  }

  /** The code-point (lexicographic) order Python uses to compare `str`. */
  predicate LexLe(a: string, b: string)
    decreases |a|
  {
    a == [] || (b != [] && (a[0] < b[0] || (a[0] == b[0] && LexLe(a[1..], b[1..]))))
  }

  lemma {:induction false} LexLeTotal(a: string, b: string)
    ensures LexLe(a, b) || LexLe(b, a)
    decreases |a|
  {
    if a != [] && b != [] && a[0] == b[0] {
      LexLeTotal(a[1..], b[1..]);
    }
  }

  lemma {:induction false} LexLeAntisymmetric(a: string, b: string)
    requires LexLe(a, b) && LexLe(b, a)
    ensures a == b
    decreases |a|
  {
    if a != [] {
      LexLeAntisymmetric(a[1..], b[1..]);
      assert a == [a[0]] + a[1..] && b == [b[0]] + b[1..];
    }
  }

  lemma {:induction false} LexLeTransitive(a: string, b: string, c: string)
    requires LexLe(a, b) && LexLe(b, c)
    ensures LexLe(a, c)
    decreases |a|
  {
    if a != [] && a[0] == b[0] && b[0] == c[0] {
      LexLeTransitive(a[1..], b[1..], c[1..]);
    }
  }
}
