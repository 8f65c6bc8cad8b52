// tools/edit_vndrboot.py: turn a vendor_boot image's ".ROW"/"IROW" markers
// into ".PRC"/"IPRC", count the replacements, and write
// vendor_boot_prc.img next to the input only when something was replaced.

module EditVndrboot {
  import opened Common
  import opened Text

  /** One entry of the pattern table: the bytes searched for and their
    * replacement. */
  datatype Rule = Rule(target: seq<byte>, replacement: seq<byte>)

  const DotRow: seq<byte> := [0x2E, 0x52, 0x4F, 0x57]   // ".ROW"
  const DotPrc: seq<byte> := [0x2E, 0x50, 0x52, 0x43]   // ".PRC"
  const IRow: seq<byte> := [0x49, 0x52, 0x4F, 0x57]     // "IROW"
  const IPrc: seq<byte> := [0x49, 0x50, 0x52, 0x43]     // "IPRC"

  /** The pattern table, in the order the dictionary literal lists it. */
  const Patterns: seq<Rule> := [Rule(DotRow, DotPrc), Rule(IRow, IPrc)]

  const OutputName: string := "vendor_boot_prc.img"

  predicate MatchAt(s: seq<byte>, p: seq<byte>, i: nat)
  {
    i + |p| <= |s| && s[i..i + |p|] == p
  }

  /** `bytes.count(p)`: non-overlapping occurrences, scanning left to right. */
  function Count(s: seq<byte>, p: seq<byte>): nat
    requires |p| > 0
    decreases |s|
  {
    if |s| < |p| then 0
    else if s[..|p|] == p then 1 + Count(s[|p|..], p)
    else Count(s[1..], p)
  }

  /** `bytes.replace(p, r)`: every occurrence `count` sees becomes `r`. */
  function Replace(s: seq<byte>, p: seq<byte>, r: seq<byte>): (t: seq<byte>)
    requires |p| > 0
    ensures |p| == |r| ==> |t| == |s|
    decreases |s|
  {
    if |s| < |p| then s
    else if s[..|p|] == p then r + Replace(s[|p|..], p, r)
    else [s[0]] + Replace(s[1..], p, r)
  }

  /** Occurrences of `p` in the tail `s[d..]` are occurrences in `s`, shifted. */
  lemma MatchShift(s: seq<byte>, p: seq<byte>, d: nat, i: nat)
    requires d <= |s|
    ensures MatchAt(s[d..], p, i) <==> MatchAt(s, p, i + d)
  {
    if i + d + |p| <= |s| {
      assert s[d..][i..i + |p|] == s[i + d..i + d + |p|];
    }
  }

  /** The count is zero exactly when the pattern does not occur at all. */
  lemma {:induction false} CountZeroIff(s: seq<byte>, p: seq<byte>)
    requires |p| > 0
    ensures Count(s, p) == 0 <==> forall i: nat :: !MatchAt(s, p, i)
    decreases |s|
  {
    if |s| < |p| {
    } else if s[..|p|] == p {
      assert MatchAt(s, p, 0);
    } else {
      CountZeroIff(s[1..], p);
      forall i: nat ensures MatchAt(s[1..], p, i) <==> MatchAt(s, p, i + 1) {
        MatchShift(s, p, 1, i);
      }
      assert !MatchAt(s, p, 0);
      if Count(s, p) != 0 {
        var i: nat :| MatchAt(s[1..], p, i);
        assert MatchAt(s, p, i + 1);
      } else {
        forall i: nat ensures !MatchAt(s, p, i) {
          if i > 0 { assert !MatchAt(s[1..], p, i - 1); }
        }
      }
    }
  }

  /** Nothing is rewritten when the count is zero, and something is when it
    * is not: the source's `if count > 0` guard changes nothing. */
  lemma {:induction false} ReplaceChangesIffCount(s: seq<byte>, p: seq<byte>, r: seq<byte>)
    requires |p| == |r| > 0 && r != p
    ensures Replace(s, p, r) == s <==> Count(s, p) == 0
    decreases |s|
  {
    if |s| < |p| {
    } else if s[..|p|] == p {
      assert Replace(s, p, r)[..|p|] == r;
    } else {
      ReplaceChangesIffCount(s[1..], p, r);
      assert s == [s[0]] + s[1..];
      if Replace(s, p, r) == s {
        assert Replace(s[1..], p, r) == Replace(s, p, r)[1..];
      }
    }
  }

  /** A byte the replacement changed lies inside an occurrence of the target
    * in the input: every byte outside a match is kept. */
  lemma {:induction false} ChangedOnlyInMatches(s: seq<byte>, p: seq<byte>, r: seq<byte>, i: nat)
    requires |p| == |r| > 0
    requires i < |s| && Replace(s, p, r)[i] != s[i]
    ensures exists j: nat :: j <= i < j + |p| && MatchAt(s, p, j)
    decreases |s|
  {
    if |s| < |p| {
    } else if s[..|p|] == p {
      if i < |p| {
        assert MatchAt(s, p, 0);
      } else {
        assert Replace(s, p, r)[i] == Replace(s[|p|..], p, r)[i - |p|];
        ChangedOnlyInMatches(s[|p|..], p, r, i - |p|);
        var j: nat :| j <= i - |p| < j + |p| && MatchAt(s[|p|..], p, j);
        MatchShift(s, p, |p|, j);
        assert MatchAt(s, p, j + |p|);
      }
    } else {
      assert i > 0;
      assert Replace(s, p, r)[i] == Replace(s[1..], p, r)[i - 1];
      ChangedOnlyInMatches(s[1..], p, r, i - 1);
      var j: nat :| j <= i - 1 < j + |p| && MatchAt(s[1..], p, j);
      MatchShift(s, p, 1, j);
      assert MatchAt(s, p, j + 1);
    }
  }

  /** A prefix of the output that never shows the first byte of the
    * replacement was copied from the input unchanged. */
  lemma {:induction false} PrefixUnchanged(u: seq<byte>, p: seq<byte>, r: seq<byte>, m: nat)
    requires |p| == |r| > 0 && m <= |u|
    ensures (forall j :: 0 <= j < m ==> Replace(u, p, r)[j] != r[0]) ==>
            Replace(u, p, r)[..m] == u[..m]
    decreases |u|
  {
    var t := Replace(u, p, r);
    if |u| < |p| || m == 0 {
    } else if u[..|p|] == p {
      assert t[0] == r[0];
    } else {
      var t1 := Replace(u[1..], p, r);
      assert t == [u[0]] + t1;
      PrefixUnchanged(u[1..], p, r, m - 1);
      if forall j :: 0 <= j < m ==> t[j] != r[0] {
        forall j | 0 <= j < m - 1 ensures t1[j] != r[0] {
          assert t1[j] == t[j + 1];
        }
        assert t[..m] == [u[0]] + t1[..m - 1];
        assert u[..m] == [u[0]] + u[1..][..m - 1];
      }
    }
  }

  /** The replacement and a pattern `q` of the same length cannot overlap in
    * a way that spells `q`. */
  predicate Disjoint(q: seq<byte>, r: seq<byte>)
  {
    |q| == |r| > 0 && r != q &&
    (forall k :: 1 <= k < |r| ==> r[k] != q[0]) &&
    (forall k :: 1 <= k < |q| ==> q[k] != r[0])
  }

  /** When the input does not start with `p`, a `q` at the start of the
    * output was already at the start of the input. */
  lemma HeadWindow(s: seq<byte>, p: seq<byte>, r: seq<byte>, q: seq<byte>)
    requires |p| == |r| && Disjoint(q, r) && |s| >= |p| && s[..|p|] != p
    ensures MatchAt(Replace(s, p, r), q, 0) ==> MatchAt(s, q, 0)
  {
    var n := |q|;
    var t := Replace(s, p, r);
    var t1 := Replace(s[1..], p, r);
    assert t == [s[0]] + t1;
    PrefixUnchanged(s[1..], p, r, n - 1);
    if MatchAt(t, q, 0) {
      assert t[..n] == q;
      forall j | 0 <= j < n - 1 ensures t1[j] != r[0] {
        assert t1[j] == t[j + 1] == q[j + 1];
      }
      assert t1[..n - 1] == s[1..][..n - 1];
      assert t[..n] == [s[0]] + t1[..n - 1];
      assert s[..n] == [s[0]] + s[1..][..n - 1];
      assert s[0..n] == s[..n];
    }
  }

  /** After `replace(p, r)`, a pattern `q` that `r` cannot spell occurs
    * nowhere, provided it is `p` itself or did not occur before. */
  lemma {:induction false} NoOccurrenceAfterReplace(s: seq<byte>, p: seq<byte>, r: seq<byte>, q: seq<byte>)
    requires |p| == |r| && Disjoint(q, r)
    requires q == p || forall i: nat :: !MatchAt(s, q, i)
    ensures forall i: nat :: !MatchAt(Replace(s, p, r), q, i)
    decreases |s|
  {
    if |s| < |p| {
    } else if s[..|p|] == p {
      forall i: nat ensures MatchAt(s[|p|..], q, i) <==> MatchAt(s, q, i + |p|) {
        MatchShift(s, q, |p|, i);
      }
      NoOccurrenceAfterReplace(s[|p|..], p, r, q);
      NoMatchBehindReplacement(r, Replace(s[|p|..], p, r), q);
    } else {
      forall i: nat ensures MatchAt(s[1..], q, i) <==> MatchAt(s, q, i + 1) {
        MatchShift(s, q, 1, i);
      }
      NoOccurrenceAfterReplace(s[1..], p, r, q);
      HeadWindow(s, p, r, q);
      assert s[0..|p|] == s[..|p|];
      NoMatchBehindByte(s[0], Replace(s[1..], p, r), q);
    }
  }

  /** No `q` in `r + t` when there is none in `t` and `r` cannot spell one. */
  lemma NoMatchBehindReplacement(r: seq<byte>, t1: seq<byte>, q: seq<byte>)
    requires Disjoint(q, r) && forall i: nat :: !MatchAt(t1, q, i)
    ensures forall i: nat :: !MatchAt(r + t1, q, i)
  {
    var n := |q|;
    var t := r + t1;
    forall i: nat ensures !MatchAt(t, q, i) {
      if i >= n {
        MatchShift(t, q, n, i - n);
        assert t[n..] == t1;
      } else if i == 0 {
        assert t[..n] == r;
      } else if i + n <= |t| {
        assert t[i..i + n][0] == r[i];
      }
    }
  }

  /** No `q` in `[b] + t` when there is none in `t` and none at the start. */
  lemma NoMatchBehindByte(b: byte, t1: seq<byte>, q: seq<byte>)
    requires forall i: nat :: !MatchAt(t1, q, i)
    requires !MatchAt([b] + t1, q, 0)
    ensures forall i: nat :: !MatchAt([b] + t1, q, i)
  {
    var t := [b] + t1;
    forall i: nat | i >= 1 ensures !MatchAt(t, q, i) {
      MatchShift(t, q, 1, i - 1);
      assert t[1..] == t1;
    }
  }

  /** The rules applied in table order, each to the previous result. */
  function ApplyRules(s: seq<byte>, rules: seq<Rule>): seq<byte>
    requires forall k :: 0 <= k < |rules| ==> |rules[k].target| > 0
  {
    if rules == [] then s
    else
      var last := rules[|rules| - 1];
      Replace(ApplyRules(s, rules[..|rules| - 1]), last.target, last.replacement)
  }

  /** The sum of the per-rule counts, each taken on the content as the
    * earlier rules left it. */
  function TotalCount(s: seq<byte>, rules: seq<Rule>): nat
    requires forall k :: 0 <= k < |rules| ==> |rules[k].target| > 0
  {
    if rules == [] then 0
    else
      var init := rules[..|rules| - 1];
      TotalCount(s, init) + Count(ApplyRules(s, init), rules[|rules| - 1].target)
  }

  /** The loop of `main`: count each pattern, replace it when it was found,
    * and add up the counts. */
  method PatchContent(content: seq<byte>) returns (modified: seq<byte>, found: nat)
    ensures modified == ApplyRules(content, Patterns)
    ensures found == TotalCount(content, Patterns)
  {
    modified := content;
    found := 0;
    for i := 0 to |Patterns|
      invariant modified == ApplyRules(content, Patterns[..i])
      invariant found == TotalCount(content, Patterns[..i])
    {
      var rule := Patterns[i];
      assert Patterns[..i + 1][..i] == Patterns[..i];
      var count := Count(modified, rule.target);
      if count > 0 {
        modified := Replace(modified, rule.target, rule.replacement);
        found := found + count;
      } else {
        ReplaceChangesIffCount(modified, rule.target, rule.replacement);
      }
    }
    assert Patterns[..|Patterns|] == Patterns;
  }

  /** What the patch does to the bytes: the length is kept, neither target
    * is left anywhere, and the count is the sum of the two passes' counts. */
  lemma PatchResult(content: seq<byte>)
    ensures var once := Replace(content, DotRow, DotPrc);
      var out := ApplyRules(content, Patterns);
      out == Replace(once, IRow, IPrc) &&
      |out| == |content| &&
      (forall i: nat :: !MatchAt(out, DotRow, i)) &&
      (forall i: nat :: !MatchAt(out, IRow, i)) &&
      TotalCount(content, Patterns) == Count(content, DotRow) + Count(once, IRow)
  {
    var first := Patterns[..1];
    assert first == [Rule(DotRow, DotPrc)];
    assert first[..0] == [];
    assert Patterns[..|Patterns| - 1] == first;
    var once := Replace(content, DotRow, DotPrc);
    assert ApplyRules(content, first) == once;
    assert TotalCount(content, first) == Count(content, DotRow);
    assert Patterns[|Patterns| - 1].target == IRow;
    assert Disjoint(DotRow, DotPrc);
    assert Disjoint(IRow, IPrc);
    assert Disjoint(DotRow, IPrc);
    NoOccurrenceAfterReplace(content, DotRow, DotPrc, DotRow);
    NoOccurrenceAfterReplace(once, IRow, IPrc, DotRow);
    NoOccurrenceAfterReplace(once, IRow, IPrc, IRow);
  }

  /** The patched content differs from the input exactly when something was
    * found. */
  lemma PatchChangesIffFound(content: seq<byte>)
    ensures ApplyRules(content, Patterns) == content <==> TotalCount(content, Patterns) == 0
  {
    PatchResult(content);
    var once := Replace(content, DotRow, DotPrc);
    ReplaceChangesIffCount(content, DotRow, DotPrc);
    ReplaceChangesIffCount(once, IRow, IPrc);
    CountZeroIff(content, DotRow);
    if ApplyRules(content, Patterns) == content {
      // No target is left in the output, so none was in the input.
      CountZeroIff(once, IRow);
    }
  }

  /** `Path(arg).parent / "vendor_boot_prc.img"` for a POSIX path: the
    * output name in the input's directory, that is after the input's last
    * `/` (with no directory part when the input has none). */
  function OutputPath(input: string): (out: string)
    ensures |out| >= |OutputName| && out[|out| - |OutputName|..] == OutputName
    ensures var dir := out[..|out| - |OutputName|];
      |dir| <= |input| && dir == input[..|dir|] &&
      (dir == [] || dir[|dir| - 1] == '/') && '/' !in input[|dir|..]
  {
    input[..|input| - |AfterLast(input, '/')|] + OutputName
  }

  /** `main()` with `argv` standing for `sys.argv` and `files` for the
    * regular files on disk; returns the exit status and the files after the
    * run. */
  method EditVendorBoot(argv: seq<string>, files: map<string, seq<byte>>)
    returns (status: int, after: map<string, seq<byte>>, found: nat)
    ensures |argv| != 2 || argv[1] !in files ==> status == 1 && after == files && found == 0
    ensures |argv| == 2 && argv[1] in files ==>
      var content := files[argv[1]];
      status == 0 &&
      found == TotalCount(content, Patterns) &&
      after == if found > 0 then files[OutputPath(argv[1]) := ApplyRules(content, Patterns)] else files
  {
    if |argv| != 2 {
      return 1, files, 0;
    }
    var input := argv[1];
    var output := OutputPath(input);
    if input !in files {
      return 1, files, 0;
    }
    var content := files[input];
    var modified;
    modified, found := PatchContent(content);
    after := files;
    if found > 0 {
      after := after[output := modified];
    }
    status := 0;
  }
}
