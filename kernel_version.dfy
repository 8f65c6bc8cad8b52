// tools/get_kernel_ver.py: find `Linux version ` in a kernel image and
// report the run of non-whitespace bytes after it.

module KernelVersion {
  import opened Common

  /** "Linux version " as bytes. */
  const Marker: seq<byte> :=
    [0x4C, 0x69, 0x6E, 0x75, 0x78, 0x20, 0x76, 0x65, 0x72, 0x73, 0x69, 0x6F, 0x6E, 0x20]

  /** The path used when no argument is given. */
  const DefaultPath: string := "kernel"

  /** Whitespace for a bytes pattern's `\s`: space, tab, newline, carriage
    * return, form feed, vertical tab. */
  predicate IsSpaceByte(b: byte)
  {
    b == 0x20 || 0x09 <= b <= 0x0D
  }

  /** `Linux version (\S+)` matches at `i`: the marker, then at least one
    * non-whitespace byte. */
  predicate MatchesAt(s: seq<byte>, i: nat)
  {
    i + |Marker| < |s| && s[i..i + |Marker|] == Marker && !IsSpaceByte(s[i + |Marker|])
  }

  /** The end of the run of non-whitespace bytes that starts at `j`. */
  function RunEnd(s: seq<byte>, j: nat): (k: nat)
    requires j <= |s|
    ensures j <= k <= |s|
    ensures forall m :: j <= m < k ==> !IsSpaceByte(s[m])
    ensures k < |s| ==> IsSpaceByte(s[k])
    decreases |s| - j
  {
    if j == |s| || IsSpaceByte(s[j]) then j else RunEnd(s, j + 1)
  }

  /** The captured group of a match at `i` (`\S+` is greedy). */
  function GroupAt(s: seq<byte>, i: nat): seq<byte>
    requires MatchesAt(s, i)
  {
    s[i + |Marker|..RunEnd(s, i + |Marker|)]
  }

  predicate NoSpace(v: seq<byte>)
  {
    forall k :: 0 <= k < |v| ==> !IsSpaceByte(v[k])
  }

  /** `re.search` from position `from`: the group of the leftmost match. */
  function SearchFrom(s: seq<byte>, from: nat): (r: Option<seq<byte>>)
    requires from <= |s|
    ensures r.Some? ==> r.value != [] && NoSpace(r.value)
    decreases |s| - from
  {
    if from + |Marker| >= |s| then None
    else if MatchesAt(s, from) then Some(GroupAt(s, from))
    else SearchFrom(s, from + 1)
  }

  /** `get_kernel_version`'s search over the file's bytes. */
  function FindVersion(content: seq<byte>): (r: Option<seq<byte>>)
    ensures r.Some? ==> r.value != [] && NoSpace(r.value)
  {
    SearchFrom(content, 0)
  }

  /** The search comes back empty exactly when nothing matches at or after
    * `from`. */
  lemma {:induction false} SearchFromNone(s: seq<byte>, from: nat)
    requires from <= |s|
    ensures SearchFrom(s, from).None? <==> forall i: nat :: from <= i ==> !MatchesAt(s, i)
    decreases |s| - from
  {
    if from + |Marker| >= |s| {
    } else if MatchesAt(s, from) {
    } else {
      SearchFromNone(s, from + 1);
      assert forall i: nat :: from <= i ==> (MatchesAt(s, i) ==> from + 1 <= i);
    }
  }

  /** A found version is the group of a match with no match before it. */
  lemma {:induction false} SearchFromWitness(s: seq<byte>, from: nat) returns (i: nat)
    requires from <= |s| && SearchFrom(s, from).Some?
    ensures from <= i && MatchesAt(s, i) && SearchFrom(s, from).value == GroupAt(s, i)
    ensures forall k: nat :: from <= k < i ==> !MatchesAt(s, k)
    decreases |s| - from
  {
    if MatchesAt(s, from) {
      i := from;
    } else {
      i := SearchFromWitness(s, from + 1);
    }
  }

  /** The search finds the leftmost match at or after `from`, and nothing
    * exactly when there is none. */
  lemma SearchFromLeftmost(s: seq<byte>, from: nat)
    requires from <= |s|
    ensures SearchFrom(s, from).None? <==> forall i: nat :: from <= i ==> !MatchesAt(s, i)
    ensures SearchFrom(s, from).Some? ==>
      exists i: nat :: from <= i && MatchesAt(s, i) && SearchFrom(s, from).value == GroupAt(s, i) &&
        forall k: nat :: from <= k < i ==> !MatchesAt(s, k)
  {
    SearchFromNone(s, from);
    if SearchFrom(s, from).Some? {
      var i := SearchFromWitness(s, from);
    }
  }

  /** A match at `i` with none before it. */
  predicate LeftmostMatch(s: seq<byte>, i: nat)
  {
    MatchesAt(s, i) && forall k: nat :: k < i ==> !MatchesAt(s, k)
  }

  /** `v` is the maximal run of non-whitespace bytes right after a marker
    * at `i`. */
  predicate VersionAt(s: seq<byte>, i: nat, v: seq<byte>)
  {
    var j := i + |Marker|;
    j + |v| <= |s| && s[j..j + |v|] == v && (j + |v| == |s| || IsSpaceByte(s[j + |v|]))
  }

  /** The group of a match at `i` sits right after the marker and is followed
    * by the end of the input or a whitespace byte. */
  lemma GroupPlacement(s: seq<byte>, i: nat)
    requires MatchesAt(s, i)
    ensures VersionAt(s, i, GroupAt(s, i))
  {
    var j := i + |Marker|;
    var e := RunEnd(s, j);
    assert |GroupAt(s, i)| == e - j;
  }

  /** The version is the maximal run of non-whitespace bytes right after the
    * leftmost `Linux version ` that has one; there is no version exactly
    * when no `Linux version ` is followed by a non-whitespace byte. */
  lemma FindVersionSpec(content: seq<byte>)
    ensures FindVersion(content).None? <==> forall i: nat :: !MatchesAt(content, i)
    ensures FindVersion(content).Some? ==>
      exists i: nat :: LeftmostMatch(content, i) && VersionAt(content, i, FindVersion(content).value)
  {
    SearchFromNone(content, 0);
    if FindVersion(content).Some? {
      var i := SearchFromWitness(content, 0);
      GroupPlacement(content, i);
      assert LeftmostMatch(content, i);
    }
  }

  /** A run of the script: exit status, bytes written to stdout, and whether
    * an error message went to stderr. */
  datatype ToolRun = ToolRun(status: int, stdout: seq<byte>, reportedError: bool)

  /** The path `main` passes on: the first argument, or `kernel`. */
  function KernelPath(argv: seq<string>): string
  {
    if |argv| > 1 then argv[1] else DefaultPath
  }

  /** `main()` with `argv` standing for `sys.argv` and `files` for the
    * regular files on disk. `print` adds a newline; the UTF-8 decoding of
    * the version is not modelled. */
  function GetKernelVersionTool(argv: seq<string>, files: map<string, seq<byte>>): ToolRun
  {
    var path := KernelPath(argv);
    if path !in files then ToolRun(1, [], true)
    else match FindVersion(files[path])
      case Some(v) => ToolRun(0, v + [0x0A], false)
      case None => ToolRun(1, [], true)
  }

  /** The script succeeds exactly when the file exists and holds a version;
    * then it prints that version and nothing else, and otherwise it prints
    * nothing on stdout, reports an error and exits with status 1. */
  lemma GetKernelVersionToolSpec(argv: seq<string>, files: map<string, seq<byte>>)
    ensures var r := GetKernelVersionTool(argv, files);
      var path := if |argv| > 1 then argv[1] else "kernel";
      (r.status == 0 <==> path in files && exists i: nat :: MatchesAt(files[path], i)) &&
      (r.status == 0 ==> r.stdout == FindVersion(files[path]).value + [0x0A] && !r.reportedError) &&
      (r.status != 0 ==> r.status == 1 && r.stdout == [] && r.reportedError)
  {
    var path := KernelPath(argv);
    if path in files {
      FindVersionSpec(files[path]);
    }
  }
}
