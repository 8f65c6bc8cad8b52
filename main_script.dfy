// main.py: its own `run_command`, the kernel-version gate before rooting,
// the parsers that read the image-information script and `avbtool
// info_image`, the choice of signing key, and the order in which
// `show_image_info` inspects files.

module MainScript {
  import opened Common
  import opened Text
  import Utils
  import KernelVersion

  // ---------------------------------------------------------------------
  // run_command

  /** A run of `run_command`: how it ended, the environment the tool was
    * started with, and the lines it echoed after a successful run. When
    * `CalledProcessError` is raised, the captured output is reported on the
    * console under "Stdout:"/"Stderr:" headers; that report is console
    * output, which is not modelled, so `echoed` is then empty. */
  datatype MainRun = MainRun(result: Utils.RunResult, launchEnv: Option<map<string, string>>,
                             echoed: seq<Utils.Echo>)

  /** What `run_command` echoes after a run that returned: each non-empty
    * stream, stripped. */
  function EchoStreams(out: string, err: string): seq<Utils.Echo>
  {
    (if out != "" then [Utils.ToStdout(Strip(out))] else []) +
    (if err != "" then [Utils.ToStderr(Strip(err))] else [])
  }

  /** main.py's `run_command(command, check=check)` with `osEnviron` for
    * `os.environ`, `toolsDir` and `sep` for `TOOLS_DIR` and `os.pathsep`,
    * and `outcome` for what the tool did. Output is always captured. */
  function RunCommand(check: bool, osEnviron: map<string, string>, toolsDir: string, sep: char,
                      outcome: Outcome): (r: MainRun)
    ensures "PATH" !in osEnviron ==> r == MainRun(Utils.Raised(KeyError("PATH")), None, [])
    ensures "PATH" in osEnviron ==>
      r.launchEnv == Some(osEnviron["PATH" := PrependPath(toolsDir, sep, osEnviron["PATH"])])
    ensures r.result.Raised? <==>
      "PATH" !in osEnviron || outcome.Missing? || (check && outcome.code != 0)
    ensures r.result.Raised? ==> r.echoed == []
    ensures r.result.Returned? ==>
      r.result.proc == Utils.CompletedProcess(outcome.code, Some(outcome.out), Some(outcome.err)) &&
      r.echoed == EchoStreams(outcome.out, outcome.err)
  {
    if "PATH" !in osEnviron then MainRun(Utils.Raised(KeyError("PATH")), None, [])
    else
      var env := osEnviron["PATH" := PrependPath(toolsDir, sep, osEnviron["PATH"])];
      var result := Utils.Launch(outcome, check, true);
      if result.Raised? then MainRun(result, Some(env), [])
      else MainRun(result, Some(env), EchoStreams(outcome.out, outcome.err))
  }

  /** Read back as a list of directories, the `PATH` main.py launches with
    * is `TOOLS_DIR` followed by every entry of the old value. */
  lemma RunCommandSearchPath(osEnviron: map<string, string>, toolsDir: string, sep: char, check: bool,
                             outcome: Outcome)
    requires "PATH" in osEnviron && sep !in toolsDir
    ensures var r := RunCommand(check, osEnviron, toolsDir, sep, outcome);
      r.launchEnv.Some? && "PATH" in r.launchEnv.value &&
      Split(r.launchEnv.value["PATH"], sep) == [toolsDir] + Split(osEnviron["PATH"], sep)
  {
    SplitFirst(toolsDir, sep, osEnviron["PATH"]);
  }

  // ---------------------------------------------------------------------
  // The kernel gate of patch_boot_with_root

  /** `TARGET_KERNEL_VERSION`. */
  const TargetKernel: string := "6.1.112"

  /** The gate on the output of `get_kernel_ver.py kernel`: the stripped
    * version must start with the target, otherwise the run exits 1. */
  function KernelAccepted(stdout: string): (r: Result<string>)
    ensures r.Ok? <==> StartsWith(Strip(stdout), TargetKernel)
    ensures r.Ok? ==> r.value == Strip(stdout) && Trimmed(r.value)
    ensures r.Err? ==> r.error == SystemExit(1)
  {
    var version := Strip(stdout);
    if StartsWith(version, TargetKernel) then Ok(version) else Err(SystemExit(1))
  }

  /** The whole step: run the extractor through `run_command`, then gate. A
    * failing extractor raises `CalledProcessError`. */
  function KernelGate(osEnviron: map<string, string>, toolsDir: string, sep: char, outcome: Outcome): (r: Result<string>)
    ensures "PATH" in osEnviron && outcome.Exited? && outcome.code != 0 ==>
      r == Err(CalledProcessError(outcome.code))
    ensures r.Ok? ==> outcome.Exited? && outcome.code == 0 && StartsWith(r.value, TargetKernel)
  {
    var run := RunCommand(true, osEnviron, toolsDir, sep, outcome);
    match run.result
    case Raised(e) => Err(e)
    case Returned(p) => KernelAccepted(p.stdout.value)
  }

  /** Bytes as text, one character per byte (exact for ASCII). */
  function AsciiText(b: seq<byte>): (t: string)
    ensures |t| == |b| && forall k :: 0 <= k < |b| ==> t[k] as int == b[k] as int
  {
    seq(|b|, k requires 0 <= k < |b| => (b[k] as int) as char)
  }

  predicate Printable(b: seq<byte>)
  {
    forall k :: 0 <= k < |b| ==> 0x21 <= b[k] <= 0x7E
  }

  /** A printable version reads back as text with no whitespace at its
    * ends, and the newline the extractor prints after it stays a newline. */
  lemma PrintableText(v: seq<byte>)
    requires v != [] && Printable(v)
    ensures Trimmed(AsciiText(v))
    ensures AsciiText(v + [0x0A]) == AsciiText(v) + "\n"
  {
    var t := AsciiText(v);
    assert t[0] as int == v[0] as int && t[|t| - 1] as int == v[|v| - 1] as int;
  }

  /** One printed line passes the gate exactly when its text starts with the
    * target. */
  lemma KernelGateOnLine(osEnviron: map<string, string>, toolsDir: string, sep: char, text: string)
    requires "PATH" in osEnviron && Trimmed(text)
    ensures KernelGate(osEnviron, toolsDir, sep, Exited(0, text + "\n", "")).Ok? <==>
      StartsWith(text, TargetKernel)
  {
    StripExact("", text, "\n");
    assert "" + text + "\n" == text + "\n";
  }

  /** The gate applied to what `get_kernel_ver.py` prints for the image's
    * `kernel` file: a file without a version fails the run with
    * `CalledProcessError(1)`; a printable version passes exactly when it
    * starts with the target. */
  lemma KernelGateOnExtractor(files: map<string, seq<byte>>, osEnviron: map<string, string>,
                              toolsDir: string, sep: char, script: string)
    requires "PATH" in osEnviron
    ensures var t := KernelVersion.GetKernelVersionTool([script, "kernel"], files);
      var gate := KernelGate(osEnviron, toolsDir, sep, Exited(t.status, AsciiText(t.stdout), ""));
      (t.status != 0 ==> gate == Err(CalledProcessError(1))) &&
      (t.status == 0 && Printable(KernelVersion.FindVersion(files["kernel"]).value) ==>
         (gate.Ok? <==> StartsWith(AsciiText(KernelVersion.FindVersion(files["kernel"]).value), TargetKernel)))
  {
    var t := KernelVersion.GetKernelVersionTool([script, "kernel"], files);
    KernelVersion.GetKernelVersionToolSpec([script, "kernel"], files);
    if t.status == 0 {
      var v := KernelVersion.FindVersion(files["kernel"]).value;
      if Printable(v) {
        PrintableText(v);
        KernelGateOnLine(osEnviron, toolsDir, sep, AsciiText(v));
      }
    }
  }

  // ---------------------------------------------------------------------
  // KEY=VALUE information

  /** The key and value of a `KEY=VALUE` line: the text before the first
    * `=` and the rest. */
  function KeyOf(line: string): string
  {
    line[..IndexOf(line, '=')]
  }

  function ValueOf(line: string): string
    requires '=' in line
  {
    line[IndexOf(line, '=') + 1..]
  }

  /** A line written as key, `=`, value splits back into them, whatever the
    * value holds. */
  lemma KeyValueRoundTrip(key: string, value: string)
    requires '=' !in key
    ensures '=' in key + "=" + value
    ensures KeyOf(key + "=" + value) == key && ValueOf(key + "=" + value) == value
  {
    var line := key + "=" + value;
    assert line[|key|] == '=';
    assert forall m :: 0 <= m < |key| ==> line[m] == key[m];
    assert IndexOf(line, '=') == |key|;
  }

  /** The dictionary built from the lines, in order; a later line replaces
    * an earlier one with the same key. */
  function InfoEntries(lines: seq<string>): map<string, string>
  {
    if lines == [] then map[]
    else
      var m := InfoEntries(lines[..|lines| - 1]);
      var line := lines[|lines| - 1];
      if '=' in line then m[KeyOf(line) := ValueOf(line)] else m
  }

  /** The information script's output as a dictionary. */
  function ParseInfo(stdout: string): map<string, string>
  {
    InfoEntries(Split(Strip(stdout), '\n'))
  }

  /** A key that some line with `=` has is present. */
  lemma {:induction false} InfoEntriesHas(lines: seq<string>, i: nat)
    requires i < |lines| && '=' in lines[i]
    ensures KeyOf(lines[i]) in InfoEntries(lines)
    decreases |lines|
  {
    var init := lines[..|lines| - 1];
    if i < |lines| - 1 {
      assert init[i] == lines[i];
      InfoEntriesHas(init, i);
    }
  }

  /** A present key comes from some line with `=`. */
  lemma {:induction false} InfoEntriesSource(lines: seq<string>, key: string) returns (i: nat)
    requires key in InfoEntries(lines)
    ensures i < |lines| && '=' in lines[i] && KeyOf(lines[i]) == key
    decreases |lines|
  {
    var init := lines[..|lines| - 1];
    var last := lines[|lines| - 1];
    if '=' in last && KeyOf(last) == key {
      i := |lines| - 1;
    } else {
      i := InfoEntriesSource(init, key);
      assert init[i] == lines[i];
    }
  }

  /** A key holds the value of the last line with `=` that has it. */
  lemma {:induction false} InfoEntriesLast(lines: seq<string>, i: nat)
    requires i < |lines| && '=' in lines[i]
    requires forall j :: i < j < |lines| && '=' in lines[j] ==> KeyOf(lines[j]) != KeyOf(lines[i])
    ensures KeyOf(lines[i]) in InfoEntries(lines) && InfoEntries(lines)[KeyOf(lines[i])] == ValueOf(lines[i])
    decreases |lines|
  {
    var init := lines[..|lines| - 1];
    if i < |lines| - 1 {
      assert init[i] == lines[i];
      assert forall j :: i < j < |init| ==> init[j] == lines[j];
      InfoEntriesLast(init, i);
    }
  }

  /** A key is present exactly when some line with `=` has it, and its value
    * is that of the last such line. */
  lemma InfoEntriesSpec(lines: seq<string>)
    ensures forall key :: key in InfoEntries(lines) <==>
      exists i :: 0 <= i < |lines| && '=' in lines[i] && KeyOf(lines[i]) == key
    ensures forall i :: (0 <= i < |lines| && '=' in lines[i] &&
      (forall j :: i < j < |lines| && '=' in lines[j] ==> KeyOf(lines[j]) != KeyOf(lines[i]))) ==>
      KeyOf(lines[i]) in InfoEntries(lines) && InfoEntries(lines)[KeyOf(lines[i])] == ValueOf(lines[i])
  {
    forall key | key in InfoEntries(lines)
      ensures exists i :: 0 <= i < |lines| && '=' in lines[i] && KeyOf(lines[i]) == key
    {
      var i := InfoEntriesSource(lines, key);
    }
    forall i | 0 <= i < |lines| && '=' in lines[i] ensures KeyOf(lines[i]) in InfoEntries(lines) {
      InfoEntriesHas(lines, i);
    }
    forall i | 0 <= i < |lines| && '=' in lines[i] &&
      (forall j :: i < j < |lines| && '=' in lines[j] ==> KeyOf(lines[j]) != KeyOf(lines[i]))
      ensures KeyOf(lines[i]) in InfoEntries(lines) && InfoEntries(lines)[KeyOf(lines[i])] == ValueOf(lines[i])
    {
      InfoEntriesLast(lines, i);
    }
  }

  /** Python's `s[1:-1]`: drop the first and last character (empty when
    * there are fewer than two). */
  function DropEnds(s: string): (r: string)
    ensures |r| == if |s| < 2 then 0 else |s| - 2
    ensures |s| >= 2 ==> s == [s[0]] + r + [s[|s| - 1]]
  {
    if |s| < 2 then "" else s[1..|s| - 1]
  }

  /** `img_info['PROP_VAL'][1:-1]`: the value without its quotes; a missing
    * key raises `KeyError`. */
  function PropValClean(info: map<string, string>): (r: Result<string>)
    ensures r.Err? <==> "PROP_VAL" !in info
    ensures r.Err? ==> r.error == KeyError("PROP_VAL")
    ensures r.Ok? ==> |info["PROP_VAL"]| >= 2 ==> info["PROP_VAL"] == [info["PROP_VAL"][0]] + r.value + [info["PROP_VAL"][|info["PROP_VAL"]| - 1]]
    ensures r.Ok? && |info["PROP_VAL"]| < 2 ==> r.value == ""
  {
    if "PROP_VAL" in info then Ok(DropEnds(info["PROP_VAL"])) else Err(KeyError("PROP_VAL"))
  }

  /** A quoted value loses exactly its quotes. */
  lemma DropEndsQuoted(q: char, v: string)
    ensures DropEnds([q] + v + [q]) == v
  {
  }

  // ---------------------------------------------------------------------
  // Signing key

  datatype KeyFile = Rsa4096 | Rsa2048

  /** The public-key hash each test key is recognised by. */
  function KeyHash(k: KeyFile): string
  {
    match k
    case Rsa4096 => "2597c218aae470a130f61162feaae70afd97f011"
    case Rsa2048 => "cdbb77177f731920bbe0a0f94f84d9038ae0617d"
  }

  /** The file under `KEY_DIR` holding each key. */
  function KeyFileName(k: KeyFile): string
  {
    match k
    case Rsa4096 => "testkey_rsa4096.pem"
    case Rsa2048 => "testkey_rsa2048.pem"
  }

  /** The key chosen for `img_info.get('PUBLIC_KEY')`. */
  function SelectKey(publicKey: Option<string>): (r: Option<KeyFile>)
    ensures r.Some? ==> publicKey == Some(KeyHash(r.value))
    ensures (exists k :: publicKey == Some(KeyHash(k))) ==> r.Some?
  {
    if publicKey == Some(KeyHash(Rsa4096)) then Some(Rsa4096)
    else if publicKey == Some(KeyHash(Rsa2048)) then Some(Rsa2048)
    else None
  }

  /** The key check before re-signing `vbmeta.img`: no matching key ends the
    * run with status 1. */
  function ResignKey(info: map<string, string>): (r: Result<KeyFile>)
    ensures r.Ok? <==> "PUBLIC_KEY" in info && info["PUBLIC_KEY"] in {KeyHash(Rsa4096), KeyHash(Rsa2048)}
    ensures r.Ok? ==> info["PUBLIC_KEY"] == KeyHash(r.value)
    ensures r.Err? ==> r.error == SystemExit(1)
  {
    match SelectKey(if "PUBLIC_KEY" in info then Some(info["PUBLIC_KEY"]) else None)
    case Some(k) => Ok(k)
    case None => Err(SystemExit(1))
  }

  // ---------------------------------------------------------------------
  // avbtool info_image

  /** What the boot-image parse collects: the `size`, `name`, `salt` and
    * `rollback` fields, and the `--prop` arguments in input order. */
  datatype BootInfo = BootInfo(fields: map<string, string>, props: seq<string>)

  /** The field a stripped line sets, and the whitespace token it takes:
    * the second-to-last for `Image size:`, the last for the others; a line
    * with too few tokens raises `IndexError`. */
  function FieldOf(line: string): Option<(string, Result<string>)>
  {
    var w := Words(line);
    if StartsWith(line, "Image size:") then
      Some(("size", if |w| >= 2 then Ok(w[|w| - 2]) else Err(IndexError)))
    else if StartsWith(line, "Partition Name:") then
      Some(("name", if |w| >= 1 then Ok(w[|w| - 1]) else Err(IndexError)))
    else if StartsWith(line, "Salt:") then
      Some(("salt", if |w| >= 1 then Ok(w[|w| - 1]) else Err(IndexError)))
    else if StartsWith(line, "Rollback Index:") then
      Some(("rollback", if |w| >= 1 then Ok(w[|w| - 1]) else Err(IndexError)))
    else None
  }

  /** The `--prop` argument pair of a stripped `Prop:` line: the key is the
    * text after the last `:` before the first `->`, stripped; the value is
    * the text between the first and second `->`, stripped and without its
    * quotes. A line without `->` raises `IndexError`. */
  function PropArgs(line: string): (r: Result<seq<string>>)
    ensures r.Ok? ==> |r.value| == 2 && r.value[0] == "--prop"
    ensures r.Err? <==> !Contains(line, "->")
  {
    var k := Find(line, "->");
    if k == |line| then
      assert forall i: nat :: !OccursAt(line, "->", i) by {
        forall i: nat ensures !OccursAt(line, "->", i) {
          if i + 2 <= |line| { assert i < k; }
        }
      }
      Err(IndexError)
    else
      assert OccursAt(line, "->", k);
      var rest := line[k + 2..];
      var key := Strip(AfterLast(line[..k], ':'));
      var value := DropEnds(Strip(rest[..Find(rest, "->")]));
      Ok(["--prop", key + ":" + value])
  }

  /** One line of the loop. */
  function BootLine(acc: BootInfo, raw: string): Result<BootInfo>
  {
    var line := Strip(raw);
    match FieldOf(line)
    case Some((name, token)) =>
      (match token
       case Ok(t) => Ok(acc.(fields := acc.fields[name := t]))
       case Err(e) => Err(e))
    case None =>
      if StartsWith(line, "Prop:") then
        match PropArgs(line)
        case Ok(args) => Ok(acc.(props := acc.props + args))
        case Err(e) => Err(e)
      else Ok(acc)
  }

  /** The loop over all lines, as a fold; the first exception ends it. */
  function BootLines(lines: seq<string>): Result<BootInfo>
  {
    if lines == [] then Ok(BootInfo(map[], []))
    else
      match BootLines(lines[..|lines| - 1])
      case Err(e) => Err(e)
      case Ok(acc) => BootLine(acc, lines[|lines| - 1])
  }

  /** An exception on a prefix of the lines ends the whole parse with it. */
  lemma {:induction false} BootLinesErrSticky(lines: seq<string>, i: nat)
    requires i <= |lines| && BootLines(lines[..i]).Err?
    ensures BootLines(lines) == BootLines(lines[..i])
    decreases |lines| - i
  {
    if i < |lines| {
      assert lines[..i + 1][..i] == lines[..i];
      BootLinesErrSticky(lines, i + 1);
    } else {
      assert lines[..i] == lines;
    }
  }

  /** The parse of one more line continues from the parse of the lines
    * before it. */
  lemma BootLinesPrefix(lines: seq<string>, i: nat)
    requires i < |lines| && BootLines(lines[..i]).Ok?
    ensures BootLines(lines[..i + 1]) == BootLine(BootLines(lines[..i]).value, lines[i])
  {
    assert lines[..i + 1][..i] == lines[..i];
  }

  /** The `avbtool info_image` parse of `boot.bak.img`'s information. */
  method ParseBootInfo(stdout: string) returns (r: Result<BootInfo>)
    ensures r == BootLines(Split(Strip(stdout), '\n'))
  {
    var lines := Split(Strip(stdout), '\n');
    var acc := BootInfo(map[], []);
    for i := 0 to |lines|
      invariant BootLines(lines[..i]) == Ok(acc)
    {
      BootLinesPrefix(lines, i);
      var next := BootLine(acc, lines[i]);
      if next.Err? {
        BootLinesErrSticky(lines, i + 1);
        return next;
      }
      acc := next.value;
    }
    assert lines[..|lines|] == lines;
    r := Ok(acc);
  }

  /** The field a raw line sets, if any. */
  function FieldSet(raw: string): Option<(string, Result<string>)>
  {
    FieldOf(Strip(raw))
  }

  predicate SetsField(raw: string, name: string)
  {
    FieldSet(raw).Some? && FieldSet(raw).value.0 == name
  }

  /** A stripped line is a `Prop:` line that the parse turns into
    * arguments. */
  predicate IsPropLine(raw: string)
  {
    FieldSet(raw).None? && StartsWith(Strip(raw), "Prop:")
  }

  /** An argument list made of `--prop` pairs. */
  predicate PropPairs(props: seq<string>)
  {
    |props| % 2 == 0 && forall j :: 0 <= j < |props| && j % 2 == 0 ==> props[j] == "--prop"
  }

  lemma PropPairsAppend(props: seq<string>, args: seq<string>)
    requires PropPairs(props) && |args| == 2 && args[0] == "--prop"
    ensures PropPairs(props + args)
  {
    var r := props + args;
    forall j | 0 <= j < |r| && j % 2 == 0 ensures r[j] == "--prop" {
      if j < |props| {
        assert r[j] == props[j];
      } else {
        assert j == |props|;
      }
    }
  }

  /** What one successful step of the parse does: a field line sets its
    * field to its token, a `Prop:` line appends its two arguments, any other
    * line changes nothing. */
  lemma BootLinesStep(lines: seq<string>)
    requires lines != [] && BootLines(lines).Ok?
    ensures var init := lines[..|lines| - 1];
      var last := lines[|lines| - 1];
      BootLines(init).Ok? &&
      var acc := BootLines(init).value;
      var r := BootLines(lines).value;
      (FieldSet(last).Some? ==> (FieldSet(last).value.1.Ok? &&
         r == acc.(fields := acc.fields[FieldSet(last).value.0 := FieldSet(last).value.1.value]))) &&
      (IsPropLine(last) ==> PropArgs(Strip(last)).Ok? && r == acc.(props := acc.props + PropArgs(Strip(last)).value)) &&
      (FieldSet(last).None? && !IsPropLine(last) ==> r == acc)
  {
  }

  /** The arguments are `--prop` pairs, one per `Prop:` line, in the order
    * of the lines. */
  lemma {:induction false} BootLinesProps(lines: seq<string>)
    requires BootLines(lines).Ok?
    ensures PropPairs(BootLines(lines).value.props)
    decreases |lines|
  {
    if lines != [] {
      var init := lines[..|lines| - 1];
      BootLinesStep(lines);
      BootLinesProps(init);
      var last := lines[|lines| - 1];
      if IsPropLine(last) {
        PropPairsAppend(BootLines(init).value.props, PropArgs(Strip(last)).value);
      }
    }
  }

  /** One step of the parse seen from one field. */
  lemma BootLinesFieldStep(lines: seq<string>, name: string)
    requires lines != [] && BootLines(lines).Ok?
    ensures var init := lines[..|lines| - 1];
      var last := lines[|lines| - 1];
      BootLines(init).Ok? &&
      var before := BootLines(init).value.fields;
      var after := BootLines(lines).value.fields;
      (name in after <==> name in before || SetsField(last, name)) &&
      (SetsField(last, name) ==> FieldSet(last).value.1 == Ok(after[name])) &&
      (!SetsField(last, name) && name in before ==> after[name] == before[name])
  {
    BootLinesStep(lines);
  }

  /** A field that some line sets is present. */
  lemma {:induction false} BootLinesFieldSet(lines: seq<string>, name: string, i: nat)
    requires BootLines(lines).Ok? && i < |lines| && SetsField(lines[i], name)
    ensures name in BootLines(lines).value.fields
    decreases |lines|
  {
    var init := lines[..|lines| - 1];
    BootLinesFieldStep(lines, name);
    if i < |lines| - 1 {
      assert init[i] == lines[i];
      BootLinesFieldSet(init, name, i);
    }
  }

  /** A present field was set by some line. */
  lemma {:induction false} BootLinesFieldSetter(lines: seq<string>, name: string) returns (i: nat)
    requires BootLines(lines).Ok? && name in BootLines(lines).value.fields
    ensures i < |lines| && SetsField(lines[i], name)
    decreases |lines|
  {
    var init := lines[..|lines| - 1];
    BootLinesFieldStep(lines, name);
    if SetsField(lines[|lines| - 1], name) {
      i := |lines| - 1;
    } else {
      i := BootLinesFieldSetter(init, name);
      assert init[i] == lines[i];
    }
  }

  /** A field is present exactly when some line sets it. */
  lemma BootLinesFieldPresent(lines: seq<string>, name: string)
    requires BootLines(lines).Ok?
    ensures name in BootLines(lines).value.fields <==>
      exists i :: 0 <= i < |lines| && SetsField(lines[i], name)
  {
    if name in BootLines(lines).value.fields {
      var i := BootLinesFieldSetter(lines, name);
    }
    forall i | 0 <= i < |lines| && SetsField(lines[i], name)
      ensures name in BootLines(lines).value.fields
    {
      BootLinesFieldSet(lines, name, i);
    }
  }

  /** A field holds the token of the last line that sets it. */
  lemma {:induction false} BootLinesFieldLast(lines: seq<string>, name: string, i: nat)
    requires BootLines(lines).Ok?
    requires i < |lines| && SetsField(lines[i], name)
    requires forall j :: i < j < |lines| ==> !SetsField(lines[j], name)
    ensures name in BootLines(lines).value.fields
    ensures FieldSet(lines[i]).value.1 == Ok(BootLines(lines).value.fields[name])
    decreases |lines|
  {
    var init := lines[..|lines| - 1];
    BootLinesFieldStep(lines, name);
    if i < |lines| - 1 {
      assert !SetsField(lines[|lines| - 1], name);
      assert init[i] == lines[i];
      forall j | i < j < |init| ensures !SetsField(init[j], name) {
        assert init[j] == lines[j];
      }
      BootLinesFieldLast(init, name, i);
    }
  }

  /** In `Prop: key -> ...` the first arrow is the one after the key. */
  lemma ArrowAfterKey(key: string, tail: string)
    requires !Contains(key, "->")
    ensures Find("Prop: " + key + " " + ("->" + tail), "->") == |key| + 7
  {
    NoOccurWithoutFirst("Prop: ", "->");
    NoOccurConcat2("Prop: ", key, "->");
    NoOccurWithoutFirst(" ", "->");
    NoOccurConcat2("Prop: " + key, " ", "->");
    FindAfter2("Prop: " + key + " ", "->" + tail, "->");
  }

  /** A quoted value without an arrow has none after the leading space and
    * quote either. */
  lemma NoArrowQuoted(value: string)
    requires !Contains(value, "->")
    ensures Find(" '" + value + "'", "->") == |value| + 3
  {
    NoOccurWithoutFirst(" '", "->");
    NoOccurConcat2(" '", value, "->");
    NoOccurWithoutFirst("'", "->");
    NoOccurConcat2(" '" + value, "'", "->");
    FindAbsent(" '" + value + "'", "->");
  }

  /** Before the arrow, the last `:` is the one after `Prop`. */
  lemma PropHeadAfterColon(key: string)
    requires ':' !in key
    ensures AfterLast("Prop: " + key + " ", ':') == " " + key + " "
  {
    PropHeadSplit(key);
    AfterLastSplit("Prop", ':', " " + key + " ");
  }

  lemma PropHeadSplit(key: string)
    ensures "Prop: " + key + " " == "Prop" + [':'] + (" " + key + " ")
  {
  }

  /** The key part of a property line: the text after the last `:` before
    * the arrow, stripped. */
  lemma PropKeyPart(key: string)
    requires Trimmed(key) && ':' !in key
    ensures Strip(AfterLast("Prop: " + key + " ", ':')) == key
  {
    PropHeadAfterColon(key);
    StripExact(" ", key, " ");
  }

  /** The value part of a property line: the text after the arrow, stripped
    * and without its quotes. */
  lemma PropValuePart(value: string)
    ensures DropEnds(Strip(" '" + value + "'")) == value
  {
    assert " '" + value + "'" == " " + ("'" + value + "'") + "";
    StripExact(" ", "'" + value + "'", "");
  }

  /** A property line splits at its first arrow into the head before it and
    * the quoted value after it. */
  lemma AvbLineArrow(key: string, value: string)
    requires !Contains(key, "->")
    ensures var line := "Prop: " + key + " -> '" + value + "'";
      var k := |key| + 7;
      Find(line, "->") == k && k + 2 <= |line| &&
      line[..k] == "Prop: " + key + " " && line[k + 2..] == " '" + value + "'"
  {
    var head := "Prop: " + key + " ";
    var rest := " '" + value + "'";
    var line := head + ("->" + rest);
    assert line == "Prop: " + key + " -> '" + value + "'";
    ArrowAfterKey(key, rest);
    assert line[..|head|] == head;
    assert line[|head| + 2..] == rest;
  }

  /** After the arrow, the value part runs to the end of the line. */
  lemma AvbLineValue(value: string)
    requires !Contains(value, "->")
    ensures var rest := " '" + value + "'";
      Find(rest, "->") <= |rest| && DropEnds(Strip(rest[..Find(rest, "->")])) == value
  {
    var rest := " '" + value + "'";
    NoArrowQuoted(value);
    assert rest[..|rest|] == rest;
    PropValuePart(value);
  }

  /** An `avbtool` property line `Prop: key -> 'value'` gives back the key
    * and the value. */
  lemma PropArgsOfAvbLine(key: string, value: string)
    requires Trimmed(key) && ':' !in key && !Contains(key, "->")
    requires !Contains(value, "->")
    ensures PropArgs("Prop: " + key + " -> '" + value + "'") == Ok(["--prop", key + ":" + value])
  {
    AvbLineArrow(key, value);
    AvbLineValue(value);
    PropKeyPart(key);
  }

  // ---------------------------------------------------------------------
  // show_image_info

  /** `x` inserted before the first element it does not exceed. */
  function Insert(x: string, s: seq<string>): seq<string>
  {
    if s == [] then [x]
    else if LexLe(x, s[0]) then [x] + s
    else [s[0]] + Insert(x, s[1..])
  }

  /** Insertion into a sorted list keeps it sorted and adds exactly `x`. */
  lemma {:induction false} InsertSpec(x: string, s: seq<string>)
    requires Sorted(s)
    ensures Sorted(Insert(x, s)) && multiset(Insert(x, s)) == multiset(s) + multiset{x}
  {
    if s == [] {
    } else if LexLe(x, s[0]) {
      BelowHead(x, s);
    } else {
      LexLeTotal(x, s[0]);
      var t := Insert(x, s[1..]);
      InsertSpec(x, s[1..]);
      assert s == [s[0]] + s[1..];
      LowerBoundKept(s[0], x, s[1..], t);
    }
  }

  /** What does not exceed the head of a sorted list exceeds none of it. */
  lemma BelowHead(x: string, s: seq<string>)
    requires Sorted(s) && s != [] && LexLe(x, s[0])
    ensures forall k :: 0 <= k < |s| ==> LexLe(x, s[k])
  {
    forall k | 0 <= k < |s| ensures LexLe(x, s[k]) {
      if k > 0 { LexLeTransitive(x, s[0], s[k]); }
    }
  }

  /** A lower bound of `x` and of every element of `s` bounds every
    * element of a rearrangement of `s` with `x` added. */
  lemma LowerBoundKept(lo: string, x: string, s: seq<string>, t: seq<string>)
    requires LexLe(lo, x) && forall k :: 0 <= k < |s| ==> LexLe(lo, s[k])
    requires multiset(t) == multiset(s) + multiset{x}
    ensures forall k :: 0 <= k < |t| ==> LexLe(lo, t[k])
  {
    forall k | 0 <= k < |t| ensures LexLe(lo, t[k]) {
      assert t[k] in multiset(t);
      if t[k] != x {
        assert t[k] in multiset(s);
        var m :| 0 <= m < |s| && s[m] == t[k];
      }
    }
  }

  /** Ascending in the code-point order Python compares strings by. */
  predicate Sorted(s: seq<string>)
  {
    forall i, j :: 0 <= i < j < |s| ==> LexLe(s[i], s[j])
  }

  /** `sorted(files)`, as an insertion sort. */
  function Sort(s: seq<string>): seq<string>
  {
    if s == [] then []
    else Insert(s[|s| - 1], Sort(s[..|s| - 1]))
  }

  /** `sorted` gives the same names, in ascending order. */
  lemma {:induction false} SortSpec(s: seq<string>)
    ensures Sorted(Sort(s)) && multiset(Sort(s)) == multiset(s)
  {
    if s != [] {
      SortSpec(s[..|s| - 1]);
      InsertSpec(s[|s| - 1], Sort(s[..|s| - 1]));
      assert s == s[..|s| - 1] + [s[|s| - 1]];
    }
  }

  /** The inspection of one file. */
  datatype Inspection = Inspected(file: Path) | NotFound(file: Path) | InfoFailed(file: Path)

  /** One pass of `show_image_info`'s loop for the resolved `path`: a
    * missing file is reported as not found; otherwise `avbtool` runs on it
    * (`runs` gives the outcome), a `CalledProcessError` is reported as a
    * failure, and any other exception escapes. */
  function Inspect(path: Path, onDisk: set<string>, osEnviron: map<string, string>, toolsDir: string,
                   sep: char, runs: string -> Outcome): (i: Result<Inspection>)
    ensures i.Ok? ==> i.value.file == path
    ensures i.Ok? && i.value.NotFound? <==> path.text !in onDisk
  {
    if path.text !in onDisk then Ok(NotFound(path))
    else
      var run := InfoRun(path, osEnviron, toolsDir, sep, runs);
      if run.Raised? then
        if run.error.CalledProcessError? then Ok(InfoFailed(path)) else Err(run.error)
      else Ok(Inspected(path))
  }

  /** How `avbtool info_image` on `path` ended. */
  function InfoRun(path: Path, osEnviron: map<string, string>, toolsDir: string, sep: char,
                   runs: string -> Outcome): Utils.RunResult
  {
    RunCommand(true, osEnviron, toolsDir, sep, runs(path.text)).result
  }

  /** A pass over an existing file is `failed` exactly when `avbtool`
    * raised `CalledProcessError`, raises exactly when it raised anything
    * else, and is `inspected` exactly when `avbtool` returned. */
  lemma InspectRuns(path: Path, onDisk: set<string>, osEnviron: map<string, string>, toolsDir: string,
                    sep: char, runs: string -> Outcome)
    requires path.text in onDisk
    ensures var i := Inspect(path, onDisk, osEnviron, toolsDir, sep, runs);
      var run := RunCommand(true, osEnviron, toolsDir, sep, runs(path.text)).result;
      (i.Ok? && i.value.InfoFailed? <==> run.Raised? && run.error.CalledProcessError?) &&
      (i.Err? <==> run.Raised? && !run.error.CalledProcessError?) &&
      (i.Err? ==> run == Utils.Raised(i.error)) &&
      (i.Ok? && i.value.Inspected? <==> run.Returned?)
  {
  }

  /** `show_image_info(files)`: for each name in sorted order, resolve it
    * (`resolve`) and inspect it; a failing `avbtool` is reported and the
    * loop goes on, any other exception ends it at that file. */
  method ShowImageInfo(files: seq<string>, resolve: string -> Path, onDisk: set<string>,
                       osEnviron: map<string, string>, toolsDir: string, sep: char,
                       runs: string -> Outcome)
    returns (r: Result<()>, log: seq<Inspection>)
    ensures |log| <= |Sort(files)|
    ensures forall k :: 0 <= k < |log| ==>
      Inspect(resolve(Sort(files)[k]), onDisk, osEnviron, toolsDir, sep, runs) == Ok(log[k])
    ensures r.Ok? ==> |log| == |Sort(files)|
    ensures r.Err? ==> (|log| < |Sort(files)| &&
      Inspect(resolve(Sort(files)[|log|]), onDisk, osEnviron, toolsDir, sep, runs) == Err(r.error))
  {
    var order := Sort(files);
    log := [];
    for i := 0 to |order|
      invariant |log| == i
      invariant forall k :: 0 <= k < i ==>
        Inspect(resolve(order[k]), onDisk, osEnviron, toolsDir, sep, runs) == Ok(log[k])
    {
      var step := Inspect(resolve(order[i]), onDisk, osEnviron, toolsDir, sep, runs);
      if step.Err? {
        return Err(step.error), log;
      }
      log := log + [step.value];
    }
    r := Ok(());
  }
}
