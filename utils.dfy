// ltbox/utils.py: running an external tool with the tool directories on
// the search path, the per-platform executable name, the operator waits for
// files and for a firmware folder, and the dependency check.

module Utils {
  import opened Common
  import opened Text

  /** The directories `run_command` puts in front of `PATH`
    * (`TOOLS_DIR`, `DOWNLOAD_DIR`) and the platform's `os.pathsep`. */
  datatype ToolDirs = ToolDirs(tools: string, download: string, pathsep: char)

  /** The `subprocess.CompletedProcess` that `run_command` returns; the
    * streams are `None` unless output was captured. */
  datatype CompletedProcess = CompletedProcess(returncode: int, stdout: Option<string>, stderr: Option<string>)

  /** A line `run_command` prints to the console. */
  datatype Echo = ToStdout(line: string) | ToStderr(line: string)

  datatype RunResult = Returned(proc: CompletedProcess) | Raised(error: Error)

  /** The `PATH` value `run_command` launches with. */
  function SearchPath(dirs: ToolDirs, previous: string): string
  {
    PrependPath(dirs.tools, dirs.pathsep, PrependPath(dirs.download, dirs.pathsep, previous))
  }

  /** Read back as a list of directories, the new `PATH` is the tools
    * directory, then the download directory, then every entry of the old
    * value, in order. */
  lemma SearchPathEntries(dirs: ToolDirs, previous: string)
    requires dirs.pathsep !in dirs.tools && dirs.pathsep !in dirs.download
    ensures Split(SearchPath(dirs, previous), dirs.pathsep)
         == [dirs.tools, dirs.download] + Split(previous, dirs.pathsep)
  {
    var c := dirs.pathsep;
    SplitFirst(dirs.download, c, previous);
    SplitFirst(dirs.tools, c, dirs.download + [c] + previous);
    assert SearchPath(dirs, previous) == dirs.tools + [c] + (dirs.download + [c] + previous);
  }

  /** `subprocess.run(..., check=check, capture_output=capture)` given what
    * the operating system did. */
  function Launch(outcome: Outcome, check: bool, capture: bool): RunResult
  {
    match outcome
    case Missing => Raised(FileNotFoundError)
    case Exited(code, out, err) =>
      if check && code != 0 then Raised(CalledProcessError(code))
      else Returned(CompletedProcess(code, if capture then Some(out) else None,
                                           if capture then Some(err) else None))
  }

  /** A process that ran is reported as `CalledProcessError` exactly when
    * checking was asked for and it exited non-zero; otherwise its exit code
    * is returned, with its output exactly when output was captured. */
  lemma LaunchExitStatus(code: int, out: string, err: string, check: bool, capture: bool)
    ensures Launch(Exited(code, out, err), check, capture).Raised?
        <==> check && code != 0
    ensures Launch(Exited(code, out, err), check, capture).Raised? ==>
            Launch(Exited(code, out, err), check, capture).error == CalledProcessError(code)
    ensures Launch(Exited(code, out, err), check, capture).Returned? ==>
            var p := Launch(Exited(code, out, err), check, capture).proc;
            p.returncode == code && (p.stdout == Some(out) <==> capture) && (p.stderr == Some(err) <==> capture)
  {
  }

  /** What `run_command` prints after a run: when output was not captured,
    * each non-empty stream that the process object carries, stripped. */
  function Echoes(result: RunResult, capture: bool): (e: seq<Echo>)
    ensures capture || result.Raised? ==> e == []
    ensures |e| <= 2
  {
    if capture || result.Raised? then []
    else
      (match result.proc.stdout
       case Some(s) => if s != "" then [ToStdout(Strip(s))] else []
       case None => []) +
      (match result.proc.stderr
       case Some(s) => if s != "" then [ToStderr(Strip(s))] else []
       case None => [])
  }

  /** An environment dictionary a caller may pass to `run_command`. */
  class Environ {
    var vars: map<string, string>

    constructor (vars: map<string, string>)
      ensures this.vars == vars
    {
      this.vars := vars;
    }
  }

  /** `run_command(command, check=check, env=env, capture=capture)`, with
    * `osEnviron` standing for `os.environ` and `outcome` for what the tool
    * did. `launchEnv` is the environment the tool was started with (`None`
    * when nothing was started). A non-empty caller dictionary is updated in
    * place; an absent or empty one is replaced by a copy of `os.environ`. */
  method RunCommand(command: seq<string>, check: bool, env: Environ?, capture: bool,
                    osEnviron: map<string, string>, dirs: ToolDirs, outcome: Outcome)
    returns (result: RunResult, launchEnv: Option<map<string, string>>, echoed: seq<Echo>)
    modifies env
    ensures var inPlace := env != null && old(env.vars) != map[];
            var base := if inPlace then old(env.vars) else osEnviron;
            if "PATH" !in base then
              result == Raised(KeyError("PATH")) && launchEnv == None && echoed == [] &&
              (env != null ==> env.vars == old(env.vars))
            else
              launchEnv == Some(base["PATH" := SearchPath(dirs, base["PATH"])]) &&
              (env != null ==> env.vars == if inPlace then launchEnv.value else old(env.vars)) &&
              result == Launch(outcome, check, capture) &&
              echoed == Echoes(result, capture)
  {
    var inPlace := env != null && env.vars != map[];
    var vars := if inPlace then env.vars else osEnviron;
    if "PATH" !in vars {
      return Raised(KeyError("PATH")), None, [];
    }
    vars := vars["PATH" := SearchPath(dirs, vars["PATH"])];
    if inPlace {
      env.vars := vars;
    }
    launchEnv := Some(vars);
    result := Launch(outcome, check, capture);
    echoed := Echoes(result, capture);
  }

  /** The file name `get_platform_executable` uses on each supported system. */
  function ExecutableName(system: string, name: string): Option<string>
  {
    if system == "Windows" then Some(name + ".exe")
    else if system == "Linux" then Some(name + "-linux")
    else if system == "Darwin" then Some(name + "-macos")
    else None
  }

  /** `get_platform_executable(name)` on `platform.system() == system`. */
  function GetPlatformExecutable(system: string, name: string, downloadDir: string): (r: Result<Path>)
    ensures r.Err? <==> system !in {"Windows", "Linux", "Darwin"}
    ensures r.Err? ==> r.error == RuntimeError(system)
    ensures system == "Windows" ==> r == Ok(Child(downloadDir, name + ".exe"))
    ensures system == "Linux" ==> r == Ok(Child(downloadDir, name + "-linux"))
    ensures system == "Darwin" ==> r == Ok(Child(downloadDir, name + "-macos"))
    ensures r.Ok? ==> r.value.parent == downloadDir && ParseExecutableName(r.value.name) == Some((system, name))
  {
    match ExecutableName(system, name)
    case None => Err(RuntimeError(system))
    case Some(exe) =>
      ExecutableNameRoundTrip(system, name);
      Ok(Child(downloadDir, exe))
  }

  predicate EndsWith(s: string, suffix: string)
  {
    |suffix| <= |s| && s[|s| - |suffix|..] == suffix
  }

  /** Reading an executable file name back into system and tool name. */
  function ParseExecutableName(exe: string): Option<(string, string)>
  {
    if EndsWith(exe, ".exe") then Some(("Windows", exe[..|exe| - 4]))
    else if EndsWith(exe, "-linux") then Some(("Linux", exe[..|exe| - 6]))
    else if EndsWith(exe, "-macos") then Some(("Darwin", exe[..|exe| - 6]))
    else None
  }

  /** The executable name determines both the system and the tool name: no
    * two (system, tool) pairs share a file. */
  lemma ExecutableNameRoundTrip(system: string, name: string)
    requires ExecutableName(system, name).Some?
    ensures ParseExecutableName(ExecutableName(system, name).value) == Some((system, name))
  {
    var exe := ExecutableName(system, name).value;
    if system == "Windows" {
      assert exe[|exe| - 4..] == ".exe";
      assert exe[..|exe| - 4] == name;
    } else if system == "Linux" {
      assert exe[|exe| - 1] == 'x';
      assert exe[|exe| - 6..] == "-linux";
      assert exe[..|exe| - 6] == name;
    } else {
      assert exe[|exe| - 1] == 's';
      assert exe[|exe| - 6..] == "-macos";
      assert exe[..|exe| - 6] == name;
    }
  }

  /** The operator's reply to "Press Enter when ready...". */
  datatype Answer = Enter | Eof

  /** One pass of `wait_for_files`: the files present in the directory at
    * that moment and what the operator then does at the prompt. */
  datatype FilesRound = FilesRound(present: set<string>, answer: Answer)

  /** The required files that are absent, in the order they were required. */
  function MissingFiles(required: seq<string>, present: set<string>): seq<string>
  {
    if required == [] then []
    else MissingFiles(required[..|required| - 1], present) +
         (if required[|required| - 1] in present then [] else [required[|required| - 1]])
  }

  /** A file is reported missing exactly when it is required and absent, so
    * the list is empty exactly when every required file is present. */
  lemma {:induction false} MissingFilesSpec(required: seq<string>, present: set<string>)
    ensures forall f :: f in MissingFiles(required, present) <==> f in required && f !in present
    ensures MissingFiles(required, present) == [] <==> forall f :: f in required ==> f in present
    ensures |MissingFiles(required, present)| <= |required|
    decreases |required|
  {
    if required != [] {
      var init := required[..|required| - 1];
      MissingFilesSpec(init, present);
      assert required == init + [required[|required| - 1]];
    }
  }

  /** The missing files of a concatenation are those of the first part, then
    * those of the second: the list keeps the required order, and a name
    * required twice is listed twice. */
  lemma {:induction false} MissingFilesAppend(a: seq<string>, b: seq<string>, present: set<string>)
    ensures MissingFiles(a + b, present) == MissingFiles(a, present) + MissingFiles(b, present)
    decreases |b|
  {
    if b == [] {
      assert a + b == a;
    } else {
      var init := b[..|b| - 1];
      assert (a + b)[..|a + b| - 1] == a + init;
      var last := if b[|b| - 1] in present then [] else [b[|b| - 1]];
      assert (a + b)[|a + b| - 1] == b[|b| - 1];
      assert MissingFiles(a + b, present) == MissingFiles(a + init, present) + last;
      assert MissingFiles(b, present) == MissingFiles(init, present) + last;
      MissingFilesAppend(a, init, present);
      assert MissingFiles(a + b, present) == MissingFiles(a, present) + MissingFiles(init, present) + last;
    }
  }

  /** A single required file is listed exactly when it is absent. */
  lemma MissingFileOne(f: string, present: set<string>)
    ensures MissingFiles([f], present) == if f in present then [] else [f]
  {
    assert [f][..0] == [];
  }

  /** `wait_for_files(directory, required_files, prompt)` driven by a
    * finite script of rounds; `shown` lists the missing files printed in each
    * round that did not find them all. */
  method WaitForFiles(required: seq<string>, rounds: seq<FilesRound>)
    returns (r: Flow<bool>, shown: seq<seq<string>>)
    ensures |shown| <= |rounds|
    ensures forall k :: 0 <= k < |shown| ==>
      shown[k] == MissingFiles(required, rounds[k].present) && shown[k] != []
    ensures r != Return(false)
    ensures r == Return(true) ==>
      |shown| < |rounds| && forall f :: f in required ==> f in rounds[|shown|].present
    ensures r.Throw? ==>
      r.error == SystemExit(1) && |shown| >= 1 && rounds[|shown| - 1].answer == Eof
    ensures forall k :: 0 <= k < |shown| - 1 ==> rounds[k].answer == Enter
    ensures r == Return(true) ==> forall k :: 0 <= k < |shown| ==> rounds[k].answer == Enter
    ensures r.Blocked? ==> |shown| == |rounds| && (|shown| > 0 ==> rounds[|shown| - 1].answer == Enter)
  {
    shown := [];
    var n := 0;
    while n < |rounds|
      invariant n == |shown| <= |rounds|
      invariant forall k :: 0 <= k < n ==>
        shown[k] == MissingFiles(required, rounds[k].present) && shown[k] != []
      invariant forall k :: 0 <= k < n ==> rounds[k].answer == Enter
    {
      var present := rounds[n].present;
      var allFound := true;
      var missing := [];
      for i := 0 to |required|
        invariant missing == MissingFiles(required[..i], present)
        invariant allFound <==> missing == []
      {
        assert required[..i + 1][..i] == required[..i];
        if required[i] !in present {
          allFound := false;
          missing := missing + [required[i]];
        }
      }
      assert required[..|required|] == required;
      if allFound {
        MissingFilesSpec(required, present);
        return Return(true), shown;
      }
      shown := shown + [missing];
      if rounds[n].answer == Eof {
        return Throw(SystemExit(1)), shown;
      }
      n := n + 1;
    }
    r := Blocked;
  }

  /** The parameters of `wait_for_files`, in order; none has a default. */
  const WaitForFilesParams: seq<string> := ["directory", "required_files", "prompt_message"]

  /** How Python binds a call of `wait_for_files` with `positional`
    * positional arguments and the keyword arguments named `keywords`: every
    * parameter must receive exactly one argument, so the keywords must name
    * exactly the parameters the positional arguments left open; otherwise
    * the call raises `TypeError` before the body runs. */
  function BindWaitForFiles(positional: nat, keywords: set<string>): (r: Result<()>)
    ensures r.Ok? <==> (positional <= |WaitForFilesParams| &&
      (forall k :: k in keywords ==> k in WaitForFilesParams[positional..]) &&
      (forall k :: k in WaitForFilesParams[positional..] ==> k in keywords))
    ensures r.Err? ==> r.error == TypeError
  {
    if positional <= |WaitForFilesParams| && keywords == set k | k in WaitForFilesParams[positional..] then
      Ok(())
    else Err(TypeError)
  }

  /** A call that binds supplies each of the three parameters exactly once,
    * and only under its own name. */
  lemma BindWaitForFilesArity(positional: nat, keywords: set<string>)
    requires BindWaitForFiles(positional, keywords).Ok?
    ensures positional + |keywords| == |WaitForFilesParams|
    ensures forall k :: k in keywords ==> k in WaitForFilesParams
  {
    if positional == 3 {
      assert keywords == {};
    } else if positional == 2 {
      assert keywords == {"prompt_message"};
    } else if positional == 1 {
      assert keywords == {"required_files", "prompt_message"};
    } else {
      assert keywords == {"directory", "required_files", "prompt_message"};
    }
  }

  /** One pass of `wait_for_directory`: whether the folder is a directory,
    * how many entries it has, and the operator's reply. */
  datatype FolderRound = FolderRound(isDir: bool, entries: nat, answer: Answer)

  /** `wait_for_directory(directory, prompt)` driven by a finite script of
    * rounds; `prompts` counts the rounds that showed the prompt. */
  method WaitForDirectory(rounds: seq<FolderRound>) returns (r: Flow<bool>, prompts: nat)
    ensures prompts <= |rounds|
    ensures forall k :: 0 <= k < prompts ==> !(rounds[k].isDir && rounds[k].entries > 0)
    ensures r != Return(false)
    ensures r == Return(true) ==>
      prompts < |rounds| && rounds[prompts].isDir && rounds[prompts].entries > 0
    ensures r.Throw? ==> r.error == SystemExit(1) && prompts >= 1 && rounds[prompts - 1].answer == Eof
    ensures forall k :: 0 <= k < prompts - 1 ==> rounds[k].answer == Enter
    ensures r == Return(true) ==> forall k :: 0 <= k < prompts ==> rounds[k].answer == Enter
    ensures r.Blocked? ==> prompts == |rounds|
  {
    prompts := 0;
    while prompts < |rounds|
      invariant prompts <= |rounds|
      invariant forall k :: 0 <= k < prompts ==> !(rounds[k].isDir && rounds[k].entries > 0)
      invariant forall k :: 0 <= k < prompts ==> rounds[k].answer == Enter
    {
      if rounds[prompts].isDir && rounds[prompts].entries > 0 {
        return Return(true), prompts;
      }
      prompts := prompts + 1;
      if rounds[prompts - 1].answer == Eof {
        return Throw(SystemExit(1)), prompts;
      }
    }
    r := Blocked;
  }

  /** The paths `check_dependencies` looks up, from `ltbox.constants`. */
  datatype DependencyPaths = DependencyPaths(
    python: string, adb: string, fastboot: string, rsa4096: string, rsa2048: string,
    avbtool: string, edlNg: string, libusb: string)

  datatype Dependency = Dependency(name: string, path: string)

  /** The dependency table in declaration order. */
  function Dependencies(p: DependencyPaths, fetch: string): (deps: seq<Dependency>)
    ensures |deps| == 9
    ensures forall i, j :: 0 <= i < j < |deps| ==> deps[i].name != deps[j].name
    ensures deps[6] == Dependency("fetch tool", fetch)
  {
    [Dependency("Python Environment", p.python), Dependency("ADB", p.adb),
     Dependency("Fastboot", p.fastboot), Dependency("RSA4096 Key", p.rsa4096),
     Dependency("RSA2048 Key", p.rsa2048), Dependency("avbtool", p.avbtool),
     Dependency("fetch tool", fetch), Dependency("edl-ng", p.edlNg),
     Dependency("libusb", p.libusb)]
  }

  /** Names of the dependencies whose path does not exist, in table order. */
  function MissingDependencies(deps: seq<Dependency>, onDisk: set<string>): seq<string>
  {
    if deps == [] then []
    else MissingDependencies(deps[..|deps| - 1], onDisk) +
         (if deps[|deps| - 1].path in onDisk then [] else [deps[|deps| - 1].name])
  }

  /** Each entry of the dependency list is reported, in table order, exactly
    * when its path is absent. */
  lemma {:induction false} MissingDependenciesSpec(deps: seq<Dependency>, onDisk: set<string>)
    ensures var m := MissingDependencies(deps, onDisk);
      (forall n :: n in m <==> exists k :: 0 <= k < |deps| && deps[k].name == n && deps[k].path !in onDisk) &&
      (m == [] <==> forall k :: 0 <= k < |deps| ==> deps[k].path in onDisk)
    decreases |deps|
  {
    if deps != [] {
      var init := deps[..|deps| - 1];
      MissingDependenciesSpec(init, onDisk);
      assert forall k :: 0 <= k < |init| ==> init[k] == deps[k];
    }
  }

  /** Reporting a table split in two reports the first part's names, then
    * the second part's: the names keep table order. */
  lemma {:induction false} MissingDependenciesAppend(a: seq<Dependency>, b: seq<Dependency>, onDisk: set<string>)
    ensures MissingDependencies(a + b, onDisk) == MissingDependencies(a, onDisk) + MissingDependencies(b, onDisk)
    decreases |b|
  {
    if b == [] {
      assert a + b == a;
    } else {
      var init := b[..|b| - 1];
      assert (a + b)[..|a + b| - 1] == a + init;
      var last := if b[|b| - 1].path in onDisk then [] else [b[|b| - 1].name];
      assert (a + b)[|a + b| - 1] == b[|b| - 1];
      assert MissingDependencies(a + b, onDisk) == MissingDependencies(a + init, onDisk) + last;
      assert MissingDependencies(b, onDisk) == MissingDependencies(init, onDisk) + last;
      MissingDependenciesAppend(a, init, onDisk);
      assert MissingDependencies(a + b, onDisk) == MissingDependencies(a, onDisk) + MissingDependencies(init, onDisk) + last;
    }
  }

  /** A single entry is reported, under its own name, exactly when its path
    * is absent. */
  lemma MissingDependencyOne(d: Dependency, onDisk: set<string>)
    ensures MissingDependencies([d], onDisk) == if d.path in onDisk then [] else [d.name]
  {
    assert [d][..0] == [];
  }

  datatype DependencyCheck =
    | UnsupportedSystem(system: string)   // `RuntimeError` while building the table
    | MissingDeps(names: seq<string>)      // names reported, then `sys.exit(1)`
    | AllPresent

  /** `check_dependencies()` on `platform.system() == system`, with `onDisk`
    * the set of paths present on disk. */
  function CheckDependencies(system: string, paths: DependencyPaths, downloadDir: string,
                             onDisk: set<string>): (r: DependencyCheck)
    ensures r.UnsupportedSystem? <==> system !in {"Windows", "Linux", "Darwin"}
    ensures r.MissingDeps? ==> r.names != []
  {
    match GetPlatformExecutable(system, "fetch", downloadDir)
    case Err(_) => UnsupportedSystem(system)
    case Ok(fetch) =>
      var missing := MissingDependencies(Dependencies(paths, fetch.text), onDisk);
      if missing != [] then MissingDeps(missing) else AllPresent
  }

  /** On a supported system the check exits exactly when some dependency in
    * the table is absent, and it names exactly those. */
  lemma CheckDependenciesExits(system: string, paths: DependencyPaths, downloadDir: string,
                               onDisk: set<string>)
    requires system in {"Windows", "Linux", "Darwin"}
    ensures var fetch := GetPlatformExecutable(system, "fetch", downloadDir).value.text;
      var deps := Dependencies(paths, fetch);
      var r := CheckDependencies(system, paths, downloadDir, onDisk);
      (r.MissingDeps? <==> exists k :: 0 <= k < |deps| && deps[k].path !in onDisk) &&
      (r.MissingDeps? ==> forall n :: n in r.names <==>
         exists k :: 0 <= k < |deps| && deps[k].name == n && deps[k].path !in onDisk) &&
      (r.MissingDeps? ==> r.names == MissingDependencies(deps, onDisk))
  {
    var fetch := GetPlatformExecutable(system, "fetch", downloadDir).value.text;
    MissingDependenciesSpec(Dependencies(paths, fetch), onDisk);
  }
}
