// ltbox/device.py: the `DeviceController` that drives a phone through ADB,
// Fastboot and Qualcomm EDL (emergency download) mode. Every external tool
// run is given as an `Outcome`, the serial-port enumeration as a `Scan`, and
// each polling loop is driven by a finite script of observations. What the
// controller does to the outside world is recorded as a trace of `Step`s.

module Device {
  import opened Common
  import opened Text
  import Utils

  /** The external executables the controller runs. */
  datatype Tool = Adb | Fastboot | QSahara | FhLoader

  /** Their paths, from `ltbox.constants` (`ADB_EXE`, `FASTBOOT_EXE`,
    * `QSAHARASERVER_EXE`, `FH_LOADER_EXE`), and the folder the loader is
    * placed in (`IMAGE_DIR`). */
  datatype Tools = Tools(adb: string, fastboot: string, qsahara: string, fhLoader: string, imageDir: string)

  /** One entry of `serial.tools.list_ports.comports()`; a missing
    * description or hardware id is the empty string. */
  datatype PortInfo = PortInfo(device: string, description: string, hwid: string)

  /** The result of enumerating serial ports: the list, or an exception. */
  datatype Scan = Ports(ports: seq<PortInfo>) | ScanFailed

  /** What `time.sleep(2)` did: it slept, or Ctrl+C interrupted it. */
  datatype SleepResult = Slept | Interrupted

  /** The mode a polling loop waits for. */
  datatype Mode = EdlMode | FastbootMode

  /** Something the controller does outside itself. */
  datatype Step =
    | Run(tool: Tool, argv: seq<string>, cwd: Option<string>)  // start a tool
    | ListPorts                                                 // enumerate serial ports
    | Poll(mode: Mode, checks: nat, naps: nat)                  // a polling loop, summarised
    | Sleep(seconds: nat)
    | AwaitOperator                                             // `input()`
    | AwaitLoader                                               // wait for the loader file
    | MakeDir(dir: string)

  /** How a call ended, and what it did on the way. */
  datatype Call<T> = Call(flow: Flow<T>, steps: seq<Step>)

  /** The tool ran and exited with status 0. */
  predicate Succeeds(o: Outcome)
  {
    o.Exited? && o.code == 0
  }

  /** A run through `utils.run_command` or `subprocess.run` with
    * `check=True`: a failure to start or a non-zero exit is raised. */
  function CheckedRun(o: Outcome): (f: Flow<()>)
    ensures f.Return? <==> Succeeds(o)
    ensures f.Throw? ==> f.error == (if o.Missing? then FileNotFoundError else CalledProcessError(o.code))
    ensures !f.Blocked?
  {
    match Utils.Launch(o, true, false)
    case Raised(e) => Throw(e)
    case Returned(_) => Return(())
  }

  /** Python truthiness of a detected port name: `None` and `""` are false. */
  predicate Truthy(p: Option<string>)
  {
    p.Some? && p.value != ""
  }

  // ---------------------------------------------------------------------
  // EDL port detection

  /** A port is the Qualcomm 9008 download-mode device: its description
    * names both `Qualcomm` and `9008`, or its upper-cased hardware id holds
    * the USB vendor and product ids. */
  predicate IsEdlPort(p: PortInfo)
  {
    (Contains(p.description, "Qualcomm") && Contains(p.description, "9008")) ||
    Contains(AsciiUpper(p.hwid), "VID:PID=05C6:9008")
  }

  /** The device name of the first EDL port in the list. */
  function FirstMatch(ps: seq<PortInfo>): Option<string>
  {
    if ps == [] then None
    else if IsEdlPort(ps[0]) then Some(ps[0].device)
    else FirstMatch(ps[1..])
  }

  /** What `check_edl_device` reports for one enumeration. */
  function FirstEdlPort(scan: Scan): Option<string>
  {
    match scan
    case ScanFailed => None
    case Ports(ps) => FirstMatch(ps)
  }

  /** No port is reported exactly when none matches; otherwise the reported
    * name is that of a matching port with no matching port before it. */
  lemma {:induction false} FirstMatchSpec(ps: seq<PortInfo>)
    ensures FirstMatch(ps).None? <==> forall k :: 0 <= k < |ps| ==> !IsEdlPort(ps[k])
    ensures FirstMatch(ps).Some? ==>
      exists k :: 0 <= k < |ps| && IsEdlPort(ps[k]) && FirstMatch(ps).value == ps[k].device &&
        forall j :: 0 <= j < k ==> !IsEdlPort(ps[j])
  {
    if ps != [] && !IsEdlPort(ps[0]) {
      FirstMatchSpec(ps[1..]);
      assert forall k :: 1 <= k < |ps| ==> ps[k] == ps[1..][k - 1];
      if FirstMatch(ps[1..]).Some? {
        var k :| 0 <= k < |ps[1..]| && IsEdlPort(ps[1..][k]) && FirstMatch(ps[1..]).value == ps[1..][k].device &&
          forall j :: 0 <= j < k ==> !IsEdlPort(ps[1..][j]);
        assert IsEdlPort(ps[k + 1]) && forall j :: 0 <= j < k + 1 ==> !IsEdlPort(ps[j]);
      }
    }
  }

  // ---------------------------------------------------------------------
  // Polling until a device shows up

  datatype WaitEnd = Found | Cancelled | StillWaiting

  /** How a polling loop ends, how many checks it made and how many sleeps
    * it started. */
  datatype Wait = Wait(end: WaitEnd, checks: nat, naps: nat)

  /** The loop part of `wait_for_edl` / `wait_for_fastboot`, entered after
    * `k` failed checks: check at once, and sleep after each failure.
    * `found[i]` is the result of the i-th check; running out of script is
    * `StillWaiting`. */
  function WaitLoop(found: seq<bool>, sleeps: seq<SleepResult>, k: nat): Wait
    requires 1 <= k
    decreases |found| - k
  {
    if k >= |found| then Wait(StillWaiting, k, k - 1)
    else if found[k] then Wait(Found, k + 1, k - 1)
    else if k - 1 >= |sleeps| then Wait(StillWaiting, k + 1, k - 1)
    else if sleeps[k - 1] == Interrupted then Wait(Cancelled, k + 1, k)
    else WaitLoop(found, sleeps, k + 1)
  }

  /** A whole wait: the initial check, then the loop. */
  function WaitFor(found: seq<bool>, sleeps: seq<SleepResult>): Wait
  {
    if |found| == 0 then Wait(StillWaiting, 0, 0)
    else if found[0] then Wait(Found, 1, 0)
    else WaitLoop(found, sleeps, 1)
  }

  lemma {:induction false} WaitLoopSpec(found: seq<bool>, sleeps: seq<SleepResult>, k: nat)
    requires 1 <= k <= |found|
    requires forall j :: 0 <= j < k ==> !found[j]
    requires k - 1 <= |sleeps| && forall j :: 0 <= j < k - 1 ==> sleeps[j] == Slept
    ensures var w := WaitLoop(found, sleeps, k);
      k <= w.checks <= |found| && w.naps <= |sleeps| &&
      (forall j :: 0 <= j < w.checks - 1 ==> !found[j]) &&
      (w.end != StillWaiting ==> w.checks >= k + 1) &&
      (w.end == Found ==> (found[w.checks - 1] && w.naps == w.checks - 2 &&
         forall j :: 0 <= j < w.naps ==> sleeps[j] == Slept)) &&
      (w.end == Cancelled ==> (w.naps == w.checks - 1 && w.naps >= 1 && sleeps[w.naps - 1] == Interrupted &&
         !found[w.checks - 1] && forall j :: 0 <= j < w.naps - 1 ==> sleeps[j] == Slept)) &&
      (w.end == StillWaiting ==> !found[w.checks - 1] && (w.checks == |found| || w.naps == |sleeps|))
    decreases |found| - k
  {
    if k < |found| && !found[k] && k - 1 < |sleeps| && sleeps[k - 1] == Slept {
      WaitLoopSpec(found, sleeps, k + 1);
    }
  }

  /** A wait that ends `Found` stops at the first successful check, after
    * one sleep per failed check of the loop; a `Cancelled` wait was
    * interrupted in the sleep after its last (failed) check. */
  lemma WaitForSpec(found: seq<bool>, sleeps: seq<SleepResult>)
    ensures var w := WaitFor(found, sleeps);
      w.checks <= |found| && w.naps <= |sleeps| &&
      (forall j :: 0 <= j < w.checks - 1 ==> !found[j]) &&
      (w.end == Found ==> (w.checks >= 1 && found[w.checks - 1] &&
         w.naps == (if w.checks == 1 then 0 else w.checks - 2) &&
         forall j :: 0 <= j < w.naps ==> sleeps[j] == Slept)) &&
      (w.end == Cancelled ==> (w.checks >= 2 && w.naps == w.checks - 1 &&
         sleeps[w.naps - 1] == Interrupted && !found[w.checks - 1] &&
         forall j :: 0 <= j < w.naps - 1 ==> sleeps[j] == Slept))
  {
    if |found| > 0 && !found[0] {
      WaitLoopSpec(found, sleeps, 1);
    }
  }

  /** Conversely, a wait whose script shows the device at check `k`, with
    * every earlier check failing and every sleep before it completing,
    * ends `Found` at exactly that check. */
  lemma {:induction false} WaitForFinds(found: seq<bool>, sleeps: seq<SleepResult>, k: nat)
    requires k < |found| && found[k]
    requires forall j :: 0 <= j < k ==> !found[j]
    requires k >= 2 ==> k - 1 <= |sleeps| && forall j :: 0 <= j < k - 1 ==> sleeps[j] == Slept
    ensures WaitFor(found, sleeps) == Wait(Found, k + 1, if k == 0 then 0 else k - 1)
  {
    if k >= 1 {
      WaitLoopFinds(found, sleeps, 1, k);
    }
  }

  lemma {:induction false} WaitLoopFinds(found: seq<bool>, sleeps: seq<SleepResult>, i: nat, k: nat)
    requires 1 <= i <= k < |found| && found[k]
    requires forall j :: 0 <= j < k ==> !found[j]
    requires k >= 2 ==> k - 1 <= |sleeps| && forall j :: 0 <= j < k - 1 ==> sleeps[j] == Slept
    ensures WaitLoop(found, sleeps, i) == Wait(Found, k + 1, k - 1)
    decreases k - i
  {
    if i < k {
      WaitLoopFinds(found, sleeps, i + 1, k);
    }
  }

  function EndOf<T>(r: Flow<T>): WaitEnd
  {
    match r
    case Return(_) => Found
    case Throw(_) => Cancelled
    case Blocked => StillWaiting
  }

  /** Whether each enumeration in a script shows an EDL port. */
  function EdlSignals(scans: seq<Scan>): (found: seq<bool>)
    ensures |found| == |scans|
    ensures forall k :: 0 <= k < |scans| ==> found[k] == Truthy(FirstEdlPort(scans[k]))
  {
    seq(|scans|, k requires 0 <= k < |scans| => Truthy(FirstEdlPort(scans[k])))
  }

  // ---------------------------------------------------------------------
  // Slot suffixes

  /** The slot suffix `get_active_slot_suffix` accepts from
    * `getprop ro.boot.slot_suffix`. */
  function AdbSlotSuffix(out: string): Option<string>
  {
    var suffix := Strip(out);
    if suffix == "_a" || suffix == "_b" then Some(suffix) else None
  }

  /** Only `_a` and `_b` are accepted, whatever whitespace surrounds them. */
  lemma AdbSlotSuffixSpec(out: string, p: string, q: string, slot: char)
    requires AllSpace(p) && AllSpace(q) && (slot == 'a' || slot == 'b')
    ensures AdbSlotSuffix(out).Some? ==> AdbSlotSuffix(out).value in {"_a", "_b"} && Strip(out) == AdbSlotSuffix(out).value
    ensures AdbSlotSuffix(p + ['_', slot] + q) == Some(['_', slot])
  {
    StripExact(p, ['_', slot], q);
  }

  /** The text `current-slot:` the Fastboot slot pattern starts with. */
  const SlotMarker: string := "current-slot:"

  predicate IsLower(c: char)
  {
    'a' <= c <= 'z'
  }

  /** The end of the run of lower-case letters that starts at `j`. */
  function LowerEnd(s: string, j: nat): (k: nat)
    requires j <= |s|
    ensures j <= k <= |s|
    ensures forall m :: j <= m < k ==> IsLower(s[m])
    ensures k < |s| ==> !IsLower(s[k])
    decreases |s| - j
  {
    if j == |s| || !IsLower(s[j]) then j else LowerEnd(s, j + 1)
  }

  /** `current-slot:\s*([a-z]+)` matches at `i`. */
  predicate SlotMatchAt(s: string, i: nat)
  {
    OccursAt(s, SlotMarker, i) &&
    SkipSpaces(s, i + |SlotMarker|) < |s| && IsLower(s[SkipSpaces(s, i + |SlotMarker|)])
  }

  /** The captured group of a match at `i`. */
  function SlotGroupAt(s: string, i: nat): string
    requires SlotMatchAt(s, i)
  {
    var j := SkipSpaces(s, i + |SlotMarker|);
    s[j..LowerEnd(s, j)]
  }

  /** `re.search` from `from`: the group of the leftmost match. */
  function SlotSearch(s: string, from: nat): (r: Option<string>)
    requires from <= |s|
    ensures r.Some? ==> r.value != [] && forall k :: 0 <= k < |r.value| ==> IsLower(r.value[k])
    decreases |s| - from
  {
    if from + |SlotMarker| >= |s| then None
    else if SlotMatchAt(s, from) then Some(SlotGroupAt(s, from))
    else SlotSearch(s, from + 1)
  }

  lemma {:induction false} SlotSearchLeftmost(s: string, from: nat)
    requires from <= |s|
    ensures SlotSearch(s, from).None? <==> forall i: nat :: from <= i ==> !SlotMatchAt(s, i)
    ensures SlotSearch(s, from).Some? ==>
      exists i: nat :: from <= i && SlotMatchAt(s, i) && SlotSearch(s, from).value == SlotGroupAt(s, i) &&
        forall k: nat :: from <= k < i ==> !SlotMatchAt(s, k)
    decreases |s| - from
  {
    if from + |SlotMarker| >= |s| {
    } else if SlotMatchAt(s, from) {
    } else {
      SlotSearchLeftmost(s, from + 1);
      if SlotSearch(s, from + 1).Some? {
        var i: nat :| from + 1 <= i && SlotMatchAt(s, i) && SlotSearch(s, from + 1).value == SlotGroupAt(s, i) &&
          forall k: nat :: from + 1 <= k < i ==> !SlotMatchAt(s, k);
        assert forall k: nat :: from <= k < i ==> !SlotMatchAt(s, k);
      }
    }
  }

  /** The suffix `get_active_slot_suffix_from_fastboot` derives from the
    * combined output: `_` and the group of the first match, when that group
    * is exactly `a` or `b`. */
  function FastbootSlot(output: string): (r: Option<string>)
    ensures r.Some? ==> r.value in {"_a", "_b"}
  {
    match SlotSearch(output, 0)
    case Some(g) =>
      if g == "a" || g == "b" then
        assert "_" + g == "_a" || "_" + g == "_b";
        Some("_" + g)
      else None
    case None => None
  }

  /** A suffix is reported exactly when the leftmost match of the pattern
    * captures a single `a` or `b`. */
  lemma FastbootSlotSpec(output: string)
    ensures FastbootSlot(output).Some? <==>
      exists i: nat :: SlotMatchAt(output, i) && (forall k: nat :: k < i ==> !SlotMatchAt(output, k)) &&
        SlotGroupAt(output, i) in {"a", "b"}
    ensures FastbootSlot(output).Some? ==>
      exists i: nat :: SlotMatchAt(output, i) && FastbootSlot(output).value == "_" + SlotGroupAt(output, i)
  {
    SlotSearchLeftmost(output, 0);
    if FastbootSlot(output).None? && SlotSearch(output, 0).Some? {
      forall i: nat | SlotMatchAt(output, i) && (forall k: nat :: k < i ==> !SlotMatchAt(output, k))
        ensures SlotGroupAt(output, i) !in {"a", "b"}
      {
        var i': nat :| SlotMatchAt(output, i') && SlotSearch(output, 0).value == SlotGroupAt(output, i') &&
          forall k: nat :: k < i' ==> !SlotMatchAt(output, k);
        assert i == i';
      }
    }
  }

  /** A reply that starts with `current-slot:`, optional whitespace, then
    * `a` or `b` not followed by another letter gives that slot. */
  lemma FastbootSlotOfReply(ws: string, slot: char, tail: string)
    requires AllSpace(ws) && (slot == 'a' || slot == 'b')
    requires tail == [] || !IsLower(tail[0])
    ensures FastbootSlot(SlotMarker + ws + [slot] + tail) == Some(['_', slot])
  {
    var s := SlotMarker + ws + [slot] + tail;
    var j := |SlotMarker| + |ws|;
    assert s[..|SlotMarker|] == SlotMarker;
    assert OccursAt(s, SlotMarker, 0);
    assert forall m :: |SlotMarker| <= m < j ==> s[m] == ws[m - |SlotMarker|];
    assert s[j] == slot && !IsSpace(slot);
    assert SkipSpaces(s, |SlotMarker|) == j;
    assert j + 1 < |s| ==> s[j + 1] == tail[0];
    assert LowerEnd(s, j) == j + 1;
    assert SlotMatchAt(s, 0);
    assert SlotGroupAt(s, 0) == [slot];
    assert SlotSearch(s, 0) == Some([slot]);
    assert [slot] == "a" || [slot] == "b";
    assert "_" + [slot] == ['_', slot];
  }

  // ---------------------------------------------------------------------
  // Argument vectors

  /** The Windows device path of a COM port: `\\.\` and the port name. */
  function PortArg(port: string): (r: string)
    ensures |r| == |port| + 4 && r[4..] == port
  {
    "\\\\.\\" + port
  }

  /** The memory type fh_loader is told when the caller gives none. */
  const DefaultMemory: string := "UFS"

  function MemoryOrDefault(memory: Option<string>): string
  {
    match memory
    case Some(m) => m
    case None => DefaultMemory
  }

  /** QSaharaServer: upload the programmer in `loader` over `port`. */
  function SaharaArgs(exe: string, port: string, loader: string): seq<string>
  {
    [exe, "-p", PortArg(port), "-s", "13:" + loader]
  }

  /** fh_loader: read `num` sectors from `lun` at `start` into `name`. */
  function ReadArgs(exe: string, port: string, name: string, lun: string, start: string,
                    num: string, memory: string): seq<string>
  {
    [exe, "--port=" + PortArg(port), "--convertprogram2read", "--sendimage=" + name,
     "--lun=" + lun, "--start_sector=" + start, "--num_sectors=" + num,
     "--memoryname=" + memory, "--noprompt", "--zlpawarehost=1"]
  }

  /** fh_loader: write the image `name` to `lun` at `start`. */
  function WriteArgs(exe: string, port: string, name: string, lun: string, start: string,
                     memory: string): seq<string>
  {
    [exe, "--port=" + PortArg(port), "--sendimage=" + name, "--lun=" + lun,
     "--start_sector=" + start, "--memoryname=" + memory, "--noprompt", "--zlpawarehost=1"]
  }

  /** fh_loader: reset the device. */
  function ResetArgs(exe: string, port: string): seq<string>
  {
    [exe, "--port=" + PortArg(port), "--reset", "--noprompt"]
  }

  /** fh_loader: flash from rawprogram and patch XML files found under
    * `searchPath`. */
  function RawprogramArgs(exe: string, port: string, searchPath: string, raws: seq<string>,
                          patches: seq<string>, memory: string): seq<string>
  {
    [exe, "--port=" + PortArg(port), "--search_path=" + searchPath,
     "--sendxml=" + Join(raws, ','), "--sendxml=" + Join(patches, ','),
     "--setactivepartition=1", "--memoryname=" + memory, "--showpercentagecomplete",
     "--zlpawarehost=1", "--noprompt"]
  }

  /** The value of the first `flag=value` element of a vector. */
  function FlagValue(argv: seq<string>, flag: string): Option<string>
  {
    if argv == [] then None
    else if StartsWith(argv[0], flag + "=") then Some(argv[0][|flag| + 1..])
    else FlagValue(argv[1..], flag)
  }

  /** A vector element that differs from a flag at position `i` does not
    * carry that flag. */
  lemma NotFlag(s: string, flag: string, i: nat)
    requires i < |flag| && i < |s| && s[i] != flag[i]
    ensures !StartsWith(s, flag + "=")
  {
    assert (flag + "=")[i] == flag[i];
    if |flag| + 1 <= |s| {
      assert s[..|flag| + 1][i] == s[i];
    }
  }

  /** The first element carrying `flag` decides its value. */
  lemma {:induction false} FlagValueAt(argv: seq<string>, flag: string, i: nat)
    requires i < |argv| && StartsWith(argv[i], flag + "=")
    requires forall j :: 0 <= j < i ==> !StartsWith(argv[j], flag + "=")
    ensures FlagValue(argv, flag) == Some(argv[i][|flag| + 1..])
  {
    if i > 0 {
      assert forall j :: 0 <= j < i - 1 ==> argv[1..][j] == argv[j + 1];
      FlagValueAt(argv[1..], flag, i - 1);
    }
  }

  lemma ReadArgsPort(exe: string, port: string, name: string, lun: string, start: string,
                     num: string, memory: string)
    requires exe == [] || exe[0] != '-'
    ensures FlagValue(ReadArgs(exe, port, name, lun, start, num, memory), "--port") == Some(PortArg(port))
  {
    var v := ReadArgs(exe, port, name, lun, start, num, memory);
    if exe != [] { NotFlag(exe, "--port", 0); }
    assert v[1][..7] == "--port=";
    FlagValueAt(v, "--port", 1);
  }

  lemma ReadArgsImage(exe: string, port: string, name: string, lun: string, start: string,
                      num: string, memory: string)
    requires exe == [] || exe[0] != '-'
    ensures FlagValue(ReadArgs(exe, port, name, lun, start, num, memory), "--sendimage") == Some(name)
  {
    var v := ReadArgs(exe, port, name, lun, start, num, memory);
    if exe != [] { NotFlag(exe, "--sendimage", 0); }
    NotFlag(v[1], "--sendimage", 2);
    NotFlag(v[2], "--sendimage", 2);
    assert v[3][..12] == "--sendimage=";
    FlagValueAt(v, "--sendimage", 3);
  }

  lemma ReadArgsLun(exe: string, port: string, name: string, lun: string, start: string,
                    num: string, memory: string)
    requires exe == [] || exe[0] != '-'
    ensures FlagValue(ReadArgs(exe, port, name, lun, start, num, memory), "--lun") == Some(lun)
  {
    var v := ReadArgs(exe, port, name, lun, start, num, memory);
    if exe != [] { NotFlag(exe, "--lun", 0); }
    NotFlag(v[1], "--lun", 2);
    NotFlag(v[2], "--lun", 2);
    NotFlag(v[3], "--lun", 2);
    assert v[4][..6] == "--lun=";
    FlagValueAt(v, "--lun", 4);
  }

  lemma ReadArgsStart(exe: string, port: string, name: string, lun: string, start: string,
                      num: string, memory: string)
    requires exe == [] || exe[0] != '-'
    ensures FlagValue(ReadArgs(exe, port, name, lun, start, num, memory), "--start_sector") == Some(start)
  {
    var v := ReadArgs(exe, port, name, lun, start, num, memory);
    if exe != [] { NotFlag(exe, "--start_sector", 0); }
    NotFlag(v[1], "--start_sector", 2);
    NotFlag(v[2], "--start_sector", 3);
    NotFlag(v[3], "--start_sector", 3);
    NotFlag(v[4], "--start_sector", 2);
    assert v[5][..15] == "--start_sector=";
    FlagValueAt(v, "--start_sector", 5);
  }

  lemma ReadArgsCount(exe: string, port: string, name: string, lun: string, start: string,
                      num: string, memory: string)
    requires exe == [] || exe[0] != '-'
    ensures FlagValue(ReadArgs(exe, port, name, lun, start, num, memory), "--num_sectors") == Some(num)
  {
    var v := ReadArgs(exe, port, name, lun, start, num, memory);
    if exe != [] { NotFlag(exe, "--num_sectors", 0); }
    NotFlag(v[1], "--num_sectors", 2);
    NotFlag(v[2], "--num_sectors", 2);
    NotFlag(v[3], "--num_sectors", 2);
    NotFlag(v[4], "--num_sectors", 2);
    NotFlag(v[5], "--num_sectors", 2);
    assert v[6][..14] == "--num_sectors=";
    FlagValueAt(v, "--num_sectors", 6);
  }

  lemma ReadArgsMemory(exe: string, port: string, name: string, lun: string, start: string,
                       num: string, memory: string)
    requires exe == [] || exe[0] != '-'
    ensures FlagValue(ReadArgs(exe, port, name, lun, start, num, memory), "--memoryname") == Some(memory)
  {
    var v := ReadArgs(exe, port, name, lun, start, num, memory);
    if exe != [] { NotFlag(exe, "--memoryname", 0); }
    NotFlag(v[1], "--memoryname", 2);
    NotFlag(v[2], "--memoryname", 2);
    NotFlag(v[3], "--memoryname", 2);
    NotFlag(v[4], "--memoryname", 2);
    NotFlag(v[5], "--memoryname", 2);
    NotFlag(v[6], "--memoryname", 2);
    assert v[7][..13] == "--memoryname=";
    FlagValueAt(v, "--memoryname", 7);
  }

  /** Every value the read vector carries can be read back from it by its
    * flag, and the port is the device path of the requested port. */
  lemma ReadArgsFields(exe: string, port: string, name: string, lun: string, start: string,
                       num: string, memory: string)
    requires exe == [] || exe[0] != '-'
    ensures var v := ReadArgs(exe, port, name, lun, start, num, memory);
      FlagValue(v, "--port") == Some(PortArg(port)) &&
      FlagValue(v, "--sendimage") == Some(name) &&
      FlagValue(v, "--lun") == Some(lun) &&
      FlagValue(v, "--start_sector") == Some(start) &&
      FlagValue(v, "--num_sectors") == Some(num) &&
      FlagValue(v, "--memoryname") == Some(memory)
  {
    ReadArgsPort(exe, port, name, lun, start, num, memory);
    ReadArgsImage(exe, port, name, lun, start, num, memory);
    ReadArgsLun(exe, port, name, lun, start, num, memory);
    ReadArgsStart(exe, port, name, lun, start, num, memory);
    ReadArgsCount(exe, port, name, lun, start, num, memory);
    ReadArgsMemory(exe, port, name, lun, start, num, memory);
  }

  /** The write vector is the read vector without `--convertprogram2read`
    * and `--num_sectors`. */
  lemma WriteIsReadWithoutReadFlags(exe: string, port: string, name: string, lun: string,
                                    start: string, num: string, memory: string)
    ensures var r := ReadArgs(exe, port, name, lun, start, num, memory);
      WriteArgs(exe, port, name, lun, start, memory) == r[..2] + r[3..6] + r[7..] &&
      r[2] == "--convertprogram2read" && r[6] == "--num_sectors=" + num
  {
  }

  /** Different ports give different device paths. */
  lemma PortArgRoundTrip(port: string, other: string)
    ensures PortArg(port) == PortArg(other) ==> port == other
  {
    if PortArg(port) == PortArg(other) {
      assert PortArg(port)[4..] == PortArg(other)[4..];
    }
  }

  /** The two `--sendxml` values list the rawprogram and the patch file
    * names, in order: splitting them on commas gives the lists back. */
  lemma RawprogramXmlLists(exe: string, port: string, searchPath: string, raws: seq<string>,
                           patches: seq<string>, memory: string)
    requires |raws| >= 1 && |patches| >= 1
    requires forall k :: 0 <= k < |raws| ==> ',' !in raws[k]
    requires forall k :: 0 <= k < |patches| ==> ',' !in patches[k]
    ensures var v := RawprogramArgs(exe, port, searchPath, raws, patches, memory);
      |v| == 10 && StartsWith(v[3], "--sendxml=") && StartsWith(v[4], "--sendxml=") &&
      Split(v[3][10..], ',') == raws && Split(v[4][10..], ',') == patches &&
      v[2] == "--search_path=" + searchPath && v[6] == "--memoryname=" + memory
  {
    var v := RawprogramArgs(exe, port, searchPath, raws, patches, memory);
    assert v[3][10..] == Join(raws, ',');
    assert v[4][10..] == Join(patches, ',');
    assert v[3][..10] == "--sendxml=";
    assert v[4][..10] == "--sendxml=";
    SplitJoin(raws, ',');
    SplitJoin(patches, ',');
  }

  /** The final components of a list of resolved paths. */
  function Names(ps: seq<Path>): (ns: seq<string>)
    ensures |ns| == |ps| && forall k :: 0 <= k < |ps| ==> ns[k] == ps[k].name
  {
    seq(|ps|, k requires 0 <= k < |ps| => ps[k].name)
  }

  // ---------------------------------------------------------------------
  // The controller

  /** The keyword arguments `setup_edl_connection` passes, besides three
    * positional ones, to `wait_for_files` when it waits for the loader. */
  const LoaderWaitKeywordsAsWritten: set<string> := {"lang"}

  /** As written, the loader wait cannot be called: `wait_for_files` has no
    * `lang` parameter, so binding the call raises `TypeError` and the
    * setup never reaches the wait for the EDL port. */
  lemma LoaderWaitAsWrittenFails()
    ensures Utils.BindWaitForFiles(3, LoaderWaitKeywordsAsWritten) == Err(TypeError)
  {
    assert "lang" !in Utils.WaitForFilesParams[3..];
  }

  /** Without the keyword the call binds; `SetupEdlConnection` models the
    * setup with this call, its outcome given by `loader`. */
  lemma LoaderWaitCorrectedBinds()
    ensures Utils.BindWaitForFiles(3, {}) == Ok(())
  {
  }

  class DeviceController {
    const tools: Tools
    var skipAdb: bool
    var edlPort: Option<string>

    constructor (tools: Tools, skipAdb: bool)
      ensures this.tools == tools && this.skipAdb == skipAdb && edlPort == None
    {
      this.tools := tools;
      this.skipAdb := skipAdb;
      edlPort := None;
    }

    /** `wait_for_adb`: nothing when ADB is skipped, otherwise
      * `adb wait-for-device`, whose failure propagates. */
    function WaitForAdb(o: Outcome): (c: Call<()>)
      reads this
      ensures skipAdb ==> c == Call(Return(()), [])
      ensures !skipAdb ==> c.steps == [Run(Adb, [tools.adb, "wait-for-device"], None)]
      ensures c.flow.Throw? <==> !skipAdb && !Succeeds(o)
      ensures !c.flow.Blocked?
    {
      if skipAdb then Call(Return(()), [])
      else Call(CheckedRun(o), [Run(Adb, [tools.adb, "wait-for-device"], None)])
    }

    /** `get_active_slot_suffix`: `wait` is the ADB wait, `getprop` the
      * `getprop ro.boot.slot_suffix` run. */
    function GetActiveSlotSuffix(wait: Outcome, getprop: Outcome): (c: Call<Option<string>>)
      reads this
      ensures c.flow.Throw? <==> !skipAdb && !Succeeds(wait)
      ensures !c.flow.Blocked?
      ensures skipAdb ==> c == Call(Return(None), [])
      ensures c.flow.Return? && c.flow.value.Some? ==>
        !skipAdb && Succeeds(getprop) && c.flow.value.value in {"_a", "_b"} &&
        Strip(getprop.out) == c.flow.value.value
      ensures !skipAdb && Succeeds(wait) ==>
        c.flow == Return(if Succeeds(getprop) then AdbSlotSuffix(getprop.out) else None)
    {
      var w := WaitForAdb(wait);
      if w.flow.Throw? then Call(Throw(w.flow.error), w.steps)
      else if skipAdb then Call(Return(None), w.steps)
      else
        var steps := w.steps + [Run(Adb, [tools.adb, "shell", "getprop", "ro.boot.slot_suffix"], None)];
        match Utils.Launch(getprop, true, true)
        case Raised(_) => Call(Return(None), steps)
        case Returned(p) => Call(Return(AdbSlotSuffix(p.stdout.value)), steps)
    }

    /** `get_active_slot_suffix_from_fastboot`: `fastboot getvar
      * current-slot`, searched in its stripped error output, a newline,
      * then its stripped standard output. It never raises. */
    function GetActiveSlotSuffixFromFastboot(o: Outcome): (c: Call<Option<string>>)
      ensures c.flow.Return?
      ensures c.steps == [Run(Fastboot, [tools.fastboot, "getvar", "current-slot"], None)]
      ensures c.flow.value.Some? ==> o.Exited? && c.flow.value.value in {"_a", "_b"}
      ensures o.Exited? ==> c.flow.value == FastbootSlot(Strip(o.err) + "\n" + Strip(o.out))
    {
      var steps := [Run(Fastboot, [tools.fastboot, "getvar", "current-slot"], None)];
      match Utils.Launch(o, false, true)
      case Raised(_) => Call(Return(None), steps)
      case Returned(p) => Call(Return(FastbootSlot(Strip(p.stderr.value) + "\n" + Strip(p.stdout.value))), steps)
    }

    /** `check_fastboot_device`: `fastboot devices` listed something. */
    function CheckFastbootDevice(o: Outcome): (b: bool)
      ensures b <==> o.Exited? && Strip(o.out) != ""
      ensures b <==> o.Exited? && !AllSpace(o.out)
    {
      match Utils.Launch(o, false, true)
      case Raised(_) => false
      case Returned(p) => Strip(p.stdout.value) != ""
    }

    /** `check_edl_device`: the first EDL port of one enumeration. */
    method CheckEdlDevice(scan: Scan) returns (port: Option<string>)
      ensures port == FirstEdlPort(scan)
    {
      match scan
      case ScanFailed =>
        return None;
      case Ports(ps) =>
        for i := 0 to |ps|
          invariant FirstMatch(ps) == FirstMatch(ps[i..])
        {
          assert ps[i..][1..] == ps[i + 1..];
          if IsEdlPort(ps[i]) {
            return Some(ps[i].device);
          }
        }
        assert ps[|ps|..] == [];
        return None;
    }

    /** `wait_for_edl`, driven by one enumeration per check and one result
      * per sleep. It returns the detected port. */
    method WaitForEdl(scans: seq<Scan>, sleeps: seq<SleepResult>)
      returns (r: Flow<string>, checks: nat, naps: nat)
      ensures WaitFor(EdlSignals(scans), sleeps) == Wait(EndOf(r), checks, naps)
      ensures r.Return? ==> 1 <= checks <= |scans| && Truthy(FirstEdlPort(scans[checks - 1])) &&
                            r.value == FirstEdlPort(scans[checks - 1]).value
      ensures r.Throw? ==> r.error == KeyboardInterrupt
    {
      if |scans| == 0 {
        return Blocked, 0, 0;
      }
      var port := CheckEdlDevice(scans[0]);
      if Truthy(port) {
        return Return(port.value), 1, 0;
      }
      checks, naps := 1, 0;
      while checks < |scans|
        invariant 1 <= checks <= |scans| && naps == checks - 1
        invariant WaitFor(EdlSignals(scans), sleeps) == WaitLoop(EdlSignals(scans), sleeps, checks)
        decreases |scans| - checks
      {
        port := CheckEdlDevice(scans[checks]);
        checks := checks + 1;
        if Truthy(port) {
          return Return(port.value), checks, naps;
        }
        if naps >= |sleeps| {
          return Blocked, checks, naps;
        }
        naps := naps + 1;
        if sleeps[naps - 1] == Interrupted {
          return Throw(KeyboardInterrupt), checks, naps;
        }
      }
      r := Blocked;
    }

    /** Whether each `fastboot devices` run in a script lists a device. */
    function FastbootSignals(polls: seq<Outcome>): (found: seq<bool>)
      ensures |found| == |polls|
      ensures forall k :: 0 <= k < |polls| ==> found[k] == CheckFastbootDevice(polls[k])
    {
      seq(|polls|, k requires 0 <= k < |polls| => CheckFastbootDevice(polls[k]))
    }

    /** `wait_for_fastboot`, driven by one `fastboot devices` outcome per
      * check and one result per sleep. */
    method WaitForFastboot(polls: seq<Outcome>, sleeps: seq<SleepResult>)
      returns (r: Flow<bool>, checks: nat, naps: nat)
      ensures WaitFor(FastbootSignals(polls), sleeps) == Wait(EndOf(r), checks, naps)
      ensures r.Return? ==> r.value
      ensures r.Throw? ==> r.error == KeyboardInterrupt
    {
      if |polls| == 0 {
        return Blocked, 0, 0;
      }
      if CheckFastbootDevice(polls[0]) {
        return Return(true), 1, 0;
      }
      ghost var found := FastbootSignals(polls);
      checks, naps := 1, 0;
      while checks < |polls|
        invariant 1 <= checks <= |polls| && naps == checks - 1
        invariant WaitFor(found, sleeps) == WaitLoop(found, sleeps, checks)
        decreases |polls| - checks
      {
        var up := CheckFastbootDevice(polls[checks]);
        assert found[checks] == up;
        checks := checks + 1;
        if up {
          return Return(true), checks, naps;
        }
        if naps >= |sleeps| {
          return Blocked, checks, naps;
        }
        naps := naps + 1;
        if sleeps[naps - 1] == Interrupted {
          return Throw(KeyboardInterrupt), checks, naps;
        }
      }
      r := Blocked;
    }

    /** `reboot_to_edl`: the ADB wait (whose failure propagates), then
      * `adb reboot edl`, whose failure is reported and swallowed. */
    function RebootToEdl(wait: Outcome, reboot: Outcome): (c: Call<()>)
      reads this
      ensures c.flow.Throw? <==> !skipAdb && !Succeeds(wait)
      ensures !c.flow.Blocked?
      ensures skipAdb ==> c == Call(Return(()), [])
      ensures !skipAdb && Succeeds(wait) ==>
        c.steps == [Run(Adb, [tools.adb, "wait-for-device"], None), Run(Adb, [tools.adb, "reboot", "edl"], None)]
    {
      var w := WaitForAdb(wait);
      if w.flow.Throw? || skipAdb then w
      else Call(Return(()), w.steps + [Run(Adb, [tools.adb, "reboot", "edl"], None)])
    }

    /** `reboot_to_bootloader`: like `reboot_to_edl`, but a failed
      * `adb reboot bootloader` is re-raised. */
    function RebootToBootloader(wait: Outcome, reboot: Outcome): (c: Call<()>)
      reads this
      ensures c.flow.Return? <==> skipAdb || (Succeeds(wait) && Succeeds(reboot))
      ensures !c.flow.Blocked?
      ensures skipAdb ==> c == Call(Return(()), [])
      ensures !skipAdb && Succeeds(wait) ==>
        c.steps == [Run(Adb, [tools.adb, "wait-for-device"], None), Run(Adb, [tools.adb, "reboot", "bootloader"], None)]
    {
      var w := WaitForAdb(wait);
      if w.flow.Throw? || skipAdb then w
      else Call(CheckedRun(reboot), w.steps + [Run(Adb, [tools.adb, "reboot", "bootloader"], None)])
    }

    /** `fastboot_reboot_system`: `fastboot reboot`; it never raises. */
    function FastbootRebootSystem(o: Outcome): (c: Call<()>)
      ensures c.flow == Return(())
      ensures c.steps == [Run(Fastboot, [tools.fastboot, "reboot"], None)]
    {
      Call(Return(()), [Run(Fastboot, [tools.fastboot, "reboot"], None)])
    }

    /** The mode change at the start of `get_fastboot_vars`: reboot to the
      * bootloader and sleep 10 s, or (ADB skipped) wait for the operator. */
    function EnterFastboot(wait: Outcome, reboot: Outcome): (c: Call<()>)
      reads this
      ensures skipAdb ==> c == Call(Return(()), [AwaitOperator])
      ensures !skipAdb ==> (c.flow.Return? <==> Succeeds(wait) && Succeeds(reboot))
      ensures !skipAdb && c.flow.Return? ==> c.steps == RebootToBootloader(wait, reboot).steps + [Sleep(10)]
      ensures !c.flow.Blocked?
    {
      if skipAdb then Call(Return(()), [AwaitOperator])
      else
        var b := RebootToBootloader(wait, reboot);
        if b.flow.Throw? then b else Call(Return(()), b.steps + [Sleep(10)])
    }

    /** The `try` block of `get_fastboot_vars`: `fastboot getvar all`, then
      * (unless ADB is skipped) a reboot to system, on success and on
      * failure alike; a failure is re-raised. */
    function ReadVars(getvar: Outcome, reboot: Outcome): (c: Call<string>)
      reads this
      ensures c.flow.Return? <==> getvar.Exited?
      ensures c.flow.Return? ==> c.flow.value == getvar.out + "\n" + getvar.err
      ensures c.flow.Throw? ==> c.flow.error == FileNotFoundError
      ensures !c.flow.Blocked?
      ensures c.steps == [Run(Fastboot, [tools.fastboot, "getvar", "all"], None)] +
                         (if skipAdb then [] else [Run(Fastboot, [tools.fastboot, "reboot"], None)])
    {
      var steps := [Run(Fastboot, [tools.fastboot, "getvar", "all"], None)];
      var after := if skipAdb then [] else FastbootRebootSystem(reboot).steps;
      match Utils.Launch(getvar, false, true)
      case Raised(e) => Call(Throw(e), steps + after)
      case Returned(p) => Call(Return(p.stdout.value + "\n" + p.stderr.value), steps + after)
    }

    /** `get_fastboot_vars`: enter Fastboot mode, wait for the device, and
      * return the output of `fastboot getvar all`. */
    method GetFastbootVars(wait: Outcome, rebootBootloader: Outcome, polls: seq<Outcome>,
                           sleeps: seq<SleepResult>, getvar: Outcome, rebootSystem: Outcome)
      returns (r: Flow<string>, steps: seq<Step>)
      ensures var pre := EnterFastboot(wait, rebootBootloader);
        var w := WaitFor(FastbootSignals(polls), sleeps);
        var rv := ReadVars(getvar, rebootSystem);
        if pre.flow.Throw? then r == Throw(pre.flow.error) && steps == pre.steps
        else if w.end == Cancelled then
          r == Throw(KeyboardInterrupt) && steps == pre.steps + [Poll(FastbootMode, w.checks, w.naps)]
        else if w.end == StillWaiting then
          r == Blocked && steps == pre.steps + [Poll(FastbootMode, w.checks, w.naps)]
        else r == rv.flow && steps == pre.steps + [Poll(FastbootMode, w.checks, w.naps)] + rv.steps
      ensures r.Return? ==> getvar.Exited? && r.value == getvar.out + "\n" + getvar.err
    {
      var pre := EnterFastboot(wait, rebootBootloader);
      if pre.flow.Throw? {
        return Throw(pre.flow.error), pre.steps;
      }
      var up, checks, naps := WaitForFastboot(polls, sleeps);
      steps := pre.steps + [Poll(FastbootMode, checks, naps)];
      if up.Throw? {
        return Throw(up.error), steps;
      }
      if up.Blocked? {
        return Blocked, steps;
      }
      var rv := ReadVars(getvar, rebootSystem);
      r := rv.flow;
      steps := steps + rv.steps;
    }

    /** The reboot branch of `setup_edl_connection`, taken when no EDL port
      * is present: the ADB wait, `reboot_to_edl`, then a 10 s sleep (the
      * waits and the sleep only when ADB is used). */
    function RebootPhase(wait: Outcome, rebootWait: Outcome, reboot: Outcome): (c: Call<()>)
      reads this
      ensures skipAdb ==> c == Call(Return(()), [])
      ensures c.flow.Throw? <==> !skipAdb && (!Succeeds(wait) || !Succeeds(rebootWait))
      ensures !c.flow.Blocked?
      ensures !skipAdb && c.flow.Return? ==>
        c.steps == [Run(Adb, [tools.adb, "wait-for-device"], None),
                    Run(Adb, [tools.adb, "wait-for-device"], None),
                    Run(Adb, [tools.adb, "reboot", "edl"], None), Sleep(10)]
    {
      var w := if skipAdb then Call(Return(()), []) else WaitForAdb(wait);
      if w.flow.Throw? then w
      else
        var e := RebootToEdl(rebootWait, reboot);
        if e.flow.Throw? then Call(e.flow, w.steps + e.steps)
        else Call(Return(()), w.steps + e.steps + (if skipAdb then [] else [Sleep(10)]))
    }

    /** `setup_edl_connection`: unless the first enumeration already shows
      * an EDL port, reboot the device into EDL; then wait for the loader
      * file and for the EDL port, and remember that port. `loader` is how
      * the loader wait `wait_for_files(directory, files, prompt)` ends:
      * `None` when the file is there, otherwise what it raised. */
    method SetupEdlConnection(firstScan: Scan, wait: Outcome, rebootWait: Outcome, reboot: Outcome,
                              loader: Option<Error>, scans: seq<Scan>, sleeps: seq<SleepResult>)
      returns (r: Flow<string>, steps: seq<Step>)
      modifies this
      ensures skipAdb == old(skipAdb)
      ensures r.Return? ==> edlPort == Some(r.value) && r.value != ""
      ensures !r.Return? ==> edlPort == old(edlPort)
      ensures var already := Truthy(FirstEdlPort(firstScan));
        var pre := if already then Call(Return(()), []) else RebootPhase(wait, rebootWait, reboot);
        var w := WaitFor(EdlSignals(scans), sleeps);
        if pre.flow.Throw? then r == Throw(pre.flow.error) && steps == [ListPorts] + pre.steps
        else if loader.Some? then
          r == Throw(loader.value) && steps == [ListPorts] + pre.steps + [MakeDir(tools.imageDir), AwaitLoader]
        else
          steps == [ListPorts] + pre.steps + [MakeDir(tools.imageDir), AwaitLoader, Poll(EdlMode, w.checks, w.naps)] &&
          EndOf(r) == w.end &&
          (r.Return? ==> 1 <= w.checks <= |scans| && Truthy(FirstEdlPort(scans[w.checks - 1])) &&
                         r.value == FirstEdlPort(scans[w.checks - 1]).value)
      ensures Truthy(FirstEdlPort(firstScan)) || old(skipAdb) ==>
        var w := WaitFor(EdlSignals(scans), sleeps);
        steps == [ListPorts, MakeDir(tools.imageDir), AwaitLoader] +
                 (if loader.Some? then [] else [Poll(EdlMode, w.checks, w.naps)])
    {
      var first := CheckEdlDevice(firstScan);
      steps := [ListPorts];
      if !Truthy(first) {
        var pre := RebootPhase(wait, rebootWait, reboot);
        steps := steps + pre.steps;
        if pre.flow.Throw? {
          return Throw(pre.flow.error), steps;
        }
      }
      steps := steps + [MakeDir(tools.imageDir), AwaitLoader];
      if loader.Some? {
        return Throw(loader.value), steps;
      }
      var port, checks, naps := WaitForEdl(scans, sleeps);
      steps := steps + [Poll(EdlMode, checks, naps)];
      r := port;
      if port.Return? {
        edlPort := Some(port.value);
      }
    }

    /** `load_firehose_programmer`: upload the loader with QSaharaServer;
      * a missing executable or a failed upload is raised. */
    function LoadFirehoseProgrammer(loader: Path, port: string, qsaharaExists: bool, o: Outcome): (c: Call<()>)
      ensures !qsaharaExists ==> c == Call(Throw(FileNotFoundError), [])
      ensures qsaharaExists ==> c.steps == [Run(QSahara, SaharaArgs(tools.qsahara, port, loader.text), None)]
      ensures c.flow.Return? <==> qsaharaExists && Succeeds(o)
      ensures !c.flow.Blocked?
    {
      if !qsaharaExists then Call(Throw(FileNotFoundError), [])
      else Call(CheckedRun(o), [Run(QSahara, SaharaArgs(tools.qsahara, port, loader.text), None)])
    }

    /** `fh_loader_read_part`: create the output directory and run the read
      * vector there; a failure is raised. */
    function FhLoaderReadPart(port: string, dest: Path, lun: string, start: string, num: string,
                              memory: Option<string>, fhExists: bool, o: Outcome): (c: Call<()>)
      ensures !fhExists ==> c == Call(Throw(FileNotFoundError), [])
      ensures fhExists ==> (c.steps ==
        [MakeDir(dest.parent),
         Run(FhLoader, ReadArgs(tools.fhLoader, port, dest.name, lun, start, num, MemoryOrDefault(memory)),
             Some(dest.parent))])
      ensures c.flow.Return? <==> fhExists && Succeeds(o)
      ensures fhExists && c.flow.Throw? ==>
        c.flow.error == (if o.Missing? then FileNotFoundError else CalledProcessError(o.code))
      ensures !c.flow.Blocked?
    {
      if !fhExists then Call(Throw(FileNotFoundError), [])
      else
        var argv := ReadArgs(tools.fhLoader, port, dest.name, lun, start, num, MemoryOrDefault(memory));
        Call(CheckedRun(o), [MakeDir(dest.parent), Run(FhLoader, argv, Some(dest.parent))])
    }

    /** `fh_loader_write_part`: run the write vector in the image's
      * directory; a failure is raised. */
    function FhLoaderWritePart(port: string, image: Path, lun: string, start: string,
                               memory: Option<string>, fhExists: bool, o: Outcome): (c: Call<()>)
      ensures !fhExists ==> c == Call(Throw(FileNotFoundError), [])
      ensures fhExists ==> (c.steps ==
        [Run(FhLoader, WriteArgs(tools.fhLoader, port, image.name, lun, start, MemoryOrDefault(memory)),
             Some(image.parent))])
      ensures c.flow.Return? <==> fhExists && Succeeds(o)
      ensures fhExists && c.flow.Throw? ==>
        c.flow.error == (if o.Missing? then FileNotFoundError else CalledProcessError(o.code))
      ensures !c.flow.Blocked?
    {
      if !fhExists then Call(Throw(FileNotFoundError), [])
      else
        var argv := WriteArgs(tools.fhLoader, port, image.name, lun, start, MemoryOrDefault(memory));
        Call(CheckedRun(o), [Run(FhLoader, argv, Some(image.parent))])
    }

    /** `fh_loader_reset`: run the reset vector; a failure is raised. */
    function FhLoaderReset(port: string, fhExists: bool, o: Outcome): (c: Call<()>)
      ensures !fhExists ==> c == Call(Throw(FileNotFoundError), [])
      ensures fhExists ==> c.steps == [Run(FhLoader, ResetArgs(tools.fhLoader, port), None)]
      ensures c.flow.Return? <==> fhExists && Succeeds(o)
      ensures !c.flow.Blocked?
    {
      if !fhExists then Call(Throw(FileNotFoundError), [])
      else Call(CheckedRun(o), [Run(FhLoader, ResetArgs(tools.fhLoader, port), None)])
    }

    /** `edl_rawprogram`: both executables must exist before anything runs;
      * the programmer upload comes first and a failure there stops before
      * fh_loader is started. */
    function EdlRawprogram(loader: Path, memory: string, raws: seq<Path>, patches: seq<Path>,
                           port: string, qsaharaExists: bool, fhExists: bool,
                           sahara: Outcome, fh: Outcome): (c: Call<()>)
      ensures !(qsaharaExists && fhExists) ==> c == Call(Throw(FileNotFoundError), [])
      ensures qsaharaExists && fhExists && !Succeeds(sahara) ==>
        c.flow.Throw? && c.steps == [Run(QSahara, SaharaArgs(tools.qsahara, port, loader.text), None)]
      ensures qsaharaExists && fhExists && Succeeds(sahara) ==>
        c.steps == [Run(QSahara, SaharaArgs(tools.qsahara, port, loader.text), None),
                    Run(FhLoader, RawprogramArgs(tools.fhLoader, port, loader.parent, Names(raws),
                                                 Names(patches), memory), None)]
      ensures c.flow.Return? <==> qsaharaExists && fhExists && Succeeds(sahara) && Succeeds(fh)
      ensures !c.flow.Blocked?
    {
      if !qsaharaExists || !fhExists then Call(Throw(FileNotFoundError), [])
      else
        var load := LoadFirehoseProgrammer(loader, port, qsaharaExists, sahara);
        if load.flow.Throw? then load
        else
          var argv := RawprogramArgs(tools.fhLoader, port, loader.parent, Names(raws), Names(patches), memory);
          Call(CheckedRun(fh), load.steps + [Run(FhLoader, argv, None)])
    }
  }
}
