# LTBox core, modelled in Dafny

LTBox drives a Qualcomm Android device through its boot modes. It waits for the
device over ADB, Fastboot or the Qualcomm emergency download port (EDL, USB id
05C6:9008). It uploads the Firehose programmer with QSaharaServer and reads,
writes and flashes partitions with `fh_loader`. Around that core sit small
image tools. One patches `vendor_boot` markers (`.ROW`/`IROW` to
`.PRC`/`IPRC`). One extracts the kernel version string. The `main.py` patcher
parses `avbtool` output and refuses to root a boot image whose kernel is not
6.1.112.

The model has seven modules:

- `Common` holds shared values:
  - what an external process did (`Outcome`);
  - the Python exceptions the control flow depends on (`Error`);
  - `Result`, and `Flow` (a call returns, raises, or is still waiting when its scripted input runs out);
  - resolved paths.
- `Text` holds the Python string operations the code relies on: `str.isspace`, `strip`, `split`, `split()`, `join`, `startswith`, `in`, `str.find`, ASCII `upper` and the code-point order of `sorted`.
- `Utils` models `ltbox/utils.py`: `run_command` updating a caller's environment dictionary (a class), the executable name per platform, the operator waits for files and for a folder (methods with loops), and the dependency check.
- `Device` models `ltbox/device.py`. `DeviceController` is a class whose `edlPort` field `setup_edl_connection` updates. Every external call is an `Outcome` parameter, and every effect is a `Step` in a returned trace. The two polling loops are methods driven by a finite script of observations and sleep results. Argument vectors are pure functions, with lemmas that read the flags back.
- `EditVndrboot` models `tools/edit_vndrboot.py`: `bytes.count`, `bytes.replace`, and the patch loop as a method.
- `KernelVersion` models `tools/get_kernel_ver.py`: the leftmost match of `Linux version (\S+)` on bytes, and the script's exit status and output.
- `MainScript` models `main.py`: its `run_command`, the kernel gate, the `KEY=VALUE` dictionary, the `PROP_VAL` slice, the signing-key choice, the `avbtool info_image` parse (a method with a loop) and `show_image_info` (sorted order, failures that are skipped and ones that are not).

Two details of the code that shape the model:

- **Polling.** `wait_for_edl` and `wait_for_fastboot` check once, then enter a `while` loop that checks again at once, so the observations `[absent, absent, present]` cost one sleep (`Device.WaitForFinds`: a first success at check k takes k+1 checks and k-1 sleeps).
- **Reset.** `fh_loader_reset` goes through `utils.run_command` with `check=True`, so a failed reset raises (`Device.DeviceController.FhLoaderReset`).

## Model

| member | source | states |
|---|---|---|
| Text.Strip | main.py:111 | `strip` leaves no whitespace at either end, is no longer than its input, and is empty exactly when the input is all whitespace |
| Text.StripExact | main.py:249 | `strip` removes exactly the surrounding whitespace around a trimmed middle |
| Text.Contains | ltbox/device.py:215 | `sub in s` holds exactly when `sub` occurs at some index |
| Text.AsciiUpper | ltbox/device.py:215 | `upper` keeps the length, maps each ASCII lower-case letter to its capital and leaves every other character |
| Text.IndexOf | main.py:248 | the first index of the separator, or the length when it is absent |
| Text.Split | main.py:248 | `split(c)` gives at least one piece and no piece holds the separator |
| Text.JoinSplit | main.py:248 | joining the pieces of a split gives the text back |
| Text.SplitJoin | ltbox/device.py:418-419 | splitting a comma-join of comma-free names gives the names back |
| Text.SplitFirst | main.py:27 | splitting at the first separator gives the text before it, then the split of the rest |
| Text.Find | main.py:259 | the first occurrence of the pattern, or the length when there is none |
| Text.FindAfter2 | main.py:259 | the search for `->` stops where the first arrow starts |
| Text.AfterLast | main.py:260 | `split(c)[-1]` is a separator-free suffix that follows a separator unless it is the whole text |
| Text.AfterLastSplit | main.py:260 | the last piece is everything after the last separator |
| Text.WordLength | main.py:251 | the run of non-whitespace characters at the start ends at whitespace or at the end |
| Text.Words | main.py:251 | `split()` gives non-empty pieces without whitespace |
| Text.WordsOfSpace | main.py:251 | only whitespace gives no words |
| Text.WordsCons | main.py:251 | after leading whitespace the first word is the whole run of non-whitespace up to the next whitespace or the end, and the rest is split from there: the words are the maximal runs, in order |
| Text.LexLeTotal | main.py:333 | any two names compare one way or the other |
| Text.LexLeAntisymmetric | main.py:333 | names that compare both ways are equal |
| Text.LexLeTransitive | main.py:333 | the order is transitive |
| Common.PrependPath | main.py:27 | the new `PATH` is the first directory, the separator, then the old value, each at its own position |
| Utils.SearchPathEntries | ltbox/utils.py:16-17 | split on `os.pathsep`, the new `PATH` is `TOOLS_DIR`, `DOWNLOAD_DIR`, then every old entry in order |
| Utils.LaunchExitStatus | ltbox/utils.py:19-23 | a run raises `CalledProcessError(code)` exactly when checking and the exit code is non-zero; otherwise it returns the code, with the streams exactly when captured |
| Utils.Echoes | ltbox/utils.py:25-29 | nothing is echoed for a captured or failed run; at most one stdout and one stderr line |
| Utils.RunCommand | ltbox/utils.py:15-42 | a missing `PATH` raises `KeyError` and changes nothing; otherwise it launches with the prefixed `PATH`, updates a non-empty caller dictionary in place and leaves any other untouched, and returns or raises as the launch did |
| Utils.GetPlatformExecutable | ltbox/utils.py:45-55 | `RuntimeError(system)` exactly for a system other than Windows, Linux or Darwin; Windows gives `name.exe`, Linux `name-linux`, Darwin `name-macos`, each in the download directory, and the file name reads back as the system and the tool |
| Utils.ExecutableNameRoundTrip | ltbox/utils.py:47-51 | the executable name determines the system and the tool name |
| Utils.MissingFilesSpec | ltbox/utils.py:61-68 | a file is listed as missing exactly when it is required and absent; the list is empty exactly when all are present |
| Utils.MissingFilesAppend | ltbox/utils.py:62-66 | the missing files of a concatenation are the first part's, then the second's: the list keeps the required order, and a file required twice is listed twice |
| Utils.MissingFileOne | ltbox/utils.py:62-66 | one required file is listed exactly when it is absent |
| Utils.WaitForFiles | ltbox/utils.py:58-85 | returns true only in a round where every required file is present; each earlier round listed exactly its missing files, and when it returns every prompted round was answered with Enter; an end-of-input answer exits with status 1 |
| Utils.BindWaitForFiles | ltbox/utils.py:58 | a call binds exactly when the keywords name exactly the parameters the positional arguments left open; otherwise `TypeError` |
| Utils.BindWaitForFilesArity | ltbox/utils.py:58 | a call that binds supplies each of the three parameters exactly once, under its own name |
| Utils.WaitForDirectory | ltbox/utils.py:87-108 | returns true only in a round where the folder is a non-empty directory; every earlier round showed the prompt, and when it returns every prompt was answered with Enter; end of input exits with status 1 |
| Utils.Dependencies | ltbox/utils.py:113-123 | the table has nine entries with pairwise distinct names, so each missing dependency is named once; the fetch tool entry carries the platform executable's path |
| Utils.MissingDependenciesSpec | ltbox/utils.py:124 | a dependency is reported exactly when its path is absent |
| Utils.MissingDependenciesAppend | ltbox/utils.py:124 | the names of a split table are the first part's, then the second's: they keep table order and multiplicity |
| Utils.MissingDependencyOne | ltbox/utils.py:124 | one entry is reported under its own name exactly when its path is absent |
| Utils.CheckDependencies | ltbox/utils.py:111-132 | an unsupported system fails while building the table; a reported list is never empty |
| Utils.CheckDependenciesExits | ltbox/utils.py:124-130 | on a supported system the check exits exactly when some path is absent, and names exactly those dependencies, as `MissingDependencies` lists them in table order |
| Device.CheckedRun | ltbox/device.py:339 | a checked run succeeds exactly when the tool exits 0; otherwise `FileNotFoundError` or `CalledProcessError(code)` |
| Device.FirstMatchSpec | ltbox/device.py:213-225 | no port is reported exactly when none is a Qualcomm 9008 port; otherwise the first such port in enumeration order |
| Device.WaitLoopSpec | ltbox/device.py:238-244 | the loop, entered after failed checks, ends at the first successful check, at an interrupted sleep, or when the script runs out, with the counts of checks and sleeps |
| Device.WaitForSpec | ltbox/device.py:232-246 | the whole wait: every check before the last failed; a found wait ends at a successful check after one sleep per failed loop check; a cancelled wait ends at an interrupted sleep after a failed check |
| Device.WaitForFinds | ltbox/device.py:234-246 | when the k-th check is the first success and no sleep is interrupted, the wait finds the device after k+1 checks and k-1 sleeps |
| Device.WaitLoopFinds | ltbox/device.py:238-246 | the same count from any point inside the loop |
| Device.EdlSignals | ltbox/device.py:238 | one truthiness result per enumeration, that of the first EDL port |
| Device.AdbSlotSuffixSpec | ltbox/device.py:60-66 | a suffix is accepted only when the stripped output is `_a` or `_b`, and any whitespace around `_a`/`_b` is accepted |
| Device.SlotSearchLeftmost | ltbox/device.py:78 | the search for `current-slot:\s*([a-z]+)` finds the leftmost match, and nothing exactly when there is none |
| Device.FastbootSlotSpec | ltbox/device.py:78-84 | a suffix is returned exactly when the leftmost match's group is `a` or `b`, and it is `_` followed by that group |
| Device.FastbootSlotOfReply | ltbox/device.py:78-84 | a `current-slot: a` (or `b`) reply gives `_a` (or `_b`) |
| Device.PortArgRoundTrip | ltbox/device.py:282 | different ports give different `\\.\` device paths |
| Device.FlagValueAt | ltbox/device.py:323-334 | reading a flag's value gives the value of its first occurrence |
| Device.ReadArgsFields | ltbox/device.py:322-334 | the read command carries the given port, file name, LUN, start sector, sector count and memory name |
| Device.WriteIsReadWithoutReadFlags | ltbox/device.py:361-370 | the write command is the read command without `--convertprogram2read` and `--num_sectors` |
| Device.RawprogramXmlLists | ltbox/device.py:418-426 | the two `--sendxml` values split back into exactly the raw and patch XML names |
| Device.Names | ltbox/device.py:418-419 | the names of the paths, in order |
| Device.LoaderWaitAsWrittenFails | ltbox/device.py:270 | the loader wait as written, with `lang=`, cannot bind to `wait_for_files` and raises `TypeError` |
| Device.LoaderWaitCorrectedBinds | ltbox/device.py:270 | the same call without the keyword binds |
| Device.DeviceController.constructor | ltbox/device.py:14-17 | a new controller records the ADB choice and no EDL port |
| Device.DeviceController.WaitForAdb | ltbox/device.py:19-32 | nothing when ADB is skipped; otherwise one `adb wait-for-device`, whose failure propagates |
| Device.DeviceController.GetActiveSlotSuffix | ltbox/device.py:53-70 | a failed ADB wait propagates; a skipped ADB gives no suffix; a failed `getprop` gives no suffix; a returned suffix is `_a` or `_b` and is the stripped output |
| Device.DeviceController.GetActiveSlotSuffixFromFastboot | ltbox/device.py:72-90 | never raises; searches the stripped stderr, a newline and the stripped stdout; a returned suffix is `_a` or `_b` |
| Device.DeviceController.CheckFastbootDevice | ltbox/device.py:118-138 | a device is present exactly when `fastboot devices` ran and printed something other than whitespace |
| Device.DeviceController.CheckEdlDevice | ltbox/device.py:207-230 | the loop returns the first EDL port of the enumeration, and none when the enumeration fails |
| Device.DeviceController.WaitForEdl | ltbox/device.py:232-246 | ends as the wait specification says; a returned port is the truthy first EDL port of the last enumeration; cancellation is `KeyboardInterrupt` |
| Device.FastbootSignals | ltbox/device.py:146 | one presence result per `fastboot devices` run |
| Device.DeviceController.WaitForFastboot | ltbox/device.py:140-154 | ends exactly as the wait specification over the `fastboot devices` results says (with `Device.WaitForSpec`: true only after a check that found a device); returns only true; cancellation is `KeyboardInterrupt` |
| Device.DeviceController.RebootToEdl | ltbox/device.py:92-103 | only the ADB wait's failure propagates; a failed reboot command is swallowed |
| Device.DeviceController.RebootToBootloader | ltbox/device.py:105-116 | succeeds exactly when ADB is skipped or both the wait and the reboot succeed |
| Device.DeviceController.FastbootRebootSystem | ltbox/device.py:156-162 | issues `fastboot reboot` and never raises |
| Device.DeviceController.EnterFastboot | ltbox/device.py:167-179 | without ADB, one operator prompt; with ADB, reboot to the bootloader then a 10 s sleep, failing exactly when that reboot fails |
| Device.DeviceController.ReadVars | ltbox/device.py:183-205 | returns stdout, a newline, then stderr exactly when `getvar all` ran; a failure to start raises `FileNotFoundError`; with ADB the device is rebooted to the system either way |
| Device.DeviceController.GetFastbootVars | ltbox/device.py:164-205 | the steps are the phase before, the Fastboot wait, then the read; a returned value is the tool's stdout, a newline and stderr |
| Device.DeviceController.RebootPhase | ltbox/device.py:249-260 | with ADB: two ADB waits, `reboot edl`, a 10 s sleep; a failure of either wait propagates |
| Device.DeviceController.SetupEdlConnection | ltbox/device.py:248-276 | reboots only when no EDL port was present (with a port already present, or `skip_adb`, the trace is exactly: list ports, create `IMAGE_DIR`, wait for the loader, poll); creates `IMAGE_DIR`, waits for the loader, then for the port; records the port only on success and returns it |
| Device.DeviceController.LoadFirehoseProgrammer | ltbox/device.py:278-299 | a missing QSaharaServer raises `FileNotFoundError` without running; otherwise one run with `-p \\.\port -s 13:loader`, which succeeds exactly when the tool exits 0 |
| Device.DeviceController.FhLoaderReadPart | ltbox/device.py:301-342 | creates the destination directory, then runs the read command in it; fails exactly when `fh_loader` is absent or the run fails |
| Device.DeviceController.FhLoaderWritePart | ltbox/device.py:344-382 | runs the write command in the image's directory; fails exactly when `fh_loader` is absent or the run fails |
| Device.DeviceController.FhLoaderReset | ltbox/device.py:384-397 | runs `--reset --noprompt`; fails exactly when `fh_loader` is absent or the run fails |
| Device.DeviceController.EdlRawprogram | ltbox/device.py:399-433 | both tools must exist; the programmer is loaded first and a failed load stops the flash; the whole operation succeeds exactly when both runs succeed |
| EditVndrboot.Replace | tools/edit_vndrboot.py:34 | a same-length replacement keeps the content's length |
| EditVndrboot.CountZeroIff | tools/edit_vndrboot.py:31-32 | the count is zero exactly when the pattern occurs nowhere |
| EditVndrboot.ReplaceChangesIffCount | tools/edit_vndrboot.py:31-34 | replacing changes the content exactly when the count is positive |
| EditVndrboot.ChangedOnlyInMatches | tools/edit_vndrboot.py:34 | every changed byte lies inside an occurrence of the target |
| EditVndrboot.NoOccurrenceAfterReplace | tools/edit_vndrboot.py:34 | after the replacement the target, or a pattern absent before, occurs nowhere |
| EditVndrboot.PatchContent | tools/edit_vndrboot.py:27-35 | the loop applies the rules in table order and sums the per-rule counts |
| EditVndrboot.PatchResult | tools/edit_vndrboot.py:20-35 | the patched content keeps its length, contains neither `.ROW` nor `IROW`, and the count is the sum of the two passes |
| EditVndrboot.PatchChangesIffFound | tools/edit_vndrboot.py:30-42 | the content changes exactly when something was found |
| EditVndrboot.OutputPath | tools/edit_vndrboot.py:14 | the output is `vendor_boot_prc.img` in the input's directory: its directory part is the input up to and including its last `/`, and empty when the input has none |
| EditVndrboot.EditVendorBoot | tools/edit_vndrboot.py:9-42 | a wrong argument count or a missing input exits 1 and writes nothing; otherwise it exits 0 and writes the patched bytes next to the input exactly when something was found |
| KernelVersion.RunEnd | tools/get_kernel_ver.py:17 | the `\S+` run ends at the first whitespace byte or at the end |
| KernelVersion.SearchFrom | tools/get_kernel_ver.py:17 | a found version is non-empty and has no whitespace byte |
| KernelVersion.SearchFromNone | tools/get_kernel_ver.py:17 | the search from a position finds nothing exactly when nothing matches at or after it |
| KernelVersion.SearchFromWitness | tools/get_kernel_ver.py:17 | a found version is the group of a match with no match before it |
| KernelVersion.SearchFromLeftmost | tools/get_kernel_ver.py:17 | the search finds the leftmost match, and nothing exactly when there is none |
| KernelVersion.GroupPlacement | tools/get_kernel_ver.py:17 | the group of a match is the maximal non-whitespace run right after the marker |
| KernelVersion.FindVersion | tools/get_kernel_ver.py:17-18 | a version is non-empty and has no whitespace byte |
| KernelVersion.FindVersionSpec | tools/get_kernel_ver.py:17-23 | no version exactly when no `Linux version ` is followed by a non-space byte; otherwise the maximal run after the leftmost such marker |
| KernelVersion.GetKernelVersionToolSpec | tools/get_kernel_ver.py:5-38 | the default path is `kernel`; exit 0 exactly when the file exists and holds a version, printing it and a newline; otherwise exit 1, an error on stderr and nothing on stdout |
| MainScript.RunCommand | main.py:24-47 | a missing `PATH` raises `KeyError`; the tool starts with `TOOLS_DIR` prefixed; output is always captured and echoed stripped after a returned run; raises exactly as the launch did |
| MainScript.RunCommandSearchPath | main.py:26-27 | the launch `PATH` is `TOOLS_DIR`, then every old entry |
| MainScript.KernelAccepted | main.py:111-116 | the run continues exactly when the stripped output starts with `6.1.112`; otherwise exit 1 |
| MainScript.KernelGate | main.py:110-116 | a failing extractor raises `CalledProcessError` with its code; a pass implies the extractor exited 0 and the version starts with the target |
| MainScript.AsciiText | main.py:111 | bytes as text, one character per byte |
| MainScript.KernelGateOnLine | main.py:111-113 | one printed version line passes exactly when the version starts with the target |
| MainScript.KernelGateOnExtractor | main.py:110-116 | with the extractor's real output, a kernel file without a version stops the run with `CalledProcessError(1)`, and a printable version passes exactly when it starts with the target |
| MainScript.KeyValueRoundTrip | main.py:210 | `key=value` splits back into the key and the value, whatever the value holds |
| MainScript.InfoEntriesSpec | main.py:210 | a key is present exactly when some line with `=` has it, and its value is that of the last such line |
| MainScript.DropEnds | main.py:212 | `[1:-1]` drops exactly the first and last character |
| MainScript.PropValClean | main.py:212 | a missing `PROP_VAL` raises `KeyError`; otherwise the value without its first and last character, and `""` for a value shorter than two characters |
| MainScript.DropEndsQuoted | main.py:212 | a quoted value loses exactly its quotes |
| MainScript.SelectKey | main.py:234-239 | a key is chosen exactly when the public key hash is one of the two known ones, and it is the key with that hash |
| MainScript.ResignKey | main.py:279-283 | re-signing proceeds exactly when `PUBLIC_KEY` is a known hash; otherwise exit 1 |
| MainScript.PropArgs | main.py:258-262 | a line without `->` raises; otherwise a `--prop` pair |
| MainScript.BootLinesErrSticky | main.py:248-262 | an exception on a prefix of the lines is the result of the whole parse |
| MainScript.BootLinesPrefix | main.py:249-262 | the parse of one more line continues from the parse of the lines before it |
| MainScript.ParseBootInfo | main.py:244-262 | the loop over the stripped lines gives the fold of the per-line step, stopping at the first exception |
| MainScript.BootLinesStep | main.py:249-262 | a field line sets its field to its token, a `Prop:` line appends its pair, any other line changes nothing |
| MainScript.BootLinesProps | main.py:258-262 | the collected arguments are `--prop` pairs |
| MainScript.BootLinesFieldPresent | main.py:250-257 | a field is present exactly when some line sets it |
| MainScript.BootLinesFieldLast | main.py:250-257 | a field holds the token of the last line that sets it |
| MainScript.ArrowAfterKey | main.py:259 | in `Prop: key -> …` the first `->` is the one after the key |
| MainScript.NoArrowQuoted | main.py:259-261 | a quoted value has no `->` to split on |
| MainScript.PropKeyPart | main.py:260 | the key is the stripped text after the last `:` before the arrow |
| MainScript.PropValuePart | main.py:261 | the value is the stripped text after the arrow without its quotes |
| MainScript.PropArgsOfAvbLine | main.py:258-262 | an `avbtool` line `Prop: key -> 'value'` gives `--prop key:value` |
| MainScript.InsertSpec | main.py:333 | insertion keeps the list sorted and adds exactly the one name |
| MainScript.SortSpec | main.py:333 | `sorted` gives an ascending permutation of the names |
| MainScript.Inspect | main.py:336-348 | a pass records the file it was given, and reports it not found exactly when it does not exist |
| MainScript.InspectRuns | main.py:343-348 | for an existing file, the pass is failed exactly when `avbtool` raised `CalledProcessError`, raises exactly when it raised anything else (that same exception), and is inspected exactly when `avbtool` returned |
| MainScript.ShowImageInfo | main.py:328-349 | visits the names in sorted order, one pass each; every logged entry is that file's pass; a complete run logs every name; an exception ends the loop at the file whose pass raised it |

## Left out

- Console output, prompts and the `lang` message table are left out. Only the order of effects that reach a device or the disk is kept, as `Step`s.
- Sleeps, serial-port enumeration, operator input and external tools are parameters. A wait that would go on past its scripted input ends as `Blocked`/`StillWaiting`, because the program itself would keep polling.
- `get_device_model` is left out, as are `clean_workspace`, the downloads, file moves and the rest of `main.py`'s patch flow around the modelled parsers and gates.
- `main.py`'s own `check_dependencies` and `ltbox/utils.py`'s `show_image_info` are left out; the modelled `Utils.CheckDependencies` and `MainScript.ShowImageInfo` stand for them.
- `Device.CheckedRun` and the Device members that run a tool through it or through `Utils.Launch` assume `PATH` is set: the model has no environment input. `run_command` reads `env['PATH']` before it starts anything, and `fh_loader_read_part` and `fh_loader_write_part` read it directly. `Utils.RunCommand` and `MainScript.RunCommand` do model the missing case.
- Without `PATH`, `WaitForAdb`, `GetActiveSlotSuffix`, `RebootToEdl` and `RebootToBootloader` (each unless ADB is skipped), and `ReadVars`, `LoadFirehoseProgrammer`, `FhLoaderReadPart`, `FhLoaderWritePart`, `FhLoaderReset` and `EdlRawprogram` (once they reach their run) would raise `KeyError`, which no `except CalledProcessError` catches; the model does not raise it.
- Without `PATH`, `GetActiveSlotSuffixFromFastboot` would return `None`, `CheckFastbootDevice` would return false (so `WaitForFastboot` would never end) and `FastbootRebootSystem` would return normally, because their `except Exception` catches the `KeyError` (ltbox/device.py:88-90, 135-138, 161-162); the model does not produce these outcomes from a missing `PATH`.
- `wait_for_files` and `wait_for_directory` create the directory first; that `mkdir` is not modelled.
- Write errors of the image tools (`IOError`) are left out. So is the argument-parsing code of `main.py`.
- `Device.IsEdlPort` and `Text.AsciiUpper` upper-case ASCII letters only, where Python's `str.upper` covers all of Unicode. A `None` description or hardware id is modelled as the empty string, which Python treats the same way.
- `KernelVersion.GetKernelVersionTool` prints the version bytes as they are. The UTF-8 decoding with `errors='ignore'` is not modelled.
- `MainScript.KernelGateOnExtractor` is stated only for printable ASCII versions: `str.strip` also removes the characters 0x1C-0x1F, which a `\S` byte match keeps.
- `Device.DeviceController.SetupEdlConnection` takes the end of the loader wait as a parameter rather than calling `Utils.WaitForFiles`, because as written that call cannot bind (see Findings).
- `EditVndrboot.OutputPath` treats the argument as POSIX path text; `pathlib`'s normalisation of trailing and repeated separators is not modelled.
- `MainScript.ShowImageInfo` takes path resolution as a function; symbolic links and the current directory are not modelled.

## Findings

| source | as written | input that shows it | evidently intended | confidence | as-written member | corrected member |
|---|---|---|---|---|---|---|
| ltbox/device.py:270 | `setup_edl_connection` calls `utils.wait_for_files(IMAGE_DIR, required_files, prompt, lang=self.lang)`, but `wait_for_files(directory, required_files, prompt_message)` (ltbox/utils.py:58) has no `lang` parameter, so the call raises `TypeError` | any call that gets past the reboot phase, e.g. a device already in EDL mode | wait for the loader file with the three positional arguments, then wait for the EDL port | high; not executed | Device.LoaderWaitAsWrittenFails | Device.DeviceController.SetupEdlConnection |

A note outside the table: with `with_root`, `main.py` builds the boot footer command with `--key` set to `str(key_file)` (line 269). It does this before it checks at lines 281-283 that a key was found. With an unknown public key, `avbtool` is therefore first run with an empty key path.
