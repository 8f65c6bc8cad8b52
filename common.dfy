// Shared vocabulary of the LTBox model: optional values, the outcome of an
// external process as the operating system reports it, the exceptions the
// Python code raises or catches, and resolved file paths.

module Common {

  datatype Option<T> = None | Some(value: T)

  newtype byte = x: int | 0 <= x < 256

  /** What happened when an external executable was launched: it ran and
    * exited with `code`, writing `out` and `err`, or it could not be found
    * (Python raises `FileNotFoundError` from `subprocess.run`). */
  datatype Outcome =
    | Exited(code: int, out: string, err: string)
    | Missing

  /** The Python exceptions that matter to the control flow. */
  datatype Error =
    | CalledProcessError(returncode: int)
    | FileNotFoundError
    | KeyError(key: string)
    | IndexError
    | RuntimeError(system: string)
    | KeyboardInterrupt
    | SystemExit(status: int)
    | TypeError

  datatype Result<T> = Ok(value: T) | Err(error: Error)

  /** How a Python call ends: it returns a value, raises, or (for a polling
    * loop driven by a finite script of observations) is still waiting when
    * the script runs out. */
  datatype Flow<T> =
    | Return(value: T)
    | Throw(error: Error)
    | Blocked

  /** A path after `Path.resolve()`: its full text, the text of its parent
    * directory and its final component. */
  datatype Path = Path(text: string, parent: string, name: string)

  /** `dir / name` for a directory path given as text. */
  function Child(dir: string, name: string): (p: Path)
    ensures p.parent == dir && p.name == name
    ensures |p.text| == |dir| + 1 + |name|
  {
    Path(dir + "/" + name, dir, name)
  }

  /** The executable search path value the source builds: `first`, the
    * platform separator, then the rest. */
  function PrependPath(first: string, sep: char, rest: string): (r: string)
    ensures |r| == |first| + 1 + |rest|
    ensures r[..|first|] == first && r[|first|] == sep && r[|first| + 1..] == rest
  {
    first + [sep] + rest
  }
}
