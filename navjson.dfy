/** The `navjson` package: the `nav.json` document, its field checks after
    decoding, and the recursive walk that checks every referenced file
    exists on disk. */
module NavJson {
  import opened FileSystem

  datatype Option<T> = None | Some(value: T)

  /** One entry of the navigation tree. An empty `name` marks a placeholder
      (no children) or a grouping node (children nested under `path`). */
  datatype NavFile = NavFile(name: string, path: string, files: seq<NavFile>)

  /** The exported fields of a `nav.json` document, as `json.Unmarshal`
      fills them in. A missing key decodes to the zero value (the empty
      string, false, an empty list); `packages` is None when the key is
      absent, which Go distinguishes from a present but empty object. */
  datatype Fields = Fields(
    root: string,
    assetRoot: string,
    skipMenuOrdering: bool,
    packages: Option<map<string, string>>,
    files: seq<NavFile>)

  /** What `json.Unmarshal` did with the text: it either failed (malformed
      JSON, or a field of the wrong JSON type such as a string for
      `skipMenuOrdering`) or produced the decoded fields. */
  datatype Decoding = DecodeFailed | Decoded(fields: Fields)

  /** A `nav.json` document, with the unexported base directory it is
      validated against. */
  datatype NavJSON = NavJSON(
    root: string,
    assetRoot: string,
    skipMenuOrdering: bool,
    packages: Option<map<string, string>>,
    files: seq<NavFile>,
    directory: string)
  {
    /** The decoded part of the document: what `New` received from the
        decoder. */
    function Decodable(): Fields
    {
      Fields(root, assetRoot, skipMenuOrdering, packages, files)
    }

    /** The invariant every document returned by `New` satisfies. */
    predicate Complete() {
      root != "" && assetRoot != "" && |files| > 0
    }

    /** `ValidateFiles`: walk the whole tree from the document's directory.
        The result is the error the walk specified by `Walk` reports. */
    method ValidateFiles(fs: Snapshot, ops: PathOps) returns (err: Outcome)
      ensures err == Walk(fs, ops, directory, files).outcome
    {
      var probed;
      err, probed := ValidateFilesIn(fs, ops, directory, files);
    }
  }

  /** Why `New` refused the text. */
  datatype NewError = Decode | MissingRoot | MissingAssetRoot | MissingFiles

  datatype NewResult = Ok(doc: NavJSON) | Err(kind: NewError)

  /** `New(dir, data)`, with the outcome of decoding `data` given as
      `decoding`. The three field checks run in a fixed order and the first
      one that fails decides the error. */
  function New(dir: string, decoding: Decoding): (r: NewResult)
    ensures r.Ok? ==> r.doc.Complete() && r.doc.directory == dir
    ensures r.Ok? ==> decoding.Decoded? && r.doc.Decodable() == decoding.fields
  {
    match decoding
    case DecodeFailed => Err(Decode)
    case Decoded(f) =>
      if f.root == "" then Err(MissingRoot)
      else if f.assetRoot == "" then Err(MissingAssetRoot)
      else if |f.files| == 0 then Err(MissingFiles)
      else Ok(NavJSON(f.root, f.assetRoot, f.skipMenuOrdering, f.packages, f.files, dir))
  }

  /** The errors of the file walk, each carrying the offending path. */
  datatype FileError =
    | DirectoryNotFound(path: string)
    | FileNotFound(path: string)
    | IsDirectory(path: string)

  datatype Outcome = Pass | Fail(error: FileError)

  /** One run of the walk: the error it returns, and the paths it passed to
      `os.Stat`, in order. */
  datatype Run = Run(outcome: Outcome, probes: seq<string>)

  /** The run `run`, preceded by the stat calls `probed`. */
  function After(probed: seq<string>, run: Run): Run {
    Run(run.outcome, probed + run.probes)
  }

  /** `validateFiles(dir, files)`: stat `dir` (on every call, the recursive
      ones included), then check the entries left to right, stopping at the
      first failure. */
  function Walk(fs: Snapshot, ops: PathOps, dir: string, files: seq<NavFile>): Run
    decreases files, 1
  {
    if Stat(fs, dir) == Missing then
      Run(Fail(DirectoryNotFound(dir)), [dir])
    else
      var rest := WalkEntries(fs, ops, dir, files);
      Run(rest.outcome, [dir] + rest.probes)
  }

  /** The loop of `validateFiles` over `files`, once `dir` is known to exist. */
  function WalkEntries(fs: Snapshot, ops: PathOps, dir: string, files: seq<NavFile>): Run
    decreases files, 0
  {
    if files == [] then
      Run(Pass, [])
    else
      var first := WalkEntry(fs, ops, dir, files[0]);
      if first.outcome.Fail? then first
      else
        var rest := WalkEntries(fs, ops, dir, files[1..]);
        Run(rest.outcome, first.probes + rest.probes)
  }

  /** One iteration of that loop, for the entry `f` under `dir`. */
  function WalkEntry(fs: Snapshot, ops: PathOps, dir: string, f: NavFile): Run
    decreases f
  {
    if f.name == "" then
      if |f.files| == 0 then Run(Pass, [])
      else Walk(fs, ops, ops.join(dir, f.path), f.files)
    else
      var fp := ops.join(dir, f.name);
      match Stat(fs, fp)
      case Missing => Run(Fail(FileNotFound(fp)), [fp])
      case Directory => Run(Fail(IsDirectory(fp)), [fp])
      case NotDirectory =>
        if |f.files| > 0 then
          var sub := Walk(fs, ops, ops.join(dir, ops.dir(f.name)), f.files);
          Run(sub.outcome, [fp] + sub.probes)
        else
          Run(Pass, [fp])
  }

  /** `validateFiles` as the Go code runs it: a loop over `files` that
      returns the first error, recursing into children. `probed` records the
      paths handed to `os.Stat`. */
  method ValidateFilesIn(fs: Snapshot, ops: PathOps, dir: string, files: seq<NavFile>)
    returns (err: Outcome, probed: seq<string>)
    ensures Run(err, probed) == Walk(fs, ops, dir, files)
    decreases files
  {
    probed := [dir];
    if Stat(fs, dir) == Missing {
      return Fail(DirectoryNotFound(dir)), probed;
    }

    for i := 0 to |files|
      invariant Walk(fs, ops, dir, files) == After(probed, WalkEntries(fs, ops, dir, files[i..]))
    {
      var f := files[i];
      assert files[i..][1..] == files[i + 1..];
      if f.name == "" {
        if |f.files| == 0 {
          continue;
        }
        var sub, p := ValidateFilesIn(fs, ops, ops.join(dir, f.path), f.files);
        probed := probed + p;
        if sub.Fail? {
          return sub, probed;
        }
        continue;
      }

      var fp := ops.join(dir, f.name);
      probed := probed + [fp];
      var kind := Stat(fs, fp);
      if kind == Missing {
        return Fail(FileNotFound(fp)), probed;
      }
      if kind == Directory {
        return Fail(IsDirectory(fp)), probed;
      }

      if |f.files| > 0 {
        var sub, p := ValidateFilesIn(fs, ops, ops.join(dir, ops.dir(f.name)), f.files);
        probed := probed + p;
        if sub.Fail? {
          return sub, probed;
        }
      }
    }
    err := Pass;
  }
}
