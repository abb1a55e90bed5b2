/** What `New` and `validateFiles` promise, proved about the model in
    module NavJson. */
module NavJsonProperties {
  import opened FileSystem
  import opened NavJson

  // ---------------------------------------------------------------- New

  /** `New` fails exactly when decoding fails or one of the three required
      fields is empty; the base directory plays no part in the verdict. */
  lemma NewFailsIff(dir: string, decoding: Decoding)
    ensures New(dir, decoding).Err? <==>
      decoding.DecodeFailed? ||
      decoding.fields.root == "" ||
      decoding.fields.assetRoot == "" ||
      |decoding.fields.files| == 0
    ensures forall other: string :: New(other, decoding).Err? ==> New(other, decoding) == New(dir, decoding)
  {
  }

  /** The checks run in the order decode, `root`, `assetRoot`, `files`: each
      error is reported exactly when its check fails and every earlier one
      passed. */
  lemma NewFirstFailingCheck(dir: string, decoding: Decoding)
    ensures New(dir, decoding) == Err(Decode) <==> decoding.DecodeFailed?
    ensures New(dir, decoding) == Err(MissingRoot) <==>
      decoding.Decoded? && decoding.fields.root == ""
    ensures New(dir, decoding) == Err(MissingAssetRoot) <==>
      decoding.Decoded? && decoding.fields.root != "" && decoding.fields.assetRoot == ""
    ensures New(dir, decoding) == Err(MissingFiles) <==>
      decoding.Decoded? && decoding.fields.root != "" && decoding.fields.assetRoot != "" &&
      |decoding.fields.files| == 0
  {
  }

  /** Every complete document is what `New` builds from its own decoded
      fields and directory: `New` keeps every field unchanged. */
  lemma NewRoundTrip(doc: NavJSON)
    requires doc.Complete()
    ensures New(doc.directory, Decoded(doc.Decodable())) == Ok(doc)
  {
  }

  // ------------------------------------------------------ validateFiles

  /** Every call of `validateFiles`, top-level or recursive, first stats its
      own directory, and stops there when the directory is missing. */
  lemma WalkChecksDirectoryFirst(fs: Snapshot, ops: PathOps, dir: string, files: seq<NavFile>)
    ensures |Walk(fs, ops, dir, files).probes| > 0 && Walk(fs, ops, dir, files).probes[0] == dir
    ensures Stat(fs, dir) == Missing <==>
      Walk(fs, ops, dir, files) == Run(Fail(DirectoryNotFound(dir)), [dir])
  {
    if Stat(fs, dir) != Missing && WalkEntries(fs, ops, dir, files).outcome.Fail? {
      EntriesFailureWitnessed(fs, ops, dir, files);
    }
  }

  /** The recursive calls check their directories too: a grouping node whose
      `path`, or a named file whose directory, does not exist fails with
      the directory error for that nested directory, before any child is
      looked at. */
  lemma NestedDirectoryChecked(fs: Snapshot, ops: PathOps, dir: string, f: NavFile)
    requires |f.files| > 0
    ensures f.name == "" && Stat(fs, ops.join(dir, f.path)) == Missing ==>
      WalkEntry(fs, ops, dir, f) == Run(Fail(DirectoryNotFound(ops.join(dir, f.path))), [ops.join(dir, f.path)])
    ensures (f.name != "" && Stat(fs, ops.join(dir, f.name)) == NotDirectory &&
             Stat(fs, ops.join(dir, ops.dir(f.name))) == Missing) ==>
      WalkEntry(fs, ops, dir, f) ==
        Run(Fail(DirectoryNotFound(ops.join(dir, ops.dir(f.name)))),
            [ops.join(dir, f.name), ops.join(dir, ops.dir(f.name))])
  {
  }

  /** An entry with neither a name nor children. */
  predicate Placeholder(f: NavFile) {
    f.name == "" && |f.files| == 0
  }

  /** A placeholder entry stats nothing and fails nothing: the walk runs
      exactly the same with or without it, wherever it stands in the list. */
  lemma {:induction false} PlaceholderIsInert(fs: Snapshot, ops: PathOps, dir: string,
                                              before: seq<NavFile>, f: NavFile, after: seq<NavFile>)
    requires Placeholder(f)
    ensures WalkEntries(fs, ops, dir, before + [f] + after) == WalkEntries(fs, ops, dir, before + after)
    ensures Walk(fs, ops, dir, before + [f] + after) == Walk(fs, ops, dir, before + after)
  {
    if before == [] {
      assert before + [f] + after == [f] + after;
      assert ([f] + after)[1..] == after;
      assert before + after == after;
    } else {
      PlaceholderIsInert(fs, ops, dir, before[1..], f, after);
      assert (before + [f] + after)[0] == before[0];
      assert (before + [f] + after)[1..] == before[1..] + [f] + after;
      assert (before + after)[0] == before[0];
      assert (before + after)[1..] == before[1..] + after;
    }
  }

  /** A grouping node (no name, some children) is exactly the walk of its
      children under `join(dir, path)`: same outcome, same error, same stat
      calls. */
  lemma GroupingEntry(fs: Snapshot, ops: PathOps, dir: string, f: NavFile)
    requires f.name == "" && |f.files| > 0
    ensures WalkEntry(fs, ops, dir, f) == Walk(fs, ops, ops.join(dir, f.path), f.files)
    ensures WalkEntry(fs, ops, dir, f).outcome == Pass <==>
      Walk(fs, ops, ops.join(dir, f.path), f.files).outcome == Pass
  {
  }

  /** A named entry is resolved at `join(dir, name)`: it fails with
      FileNotFound or IsDirectory carrying that path when the path is
      missing or a directory, and its own `path` plays no part. */
  lemma NamedEntry(fs: Snapshot, ops: PathOps, dir: string, f: NavFile, otherPath: string)
    requires f.name != ""
    ensures WalkEntry(fs, ops, dir, f).probes[0] == ops.join(dir, f.name)
    ensures Stat(fs, ops.join(dir, f.name)) == Missing <==>
      WalkEntry(fs, ops, dir, f).outcome == Fail(FileNotFound(ops.join(dir, f.name)))
    ensures Stat(fs, ops.join(dir, f.name)) == Directory <==>
      WalkEntry(fs, ops, dir, f).outcome == Fail(IsDirectory(ops.join(dir, f.name)))
    ensures WalkEntry(fs, ops, dir, f.(path := otherPath)) == WalkEntry(fs, ops, dir, f)
  {
    var sub := ops.join(dir, ops.dir(f.name));
    if Stat(fs, ops.join(dir, f.name)) == NotDirectory && |f.files| > 0 && Walk(fs, ops, sub, f.files).outcome.Fail? {
      WalkFailureWitnessed(fs, ops, sub, f.files);
    }
  }

  /** A named entry with children whose file check passed succeeds exactly
      when its children do, walked under the directory of its name. */
  lemma NamedEntryWithChildren(fs: Snapshot, ops: PathOps, dir: string, f: NavFile)
    requires f.name != "" && |f.files| > 0
    requires Stat(fs, ops.join(dir, f.name)) == NotDirectory
    ensures WalkEntry(fs, ops, dir, f).outcome ==
      Walk(fs, ops, ops.join(dir, ops.dir(f.name)), f.files).outcome
  {
  }

  /** The entry loop succeeds exactly when every entry does. */
  lemma {:induction false} EntriesPassIff(fs: Snapshot, ops: PathOps, dir: string, files: seq<NavFile>)
    ensures WalkEntries(fs, ops, dir, files).outcome == Pass <==>
      forall i :: 0 <= i < |files| ==> WalkEntry(fs, ops, dir, files[i]).outcome == Pass
  {
    if files != [] {
      EntriesPassIff(fs, ops, dir, files[1..]);
      assert forall i :: 0 < i < |files| ==> files[i] == files[1..][i - 1];
    }
  }

  /** When the entry loop fails, its error is that of the first failing
      entry, in left-to-right order. */
  lemma {:induction false} EntriesFirstFailure(fs: Snapshot, ops: PathOps, dir: string, files: seq<NavFile>)
    requires WalkEntries(fs, ops, dir, files).outcome.Fail?
    ensures exists k :: (0 <= k < |files| &&
      WalkEntry(fs, ops, dir, files[k]).outcome == WalkEntries(fs, ops, dir, files).outcome &&
      forall j :: 0 <= j < k ==> WalkEntry(fs, ops, dir, files[j]).outcome == Pass)
  {
    var first := WalkEntry(fs, ops, dir, files[0]);
    if !first.outcome.Fail? {
      EntriesFirstFailure(fs, ops, dir, files[1..]);
      var k :| 0 <= k < |files[1..]| &&
        WalkEntry(fs, ops, dir, files[1..][k]).outcome == WalkEntries(fs, ops, dir, files[1..]).outcome &&
        forall j :: 0 <= j < k ==> WalkEntry(fs, ops, dir, files[1..][j]).outcome == Pass;
      assert forall j :: 0 < j <= k ==> files[j] == files[1..][j - 1];
      assert WalkEntry(fs, ops, dir, files[k + 1]).outcome == WalkEntries(fs, ops, dir, files).outcome;
    }
  }

  /** `validateFiles(dir, files)` succeeds exactly when `dir` exists and
      every entry succeeds; in particular, with no entries it succeeds
      exactly when `dir` exists. */
  lemma WalkPassIff(fs: Snapshot, ops: PathOps, dir: string, files: seq<NavFile>)
    ensures Walk(fs, ops, dir, files).outcome == Pass <==>
      Stat(fs, dir) != Missing &&
      forall i :: 0 <= i < |files| ==> WalkEntry(fs, ops, dir, files[i]).outcome == Pass
    ensures Walk(fs, ops, dir, []).outcome == Pass <==> Stat(fs, dir) != Missing
  {
    EntriesPassIff(fs, ops, dir, files);
  }

  /** When `dir` exists and `validateFiles(dir, files)` fails, its error is
      that of the first failing entry, in left-to-right order. */
  lemma WalkFirstFailure(fs: Snapshot, ops: PathOps, dir: string, files: seq<NavFile>)
    requires Stat(fs, dir) != Missing
    requires Walk(fs, ops, dir, files).outcome.Fail?
    ensures exists k :: (0 <= k < |files| &&
      WalkEntry(fs, ops, dir, files[k]).outcome == Walk(fs, ops, dir, files).outcome &&
      forall j :: 0 <= j < k ==> WalkEntry(fs, ops, dir, files[j]).outcome == Pass)
  {
    EntriesFirstFailure(fs, ops, dir, files);
  }

  /** The path an error carries, and what `os.Stat` said about it. */
  predicate Witnessed(fs: Snapshot, e: FileError) {
    match e
    case DirectoryNotFound(p) => Stat(fs, p) == Missing
    case FileNotFound(p) => Stat(fs, p) == Missing
    case IsDirectory(p) => Stat(fs, p) == Directory
  }

  /** Every error is justified by the last stat call of the walk: the walk
      stops at the stat that failed (this is how the innermost failing path
      of a deep tree is the one reported), and that stat said what the error
      claims. */
  lemma {:induction false} WalkFailureWitnessed(fs: Snapshot, ops: PathOps, dir: string, files: seq<NavFile>)
    requires Walk(fs, ops, dir, files).outcome.Fail?
    ensures var run := Walk(fs, ops, dir, files);
      |run.probes| > 0 && run.probes[|run.probes| - 1] == run.outcome.error.path &&
      Witnessed(fs, run.outcome.error)
    decreases files, 1
  {
    if Stat(fs, dir) != Missing {
      EntriesFailureWitnessed(fs, ops, dir, files);
    }
  }

  lemma {:induction false} EntriesFailureWitnessed(fs: Snapshot, ops: PathOps, dir: string, files: seq<NavFile>)
    requires WalkEntries(fs, ops, dir, files).outcome.Fail?
    ensures var run := WalkEntries(fs, ops, dir, files);
      |run.probes| > 0 && run.probes[|run.probes| - 1] == run.outcome.error.path &&
      Witnessed(fs, run.outcome.error)
    decreases files, 0
  {
    var first := WalkEntry(fs, ops, dir, files[0]);
    if first.outcome.Fail? {
      EntryFailureWitnessed(fs, ops, dir, files[0]);
    } else {
      EntriesFailureWitnessed(fs, ops, dir, files[1..]);
    }
  }

  lemma {:induction false} EntryFailureWitnessed(fs: Snapshot, ops: PathOps, dir: string, f: NavFile)
    requires WalkEntry(fs, ops, dir, f).outcome.Fail?
    ensures var run := WalkEntry(fs, ops, dir, f);
      |run.probes| > 0 && run.probes[|run.probes| - 1] == run.outcome.error.path &&
      Witnessed(fs, run.outcome.error)
    decreases f
  {
    if f.name == "" {
      WalkFailureWitnessed(fs, ops, ops.join(dir, f.path), f.files);
    } else if Stat(fs, ops.join(dir, f.name)) == NotDirectory {
      WalkFailureWitnessed(fs, ops, ops.join(dir, ops.dir(f.name)), f.files);
    }
  }

  /** A walk that passes found every path it stat'ed. */
  lemma {:induction false} WalkPassProbesExist(fs: Snapshot, ops: PathOps, dir: string, files: seq<NavFile>)
    requires Walk(fs, ops, dir, files).outcome == Pass
    ensures forall p :: p in Walk(fs, ops, dir, files).probes ==> Stat(fs, p) != Missing
    decreases files, 1
  {
    EntriesPassProbesExist(fs, ops, dir, files);
  }

  lemma {:induction false} EntriesPassProbesExist(fs: Snapshot, ops: PathOps, dir: string, files: seq<NavFile>)
    requires WalkEntries(fs, ops, dir, files).outcome == Pass
    ensures forall p :: p in WalkEntries(fs, ops, dir, files).probes ==> Stat(fs, p) != Missing
    decreases files, 0
  {
    if files != [] {
      EntryPassProbesExist(fs, ops, dir, files[0]);
      EntriesPassProbesExist(fs, ops, dir, files[1..]);
    }
  }

  lemma {:induction false} EntryPassProbesExist(fs: Snapshot, ops: PathOps, dir: string, f: NavFile)
    requires WalkEntry(fs, ops, dir, f).outcome == Pass
    ensures forall p :: p in WalkEntry(fs, ops, dir, f).probes ==> Stat(fs, p) != Missing
    decreases f
  {
    if f.name == "" {
      if |f.files| > 0 {
        WalkPassProbesExist(fs, ops, ops.join(dir, f.path), f.files);
      }
    } else if |f.files| > 0 {
      WalkPassProbesExist(fs, ops, ops.join(dir, ops.dir(f.name)), f.files);
    }
  }

  /** Two snapshots that agree on the paths a walk stats give the same walk:
      the validator depends on the filesystem only through those stat
      calls. */
  lemma {:induction false} WalkReadsOnlyProbes(fs: Snapshot, fs': Snapshot, ops: PathOps, dir: string, files: seq<NavFile>)
    requires forall p :: p in Walk(fs, ops, dir, files).probes ==> Stat(fs, p) == Stat(fs', p)
    ensures Walk(fs', ops, dir, files) == Walk(fs, ops, dir, files)
    decreases files, 1
  {
    if Stat(fs, dir) != Missing {
      EntriesReadOnlyProbes(fs, fs', ops, dir, files);
    }
  }

  lemma {:induction false} EntriesReadOnlyProbes(fs: Snapshot, fs': Snapshot, ops: PathOps, dir: string, files: seq<NavFile>)
    requires forall p :: p in WalkEntries(fs, ops, dir, files).probes ==> Stat(fs, p) == Stat(fs', p)
    ensures WalkEntries(fs', ops, dir, files) == WalkEntries(fs, ops, dir, files)
    decreases files, 0
  {
    if files != [] {
      EntryReadsOnlyProbes(fs, fs', ops, dir, files[0]);
      if WalkEntry(fs, ops, dir, files[0]).outcome.Pass? {
        EntriesReadOnlyProbes(fs, fs', ops, dir, files[1..]);
      }
    }
  }

  lemma {:induction false} EntryReadsOnlyProbes(fs: Snapshot, fs': Snapshot, ops: PathOps, dir: string, f: NavFile)
    requires forall p :: p in WalkEntry(fs, ops, dir, f).probes ==> Stat(fs, p) == Stat(fs', p)
    ensures WalkEntry(fs', ops, dir, f) == WalkEntry(fs, ops, dir, f)
    decreases f
  {
    if f.name == "" {
      if |f.files| > 0 {
        WalkReadsOnlyProbes(fs, fs', ops, ops.join(dir, f.path), f.files);
      }
    } else if Stat(fs, ops.join(dir, f.name)) == NotDirectory && |f.files| > 0 {
      WalkReadsOnlyProbes(fs, fs', ops, ops.join(dir, ops.dir(f.name)), f.files);
    }
  }

  // ----------------------------------------- the package's own test cases

  /** `New("/nope", ...)` accepts the test's document, and the walk of the
      document it returns fails with the directory error for `/nope` after
      one stat, of `/nope` itself. */
  lemma MissingDirectoryExample(fs: Snapshot, ops: PathOps)
    requires "/nope" !in fs
    ensures var fields := Fields("guide/attest/2.7-experiment/", "assets/images/attest/2.7-experiment/",
                                 false, None,
                                 [NavFile("foo.html", "foo", [NavFile("bar.html", "bar", [])])]);
      var r := New("/nope", Decoded(fields));
      r.Ok? && Walk(fs, ops, r.doc.directory, r.doc.files) == Run(Fail(DirectoryNotFound("/nope")), ["/nope"])
  {
  }

  /** A lone placeholder entry `{ "path": "foo" }` passes, and the only stat
      is that of the directory. */
  lemma PlaceholderExample(fs: Snapshot, ops: PathOps, cwd: string)
    requires Stat(fs, cwd) == Directory
    ensures Walk(fs, ops, cwd, [NavFile("", "foo", [])]) == Run(Pass, [cwd])
  {
  }

  /** A named entry that resolves to a directory fails with IsDirectory. */
  lemma FileIsDirectoryExample(fs: Snapshot, ops: PathOps, cwd: string)
    requires Stat(fs, cwd) == Directory
    requires Stat(fs, ops.join(cwd, "testdata/files/qux")) == Directory
    ensures Walk(fs, ops, cwd, [NavFile("testdata/files/qux", "testdata/files/qux", [])]).outcome ==
      Fail(IsDirectory(ops.join(cwd, "testdata/files/qux")))
  {
  }
}
