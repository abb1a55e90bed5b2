/** The two collaborators of the validator that live outside the repository:
    the filesystem that `os.Stat` inspects, and Go's `path` package. */
module FileSystem {

  /** What `os.Stat` tells the validator about a path. Every error `os.Stat`
      can report (not found, permission denied, ...) is collapsed to Missing,
      because the validator treats them all alike. NotDirectory covers every
      existing path for which `IsDir()` is false: a regular file, but also a
      symbolic link's target, a FIFO, a socket or a device. */
  datatype Kind = Missing | NotDirectory | Directory

  /** A snapshot of the filesystem, stable for the duration of one walk: a
      path that is not a key does not exist. */
  type Snapshot = map<string, Kind>

  /** The outcome of `os.Stat(p)` on the snapshot `fs`. */
  function Stat(fs: Snapshot, p: string): Kind
  {
    if p in fs then fs[p] else Missing
  }

  /** `path.Join` of two elements and `path.Dir`. Their lexical cleaning
      (collapsing `..`, `Dir("x") == "."`) is not modelled: every property of
      the validator holds whatever these two functions are. */
  datatype PathOps = PathOps(join: (string, string) -> string, dir: string -> string)
}
