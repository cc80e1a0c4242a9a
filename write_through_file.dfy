/**
 * Creating the parent directory of a destination path before a file is
 * written there. The path is normalised to forward slashes and cut at its
 * last separator; the parent is then looked up and, when it is missing,
 * created together with its own missing ancestors.
 *
 * The file system is an object holding the paths that exist and the paths
 * whose lookup or creation fails; the long-path conversions of the platform
 * (ToShortPath and ToExtendedPath) are function parameters.
 */
module WriteThroughFile {

  import opened Wrappers

  /** The path separator the parent is cut at. */
  const Separator: char := '/'

  /** Every backslash replaced by a forward slash (strings.Replace with n = -1). */
  function Normalise(p: string): (r: string)
    ensures |r| == |p|
    ensures forall i :: 0 <= i < |p| ==> r[i] == (if p[i] == '\\' then Separator else p[i])
    ensures '\\' !in r
  {
    if p == [] then []
    else [if p[0] == '\\' then Separator else p[0]] + Normalise(p[1..])
  }

  /** strings.LastIndex for a one-character separator: -1 when it does not occur. */
  function LastIndex(s: string, c: char): (i: int)
    ensures -1 <= i < |s|
    ensures i == -1 <==> c !in s
    ensures 0 <= i ==> s[i] == c
    ensures forall j :: i < j < |s| ==> s[j] != c
  {
    if s == [] then -1
    else if s[|s| - 1] == c then |s| - 1
    else LastIndex(s[..|s| - 1], c)
  }

  /**
   * The parent directory of a destination path: the normalised path up to
   * its last separator. A path with no separator would make the slice bound
   * -1, which panics, so callers must pass one that has a separator.
   */
  function ParentDirectory(destinationPath: string, toShortPath: string -> string): (parent: string)
    requires Separator in Normalise(toShortPath(destinationPath))
    ensures var n := Normalise(toShortPath(destinationPath));
      && |parent| < |n|
      && parent == n[..|parent|]
      && n[|parent|] == Separator
      && Separator !in n[|parent| + 1..]
      && '\\' !in parent
  {
    var n := Normalise(toShortPath(destinationPath));
    var i := LastIndex(n, Separator);
    assert forall j :: 0 <= j < i ==> n[..i][j] == n[j];
    n[..i]
  }

  /** What a file-system call reports; os.IsNotExist holds of NotExist only. */
  datatype FsError = NotExist | Fault(reason: string)

  /**
   * The file system the function sees: the paths that exist, the paths whose
   * Stat fails for a reason other than absence, the paths whose MkdirAll
   * fails, and the log of MkdirAll calls made.
   */
  class FileSystem {
    var existing: set<string>
    var statFaults: map<string, FsError>
    var mkdirFaults: map<string, FsError>
    var mkdirCalls: seq<string>

    constructor (existing: set<string>, statFaults: map<string, FsError>, mkdirFaults: map<string, FsError>)
      ensures this.existing == existing && this.statFaults == statFaults && this.mkdirFaults == mkdirFaults
      ensures mkdirCalls == []
    {
      this.existing := existing;
      this.statFaults := statFaults;
      this.mkdirFaults := mkdirFaults;
      mkdirCalls := [];
    }

    /** os.Stat: nil when the path exists, NotExist when it does not, or its fault. */
    function Stat(path: string): (err: Option<FsError>)
      reads this
      ensures path !in statFaults ==> (err == None <==> path in existing)
      ensures path !in statFaults && path !in existing ==> err == Some(NotExist)
    {
      if path in statFaults then Some(statFaults[path])
      else if path in existing then None
      else Some(NotExist)
    }

    /** os.MkdirAll: creates the path, or reports its fault and creates nothing. */
    method MkdirAll(path: string) returns (err: Option<FsError>)
      modifies this
      ensures mkdirCalls == old(mkdirCalls) + [path]
      ensures statFaults == old(statFaults) && mkdirFaults == old(mkdirFaults)
      ensures path in mkdirFaults ==> err == Some(mkdirFaults[path]) && existing == old(existing)
      ensures path !in mkdirFaults ==> err == None && existing == old(existing) + {path}
    {
      mkdirCalls := mkdirCalls + [path];
      if path in mkdirFaults {
        return Some(mkdirFaults[path]);
      }
      existing := existing + {path};
      return None;
    }
  }

  /**
   * CreateParentDirectoryIfNotExist. When Stat says the parent is absent,
   * MkdirAll is called on it and its outcome returned; when Stat fails for
   * another reason that error is returned; when the parent exists nothing is
   * created. In the last two cases the file system is untouched.
   */
  method CreateParentDirectoryIfNotExist(destinationPath: string, toShortPath: string -> string,
                                         toExtendedPath: string -> string, fs: FileSystem)
    returns (err: Option<FsError>)
    requires Separator in Normalise(toShortPath(destinationPath))
    modifies fs
    ensures var target := toExtendedPath(ParentDirectory(destinationPath, toShortPath));
      match old(fs.Stat(target))
      case Some(NotExist) =>
        && fs.mkdirCalls == old(fs.mkdirCalls) + [target]
        && (target in fs.mkdirFaults ==> err == Some(fs.mkdirFaults[target]) && fs.existing == old(fs.existing))
        && (target !in fs.mkdirFaults ==> err == None && fs.existing == old(fs.existing) + {target})
      case Some(fault) => err == Some(fault) && unchanged(fs)
      case None => err == None && unchanged(fs)
    ensures fs.statFaults == old(fs.statFaults) && fs.mkdirFaults == old(fs.mkdirFaults)
  {
    var parentDirectory := ParentDirectory(destinationPath, toShortPath);
    var statErr := fs.Stat(toExtendedPath(parentDirectory));
    if statErr == Some(NotExist) {
      err := fs.MkdirAll(toExtendedPath(parentDirectory));
      if err.Some? {
        return err;
      }
    } else if statErr.Some? {
      return statErr;
    }
    return None;
  }

  /** Every backslash of a Windows-style path becomes the separator. */
  lemma NormalisedBackslashes()
    ensures Normalise("d\\e\\f") == "d/e/f"
  {
    var n := Normalise("d\\e\\f");
    assert n[1] == Separator && n[3] == Separator;
  }

  /** The parent of a Windows-style path is cut at its last backslash. */
  lemma ParentOfBackslashPath()
    ensures ParentDirectory("d\\e\\f", (p: string) => p) == "d/e"
  {
    NormalisedBackslashes();
    assert LastIndex("d/e/f", Separator) == 3;
  }
}
