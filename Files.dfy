/**
 * The small part of `java.io.File` that the tool window relies on, over an
 * abstract snapshot of a Unix host's file system.
 */
module Files {

  datatype Kind = RegularFile | Directory

  /** The process working directory and the kind of every existing absolute path. */
  datatype FileSystem = FileSystem(workingDir: string, entries: map<string, Kind>)

  /** The path of `File(parent, child)` for a relative, non-empty child. */
  function Join(parent: string, child: string): (r: string)
    ensures |r| > |child| && r[|r| - |child|..] == child
    ensures |parent| <= |r| && r[..|parent|] == parent
  {
    if parent == "" then "/" + child
    else if parent[|parent| - 1] == '/' then parent + child
    else parent + "/" + child
  }

  /** `File(path).absolutePath`: relative paths are resolved against the working directory. */
  function AbsolutePath(fs: FileSystem, path: string): (r: string)
    ensures path != "" ==> |path| <= |r| && r[|r| - |path|..] == path
    ensures |path| > 0 && path[0] == '/' ==> r == path
  {
    if |path| > 0 && path[0] == '/' then path
    else if path == "" then fs.workingDir
    else Join(fs.workingDir, path)
  }

  /** `File(path).exists()`; the empty path never exists. */
  predicate Exists(fs: FileSystem, path: string)
    ensures path == "" ==> !Exists(fs, path)
    ensures |path| > 0 && path[0] == '/' ==> (Exists(fs, path) <==> path in fs.entries)
  {
    path != "" && AbsolutePath(fs, path) in fs.entries
  }

  /** `File(path).isDirectory`. */
  predicate IsDirectory(fs: FileSystem, path: string)
    ensures IsDirectory(fs, path) ==> Exists(fs, path)
  {
    Exists(fs, path) && fs.entries[AbsolutePath(fs, path)] == Directory
  }
}
