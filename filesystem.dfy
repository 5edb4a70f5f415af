/** The in-memory filesystem the renderers read, and the four collaborators
    imported from file_utils, taken as given functions. */
module Filesystem {

  /** A path as the sequence of its components; `os.path.join(d, e)` appends `e`. */
  type Path = seq<string>

  /** One directory entry as os.listdir names it and os.path classifies it.
      `children` is the listdir enumeration order; `denied` means listing the
      directory raises PermissionError. `Special` is an entry for which both
      os.path.isfile and os.path.isdir are false (a broken symlink, a socket). */
  datatype Node =
    | File(name: string)
    | Special(name: string)
    | Dir(name: string, denied: bool, children: seq<Node>)

  function Join(dir: Path, entry: string): (p: Path)
    ensures |p| == |dir| + 1 && p[..|dir|] == dir && p[|dir|] == entry
  {
    dir + [entry]
  }

  /** os.path.basename: the last component, or "" for an empty path; a
      non-empty path is its parent joined with its base name. */
  function Basename(p: Path): (b: string)
    ensures |p| == 0 ==> b == ""
    ensures |p| > 0 ==> Join(p[..|p| - 1], b) == p
  {
    if |p| == 0 then "" else p[|p| - 1]
  }

  predicate IsRegularFile(n: Node) { n.File? }
  predicate IsDirectory(n: Node) { n.Dir? }
  predicate IsNotDirectory(n: Node) { !n.Dir? }

  /** should_exclude, get_emoji, count_lines and get_line_count_indicator. */
  datatype Collaborators = Collaborators(
    shouldExclude: Path -> bool,
    emoji: string -> string,
    countLines: Path -> int,
    indicator: (Path, int) -> string)
}
