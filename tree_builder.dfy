/** The two renderers of tree_builder.py. Each is a method with
    tree_builder.py's loops, proved equal to a specification function:
    CurrentLevel, a filter of the listing followed by a map that marks the
    last entry, and the recursive Tree. The properties of those functions
    are proved in module TreeProperties. */
module TreeBuilder {
  import opened Lists
  import opened Numerals
  import opened NameOrder
  import opened Filesystem

  const Tee: string := "\U{251C}\U{2500}"    // "├─", an entry with later siblings
  const Elbow: string := "\U{2514}\U{2500}"  // "└─", the last entry of a level
  const Bar: string := "\U{2502}   "          // "│   ", below an entry with later siblings
  const Blank: string := "    "               // below the last entry of a level
  const Lock: string := "\U{1F512}"
  const Folder: string := "\U{1F4C2}"

  predicate StartsWith(s: string, p: string)
  {
    |p| <= |s| && s[..|p|] == p
  }

  function Connector(isLast: bool): string
  {
    if isLast then Elbow else Tee
  }

  /** What a subdirectory's prefix grows by. */
  function Extension(isLast: bool): string
  {
    if isLast then Blank else Bar
  }

  /** The connector of an entry line is `└─` exactly for the last entry of a
      level and `├─` otherwise; the two differ in their first character. */
  lemma ConnectorMarksLast(isLast: bool)
    ensures |Connector(isLast)| == 2 && Connector(isLast)[1] == '\U{2500}'
    ensures Connector(isLast)[0] == '\U{2514}' <==> isLast
    ensures Connector(isLast)[0] == '\U{251C}' <==> !isLast
  {
  }

  /** A subdirectory's prefix grows by four blanks below the last entry of a
      level and by a vertical bar and three blanks below any other; its first
      character is never a connector's first character. */
  lemma ExtensionMarksLast(isLast: bool)
    ensures |Extension(isLast)| == 4 && Extension(isLast)[1..] == "   "
    ensures Extension(isLast)[0] == ' ' <==> isLast
    ensures Extension(isLast)[0] == '\U{2502}' <==> !isLast
    ensures Extension(isLast)[0] != Connector(true)[0] && Extension(isLast)[0] != Connector(false)[0]
  {
  }

  lemma StartsWithConcat(p: string, q: string)
    ensures StartsWith(p + q, p)
  {
    assert (p + q)[..|p|] == p;
  }

  /** The one line shown for a directory whose listing is refused: the
      prefix, the last-entry connector, a lock and the directory's base name
      in a "Permission Denied" bracket. */
  function DeniedLine(prefix: string, dir: Path): (line: string)
    ensures StartsWith(line, prefix + Elbow)
  {
    var text := " " + Lock + " [Permission Denied: " + Basename(dir) + "]";
    StartsWithConcat(prefix + Elbow, text);
    prefix + Elbow + text
  }

  /** The line of a file: prefix and connector, its icon and name, its line
      count in decimal in parentheses, then the size warning (often empty). */
  function FileLine(prefix: string, symbol: string, icon: string, name: string, count: int, warning: string): (line: string)
    ensures StartsWith(line, prefix + symbol)
  {
    var text := " " + icon + " " + name + " (" + IntToString(count) + " lines)" + warning;
    StartsWithConcat(prefix + symbol, text);
    prefix + symbol + text
  }

  /** The line of a directory: prefix and connector, a folder icon and the
      bare name, with no line count. */
  function DirLine(prefix: string, symbol: string, name: string): (line: string)
    ensures StartsWith(line, prefix + symbol)
  {
    var text := " " + Folder + " " + name;
    StartsWithConcat(prefix + symbol, text);
    prefix + symbol + text
  }

  /** Whether should_exclude lets a child of `dir` through, judged on its full path. */
  function Survives(env: Collaborators, dir: Path): Node -> bool
  {
    (c: Node) => !env.shouldExclude(Join(dir, c.name))
  }

  /** The entries of `dir` that should_exclude lets through, in listdir order. */
  function Surviving(env: Collaborators, dir: Path, children: seq<Node>): (r: seq<Node>)
    ensures forall c :: c in r <==> c in children && !env.shouldExclude(Join(dir, c.name))
  {
    Filter(Survives(env, dir), children)
  }

  /** build_tree's iteration order: the sorted non-directories, then the sorted directories. */
  function Ordered(env: Collaborators, dir: Path, children: seq<Node>): (r: seq<Node>)
    ensures forall e :: e in r ==> e in children
  {
    var entries := Surviving(env, dir, children);
    var files := SortByName(Filter(IsNotDirectory, entries));
    var directories := SortByName(Filter(IsDirectory, entries));
    SortByNameMembers(Filter(IsNotDirectory, entries));
    SortByNameMembers(Filter(IsDirectory, entries));
    files + directories
  }

  /** The line an entry of `dir` gets at its own level: a folder line for a
      directory, an annotated file line for anything else. */
  function Head(env: Collaborators, dir: Path, prefix: string, e: Node, isLast: bool): (line: string)
    ensures StartsWith(line, prefix + Connector(isLast))
  {
    if e.Dir? then DirLine(prefix, Connector(isLast), e.name)
    else
      var path := Join(dir, e.name);
      var count := env.countLines(path);
      FileLine(prefix, Connector(isLast), env.emoji(e.name), e.name, count, env.indicator(path, count))
  }

  /** `Head` for the entries of `dir` drawn under `prefix`. */
  function HeadOf(env: Collaborators, dir: Path, prefix: string): (Node, bool) -> string
  {
    (e: Node, isLast: bool) => Head(env, dir, prefix, e, isLast)
  }

  /** Specification of build_tree_current_level_only: every line it returns
      is an entry line of the level drawn under `prefix`, and a listed
      directory yields at most one line per child. */
  function CurrentLevel(env: Collaborators, dir: Path, node: Node, prefix: string): (lines: seq<string>)
    requires node.Dir?
    ensures forall l :: l in lines ==> StartsWith(l, prefix + Tee) || StartsWith(l, prefix + Elbow)
    ensures !node.denied ==> |lines| <= |node.children|
  {
    if env.shouldExclude(dir) then []
    else if node.denied then [DeniedLine(prefix, dir)]
    else
      var files := Filter(IsRegularFile, Surviving(env, dir, node.children));
      MarkLastAt(HeadOf(env, dir, prefix), files, 0);
      MarkLast(HeadOf(env, dir, prefix), files, 0)
  }

  lemma ExtendedPrefix(lines: seq<string>, prefix: string, ext: string)
    requires forall l :: l in lines ==> StartsWith(l, prefix + ext)
    ensures forall l :: l in lines ==> StartsWith(l, prefix)
  {
    forall l | l in lines ensures StartsWith(l, prefix) {
      assert l[..|prefix|] == l[..|prefix + ext|][..|prefix|];
    }
  }

  /** Specification of build_tree: every line it returns carries the caller's prefix. */
  function Tree(env: Collaborators, dir: Path, node: Node, prefix: string): (lines: seq<string>)
    requires node.Dir?
    ensures forall l :: l in lines ==> StartsWith(l, prefix)
    decreases node, 1
  {
    if env.shouldExclude(dir) then []
    else if node.denied then
      ExtendedPrefix([DeniedLine(prefix, dir)], prefix, Elbow);
      [DeniedLine(prefix, dir)]
    else Level(env, dir, node, Ordered(env, dir, node.children), 0, prefix)
  }

  /** The lines of the entries `es[i..]` of `dir`, where `es` is its whole
      iteration order: each head line, followed for a directory by that
      directory's own tree under the extended prefix. `parent` is the
      directory node itself; it only serves to show that the recursion descends. */
  function Level(env: Collaborators, dir: Path, parent: Node, es: seq<Node>, i: nat, prefix: string): (lines: seq<string>)
    requires parent.Dir? && i <= |es| && forall e :: e in es ==> e in parent.children
    ensures |lines| >= |es| - i
    ensures lines == [] <==> i == |es|
    ensures forall l :: l in lines ==> StartsWith(l, prefix)
    decreases parent, 0, |es| - i
  {
    if i == |es| then []
    else
      var isLast := i == |es| - 1;
      assert es[i] in parent.children;
      var head := Head(env, dir, prefix, es[i], isLast);
      var sub := Subtree(env, dir, prefix, es[i], isLast);
      var rest := Level(env, dir, parent, es, i + 1, prefix);
      ExtendedPrefix([head], prefix, Connector(isLast));
      ExtendedPrefix(sub, prefix, Extension(isLast));
      [head] + sub + rest
  }

  /** What build_tree splices in right after an entry's own line: for a
      directory, its whole tree drawn under the prefix grown by four blanks
      (last entry) or by a vertical bar and three blanks (any other); for
      anything else, nothing. */
  function Subtree(env: Collaborators, dir: Path, prefix: string, e: Node, isLast: bool): (lines: seq<string>)
    ensures forall l :: l in lines ==> StartsWith(l, prefix + Extension(isLast))
    ensures !e.Dir? ==> lines == []
    decreases e, 2
  {
    if e.Dir? then Tree(env, Join(dir, e.name), e, prefix + Extension(isLast)) else []
  }

  /** One iteration of build_tree's loop: appending entry `i`'s head line and
      subtree to the lines of the entries before it. */
  lemma LevelStep(env: Collaborators, dir: Path, parent: Node, es: seq<Node>, i: nat, prefix: string,
                  done: seq<string>, head: string, sub: seq<string>)
    requires parent.Dir? && i < |es| && forall e :: e in es ==> e in parent.children
    requires done + Level(env, dir, parent, es, i, prefix) == Level(env, dir, parent, es, 0, prefix)
    requires head == Head(env, dir, prefix, es[i], i == |es| - 1)
    requires sub == Subtree(env, dir, prefix, es[i], i == |es| - 1)
    ensures done + [head] + sub + Level(env, dir, parent, es, i + 1, prefix) == Level(env, dir, parent, es, 0, prefix)
  {
    AppendAssoc(done, [head], sub, Level(env, dir, parent, es, i + 1, prefix));
  }

  /** build_tree_current_level_only(directory, prefix). */
  method BuildTreeCurrentLevelOnly(env: Collaborators, directory: Path, node: Node, prefix: string)
    returns (lines: seq<string>)
    requires node.Dir?
    ensures lines == CurrentLevel(env, directory, node, prefix)
  {
    if env.shouldExclude(directory) {
      return [];
    }
    if node.denied {
      return [DeniedLine(prefix, directory)];
    }
    var entries := Surviving(env, directory, node.children);
    lines := [];
    var filesOnly := Filter(IsRegularFile, entries);
    for i := 0 to |filesOnly|
      invariant lines + MarkLast(HeadOf(env, directory, prefix), filesOnly, i) == MarkLast(HeadOf(env, directory, prefix), filesOnly, 0)
    {
      var entry := filesOnly[i];
      var isLast := i == |filesOnly| - 1;
      var symbol := if isLast then Elbow else Tee;
      var filePath := Join(directory, entry.name);
      var lineCount := env.countLines(filePath);
      var warning := env.indicator(filePath, lineCount);
      assert entry.File? by { assert entry in filesOnly; }
      MarkLastStep(HeadOf(env, directory, prefix), filesOnly, i, lines);
      lines := lines + [FileLine(prefix, symbol, env.emoji(entry.name), entry.name, lineCount, warning)];
    }
  }

  /** Lines 35-52 of tree_builder.py's build_tree: drop excluded entries, split the rest into
      non-directories and directories in listdir order, sort each group by
      name and put the non-directories first. */
  method OrderEntries(env: Collaborators, directory: Path, children: seq<Node>)
    returns (orderedEntries: seq<Node>)
    ensures orderedEntries == Ordered(env, directory, children)
  {
    var entries := Surviving(env, directory, children);

    var files: seq<Node> := [];
    var directories: seq<Node> := [];
    for k := 0 to |entries|
      invariant files == Filter(IsNotDirectory, entries[..k])
      invariant directories == Filter(IsDirectory, entries[..k])
    {
      var entry := entries[k];
      FilterStep(IsNotDirectory, entries, k);
      FilterStep(IsDirectory, entries, k);
      if entry.Dir? {
        directories := directories + [entry];
      } else {
        files := files + [entry];
      }
    }
    assert entries[..|entries|] == entries;

    files := SortByName(files);
    directories := SortByName(directories);
    orderedEntries := files + directories;
  }

  /** build_tree(directory, prefix). */
  method BuildTree(env: Collaborators, directory: Path, node: Node, prefix: string)
    returns (lines: seq<string>)
    requires node.Dir?
    ensures lines == Tree(env, directory, node, prefix)
    decreases node
  {
    if env.shouldExclude(directory) {
      return [];
    }
    if node.denied {
      return [DeniedLine(prefix, directory)];
    }
    var orderedEntries := OrderEntries(env, directory, node.children);

    lines := [];
    for i := 0 to |orderedEntries|
      invariant lines + Level(env, directory, node, orderedEntries, i, prefix)
             == Level(env, directory, node, orderedEntries, 0, prefix)
    {
      var entry := orderedEntries[i];
      var fullPath := Join(directory, entry.name);
      var isLast := i == |orderedEntries| - 1;
      var symbol := if isLast then Elbow else Tee;
      var newPrefix := prefix + (if isLast then Blank else Bar);
      assert entry in node.children;

      ghost var done := lines;
      if entry.Dir? {
        lines := lines + [DirLine(prefix, symbol, entry.name)];
        var sub := BuildTree(env, fullPath, entry, newPrefix);
        lines := lines + sub;
        LevelStep(env, directory, node, orderedEntries, i, prefix, done, DirLine(prefix, symbol, entry.name), sub);
      } else {
        var lineCount := env.countLines(fullPath);
        var warning := env.indicator(fullPath, lineCount);
        lines := lines + [FileLine(prefix, symbol, env.emoji(entry.name), entry.name, lineCount, warning)];
        LevelStep(env, directory, node, orderedEntries, i, prefix, done,
                  FileLine(prefix, symbol, env.emoji(entry.name), entry.name, lineCount, warning), []);
        assert lines == done + [FileLine(prefix, symbol, env.emoji(entry.name), entry.name, lineCount, warning)] + [];
      }
    }
  }
}
