/** What the two renderers promise, proved about their specification
    functions CurrentLevel and Tree (and hence, through the methods'
    postconditions, about BuildTreeCurrentLevelOnly and BuildTree). */
module TreeProperties {
  import opened Lists
  import opened Numerals
  import opened NameOrder
  import opened Filesystem
  import opened TreeBuilder

  // ---------------------------------------------------------------------
  // Lines of one level

  /** A line that stands for an entry of the level drawn under `prefix`. */
  predicate IsEntryLine(prefix: string, l: string)
  {
    StartsWith(l, prefix + Tee) || StartsWith(l, prefix + Elbow)
  }

  function EntryLineOf(prefix: string): string -> bool
  {
    (l: string) => IsEntryLine(prefix, l)
  }

  /** The lines of `lines` that belong to the level drawn under `prefix`
      itself, leaving out those of deeper levels. */
  function EntryLines(prefix: string, lines: seq<string>): seq<string>
  {
    Filter(EntryLineOf(prefix), lines)
  }

  /** A line that starts with `p` has `p`'s characters at `p`'s positions. */
  lemma StartsWithAt(l: string, p: string, k: nat)
    requires k < |p|
    ensures StartsWith(l, p) ==> l[k] == p[k]
  {
    if StartsWith(l, p) {
      assert l[..|p|][k] == p[k];
    }
  }

  /** What the character after the prefix is, for each way a line can go on. */
  lemma CharAfterPrefix(l: string, prefix: string, isLast: bool)
    ensures StartsWith(l, prefix + Tee) ==> l[|prefix|] == '\U{251C}'
    ensures StartsWith(l, prefix + Elbow) ==> l[|prefix|] == '\U{2514}'
    ensures StartsWith(l, prefix + Connector(isLast)) ==> l[|prefix|] == Connector(isLast)[0]
    ensures StartsWith(l, prefix + Extension(isLast)) ==> l[|prefix|] == Extension(isLast)[0]
  {
    StartsWithAt(l, prefix + Tee, |prefix|);
    StartsWithAt(l, prefix + Elbow, |prefix|);
    StartsWithAt(l, prefix + Connector(isLast), |prefix|);
    StartsWithAt(l, prefix + Extension(isLast), |prefix|);
  }

  /** The character after the prefix tells the two connectors apart. */
  lemma ConnectorAt(l: string, prefix: string, isLast: bool)
    requires StartsWith(l, prefix + Connector(isLast))
    ensures StartsWith(l, prefix + Elbow) <==> isLast
    ensures StartsWith(l, prefix + Tee) <==> !isLast
  {
    CharAfterPrefix(l, prefix, isLast);
  }

  /** A line of a subdirectory's tree is never an entry line of its parent's level. */
  lemma ExtendedLineIsNotEntry(l: string, prefix: string, isLast: bool)
    requires StartsWith(l, prefix + Extension(isLast))
    ensures !IsEntryLine(prefix, l)
  {
    CharAfterPrefix(l, prefix, isLast);
  }

  /** Lines 21-22 and 57-58 of tree_builder.py: among the head lines of a level, the last and
      only the last starts with `└─`; every other starts with `├─`. */
  lemma HeadsConnectors(env: Collaborators, dir: Path, prefix: string, es: seq<Node>)
    ensures var heads := MarkLast(HeadOf(env, dir, prefix), es, 0);
      && |heads| == |es|
      && forall k :: 0 <= k < |es| ==>
           && heads[k] == Head(env, dir, prefix, es[k], k == |es| - 1)
           && (StartsWith(heads[k], prefix + Elbow) <==> k == |es| - 1)
           && (StartsWith(heads[k], prefix + Tee) <==> k < |es| - 1)
  {
    var heads := MarkLast(HeadOf(env, dir, prefix), es, 0);
    MarkLastAt(HeadOf(env, dir, prefix), es, 0);
    forall k | 0 <= k < |es|
      ensures heads[k] == Head(env, dir, prefix, es[k], k == |es| - 1)
      ensures StartsWith(heads[k], prefix + Elbow) <==> k == |es| - 1
      ensures StartsWith(heads[k], prefix + Tee) <==> k < |es| - 1
    {
      assert heads[k] == HeadOf(env, dir, prefix)(es[0 + k], 0 + k == |es| - 1);
      ConnectorAt(heads[k], prefix, k == |es| - 1);
    }
  }

  // ---------------------------------------------------------------------
  // The directory itself: exclusion and permission denial

  /** Lines 9-10 and 31-32 of tree_builder.py: an excluded directory renders as nothing. */
  lemma ExcludedDirectoryRendersNothing(env: Collaborators, dir: Path, node: Node, prefix: string)
    requires node.Dir? && env.shouldExclude(dir)
    ensures CurrentLevel(env, dir, node, prefix) == []
    ensures Tree(env, dir, node, prefix) == []
  {
  }

  /** Lines 17-28 and 54-69 of tree_builder.py: a listed directory none of
      whose children survive should_exclude (an empty directory among them)
      renders as nothing in both renderers, because their loops never run. */
  lemma EmptyListingRendersNothing(env: Collaborators, dir: Path, node: Node, prefix: string)
    requires node.Dir? && !env.shouldExclude(dir) && !node.denied
    requires forall c :: c in node.children ==> env.shouldExclude(Join(dir, c.name))
    ensures CurrentLevel(env, dir, node, prefix) == []
    ensures Tree(env, dir, node, prefix) == []
  {
    FilterNone(Survives(env, dir), node.children);
    assert Surviving(env, dir, node.children) == [];
    assert Ordered(env, dir, node.children) == [];
  }

  /** Lines 14-15 and 36-37 of tree_builder.py: a directory whose listing is refused renders as
      one line, whatever its contents. */
  lemma DeniedDirectoryRendersLockLine(env: Collaborators, dir: Path, node: Node, prefix: string)
    requires node.Dir? && !env.shouldExclude(dir) && node.denied
    ensures CurrentLevel(env, dir, node, prefix)
         == [prefix + Elbow + " " + Lock + " [Permission Denied: " + Basename(dir) + "]"]
    ensures Tree(env, dir, node, prefix)
         == [prefix + Elbow + " " + Lock + " [Permission Denied: " + Basename(dir) + "]"]
  {
    var p, b := prefix + Elbow, Basename(dir);
    ConcatAssoc(p, " " + Lock + " [Permission Denied: " + b, "]");
    ConcatAssoc(p, " " + Lock + " [Permission Denied: ", b);
    ConcatAssoc(p, " " + Lock, " [Permission Denied: ");
    ConcatAssoc(p, " ", Lock);
  }

  // ---------------------------------------------------------------------
  // Excluded entries

  lemma SurvivingDrop(env: Collaborators, dir: Path, a: seq<Node>, x: Node, b: seq<Node>)
    requires env.shouldExclude(Join(dir, x.name))
    ensures Surviving(env, dir, a + [x] + b) == Surviving(env, dir, a + b)
  {
    FilterDrop(Survives(env, dir), a, x, b);
  }

  /** `Level` does not depend on which node is named as the parent. */
  lemma {:induction false} LevelParentIrrelevant(env: Collaborators, dir: Path, p1: Node, p2: Node,
                                                 es: seq<Node>, i: nat, prefix: string)
    requires p1.Dir? && p2.Dir? && i <= |es|
    requires forall e :: e in es ==> e in p1.children
    requires forall e :: e in es ==> e in p2.children
    ensures Level(env, dir, p1, es, i, prefix) == Level(env, dir, p2, es, i, prefix)
    decreases |es| - i
  {
    if i < |es| {
      LevelParentIrrelevant(env, dir, p1, p2, es, i + 1, prefix);
    }
  }

  /** Lines 13, 21, 35 and 57 of tree_builder.py: an excluded entry, wherever it stands in the
      listing, changes nothing in either rendering; in particular it never
      decides which entry is last. */
  lemma ExcludedEntryIsInvisible(env: Collaborators, dir: Path, name: string, denied: bool,
                                 before: seq<Node>, x: Node, after: seq<Node>, prefix: string)
    requires env.shouldExclude(Join(dir, x.name))
    ensures CurrentLevel(env, dir, Dir(name, denied, before + [x] + after), prefix)
         == CurrentLevel(env, dir, Dir(name, denied, before + after), prefix)
    ensures Tree(env, dir, Dir(name, denied, before + [x] + after), prefix)
         == Tree(env, dir, Dir(name, denied, before + after), prefix)
  {
    SurvivingDrop(env, dir, before, x, after);
    var es := Ordered(env, dir, before + after);
    assert Ordered(env, dir, before + [x] + after) == es;
    if !env.shouldExclude(dir) && !denied {
      LevelParentIrrelevant(env, dir, Dir(name, denied, before + [x] + after), Dir(name, denied, before + after),
                            es, 0, prefix);
    }
  }

  // ---------------------------------------------------------------------
  // The depth-limited renderer

  /** Lines 18-28 of tree_builder.py: one line per regular file that survives exclusion, in
      listdir order, each in the annotated file format, `└─` on the last
      one only; the file list holds exactly the children that are regular
      files and not excluded. */
  lemma CurrentLevelListsFiles(env: Collaborators, dir: Path, node: Node, prefix: string)
    requires node.Dir? && !env.shouldExclude(dir) && !node.denied
    ensures var files := Filter(IsRegularFile, Surviving(env, dir, node.children));
      var lines := CurrentLevel(env, dir, node, prefix);
      && (forall c :: c in files <==> c in node.children && c.File? && !env.shouldExclude(Join(dir, c.name)))
      && |lines| == |files|
      && forall k :: 0 <= k < |files| ==>
           var path := Join(dir, files[k].name);
           var count := env.countLines(path);
           && lines[k] == FileLine(prefix, Connector(k == |files| - 1), env.emoji(files[k].name), files[k].name,
                                   count, env.indicator(path, count))
           && (StartsWith(lines[k], prefix + Elbow) <==> k == |files| - 1)
           && (StartsWith(lines[k], prefix + Tee) <==> k < |files| - 1)
  {
    var files := Filter(IsRegularFile, Surviving(env, dir, node.children));
    HeadsConnectors(env, dir, prefix, files);
    forall k | 0 <= k < |files|
      ensures files[k].File?
    {
      assert files[k] in files;
    }
  }

  /** Line 18 of tree_builder.py: a subdirectory or a special entry never shows in the
      depth-limited rendering, wherever it stands in the listing. */
  lemma CurrentLevelIgnoresNonFiles(env: Collaborators, dir: Path, name: string, denied: bool,
                                    before: seq<Node>, x: Node, after: seq<Node>, prefix: string)
    requires !x.File?
    ensures CurrentLevel(env, dir, Dir(name, denied, before + [x] + after), prefix)
         == CurrentLevel(env, dir, Dir(name, denied, before + after), prefix)
  {
    FilterTwiceDrop(IsRegularFile, Survives(env, dir), before, x, after);
  }

  // ---------------------------------------------------------------------
  // The full renderer

  /** Non-directories sorted by name followed by directories sorted by
      name: every non-directory precedes every directory, and each group is
      in ascending name order. */
  lemma GroupsInOrder(a: seq<Node>, b: seq<Node>)
    requires forall x :: x in a ==> !x.Dir?
    requires forall x :: x in b ==> x.Dir?
    requires SortedByName(a) && SortedByName(b)
    ensures var es := a + b;
      && (forall i, j :: 0 <= i < |es| && 0 <= j < |es| && !es[i].Dir? && es[j].Dir? ==> i < j)
      && (forall i, j :: 0 <= i < j < |es| && es[i].Dir? == es[j].Dir? ==> NameLe(es[i].name, es[j].name))
  {
    var es := a + b;
    forall i | 0 <= i < |es|
      ensures es[i].Dir? <==> i >= |a|
    {
      if i < |a| {
        assert es[i] == a[i] && a[i] in a;
      } else {
        assert es[i] == b[i - |a|] && b[i - |a|] in b;
      }
    }
    forall i, j | 0 <= i < j < |es| && es[i].Dir? == es[j].Dir?
      ensures NameLe(es[i].name, es[j].name)
    {
      if j < |a| {
        assert es[i] == a[i] && es[j] == a[j];
      } else {
        assert es[i] == b[i - |a|] && es[j] == b[j - |a|];
      }
    }
  }

  /** Sorting one group keeps exactly its members. */
  lemma SortedGroupMembers(keep: Node -> bool, s: seq<Node>)
    ensures forall x :: x in SortByName(Filter(keep, s)) ==> keep(x)
  {
    SortByNameMembers(Filter(keep, s));
  }

  /** Lines 42-52 of tree_builder.py: the iteration order is a permutation of the surviving
      entries in which every non-directory comes before every directory and
      each group is in ascending name order. */
  lemma OrderedIsFilesThenDirectories(env: Collaborators, dir: Path, children: seq<Node>)
    ensures var es := Ordered(env, dir, children);
      && multiset(es) == multiset(Surviving(env, dir, children))
      && (forall i, j :: 0 <= i < |es| && 0 <= j < |es| && !es[i].Dir? && es[j].Dir? ==> i < j)
      && (forall i, j :: 0 <= i < j < |es| && es[i].Dir? == es[j].Dir? ==> NameLe(es[i].name, es[j].name))
  {
    var s := Surviving(env, dir, children);
    FilterPartition(IsNotDirectory, IsDirectory, s);
    SortedGroupMembers(IsNotDirectory, s);
    SortedGroupMembers(IsDirectory, s);
    SortByNamePermutes(Filter(IsNotDirectory, s));
    SortByNamePermutes(Filter(IsDirectory, s));
    GroupsInOrder(SortByName(Filter(IsNotDirectory, s)), SortByName(Filter(IsDirectory, s)));
  }

  /** A head line followed by the lines of a subtree drawn one level deeper
      contributes exactly the head line to its level. */
  lemma BlockEntryLines(prefix: string, head: string, sub: seq<string>, isLast: bool)
    requires StartsWith(head, prefix + Connector(isLast))
    requires forall l :: l in sub ==> StartsWith(l, prefix + Extension(isLast))
    ensures EntryLines(prefix, [head] + sub) == [head]
  {
    var keep := EntryLineOf(prefix);
    FilterConcat(keep, [head], sub);
    ConnectorAt(head, prefix, isLast);
    FilterSingle(keep, head);
    forall l | l in sub
      ensures !keep(l)
    {
      ExtendedLineIsNotEntry(l, prefix, isLast);
    }
    FilterNone(keep, sub);
  }

  /** The entry lines of a block followed by `rest`: its head line, then those of `rest`. */
  lemma BlockEntries(prefix: string, cur: seq<string>, head: string, sub: seq<string>, rest: seq<string>, isLast: bool)
    requires BlockThen(prefix, cur, head, sub, rest, isLast)
    ensures EntryLines(prefix, cur) == [head] + EntryLines(prefix, rest)
  {
    assert cur == [head] + sub + rest;
    assert Extension(isLast) == (if isLast then Blank else Bar);
    FilterConcat(EntryLineOf(prefix), [head] + sub, rest);
    BlockEntryLines(prefix, head, sub, isLast);
  }

  /** The entry lines of the level drawn under `prefix` in `Level(es, i)`
      are exactly the head lines of `es[i..]`. */
  lemma {:induction false} LevelEntryLines(env: Collaborators, dir: Path, parent: Node, es: seq<Node>, i: nat, prefix: string)
    requires parent.Dir? && i <= |es| && forall e :: e in es ==> e in parent.children
    ensures EntryLines(prefix, Level(env, dir, parent, es, i, prefix)) == MarkLast(HeadOf(env, dir, prefix), es, i)
    decreases |es| - i
  {
    if i < |es| {
      LevelEntryLines(env, dir, parent, es, i + 1, prefix);
      LevelStepEntryLines(env, dir, parent, es, i, prefix);
    }
  }

  /** Entry `i`'s block adds its head line in front of the entry lines after it. */
  lemma LevelStepEntryLines(env: Collaborators, dir: Path, parent: Node, es: seq<Node>, i: nat, prefix: string)
    requires parent.Dir? && i < |es| && forall e :: e in es ==> e in parent.children
    requires EntryLines(prefix, Level(env, dir, parent, es, i + 1, prefix)) == MarkLast(HeadOf(env, dir, prefix), es, i + 1)
    ensures EntryLines(prefix, Level(env, dir, parent, es, i, prefix)) == MarkLast(HeadOf(env, dir, prefix), es, i)
  {
    var isLast := i == |es| - 1;
    LevelBlockThen(env, dir, parent, es, i, prefix);
    BlockEntries(prefix, Level(env, dir, parent, es, i, prefix), Head(env, dir, prefix, es[i], isLast),
      Subtree(env, dir, prefix, es[i], isLast), Level(env, dir, parent, es, i + 1, prefix), isLast);
    assert HeadOf(env, dir, prefix)(es[i], isLast) == Head(env, dir, prefix, es[i], isLast);
    MarkLastCons(HeadOf(env, dir, prefix), es, i, Head(env, dir, prefix, es[i], isLast),
      EntryLines(prefix, Level(env, dir, parent, es, i + 1, prefix)), EntryLines(prefix, Level(env, dir, parent, es, i, prefix)));
  }

  /** Lines 54-69 of tree_builder.py: the lines build_tree returns for a listed directory
      contain, as the lines of its own level, one head line per entry in
      the iteration order (files sorted, then directories sorted), `└─` on
      the last one only and `├─` on every other; every other line belongs
      to a subdirectory's tree. */
  lemma TreeEntryLines(env: Collaborators, dir: Path, node: Node, prefix: string)
    requires node.Dir? && !env.shouldExclude(dir) && !node.denied
    ensures var es := Ordered(env, dir, node.children);
      var top := EntryLines(prefix, Tree(env, dir, node, prefix));
      && |top| == |es|
      && forall k :: 0 <= k < |es| ==>
           && top[k] == Head(env, dir, prefix, es[k], k == |es| - 1)
           && (StartsWith(top[k], prefix + Elbow) <==> k == |es| - 1)
           && (StartsWith(top[k], prefix + Tee) <==> k < |es| - 1)
  {
    var es := Ordered(env, dir, node.children);
    LevelEntryLines(env, dir, node, es, 0, prefix);
    HeadsConnectors(env, dir, prefix, es);
  }

  /** `Level(es, i + 1)` is what remains of `Level(es, i)` after entry `i`'s block. */
  lemma LevelBlock(env: Collaborators, dir: Path, parent: Node, es: seq<Node>, i: nat, prefix: string)
    requires parent.Dir? && i < |es| && forall e :: e in es ==> e in parent.children
    ensures IsSuffix(Level(env, dir, parent, es, i, prefix), Level(env, dir, parent, es, i + 1, prefix))
  {
    assert es[i] in parent.children;
    var head := Head(env, dir, prefix, es[i], i == |es| - 1);
    var sub := Subtree(env, dir, prefix, es[i], i == |es| - 1);
    var prev := Level(env, dir, parent, es, i, prefix);
    var cur := Level(env, dir, parent, es, i + 1, prefix);
    assert prev == [head] + sub + cur;
    assert prev[|[head] + sub|..] == cur;
  }

  /** `cur` starts with `head` and `sub`, and goes on with an entry line,
      unless `isLast`, in which case it ends there. */
  ghost predicate BlockStart(prefix: string, cur: seq<string>, head: string, sub: seq<string>, isLast: bool)
  {
    && 1 + |sub| <= |cur|
    && cur[0] == head
    && cur[1..1 + |sub|] == sub
    && (1 + |sub| == |cur| <==> isLast)
    && (1 + |sub| < |cur| ==> IsEntryLine(prefix, cur[1 + |sub|]))
  }

  /** `Level(es, i)` starts with entry `i`'s line and its subtree. What follows
      is the next entry's line, or nothing exactly when entry `i` is the last. */
  lemma LevelBlockParts(env: Collaborators, dir: Path, parent: Node, es: seq<Node>, i: nat, prefix: string)
    requires parent.Dir? && i < |es| && forall e :: e in es ==> e in parent.children
    ensures BlockStart(prefix, Level(env, dir, parent, es, i, prefix), Head(env, dir, prefix, es[i], i == |es| - 1),
      Subtree(env, dir, prefix, es[i], i == |es| - 1), i == |es| - 1)
  {
    assert es[i] in parent.children;
    var head := Head(env, dir, prefix, es[i], i == |es| - 1);
    var sub := Subtree(env, dir, prefix, es[i], i == |es| - 1);
    var cur := Level(env, dir, parent, es, i, prefix);
    var rest := Level(env, dir, parent, es, i + 1, prefix);
    assert cur == [head] + sub + rest;
    assert cur[1..1 + |sub|] == sub;
    AfterBlock(env, dir, parent, es, i, prefix);
    assert 1 + |sub| < |cur| ==> cur[1 + |sub|] == rest[0];
  }

  /** `cur` is an entry line `head` of the level drawn under `prefix`, then
      its subtree `sub` under the grown prefix, then `rest`, which starts with
      the next entry's line unless the entry is the last. */
  ghost predicate BlockThen(prefix: string, cur: seq<string>, head: string, sub: seq<string>, rest: seq<string>, isLast: bool)
  {
    && StartsWith(head, prefix + Connector(isLast))
    && (forall l :: l in sub ==> StartsWith(l, prefix + Extension(isLast)))
    && BlockStart(prefix, cur, head, sub, isLast)
    && cur[1 + |sub|..] == rest
  }

  /** `Level(es, i)`'s tail after entry `i`'s block is `Level(es, i + 1)`. */
  lemma LevelRest(env: Collaborators, dir: Path, parent: Node, es: seq<Node>, i: nat, prefix: string)
    requires parent.Dir? && i < |es| && forall e :: e in es ==> e in parent.children
    ensures 1 + |Subtree(env, dir, prefix, es[i], i == |es| - 1)| <= |Level(env, dir, parent, es, i, prefix)|
    ensures Level(env, dir, parent, es, i, prefix)[1 + |Subtree(env, dir, prefix, es[i], i == |es| - 1)|..]
      == Level(env, dir, parent, es, i + 1, prefix)
  {
    assert es[i] in parent.children;
    var head := Head(env, dir, prefix, es[i], i == |es| - 1);
    var sub := Subtree(env, dir, prefix, es[i], i == |es| - 1);
    var cur := Level(env, dir, parent, es, i, prefix);
    assert cur == [head] + sub + Level(env, dir, parent, es, i + 1, prefix);
    assert cur[1 + |sub|..] == Level(env, dir, parent, es, i + 1, prefix);
  }

  /** Entry `i`'s block opens `Level(es, i)` and is followed by `Level(es, i + 1)`. */
  lemma LevelBlockThen(env: Collaborators, dir: Path, parent: Node, es: seq<Node>, i: nat, prefix: string)
    requires parent.Dir? && i < |es| && forall e :: e in es ==> e in parent.children
    ensures BlockThen(prefix, Level(env, dir, parent, es, i, prefix), Head(env, dir, prefix, es[i], i == |es| - 1),
                      Subtree(env, dir, prefix, es[i], i == |es| - 1), Level(env, dir, parent, es, i + 1, prefix), i == |es| - 1)
  {
    assert Extension(i == |es| - 1) == (if i == |es| - 1 then Blank else Bar);
    LevelBlockParts(env, dir, parent, es, i, prefix);
    LevelRest(env, dir, parent, es, i, prefix);
  }

  /** `Level(es, k)` is what remains of `Level(es, 0)` once the blocks of
      the first `k` entries are done. */
  lemma {:induction false} LevelSuffix(env: Collaborators, dir: Path, parent: Node, es: seq<Node>, k: nat, prefix: string)
    requires parent.Dir? && k <= |es| && forall e :: e in es ==> e in parent.children
    ensures IsSuffix(Level(env, dir, parent, es, 0, prefix), Level(env, dir, parent, es, k, prefix))
    decreases k
  {
    if k == 0 {
      SuffixRefl(Level(env, dir, parent, es, 0, prefix));
    } else {
      LevelSuffix(env, dir, parent, es, k - 1, prefix);
      LevelBlock(env, dir, parent, es, k - 1, prefix);
      SuffixTrans(Level(env, dir, parent, es, 0, prefix), Level(env, dir, parent, es, k - 1, prefix),
        Level(env, dir, parent, es, k, prefix));
    }
  }

  /** `cur` is a tail of `lines` preceded by exactly `k` entry lines; when
      `k` is 0, it is all of `lines`. */
  ghost predicate TailAfterEntries(prefix: string, lines: seq<string>, cur: seq<string>, k: nat)
  {
    && |cur| <= |lines|
    && lines[|lines| - |cur|..] == cur
    && |EntryLines(prefix, lines[..|lines| - |cur|])| == k
    && (k == 0 ==> |cur| == |lines|)
  }

  /** `Level(es, i)` holds one entry line per entry from `i` on. */
  lemma LevelEntryCount(env: Collaborators, dir: Path, parent: Node, es: seq<Node>, i: nat, prefix: string)
    requires parent.Dir? && i <= |es| && forall e :: e in es ==> e in parent.children
    ensures |EntryLines(prefix, Level(env, dir, parent, es, i, prefix))| == |es| - i
  {
    LevelEntryLines(env, dir, parent, es, i, prefix);
    MarkLastAt(HeadOf(env, dir, prefix), es, i);
  }

  /** A tail of `lines` with `k` fewer entry lines than `lines` is preceded by exactly `k` of them. */
  lemma TailEntries(prefix: string, lines: seq<string>, cur: seq<string>, k: nat)
    requires IsSuffix(lines, cur)
    requires |EntryLines(prefix, lines)| == |EntryLines(prefix, cur)| + k
    requires k == 0 ==> |cur| == |lines|
    ensures TailAfterEntries(prefix, lines, cur, k)
  {
    var n := |lines| - |cur|;
    assert lines == lines[..n] + cur;
    FilterConcat(EntryLineOf(prefix), lines[..n], cur);
  }

  /** `Level(es, k)` is the tail of the level's lines after the entry lines
      of the first `k` entries. */
  lemma LevelTail(env: Collaborators, dir: Path, parent: Node, es: seq<Node>, k: nat, prefix: string)
    requires parent.Dir? && k <= |es| && forall e :: e in es ==> e in parent.children
    ensures TailAfterEntries(prefix, Level(env, dir, parent, es, 0, prefix), Level(env, dir, parent, es, k, prefix), k)
  {
    LevelSuffix(env, dir, parent, es, k, prefix);
    LevelEntryCount(env, dir, parent, es, 0, prefix);
    LevelEntryCount(env, dir, parent, es, k, prefix);
    TailEntries(prefix, Level(env, dir, parent, es, 0, prefix), Level(env, dir, parent, es, k, prefix), k);
  }

  /** What follows entry `k`'s block in `Level(es, k)`: the next entry's
      line, or nothing after the last entry. */
  lemma AfterBlock(env: Collaborators, dir: Path, parent: Node, es: seq<Node>, k: nat, prefix: string)
    requires parent.Dir? && k < |es| && forall e :: e in es ==> e in parent.children
    ensures var rest := Level(env, dir, parent, es, k + 1, prefix);
      && (rest == [] <==> k == |es| - 1)
      && (rest != [] ==> IsEntryLine(prefix, rest[0]))
  {
    if k + 1 < |es| {
      assert es[k + 1] in parent.children;
      var head := Head(env, dir, prefix, es[k + 1], k + 1 == |es| - 1);
      assert Level(env, dir, parent, es, k + 1, prefix)[0] == head;
      ConnectorAt(head, prefix, k + 1 == |es| - 1);
    }
  }

  /** In `lines`, the line `head` stands where exactly `k` entry lines
      precede it, the first line when `k` is 0. It is followed at once by
      `sub`, and then by another entry line, or by the end exactly when
      `isLast`. */
  ghost predicate BlockAfterEntries(prefix: string, lines: seq<string>, k: nat, head: string, sub: seq<string>, isLast: bool)
  {
    exists n: nat ::
      && n + 1 + |sub| <= |lines|
      && (k == 0 ==> n == 0)
      && |EntryLines(prefix, lines[..n])| == k
      && lines[n] == head
      && lines[n + 1..n + 1 + |sub|] == sub
      && (n + 1 + |sub| == |lines| <==> isLast)
      && (n + 1 + |sub| < |lines| ==> IsEntryLine(prefix, lines[n + 1 + |sub|]))
  }

  /** A tail `cur` of `lines` after exactly `k` entry lines, which starts with
      `head` and `sub` and goes on with an entry line unless `isLast`. */
  lemma BlockAt(prefix: string, lines: seq<string>, cur: seq<string>, head: string, sub: seq<string>, k: nat, isLast: bool)
    requires TailAfterEntries(prefix, lines, cur, k)
    requires BlockStart(prefix, cur, head, sub, isLast)
    ensures BlockAfterEntries(prefix, lines, k, head, sub, isLast)
  {
    var n := |lines| - |cur|;
    assert lines[n] == cur[0];
    assert lines[n + 1..n + 1 + |sub|] == cur[1..1 + |sub|];
    assert n + 1 + |sub| < |lines| ==> lines[n + 1 + |sub|] == cur[1 + |sub|];
  }

  /** The splice within one level: entry `k`'s line stands where exactly
      `k` entry lines precede it, followed at once by its subtree and then by
      the next entry's line, or by the end exactly after the last entry. */
  lemma LevelSplice(env: Collaborators, dir: Path, parent: Node, es: seq<Node>, k: nat, prefix: string)
    requires parent.Dir? && k < |es| && forall e :: e in es ==> e in parent.children
    ensures BlockAfterEntries(prefix, Level(env, dir, parent, es, 0, prefix), k,
      Head(env, dir, prefix, es[k], k == |es| - 1), Subtree(env, dir, prefix, es[k], k == |es| - 1), k == |es| - 1)
  {
    LevelTail(env, dir, parent, es, k, prefix);
    LevelBlockParts(env, dir, parent, es, k, prefix);
    BlockAt(prefix, Level(env, dir, parent, es, 0, prefix), Level(env, dir, parent, es, k, prefix),
      Head(env, dir, prefix, es[k], k == |es| - 1), Subtree(env, dir, prefix, es[k], k == |es| - 1), k, k == |es| - 1);
  }

  /** Lines 55-67 of tree_builder.py's build_tree: in the lines of a listed
      directory, the line of entry `k` (in iteration order) stands where
      exactly `k` entry lines precede it, the first entry's at the top. It is
      followed at once by that entry's subtree (a directory's full tree under
      the prefix grown by `Extension`, nothing for a file), and then by the
      next entry's line, or by the end of the output exactly when entry `k`
      is the last. */
  lemma TreeSplice(env: Collaborators, dir: Path, node: Node, prefix: string, k: nat)
    requires node.Dir? && !env.shouldExclude(dir) && !node.denied
    requires k < |Ordered(env, dir, node.children)|
    ensures var es := Ordered(env, dir, node.children);
      BlockAfterEntries(prefix, Tree(env, dir, node, prefix), k,
        Head(env, dir, prefix, es[k], k == |es| - 1), Subtree(env, dir, prefix, es[k], k == |es| - 1), k == |es| - 1)
  {
    var es := Ordered(env, dir, node.children);
    assert Tree(env, dir, node, prefix) == Level(env, dir, node, es, 0, prefix);
    LevelSplice(env, dir, node, es, k, prefix);
  }

  // ---------------------------------------------------------------------
  // Prefix growth

  /** Some line of `lines` is an entry line of the level drawn under `prefix`. */
  predicate HasEntry(prefix: string, lines: seq<string>)
    decreases |lines|
  {
    lines != [] && (IsEntryLine(prefix, lines[0]) || HasEntry(prefix, lines[1..]))
  }

  /** Every line that is not an entry line of the level drawn under `prefix`
      belongs to a subtree: it starts with the prefix and `│   ` while an
      entry line of the level is still to come, and with the prefix and four
      blanks once none is. */
  ghost predicate Layout(prefix: string, lines: seq<string>)
  {
    forall j :: 0 <= j < |lines| && !IsEntryLine(prefix, lines[j]) ==>
      StartsWith(lines[j], prefix + (if HasEntry(prefix, lines[j + 1..]) then Bar else Blank))
  }

  /** `Layout`, stated line by line from the front. */
  ghost predicate LaidOut(prefix: string, lines: seq<string>)
    decreases |lines|
  {
    lines == [] ||
    (&& (IsEntryLine(prefix, lines[0]) || StartsWith(lines[0], prefix + (if HasEntry(prefix, lines[1..]) then Bar else Blank)))
     && LaidOut(prefix, lines[1..]))
  }

  /** The line-by-line form gives the layout of every line. */
  lemma {:induction false} LaidOutAt(prefix: string, lines: seq<string>, j: nat)
    requires LaidOut(prefix, lines) && j < |lines| && !IsEntryLine(prefix, lines[j])
    ensures StartsWith(lines[j], prefix + (if HasEntry(prefix, lines[j + 1..]) then Bar else Blank))
    decreases j
  {
    if j > 0 {
      assert lines[1..][j - 1] == lines[j] && lines[1..][j..] == lines[j + 1..];
      LaidOutAt(prefix, lines[1..], j - 1);
    }
  }

  lemma LaidOutLayout(prefix: string, lines: seq<string>)
    requires LaidOut(prefix, lines)
    ensures Layout(prefix, lines)
  {
    forall j | 0 <= j < |lines| && !IsEntryLine(prefix, lines[j])
      ensures StartsWith(lines[j], prefix + (if HasEntry(prefix, lines[j + 1..]) then Bar else Blank))
    {
      LaidOutAt(prefix, lines, j);
    }
  }

  /** Lines that are not entry lines do not change whether an entry line is present. */
  lemma {:induction false} HasEntryAfterNone(prefix: string, front: seq<string>, rest: seq<string>)
    requires forall l :: l in front ==> !IsEntryLine(prefix, l)
    ensures HasEntry(prefix, front + rest) == HasEntry(prefix, rest)
    decreases |front|
  {
    if front != [] {
      assert (front + rest)[0] == front[0] && (front + rest)[1..] == front[1..] + rest;
      assert forall l :: l in front[1..] ==> l in front;
      HasEntryAfterNone(prefix, front[1..], rest);
    } else {
      assert front + rest == rest;
    }
  }

  /** Lines of a subtree put in front of a laid-out tail whose first entry
      line, if any, decides their column. */
  lemma {:induction false} SubtreeLaidOut(prefix: string, sub: seq<string>, rest: seq<string>)
    requires forall l :: l in sub ==> !IsEntryLine(prefix, l)
    requires forall l :: l in sub ==> StartsWith(l, prefix + (if HasEntry(prefix, rest) then Bar else Blank))
    requires LaidOut(prefix, rest)
    ensures LaidOut(prefix, sub + rest)
    decreases |sub|
  {
    if sub != [] {
      assert (sub + rest)[0] == sub[0] && sub[0] in sub && (sub + rest)[1..] == sub[1..] + rest;
      assert forall l :: l in sub[1..] ==> l in sub;
      HasEntryAfterNone(prefix, sub[1..], rest);
      SubtreeLaidOut(prefix, sub[1..], rest);
    } else {
      assert sub + rest == rest;
    }
  }

  /** One step of the layout: an entry's block in front of a laid-out tail. */
  lemma BlockLaidOut(prefix: string, cur: seq<string>, head: string, sub: seq<string>, rest: seq<string>, isLast: bool)
    requires BlockThen(prefix, cur, head, sub, rest, isLast)
    requires LaidOut(prefix, rest)
    ensures LaidOut(prefix, cur)
  {
    assert cur == [head] + (sub + rest);
    ConnectorAt(head, prefix, isLast);
    forall l | l in sub
      ensures !IsEntryLine(prefix, l)
    {
      ExtendedLineIsNotEntry(l, prefix, isLast);
    }
    if isLast {
      assert rest == [];
    } else {
      assert rest[0] == cur[1 + |sub|];
    }
    assert Extension(isLast) == (if HasEntry(prefix, rest) then Bar else Blank);
    SubtreeLaidOut(prefix, sub, rest);
    assert cur[1..] == sub + rest;
  }

  /** Entry `i`'s block keeps the layout of the entries after it. */
  lemma LevelStepLaidOut(env: Collaborators, dir: Path, parent: Node, es: seq<Node>, i: nat, prefix: string)
    requires parent.Dir? && i < |es| && forall e :: e in es ==> e in parent.children
    requires LaidOut(prefix, Level(env, dir, parent, es, i + 1, prefix))
    ensures LaidOut(prefix, Level(env, dir, parent, es, i, prefix))
  {
    LevelBlockThen(env, dir, parent, es, i, prefix);
    BlockLaidOut(prefix, Level(env, dir, parent, es, i, prefix), Head(env, dir, prefix, es[i], i == |es| - 1),
                 Subtree(env, dir, prefix, es[i], i == |es| - 1), Level(env, dir, parent, es, i + 1, prefix), i == |es| - 1);
  }

  /** The lines of the entries `es[i..]` are laid out under `prefix`. */
  lemma {:induction false} LevelLayout(env: Collaborators, dir: Path, parent: Node, es: seq<Node>, i: nat, prefix: string)
    requires parent.Dir? && i <= |es| && forall e :: e in es ==> e in parent.children
    ensures LaidOut(prefix, Level(env, dir, parent, es, i, prefix))
    decreases |es| - i
  {
    if i < |es| {
      LevelLayout(env, dir, parent, es, i + 1, prefix);
      LevelStepLaidOut(env, dir, parent, es, i, prefix);
    }
  }

  /** Line 59 of tree_builder.py carried through the recursion at lines
      62-63: in what build_tree returns, every line that is not an entry line
      of the top level lies in a subdirectory's subtree, and starts with the
      prefix and `│   ` when a later entry of the top level follows, or with
      the prefix and four blanks when it lies under the last entry. */
  lemma TreeLayout(env: Collaborators, dir: Path, node: Node, prefix: string)
    requires node.Dir?
    ensures Layout(prefix, Tree(env, dir, node, prefix))
  {
    var lines := Tree(env, dir, node, prefix);
    if !env.shouldExclude(dir) {
      if node.denied {
        assert lines == [DeniedLine(prefix, dir)];
        assert lines[1..] == [];
      } else {
        LevelLayout(env, dir, node, Ordered(env, dir, node.children), 0, prefix);
      }
    }
    LaidOutLayout(prefix, lines);
  }
}
