# Directory tree renderer, modelled in Dafny

`scripts/src/tree_builder.py` draws a directory as text lines for a project
overview. It has two renderers:

- `build_tree_current_level_only(directory, prefix)` lists only the regular
  files directly inside a directory, in listdir order.
- `build_tree(directory, prefix)` lists the whole subtree. At each level it
  puts the non-directories sorted by name first, then the directories sorted
  by name, and expands each directory in place under a deeper prefix.

In both renderers:

- an excluded directory renders as nothing;
- a directory whose listing raises `PermissionError` renders as one lock line;
- the last entry of a level gets the connector `└─` and every other entry `├─`.

This project models both renderers.

- `filesystem.dfy` (module `Filesystem`): the directory tree as a `Node` value. A node is a regular `File`, a `Special` entry (neither `isfile` nor `isdir`) or a `Dir` with a permission flag and its children in listdir order. The four collaborators from `file_utils` (`should_exclude`, `get_emoji`, `count_lines`, `get_line_count_indicator`) are given functions bundled in `Collaborators`.
- `lists.dfy` (module `Lists`): two list shapes and their laws.
  - `Filter` is the order-keeping comprehension.
  - `MarkLast` maps each element to a result while telling it whether it is the last one.
- `numerals.dfy` (module `Numerals`): the decimal rendering of the line count inside the f-string, with its round trip.
- `name_order.dfy` (module `NameOrder`): Python's `str` ordering, as code point by code point with a proper prefix first. It is proved a total order. An insertion sort by name stands in for `list.sort()`.
- `tree_builder.dfy` (module `TreeBuilder`): the two renderers.
  - `BuildTreeCurrentLevelOnly` and `BuildTree` are methods with the source's loops.
  - Each is proved equal to a specification function. `CurrentLevel` is a filter of the listing followed by a map that marks the last entry; `Tree` is recursive.
  - `OrderEntries` is build_tree's partition-and-sort loop, proved equal to `Ordered`.
- `tree_properties.dfy` (module `TreeProperties`): what the renderers promise, proved about `CurrentLevel` and `Tree`.
  - Exclusion and permission denial.
  - Excluded entries are invisible.
  - The file format of the depth-limited renderer.
  - Files come before directories, each group sorted.
  - Exactly the last entry line of a level carries `└─`.
  - Each entry's line is followed at once by its subtree, drawn under the prefix grown by `    ` or `│   `, and then by the next entry's line.

The code groups entries by `os.path.isdir`, so build_tree puts every non-directory among the "files", sockets and broken links included. The depth-limited renderer keeps only `os.path.isfile` entries and drops those special entries. The model follows the code here, through the `Special` node.

## Model

| member | source | states |
|---|---|---|
| TreeBuilder.BuildTreeCurrentLevelOnly | scripts/src/tree_builder.py:8-28 | the method's result is exactly `CurrentLevel`, whose properties are the TreeProperties lemmas below |
| TreeBuilder.BuildTree | scripts/src/tree_builder.py:30-69 | the recursive method's result is exactly `Tree`, whose properties are the TreeProperties lemmas below |
| TreeBuilder.OrderEntries | scripts/src/tree_builder.py:35-52 | the partition loop followed by the two sorts yields exactly `Ordered`, the order characterised by OrderedIsFilesThenDirectories |
| TreeBuilder.Surviving | scripts/src/tree_builder.py:13 | an entry survives if and only if it is a child of the directory and should_exclude returns False for its joined path |
| TreeBuilder.Tree | scripts/src/tree_builder.py:54-69 | every line build_tree returns begins with the caller's prefix, however deep the subtree |
| TreeBuilder.Level | scripts/src/tree_builder.py:55-63 | each entry contributes at least its own line, the loop yields no lines exactly when no entry is left, and every line, subtrees included, begins with the prefix; how the lines are arranged is stated by LevelSplice and TreeSplice |
| TreeBuilder.Subtree | scripts/src/tree_builder.py:59-63 | what follows an entry's own line: every line of it begins with the prefix plus four blanks after the last entry and plus `│   ` after any other; a non-directory contributes nothing |
| TreeBuilder.CurrentLevel | scripts/src/tree_builder.py:8-28 | every line the depth-limited renderer returns begins with the prefix followed by `├─` or `└─`; a listed directory yields at most one line per child |
| TreeBuilder.Ordered | scripts/src/tree_builder.py:35-52 | every entry of build_tree's iteration order is a child of the directory; the full characterisation is OrderedIsFilesThenDirectories |
| TreeBuilder.ConnectorMarksLast | scripts/src/tree_builder.py:58 | the connector is two characters ending in `─`; it begins with `└` exactly for the last entry and with `├` exactly for any other (the same choice as line 22) |
| TreeBuilder.ExtensionMarksLast | scripts/src/tree_builder.py:59 | the prefix of a subdirectory grows by four characters ending in three blanks: a blank after the last entry and `│` after any other, neither of which is a connector's first character |
| TreeBuilder.Head | scripts/src/tree_builder.py:57-67 | an entry's own line begins with the prefix followed by `└─` for the last entry and `├─` otherwise |
| TreeBuilder.DeniedLine | scripts/src/tree_builder.py:15 | the lock line begins with the prefix and the terminal connector `└─` |
| TreeBuilder.FileLine | scripts/src/tree_builder.py:26 | a file line begins with the prefix and the chosen connector |
| TreeBuilder.DirLine | scripts/src/tree_builder.py:62 | a folder line begins with the prefix and the chosen connector |
| Filesystem.Join | scripts/src/tree_builder.py:23 | joining keeps the directory's components and adds the entry name as the last one |
| Filesystem.Basename | scripts/src/tree_builder.py:15 | the base name shown in the lock line is empty for an empty path; a non-empty path is its parent joined with its base name |
| NameOrder.NameLe | scripts/src/tree_builder.py:49-50 | the order `list.sort()` uses: a name is ordered before or equal to any name it is a prefix of, and when the first characters differ they alone decide |
| NameOrder.NameLeTail | scripts/src/tree_builder.py:49-50 | when the first characters of two names are equal, the rest of the names alone decides their order |
| NameOrder.SortByName | scripts/src/tree_builder.py:49-50 | the sorted group is in ascending name order |
| NameOrder.SortByNamePermutes | scripts/src/tree_builder.py:49-50 | the sorted group is a permutation of the group: every entry occurs in it exactly as often as before |
| NameOrder.NameLeReflexive | scripts/src/tree_builder.py:49-50 | every name is ordered before or equal to itself |
| NameOrder.NameLeAntisymmetric | scripts/src/tree_builder.py:49-50 | two names each ordered before-or-equal the other are the same name |
| NameOrder.NameLeTransitive | scripts/src/tree_builder.py:49-50 | the name order is transitive |
| NameOrder.NameLeTotal | scripts/src/tree_builder.py:49-50 | any two names are comparable, so the sort order is total |
| NameOrder.InsertByNameSorted | scripts/src/tree_builder.py:49-50 | inserting into a sorted group keeps it sorted |
| Numerals.NatToString | scripts/src/tree_builder.py:26 | a count renders as decimal digits with no leading zero; a count below ten, zero included, renders as its single digit |
| Numerals.IntToString | scripts/src/tree_builder.py:26 | the rendered count is non-empty and starts with a minus sign exactly when the count is negative |
| Numerals.NatToStringRoundTrip | scripts/src/tree_builder.py:26 | the decimal digits of a count read back as that count |
| Numerals.IntToStringRoundTrip | scripts/src/tree_builder.py:26 | the rendered line count, sign included, parses back to the count |
| TreeProperties.ExcludedDirectoryRendersNothing | scripts/src/tree_builder.py:9-10 | both renderers return no lines for an excluded directory (also lines 31-32) |
| TreeProperties.EmptyListingRendersNothing | scripts/src/tree_builder.py:17-28 | a listed directory none of whose children survive should_exclude, an empty one among them, renders as no lines in both renderers (also lines 54-69) |
| TreeProperties.DeniedDirectoryRendersLockLine | scripts/src/tree_builder.py:14-15 | for a directory whose listing is refused, both renderers return exactly one line: prefix, `└─`, lock, and "[Permission Denied: " with the base name (also lines 36-37). The directory's contents do not matter |
| TreeProperties.ExcludedEntryIsInvisible | scripts/src/tree_builder.py:35 | inserting an excluded entry anywhere in the listing leaves both renderings unchanged, so it never decides which entry is last (also line 13) |
| TreeProperties.CurrentLevelListsFiles | scripts/src/tree_builder.py:18-26 | the depth-limited renderer gives one line per surviving regular file, in listdir order. Line k is that file's annotated line. It starts with `└─` exactly when k is the last index and with `├─` exactly otherwise. The file list holds exactly the non-excluded regular-file children |
| TreeProperties.CurrentLevelIgnoresNonFiles | scripts/src/tree_builder.py:18 | a subdirectory or special entry anywhere in the listing leaves the depth-limited rendering unchanged |
| TreeProperties.HeadsConnectors | scripts/src/tree_builder.py:20-22 | the head lines of a level match the entries one to one. Exactly the last one starts with `└─`; every other starts with `├─` |
| TreeProperties.OrderedIsFilesThenDirectories | scripts/src/tree_builder.py:42-52 | build_tree's iteration order is a permutation of the surviving entries. Every non-directory precedes every directory, and each group is in ascending name order |
| TreeProperties.ExtendedLineIsNotEntry | scripts/src/tree_builder.py:59 | a line under the extended prefix (`    ` or `│   `) never looks like an entry line of the parent level |
| TreeProperties.LevelEntryLines | scripts/src/tree_builder.py:55-63 | the lines of build_tree's loop that belong to the level itself are exactly the head lines of the entries, in order; all other lines come from subtrees |
| TreeProperties.TreeEntryLines | scripts/src/tree_builder.py:54-69 | a listed directory's own level holds one line per entry in iteration order. `└─` is on the last line only and `├─` on every other |
| TreeProperties.LevelSplice | scripts/src/tree_builder.py:55-67 | in the loop's output for any iteration order, entry k's line stands after exactly k entry lines (the first entry's at the top). It is followed at once by that entry's Subtree and then by the next entry's line, or by the end exactly after the last entry |
| TreeProperties.TreeSplice | scripts/src/tree_builder.py:54-69 | in what build_tree returns for a listed directory, every directory's folder line is followed at once by its full recursive rendering under the grown prefix (`    ` after the last entry, `│   ` otherwise), and every file's line directly by the next entry's line or the end. Each block sits after exactly k entry lines for entry k |
| TreeProperties.LevelLayout | scripts/src/tree_builder.py:55-63 | in the loop's output for any iteration order, read from the top, every line that is not an entry line of the level starts with the prefix and `│   ` while an entry line of the level is yet to come, and with the prefix and four blanks once none is |
| TreeProperties.TreeLayout | scripts/src/tree_builder.py:54-69 | in what build_tree returns, every line that is not an entry line of the top level lies under the grown prefix of its entry: the prefix and `│   ` when a later entry line of the level follows it, the prefix and four blanks when none does (the subtree of the last entry) |

## Left out

- Real filesystem calls (`os.listdir`, `os.path.isfile`, `os.path.isdir`) are left out: the model reads a given `Node` tree, and listdir order is the order of `children`.
- The collaborators are left out: `should_exclude`, `get_emoji`, `count_lines` and `get_line_count_indicator` are arbitrary given functions, and the file `file_utils` is not part of this model.
- Calling a renderer on a path that is not a listable directory is left out: every renderer requires `node.Dir?`. In the source, `os.listdir` then raises `FileNotFoundError` or `NotADirectoryError`, and the error propagates, unless the path is excluded first.
- Listing errors other than `PermissionError` are left out for the same reason: the source does not recover from them.
- Symbolic-link cycles are left out: a `Node` tree is finite, so the model cannot express the unbounded recursion the source would perform.
- Path syntax is left out: paths are component sequences, so a trailing separator (which makes `os.path.basename` return "") has no counterpart.
- Equal names are not distinguished: names within one directory are unique, so sorting nodes by name orders them exactly as `list.sort()` orders the name strings.
- Names that are not sequences of Unicode scalar values are left out: on POSIX, `os.listdir` returns undecodable bytes as lone surrogates (U+DC80 to U+DCFF), which a Dafny `char` cannot hold, so such entries and their code-point ordering are not modelled.
- The default `prefix=''` argument is not modelled separately: callers pass the prefix explicitly.
- Printing and joining the lines are left out: the core returns the list of lines.
- Idempotence has no lemma of its own: both renderers are functions of their inputs, so two calls on the same tree give equal results by definition.
- TreeBuilder.FileLine: its contract states only that the line begins with the prefix and connector; the rest of the format is fixed by its definition and not restated as a contract.
- TreeBuilder.DirLine: its contract states only that the line begins with the prefix and connector; the folder icon and name are fixed by its definition.
