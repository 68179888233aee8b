# Kotlin import indexing and resolution, modelled in Dafny

This project models the core of a VS Code extension for Kotlin. The extension
resolves unqualified identifiers to fully qualified `import` lines, and it
has five parts:

- **Scanner.** It reads the import section at the head of a `.kt` file and
  files every import line under its *keyword*, which is the identifier
  after the last dot.
- **Index builder.** It runs the scanner over every file of the workspace,
  reports progress, can be cancelled, and caches the result in the
  workspace state.
- **Insertion-point selector.** It adds one import line to a file after the
  existing import that shares the most leading path parts with it. With no
  imports it goes after the package line, preceded by an empty line. A
  line already present is not added.
- **Import optimiser.** It sorts a flat list of import lines. It can also
  collapse every package imported more than once into one `<package>.*`
  line.
- **Diagnostic parser and batch resolution.** The parser reads Gradle
  output into unresolved references, grouped per file with one entry per
  keyword. Batch resolution then adds the single candidate for each
  reference, asks the user to choose where there are several, and counts
  what happened.

## Design choices

**Modules.** There is one module per source file:

- `FileImports`, `ImportIndex`, `OptimiseImports`, `TerminalImports`,
  `MultiFileImport` and `Extension` hold the model.
- `Text` holds the string primitives (JavaScript's `trim`, `substring`,
  `indexOf`, `lastIndexOf` and `split`).
- `Lex` holds the default string order used by `Array.prototype.sort`.
- `Records` holds a JavaScript object used as a dictionary: its string
  keys in insertion order, and their values.

**Loops and their specifications.** Every loop of the source is a method
with loop invariants, proved against a function. The functions are then
characterised by lemmas.

**The older copies in `src/extension.ts`.** This file still contains older
copies of the scanner, of the index builder and of `addImportToFile`. The
scanner and index builder are modelled once, with the keyword function as a
parameter, and `Extension.LegacyKeyword` is that older keyword function. The
older `addImportToFile` differs in its search loop, so it has its own
methods, `Extension.LegacyFindInsertionPoint` and
`Extension.LegacyAddImportToFile`.

**Behaviours worth noting.**

- For a Gradle line of the form `...:10:5: Unresolved reference: 'Bar'`, the
  two-character gap after the marker lands on the opening quote, so the
  keyword is `""` (`TerminalImports.ParseExampleColon`).
- The optimiser collapses a package when two or more of its *lines* occur,
  duplicates included (`OptimiseImports.GroupingOutput`).
- The insertion position `insertion_index + 1` can be one past the last
  line. The editor then clamps it to the end of the last line, so the
  inserted text is glued onto that line. For example, the one-line file
  `package a` becomes `package a`, `import x.Y`, `""`, and the older copy
  turns the one-line file `import x.Y` into `import x.Yimport a.b.D`, `""`
  (`FileImports.InsertTextSpec`).

## Model

| member | source | states |
|---|---|---|
| FileImports.ImportStringKeywordSpec | src/fileImports.ts:100-109 | a line with a dot has as keyword what follows its last dot; a line without a dot has one exactly when it starts with `import `, and it is the rest of the line |
| FileImports.HeaderRule | src/fileImports.ts:63-98 | the scanned header holds no body line and no package or annotation line after an import; the line that stops the scan is a body line, or a package/annotation line after an import |
| FileImports.ScanResult | src/fileImports.ts:63-98 | after a scan, each keyword's list is its old list followed by the header's new import lines with that keyword (and only the filtered keyword when a filter is given), in file order and without repetition; a line is in the list iff it was before or is such a header line; the index stays well formed and keeps its keys |
| FileImports.ScanIdempotent | src/fileImports.ts:81-89 | scanning the same file twice leaves the index as one scan does |
| FileImports.CreateThenPush | src/fileImports.ts:81-89 | creating the keyword's list when missing and then pushing the line unless present is adding the line once under the keyword |
| FileImports.IndexFileImports | src/fileImports.ts:63-98 | the scanning loop computes exactly the scan of the file into the given index |
| FileImports.CommonPrefixLengthSpec | src/fileImports.ts:34-41 | the similarity is the length of a common prefix of the two path-part lists that cannot be extended |
| FileImports.CountSimilarity | src/fileImports.ts:31-41 | the inner counting loop returns that common-prefix length |
| FileImports.LastBestSpec | src/fileImports.ts:43-46 | the `>=` update selects a candidate that no candidate beats and every later one falls short of, so ties go to the last; -1 exactly when there is none |
| FileImports.ClosestImportSpec | src/fileImports.ts:22-47 | the closest import is -1 exactly when no trimmed line starts with `import `; otherwise it is an import line of maximal similarity after which every import line has strictly lower similarity |
| FileImports.FirstPackageLineSpec | src/fileImports.ts:24-27 | the package index is -1 exactly when no trimmed line starts with `package `, otherwise the first such line |
| FileImports.ImportIsNotPackage | src/fileImports.ts:24-25 | no trimmed line is both an import line and a package line |
| FileImports.FindInsertionPoint | src/fileImports.ts:18-47 | the search loop returns the first package line and the closest import line |
| FileImports.InsertTextSpec | src/fileImports.ts:52-58 | inserting text at the start of a line is splicing the text, lines joined by newlines, into the file's text at that line's offset; past the last line the offset is the end of the text, as the editor clamps it |
| FileImports.AddImportToFile | src/fileImports.ts:5-61 | reports false and leaves the file unchanged exactly when the line has a keyword and is among the header's imports; otherwise inserts the line and a line break just after the closest import, or, when there is none, a line break, the line and a line break just after the first package line (at the top when there is none), joining the last line when that position is past it |
| FileImports.AlreadyPresentInHeader | src/fileImports.ts:6-14 | the duplicate check, with the keyword-filtered scan of the file, finds the line iff the line has a keyword and the header imports it; the older copy at src/extension.ts:65-72 is the same member with the older keyword function |
| ImportIndex.ScanFilesUnion | src/importIndex.ts:52-72 | scanning a list of files leaves under each keyword the old lines followed by the new header import lines of all files with that keyword, without repetition; a line is there iff it was before or some file's header imports it |
| ImportIndex.FindKotlinKeywordImports | src/importIndex.ts:52-72 | the loop stops after the first file at which cancellation is requested, returning the scan of the files up to and including it; otherwise returns the scan of all files; a progress report follows each file that is not cancelled; the older copy at src/extension.ts:204-224 is the same member with the older keyword function |
| ImportIndex.BuildResultSpec | src/importIndex.ts:23-50 | the build yields an index exactly when no cancellation is requested, and then each keyword's list holds exactly the header import lines of all files with that keyword, each once |
| ImportIndex.BuildIndex | src/importIndex.ts:23-50 | the build yields that result and the progress reports of the scan; the older copy at src/extension.ts:130-157 is the same member with the older keyword function |
| ImportIndex.GetIndex | src/importIndex.ts:12-21 | returns the stored index unless a rebuild is asked or none is stored, else builds one; stores a built index, and keeps the stored one when the build is cancelled; the older copy at src/extension.ts:119-128 is the same member with the older keyword function |
| Lex.LessIrreflexive | src/command/optimiseImportsCommand.ts:26-28 | no string sorts before itself |
| Lex.LessTransitive | src/command/optimiseImportsCommand.ts:26-28 | the sort order is transitive |
| Lex.LessTotal | src/command/optimiseImportsCommand.ts:26-28 | of two different strings exactly one sorts first |
| Lex.Sort | src/command/optimiseImportsCommand.ts:26-28 | the sorted list is ordered and a permutation of the input |
| Lex.SortedPermutationUnique | src/command/optimiseImportsCommand.ts:26-28 | two ordered permutations of the same lines are equal, so the sort's result is determined by the lines alone |
| OptimiseImports.SortImportLines | src/command/optimiseImportsCommand.ts:26-28 | sorts the array in place into the sorted permutation of its old contents |
| OptimiseImports.InsertAt | src/command/optimiseImportsCommand.ts:26-28 | one insertion step extends the sorted prefix by one element and permutes the array |
| OptimiseImports.GroupedIffDot | src/command/optimiseImportsCommand.ts:74-80 | a line is its own package exactly when it has no dot; otherwise its package is the trimmed text before the last dot |
| OptimiseImports.TrimIdempotent | src/command/optimiseImportsCommand.ts:34 | trimming an already trimmed line changes nothing |
| OptimiseImports.WildcardPackage | src/command/optimiseImportsCommand.ts:58-64 | the wildcard line written for a dotted line has a dot and the same package |
| OptimiseImports.WildcardsRegroup | src/command/optimiseImportsCommand.ts:58-64 | every wildcard line keeps its package |
| OptimiseImports.MarkPackage | src/command/optimiseImportsCommand.ts:41-48 | the inner loop marks every recorded line of the package, and finds one iff a recorded line has that package |
| OptimiseImports.GroupImportLine | src/command/optimiseImportsCommand.ts:34-53 | one step of the first loop: an undotted line goes straight to the output; a dotted one marks its package's recorded lines, or is recorded unmarked when there are none |
| OptimiseImports.WriteFoundLines | src/command/optimiseImportsCommand.ts:55-69 | the second loop appends, in key order, the wildcard for each marked line and the line itself for each unmarked one |
| OptimiseImports.GroupingOutput | src/command/optimiseImportsCommand.ts:30-69 | the unsorted output is no longer than the input; it holds every undotted line, the wildcard of every package occurring twice or more, and every line alone in its package; and nothing else |
| OptimiseImports.OnePerPackage | src/command/optimiseImportsCommand.ts:30-69 | in the unsorted output no two dotted lines share a package |
| OptimiseImports.OptimiseImportLines | src/command/optimiseImportsCommand.ts:30-72 | the result is the sorted grouping of the trimmed lines |
| OptimiseImports.OptimisedContents | src/command/optimiseImportsCommand.ts:30-72 | the optimised lines are the undotted input lines, the single-member lines and the wildcards of packages with several lines, and nothing else |
| OptimiseImports.OptimisedDistinct | src/command/optimiseImportsCommand.ts:30-72 | the optimised lines are sorted, no more than the input, and have at most one dotted line per package |
| OptimiseImports.OptimiseImportLinesSpec | src/command/optimiseImportsCommand.ts:30-72 | the optimisation's full contract: sorted, a permutation of the grouping, no longer than the input, the exact membership above, one dotted line per package |
| Text.TrimSpec | src/terminalImports.ts:36 | a trimmed line is a slice of the line that neither starts nor ends with white space, and every character dropped before or after it is white space |
| Text.SubstringSpec | src/terminalImports.ts:46-52 | `substring` with indices in range is the slice between them, with swapped arguments the swapped slice |
| Text.IndexOfFromSpec | src/terminalImports.ts:54 | `indexOf` from a position returns an occurrence, and there is no earlier occurrence at or after the position |
| Text.LastIndexOfSpec | src/fileImports.ts:101 | `lastIndexOf` returns an occurrence with none after it, and -1 exactly when there is none |
| Text.LastIndexOfFromSpec | src/terminalImports.ts:49 | `lastIndexOf` from a position returns an occurrence with none after it up to the position |
| Text.SplitJoin | src/terminalImports.ts:36 | joining the pieces of `split` with the separator gives back the text |
| Text.SplitPieces | src/terminalImports.ts:36 | no piece of `split` holds the separator |
| TerminalImports.DiagnosticsMembers | src/terminalImports.ts:36-44 | a record is among the output's diagnostics iff some output line parses to it |
| TerminalImports.ParseDiagnosticAccepts | src/terminalImports.ts:36-44 | a trimmed line yields a record iff it starts with `e: file://` and contains `Unresolved reference` |
| TerminalImports.ParseWellFormed | src/terminalImports.ts:41-63 | a line `e: file://<path>:<a>:<b><gap>Unresolved reference<sep><keyword>[' ...]` (no colon in a or b, no quote in the keyword) parses to the trimmed keyword, the path and `a:b` |
| TerminalImports.ParseExampleQuoted | src/terminalImports.ts:46-60 | `.../a/Main.kt:3:5 Unresolved reference 'Foo'.` parses to keyword `Foo`, path `/a/Main.kt`, location `3:` |
| TerminalImports.ParseExampleColon | src/terminalImports.ts:46-60 | `.../a/Main.kt:10:5: Unresolved reference: 'Bar'` parses to keyword `""`, path `/a/Main.kt`, location `10:5` |
| TerminalImports.AddMissingImport | src/terminalImports.ts:65-81 | the per-path update creates the path's list, or appends the record unless the list already has its keyword |
| TerminalImports.KeepFirstSpec | src/terminalImports.ts:65-81 | the kept records have distinct keywords, each the first record with its keyword, and every keyword of the input is kept |
| TerminalImports.AddAllCollects | src/terminalImports.ts:34-82 | after all lines, each path's list is the first record per keyword of that path's records, and the keys are the paths in order of first appearance (`PathOrder`) |
| TerminalImports.ParseGradleOutputMissingImports | src/terminalImports.ts:33-85 | the parsing loop computes the grouping of the output's diagnostics |
| TerminalImports.MissingSpec | src/terminalImports.ts:33-85 | the keys are the diagnostics' paths in order of first appearance, and each path's list is the first diagnostic of each keyword for that path, in the order of the output (`KeepFirst` of the path's diagnostics) |
| MultiFileImport.VisitFile | src/multiFileImport.ts:15-45 | the per-file loop counts the unindexed references, queues the ambiguous ones, requests the single candidates, and opens the file once when it has one |
| MultiFileImport.CollectReferences | src/multiFileImport.ts:14-46 | the first phase computes the tally over all files in key order, and opens each file that has a single-candidate reference |
| MultiFileImport.VisitAllSpec | src/multiFileImport.ts:18-45 | the first phase queues exactly the ambiguous references, requests exactly the single candidates, and counts the unindexed ones |
| MultiFileImport.AmbiguousEntries | src/multiFileImport.ts:25-31 | each queued entry has more than one candidate, those are the index's lines for its keyword, and it comes from a reference |
| MultiFileImport.SinglesEntries | src/multiFileImport.ts:34-44 | each requested insertion is the only candidate of some reference, in that reference's file |
| MultiFileImport.PhaseOneSpec | src/multiFileImport.ts:14-46 | the first phase's queue, requests and unindexed count over all files |
| MultiFileImport.VisitAllCounts | src/multiFileImport.ts:14-46 | over any list of references, added counts the single candidates whose insertion reports true, existing the others, and unindexed, added, existing and queued add up to the number of references |
| MultiFileImport.PhaseOneCounts | src/multiFileImport.ts:14-46 | added counts the insertions that report true and existing the others; unindexed, added, existing and queued add up to the number of references |
| MultiFileImport.FirstCancel | src/multiFileImport.ts:72-81 | the number of queued entries resolved before the first dismissed quick pick: all before it have a choice, and the one at it has none |
| MultiFileImport.Picked | src/multiFileImport.ts:72-85 | each resolved entry asks for the chosen line in the entry's file |
| MultiFileImport.PickedIndexed | src/multiFileImport.ts:72-85 | when each quick pick returns one of the lines it offers, each chosen insertion is a candidate of a queued entry, in that entry's file |
| MultiFileImport.ResolveQueue | src/multiFileImport.ts:50-86 | the second loop adds one per chosen line, stops at the first dismissal, counts the rest of the queue as cancelled, and asks for the chosen insertions |
| MultiFileImport.Decimal | src/multiFileImport.ts:88 | a count's decimal form is a non-empty digit string, one digit exactly below ten |
| MultiFileImport.DecimalValue | src/multiFileImport.ts:88 | the decimal form of a count reads back as that count, and has no leading zero unless the count is zero |
| MultiFileImport.DecimalInjective | src/multiFileImport.ts:88 | different counts have different decimal forms |
| MultiFileImport.SummaryMessageInjective | src/multiFileImport.ts:88 | the summary message determines the added, unindexed and cancelled counts |
| MultiFileImport.AddImportsToFiles | src/multiFileImport.ts:6-89 | the whole operation computes the outcome of the two phases and the two messages |
| MultiFileImport.RunSpec | src/multiFileImport.ts:6-89 | the outcome's counts and requests in terms of the references: single candidates plus the chosen lines, and unindexed, added, existing and cancelled add up to the number of references |
| MultiFileImport.RequestsIndexed | src/multiFileImport.ts:34-85 | when each quick pick returns one of the lines it offers, every insertion the operation asks for is an indexed candidate of the keyword of some reference |
| MultiFileImport.OpensOnce | src/multiFileImport.ts:34-36 | the first phase opens each file at most once, and exactly the files with a single-candidate reference |
| Extension.LegacyKeywordSpec | src/extension.ts:196-202 | the older keyword function yields a keyword exactly for lines with a dot, and agrees there with the newer one; without a dot they differ exactly on lines starting with `import ` |
| Extension.ReadFileImports | src/extension.ts:159-194 | the older scanning loop computes the scan with the older keyword function |
| Extension.BareImportNeverIndexed | src/extension.ts:172-175 | the older scanner never files an import line without a dot, which the newer one files under the rest of the line |
| Extension.LastImportLineSpec | src/extension.ts:80-104 | the last import line: -1 exactly when there is no import line, otherwise an import line with none after it |
| Extension.ClosestNotAfterLast | src/extension.ts:101-103 | the closest import never comes after the last import line, and both are -1 together |
| Extension.LegacyFindInsertionPoint | src/extension.ts:76-104 | the older search loop returns the first package line and the last import line |
| Extension.LegacyAddImportToFile | src/extension.ts:64-117 | the older copy reports false and leaves the file unchanged exactly when the line has a dot and the header imports it; otherwise it inserts the line and a line break after the last import line, or after the package line with no empty line, joining the last line when that position is past it |
| Extension.LegacyInsertionExample | src/extension.ts:101-103 | for `import a.b.C`, `import x.Y` and new line `import a.b.D`, the closest import is line 0 but the older copy picks line 1 |

## Left out

- Editor I/O is not modelled: opening documents, `showTextDocument`, the asynchronous `editor.edit`, workspace file search, and the workspace-state store's persistence. A file is a sequence of lines, and the workspace is a sequence of files.
- FileImports.AddImportToFile and Extension.LegacyAddImportToFile: the editor's clamping of a position past the last line is modelled only for the positions these two compute (one past a line of the file), by `FileImports.InsertText`.
- `readTerminalImports` and `getTerminalOutput` (src/terminalImports.ts:9-30) are not modelled. They capture terminal text through the clipboard; the model starts from the captured text.
- The `optimiseImportsCommand` driver (src/command/optimiseImportsCommand.ts:5-24) is not modelled. It calls `clearFileImports`, which is not part of this model, and a three-argument `addImportToFile`; only `sortImportLines`, `optimiseImportLines` and `getImportLinePackage` are modelled.
- The second phase's reveal and decoration are not modelled (src/multiFileImport.ts:53-70), including the `parseInt` of the location. They affect only the display.
- MultiFileImport.AddImportsToFiles: file contents are not modelled. Whether an insertion reports true is an input (`inserted`), and each quick-pick answer is an input (`pick`). The insertions appear as the requests issued. The true/false answers of the second phase's insertions are ignored, as in the source.
- ImportIndex.FindKotlinKeywordImports: progress is modelled as the `(current, total)` pairs passed to `onProgress`. The floating-point `increment: 100 / total` is not modelled.
- ImportIndex.GetIndex: the index is a value returned and stored, not an object shared by reference. The stored copy and the returned one cannot diverge.
- Lex.Less: the order compares `char` code points. JavaScript's default sort compares UTF-16 code units, which differ only outside the Basic Multilingual Plane.
- Records.Record: keys keep insertion order, and only stored keys are found. JavaScript puts integer-like keys (such as a keyword `1`) first, which the model does not do.
- Records.Record, FileImports.IndexFileImports, FileImports.AddImportToFile: a keyword that names an inherited `Object.prototype` property (`toString`, `valueOf`, `constructor`, `hasOwnProperty`, `__proto__`, ...) finds a function on the prototype instead of `undefined`. For example, `import java.util.Arrays.toString` has keyword `toString`. In the source, the scan then throws at src/fileImports.ts:87 (`includes` is not a function), and the rest of that file is not indexed; `addImportToFile` throws at src/fileImports.ts:11-12 and inserts nothing. The model treats such keywords as ordinary keys: the line is filed and inserted.
- FileImports.AlreadyPresentInHeader: when the new line has no keyword, the source's non-null assertion lets `null` through, and the scan runs unfiltered. The lookup is then under the property `"null"`, and the model looks it up under `PropertyKey(None) == "null"`.

## Findings

| source | as written | input that shows it | evidently intended | confidence | as-written member | corrected member |
|---|---|---|---|---|---|---|
| src/extension.ts:101-103 | the older `addImportToFile` never updates `closest_import_similarity` (set to 0 at line 78), so every import line passes `similarity >= 0` and the new line always goes after the last import line | file `import a.b.C`, `import x.Y`; new line `import a.b.D`: it goes after line 1, though line 0 shares two path parts and line 1 none | insert after the import line of greatest similarity, ties to the last, as the newer copy in src/fileImports.ts:43-46 does | high (not executed) | Extension.LegacyInsertionExample | FileImports.ClosestImportSpec |
