# deadcode, modelled in Dafny

deadcode reports dead code in a Go module. It works in three passes:

1. **Indexing.** It walks the module's directories. For every non-test package it registers each
   exported top-level name (functions, methods, types, vars, consts) as "unused" in a registry keyed
   by import path.
2. **Tracing.** Starting from the module's root package, it walks every file's syntax tree:
   - every registered import marks its package "imported";
   - a qualified use `X.Sel` marks `Sel` used in the package bound to `X`;
   - a bare identifier that is not being declared marks its name used in every dot-imported
     package and, optionally, in the package itself.

   It then follows the imports, tracing each package at most once.
3. **Reporting.** It reports every package nobody imports. For the imported packages, it reports
   every identifier still flagged unused.

The repository contains the tool twice, and the model covers both copies:
- **The split version:** `state/state.go` (the registry), `discover/discover.go` (the indexer) and
  `usage/usage.go` (the tracer).
- **The older single-file copy in `main.go`:** the same logic over two package-level globals. It
  differs in one write: a qualified use sets `identifiers[symbol] = true` without checking that
  `symbol` is a key, so it can create a key that was never declared.

The project has these modules:

| module | file | contents |
|---|---|---|
| `Common` | `common.dfy` | `Option`, the elements of a sequence, duplicate-freedom |
| `GoStrings` | `strings.dfy` | `strings.HasSuffix` and `strings.Trim` with a one-character cutset |
| `Syntax` | `syntax.dfy` | the Go syntax tree reduced to the node kinds the tool distinguishes; `ast.Inspect` |
| `State` | `state.dfy` | the registry as a class `State` over `map<string, PackageState>` |
| `Tracing` | `tracing.dfy` | the tracer's rules as values, and the bookkeeping for the recursion |
| `Discover` | `discover.dfy` | the indexer |
| `Usage` | `usage.dfy` | the split tracer, as a class `Usage` |
| `MainProgram` | `mainprogram.dfy` | the single-file copy, as a class `Globals`, and what `analyzeResults` reports |

In `Syntax`:
- Every node carries an id. Dafny's value equality therefore stands for Go's comparison of node
  addresses, as long as distinct nodes carry distinct ids (see "## Left out"). The skip rules
  compare nodes, not spellings.
- `ast.Inspect(n, f)` with a visitor that always returns true is the sequence of calls it makes:
  `f(n)`, the calls for each child in turn, then `f(nil)`.

In `Tracing`:
- `Effect` is the set of writes tracing makes: which packages get marked imported, and which
  (package, identifier) flags get set. `Apply` says what those writes do to the registry.
- A flag `addsKeys` selects the write rule: `false` for `usage/usage.go`, `true` for `main.go`.
- The tracers' methods are proved to produce exactly `Apply` of the writes of the files they traced.
  `Apply`'s properties are proved as lemmas.
- The tracers keep a ghost log of the files they trace and of the packages they enter. Their
  contracts say which files were traced: exactly the files they were given, plus every file of the
  registered directory of each package they enter. A package is entered exactly when it is
  registered and not yet visited.
- Every package the tracers newly mark visited is one that a file they traced recurses into: an
  import it binds, or a path it dot-imports (`Bounded`). A loop over the bound imports or the
  dot-imports may also mark its own paths.
- The logs carry clocks: `tracedAt[i]` is how many packages had been entered when file i was
  traced, and `enteredAt[k]` is how many files had been traced when package k was entered
  (`Clocked`). With them the contracts also state the order (`Ordered`). Every package entered is
  a target of a file traced before it. Every file traced is one of the given files or is owed for
  a package entered before it.
- `Stretch` bundles the five guarantees of one stretch of tracing: the writes (`Traces`), closure
  under imports (`Closed`), the files traced (`Logged`), the packages visited (`Bounded`) and the
  order (`Ordered`). Every tracing method ensures `Stretch` from its start to its end.
- From the order, `EnteredWithinClosure` proves that the trace enters only what its own files
  reach. Take any set of packages that holds the targets of the given files and is closed under
  the imports of the files owed for its packages. Then every package entered lies in that set.
  So a trace from the root enters exactly the packages reachable from the root's files. Two
  packages that import only each other, and that no traced file names, are never entered.

The model follows the code exactly where it is unusual:
- The root package of a trace is never added to `visitedPackages`. A file that imports the root
  package sends the tracer into it once more. The model keeps this: `Traces` counts as entered
  only the packages newly marked visited.
- `isExported` tests the first byte of the name, so a name that starts with a non-ASCII capital
  letter is not exported.
- `NewIdentifier` resets an identifier's flag to unused when it is registered again.
- The errors of subdirectories are dropped; only a directory's own error is returned.

## Model

| member | source | states |
|---|---|---|
| `State.IsExported` | state/state.go:93-98 | a name is exported exactly when it is non-empty and starts with an ASCII capital; `main.go`'s `isExported` (main.go:318-323) is the same rule and the model uses this one for both |
| `State.ExportedByFirstByte` | state/state.go:93-98 | IsExported agrees with testing the first UTF-8 byte of the name against 'A'..'Z', so a non-ASCII capital (whose lead byte is 0xC0 or more) is not exported |
| `State.WithImported` | state/state.go:22-24 | MarkImported sets `imported` and changes no other field |
| `State.MarkImportedIdempotent` | state/state.go:22-24 | marking a package imported twice is marking it once |
| `State.WithIdentifierUsed` | state/state.go:38-42 | MarkIdentifierUsed keeps the key set and every other field; a flag is true afterwards exactly when it was true or it is the marked identifier, and an absent identifier changes nothing |
| `State.RegisterSpec` | state/state.go:73-91 | NewIdentifier with an unexported name changes nothing; with an exported one, the key set gains pkgPath only, and the name is a key flagged unused (reset if it was used). A new record has the given name and directory and is not imported; an existing record keeps its name, directory, imported flag and other flags. Every other record is unchanged |
| `State.UnusedIdentifiers` | state/state.go:26-36 | returns each identifier whose flag is false, exactly once, in unspecified order |
| `State.State.constructor` | state/state.go:48-52 | a new State has an empty registry |
| `State.State.GetPackageState` | state/state.go:58-61 | the lookup finds a record exactly when the path is registered, and returns that record |
| `State.State.GetUnusedPackages` | state/state.go:63-71 | returns each registered path whose package is not imported, exactly once |
| `State.State.NewIdentifier` | state/state.go:73-91 | the registry afterwards is `Register` of the old one (see RegisterSpec) |
| `State.State.MarkImported` | state/state.go:22-24 | only the record at the given path changes, to WithImported of itself |
| `State.State.MarkIdentifierUsed` | state/state.go:38-42 | only the record at the given path changes, to WithIdentifierUsed of itself |
| `GoStrings.TrimLeftSpec` | usage/usage.go:52 | TrimLeft removes exactly the leading run of the cut character |
| `GoStrings.TrimRightSpec` | usage/usage.go:52 | TrimRight removes exactly the trailing run of the cut character |
| `GoStrings.TrimSpec` | usage/usage.go:52 | the trimmed import path is no longer than the literal, and neither starts nor ends with a quote |
| `GoStrings.TrimQuoted` | usage/usage.go:52 | trimming the quotes off `"p"` gives `p` back, whenever p does not itself start or end with a quote |
| `GoStrings.TrimUnquoted` | usage/usage.go:52 | a string with no quote at either end is left as it is |
| `Syntax.Inspect` | usage/usage.go:151-157 | the visitor is called first on the node itself and last with nil |
| `Syntax.InspectDisciplined` | usage/usage.go:158-164 | walking a subtree never pops an empty stack, enters every node with its own parent on top, and leaves the stack as it found it |
| `Syntax.FileWalkDisciplined` | usage/usage.go:158-164 | over a whole file the stack starts and ends empty, and every identifier is visited with its parent on top |
| `Tracing.ApplyLayout` | usage/usage.go:51-148 | tracing never adds or removes a package record and never changes a package's name or directory |
| `Tracing.ApplySpec` | usage/usage.go:51-148 | per record: `imported` is set exactly for the marked packages; identifier keys grow only by the unchecked writes; a flag is true afterwards exactly when it was true before or some write targets it |
| `Tracing.ApplyMonotone` | usage/usage.go:51-148 | tracing only sets flags to true; with checked writes it never creates or removes an identifier key |
| `Tracing.ApplyJoin` | usage/usage.go:168-185 | two batches of writes in a row equal one batch of their union, so the writes of recursive calls compose |
| `Tracing.ApplyIdempotent` | usage/usage.go:45-67 | doing the same writes twice equals doing them once, so tracing a file again changes nothing |
| `Tracing.ReportsAgree` | main.go:105-114 | the keys that main.go's unchecked write creates are flagged used, so both write rules leave the same imported flags and the same set of unused identifiers |
| `Tracing.BindName` | usage/usage.go:56-65 | an unregistered path binds nothing; without an alias the binding is the package's declared name; `_` and `.` bind no name; any other alias binds itself |
| `Tracing.ImportedPathsSpec` | usage/usage.go:51-55 | a package is marked imported exactly when it is registered and some import of the file has its quote-trimmed path, `_` imports included |
| `Tracing.BindingsSpec` | usage/usage.go:51-67 | a name is bound in importMap exactly when some import binds it, and it maps to the path of the last import that binds it; unqualifiedImports holds exactly the registered `.` imports; every bound or dot-imported path is marked imported |
| `Tracing.BindingsLayout` | usage/usage.go:51-67 | the classification depends only on which paths are registered and under which names, so earlier writes of the trace do not change it |
| `Tracing.SelectorUses` | usage/usage.go:72-83 | `X.Sel` with X a bare identifier bound in importMap marks Sel in X's package, and nothing else; any other node marks nothing by this rule |
| `Tracing.IdentUses` | usage/usage.go:133-148 | a used bare identifier marks its name exactly in the dot-imported packages and, when recordSamePackageUse is set, in the traced package, never as a qualified write |
| `Tracing.TreeUses` | usage/usage.go:69-166 | each write the walk of a tree makes goes to a package the file can see: a bound import for a qualified use, a dot-import or the traced package otherwise |
| `Tracing.FileWalk` | usage/usage.go:151-166 | the stack-based visit of ast.Inspect's calls makes exactly the writes of the tree read with each node's real parent |
| `Tracing.TargetsImported` | usage/usage.go:168-185 | every package traceFile recurses into is registered and was marked imported by the file |
| `Usage.SkipIdent` | usage/usage.go:86-131 | an identifier is skipped exactly when its parent is a selector, or it is itself the declared name of a type spec or function, or one of the names of a field or value spec, or on the left of `:=`; all compared by node identity |
| `Usage.Usage.constructor` | usage/usage.go:18-24 | the tracer starts over the given registry with nothing visited |
| `Usage.Usage.RecordUsage` | usage/usage.go:26-43 | fails exactly on a parse error, and then changes nothing. Otherwise it traces every file of every non-test package of the directory. The files traced are exactly those plus every file of each package entered. The registry ends as Apply of the writes of every file traced. The packages entered are exactly the newly visited registered ones, none twice. Every file traced had all its imports visited. Every package newly visited is one that a traced file recurses into. Every package entered is a target of a file traced before it, and every file traced is one of the directory's or owed for a package entered before it (`Stretch`) |
| `Usage.Usage.TraceFiles` | usage/usage.go:35-38 | traces every file of the package; the files traced are exactly those plus the files of the packages entered, with the same registry and visiting guarantees. Every package newly visited is one that a traced file recurses into, and entries and files come in causal order (`Stretch`) |
| `Usage.Usage.TraceFile` | usage/usage.go:45-186 | the file's own writes and log entry come first, then the recursion; the files traced are exactly this file plus the files of the packages its loops enter. Every package newly visited is one that a traced file recurses into. Every package entered is a target of a file traced before it, and every later file is owed for a package entered before it (`Stretch`) |
| `Usage.Usage.BindImports` | usage/usage.go:51-67 | importMap and unqualifiedImports are the classification of the file's imports, and the only writes mark the registered imports imported |
| `Usage.Usage.Walk` | usage/usage.go:69-166 | the registry afterwards is Apply of the tree's uses |
| `Usage.Usage.VisitAll` | usage/usage.go:70-166 | for any call sequence that keeps the stack discipline, the registry afterwards is Apply of the uses those calls record |
| `Usage.Usage.Visit` | usage/usage.go:70-165 | one visitor call pushes on a node and pops on nil, and makes exactly that node's writes with the stack top as parent |
| `Usage.Usage.MarkQualified` | usage/usage.go:72-83 | the selector rule, with the checked write of MarkIdentifierUsed |
| `Usage.Usage.MarkUnqualified` | usage/usage.go:133-148 | the bare-identifier rule, with checked writes only |
| `Usage.Usage.MarkDots` | usage/usage.go:137-142 | marks the symbol in each dot-imported package that is registered |
| `Usage.Usage.DescendImports` | usage/usage.go:168-176 | every path bound in importMap ends up visited. A package is entered exactly when it is registered and newly visited, never twice. The files traced are exactly the files of the entered packages' directories. The registry is Apply of their writes, with the same set of records. Every package newly visited is bound in importMap or is one that a traced file recurses into. Every package entered is bound in importMap or a target of a file traced before it (`Stretch`) |
| `Usage.Usage.DescendDots` | usage/usage.go:177-185 | the same, for every dot-imported path; every package newly visited, and every package entered, is dot-imported or a target of a traced file, traced before it in the case of an entry |
| `Usage.Usage.Descend` | usage/usage.go:169-175 | the path ends up visited. If it was unvisited and registered, every file of its directory is traced. All files traced are those of the packages entered, and the set of records is unchanged. Every package newly visited is the path itself or one that a traced file recurses into. The first package entered is the path itself, and every file traced is owed for a package entered before it (`Stretch`) |
| `Usage.ClosedUnderImports` | usage/usage.go:168-185 | the files traced between two moments are closed under imports: every package a traced file recurses into was visited before, or it is registered and every file of its directory was traced too |
| `Tracing.LogTargetsSpec` | usage/usage.go:168-185 | a package is among the targets of a log of traced files exactly when some file of the log recurses into it |
| `Tracing.LogTargetsConcat` | usage/usage.go:168-185 | the targets of two logs in a row are the union of the targets of each |
| `Tracing.BoundedJoin` | usage/usage.go:168-185 | two stretches of tracing in a row, each visiting only its extra paths and its traced files' targets, together visit only the union of the two |
| `Tracing.ClockedTrace` | usage/usage.go:37 | logging a traced file, stamped with the number of packages entered so far, keeps the two clocks interleaved |
| `Tracing.ClockedEnter` | usage/usage.go:171-173 | logging an entered package, stamped with the number of files traced so far, keeps the two clocks interleaved |
| `Usage.StretchNone` | usage/usage.go:29-31 | a stretch in which nothing is traced, entered or visited meets all five guarantees, owing no files |
| `Usage.SkipStretch` | usage/usage.go:171-172 | marking an unregistered path visited, and nothing else, is a stretch that visits only that path and enters nothing |
| `Usage.Compose` | usage/usage.go:33-40 | two stretches in a row form one stretch: the files owed add up, and what each may visit and enter bounds what the whole visits and enters |
| `Usage.RecordStep` | usage/usage.go:33-40 | one iteration of the package loop: a test package adds nothing, any other adds exactly its files to the files owed |
| `Usage.OwnFileTraced` | usage/usage.go:45-166 | classifying the imports and walking the tree, then logging the file, writes exactly that file's writes and keeps the set of records |
| `Usage.TraceFileAll` | usage/usage.go:45-186 | the own-file step followed by the two recursion loops, bounded by the file's bound and dot-imported paths, is one stretch owing exactly this file, with the file logged first |
| `Usage.EnterAndTrace` | usage/usage.go:169-174 | entering a registered, unvisited package and then tracing its directory is a stretch owing nothing extra, visiting and entering first that package, and tracing every file of its directory |
| `Usage.OrderedTrans` | usage/usage.go:168-185 | two stretches in causal order, one after the other, form one stretch in causal order |
| `Usage.OrderedAfterOwnFile` | usage/usage.go:45-186 | traceFile logs its file before its loops run, so every package its loops enter is a target of a file traced before it |
| `Usage.OrderedAfterEnter` | usage/usage.go:169-174 | the recursion enters the package before tracing its directory, so every file traced afterwards is owed for a package entered before it |
| `Usage.LogTargetsWhich` | usage/usage.go:168-185 | a target of a log of traced files is a target of one particular file of the log, whose index it returns |
| `Usage.EnteredFilesWhich` | usage/usage.go:169-174 | a file owed for a list of entered packages is owed for one particular package of the list, whose index it returns |
| `Usage.EnteredWithinClosure` | usage/usage.go:168-185 | the trace enters only what its own files reach: every package entered, and every target of every file traced, lies in any set that holds the targets of the given files and is closed under the imports of the files owed for its packages |
| `Usage.TraceFileBounded` | usage/usage.go:45-186 | traceFile, which logs its own file and then runs the two recursion loops over that file's bound and dot-imported paths, visits only the targets of the files it traced |
| `Discover.SpecNamesComplete` | discover/discover.go:54-66 | the names a GenDecl passes on are exactly its TypeSpec names and every ValueSpec name; import specs pass on nothing |
| `Discover.DeclNamesComplete` | discover/discover.go:47-68 | the names analyzeFile passes on are exactly the FuncDecl names (methods included) and the names of the specs above; other declarations pass on nothing |
| `Discover.RegisterSet` | state/state.go:73-91 | the closed form of registering a set of names: nothing happens unless one of them is exported. Otherwise the package's record gains every exported name flagged unused and keeps its other flags. A missing record is created with the given name and directory and is not imported. Every other record stays as it was |
| `Discover.RegisterAllIsSet` | discover/discover.go:46-69 | registering a sequence of names, in any order and with repeats, gives the closed form for its set of names |
| `Discover.AnalyzeFileRegisters` | discover/discover.go:46-69 | after analyzeFile, pkgPath has a record exactly when it had one or the file declares an exported name. Its new keys are exactly those names, flagged unused. No other record changes |
| `Discover.AnalyzeFile` | discover/discover.go:46-69 | the registry afterwards is NewIdentifier applied to the declared names in order |
| `Discover.AnalyzeSpecs` | discover/discover.go:54-66 | the same, for the specs of one GenDecl |
| `Discover.AnalyzePackage` | discover/discover.go:40-44 | the same, for every file of the package |
| `Discover.TestPackagesIgnored` | discover/discover.go:20-24 | analysing a directory's packages gives the same registry as analysing only its non-test packages |
| `Discover.DiscoverPackages` | discover/discover.go:13-38 | the registry afterwards is the discovery of the whole tree. It fails exactly when the directory itself fails to parse or list |
| `Discover.AnalyzePackagesPaired` | discover/discover.go:20-24 | analysing one directory creates records only at its import path, pointing at its directory |
| `Discover.DiscoveredPaired` | discover/discover.go:31-34 | discovery keeps every existing record's name and directory. A record it creates sits at importPath + X and points at directory fsPath + X, for the same suffix X |
| `Discover.DiscoverEntriesPaired` | discover/discover.go:31-35 | the same pairing over the entries of one directory, each subdirectory extending both paths by "/" + its name |
| `MainProgram.ReportsIndependentOfForcedKeys` | main.go:43-55 | the keys main.go's unchecked write creates never change what analyzeResults prints: both write rules lead to the same report lines |
| `MainProgram.TargetsRegistered` | main.go:201-214 | every path traceFile recurses into is registered, so `packages[...]` in the recursion never finds a missing record |
| `MainProgram.Globals.constructor` | main.go:57 | both globals start empty |
| `MainProgram.Globals.RegisterIdentifier` | main.go:298-316 | registerIdentifier is exactly NewIdentifier (see RegisterSpec) on the global map |
| `MainProgram.Globals.AnalyzeFile` | main.go:264-287 | the registry afterwards is registerIdentifier applied to the declared names in order |
| `MainProgram.Globals.AnalyzeSpecs` | main.go:272-284 | the same, for the specs of one GenDecl |
| `MainProgram.Globals.AnalyzePackage` | main.go:258-262 | the same, for every file of the package |
| `MainProgram.Globals.FindExportedIdentifiers` | main.go:231-256 | the same registry as DiscoverPackages on the same tree, and the same error rule |
| `MainProgram.Globals.TraceUsage` | main.go:59-76 | as RecordUsage, with the unchecked write rule: fails exactly on a parse error and then changes nothing; otherwise the files traced are exactly the directory's non-test files plus every file of each package entered. Every package newly visited is one that a traced file recurses into, and entries and files come in causal order (`Stretch`) |
| `MainProgram.Globals.TraceFiles` | main.go:68-71 | as TraceFiles of the split version: the files traced are exactly the given ones plus those of the packages entered. Every package newly visited is one that a traced file recurses into, and entries and files come in causal order (`Stretch`) |
| `MainProgram.Globals.TraceFile` | main.go:78-215 | as TraceFile of the split version: the files traced are exactly this file plus those of the packages its loops enter. Every package newly visited is one that a traced file recurses into. Every package entered is a target of a file traced before it (`Stretch`) |
| `MainProgram.Globals.BindImports` | main.go:84-100 | the same classification as the split version; every registered import sets `imported` |
| `MainProgram.Globals.Walk` | main.go:102-199 | the registry afterwards is Apply of the tree's uses, with the unchecked write rule |
| `MainProgram.Globals.VisitAll` | main.go:103-199 | as VisitAll of the split version, with the unchecked write rule |
| `MainProgram.Globals.Visit` | main.go:103-198 | as Visit of the split version, with the unchecked write rule |
| `MainProgram.Globals.MarkQualified` | main.go:105-114 | a qualified use sets the flag in the bound package whether or not the symbol is a key, adding it when missing |
| `MainProgram.Globals.MarkUnqualified` | main.go:166-181 | dot-import and same-package marking only set keys that already exist |
| `MainProgram.Globals.MarkDots` | main.go:168-173 | marks the symbol in every dot-imported package wherever it is a key |
| `MainProgram.Globals.MarkIfKey` | main.go:176-178 | sets the flag of the symbol only if it is a key of the package |
| `MainProgram.Globals.DescendImports` | main.go:201-207 | every path bound in importMap ends up visited. A package is entered exactly when it is registered and newly visited, never twice. The files traced are exactly the files of the entered packages' directories, and the set of records is unchanged. Every package newly visited is bound in importMap or is one that a traced file recurses into. Every package entered is bound in importMap or a target of a file traced before it (`Stretch`) |
| `MainProgram.Globals.DescendDots` | main.go:208-214 | the same, for every dot-imported path; every package newly visited, and every package entered, is dot-imported or a target of a traced file, traced before it in the case of an entry |
| `MainProgram.Globals.Descend` | main.go:202-205 | the path ends up visited. If it was unvisited, every file of its directory is traced. All files traced are those of the packages entered, and the set of registered packages is unchanged. Every package newly visited is the path itself or one that a traced file recurses into. The first package entered is the path itself, and every file traced is owed for a package entered before it (`Stretch`) |
| `MainProgram.Globals.AnalyzeResults` | main.go:43-55 | the report lines, each once: every package not imported and, for imported packages only, every identifier whose flag is false |

## Left out

- parser.ParseDir and the construction of syntax trees are foreign library calls. The model takes
  their results as input: `ParsedDirs` maps a directory to its parsed packages, a directory missing
  from it being a parse error, and `DirTree` is an abstract directory tree.
- os.ReadDir is file-system I/O. A directory's listing and whether it can be read are part of
  `DirTree`.
- getModuleName and the go.mod parsing with modfile are not part of this model. The module name is
  a parameter that the tracers pass along unchanged, as the code does.
- init, the flag parsing, main, and the log and fmt printing are I/O. `AnalyzeResults` returns the
  lines that would be printed instead of printing them.
- Go map iteration order is unspecified. `Package.files`, the parsed package lists and the loops
  over `importMap` and the registry take the order as given. They pick keys with `:|`, and every
  result is stated as a set or as a duplicate-free sequence.
- The internals of ast.Inspect are a library. The model uses the order of calls it documents,
  generated from the tree.
- Comment groups are not represented, since they hold no identifiers. Every other node kind the
  tool does not look at is an `Other` node with its children.
- The getters Name, FsPath and IsImported, and State.Packages, are field reads. The model reads the
  fields of the `PackageState` datatype and the `packages` field directly.
- Node identity: Go compares syntax nodes by address, and the model compares them by value, ids
  included. This agrees as long as no two distinct nodes of a file share an id. The model assumes
  this of its input and does not state it as a predicate.
- Discovery and tracing each call parser.ParseDir themselves. The model likewise gives them separate
  inputs, `DirTree.parsed` and `ParsedDirs`, and does not require the two to agree. A directory that
  changed between the two calls can therefore parse differently in each phase.
- Go strings are bytes and Dafny strings are characters. Only `isExported` depends on the
  difference: it reads the first byte. `ExportedByFirstByte` relates the model's rule to that byte
  test.
- Go's `*PackageState` references are not modelled. A record is a value in the map and is written
  back under its key. Each record is reachable only through its own key, so this changes nothing
  observable.
- Several Go loops are separate methods in the model, each with its own contract:
  - `Usage.TraceFiles` and `Globals.TraceFiles`: the loop over a package's files;
  - `AnalyzeSpecs`: the loop over a GenDecl's specs;
  - `DescendImports`, `DescendDots` and `Descend`: the recursion loops;
  - `VisitAll`, `Visit`, `MarkQualified`, `MarkUnqualified`, `MarkDots` and `MarkIfKey`: the
    visitor passed to ast.Inspect and its parts.
