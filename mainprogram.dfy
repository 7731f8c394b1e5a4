/** The older single-file copy of the tool in main.go: the same indexer and tracer over two
    package-level globals, `packages` and `visitedPackages`, and the selection of what
    analyzeResults reports. It differs from the split version in one write: a qualified use
    `X.symbol` sets `identifiers[symbol] = true` without looking the key up first. */
module MainProgram {

  import opened Common
  import opened GoStrings
  import opened Syntax
  import opened State
  import opened Tracing
  import opened Discover
  import opened Usage

  /** `var samePackageOk bool = true`: never reassigned. */
  const SamePackageOk := true

  /** One line analyzeResults prints. */
  datatype Report = PackageNotImported(pkg: string) | IdentifierUnused(pkg: string, identifier: string)

  /** What analyzeResults prints for a registry: every package nobody imports, and, for the
      imported packages only, every identifier whose flag is false. */
  predicate Reported(reg: Registry, r: Report)
  {
    match r
    case PackageNotImported(p) => p in reg && !reg[p].imported
    case IdentifierUnused(p, s) => p in reg && reg[p].imported && s in reg[p].identifiers && !reg[p].identifiers[s]
  }

  /** The keys main.go creates with its unchecked write are all flagged used, so both tracers lead
      analyzeResults to print the same lines. */
  lemma ReportsIndependentOfForcedKeys(reg: Registry, e: Effect, r: Report)
    ensures Reported(Apply(reg, e, true), r) <==> Reported(Apply(reg, e, false), r)
  {
    ReportsAgree(reg, e);
    ApplyLayout(reg, e, true);
    ApplyLayout(reg, e, false);
    if r.IdentifierUnused? && r.pkg in reg {
      var a := Apply(reg, e, true);
      var b := Apply(reg, e, false);
      var p := r.pkg;
      assert (r.identifier in a[p].identifiers && !a[p].identifiers[r.identifier]) <==>
             r.identifier in (set s | s in a[p].identifiers && !a[p].identifiers[s]);
      assert (r.identifier in b[p].identifiers && !b[p].identifiers[r.identifier]) <==>
             r.identifier in (set s | s in b[p].identifiers && !b[p].identifiers[s]);
    }
  }

  /** Every path traceFile binds or dot-imports is registered. */
  lemma TargetsRegistered(reg: Registry, file: FileNode)
    ensures var b := Bindings(reg, FileImports(file.decls));
      b.importMap.Values <= reg.Keys && Elems(b.dots) <= reg.Keys
  {
    TargetsImported(reg, file, "", SamePackageOk);
  }

  /** A write that leaves a record as it is leaves the registry as it is. */
  lemma UpdateSame(reg: Registry, p: string)
    requires p in reg
    ensures reg[p := reg[p]] == reg
  {
  }

  /** The globals `packages` and `visitedPackages`. `traced` and `entered` are logs kept for the
      proofs: every traceFile call and every package the recursion entered, in order; `tracedAt`
      and `enteredAt` say when each entry was made, counted in entries of the other log. */
  class Globals {
    var packages: Registry
    var visitedPackages: set<string>
    ghost var traced: seq<Traced>
    ghost var entered: seq<string>
    ghost var tracedAt: seq<nat>
    ghost var enteredAt: seq<nat>

    /** No package is entered twice, every entered package is marked visited, and the clocks
        interleave. */
    ghost predicate Valid()
      reads this
    {
      && Distinct(entered) && Elems(entered) <= visitedPackages
      && |tracedAt| == |traced| && |enteredAt| == |entered| && Clocked(tracedAt, enteredAt)
    }

    ghost function Snap(): (r: Snapshot)
      reads this
    {
      Snapshot(packages, traced, entered, visitedPackages, tracedAt, enteredAt)
    }

    /** The initial values of both globals. */
    constructor ()
      ensures packages == map[] && visitedPackages == {} && traced == [] && entered == []
      ensures Valid()
    {
      packages := map[];
      visitedPackages := {};
      traced := [];
      entered := [];
      tracedAt := [];
      enteredAt := [];
    }

    // -------------------------------------------------------------------------------------------
    // Indexing

    /** registerIdentifier */
    method RegisterIdentifier(fsPath: string, pkgPath: string, pkgName: string, name: string)
      modifies this`packages
      ensures packages == Register(old(packages), fsPath, pkgPath, pkgName, name)
    {
      if !IsExported(name) {
        return;
      }
      if pkgPath !in packages {
        packages := packages[pkgPath := PackageState(pkgName, fsPath, false, map[])];
      }
      packages := packages[pkgPath := packages[pkgPath].(identifiers := packages[pkgPath].identifiers[name := false])];
    }

    /** analyzeFile */
    method AnalyzeFile(file: FileNode, fsPath: string, pkgPath: string, pkgName: string)
      modifies this`packages
      ensures packages == RegisterAll(old(packages), fsPath, pkgPath, pkgName, DeclNames(file.decls))
    {
      ghost var target := RegisterAll(packages, fsPath, pkgPath, pkgName, DeclNames(file.decls));
      var decls := file.decls;
      for i := 0 to |decls|
        invariant RegisterAll(packages, fsPath, pkgPath, pkgName, DeclNames(decls[i..])) == target
      {
        DeclNamesStep(decls, i);
        RegisterAllConcat(packages, fsPath, pkgPath, pkgName, DeclNamesOf(decls[i]), DeclNames(decls[i + 1..]));
        var decl := decls[i];
        if decl.FuncDecl? {
          RegisterAllOne(packages, fsPath, pkgPath, pkgName, decl.name.name);
          RegisterIdentifier(fsPath, pkgPath, pkgName, decl.name.name);
        }
        if decl.GenDecl? {
          AnalyzeSpecs(decl.specs, fsPath, pkgPath, pkgName);
        }
      }
      assert decls[|decls|..] == [];
    }

    /** The loop of analyzeFile over the specs of one GenDecl. */
    method AnalyzeSpecs(specs: seq<Node>, fsPath: string, pkgPath: string, pkgName: string)
      modifies this`packages
      ensures packages == RegisterAll(old(packages), fsPath, pkgPath, pkgName, SpecNames(specs))
    {
      ghost var target := RegisterAll(packages, fsPath, pkgPath, pkgName, SpecNames(specs));
      for j := 0 to |specs|
        invariant RegisterAll(packages, fsPath, pkgPath, pkgName, SpecNames(specs[j..])) == target
      {
        SpecNamesStep(specs, j);
        RegisterAllConcat(packages, fsPath, pkgPath, pkgName, SpecNamesOf(specs[j]), SpecNames(specs[j + 1..]));
        ghost var mid := RegisterAll(packages, fsPath, pkgPath, pkgName, SpecNamesOf(specs[j]));
        var spec := specs[j];
        if spec.TypeSpec? {
          RegisterAllOne(packages, fsPath, pkgPath, pkgName, spec.name.name);
          RegisterIdentifier(fsPath, pkgPath, pkgName, spec.name.name);
        }
        if spec.ValueSpec? {
          var names := spec.names;
          for k := 0 to |names|
            invariant RegisterAll(packages, fsPath, pkgPath, pkgName, IdentNames(names[k..])) == mid
          {
            IdentNamesStep(names, k);
            RegisterAllCons(packages, fsPath, pkgPath, pkgName, names[k].name, IdentNames(names[k + 1..]));
            RegisterIdentifier(fsPath, pkgPath, pkgName, names[k].name);
          }
          assert names[|names|..] == [];
        }
      }
      assert specs[|specs|..] == [];
    }

    /** analyzePackage */
    method AnalyzePackage(fsPath: string, pkgPath: string, pkg: Package)
      modifies this`packages
      ensures packages == RegisterAll(old(packages), fsPath, pkgPath, pkg.name, PackageNames(pkg.files))
    {
      ghost var target := RegisterAll(packages, fsPath, pkgPath, pkg.name, PackageNames(pkg.files));
      var files := pkg.files;
      for i := 0 to |files|
        invariant RegisterAll(packages, fsPath, pkgPath, pkg.name, PackageNames(files[i..])) == target
      {
        assert files[i..][0] == files[i] && files[i..][1..] == files[i + 1..];
        RegisterAllConcat(packages, fsPath, pkgPath, pkg.name, DeclNames(files[i].decls), PackageNames(files[i + 1..]));
        AnalyzeFile(files[i], fsPath, pkgPath, pkg.name);
      }
      assert files[|files|..] == [];
    }

    /** findExportedIdentifiers: the same walk as DiscoverPackages; `failed` is the directory's own
        ParseDir or ReadDir error, and the errors of subdirectories are dropped. */
    method FindExportedIdentifiers(tree: DirTree, fsPath: string, importPath: string) returns (failed: bool)
      modifies this`packages
      ensures packages == Discovered(old(packages), tree, fsPath, importPath)
      ensures failed <==> tree.parsed.None? || !tree.readOk
      decreases tree
    {
      if tree.parsed.None? {
        return true;
      }
      var pkgs := tree.parsed.value;
      ghost var afterPkgs := AnalyzePackages(packages, fsPath, importPath, pkgs);
      for i := 0 to |pkgs|
        invariant AnalyzePackages(packages, fsPath, importPath, pkgs[i..]) == afterPkgs
      {
        assert pkgs[i..][0] == pkgs[i] && pkgs[i..][1..] == pkgs[i + 1..];
        if !HasSuffix(pkgs[i].name, "_test") {
          AnalyzePackage(fsPath, importPath, pkgs[i]);
        }
      }
      assert pkgs[|pkgs|..] == [];
      if !tree.readOk {
        return true;
      }
      var entries := tree.entries;
      ghost var target := DiscoverEntries(packages, entries, fsPath, importPath);
      for i := 0 to |entries|
        invariant DiscoverEntries(packages, entries[i..], fsPath, importPath) == target
      {
        assert entries[i..][0] == entries[i] && entries[i..][1..] == entries[i + 1..];
        var entry := entries[i];
        if entry.kind.Directory? {
          var _ := FindExportedIdentifiers(entry.kind.tree, fsPath + "/" + entry.name, importPath + "/" + entry.name);
        }
      }
      assert entries[|entries|..] == [];
      return false;
    }

    // -------------------------------------------------------------------------------------------
    // Tracing

    /** traceUsage(fsPath, moduleName, pkgName): trace every file of every non-test package of the
        directory; `failed` is ParseDir's error. `pkgName` is the import path of the package. */
    method TraceUsage(dirs: ParsedDirs, fsPath: string, moduleName: string, pkgName: string) returns (failed: bool)
      requires Valid()
      modifies this
      ensures Valid()
      ensures failed <==> fsPath !in dirs
      ensures failed ==> Snap() == old(Snap())
      ensures Stretch(dirs, old(Snap()), Snap(), DirFiles(dirs, fsPath, pkgName), {}, SamePackageOk, true)
      ensures !failed ==> PackageFiles(dirs[fsPath], pkgName) <= Elems(traced[|old(traced)|..])
      decreases packages.Keys - visitedPackages, 4
    {
      ghost var a := Snap();
      StretchNone(dirs, a, {}, SamePackageOk, true);
      if fsPath !in dirs {
        return true;
      }
      var pkgs := dirs[fsPath];
      PackageFilesEmpty(pkgs, pkgName);
      for i := 0 to |pkgs|
        invariant Valid()
        invariant Stretch(dirs, a, Snap(), PackageFiles(pkgs[..i], pkgName), {}, SamePackageOk, true)
      {
        ghost var b := Snap();
        if !HasSuffix(pkgs[i].name, "_test") {
          TraceFiles(dirs, pkgs[i].files, moduleName, pkgName);
        }
        RecordStep(dirs, a, b, Snap(), pkgs, i, pkgName, SamePackageOk, true);
      }
      assert pkgs[..|pkgs|] == pkgs;
      return false;
    }

    /** The loop of traceUsage over the files of one non-test package. */
    method TraceFiles(dirs: ParsedDirs, files: seq<FileNode>, moduleName: string, pkgName: string)
      requires Valid()
      modifies this
      ensures Valid()
      ensures Stretch(dirs, old(Snap()), Snap(), FileSet(files, pkgName), {}, SamePackageOk, true)
      ensures FileSet(files, pkgName) <= Elems(traced[|old(traced)|..])
      decreases packages.Keys - visitedPackages, 3
    {
      ghost var a := Snap();
      StretchNone(dirs, a, {}, SamePackageOk, true);
      FileSetEmpty(files, pkgName);
      for j := 0 to |files|
        invariant Valid()
        invariant Stretch(dirs, a, Snap(), FileSet(files[..j], pkgName), {}, SamePackageOk, true)
      {
        ghost var b := Snap();
        TraceFile(dirs, files[j], moduleName, pkgName);
        FileSetStep(files, j, pkgName);
        Compose(dirs, a, b, Snap(), FileSet(files[..j], pkgName), {Traced(files[j], pkgName)},
                FileSet(files[..j + 1], pkgName), {}, {}, {}, SamePackageOk, true);
      }
      assert files[..|files|] == files;
    }

    /** traceFile: classify the imports, walk the tree, then recurse into every bound and every
        dot-imported package. */
    method TraceFile(dirs: ParsedDirs, file: FileNode, moduleName: string, pkgName: string)
      requires Valid()
      modifies this
      ensures Valid()
      ensures |old(traced)| < |traced| && traced[|old(traced)|] == Traced(file, pkgName)
      ensures Stretch(dirs, old(Snap()), Snap(), {Traced(file, pkgName)}, {}, SamePackageOk, true)
      decreases packages.Keys - visitedPackages, 2
    {
      ghost var a := Snap();
      var imports := BindImports(file);
      TargetsRegistered(a.reg, file);
      assert Targets(a.reg, file) == imports.importMap.Values + Elems(imports.dots);
      ghost var mid := packages;
      var ctx := Context(imports, pkgName, SamePackageOk);
      Walk(ctx, file);
      ClockedTrace(tracedAt, enteredAt);
      traced, tracedAt := traced + [Traced(file, pkgName)], tracedAt + [|entered|];
      ghost var b := Snap();
      DescendImports(dirs, imports.importMap, moduleName);
      ghost var c := Snap();
      Unvisited(a.reg.Keys, b.visited, c.visited);
      DescendDots(dirs, imports.dots, moduleName);
      TraceFileAll(dirs, a, b, c, Snap(), mid, ctx, Traced(file, pkgName), imports.importMap.Values, Elems(imports.dots),
                   SamePackageOk, true);
    }

    /** The loop over importMap: recurse into every bound package, in whatever order Go's map
        iteration yields. */
    method DescendImports(dirs: ParsedDirs, importMap: map<string, string>, moduleName: string)
      requires Valid()
      requires importMap.Values <= packages.Keys
      modifies this
      ensures Valid()
      ensures importMap.Values <= visitedPackages
      ensures old(visitedPackages) <= visitedPackages && packages.Keys == old(packages.Keys)
      ensures Stretch(dirs, old(Snap()), Snap(), {}, importMap.Values, SamePackageOk, true)
      decreases packages.Keys - visitedPackages, 1
    {
      ghost var a := Snap();
      StretchNone(dirs, a, importMap.Values, SamePackageOk, true);
      var todo := importMap.Keys;
      while todo != {}
        invariant todo <= importMap.Keys
        invariant Valid()
        invariant Stretch(dirs, a, Snap(), {}, importMap.Values, SamePackageOk, true)
        invariant forall k :: k in importMap && k !in todo ==> importMap[k] in visitedPackages
        invariant packages.Keys == a.reg.Keys
        invariant importMap.Values <= packages.Keys
        decreases todo
      {
        var k :| k in todo;
        assert importMap[k] in importMap.Values;
        Unvisited(a.reg.Keys, a.visited, visitedPackages);
        ghost var before := visitedPackages;
        ghost var c := Snap();
        Descend(dirs, importMap[k], moduleName);
        Compose(dirs, a, c, Snap(), {}, {}, {}, importMap.Values, {importMap[k]}, importMap.Values,
                SamePackageOk, true);
        VisitedKeys(importMap, todo, k, before, visitedPackages);
        todo := todo - {k};
      }
    }

    /** The loop over unqualifiedImports. */
    method DescendDots(dirs: ParsedDirs, unqualifiedImports: seq<string>, moduleName: string)
      requires Valid()
      requires Elems(unqualifiedImports) <= packages.Keys
      modifies this
      ensures Valid()
      ensures Elems(unqualifiedImports) <= visitedPackages
      ensures old(visitedPackages) <= visitedPackages && packages.Keys == old(packages.Keys)
      ensures Stretch(dirs, old(Snap()), Snap(), {}, Elems(unqualifiedImports), SamePackageOk, true)
      decreases packages.Keys - visitedPackages, 1
    {
      ghost var a := Snap();
      StretchNone(dirs, a, Elems(unqualifiedImports), SamePackageOk, true);
      for j := 0 to |unqualifiedImports|
        invariant Valid()
        invariant Stretch(dirs, a, Snap(), {}, Elems(unqualifiedImports), SamePackageOk, true)
        invariant forall j' :: 0 <= j' < j ==> unqualifiedImports[j'] in visitedPackages
        invariant packages.Keys == a.reg.Keys
        invariant Elems(unqualifiedImports) <= packages.Keys
      {
        assert unqualifiedImports[j] in Elems(unqualifiedImports);
        Unvisited(a.reg.Keys, a.visited, visitedPackages);
        ghost var before := visitedPackages;
        ghost var c := Snap();
        Descend(dirs, unqualifiedImports[j], moduleName);
        Compose(dirs, a, c, Snap(), {}, {}, {}, Elems(unqualifiedImports), {unqualifiedImports[j]},
                Elems(unqualifiedImports), SamePackageOk, true);
        forall j' | 0 <= j' < j + 1
          ensures unqualifiedImports[j'] in visitedPackages
        {
          if j' < j {
            assert unqualifiedImports[j'] in before;
          } else {
            assert j' == j;
          }
        }
      }
    }

    /** The body of both recursion loops: an unvisited package is marked visited and traced from
        its directory. Every path bound by an import is registered, so the record is there. */
    method Descend(dirs: ParsedDirs, p: string, moduleName: string)
      requires Valid()
      requires p in packages
      modifies this
      ensures Valid()
      ensures Stretch(dirs, old(Snap()), Snap(), {}, {p}, SamePackageOk, true)
      ensures old(visitedPackages) <= visitedPackages && p in visitedPackages
      ensures p !in old(visitedPackages) ==>
                DirFiles(dirs, old(packages)[p].fsPath, p) <= Elems(traced[|old(traced)|..])
      ensures packages.Keys == old(packages.Keys)
      decreases packages.Keys - visitedPackages, 0
    {
      ghost var a := Snap();
      if p !in visitedPackages {
        ClockedEnter(tracedAt, enteredAt);
        EnteredDistinct(entered, visitedPackages, p);
        visitedPackages := visitedPackages + {p};
        entered, enteredAt := entered + [p], enteredAt + [|traced|];
        ghost var b := Snap();
        var _ := TraceUsage(dirs, packages[p].fsPath, moduleName, p);
        EnterAndTrace(dirs, a, b, Snap(), p, a.reg[p].fsPath, SamePackageOk, true);
      } else {
        StretchNone(dirs, a, {p}, SamePackageOk, true);
      }
    }

    /** The loop over file.Imports. */
    method BindImports(file: FileNode) returns (imports: Imports)
      modifies this`packages
      ensures imports == Bindings(old(packages), FileImports(file.decls))
      ensures packages == Apply(old(packages), Effect(ImportedPaths(old(packages), FileImports(file.decls)), {}), true)
      ensures packages.Keys == old(packages.Keys)
    {
      ghost var reg := packages;
      var imps := FileImports(file.decls);
      var importMap: map<string, string> := map[];
      var unqualifiedImports: seq<string> := [];
      ApplyNone(reg, true);
      for i := 0 to |imps|
        invariant Imports(importMap, unqualifiedImports) == Bindings(reg, imps[..i])
        invariant packages == Apply(reg, Effect(ImportedPaths(reg, imps[..i]), {}), true)
      {
        ghost var before := ImportedPaths(reg, imps[..i]);
        BindStep(reg, imps, i);
        ApplyLayout(reg, Effect(before, {}), true);
        var imp := imps[i];
        var impPath := Trim(imp.path.value, '"');
        if impPath in packages {
          var pkgInfo := packages[impPath];
          ImportWrite(reg, Effect(before, {}), impPath, true);
          packages := packages[impPath := pkgInfo.(imported := true)];
          if imp.alias.None? {
            importMap := importMap[pkgInfo.name := impPath];
          } else if imp.alias.value.name == "_" {
          } else if imp.alias.value.name == "." {
            unqualifiedImports := unqualifiedImports + [impPath];
          } else {
            importMap := importMap[imp.alias.value.name := impPath];
          }
        }
      }
      assert imps[..|imps|] == imps;
      imports := Imports(importMap, unqualifiedImports);
    }

    /** ast.Inspect(file, f) with the visitor below. */
    method Walk(ctx: Context, file: FileNode)
      requires ctx.recordSame == SamePackageOk
      requires ctx.imports.importMap.Values <= packages.Keys && Elems(ctx.imports.dots) <= packages.Keys
      modifies this`packages
      ensures packages == Apply(old(packages), Effect({}, TreeUses(ctx, None, file)), true)
      ensures packages.Keys == old(packages.Keys)
    {
      FileWalkDisciplined(file);
      VisitAll(ctx, Inspect(file));
      FileWalk(ctx, file);
    }

    /** The visitor calls ast.Inspect makes, in order, with the stack threaded through. */
    method VisitAll(ctx: Context, events: seq<Event>)
      requires ctx.recordSame == SamePackageOk
      requires ctx.imports.importMap.Values <= packages.Keys && Elems(ctx.imports.dots) <= packages.Keys
      requires Disciplined([], events)
      modifies this`packages
      ensures packages == Apply(old(packages), Effect({}, WalkUses(ctx, [], events)), true)
    {
      ghost var reg := packages;
      var traversalStack: seq<Node> := [];
      ApplyNone(reg, true);
      for i := 0 to |events|
        invariant traversalStack == Replay([], events[..i])
        invariant packages == Apply(reg, Effect({}, WalkUses(ctx, [], events[..i])), true)
      {
        DisciplinedAt(events, i);
        ApplyLayout(reg, Effect({}, WalkUses(ctx, [], events[..i])), true);
        traversalStack := Visit(ctx, traversalStack, events[i]);
        WalkStep(ctx, reg, events, i, true);
      }
      assert events[..|events|] == events;
    }

    /** The function literal passed to ast.Inspect, called with `e`: f(n) or f(nil). */
    method Visit(ctx: Context, traversalStack: seq<Node>, e: Event) returns (stack: seq<Node>)
      requires StepOk(traversalStack, e)
      requires ctx.recordSame == SamePackageOk
      requires ctx.imports.importMap.Values <= packages.Keys && Elems(ctx.imports.dots) <= packages.Keys
      modifies this`packages
      ensures stack == Step(traversalStack, e)
      ensures packages == Apply(old(packages), Effect({}, EventUses(ctx, traversalStack, e)), true)
    {
      ghost var reg := packages;
      ApplyNone(reg, true);
      if e.Leave? {
        return traversalStack[..|traversalStack| - 1];
      }
      var n := e.node;
      if n.SelectorExpr? {
        MarkQualified(ctx, n);
        assert NodeUses(ctx, Top(traversalStack), n) == SelectorUses(ctx, n);
      } else if n.IdentNode? {
        ghost var parent := traversalStack[|traversalStack| - 1];
        assert Top(traversalStack) == Some(parent);
        var skip := SkipIdent(traversalStack[|traversalStack| - 1], n);
        if !skip {
          MarkUnqualified(ctx, n.ident.name);
          assert NodeUses(ctx, Top(traversalStack), n) == IdentUses(ctx, n.ident.name);
        } else {
          assert NodeUses(ctx, Top(traversalStack), n) == {};
        }
      } else {
        assert NodeUses(ctx, Top(traversalStack), n) == {};
      }
      return traversalStack + [n];
    }

    /** The visitor's first `if`: `X.symbol` with X bound in importMap sets the flag of `symbol` in
        X's package without checking that `symbol` is a key, so a missing key is added. */
    method MarkQualified(ctx: Context, n: Node)
      requires ctx.imports.importMap.Values <= packages.Keys
      modifies this`packages
      ensures packages == Apply(old(packages), Effect({}, SelectorUses(ctx, n)), true)
    {
      ghost var reg := packages;
      ApplyNone(reg, true);
      if n.SelectorExpr? && n.x.IdentNode? {
        var symbol := n.sel.name;
        if n.x.ident.name in ctx.imports.importMap {
          var p := ctx.imports.importMap[n.x.ident.name];
          ForcedWrite(reg, NoEffect, p, symbol);
          packages := packages[p := packages[p].(identifiers := packages[p].identifiers[symbol := true])];
          assert Join(NoEffect, Effect({}, {Use(p, symbol, true)})) == Effect({}, SelectorUses(ctx, n));
        }
      }
    }

    /** The visitor's `!skip` block for an identifier used bare: the flag of `symbol` is set in
        every dot-imported package and in the traced package itself, in each only if it is a key. */
    method MarkUnqualified(ctx: Context, symbol: string)
      requires ctx.recordSame == SamePackageOk
      requires Elems(ctx.imports.dots) <= packages.Keys
      modifies this`packages
      ensures packages == Apply(old(packages), Effect({}, IdentUses(ctx, symbol)), true)
    {
      ghost var reg := packages;
      MarkDots(ctx.imports.dots, symbol);
      ghost var dotUses := DotUses(ctx.imports.dots, symbol);
      if SamePackageOk {
        CheckedWrite(reg, Effect({}, dotUses), ctx.pkgName, symbol, false, true);
        if ctx.pkgName in packages {
          MarkIfKey(ctx.pkgName, symbol);
        }
        assert Join(Effect({}, dotUses), Effect({}, {Use(ctx.pkgName, symbol, false)})) ==
               Effect({}, dotUses + {Use(ctx.pkgName, symbol, false)});
      }
      assert IdentUses(ctx, symbol) == dotUses + {Use(ctx.pkgName, symbol, false)};
    }

    /** The loop over unqualifiedImports inside the visitor. */
    method MarkDots(dots: seq<string>, symbol: string)
      requires Elems(dots) <= packages.Keys
      modifies this`packages
      ensures packages == Apply(old(packages), Effect({}, DotUses(dots, symbol)), true)
    {
      ghost var reg := packages;
      ApplyNone(reg, true);
      assert dots[..0] == [];
      assert DotUses(dots[..0], symbol) == {};
      for j := 0 to |dots|
        invariant packages == Apply(reg, Effect({}, DotUses(dots[..j], symbol)), true)
      {
        ghost var before := DotUses(dots[..j], symbol);
        ApplyLayout(reg, Effect({}, before), true);
        CheckedWrite(reg, Effect({}, before), dots[j], symbol, false, true);
        assert dots[j] in Elems(dots);
        MarkIfKey(dots[j], symbol);
        assert Join(Effect({}, before), Effect({}, {Use(dots[j], symbol, false)})) ==
               Effect({}, before + {Use(dots[j], symbol, false)});
        DotUsesStep(dots, j, symbol);
      }
      assert dots[..|dots|] == dots;
    }

    /** `if _, ok := packages[p].identifiers[symbol]; ok { packages[p].identifiers[symbol] = true }` */
    method MarkIfKey(p: string, symbol: string)
      requires p in packages
      modifies this`packages
      ensures packages == old(packages)[p := WithIdentifierUsed(old(packages)[p], symbol)]
    {
      if symbol in packages[p].identifiers {
        packages := packages[p := packages[p].(identifiers := packages[p].identifiers[symbol := true])];
      } else {
        UpdateSame(packages, p);
      }
    }

    // -------------------------------------------------------------------------------------------
    // Reporting

    /** analyzeResults, without the printing: the lines it prints, each once, in whatever order
        Go's map iteration yields. */
    method AnalyzeResults() returns (out: seq<Report>)
      ensures Distinct(out)
      ensures forall r :: r in out <==> Reported(packages, r)
    {
      out := [];
      var todo := packages.Keys;
      while todo != {}
        invariant todo <= packages.Keys
        invariant Distinct(out)
        invariant forall r :: r in out <==> Reported(packages, r) && r.pkg !in todo
        decreases todo
      {
        var pkgPath :| pkgPath in todo;
        var pkg := packages[pkgPath];
        if !pkg.imported {
          out := out + [PackageNotImported(pkgPath)];
        } else {
          var ids := pkg.identifiers.Keys;
          while ids != {}
            invariant ids <= pkg.identifiers.Keys
            invariant Distinct(out)
            invariant forall r :: r in out <==>
                        Reported(packages, r) && (r.pkg !in todo || (r.pkg == pkgPath && r.IdentifierUnused? && r.identifier !in ids))
            decreases ids
          {
            var identifier :| identifier in ids;
            if !pkg.identifiers[identifier] {
              out := out + [IdentifierUnused(pkgPath, identifier)];
            }
            ids := ids - {identifier};
          }
        }
        todo := todo - {pkgPath};
      }
    }
  }
}
