/** The usage tracer of usage/usage.go: starting from one package, it marks the imports and the
    identifier uses of every file, then follows the imports, each package at most once. */
module Usage {

  import opened Common
  import opened GoStrings
  import opened Syntax
  import opened State
  import opened Tracing

  /** What parser.ParseDir returns for each directory that parses; a directory missing from the map
      is a parse error. */
  type ParsedDirs = map<string, seq<Package>>

  /** The `switch` on the parent node of a bare identifier: whether it is a declaration. The loops
      compare nodes, so an identifier that merely has the spelling of a declared name is not
      skipped. */
  method SkipIdent(parent: Node, n: Node) returns (skip: bool)
    ensures skip == Skip(parent, n)
  {
    skip := false;
    match parent {
      case SelectorExpr(_, _, _) =>
        skip := true;
      case TypeSpec(_, name, _) =>
        if IdentNode(name) == n {
          skip := true;
        }
      case FuncDecl(_, _, name, _) =>
        if IdentNode(name) == n {
          skip := true;
        }
      case Field(_, names, _) =>
        for i := 0 to |names|
          invariant skip <==> exists j :: 0 <= j < i && n == IdentNode(names[j])
        {
          if n == IdentNode(names[i]) {
            skip := true;
          }
        }
      case ValueSpec(_, names, _) =>
        for i := 0 to |names|
          invariant skip <==> exists j :: 0 <= j < i && n == IdentNode(names[j])
        {
          if n == IdentNode(names[i]) {
            skip := true;
          }
        }
      case AssignStmt(_, lhs, tok, _) =>
        if tok == ":=" {
          for i := 0 to |lhs|
            invariant skip <==> exists j :: 0 <= j < i && n == lhs[j]
          {
            if n == lhs[i] {
              skip := true;
            }
          }
        }
      case _ =>
    }
  }

  /** *usage.Usage. `traced` and `entered` are logs kept for the proofs: every traceFile call and
      every package the recursion entered, in order; `tracedAt` and `enteredAt` say when each
      entry was made, counted in entries of the other log. */
  class Usage {
    const state: State
    var visitedPackages: set<string>
    const recordSamePackageUse: bool
    ghost var traced: seq<Traced>
    ghost var entered: seq<string>
    ghost var tracedAt: seq<nat>
    ghost var enteredAt: seq<nat>

    /** No package is entered twice, every entered package is marked visited, and the clocks
        interleave. */
    ghost predicate Valid()
      reads this
    {
      && Distinct(entered) && Elems(entered) <= visitedPackages
      && |tracedAt| == |traced| && |enteredAt| == |entered| && Clocked(tracedAt, enteredAt)
    }

    ghost function Snap(): (r: Snapshot)
      reads this, state
    {
      Snapshot(state.packages, traced, entered, visitedPackages, tracedAt, enteredAt)
    }

    /** usage.New */
    constructor (state: State, recordSamePackageUse: bool)
      ensures this.state == state && this.recordSamePackageUse == recordSamePackageUse
      ensures visitedPackages == {} && traced == [] && entered == []
      ensures Valid()
    {
      this.state := state;
      this.recordSamePackageUse := recordSamePackageUse;
      visitedPackages := {};
      traced := [];
      entered := [];
      tracedAt := [];
      enteredAt := [];
    }

    /** RecordUsage(fsPath, moduleName, pkgName): trace every file of every non-test package of the
        directory; `failed` is ParseDir's error. `pkgName` is the import path of the package. */
    method RecordUsage(dirs: ParsedDirs, fsPath: string, moduleName: string, pkgName: string) returns (failed: bool)
      requires Valid()
      modifies this, state
      ensures Valid()
      ensures failed <==> fsPath !in dirs
      ensures failed ==> Snap() == old(Snap())
      ensures Stretch(dirs, old(Snap()), Snap(), DirFiles(dirs, fsPath, pkgName), {}, recordSamePackageUse, false)
      ensures !failed ==> PackageFiles(dirs[fsPath], pkgName) <= Elems(traced[|old(traced)|..])
      decreases state.packages.Keys - visitedPackages, 4
    {
      ghost var a := Snap();
      StretchNone(dirs, a, {}, recordSamePackageUse, false);
      if fsPath !in dirs {
        return true;
      }
      var pkgs := dirs[fsPath];
      PackageFilesEmpty(pkgs, pkgName);
      for i := 0 to |pkgs|
        invariant Valid()
        invariant Stretch(dirs, a, Snap(), PackageFiles(pkgs[..i], pkgName), {}, recordSamePackageUse, false)
      {
        ghost var b := Snap();
        if !HasSuffix(pkgs[i].name, "_test") {
          TraceFiles(dirs, pkgs[i].files, moduleName, pkgName);
        }
        RecordStep(dirs, a, b, Snap(), pkgs, i, pkgName, recordSamePackageUse, false);
      }
      assert pkgs[..|pkgs|] == pkgs;
      return false;
    }

    /** The loop of RecordUsage over the files of one non-test package. */
    method TraceFiles(dirs: ParsedDirs, files: seq<FileNode>, moduleName: string, pkgName: string)
      requires Valid()
      modifies this, state
      ensures Valid()
      ensures Stretch(dirs, old(Snap()), Snap(), FileSet(files, pkgName), {}, recordSamePackageUse, false)
      ensures FileSet(files, pkgName) <= Elems(traced[|old(traced)|..])
      decreases state.packages.Keys - visitedPackages, 3
    {
      ghost var a := Snap();
      StretchNone(dirs, a, {}, recordSamePackageUse, false);
      FileSetEmpty(files, pkgName);
      for j := 0 to |files|
        invariant Valid()
        invariant Stretch(dirs, a, Snap(), FileSet(files[..j], pkgName), {}, recordSamePackageUse, false)
      {
        ghost var b := Snap();
        TraceFile(dirs, files[j], moduleName, pkgName);
        FileSetStep(files, j, pkgName);
        Compose(dirs, a, b, Snap(), FileSet(files[..j], pkgName), {Traced(files[j], pkgName)},
                FileSet(files[..j + 1], pkgName), {}, {}, {}, recordSamePackageUse, false);
      }
      assert files[..|files|] == files;
    }

    /** traceFile: classify the imports, walk the tree, then recurse into every bound and every
        dot-imported package. */
    method TraceFile(dirs: ParsedDirs, file: FileNode, moduleName: string, pkgName: string)
      requires Valid()
      modifies this, state
      ensures Valid()
      ensures |old(traced)| < |traced| && traced[|old(traced)|] == Traced(file, pkgName)
      ensures Stretch(dirs, old(Snap()), Snap(), {Traced(file, pkgName)}, {}, recordSamePackageUse, false)
      decreases state.packages.Keys - visitedPackages, 2
    {
      ghost var a := Snap();
      var imports := BindImports(file);
      assert Targets(a.reg, file) == imports.importMap.Values + Elems(imports.dots);
      ghost var mid := state.packages;
      var ctx := Context(imports, pkgName, recordSamePackageUse);
      Walk(ctx, file);
      ClockedTrace(tracedAt, enteredAt);
      traced := traced + [Traced(file, pkgName)];
      tracedAt := tracedAt + [|entered|];
      ghost var b := Snap();
      DescendImports(dirs, imports.importMap, moduleName);
      ghost var c := Snap();
      Unvisited(a.reg.Keys, b.visited, c.visited);
      DescendDots(dirs, imports.dots, moduleName);
      TraceFileAll(dirs, a, b, c, Snap(), mid, ctx, Traced(file, pkgName), imports.importMap.Values, Elems(imports.dots),
                   recordSamePackageUse, false);
    }

    /** The loop over importMap: recurse into every bound package, in whatever order Go's map
        iteration yields. */
    method DescendImports(dirs: ParsedDirs, importMap: map<string, string>, moduleName: string)
      requires Valid()
      modifies this, state
      ensures Valid()
      ensures importMap.Values <= visitedPackages
      ensures old(visitedPackages) <= visitedPackages && state.packages.Keys == old(state.packages.Keys)
      ensures Stretch(dirs, old(Snap()), Snap(), {}, importMap.Values, recordSamePackageUse, false)
      decreases state.packages.Keys - visitedPackages, 1
    {
      ghost var a := Snap();
      StretchNone(dirs, a, importMap.Values, recordSamePackageUse, false);
      var todo := importMap.Keys;
      while todo != {}
        invariant todo <= importMap.Keys
        invariant Valid()
        invariant Stretch(dirs, a, Snap(), {}, importMap.Values, recordSamePackageUse, false)
        invariant forall k :: k in importMap && k !in todo ==> importMap[k] in visitedPackages
        invariant state.packages.Keys == a.reg.Keys
        decreases todo
      {
        var k :| k in todo;
        assert importMap[k] in importMap.Values;
        Unvisited(a.reg.Keys, a.visited, visitedPackages);
        ghost var before := visitedPackages;
        ghost var c := Snap();
        Descend(dirs, importMap[k], moduleName);
        Compose(dirs, a, c, Snap(), {}, {}, {}, importMap.Values, {importMap[k]}, importMap.Values,
                recordSamePackageUse, false);
        VisitedKeys(importMap, todo, k, before, visitedPackages);
        todo := todo - {k};
      }
    }

    /** The loop over unqualifiedImports. */
    method DescendDots(dirs: ParsedDirs, unqualifiedImports: seq<string>, moduleName: string)
      requires Valid()
      modifies this, state
      ensures Valid()
      ensures Elems(unqualifiedImports) <= visitedPackages
      ensures old(visitedPackages) <= visitedPackages && state.packages.Keys == old(state.packages.Keys)
      ensures Stretch(dirs, old(Snap()), Snap(), {}, Elems(unqualifiedImports), recordSamePackageUse, false)
      decreases state.packages.Keys - visitedPackages, 1
    {
      ghost var a := Snap();
      StretchNone(dirs, a, Elems(unqualifiedImports), recordSamePackageUse, false);
      for j := 0 to |unqualifiedImports|
        invariant Valid()
        invariant Stretch(dirs, a, Snap(), {}, Elems(unqualifiedImports), recordSamePackageUse, false)
        invariant forall j' :: 0 <= j' < j ==> unqualifiedImports[j'] in visitedPackages
        invariant state.packages.Keys == a.reg.Keys
      {
        assert unqualifiedImports[j] in Elems(unqualifiedImports);
        Unvisited(a.reg.Keys, a.visited, visitedPackages);
        ghost var before := visitedPackages;
        ghost var c := Snap();
        Descend(dirs, unqualifiedImports[j], moduleName);
        Compose(dirs, a, c, Snap(), {}, {}, {}, Elems(unqualifiedImports), {unqualifiedImports[j]},
                Elems(unqualifiedImports), recordSamePackageUse, false);
        forall j' | 0 <= j' < j + 1
          ensures unqualifiedImports[j'] in visitedPackages
        {
          if j' < j {
            assert unqualifiedImports[j'] in before;
          } else {
            assert j' == j;
          }
        }
      }
    }

    /** The body of both recursion loops: an unvisited package is marked visited and, when it is
        registered, traced from its directory. `start` is the state when the calling loop began;
        the loop's progress since then carries over the call. */
    method Descend(dirs: ParsedDirs, p: string, moduleName: string)
      requires Valid()
      modifies this, state
      ensures Valid()
      ensures Stretch(dirs, old(Snap()), Snap(), {}, {p}, recordSamePackageUse, false)
      ensures old(visitedPackages) <= visitedPackages && p in visitedPackages
      ensures p !in old(visitedPackages) && p in old(state.packages) ==>
                DirFiles(dirs, old(state.packages)[p].fsPath, p) <= Elems(traced[|old(traced)|..])
      ensures state.packages.Keys == old(state.packages.Keys)
      decreases state.packages.Keys - visitedPackages, 0
    {
      ghost var a := Snap();
      if p !in visitedPackages {
        visitedPackages := visitedPackages + {p};
        var pkgState := state.GetPackageState(p);
        if pkgState.Some? {
          ClockedEnter(tracedAt, enteredAt);
          EnteredDistinct(entered, a.visited, p);
          entered, enteredAt := entered + [p], enteredAt + [|traced|];
          ghost var b := Snap();
          var _ := RecordUsage(dirs, pkgState.value.fsPath, moduleName, p);
          EnterAndTrace(dirs, a, b, Snap(), p, pkgState.value.fsPath, recordSamePackageUse, false);
        } else {
          SkipStretch(dirs, a, Snap(), p, recordSamePackageUse, false);
        }
      } else {
        StretchNone(dirs, a, {p}, recordSamePackageUse, false);
      }
    }

    /** The loop over file.Imports. */
    method BindImports(file: FileNode) returns (imports: Imports)
      modifies state
      ensures imports == Bindings(old(state.packages), FileImports(file.decls))
      ensures state.packages == Apply(old(state.packages), Effect(ImportedPaths(old(state.packages), FileImports(file.decls)), {}), false)
      ensures state.packages.Keys == old(state.packages.Keys)
    {
      ghost var reg := state.packages;
      var imps := FileImports(file.decls);
      var importMap: map<string, string> := map[];
      var unqualifiedImports: seq<string> := [];
      ApplyNone(reg, false);
      for i := 0 to |imps|
        invariant Imports(importMap, unqualifiedImports) == Bindings(reg, imps[..i])
        invariant state.packages == Apply(reg, Effect(ImportedPaths(reg, imps[..i]), {}), false)
      {
        ghost var before := ImportedPaths(reg, imps[..i]);
        BindStep(reg, imps, i);
        ApplyLayout(reg, Effect(before, {}), false);
        var imp := imps[i];
        var impPath := Trim(imp.path.value, '"');
        var pkgState := state.GetPackageState(impPath);
        if pkgState.Some? {
          ImportWrite(reg, Effect(before, {}), impPath, false);
          state.MarkImported(impPath);
          if imp.alias.None? {
            importMap := importMap[pkgState.value.name := impPath];
          } else if imp.alias.value.name == "_" {
          } else if imp.alias.value.name == "." {
            unqualifiedImports := unqualifiedImports + [impPath];
          } else {
            importMap := importMap[imp.alias.value.name := impPath];
          }
        }
      }
      assert imps[..|imps|] == imps;
      imports := Imports(importMap, unqualifiedImports);
    }

    /** ast.Inspect(file, f) with the visitor below. */
    method Walk(ctx: Context, file: FileNode)
      requires ctx.recordSame == recordSamePackageUse
      modifies state
      ensures state.packages == Apply(old(state.packages), Effect({}, TreeUses(ctx, None, file)), false)
      ensures state.packages.Keys == old(state.packages.Keys)
    {
      FileWalkDisciplined(file);
      VisitAll(ctx, Inspect(file));
      FileWalk(ctx, file);
    }

    /** The visitor calls ast.Inspect makes, in order, with the stack threaded through. */
    method VisitAll(ctx: Context, events: seq<Event>)
      requires ctx.recordSame == recordSamePackageUse
      requires Disciplined([], events)
      modifies state
      ensures state.packages == Apply(old(state.packages), Effect({}, WalkUses(ctx, [], events)), false)
    {
      ghost var reg := state.packages;
      var traversalStack: seq<Node> := [];
      ApplyNone(reg, false);
      for i := 0 to |events|
        invariant traversalStack == Replay([], events[..i])
        invariant state.packages == Apply(reg, Effect({}, WalkUses(ctx, [], events[..i])), false)
      {
        DisciplinedAt(events, i);
        traversalStack := Visit(ctx, traversalStack, events[i]);
        WalkStep(ctx, reg, events, i, false);
      }
      assert events[..|events|] == events;
    }

    /** The function literal passed to ast.Inspect, called with `e`: f(n) or f(nil). */
    method Visit(ctx: Context, traversalStack: seq<Node>, e: Event) returns (stack: seq<Node>)
      requires StepOk(traversalStack, e)
      requires ctx.recordSame == recordSamePackageUse
      modifies state
      ensures stack == Step(traversalStack, e)
      ensures state.packages == Apply(old(state.packages), Effect({}, EventUses(ctx, traversalStack, e)), false)
    {
      ghost var reg := state.packages;
      ApplyNone(reg, false);
      if e.Leave? {
        return traversalStack[..|traversalStack| - 1];
      }
      var n := e.node;
      if n.SelectorExpr? {
        MarkQualified(ctx, n);
        assert NodeUses(ctx, Top(traversalStack), n) == SelectorUses(ctx, n);
      } else if n.IdentNode? {
        ghost var parent := traversalStack[|traversalStack| - 1];
        assert Top(traversalStack) == Some(parent);
        var skip := SkipIdent(traversalStack[|traversalStack| - 1], n);
        if !skip {
          MarkUnqualified(ctx, n.ident.name);
          assert NodeUses(ctx, Top(traversalStack), n) == IdentUses(ctx, n.ident.name);
        } else {
          assert NodeUses(ctx, Top(traversalStack), n) == {};
        }
      } else {
        assert NodeUses(ctx, Top(traversalStack), n) == {};
      }
      return traversalStack + [n];
    }

    /** The visitor's first `if`: `X.symbol` with X bound in importMap marks `symbol` in X's
        package, if that package is registered and `symbol` is one of its keys. */
    method MarkQualified(ctx: Context, n: Node)
      modifies state
      ensures state.packages == Apply(old(state.packages), Effect({}, SelectorUses(ctx, n)), false)
    {
      ghost var reg := state.packages;
      ApplyNone(reg, false);
      if n.SelectorExpr? && n.x.IdentNode? {
        var symbol := n.sel.name;
        if n.x.ident.name in ctx.imports.importMap {
          var p := ctx.imports.importMap[n.x.ident.name];
          CheckedWrite(reg, NoEffect, p, symbol, true, false);
          var pkgState := state.GetPackageState(p);
          if pkgState.Some? {
            state.MarkIdentifierUsed(p, symbol);
          }
          assert Join(NoEffect, Effect({}, {Use(p, symbol, true)})) == Effect({}, SelectorUses(ctx, n));
        }
      }
    }

    /** The visitor's `!skip` block for an identifier used bare: `symbol` is marked in every
        dot-imported package and, with recordSamePackageUse, in the traced package itself. */
    method MarkUnqualified(ctx: Context, symbol: string)
      requires ctx.recordSame == recordSamePackageUse
      modifies state
      ensures state.packages == Apply(old(state.packages), Effect({}, IdentUses(ctx, symbol)), false)
    {
      ghost var reg := state.packages;
      MarkDots(ctx.imports.dots, symbol);
      ghost var dotUses := DotUses(ctx.imports.dots, symbol);
      if recordSamePackageUse {
        CheckedWrite(reg, Effect({}, dotUses), ctx.pkgName, symbol, false, false);
        var pkgState := state.GetPackageState(ctx.pkgName);
        if pkgState.Some? {
          state.MarkIdentifierUsed(ctx.pkgName, symbol);
        }
        assert Join(Effect({}, dotUses), Effect({}, {Use(ctx.pkgName, symbol, false)})) ==
               Effect({}, dotUses + {Use(ctx.pkgName, symbol, false)});
      } else {
        assert Join(Effect({}, dotUses), NoEffect) == Effect({}, dotUses);
      }
      assert IdentUses(ctx, symbol) == dotUses + (if ctx.recordSame then {Use(ctx.pkgName, symbol, false)} else {});
    }

    /** The loop over unqualifiedImports inside the visitor. */
    method MarkDots(dots: seq<string>, symbol: string)
      modifies state
      ensures state.packages == Apply(old(state.packages), Effect({}, DotUses(dots, symbol)), false)
    {
      ghost var reg := state.packages;
      ApplyNone(reg, false);
      assert dots[..0] == [];
      assert DotUses(dots[..0], symbol) == {};
      for j := 0 to |dots|
        invariant state.packages == Apply(reg, Effect({}, DotUses(dots[..j], symbol)), false)
      {
        ghost var before := DotUses(dots[..j], symbol);
        CheckedWrite(reg, Effect({}, before), dots[j], symbol, false, false);
        var pkgState := state.GetPackageState(dots[j]);
        if pkgState.Some? {
          state.MarkIdentifierUsed(dots[j], symbol);
        }
        assert Join(Effect({}, before), Effect({}, {Use(dots[j], symbol, false)})) ==
               Effect({}, before + {Use(dots[j], symbol, false)});
        DotUsesStep(dots, j, symbol);
      }
      assert dots[..|dots|] == dots;
    }
  }

  /** One import more: how Bindings and ImportedPaths grow, in the terms of the loop body. */
  lemma BindStep(reg: Registry, imps: seq<ImportNode>, i: int)
    requires 0 <= i < |imps|
    ensures var imp := imps[i]; var path := Trim(imp.path.value, '"');
      var b := Bindings(reg, imps[..i]); var before := ImportedPaths(reg, imps[..i]);
      && Bindings(reg, imps[..i + 1]) ==
           (if path !in reg then b
            else if imp.alias.None? then b.(importMap := b.importMap[reg[path].name := path])
            else if imp.alias.value.name == "_" then b
            else if imp.alias.value.name == "." then b.(dots := b.dots + [path])
            else b.(importMap := b.importMap[imp.alias.value.name := path]))
      && ImportedPaths(reg, imps[..i + 1]) == (if path in reg then before + {path} else before)
      && Join(Effect(before, {}), Effect({path}, {})) == Effect(before + {path}, {})
  {
    assert imps[..i + 1][..i] == imps[..i];
    assert imps[..i + 1][i] == imps[i];
  }

  /** traceFile's two phases on one file, binding the imports and walking the tree, make up its
      FileEffect. */
  lemma OwnFileEffect(reg: Registry, file: FileNode, pkgName: string, recordSame: bool)
    ensures var imps := FileImports(file.decls);
      Join(Effect(ImportedPaths(reg, imps), {}), Effect({}, TreeUses(Context(Bindings(reg, imps), pkgName, recordSame), None, file))) ==
      FileEffect(reg, file, pkgName, recordSame)
  {
    assert FileContext(reg, file, pkgName, recordSame) == Context(Bindings(reg, FileImports(file.decls)), pkgName, recordSame);
  }

  /** One more visitor call of the walk: its writes and its stack. */
  lemma WalkStep(ctx: Context, reg: Registry, events: seq<Event>, i: int, addsKeys: bool)
    requires 0 <= i < |events|
    ensures var stack := Replay([], events[..i]);
      && Apply(Apply(reg, Effect({}, WalkUses(ctx, [], events[..i])), addsKeys), Effect({}, EventUses(ctx, stack, events[i])), addsKeys) ==
         Apply(reg, Effect({}, WalkUses(ctx, [], events[..i + 1])), addsKeys)
      && Step(stack, events[i]) == Replay([], events[..i + 1])
  {
    assert events[..i + 1][..i] == events[..i];
    var uses := WalkUses(ctx, [], events[..i]);
    var more := EventUses(ctx, Replay([], events[..i]), events[i]);
    ApplyJoin(reg, Effect({}, uses), Effect({}, more), addsKeys);
    assert Join(Effect({}, uses), Effect({}, more)) == Effect({}, uses + more);
  }

  /** The unqualified uses of `symbol` charged to the dot-imported packages. */
  ghost function DotUses(dots: seq<string>, symbol: string): (r: set<Use>)
  {
    set d | d in dots :: Use(d, symbol, false)
  }

  lemma DotUsesStep(dots: seq<string>, j: int, symbol: string)
    requires 0 <= j < |dots|
    ensures DotUses(dots[..j + 1], symbol) == DotUses(dots[..j], symbol) + {Use(dots[j], symbol, false)}
  {
    assert dots[..j + 1] == dots[..j] + [dots[j]];
  }

  /** The recursion's measure, the registered packages not yet visited, never grows. */
  lemma Unvisited(keys: set<string>, v0: set<string>, v1: set<string>)
    requires v0 <= v1
    ensures keys - v1 < keys - v0 || keys - v1 == keys - v0
  {
  }

  /** One more key of an import map done: its package and every earlier one's stay visited. */
  lemma VisitedKeys(m: map<string, string>, todo: set<string>, k: string, v0: set<string>, v1: set<string>)
    requires forall k' :: k' in m && k' !in todo ==> m[k'] in v0
    requires v0 <= v1 && k in m && m[k] in v1
    ensures forall k' :: k' in m && k' !in todo - {k} ==> m[k'] in v1
  {
  }

  /** A stretch of the recursion between two moments: the registry receives exactly the writes of
      the files traced (Traces), every package those files recurse into is visited by the end
      (Closed), the files traced are `own` and those owed for the packages entered (Logged), every
      package newly visited is in `extra` or a target of a file traced (Bounded), and every entry
      and every file comes after what caused it (Ordered). */
  ghost predicate Stretch(dirs: ParsedDirs, a: Snapshot, b: Snapshot, own: set<Traced>, extra: set<string>,
                          recordSame: bool, addsKeys: bool)
  {
    && Traces(a, b, recordSame, addsKeys) && Closed(a, b) && Logged(dirs, a, b, own)
    && Bounded(a, b, extra) && Ordered(dirs, a, b, own, extra)
  }

  /** The empty stretch. */
  lemma StretchNone(dirs: ParsedDirs, a: Snapshot, extra: set<string>, recordSame: bool, addsKeys: bool)
    requires |a.tracedAt| == |a.traced| && |a.enteredAt| == |a.entered|
    ensures Stretch(dirs, a, a, {}, extra, recordSame, addsKeys)
  {
    TracesRefl(a, recordSame, addsKeys);
    LoggedNone(dirs, a, a);
    BoundedStep(a, a, extra);
    OrderedNone(dirs, a, a, {}, extra);
  }

  /** Marking an unregistered package `p` visited, and nothing else. */
  lemma SkipStretch(dirs: ParsedDirs, a: Snapshot, b: Snapshot, p: string, recordSame: bool, addsKeys: bool)
    requires p !in a.reg && b == a.(visited := a.visited + {p})
    requires |a.tracedAt| == |a.traced| && |a.enteredAt| == |a.entered|
    ensures Stretch(dirs, a, b, {}, {p}, recordSame, addsKeys)
  {
    SkipStep(a, b, p, recordSame, addsKeys);
    LoggedNone(dirs, a, b);
    BoundedStep(a, b, {p});
    OrderedNone(dirs, a, b, {}, {p});
  }

  /** Entering a registered package that was not visited. */
  lemma EnterStep(a: Snapshot, b: Snapshot, p: string, recordSame: bool, addsKeys: bool)
    requires p !in a.visited && p in a.reg
    requires b == a.(entered := a.entered + [p], visited := a.visited + {p}, enteredAt := a.enteredAt + [|a.traced|])
    ensures Traces(a, b, recordSame, addsKeys) && Closed(a, b)
  {
    assert b.traced[|a.traced|..] == [];
    assert b.entered[|a.entered|..] == [p];
    assert [p][0] == p;
    assert Elems([p]) == {p};
    ApplyNone(a.reg, addsKeys);
  }

  /** Marking an unregistered package visited. */
  lemma SkipStep(a: Snapshot, b: Snapshot, p: string, recordSame: bool, addsKeys: bool)
    requires p !in a.reg
    requires b == a.(visited := a.visited + {p})
    ensures Traces(a, b, recordSame, addsKeys) && Closed(a, b)
  {
    assert b.traced[|a.traced|..] == [];
    assert b.entered[|a.entered|..] == [];
    assert Elems<string>([]) == {};
    ApplyNone(a.reg, addsKeys);
  }

  /** The traceFile calls RecordUsage owes for the packages of one directory. */
  ghost function PackageFiles(pkgs: seq<Package>, pkgName: string): (r: set<Traced>)
  {
    set i, j | 0 <= i < |pkgs| && !IsTestPackage(pkgs[i]) && 0 <= j < |pkgs[i].files| :: Traced(pkgs[i].files[j], pkgName)
  }

  ghost function FileSet(files: seq<FileNode>, pkgName: string): (r: set<Traced>)
  {
    set j | 0 <= j < |files| :: Traced(files[j], pkgName)
  }

  lemma PackageFilesEmpty(pkgs: seq<Package>, pkgName: string)
    ensures PackageFiles(pkgs[..0], pkgName) == {}
  {
  }

  lemma FileSetEmpty(files: seq<FileNode>, pkgName: string)
    ensures FileSet(files[..0], pkgName) == {}
  {
  }

  lemma PackageFilesStep(pkgs: seq<Package>, i: int, pkgName: string)
    requires 0 <= i < |pkgs|
    ensures PackageFiles(pkgs[..i + 1], pkgName) ==
            PackageFiles(pkgs[..i], pkgName) + (if IsTestPackage(pkgs[i]) then {} else FileSet(pkgs[i].files, pkgName))
  {
    var lhs := PackageFiles(pkgs[..i + 1], pkgName);
    var rhs := PackageFiles(pkgs[..i], pkgName) + (if IsTestPackage(pkgs[i]) then {} else FileSet(pkgs[i].files, pkgName));
    forall t | t in lhs
      ensures t in rhs
    {
      var i', j :| 0 <= i' < i + 1 && !IsTestPackage(pkgs[..i + 1][i']) && 0 <= j < |pkgs[..i + 1][i'].files| &&
                   t == Traced(pkgs[..i + 1][i'].files[j], pkgName);
      if i' < i {
        assert pkgs[..i][i'] == pkgs[i'];
      }
    }
    forall t | t in rhs
      ensures t in lhs
    {
      if t in PackageFiles(pkgs[..i], pkgName) {
        var i', j :| 0 <= i' < i && !IsTestPackage(pkgs[..i][i']) && 0 <= j < |pkgs[..i][i'].files| &&
                     t == Traced(pkgs[..i][i'].files[j], pkgName);
        assert pkgs[..i + 1][i'] == pkgs[i'];
      } else {
        var j :| 0 <= j < |pkgs[i].files| && t == Traced(pkgs[i].files[j], pkgName);
        assert pkgs[..i + 1][i] == pkgs[i];
      }
    }
  }

  lemma FileSetStep(files: seq<FileNode>, j: int, pkgName: string)
    requires 0 <= j < |files|
    ensures FileSet(files[..j + 1], pkgName) == FileSet(files[..j], pkgName) + {Traced(files[j], pkgName)}
  {
    var lhs := FileSet(files[..j + 1], pkgName);
    var rhs := FileSet(files[..j], pkgName) + {Traced(files[j], pkgName)};
    forall t | t in lhs
      ensures t in rhs
    {
      var j' :| 0 <= j' < j + 1 && t == Traced(files[..j + 1][j'], pkgName);
      if j' < j {
        assert files[..j][j'] == files[j'];
      }
    }
    assert files[..j + 1][j] == files[j];
  }

  /** The three steps of traceFile (its own log entry, the importMap loop, the dot loop) compose. */
  lemma TraceFileSteps(a: Snapshot, b: Snapshot, c: Snapshot, d: Snapshot, file: FileNode, pkgName: string,
                       recordSame: bool, addsKeys: bool)
    requires b.traced == a.traced + [Traced(file, pkgName)]
    requires Traces(a, b, recordSame, addsKeys)
    requires Traces(b, c, recordSame, addsKeys) && Closed(b, c)
    requires Traces(c, d, recordSame, addsKeys) && Closed(c, d)
    requires Targets(a.reg, file) <= d.visited
    ensures b.traced <= d.traced
    ensures Traces(a, d, recordSame, addsKeys) && Closed(a, d)
  {
    TracesTrans(b, c, d, recordSame, addsKeys);
    ClosedTrans(b, c, d, recordSame, addsKeys);
    TracesTrans(a, b, d, recordSame, addsKeys);
    ApplyLayout(a.reg, LogEffect(a.reg, b.traced[|a.traced|..], recordSame), addsKeys);
    OwnFileClosed(a, b, d, file, pkgName, recordSame);
  }

  /** What traceFile logs: its own file and the directories of the packages its loops entered. */
  lemma TraceFileLogged(dirs: ParsedDirs, a: Snapshot, b: Snapshot, c: Snapshot, d: Snapshot, t: Traced,
                        recordSame: bool, addsKeys: bool)
    requires b.traced == a.traced + [t] && b.entered == a.entered
    requires Traces(a, b, recordSame, addsKeys) && Traces(b, c, recordSame, addsKeys)
    requires Logged(dirs, b, c, {}) && Logged(dirs, c, d, {})
    ensures Logged(dirs, a, d, {t})
  {
    LoggedTrans(dirs, b, c, d, {}, {}, recordSame, addsKeys);
    LoggedOwnFile(dirs, a, b, t);
    LoggedTrans(dirs, a, b, d, {t}, {}, recordSame, addsKeys);
  }

  /** traceFile visits only what its own file recurses into and what the files traced below it
      recurse into: its two loops are bounded by the file's bound and dot-imported paths. */
  lemma TraceFileBounded(a: Snapshot, b: Snapshot, c: Snapshot, d: Snapshot, t: Traced,
                         bound: set<string>, dots: set<string>)
    requires b.traced == a.traced + [t] && b.visited == a.visited
    requires SameLayout(a.reg, b.reg) && SameLayout(b.reg, c.reg)
    requires Bounded(b, c, bound) && Bounded(c, d, dots)
    requires Targets(a.reg, t.file) == bound + dots
    ensures Bounded(a, d, {})
  {
    assert b.traced[|a.traced|..] == [t];
    BoundedJoin(a, b, c, {}, bound, bound);
    BoundedJoin(a, c, d, bound, dots, {} + Targets(a.reg, t.file));
    assert b.traced <= d.traced by {
      assert d.traced[..|b.traced|] == d.traced[..|c.traced|][..|b.traced|];
    }
    assert d.traced[|a.traced|] == b.traced[|a.traced|];
    BoundedByFirst(a, d, t, {});
  }

  /** Closing traceFile: its own file's targets were all visited by the end. */
  lemma OwnFileClosed(a: Snapshot, b: Snapshot, c: Snapshot, file: FileNode, pkgName: string, recordSame: bool)
    requires b.traced == a.traced + [Traced(file, pkgName)] && b.traced <= c.traced
    requires SameLayout(a.reg, b.reg) && Closed(b, c)
    requires Targets(a.reg, file) <= c.visited
    ensures Closed(a, c)
  {
    forall k | |a.traced| <= k < |c.traced|
      ensures Targets(a.reg, c.traced[k].file) <= c.visited
    {
      if k == |a.traced| {
        assert c.traced[k] == b.traced[k];
      } else {
        var t := c.traced[k];
        FileEffectLayout(a.reg, b.reg, t.file, t.pkgName, recordSame);
      }
    }
  }

  // ---------------------------------------------------------------------------------------------
  // Which files the recursion traces

  /** The traceFile calls RecordUsage(fsPath, _, pkgName) makes itself: every file of every non-test
      package of the directory, none when the directory does not parse. */
  ghost function DirFiles(dirs: ParsedDirs, fsPath: string, pkgName: string): (r: set<Traced>)
  {
    if fsPath in dirs then PackageFiles(dirs[fsPath], pkgName) else {}
  }

  /** The files owed for entering package `p`: those of its registered directory. */
  ghost function Owed(dirs: ParsedDirs, reg: Registry, p: string): (r: set<Traced>)
  {
    if p in reg then DirFiles(dirs, reg[p].fsPath, p) else {}
  }

  ghost function EnteredFiles(dirs: ParsedDirs, reg: Registry, entered: seq<string>): (r: set<Traced>)
    decreases |entered|
  {
    if entered == [] then {} else Owed(dirs, reg, entered[0]) + EnteredFiles(dirs, reg, entered[1..])
  }

  /** Between two moments, the files traced are exactly `own` and the files of every package
      entered in between. */
  ghost predicate Logged(dirs: ParsedDirs, a: Snapshot, b: Snapshot, own: set<Traced>)
  {
    && a.traced <= b.traced
    && a.entered <= b.entered
    && Elems(b.traced[|a.traced|..]) == own + EnteredFiles(dirs, a.reg, b.entered[|a.entered|..])
  }

  lemma {:induction false} EnteredFilesConcat(dirs: ParsedDirs, reg: Registry, x: seq<string>, y: seq<string>)
    ensures EnteredFiles(dirs, reg, x + y) == EnteredFiles(dirs, reg, x) + EnteredFiles(dirs, reg, y)
    decreases |x|
  {
    if x == [] {
      assert x + y == y;
    } else {
      assert (x + y)[0] == x[0] && (x + y)[1..] == x[1..] + y;
      EnteredFilesConcat(dirs, reg, x[1..], y);
    }
  }

  lemma {:induction false} EnteredFilesLayout(dirs: ParsedDirs, r1: Registry, r2: Registry, es: seq<string>)
    requires SameLayout(r1, r2)
    ensures EnteredFiles(dirs, r1, es) == EnteredFiles(dirs, r2, es)
    decreases |es|
  {
    if es != [] {
      EnteredFilesLayout(dirs, r1, r2, es[1..]);
    }
  }

  lemma {:induction false} EnteredFilesHas(dirs: ParsedDirs, reg: Registry, es: seq<string>, q: string)
    requires q in Elems(es)
    ensures Owed(dirs, reg, q) <= EnteredFiles(dirs, reg, es)
    decreases |es|
  {
    if es[0] != q {
      var i :| 0 <= i < |es| && es[i] == q;
      assert es[1..][i - 1] == q;
      EnteredFilesHas(dirs, reg, es[1..], q);
    }
  }

  /** A step that neither traces a file nor enters a package owes nothing. */
  lemma LoggedNone(dirs: ParsedDirs, a: Snapshot, b: Snapshot)
    requires b.traced == a.traced && b.entered == a.entered
    ensures Logged(dirs, a, b, {})
  {
    assert b.traced[|a.traced|..] == [];
    assert b.entered[|a.entered|..] == [];
    assert Elems<Traced>([]) == {};
  }

  /** traceFile's own log entry. */
  lemma LoggedOwnFile(dirs: ParsedDirs, a: Snapshot, b: Snapshot, t: Traced)
    requires b.traced == a.traced + [t] && b.entered == a.entered
    ensures Logged(dirs, a, b, {t})
  {
    assert b.traced[|a.traced|..] == [t];
    assert b.entered[|a.entered|..] == [];
    assert Elems([t]) == {t} by {
      assert [t][0] == t;
    }
  }

  lemma LoggedTrans(dirs: ParsedDirs, a: Snapshot, b: Snapshot, c: Snapshot, o1: set<Traced>, o2: set<Traced>,
                    recordSame: bool, addsKeys: bool)
    requires Traces(a, b, recordSame, addsKeys)
    requires Logged(dirs, a, b, o1) && Logged(dirs, b, c, o2)
    ensures Logged(dirs, a, c, o1 + o2)
  {
    SliceAppend(a.traced, b.traced, c.traced);
    SliceAppend(a.entered, b.entered, c.entered);
    ElemsConcat(b.traced[|a.traced|..], c.traced[|b.traced|..]);
    EnteredFilesConcat(dirs, a.reg, b.entered[|a.entered|..], c.entered[|b.entered|..]);
    ApplyLayout(a.reg, LogEffect(a.reg, b.traced[|a.traced|..], recordSame), addsKeys);
    EnteredFilesLayout(dirs, a.reg, b.reg, c.entered[|b.entered|..]);
  }

  /** Entering `p` and then tracing its directory owes nothing more: p's files are what p is owed. */
  lemma LoggedEnter(dirs: ParsedDirs, a: Snapshot, b: Snapshot, c: Snapshot, p: string)
    requires p in a.reg
    requires b == a.(entered := a.entered + [p], visited := a.visited + {p}, enteredAt := a.enteredAt + [|a.traced|])
    requires Logged(dirs, b, c, DirFiles(dirs, a.reg[p].fsPath, p))
    ensures Logged(dirs, a, c, {})
  {
    var rest := c.entered[|b.entered|..];
    assert c.entered[|a.entered|..] == [p] + rest;
    EnteredFilesConcat(dirs, a.reg, [p], rest);
    assert EnteredFiles(dirs, a.reg, [p]) == Owed(dirs, a.reg, p) by {
      assert [p][0] == p && [p][1..] == [];
    }
  }

  /** The files traced between two moments are closed under imports: every package a traced file
      recurses into was visited before, or has all the files of its directory traced as well. */
  lemma ClosedUnderImports(dirs: ParsedDirs, a: Snapshot, b: Snapshot, own: set<Traced>)
    requires Logged(dirs, a, b, own) && Closed(a, b)
    requires Elems(b.entered[|a.entered|..]) == (b.visited - a.visited) * a.reg.Keys
    ensures forall t, q :: t in Elems(b.traced[|a.traced|..]) && q in Targets(a.reg, t.file) ==>
              q in a.visited || (q in a.reg && DirFiles(dirs, a.reg[q].fsPath, q) <= Elems(b.traced[|a.traced|..]))
  {
    var log := b.traced[|a.traced|..];
    forall t | t in Elems(log)
      ensures Targets(a.reg, t.file) <= b.visited
    {
      var k :| 0 <= k < |log| && log[k] == t;
      assert b.traced[|a.traced| + k] == t;
    }
    Reached(dirs, a.reg, log, b.entered[|a.entered|..], a.visited, b.visited);
  }

  /** ClosedUnderImports over plain sets: a package a logged file reaches was visited before, or
      it is registered, was entered in between, and the log holds all of its directory's files. */
  lemma Reached(dirs: ParsedDirs, reg: Registry, log: seq<Traced>, novel: seq<string>, v0: set<string>, v1: set<string>)
    requires forall t :: t in Elems(log) ==> Targets(reg, t.file) <= v1
    requires Elems(novel) == (v1 - v0) * reg.Keys
    requires EnteredFiles(dirs, reg, novel) <= Elems(log)
    ensures forall t, q :: t in Elems(log) && q in Targets(reg, t.file) ==>
              q in v0 || (q in reg && DirFiles(dirs, reg[q].fsPath, q) <= Elems(log))
  {
    forall t, q | t in Elems(log) && q in Targets(reg, t.file) && q !in v0
      ensures q in reg && DirFiles(dirs, reg[q].fsPath, q) <= Elems(log)
    {
      TargetsImported(reg, t.file, t.pkgName, false);
      assert q in Elems(novel);
      EnteredFilesHas(dirs, reg, novel, q);
    }
  }

  // ---------------------------------------------------------------------------------------------
  // In which order the recursion enters packages and traces files

  /** Between two moments, in the order things happened: every package entered is in `extra` or
      is a target of a file traced earlier in the stretch, and every file traced is in `own` or is
      owed for a package entered earlier in the stretch. */
  ghost predicate Ordered(dirs: ParsedDirs, a: Snapshot, b: Snapshot, own: set<Traced>, extra: set<string>)
  {
    EntriesOrdered(a, b, extra) && FilesOrdered(dirs, a, b, own)
  }

  /** Every package entered in between is in `extra` or a target of a file traced before it. */
  ghost predicate EntriesOrdered(a: Snapshot, b: Snapshot, extra: set<string>)
  {
    && a.traced <= b.traced && a.entered <= b.entered && a.enteredAt <= b.enteredAt
    && |b.enteredAt| == |b.entered|
    && (forall k :: |a.entered| <= k < |b.entered| ==>
          && |a.traced| <= b.enteredAt[k] <= |b.traced|
          && b.entered[k] in extra + LogTargets(a.reg, b.traced[|a.traced|..b.enteredAt[k]]))
  }

  /** Every file traced in between is in `own` or owed for a package entered before it. */
  ghost predicate FilesOrdered(dirs: ParsedDirs, a: Snapshot, b: Snapshot, own: set<Traced>)
  {
    && a.traced <= b.traced && a.entered <= b.entered && a.tracedAt <= b.tracedAt
    && |b.tracedAt| == |b.traced|
    && (forall i :: |a.traced| <= i < |b.traced| ==>
          && |a.entered| <= b.tracedAt[i] <= |b.entered|
          && b.traced[i] in own + EnteredFiles(dirs, a.reg, b.entered[|a.entered|..b.tracedAt[i]]))
  }

  /** A stretch that logs nothing is ordered. */
  lemma OrderedNone(dirs: ParsedDirs, a: Snapshot, b: Snapshot, own: set<Traced>, extra: set<string>)
    requires b.traced == a.traced && b.entered == a.entered && b.tracedAt == a.tracedAt && b.enteredAt == a.enteredAt
    requires |a.tracedAt| == |a.traced| && |a.enteredAt| == |a.entered|
    ensures Ordered(dirs, a, b, own, extra)
  {
  }

  lemma PrefixTrans<T>(x: seq<T>, y: seq<T>, z: seq<T>)
    requires x <= y && y <= z
    ensures x <= z && z[|x|..] == y[|x|..] + z[|y|..]
  {
    assert z[..|x|] == z[..|y|][..|x|];
  }

  /** Two ordered stretches in a row make one. */
  lemma OrderedTrans(dirs: ParsedDirs, a: Snapshot, b: Snapshot, c: Snapshot, o1: set<Traced>, o2: set<Traced>,
                     e1: set<string>, e2: set<string>, o: set<Traced>, e: set<string>)
    requires SameLayout(a.reg, b.reg)
    requires Ordered(dirs, a, b, o1, e1) && Ordered(dirs, b, c, o2, e2)
    requires o1 + o2 <= o && e1 + e2 <= e
    ensures Ordered(dirs, a, c, o, e)
  {
    EntriesTrans(a, b, c, e1, e2, e);
    FilesTrans(dirs, a, b, c, o1, o2, o);
  }

  lemma EntriesTrans(a: Snapshot, b: Snapshot, c: Snapshot, e1: set<string>, e2: set<string>, e: set<string>)
    requires SameLayout(a.reg, b.reg)
    requires EntriesOrdered(a, b, e1) && EntriesOrdered(b, c, e2)
    requires e1 + e2 <= e
    ensures EntriesOrdered(a, c, e)
  {
    PrefixTrans(a.traced, b.traced, c.traced);
    PrefixTrans(a.entered, b.entered, c.entered);
    PrefixTrans(a.enteredAt, b.enteredAt, c.enteredAt);
    forall k | |a.entered| <= k < |c.entered|
      ensures |a.traced| <= c.enteredAt[k] <= |c.traced|
      ensures c.entered[k] in e + LogTargets(a.reg, c.traced[|a.traced|..c.enteredAt[k]])
    {
      if k < |b.entered| {
        EntryFromFirst(a, b, c, e1, k);
      } else {
        EntryFromSecond(a, b, c, e2, k);
      }
    }
  }

  /** An entry of the first stretch keeps its witness in the longer log. */
  lemma EntryFromFirst(a: Snapshot, b: Snapshot, c: Snapshot, e1: set<string>, k: nat)
    requires EntriesOrdered(a, b, e1) && b.entered <= c.entered && b.enteredAt <= c.enteredAt && b.traced <= c.traced
    requires |a.entered| <= k < |b.entered|
    ensures |a.traced| <= c.enteredAt[k] <= |c.traced|
    ensures c.entered[k] in e1 + LogTargets(a.reg, c.traced[|a.traced|..c.enteredAt[k]])
  {
    assert c.entered[k] == b.entered[k] && c.enteredAt[k] == b.enteredAt[k];
    assert c.traced[|a.traced|..c.enteredAt[k]] == b.traced[|a.traced|..b.enteredAt[k]];
  }

  /** An entry of the second stretch finds its witness after the first stretch's whole log. */
  lemma EntryFromSecond(a: Snapshot, b: Snapshot, c: Snapshot, e2: set<string>, k: nat)
    requires SameLayout(a.reg, b.reg) && a.traced <= b.traced && |a.entered| <= |b.entered|
    requires EntriesOrdered(b, c, e2)
    requires |b.entered| <= k < |c.entered|
    ensures |a.traced| <= c.enteredAt[k] <= |c.traced|
    ensures c.entered[k] in e2 + LogTargets(a.reg, c.traced[|a.traced|..c.enteredAt[k]])
  {
    var n := c.enteredAt[k];
    var rest := c.traced[|b.traced|..n];
    assert c.traced[|a.traced|..n] == b.traced[|a.traced|..] + rest;
    LogTargetsConcat(a.reg, b.traced[|a.traced|..], rest);
    LogTargetsLayout(a.reg, b.reg, rest);
  }

  lemma FilesTrans(dirs: ParsedDirs, a: Snapshot, b: Snapshot, c: Snapshot, o1: set<Traced>, o2: set<Traced>,
                   o: set<Traced>)
    requires SameLayout(a.reg, b.reg)
    requires FilesOrdered(dirs, a, b, o1) && FilesOrdered(dirs, b, c, o2)
    requires o1 + o2 <= o
    ensures FilesOrdered(dirs, a, c, o)
  {
    PrefixTrans(a.traced, b.traced, c.traced);
    PrefixTrans(a.entered, b.entered, c.entered);
    PrefixTrans(a.tracedAt, b.tracedAt, c.tracedAt);
    forall i | |a.traced| <= i < |c.traced|
      ensures |a.entered| <= c.tracedAt[i] <= |c.entered|
      ensures c.traced[i] in o + EnteredFiles(dirs, a.reg, c.entered[|a.entered|..c.tracedAt[i]])
    {
      var m := c.tracedAt[i];
      if i < |b.traced| {
        assert c.traced[i] == b.traced[i] && m == b.tracedAt[i];
        assert c.entered[|a.entered|..m] == b.entered[|a.entered|..m];
      } else {
        var rest := c.entered[|b.entered|..m];
        assert c.entered[|a.entered|..m] == b.entered[|a.entered|..] + rest;
        EnteredFilesConcat(dirs, a.reg, b.entered[|a.entered|..], rest);
        EnteredFilesLayout(dirs, a.reg, b.reg, rest);
      }
    }
  }

  /** traceFile in order: its own file is logged first, so whatever its loops may enter (the
      file's targets) is a target of a file traced earlier. */
  lemma OrderedAfterOwnFile(dirs: ParsedDirs, a: Snapshot, b: Snapshot, d: Snapshot, t: Traced)
    requires b.traced == a.traced + [t] && b.tracedAt == a.tracedAt + [|a.entered|]
    requires b.entered == a.entered && b.enteredAt == a.enteredAt
    requires |a.tracedAt| == |a.traced|
    requires SameLayout(a.reg, b.reg)
    requires Ordered(dirs, b, d, {}, Targets(a.reg, t.file))
    ensures Ordered(dirs, a, d, {t}, {})
  {
    EntriesAfterOwnFile(a, b, d, t);
    FilesAfterOwnFile(dirs, a, b, d, t);
  }

  lemma EntriesAfterOwnFile(a: Snapshot, b: Snapshot, d: Snapshot, t: Traced)
    requires b.traced == a.traced + [t] && b.entered == a.entered && b.enteredAt == a.enteredAt
    requires SameLayout(a.reg, b.reg)
    requires EntriesOrdered(b, d, Targets(a.reg, t.file))
    ensures EntriesOrdered(a, d, {})
  {
    assert a.traced <= d.traced by {
      assert d.traced[..|a.traced|] == d.traced[..|b.traced|][..|a.traced|];
    }
    forall k | |a.entered| <= k < |d.entered|
      ensures |a.traced| <= d.enteredAt[k] <= |d.traced|
      ensures d.entered[k] in LogTargets(a.reg, d.traced[|a.traced|..d.enteredAt[k]])
    {
      var n := d.enteredAt[k];
      var rest := d.traced[|b.traced|..n];
      var log := d.traced[|a.traced|..n];
      assert log == [t] + rest by {
        assert d.traced[|a.traced|] == b.traced[|a.traced|] == t;
      }
      assert log[0] == t && log[1..] == rest;
      LogTargetsLayout(a.reg, b.reg, rest);
    }
  }

  lemma FilesAfterOwnFile(dirs: ParsedDirs, a: Snapshot, b: Snapshot, d: Snapshot, t: Traced)
    requires b.traced == a.traced + [t] && b.tracedAt == a.tracedAt + [|a.entered|] && b.entered == a.entered
    requires |a.tracedAt| == |a.traced|
    requires SameLayout(a.reg, b.reg)
    requires FilesOrdered(dirs, b, d, {})
    ensures FilesOrdered(dirs, a, d, {t})
  {
    assert a.traced <= d.traced && a.tracedAt <= d.tracedAt by {
      assert d.traced[..|a.traced|] == d.traced[..|b.traced|][..|a.traced|];
      assert d.tracedAt[..|a.tracedAt|] == d.tracedAt[..|b.tracedAt|][..|a.tracedAt|];
    }
    forall i | |a.traced| <= i < |d.traced|
      ensures |a.entered| <= d.tracedAt[i] <= |d.entered|
      ensures d.traced[i] in {t} + EnteredFiles(dirs, a.reg, d.entered[|a.entered|..d.tracedAt[i]])
    {
      if i == |a.traced| {
        assert d.traced[i] == b.traced[i] == t && d.tracedAt[i] == b.tracedAt[i];
      } else {
        EnteredFilesLayout(dirs, a.reg, b.reg, d.entered[|a.entered|..d.tracedAt[i]]);
      }
    }
  }

  /** Descend in order: the package it enters is its own `p`, and the files traced afterwards
      are owed for `p` or for packages entered after it. */
  lemma OrderedAfterEnter(dirs: ParsedDirs, a: Snapshot, b: Snapshot, c: Snapshot, p: string)
    requires p in a.reg
    requires b == a.(entered := a.entered + [p], visited := a.visited + {p}, enteredAt := a.enteredAt + [|a.traced|])
    requires |a.enteredAt| == |a.entered|
    requires Ordered(dirs, b, c, DirFiles(dirs, a.reg[p].fsPath, p), {})
    ensures Ordered(dirs, a, c, {}, {p})
  {
    EntriesAfterEnter(a, b, c, p);
    FilesAfterEnter(dirs, a, b, c, p);
  }

  lemma EntriesAfterEnter(a: Snapshot, b: Snapshot, c: Snapshot, p: string)
    requires b.reg == a.reg && b.traced == a.traced && b.entered == a.entered + [p] && b.enteredAt == a.enteredAt + [|a.traced|]
    requires |a.enteredAt| == |a.entered|
    requires EntriesOrdered(b, c, {})
    ensures EntriesOrdered(a, c, {p})
  {
    assert a.entered <= c.entered && a.enteredAt <= c.enteredAt by {
      assert c.entered[..|a.entered|] == c.entered[..|b.entered|][..|a.entered|];
      assert c.enteredAt[..|a.enteredAt|] == c.enteredAt[..|b.enteredAt|][..|a.enteredAt|];
    }
    forall k | |a.entered| <= k < |c.entered|
      ensures |a.traced| <= c.enteredAt[k] <= |c.traced|
      ensures c.entered[k] in {p} + LogTargets(a.reg, c.traced[|a.traced|..c.enteredAt[k]])
    {
      if k == |a.entered| {
        assert c.entered[k] == b.entered[k] == p && c.enteredAt[k] == b.enteredAt[k];
      }
    }
  }

  lemma FilesAfterEnter(dirs: ParsedDirs, a: Snapshot, b: Snapshot, c: Snapshot, p: string)
    requires p in a.reg
    requires b == a.(entered := a.entered + [p], visited := a.visited + {p}, enteredAt := a.enteredAt + [|a.traced|])
    requires FilesOrdered(dirs, b, c, DirFiles(dirs, a.reg[p].fsPath, p))
    ensures FilesOrdered(dirs, a, c, {})
  {
    assert a.entered <= c.entered by {
      assert c.entered[..|a.entered|] == c.entered[..|b.entered|][..|a.entered|];
    }
    forall i | |a.traced| <= i < |c.traced|
      ensures |a.entered| <= c.tracedAt[i] <= |c.entered|
      ensures c.traced[i] in EnteredFiles(dirs, a.reg, c.entered[|a.entered|..c.tracedAt[i]])
    {
      var m := c.tracedAt[i];
      var rest := c.entered[|b.entered|..m];
      assert c.entered[|a.entered|..m] == [p] + rest by {
        assert c.entered[|a.entered|] == b.entered[|a.entered|] == p;
      }
      EnteredFilesConcat(dirs, a.reg, [p], rest);
      assert EnteredFiles(dirs, a.reg, [p]) == Owed(dirs, a.reg, p) by {
        assert [p][0] == p && [p][1..] == [];
      }
    }
  }

  /** A file owed for a list of entries is owed for one of them. */
  lemma {:induction false} EnteredFilesWhich(dirs: ParsedDirs, reg: Registry, es: seq<string>, t: Traced)
    returns (m: nat)
    requires t in EnteredFiles(dirs, reg, es)
    ensures m < |es| && t in Owed(dirs, reg, es[m])
    decreases |es|
  {
    if t in Owed(dirs, reg, es[0]) {
      m := 0;
    } else {
      var m' := EnteredFilesWhich(dirs, reg, es[1..], t);
      m := m' + 1;
      assert es[1..][m'] == es[m];
    }
  }

  /** The trace enters no package beyond what its own files reach. Take any set X of packages
      that holds `extra` and every target of the `own` files, and that is closed under imports:
      with each package, X holds every target of the files owed for it. Then every package entered
      between the two moments is in X, and so is every target of every file traced. In
      particular, an import cycle that no traced file names is never entered. */
  lemma EnteredWithinClosure(dirs: ParsedDirs, a: Snapshot, b: Snapshot, own: set<Traced>, extra: set<string>,
                             X: set<string>)
    requires Ordered(dirs, a, b, own, extra) && Clocked(b.tracedAt, b.enteredAt)
    requires extra <= X
    requires forall t :: t in own ==> Targets(a.reg, t.file) <= X
    requires forall q, t :: q in X && t in Owed(dirs, a.reg, q) ==> Targets(a.reg, t.file) <= X
    ensures Elems(b.entered[|a.entered|..]) <= X
    ensures forall i :: |a.traced| <= i < |b.traced| ==> Targets(a.reg, b.traced[i].file) <= X
  {
    forall q | q in Elems(b.entered[|a.entered|..])
      ensures q in X
    {
      var j :| 0 <= j < |b.entered[|a.entered|..]| && b.entered[|a.entered|..][j] == q;
      EnteredWithin(dirs, a, b, own, extra, X, |a.entered| + j);
    }
    forall i | |a.traced| <= i < |b.traced|
      ensures Targets(a.reg, b.traced[i].file) <= X
    {
      TracedWithin(dirs, a, b, own, extra, X, i);
    }
  }

  lemma EnteredWithin(dirs: ParsedDirs, a: Snapshot, b: Snapshot, own: set<Traced>, extra: set<string>,
                      X: set<string>, k: nat)
    requires Ordered(dirs, a, b, own, extra) && Clocked(b.tracedAt, b.enteredAt)
    requires extra <= X
    requires forall t :: t in own ==> Targets(a.reg, t.file) <= X
    requires forall q, t :: q in X && t in Owed(dirs, a.reg, q) ==> Targets(a.reg, t.file) <= X
    requires |a.entered| <= k < |b.entered|
    ensures b.entered[k] in X
    decreases k, 1
  {
    if b.entered[k] !in extra {
      var i := EntryWitness(a, b, k);
      ClockedAt(b.tracedAt, b.enteredAt, i, k);
      TracedWithin(dirs, a, b, own, extra, X, i);
    }
  }

  lemma TracedWithin(dirs: ParsedDirs, a: Snapshot, b: Snapshot, own: set<Traced>, extra: set<string>,
                     X: set<string>, i: nat)
    requires Ordered(dirs, a, b, own, extra) && Clocked(b.tracedAt, b.enteredAt)
    requires extra <= X
    requires forall t :: t in own ==> Targets(a.reg, t.file) <= X
    requires forall q, t :: q in X && t in Owed(dirs, a.reg, q) ==> Targets(a.reg, t.file) <= X
    requires |a.traced| <= i < |b.traced|
    ensures Targets(a.reg, b.traced[i].file) <= X
    decreases b.tracedAt[i], 0
  {
    if b.traced[i] !in own {
      var k := FileWitness(dirs, a, b, own, i);
      EnteredWithin(dirs, a, b, own, extra, X, k);
    }
  }

  /** A package entered for none of `extra` is a target of a file traced at an earlier clock. */
  lemma EntryWitness(a: Snapshot, b: Snapshot, k: nat) returns (i: nat)
    requires k < |b.entered| && k < |b.enteredAt|
    requires |a.traced| <= b.enteredAt[k] <= |b.traced|
    requires b.entered[k] in LogTargets(a.reg, b.traced[|a.traced|..b.enteredAt[k]])
    ensures |a.traced| <= i < b.enteredAt[k]
    ensures b.entered[k] in Targets(a.reg, b.traced[i].file)
  {
    var log := b.traced[|a.traced|..b.enteredAt[k]];
    var j := LogTargetsWhich(a.reg, log, b.entered[k]);
    i := |a.traced| + j;
    assert b.traced[i] == log[j];
  }

  /** A target of a log is a target of one of its files. */
  lemma {:induction false} LogTargetsWhich(reg: Registry, log: seq<Traced>, q: string) returns (j: nat)
    requires q in LogTargets(reg, log)
    ensures j < |log| && q in Targets(reg, log[j].file)
    decreases |log|
  {
    if q in Targets(reg, log[0].file) {
      j := 0;
    } else {
      var j' := LogTargetsWhich(reg, log[1..], q);
      j := j' + 1;
      assert log[1..][j'] == log[j];
    }
  }

  lemma ClockedAt(tracedAt: seq<nat>, enteredAt: seq<nat>, i: nat, k: nat)
    requires Clocked(tracedAt, enteredAt)
    requires i < |tracedAt| && k < |enteredAt| && i < enteredAt[k]
    ensures tracedAt[i] <= k
  {
  }

  /** A file traced for none of `own` is owed for a package entered at an earlier clock. */
  lemma FileWitness(dirs: ParsedDirs, a: Snapshot, b: Snapshot, own: set<Traced>, i: nat) returns (k: nat)
    requires FilesOrdered(dirs, a, b, own)
    requires |a.traced| <= i < |b.traced| && b.traced[i] !in own
    ensures |a.entered| <= k < b.tracedAt[i] <= |b.entered|
    ensures b.traced[i] in Owed(dirs, a.reg, b.entered[k])
  {
    var es := b.entered[|a.entered|..b.tracedAt[i]];
    var m := EnteredFilesWhich(dirs, a.reg, es, b.traced[i]);
    k := |a.entered| + m;
    assert es[m] == b.entered[k];
  }

  // ---------------------------------------------------------------------------------------------
  // The recursion's steps, each composed once

  /** Two stretches in a row compose: what the first and the second owe, visit and enter
      together bounds what the whole does. */
  lemma Compose(dirs: ParsedDirs, a: Snapshot, b: Snapshot, c: Snapshot, o1: set<Traced>, o2: set<Traced>,
                o: set<Traced>, e1: set<string>, e2: set<string>, e: set<string>, recordSame: bool, addsKeys: bool)
    requires Stretch(dirs, a, b, o1, e1, recordSame, addsKeys) && Stretch(dirs, b, c, o2, e2, recordSame, addsKeys)
    requires o == o1 + o2 && e1 + e2 <= e
    ensures Stretch(dirs, a, c, o, e, recordSame, addsKeys)
  {
    TracesTrans(a, b, c, recordSame, addsKeys);
    ClosedTrans(a, b, c, recordSame, addsKeys);
    LoggedTrans(dirs, a, b, c, o1, o2, recordSame, addsKeys);
    BoundedTrans(a, b, c, e1, e2, e, recordSame, addsKeys);
    TracesLayout(a, b, recordSame, addsKeys);
    OrderedTrans(dirs, a, b, c, o1, o2, e1, e2, o, e);
  }

  /** Entering `p` and then tracing its directory: the stretch owes nothing more, visits `p` and
      what the traced files import, and enters `p` first. */
  lemma EnterAndTrace(dirs: ParsedDirs, a: Snapshot, b: Snapshot, c: Snapshot, p: string, fsPath: string,
                      recordSame: bool, addsKeys: bool)
    requires p !in a.visited && p in a.reg && fsPath == a.reg[p].fsPath && |a.enteredAt| == |a.entered|
    requires b.reg == a.reg && b.traced == a.traced && b.tracedAt == a.tracedAt
    requires b.entered == a.entered + [p] && b.visited == a.visited + {p} && b.enteredAt == a.enteredAt + [|a.traced|]
    requires Stretch(dirs, b, c, DirFiles(dirs, fsPath, p), {}, recordSame, addsKeys)
    ensures Stretch(dirs, a, c, {}, {p}, recordSame, addsKeys) && c.reg.Keys == a.reg.Keys
    ensures DirFiles(dirs, a.reg[p].fsPath, p) <= Elems(c.traced[|a.traced|..])
  {
    assert b == a.(entered := a.entered + [p], visited := a.visited + {p}, enteredAt := a.enteredAt + [|a.traced|]);
    EnterStep(a, b, p, recordSame, addsKeys);
    BoundedStep(a, b, {p});
    BoundedTrans(a, b, c, {p}, {}, {p}, recordSame, addsKeys);
    OrderedAfterEnter(dirs, a, b, c, p);
    TracesTrans(a, b, c, recordSame, addsKeys);
    ClosedTrans(a, b, c, recordSame, addsKeys);
    LoggedEnter(dirs, a, b, c, p);
    TracesKeys(a, c, recordSame, addsKeys);
  }

  /** traceFile as a whole: its own log entry, then the importMap loop, then the dot loop. The
      file's targets are the two loops' bounds, and all of them are visited by the end. */
  lemma TraceFileAll(dirs: ParsedDirs, a: Snapshot, b: Snapshot, c: Snapshot, d: Snapshot, mid: Registry, ctx: Context,
                     t: Traced, bound: set<string>, dots: set<string>, recordSame: bool, addsKeys: bool)
    requires mid == Apply(a.reg, Effect(ImportedPaths(a.reg, FileImports(t.file.decls)), {}), addsKeys)
    requires ctx == Context(Bindings(a.reg, FileImports(t.file.decls)), t.pkgName, recordSame)
    requires b.reg == Apply(mid, Effect({}, TreeUses(ctx, None, t.file)), addsKeys)
    requires b.traced == a.traced + [t] && b.tracedAt == a.tracedAt + [|a.entered|] && |a.tracedAt| == |a.traced|
    requires b.entered == a.entered && b.enteredAt == a.enteredAt && b.visited == a.visited
    requires Stretch(dirs, b, c, {}, bound, recordSame, addsKeys) && Stretch(dirs, c, d, {}, dots, recordSame, addsKeys)
    requires Targets(a.reg, t.file) == bound + dots && bound + dots <= d.visited
    ensures |a.traced| < |d.traced| && d.traced[|a.traced|] == t
    ensures Stretch(dirs, a, d, {t}, {}, recordSame, addsKeys)
  {
    OwnFileTraced(a, b, mid, ctx, t.file, t.pkgName, recordSame, addsKeys);
    TraceFileSteps(a, b, c, d, t.file, t.pkgName, recordSame, addsKeys);
    assert d.traced[|a.traced|] == b.traced[|a.traced|];
    TraceFileLogged(dirs, a, b, c, d, t, recordSame, addsKeys);
    TracesLayout(a, b, recordSame, addsKeys);
    TracesLayout(b, c, recordSame, addsKeys);
    TraceFileBounded(a, b, c, d, t, bound, dots);
    OrderedTrans(dirs, b, c, d, {}, {}, bound, dots, {}, Targets(a.reg, t.file));
    OrderedAfterOwnFile(dirs, a, b, d, t);
  }

  /** One package of RecordUsage's loop: a test package is skipped, any other has its files traced. */
  lemma RecordStep(dirs: ParsedDirs, a: Snapshot, b: Snapshot, c: Snapshot, pkgs: seq<Package>, i: nat,
                   pkgName: string, recordSame: bool, addsKeys: bool)
    requires i < |pkgs|
    requires Stretch(dirs, a, b, PackageFiles(pkgs[..i], pkgName), {}, recordSame, addsKeys)
    requires IsTestPackage(pkgs[i]) ==> c == b
    requires !IsTestPackage(pkgs[i]) ==> Stretch(dirs, b, c, FileSet(pkgs[i].files, pkgName), {}, recordSame, addsKeys)
    ensures Stretch(dirs, a, c, PackageFiles(pkgs[..i + 1], pkgName), {}, recordSame, addsKeys)
  {
    PackageFilesStep(pkgs, i, pkgName);
    if !IsTestPackage(pkgs[i]) {
      Compose(dirs, a, b, c, PackageFiles(pkgs[..i], pkgName), FileSet(pkgs[i].files, pkgName),
              PackageFiles(pkgs[..i + 1], pkgName), {}, {}, {}, recordSame, addsKeys);
    }
  }

  /** traceFile's own step: binding the imports and walking the file apply exactly the file's
      effect, and the file is logged. */
  lemma OwnFileTraced(a: Snapshot, b: Snapshot, mid: Registry, ctx: Context, file: FileNode, pkgName: string,
                      recordSame: bool, addsKeys: bool)
    requires mid == Apply(a.reg, Effect(ImportedPaths(a.reg, FileImports(file.decls)), {}), addsKeys)
    requires ctx == Context(Bindings(a.reg, FileImports(file.decls)), pkgName, recordSame)
    requires b.reg == Apply(mid, Effect({}, TreeUses(ctx, None, file)), addsKeys)
    requires b.traced == a.traced + [Traced(file, pkgName)] && b.tracedAt == a.tracedAt + [|a.entered|]
    requires b.entered == a.entered && b.enteredAt == a.enteredAt && b.visited == a.visited
    ensures Traces(a, b, recordSame, addsKeys) && b.reg.Keys == a.reg.Keys
  {
    var imps := FileImports(file.decls);
    ApplyJoin(a.reg, Effect(ImportedPaths(a.reg, imps), {}),
              Effect({}, TreeUses(Context(Bindings(a.reg, imps), pkgName, recordSame), None, file)), addsKeys);
    OwnFileEffect(a.reg, file, pkgName, recordSame);
    TracesOwnFile(a, file, pkgName, recordSame, addsKeys);
    TracesKeys(a, b, recordSame, addsKeys);
  }

  /** Entering a package not yet visited keeps the entered list free of repeats. */
  lemma EnteredDistinct(entered: seq<string>, visited: set<string>, p: string)
    requires Distinct(entered) && Elems(entered) <= visited && p !in visited
    ensures Distinct(entered + [p]) && Elems(entered + [p]) <= visited + {p}
  {
    ElemsAppend(entered, p);
  }
}
