/** The declaration indexer (discover/discover.go): every top-level function, type and value name of
    every non-test package under a directory tree is handed to NewIdentifier. */
module Discover {

  import opened Common
  import opened GoStrings
  import opened Syntax
  import opened State

  // ---------------------------------------------------------------------------------------------
  // What analyzeFile registers

  function IdentNames(ids: seq<Ident>): (r: seq<string>)
    ensures |r| == |ids| && forall k :: 0 <= k < |ids| ==> r[k] == ids[k].name
  {
    if ids == [] then [] else [ids[0].name] + IdentNames(ids[1..])
  }

  /** The names one spec contributes: a TypeSpec its name, a ValueSpec each of its names. */
  function SpecNamesOf(spec: Node): (names: seq<string>)
  {
    match spec
    case TypeSpec(_, name, _) => [name.name]
    case ValueSpec(_, names, _) => IdentNames(names)
    case _ => []
  }

  function SpecNames(specs: seq<Node>): (names: seq<string>)
  {
    if specs == [] then [] else SpecNamesOf(specs[0]) + SpecNames(specs[1..])
  }

  /** The names one top-level declaration contributes, in the order analyzeFile passes them on. */
  function DeclNamesOf(decl: Node): (names: seq<string>)
  {
    match decl
    case FuncDecl(_, _, name, _) => [name.name]
    case GenDecl(_, specs) => SpecNames(specs)
    case _ => []
  }

  function DeclNames(decls: seq<Node>): (names: seq<string>)
  {
    if decls == [] then [] else DeclNamesOf(decls[0]) + DeclNames(decls[1..])
  }

  /** Independent statement of which declarations name `s`: a function or method declaration, a type
      spec, or one of the names of a var/const spec. Import specs and everything else name nothing. */
  ghost predicate SpecDeclares(spec: Node, s: string)
  {
    || (spec.TypeSpec? && spec.name.name == s)
    || (spec.ValueSpec? && exists k :: 0 <= k < |spec.names| && spec.names[k].name == s)
  }

  ghost predicate Declares(decl: Node, s: string)
  {
    || (decl.FuncDecl? && decl.name.name == s)
    || (decl.GenDecl? && exists j :: 0 <= j < |decl.specs| && SpecDeclares(decl.specs[j], s))
  }

  lemma {:induction false} SpecNamesComplete(specs: seq<Node>, s: string)
    ensures s in SpecNames(specs) <==> exists j :: 0 <= j < |specs| && SpecDeclares(specs[j], s)
  {
    if specs != [] {
      SpecNamesComplete(specs[1..], s);
      var head := specs[0];
      assert s in SpecNamesOf(head) <==> SpecDeclares(head, s) by {
        if head.ValueSpec? {
          if s in IdentNames(head.names) {
            var k :| 0 <= k < |head.names| && IdentNames(head.names)[k] == s;
            assert head.names[k].name == s;
          }
        }
      }
      if exists j :: 0 <= j < |specs| && SpecDeclares(specs[j], s) {
        var j :| 0 <= j < |specs| && SpecDeclares(specs[j], s);
        if j > 0 {
          assert SpecDeclares(specs[1..][j - 1], s);
        }
      }
      if exists j :: 0 <= j < |specs| - 1 && SpecDeclares(specs[1..][j], s) {
        var j :| 0 <= j < |specs| - 1 && SpecDeclares(specs[1..][j], s);
        assert SpecDeclares(specs[j + 1], s);
      }
    }
  }

  /** analyzeFile passes on exactly the declared names: every FuncDecl name (methods included), every
      TypeSpec name, every name of every ValueSpec, and nothing for any other spec or declaration. */
  lemma {:induction false} DeclNamesComplete(decls: seq<Node>, s: string)
    ensures s in DeclNames(decls) <==> exists i :: 0 <= i < |decls| && Declares(decls[i], s)
  {
    if decls != [] {
      DeclNamesComplete(decls[1..], s);
      var head := decls[0];
      assert s in DeclNamesOf(head) <==> Declares(head, s) by {
        if head.GenDecl? {
          SpecNamesComplete(head.specs, s);
        }
      }
      if exists i :: 0 <= i < |decls| && Declares(decls[i], s) {
        var i :| 0 <= i < |decls| && Declares(decls[i], s);
        if i > 0 {
          assert Declares(decls[1..][i - 1], s);
        }
      }
      if exists i :: 0 <= i < |decls| - 1 && Declares(decls[1..][i], s) {
        var i :| 0 <= i < |decls| - 1 && Declares(decls[1..][i], s);
        assert Declares(decls[i + 1], s);
      }
    }
  }


  /** Some declaration of the file declares `s`. */
  ghost predicate DeclaredIn(decls: seq<Node>, s: string)
  {
    exists i :: 0 <= i < |decls| && Declares(decls[i], s)
  }

  lemma DeclNamesStep(decls: seq<Node>, i: nat)
    requires i < |decls|
    ensures DeclNames(decls[i..]) == DeclNamesOf(decls[i]) + DeclNames(decls[i + 1..])
  {
    assert decls[i..][0] == decls[i] && decls[i..][1..] == decls[i + 1..];
  }

  lemma SpecNamesStep(specs: seq<Node>, j: nat)
    requires j < |specs|
    ensures SpecNames(specs[j..]) == SpecNamesOf(specs[j]) + SpecNames(specs[j + 1..])
  {
    assert specs[j..][0] == specs[j] && specs[j..][1..] == specs[j + 1..];
  }

  lemma IdentNamesStep(ids: seq<Ident>, k: nat)
    requires k < |ids|
    ensures IdentNames(ids[k..]) == [ids[k].name] + IdentNames(ids[k + 1..])
  {
    assert ids[k..][0] == ids[k] && ids[k..][1..] == ids[k + 1..];
  }

  // ---------------------------------------------------------------------------------------------
  // The registry after a sequence of NewIdentifier calls

  /** NewIdentifier applied to each name in turn. */
  function RegisterAll(reg: Registry, fsPath: string, pkgPath: string, pkgName: string, names: seq<string>)
    : (r: Registry)
    decreases |names|
  {
    if names == [] then reg
    else RegisterAll(Register(reg, fsPath, pkgPath, pkgName, names[0]), fsPath, pkgPath, pkgName, names[1..])
  }

  lemma RegisterAllCons(reg: Registry, fsPath: string, pkgPath: string, pkgName: string, x: string, rest: seq<string>)
    ensures RegisterAll(reg, fsPath, pkgPath, pkgName, [x] + rest) ==
            RegisterAll(Register(reg, fsPath, pkgPath, pkgName, x), fsPath, pkgPath, pkgName, rest)
  {
    assert ([x] + rest)[0] == x && ([x] + rest)[1..] == rest;
  }

  lemma RegisterAllOne(reg: Registry, fsPath: string, pkgPath: string, pkgName: string, x: string)
    ensures RegisterAll(reg, fsPath, pkgPath, pkgName, [x]) == Register(reg, fsPath, pkgPath, pkgName, x)
  {
    assert [x][1..] == [];
  }

  lemma {:induction false} RegisterAllConcat(reg: Registry, fsPath: string, pkgPath: string, pkgName: string, a: seq<string>, b: seq<string>)
    ensures RegisterAll(reg, fsPath, pkgPath, pkgName, a + b) ==
            RegisterAll(RegisterAll(reg, fsPath, pkgPath, pkgName, a), fsPath, pkgPath, pkgName, b)
    decreases |a|
  {
    if a == [] {
      assert a + b == b;
    } else {
      assert (a + b)[0] == a[0] && (a + b)[1..] == a[1..] + b;
      RegisterAllConcat(Register(reg, fsPath, pkgPath, pkgName, a[0]), fsPath, pkgPath, pkgName, a[1..], b);
    }
  }

  /** The exported names among `names`. */
  function ExportedOf(names: set<string>): (ex: set<string>)
    ensures forall s :: s in ex <==> s in names && IsExported(s)
  {
    set s | s in names && IsExported(s)
  }

  /** Each of `ex` mapped to "unused". */
  function Unused(ex: set<string>): (m: map<string, bool>)
    ensures m.Keys == ex && forall s :: s in m ==> !m[s]
  {
    map s | s in ex :: false
  }

  /** The registry after registering a set of names, in closed form: nothing happens unless one of
      them is exported; then the package's record (created, with the given name and directory and
      not imported, if it was missing) gains every exported name as a key flagged unused, keeps the
      flags of its other identifiers, and every other record stays as it was. */
  function RegisterSet(reg: Registry, fsPath: string, pkgPath: string, pkgName: string, names: set<string>): (r: Registry)
    ensures ExportedOf(names) == {} ==> r == reg
    ensures ExportedOf(names) != {} ==> r.Keys == reg.Keys + {pkgPath}
    ensures forall p :: p in reg && p != pkgPath ==> p in r && r[p] == reg[p]
    ensures ExportedOf(names) != {} && pkgPath !in reg ==>
              r[pkgPath] == PackageState(pkgName, fsPath, false, Unused(ExportedOf(names)))
    ensures ExportedOf(names) != {} && pkgPath in reg ==>
              && r[pkgPath].name == reg[pkgPath].name
              && r[pkgPath].fsPath == reg[pkgPath].fsPath
              && r[pkgPath].imported == reg[pkgPath].imported
              && r[pkgPath].identifiers.Keys == reg[pkgPath].identifiers.Keys + ExportedOf(names)
              && (forall s :: s in ExportedOf(names) ==> !r[pkgPath].identifiers[s])
              && (forall s :: s in reg[pkgPath].identifiers && s !in ExportedOf(names) ==>
                    r[pkgPath].identifiers[s] == reg[pkgPath].identifiers[s])
  {
    var ex := ExportedOf(names);
    if ex == {} then reg
    else
      var ps := if pkgPath in reg then reg[pkgPath] else PackageState(pkgName, fsPath, false, map[]);
      reg[pkgPath := ps.(identifiers := ps.identifiers + Unused(ex))]
  }

  /** The record NewIdentifier starts from: the registered one, or a fresh one. */
  function EntryOf(reg: Registry, fsPath: string, pkgPath: string, pkgName: string): (ps: PackageState)
  {
    if pkgPath in reg then reg[pkgPath] else PackageState(pkgName, fsPath, false, map[])
  }

  lemma RegisterSetEntry(reg: Registry, fsPath: string, pkgPath: string, pkgName: string, names: set<string>)
    ensures var r := RegisterSet(reg, fsPath, pkgPath, pkgName, names);
      var ps := EntryOf(reg, fsPath, pkgPath, pkgName);
      EntryOf(r, fsPath, pkgPath, pkgName) == ps.(identifiers := ps.identifiers + Unused(ExportedOf(names)))
  {
    var ps := EntryOf(reg, fsPath, pkgPath, pkgName);
    if ExportedOf(names) == {} {
      assert ps.identifiers + Unused(ExportedOf(names)) == ps.identifiers;
    }
  }

  lemma RegisterOnSet(reg: Registry, fsPath: string, pkgPath: string, pkgName: string, names: set<string>, x: string)
    requires IsExported(x)
    ensures var ps := EntryOf(reg, fsPath, pkgPath, pkgName);
      Register(RegisterSet(reg, fsPath, pkgPath, pkgName, names), fsPath, pkgPath, pkgName, x) ==
      reg[pkgPath := ps.(identifiers := ps.identifiers + Unused(ExportedOf(names) + {x}))]
  {
    var ps := EntryOf(reg, fsPath, pkgPath, pkgName);
    var r1 := RegisterSet(reg, fsPath, pkgPath, pkgName, names);
    var ps2 := ps.(identifiers := ps.identifiers + Unused(ExportedOf(names) + {x}));
    RegisterSetEntry(reg, fsPath, pkgPath, pkgName, names);
    var e1 := EntryOf(r1, fsPath, pkgPath, pkgName);
    UnusedAdd(ps.identifiers, ExportedOf(names), x);
    assert Register(r1, fsPath, pkgPath, pkgName, x) == r1[pkgPath := ps2];
    if ExportedOf(names) != {} {
      RegisterSetShape(reg, fsPath, pkgPath, pkgName, names);
      UpdateTwice(reg, pkgPath, e1, ps2);
    }
  }

  /** Registering an exported name replaces one record and nothing else. */
  lemma RegisterSetShape(reg: Registry, fsPath: string, pkgPath: string, pkgName: string, names: set<string>)
    requires ExportedOf(names) != {}
    ensures var r := RegisterSet(reg, fsPath, pkgPath, pkgName, names);
      r == reg[pkgPath := EntryOf(r, fsPath, pkgPath, pkgName)]
  {
  }

  lemma UnusedAdd(m: map<string, bool>, ex: set<string>, x: string)
    ensures (m + Unused(ex))[x := false] == m + Unused(ex + {x})
  {
  }

  lemma UpdateTwice(m: Registry, k: string, a: PackageState, b: PackageState)
    ensures m[k := a][k := b] == m[k := b]
  {
  }

  lemma RegisterSetAdd(reg: Registry, fsPath: string, pkgPath: string, pkgName: string, names: set<string>, x: string)
    ensures Register(RegisterSet(reg, fsPath, pkgPath, pkgName, names), fsPath, pkgPath, pkgName, x) ==
            RegisterSet(reg, fsPath, pkgPath, pkgName, names + {x})
  {
    if IsExported(x) {
      assert ExportedOf(names + {x}) == ExportedOf(names) + {x};
      RegisterOnSet(reg, fsPath, pkgPath, pkgName, names, x);
    } else {
      assert ExportedOf(names + {x}) == ExportedOf(names);
    }
  }

  /** The order of the names does not matter, and neither do repetitions: registering a sequence of
      names in any order gives the closed form for its set of names. */
  lemma {:induction false} RegisterAllIsSet(reg: Registry, fsPath: string, pkgPath: string, pkgName: string, names: seq<string>)
    ensures RegisterAll(reg, fsPath, pkgPath, pkgName, names) == RegisterSet(reg, fsPath, pkgPath, pkgName, Elems(names))
    decreases |names|
  {
    if names == [] {
      assert ExportedOf(Elems(names)) == {};
    } else {
      var front := names[..|names| - 1];
      var x := names[|names| - 1];
      assert names == front + [x];
      RegisterAllConcat(reg, fsPath, pkgPath, pkgName, front, [x]);
      RegisterAllIsSet(reg, fsPath, pkgPath, pkgName, front);
      RegisterAllOne(RegisterAll(reg, fsPath, pkgPath, pkgName, front), fsPath, pkgPath, pkgName, x);
      RegisterSetAdd(reg, fsPath, pkgPath, pkgName, Elems(front), x);
      ElemsAppend(front, x);
    }
  }

  /** What analyzeFile leaves behind, in terms of what the file declares: the exported declared
      names are exactly the new identifier keys of the package, all flagged unused; the package has
      a record afterwards exactly when it had one or the file declares an exported name; no other
      record changes. */
  lemma AnalyzeFileRegisters(reg: Registry, decls: seq<Node>, fsPath: string, pkgPath: string, pkgName: string)
    ensures var r := RegisterAll(reg, fsPath, pkgPath, pkgName, DeclNames(decls));
      && (pkgPath in r <==> pkgPath in reg || exists s :: IsExported(s) && DeclaredIn(decls, s))
      && (forall p :: p in reg && p != pkgPath ==> p in r && r[p] == reg[p])
      && (forall s :: IsExported(s) && DeclaredIn(decls, s) ==>
            pkgPath in r && s in r[pkgPath].identifiers && !r[pkgPath].identifiers[s])
      && (forall s :: pkgPath in r && s in r[pkgPath].identifiers ==>
            (pkgPath in reg && s in reg[pkgPath].identifiers) || (IsExported(s) && DeclaredIn(decls, s)))
  {
    var names := DeclNames(decls);
    RegisterAllIsSet(reg, fsPath, pkgPath, pkgName, names);
    forall s
      ensures s in ExportedOf(Elems(names)) <==> IsExported(s) && DeclaredIn(decls, s)
    {
      DeclNamesComplete(decls, s);
    }
  }

  // ---------------------------------------------------------------------------------------------
  // analyzeFile, analyzePackage and DiscoverPackages

  method AnalyzeFile(usage: State, file: FileNode, fsPath: string, pkgPath: string, pkgName: string)
    modifies usage
    ensures usage.packages == RegisterAll(old(usage.packages), fsPath, pkgPath, pkgName, DeclNames(file.decls))
  {
    ghost var target := RegisterAll(usage.packages, fsPath, pkgPath, pkgName, DeclNames(file.decls));
    var decls := file.decls;
    for i := 0 to |decls|
      invariant RegisterAll(usage.packages, fsPath, pkgPath, pkgName, DeclNames(decls[i..])) == target
    {
      DeclNamesStep(decls, i);
      RegisterAllConcat(usage.packages, fsPath, pkgPath, pkgName, DeclNamesOf(decls[i]), DeclNames(decls[i + 1..]));
      ghost var mid := RegisterAll(usage.packages, fsPath, pkgPath, pkgName, DeclNamesOf(decls[i]));
      var decl := decls[i];
      if decl.FuncDecl? {
        RegisterAllOne(usage.packages, fsPath, pkgPath, pkgName, decl.name.name);
        usage.NewIdentifier(fsPath, pkgPath, pkgName, decl.name.name);
      }
      if decl.GenDecl? {
        AnalyzeSpecs(usage, decl.specs, fsPath, pkgPath, pkgName);
      }
    }
    assert decls[|decls|..] == [];
  }

  /** The loop of analyzeFile over the specs of one GenDecl. */
  method AnalyzeSpecs(usage: State, specs: seq<Node>, fsPath: string, pkgPath: string, pkgName: string)
    modifies usage
    ensures usage.packages == RegisterAll(old(usage.packages), fsPath, pkgPath, pkgName, SpecNames(specs))
  {
    ghost var mid := RegisterAll(usage.packages, fsPath, pkgPath, pkgName, SpecNames(specs));
    for j := 0 to |specs|
      invariant RegisterAll(usage.packages, fsPath, pkgPath, pkgName, SpecNames(specs[j..])) == mid
    {
      SpecNamesStep(specs, j);
      RegisterAllConcat(usage.packages, fsPath, pkgPath, pkgName, SpecNamesOf(specs[j]), SpecNames(specs[j + 1..]));
      ghost var mid2 := RegisterAll(usage.packages, fsPath, pkgPath, pkgName, SpecNamesOf(specs[j]));
      var spec := specs[j];
      if spec.TypeSpec? {
        RegisterAllOne(usage.packages, fsPath, pkgPath, pkgName, spec.name.name);
        usage.NewIdentifier(fsPath, pkgPath, pkgName, spec.name.name);
      }
      if spec.ValueSpec? {
        var names := spec.names;
        for k := 0 to |names|
          invariant RegisterAll(usage.packages, fsPath, pkgPath, pkgName, IdentNames(names[k..])) == mid2
        {
          IdentNamesStep(names, k);
          RegisterAllCons(usage.packages, fsPath, pkgPath, pkgName, names[k].name, IdentNames(names[k + 1..]));
          usage.NewIdentifier(fsPath, pkgPath, pkgName, names[k].name);
        }
        assert names[|names|..] == [];
      }
    }
    assert specs[|specs|..] == [];
  }

  function PackageNames(files: seq<FileNode>): (names: seq<string>)
  {
    if files == [] then [] else DeclNames(files[0].decls) + PackageNames(files[1..])
  }

  method AnalyzePackage(usage: State, fsPath: string, pkgPath: string, pkg: Package)
    modifies usage
    ensures usage.packages == RegisterAll(old(usage.packages), fsPath, pkgPath, pkg.name, PackageNames(pkg.files))
  {
    ghost var target := RegisterAll(usage.packages, fsPath, pkgPath, pkg.name, PackageNames(pkg.files));
    var files := pkg.files;
    for i := 0 to |files|
      invariant RegisterAll(usage.packages, fsPath, pkgPath, pkg.name, PackageNames(files[i..])) == target
    {
      assert files[i..][0] == files[i] && files[i..][1..] == files[i + 1..];
      RegisterAllConcat(usage.packages, fsPath, pkgPath, pkg.name, DeclNames(files[i].decls), PackageNames(files[i + 1..]));
      AnalyzeFile(usage, files[i], fsPath, pkgPath, pkg.name);
    }
    assert files[|files|..] == [];
  }

  /** The registry after the analyzePackage calls for one parsed directory. */
  function AnalyzePackages(reg: Registry, fsPath: string, pkgPath: string, pkgs: seq<Package>): (r: Registry)
    decreases |pkgs|
  {
    if pkgs == [] then reg
    else
      var r := if IsTestPackage(pkgs[0]) then reg
               else RegisterAll(reg, fsPath, pkgPath, pkgs[0].name, PackageNames(pkgs[0].files));
      AnalyzePackages(r, fsPath, pkgPath, pkgs[1..])
  }

  function NonTest(pkgs: seq<Package>): (r: seq<Package>)
    ensures forall i :: 0 <= i < |r| ==> !IsTestPackage(r[i])
    ensures forall i :: 0 <= i < |pkgs| && !IsTestPackage(pkgs[i]) ==> pkgs[i] in r
  {
    if pkgs == [] then []
    else (if IsTestPackage(pkgs[0]) then [] else [pkgs[0]]) + NonTest(pkgs[1..])
  }

  /** Test packages contribute nothing: analysing a directory is the same as analysing its
      non-test packages alone. */
  lemma {:induction false} TestPackagesIgnored(reg: Registry, fsPath: string, pkgPath: string, pkgs: seq<Package>)
    ensures AnalyzePackages(reg, fsPath, pkgPath, pkgs) == AnalyzePackages(reg, fsPath, pkgPath, NonTest(pkgs))
    decreases |pkgs|
  {
    if pkgs != [] {
      var r := if IsTestPackage(pkgs[0]) then reg
               else RegisterAll(reg, fsPath, pkgPath, pkgs[0].name, PackageNames(pkgs[0].files));
      TestPackagesIgnored(r, fsPath, pkgPath, pkgs[1..]);
      var nt := NonTest(pkgs);
      if IsTestPackage(pkgs[0]) {
        assert nt == NonTest(pkgs[1..]);
        TestPackagesIgnored(reg, fsPath, pkgPath, pkgs[1..]);
      } else {
        assert nt[0] == pkgs[0] && nt[1..] == NonTest(pkgs[1..]);
        TestPackagesIgnored(r, fsPath, pkgPath, pkgs[1..]);
      }
    }
  }

  /** A directory as DiscoverPackages sees it: what parser.ParseDir returns for it (`None` is a parse
      error), whether os.ReadDir succeeds, and the entries it then lists. */
  datatype DirTree = DirTree(parsed: Option<seq<Package>>, readOk: bool, entries: seq<DirEntry>)
  datatype DirEntry = DirEntry(name: string, kind: EntryKind)
  datatype EntryKind = RegularFile | Directory(tree: DirTree)

  /** The registry after DiscoverPackages(fsPath, importPath) on a tree. */
  function Discovered(reg: Registry, tree: DirTree, fsPath: string, importPath: string): (r: Registry)
    decreases tree
  {
    if tree.parsed.None? then reg
    else
      var r := AnalyzePackages(reg, fsPath, importPath, tree.parsed.value);
      if !tree.readOk then r else DiscoverEntries(r, tree.entries, fsPath, importPath)
  }

  function DiscoverEntries(reg: Registry, entries: seq<DirEntry>, fsPath: string, importPath: string): (r: Registry)
    decreases entries
  {
    if entries == [] then reg
    else
      var e := entries[0];
      var r := if e.kind.Directory? then Discovered(reg, e.kind.tree, fsPath + "/" + e.name, importPath + "/" + e.name)
               else reg;
      DiscoverEntries(r, entries[1..], fsPath, importPath)
  }

  /** An error of a subdirectory is dropped (the recursive call's result is ignored); only the
      directory's own ParseDir or ReadDir error is returned. */
  method DiscoverPackages(usage: State, tree: DirTree, fsPath: string, importPath: string) returns (failed: bool)
    modifies usage
    ensures usage.packages == Discovered(old(usage.packages), tree, fsPath, importPath)
    ensures failed <==> tree.parsed.None? || !tree.readOk
    decreases tree
  {
    if tree.parsed.None? {
      return true;
    }
    var pkgs := tree.parsed.value;
    ghost var afterPkgs := AnalyzePackages(usage.packages, fsPath, importPath, pkgs);
    for i := 0 to |pkgs|
      invariant AnalyzePackages(usage.packages, fsPath, importPath, pkgs[i..]) == afterPkgs
    {
      assert pkgs[i..][0] == pkgs[i] && pkgs[i..][1..] == pkgs[i + 1..];
      if !HasSuffix(pkgs[i].name, "_test") {
        AnalyzePackage(usage, fsPath, importPath, pkgs[i]);
      }
    }
    assert pkgs[|pkgs|..] == [];
    if !tree.readOk {
      return true;
    }
    var entries := tree.entries;
    ghost var target := DiscoverEntries(usage.packages, entries, fsPath, importPath);
    for i := 0 to |entries|
      invariant DiscoverEntries(usage.packages, entries[i..], fsPath, importPath) == target
    {
      assert entries[i..][0] == entries[i] && entries[i..][1..] == entries[i + 1..];
      var entry := entries[i];
      if entry.kind.Directory? {
        var _ := DiscoverPackages(usage, entry.kind.tree, fsPath + "/" + entry.name, importPath + "/" + entry.name);
      }
    }
    assert entries[|entries|..] == [];
    return false;
  }

  // ---------------------------------------------------------------------------------------------
  // Path pairing

  /** Discovery only adds: every record that existed keeps its name and directory, and a record it
      creates sits at importPath + X and points at directory fsPath + X, for the same suffix X. */
  ghost predicate PathsPaired(reg: Registry, r: Registry, fsPath: string, importPath: string)
  {
    && reg.Keys <= r.Keys
    && (forall p :: p in reg ==> r[p].name == reg[p].name && r[p].fsPath == reg[p].fsPath)
    && (forall p :: p in r && p !in reg ==>
          |importPath| <= |p| && p[..|importPath|] == importPath && r[p].fsPath == fsPath + p[|importPath|..])
  }

  lemma RegisterAllPaired(reg: Registry, fsPath: string, pkgPath: string, pkgName: string, names: seq<string>)
    ensures PathsPaired(reg, RegisterAll(reg, fsPath, pkgPath, pkgName, names), fsPath, pkgPath)
  {
    RegisterAllIsSet(reg, fsPath, pkgPath, pkgName, names);
    var r := RegisterSet(reg, fsPath, pkgPath, pkgName, Elems(names));
    assert pkgPath[..|pkgPath|] == pkgPath && pkgPath[|pkgPath|..] == [];
    assert fsPath + [] == fsPath;
  }

  lemma PairedTrans(r0: Registry, r1: Registry, r2: Registry, fsPath: string, importPath: string)
    requires PathsPaired(r0, r1, fsPath, importPath) && PathsPaired(r1, r2, fsPath, importPath)
    ensures PathsPaired(r0, r2, fsPath, importPath)
  {
  }

  lemma {:induction false} AnalyzePackagesPaired(reg: Registry, fsPath: string, pkgPath: string, pkgs: seq<Package>)
    ensures PathsPaired(reg, AnalyzePackages(reg, fsPath, pkgPath, pkgs), fsPath, pkgPath)
    decreases |pkgs|
  {
    if pkgs == [] {
      assert AnalyzePackages(reg, fsPath, pkgPath, pkgs) == reg;
    } else {
      var r := if IsTestPackage(pkgs[0]) then reg
               else RegisterAll(reg, fsPath, pkgPath, pkgs[0].name, PackageNames(pkgs[0].files));
      if !IsTestPackage(pkgs[0]) {
        RegisterAllPaired(reg, fsPath, pkgPath, pkgs[0].name, PackageNames(pkgs[0].files));
      }
      assert PathsPaired(reg, r, fsPath, pkgPath);
      AnalyzePackagesPaired(r, fsPath, pkgPath, pkgs[1..]);
      PairedTrans(reg, r, AnalyzePackages(r, fsPath, pkgPath, pkgs[1..]), fsPath, pkgPath);
    }
  }

  /** Pairing for a subdirectory carries over to its parent: both paths were extended by the same
      segment "/" + name. */
  lemma PairedChild(reg: Registry, r: Registry, fsPath: string, importPath: string, name: string)
    requires PathsPaired(reg, r, fsPath + "/" + name, importPath + "/" + name)
    ensures PathsPaired(reg, r, fsPath, importPath)
  {
    var seg := "/" + name;
    assert importPath + "/" + name == importPath + seg;
    assert fsPath + "/" + name == fsPath + seg;
    forall p | p in r && p !in reg
      ensures |importPath| <= |p| && p[..|importPath|] == importPath && r[p].fsPath == fsPath + p[|importPath|..]
    {
      PrefixSplit(p, importPath, seg, fsPath, r[p].fsPath);
    }
  }

  /** A path under `a + seg` is under `a`, and the directory paired with it lines up. */
  lemma PrefixSplit(p: string, a: string, seg: string, f: string, fp: string)
    requires |a + seg| <= |p| && p[..|a + seg|] == a + seg
    requires fp == (f + seg) + p[|a + seg|..]
    ensures |a| <= |p| && p[..|a|] == a && fp == f + p[|a|..]
  {
    var n := |a + seg|;
    assert p[..|a|] == (a + seg)[..|a|] == a;
    assert p[|a|..] == seg + p[n..];
  }

  /** DiscoverPackages' path-pairing rule over a whole tree. */
  lemma {:induction false} DiscoveredPaired(reg: Registry, tree: DirTree, fsPath: string, importPath: string)
    ensures PathsPaired(reg, Discovered(reg, tree, fsPath, importPath), fsPath, importPath)
    decreases tree
  {
    if tree.parsed.Some? {
      var r := AnalyzePackages(reg, fsPath, importPath, tree.parsed.value);
      AnalyzePackagesPaired(reg, fsPath, importPath, tree.parsed.value);
      if tree.readOk {
        DiscoverEntriesPaired(r, tree.entries, fsPath, importPath);
        PairedTrans(reg, r, DiscoverEntries(r, tree.entries, fsPath, importPath), fsPath, importPath);
      }
    }
  }

  lemma {:induction false} DiscoverEntriesPaired(reg: Registry, entries: seq<DirEntry>, fsPath: string, importPath: string)
    ensures PathsPaired(reg, DiscoverEntries(reg, entries, fsPath, importPath), fsPath, importPath)
    decreases entries
  {
    if entries != [] {
      var e := entries[0];
      var r := if e.kind.Directory? then Discovered(reg, e.kind.tree, fsPath + "/" + e.name, importPath + "/" + e.name)
               else reg;
      if e.kind.Directory? {
        DiscoveredPaired(reg, e.kind.tree, fsPath + "/" + e.name, importPath + "/" + e.name);
        PairedChild(reg, r, fsPath, importPath, e.name);
      }
      DiscoverEntriesPaired(r, entries[1..], fsPath, importPath);
      PairedTrans(reg, r, DiscoverEntries(r, entries[1..], fsPath, importPath), fsPath, importPath);
    }
  }
}
