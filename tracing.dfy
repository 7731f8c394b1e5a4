/** What tracing one file does to the registry, stated on values: the import classification, the
    marking rules of the visitor passed to ast.Inspect, and the resulting set of flag writes. Both
    tracers (usage/usage.go and the older copy in main.go) are proved against these definitions. */
module Tracing {

  import opened Common
  import opened GoStrings
  import opened Syntax
  import opened State

  // ---------------------------------------------------------------------------------------------
  // Effects: sets of flag writes

  /** One MarkIdentifierUsed(symbol) on package `pkg`; `qualified` when it comes from a selector
      `X.symbol`, the one write that main.go performs without checking the key. */
  datatype Use = Use(pkg: string, symbol: string, qualified: bool)

  /** The packages marked imported and the identifier flags set; every write sets a flag to true. */
  datatype Effect = Effect(imported: set<string>, uses: set<Use>)

  const NoEffect := Effect({}, {})

  function Join(a: Effect, b: Effect): (r: Effect)
  {
    Effect(a.imported + b.imported, a.uses + b.uses)
  }

  lemma JoinAssoc(a: Effect, b: Effect, c: Effect)
    ensures Join(Join(a, b), c) == Join(a, Join(b, c))
  {
  }

  predicate Marked(e: Effect, p: string, s: string)
  {
    Use(p, s, false) in e.uses || Use(p, s, true) in e.uses
  }

  /** The identifier keys that unconditional writes create in package `p` (none when keys are
      checked first). */
  function Forced(e: Effect, p: string, addsKeys: bool): (r: set<string>)
  {
    if addsKeys then set u | u in e.uses && u.pkg == p && u.qualified :: u.symbol else {}
  }

  function ApplyTo(ps: PackageState, p: string, e: Effect, addsKeys: bool): (r: PackageState)
  {
    ps.(imported := ps.imported || p in e.imported,
        identifiers := map s | s in ps.identifiers.Keys + Forced(e, p, addsKeys) ::
                         (s in ps.identifiers && ps.identifiers[s]) || Marked(e, p, s))
  }

  /** Records, names and directories never change. */
  ghost predicate SameLayout(r1: Registry, r2: Registry)
  {
    && r1.Keys == r2.Keys
    && forall p :: p in r1 ==> r2[p].name == r1[p].name && r2[p].fsPath == r1[p].fsPath
  }

  /** The registry after the writes of `e`, done in any order. Writes to unregistered packages do
      nothing (the tracers look the package up first). With `addsKeys`, a qualified write creates a
      missing key; otherwise a write to a missing key does nothing. */
  function Apply(reg: Registry, e: Effect, addsKeys: bool): (r: Registry)
  {
    map p | p in reg :: ApplyTo(reg[p], p, e, addsKeys)
  }

  /** Writes never add or remove a record, and never change a package's name or directory. */
  lemma ApplyLayout(reg: Registry, e: Effect, addsKeys: bool)
    ensures SameLayout(reg, Apply(reg, e, addsKeys))
  {
  }

  /** What the writes do to each record: `imported` is set for the packages in `e.imported`, the
      identifier keys grow by the forced writes only, and a flag is true afterwards exactly when it
      was true before or some write in `e` targets it. */
  lemma ApplySpec(reg: Registry, e: Effect, addsKeys: bool)
    ensures var r := Apply(reg, e, addsKeys);
      && (forall p :: p in reg ==> (r[p].imported <==> reg[p].imported || p in e.imported))
      && (forall p :: p in reg ==> r[p].identifiers.Keys == reg[p].identifiers.Keys + Forced(e, p, addsKeys))
      && (forall p, s :: p in reg && s in r[p].identifiers ==>
            (r[p].identifiers[s] <==> (s in reg[p].identifiers && reg[p].identifiers[s]) || Marked(e, p, s)))
  {
  }

  /** Tracing only ever sets flags: what was imported or used stays so, and the split tracer never
      creates or removes a record or an identifier key. */
  lemma ApplyMonotone(reg: Registry, e: Effect, addsKeys: bool)
    ensures var r := Apply(reg, e, addsKeys);
      && (forall p :: p in reg && reg[p].imported ==> r[p].imported)
      && (forall p, s :: p in reg && s in reg[p].identifiers && reg[p].identifiers[s] ==> r[p].identifiers[s])
      && (!addsKeys ==> forall p :: p in reg ==> r[p].identifiers.Keys == reg[p].identifiers.Keys)
  {
  }

  lemma ApplyNone(reg: Registry, addsKeys: bool)
    ensures Apply(reg, NoEffect, addsKeys) == reg
  {
    var r := Apply(reg, NoEffect, addsKeys);
    forall p | p in reg
      ensures r[p] == reg[p]
    {
      ApplyToUntouched(reg[p], p, NoEffect, addsKeys);
    }
    SameRecords(reg, r, reg);
  }

  lemma ForcedJoin(a: Effect, b: Effect, p: string, addsKeys: bool)
    ensures Forced(Join(a, b), p, addsKeys) == Forced(a, p, addsKeys) + Forced(b, p, addsKeys)
  {
  }

  lemma ForcedMarked(e: Effect, p: string, s: string, addsKeys: bool)
    requires s in Forced(e, p, addsKeys)
    ensures Marked(e, p, s)
  {
    var u :| u in e.uses && u.pkg == p && u.qualified && u.symbol == s;
    assert u == Use(p, s, true);
  }

  lemma ApplyToJoin(ps: PackageState, p: string, a: Effect, b: Effect, addsKeys: bool)
    ensures ApplyTo(ApplyTo(ps, p, a, addsKeys), p, b, addsKeys) == ApplyTo(ps, p, Join(a, b), addsKeys)
  {
    var mid := ApplyTo(ps, p, a, addsKeys);
    var lhs := ApplyTo(mid, p, b, addsKeys);
    var rhs := ApplyTo(ps, p, Join(a, b), addsKeys);
    ForcedJoin(a, b, p, addsKeys);
    assert lhs.identifiers.Keys == rhs.identifiers.Keys;
    forall s | s in lhs.identifiers
      ensures lhs.identifiers[s] == rhs.identifiers[s]
    {
      if s in Forced(b, p, addsKeys) {
        ForcedMarked(b, p, s, addsKeys);
      }
    }
  }

  /** Two batches of writes in a row are one batch of their union. */
  lemma ApplyJoin(reg: Registry, a: Effect, b: Effect, addsKeys: bool)
    ensures Apply(Apply(reg, a, addsKeys), b, addsKeys) == Apply(reg, Join(a, b), addsKeys)
  {
    var lhs := Apply(Apply(reg, a, addsKeys), b, addsKeys);
    var rhs := Apply(reg, Join(a, b), addsKeys);
    forall p | p in reg
      ensures lhs[p] == rhs[p]
    {
      ApplyJoinAt(reg, a, b, addsKeys, p);
    }
    SameRecords(reg, lhs, rhs);
  }

  /** Two registries over the same keys that agree on every key are equal. */
  lemma SameRecords(reg: Registry, r1: Registry, r2: Registry)
    requires r1.Keys == reg.Keys && r2.Keys == reg.Keys
    requires forall p :: p in reg ==> r1[p] == r2[p]
    ensures r1 == r2
  {
  }

  lemma ApplyJoinAt(reg: Registry, a: Effect, b: Effect, addsKeys: bool, p: string)
    requires p in reg
    ensures Apply(Apply(reg, a, addsKeys), b, addsKeys)[p] == Apply(reg, Join(a, b), addsKeys)[p]
  {
    var mid := Apply(reg, a, addsKeys);
    assert mid[p] == ApplyTo(reg[p], p, a, addsKeys);
    ApplyToJoin(reg[p], p, a, b, addsKeys);
  }

  /** Doing the same writes twice is doing them once: tracing a file again changes nothing. */
  lemma ApplyIdempotent(reg: Registry, e: Effect, addsKeys: bool)
    ensures Apply(Apply(reg, e, addsKeys), e, addsKeys) == Apply(reg, e, addsKeys)
  {
    ApplyJoin(reg, e, e, addsKeys);
    assert Join(e, e) == e;
  }

  /** pkgState.MarkImported() on a registered package is the single write {p}. */
  lemma MarkImportedStep(reg: Registry, p: string, addsKeys: bool)
    requires p in reg
    ensures reg[p := WithImported(reg[p])] == Apply(reg, Effect({p}, {}), addsKeys)
  {
    var e := Effect({p}, {});
    var r := Apply(reg, e, addsKeys);
    forall q | q in reg
      ensures r[q] == reg[p := WithImported(reg[p])][q]
    {
      if q == p {
        ApplyToImported(reg[p], p, addsKeys);
      } else {
        ApplyToUntouched(reg[q], q, e, addsKeys);
      }
    }
    SameRecords(reg, r, reg[p := WithImported(reg[p])]);
  }

  lemma ApplyToImported(ps: PackageState, p: string, addsKeys: bool)
    ensures ApplyTo(ps, p, Effect({p}, {}), addsKeys) == WithImported(ps)
  {
    var e := Effect({p}, {});
    assert Forced(e, p, addsKeys) == {};
    assert ApplyTo(ps, p, e, addsKeys).identifiers == ps.identifiers;
  }

  lemma ApplyToUntouched(ps: PackageState, q: string, e: Effect, addsKeys: bool)
    requires q !in e.imported && forall u :: u in e.uses ==> u.pkg != q
    ensures ApplyTo(ps, q, e, addsKeys) == ps
  {
    assert Forced(e, q, addsKeys) == {};
    assert ApplyTo(ps, q, e, addsKeys).identifiers == ps.identifiers;
  }

  lemma ApplyToUsed(ps: PackageState, p: string, s: string, q: bool, addsKeys: bool)
    requires !(q && addsKeys)
    ensures ApplyTo(ps, p, Effect({}, {Use(p, s, q)}), addsKeys) == WithIdentifierUsed(ps, s)
  {
    var e := Effect({}, {Use(p, s, q)});
    assert Forced(e, p, addsKeys) == {};
    assert ApplyTo(ps, p, e, addsKeys).identifiers == WithIdentifierUsed(ps, s).identifiers;
  }

  lemma ApplyToForced(ps: PackageState, p: string, s: string)
    ensures ApplyTo(ps, p, Effect({}, {Use(p, s, true)}), true) == ps.(identifiers := ps.identifiers[s := true])
  {
    var e := Effect({}, {Use(p, s, true)});
    assert Forced(e, p, true) == {s};
    assert ApplyTo(ps, p, e, true).identifiers == ps.identifiers[s := true];
  }

  /** pkgState.MarkIdentifierUsed(s) on a registered package is a single checked write (p, s):
      any write when keys are checked, an unqualified one in main.go. */
  lemma MarkUsedStep(reg: Registry, p: string, s: string, q: bool, addsKeys: bool)
    requires p in reg && !(q && addsKeys)
    ensures reg[p := WithIdentifierUsed(reg[p], s)] == Apply(reg, Effect({}, {Use(p, s, q)}), addsKeys)
  {
    var e := Effect({}, {Use(p, s, q)});
    var r := Apply(reg, e, addsKeys);
    forall x | x in reg
      ensures r[x] == reg[p := WithIdentifierUsed(reg[p], s)][x]
    {
      if x == p {
        ApplyToUsed(reg[p], p, s, q, addsKeys);
      } else {
        ApplyToUntouched(reg[x], x, e, addsKeys);
      }
    }
    SameRecords(reg, r, reg[p := WithIdentifierUsed(reg[p], s)]);
  }

  /** main.go's `identifiers[symbol] = true` on a registered package is the single unconditional
      write (p, s): it creates the key when it is missing. */
  lemma ForcedUseStep(reg: Registry, p: string, s: string)
    requires p in reg
    ensures reg[p := reg[p].(identifiers := reg[p].identifiers[s := true])] ==
            Apply(reg, Effect({}, {Use(p, s, true)}), true)
  {
    var e := Effect({}, {Use(p, s, true)});
    var r := Apply(reg, e, true);
    forall q | q in reg
      ensures r[q] == reg[p := reg[p].(identifiers := reg[p].identifiers[s := true])][q]
    {
      if q == p {
        ApplyToForced(reg[p], p, s);
      } else {
        ApplyToUntouched(reg[q], q, e, true);
      }
    }
    SameRecords(reg, r, reg[p := reg[p].(identifiers := reg[p].identifiers[s := true])]);
  }

  /** A write to a package that is not registered does nothing. */
  lemma UnregisteredStep(reg: Registry, p: string, s: string, q: bool, addsKeys: bool)
    requires p !in reg
    ensures Apply(reg, Effect({}, {Use(p, s, q)}), addsKeys) == reg
  {
    var e := Effect({}, {Use(p, s, q)});
    var r := Apply(reg, e, addsKeys);
    forall x | x in reg
      ensures r[x] == reg[x]
    {
      ApplyToUntouched(reg[x], x, e, addsKeys);
    }
    SameRecords(reg, r, reg);
  }

  /** The registry after earlier writes `e` and then one checked write (p, s): as if (p, s) had
      been part of the batch. An unregistered `p` is skipped, as the tracers' lookups do. */
  lemma CheckedWrite(reg0: Registry, e: Effect, p: string, s: string, q: bool, addsKeys: bool)
    requires !(q && addsKeys)
    ensures var cur := Apply(reg0, e, addsKeys);
      (if p in cur then cur[p := WithIdentifierUsed(cur[p], s)] else cur) ==
      Apply(reg0, Join(e, Effect({}, {Use(p, s, q)})), addsKeys)
  {
    var cur := Apply(reg0, e, addsKeys);
    if p in cur {
      MarkUsedStep(cur, p, s, q, addsKeys);
    } else {
      UnregisteredStep(cur, p, s, q, addsKeys);
    }
    ApplyJoin(reg0, e, Effect({}, {Use(p, s, q)}), addsKeys);
  }

  /** The same for main.go's unconditional qualified write. */
  lemma ForcedWrite(reg0: Registry, e: Effect, p: string, s: string)
    requires p in reg0
    ensures var cur := Apply(reg0, e, true);
      cur[p := cur[p].(identifiers := cur[p].identifiers[s := true])] ==
      Apply(reg0, Join(e, Effect({}, {Use(p, s, true)})), true)
  {
    var cur := Apply(reg0, e, true);
    ForcedUseStep(cur, p, s);
    ApplyJoin(reg0, e, Effect({}, {Use(p, s, true)}), true);
  }

  /** The same for marking a registered package imported. */
  lemma ImportWrite(reg0: Registry, e: Effect, p: string, addsKeys: bool)
    requires p in reg0
    ensures var cur := Apply(reg0, e, addsKeys);
      cur[p := WithImported(cur[p])] == Apply(reg0, Join(e, Effect({p}, {})), addsKeys)
  {
    var cur := Apply(reg0, e, addsKeys);
    MarkImportedStep(cur, p, addsKeys);
    ApplyJoin(reg0, e, Effect({p}, {}), addsKeys);
  }

  /** The two tracers report the same: the keys main.go creates are all flagged used, so for every
      package both leave the same imported flag and the same set of unused identifiers. */
  lemma ReportsAgree(reg: Registry, e: Effect)
    ensures var a := Apply(reg, e, true); var b := Apply(reg, e, false);
      forall p :: p in reg ==>
        && a[p].imported == b[p].imported
        && (set s | s in a[p].identifiers && !a[p].identifiers[s]) == (set s | s in b[p].identifiers && !b[p].identifiers[s])
  {
    var a := Apply(reg, e, true);
    var b := Apply(reg, e, false);
    forall p, s | p in reg && s in a[p].identifiers && s !in reg[p].identifiers
      ensures a[p].identifiers[s]
    {
      ForcedMarked(e, p, s, true);
    }
  }

  // ---------------------------------------------------------------------------------------------
  // Import classification (the loop over file.Imports)

  /** strings.Trim(imp.Path.Value, "\"") */
  function ImportPath(imp: ImportNode): (r: string)
  {
    Trim(imp.path.value, '"')
  }

  /** The name an import binds in importMap: for a registered path, the package's declared name when
      there is no alias, nothing for `_` and `.`, and the alias otherwise. */
  function BindName(reg: Registry, imp: ImportNode): (r: Option<string>)
    ensures r.Some? ==> ImportPath(imp) in reg
    ensures r.Some? && imp.alias.None? ==> r.value == reg[ImportPath(imp)].name
    ensures r.Some? && imp.alias.Some? ==> r.value == imp.alias.value.name
    ensures ImportPath(imp) in reg && imp.alias.None? ==> r.Some?
    ensures imp.alias.Some? && (imp.alias.value.name == "_" || imp.alias.value.name == ".") ==> r.None?
    ensures ImportPath(imp) in reg && imp.alias.Some? && imp.alias.value.name != "_" && imp.alias.value.name != "." ==>
              r == Some(imp.alias.value.name)
  {
    var path := ImportPath(imp);
    if path !in reg then None
    else if imp.alias.None? then Some(reg[path].name)
    else if imp.alias.value.name == "_" || imp.alias.value.name == "." then None
    else Some(imp.alias.value.name)
  }

  /** A registered import whose alias is `.`: it goes to unqualifiedImports. */
  predicate IsDotImport(reg: Registry, imp: ImportNode)
  {
    ImportPath(imp) in reg && imp.alias.Some? && imp.alias.value.name == "."
  }

  /** importMap and unqualifiedImports */
  datatype Imports = Imports(importMap: map<string, string>, dots: seq<string>)

  function Bind(reg: Registry, b: Imports, imp: ImportNode): (r: Imports)
  {
    var name := BindName(reg, imp);
    if name.Some? then b.(importMap := b.importMap[name.value := ImportPath(imp)])
    else if IsDotImport(reg, imp) then b.(dots := b.dots + [ImportPath(imp)])
    else b
  }

  /** importMap and unqualifiedImports after the imports, in order. */
  function Bindings(reg: Registry, imps: seq<ImportNode>): (r: Imports)
    decreases |imps|
  {
    if imps == [] then Imports(map[], [])
    else Bind(reg, Bindings(reg, imps[..|imps| - 1]), imps[|imps| - 1])
  }

  /** The packages the imports mark imported. */
  function ImportedPaths(reg: Registry, imps: seq<ImportNode>): (r: set<string>)
    decreases |imps|
  {
    if imps == [] then {}
    else
      var path := ImportPath(imps[|imps| - 1]);
      ImportedPaths(reg, imps[..|imps| - 1]) + (if path in reg then {path} else {})
  }

  /** Every registered import path is marked imported, whatever its alias (`_` too), and nothing
      else is. */
  lemma {:induction false} ImportedPathsSpec(reg: Registry, imps: seq<ImportNode>, p: string)
    ensures p in ImportedPaths(reg, imps) <==> p in reg && exists i :: 0 <= i < |imps| && ImportPath(imps[i]) == p
    decreases |imps|
  {
    if imps != [] {
      var n := |imps| - 1;
      var front := imps[..n];
      ImportedPathsSpec(reg, front, p);
      if exists i :: 0 <= i < |imps| && ImportPath(imps[i]) == p {
        var i :| 0 <= i < |imps| && ImportPath(imps[i]) == p;
        if i < n {
          assert ImportPath(front[i]) == p;
        }
      }
      if exists i :: 0 <= i < n && ImportPath(front[i]) == p {
        var i :| 0 <= i < n && ImportPath(front[i]) == p;
        assert ImportPath(imps[i]) == p;
      }
    }
  }

  /** One import binds its own name to its path ... */
  lemma BindSelf(reg: Registry, b: Imports, imp: ImportNode, k: string)
    requires BindName(reg, imp) == Some(k)
    ensures k in Bind(reg, b, imp).importMap && Bind(reg, b, imp).importMap[k] == ImportPath(imp)
  {
  }

  /** ... and leaves every other name as it was. */
  lemma BindOther(reg: Registry, b: Imports, imp: ImportNode, k: string)
    requires BindName(reg, imp) != Some(k)
    ensures var b' := Bind(reg, b, imp);
      && (k in b'.importMap <==> k in b.importMap)
      && (k in b.importMap ==> b'.importMap[k] == b.importMap[k])
  {
  }

  /** Only a dot-import adds to the dot list, at its end. */
  lemma BindDots(reg: Registry, b: Imports, imp: ImportNode)
    ensures Bind(reg, b, imp).dots == b.dots + (if IsDotImport(reg, imp) then [ImportPath(imp)] else [])
  {
  }

  lemma BindingsSnoc(reg: Registry, imps: seq<ImportNode>)
    requires imps != []
    ensures Bindings(reg, imps) == Bind(reg, Bindings(reg, imps[..|imps| - 1]), imps[|imps| - 1])
  {
  }

  /** An import that binds `k` leaves `k` bound, whatever follows it. */
  lemma {:induction false} BindingsHas(reg: Registry, imps: seq<ImportNode>, i: int, k: string)
    requires 0 <= i < |imps| && BindName(reg, imps[i]) == Some(k)
    ensures k in Bindings(reg, imps).importMap
    decreases |imps|
  {
    var n := |imps| - 1;
    var front := imps[..n];
    BindingsSnoc(reg, imps);
    if BindName(reg, imps[n]) == Some(k) {
      BindSelf(reg, Bindings(reg, front), imps[n], k);
    } else {
      assert i < n && front[i] == imps[i];
      BindingsHas(reg, front, i, k);
      BindOther(reg, Bindings(reg, front), imps[n], k);
    }
  }

  lemma BindingsKeys(reg: Registry, imps: seq<ImportNode>, k: string)
    ensures k in Bindings(reg, imps).importMap <==> exists i :: 0 <= i < |imps| && BindName(reg, imps[i]) == Some(k)
  {
    if k in Bindings(reg, imps).importMap {
      BindingsLast(reg, imps, k);
    }
    if exists i :: 0 <= i < |imps| && BindName(reg, imps[i]) == Some(k) {
      var i :| 0 <= i < |imps| && BindName(reg, imps[i]) == Some(k);
      BindingsHas(reg, imps, i, k);
    }
  }

  lemma {:induction false} BindingsLast(reg: Registry, imps: seq<ImportNode>, k: string)
    requires k in Bindings(reg, imps).importMap
    ensures exists i :: 0 <= i < |imps| && BindName(reg, imps[i]) == Some(k) &&
                        Bindings(reg, imps).importMap[k] == ImportPath(imps[i]) &&
                        forall j :: i < j < |imps| ==> BindName(reg, imps[j]) != Some(k)
    decreases |imps|
  {
    var n := |imps| - 1;
    var front := imps[..n];
    var b := Bindings(reg, imps);
    var bf := Bindings(reg, front);
    BindingsSnoc(reg, imps);
    if BindName(reg, imps[n]) == Some(k) {
      BindSelf(reg, bf, imps[n], k);
      assert BindName(reg, imps[n]) == Some(k) && b.importMap[k] == ImportPath(imps[n]);
    } else {
      BindOther(reg, bf, imps[n], k);
      BindingsLast(reg, front, k);
      var i :| 0 <= i < n && BindName(reg, front[i]) == Some(k) && bf.importMap[k] == ImportPath(front[i])
               && forall j :: i < j < n ==> BindName(reg, front[j]) != Some(k);
      assert front[i] == imps[i];
      forall j | i < j < |imps|
        ensures BindName(reg, imps[j]) != Some(k)
      {
        if j < n {
          assert front[j] == imps[j];
        }
      }
      assert BindName(reg, imps[i]) == Some(k) && b.importMap[k] == ImportPath(imps[i]);
    }
  }

  /** A registered dot-import is in the dot list. */
  lemma {:induction false} DotsHas(reg: Registry, imps: seq<ImportNode>, i: int)
    requires 0 <= i < |imps| && IsDotImport(reg, imps[i])
    ensures ImportPath(imps[i]) in Bindings(reg, imps).dots
    decreases |imps|
  {
    var n := |imps| - 1;
    var front := imps[..n];
    BindingsSnoc(reg, imps);
    BindDots(reg, Bindings(reg, front), imps[n]);
    if i < n {
      assert front[i] == imps[i];
      DotsHas(reg, front, i);
    }
  }

  /** Everything in the dot list comes from a registered dot-import. */
  lemma {:induction false} DotsFrom(reg: Registry, imps: seq<ImportNode>, p: string)
    requires p in Bindings(reg, imps).dots
    ensures exists i :: 0 <= i < |imps| && IsDotImport(reg, imps[i]) && ImportPath(imps[i]) == p
    decreases |imps|
  {
    var n := |imps| - 1;
    var front := imps[..n];
    BindingsSnoc(reg, imps);
    BindDots(reg, Bindings(reg, front), imps[n]);
    if p in Bindings(reg, front).dots {
      DotsFrom(reg, front, p);
      var i :| 0 <= i < n && IsDotImport(reg, front[i]) && ImportPath(front[i]) == p;
      assert front[i] == imps[i];
    } else {
      assert IsDotImport(reg, imps[n]) && ImportPath(imps[n]) == p;
    }
  }

  lemma BindingsDots(reg: Registry, imps: seq<ImportNode>, p: string)
    ensures p in Bindings(reg, imps).dots <==>
            exists i :: 0 <= i < |imps| && IsDotImport(reg, imps[i]) && ImportPath(imps[i]) == p
  {
    if p in Bindings(reg, imps).dots {
      DotsFrom(reg, imps, p);
    }
    if exists i :: 0 <= i < |imps| && IsDotImport(reg, imps[i]) && ImportPath(imps[i]) == p {
      var i :| 0 <= i < |imps| && IsDotImport(reg, imps[i]) && ImportPath(imps[i]) == p;
      DotsHas(reg, imps, i);
    }
  }

  /** Classification of the imports: a name is bound exactly when some import binds it, and it is
      bound to the path of the LAST import that binds it; the dot-imports are exactly the
      registered imports with alias `.`; every bound or dot-imported path is marked imported. */
  lemma BindingsSpec(reg: Registry, imps: seq<ImportNode>)
    ensures var b := Bindings(reg, imps);
      && (forall k :: k in b.importMap <==> exists i :: 0 <= i < |imps| && BindName(reg, imps[i]) == Some(k))
      && (forall k :: k in b.importMap ==>
            exists i :: 0 <= i < |imps| && BindName(reg, imps[i]) == Some(k) && b.importMap[k] == ImportPath(imps[i])
                     && forall j :: i < j < |imps| ==> BindName(reg, imps[j]) != Some(k))
      && (forall p :: p in b.dots <==> exists i :: 0 <= i < |imps| && IsDotImport(reg, imps[i]) && ImportPath(imps[i]) == p)
      && (forall k :: k in b.importMap ==> b.importMap[k] in ImportedPaths(reg, imps))
      && (forall p :: p in b.dots ==> p in ImportedPaths(reg, imps))
  {
    var b := Bindings(reg, imps);
    forall k
      ensures k in b.importMap <==> exists i :: 0 <= i < |imps| && BindName(reg, imps[i]) == Some(k)
    {
      BindingsKeys(reg, imps, k);
    }
    forall k | k in b.importMap
      ensures exists i :: 0 <= i < |imps| && BindName(reg, imps[i]) == Some(k) && b.importMap[k] == ImportPath(imps[i])
                       && forall j :: i < j < |imps| ==> BindName(reg, imps[j]) != Some(k)
      ensures b.importMap[k] in ImportedPaths(reg, imps)
    {
      BindingsLast(reg, imps, k);
      ImportedPathsSpec(reg, imps, b.importMap[k]);
    }
    forall p
      ensures p in b.dots <==> exists i :: 0 <= i < |imps| && IsDotImport(reg, imps[i]) && ImportPath(imps[i]) == p
      ensures p in b.dots ==> p in ImportedPaths(reg, imps)
    {
      BindingsDots(reg, imps, p);
      ImportedPathsSpec(reg, imps, p);
    }
  }

  /** The classification reads only which paths are registered and under which names. */
  lemma {:induction false} BindingsLayout(r1: Registry, r2: Registry, imps: seq<ImportNode>)
    requires SameLayout(r1, r2)
    ensures Bindings(r1, imps) == Bindings(r2, imps)
    ensures ImportedPaths(r1, imps) == ImportedPaths(r2, imps)
    decreases |imps|
  {
    if imps != [] {
      BindingsLayout(r1, r2, imps[..|imps| - 1]);
      assert BindName(r1, imps[|imps| - 1]) == BindName(r2, imps[|imps| - 1]);
    }
  }

  // ---------------------------------------------------------------------------------------------
  // The visitor passed to ast.Inspect

  /** What the visitor knows besides the node: the imports of the file, the import path it traces
      (`pkgName` in the Go code) and recordSamePackageUse. */
  datatype Context = Context(imports: Imports, pkgName: string, recordSame: bool)

  /** An identifier is a declaration, not a use, when its parent is a selector (it is handled as
      qualified), or it is the declared name of a type spec or function, one of the names of a field
      or value spec, or on the left of a `:=`. Membership is node identity, not spelling. */
  predicate Skip(parent: Node, n: Node)
  {
    match parent
    case SelectorExpr(_, _, _) => true
    case TypeSpec(_, name, _) => n == IdentNode(name)
    case FuncDecl(_, _, name, _) => n == IdentNode(name)
    case Field(_, names, _) => n.IdentNode? && n.ident in names
    case ValueSpec(_, names, _) => n.IdentNode? && n.ident in names
    case AssignStmt(_, lhs, tok, _) => tok == ":=" && n in lhs
    case _ => false
  }

  /** `X.Sel` with X a bare identifier bound in importMap marks Sel in X's package. */
  function SelectorUses(ctx: Context, n: Node): (r: set<Use>)
    ensures forall u :: u in r ==> u.qualified && u.pkg in ctx.imports.importMap.Values && n.SelectorExpr? && u.symbol == n.sel.name
    ensures n.SelectorExpr? && n.x.IdentNode? && n.x.ident.name in ctx.imports.importMap ==>
              Use(ctx.imports.importMap[n.x.ident.name], n.sel.name, true) in r
    ensures !(n.SelectorExpr? && n.x.IdentNode? && n.x.ident.name in ctx.imports.importMap) ==> r == {}
    ensures |r| <= 1
  {
    if n.SelectorExpr? && n.x.IdentNode? && n.x.ident.name in ctx.imports.importMap
    then {Use(ctx.imports.importMap[n.x.ident.name], n.sel.name, true)}
    else {}
  }

  /** A used bare identifier marks its name in every dot-imported package, and in the traced package
      itself when recordSamePackageUse is set. */
  function IdentUses(ctx: Context, symbol: string): (r: set<Use>)
    ensures forall u :: u in r <==>
              u.symbol == symbol && !u.qualified && (u.pkg in ctx.imports.dots || (ctx.recordSame && u.pkg == ctx.pkgName))
  {
    (set d | d in ctx.imports.dots :: Use(d, symbol, false)) +
    (if ctx.recordSame then {Use(ctx.pkgName, symbol, false)} else {})
  }

  /** The uses one visitor call f(n) records, `parent` being the top of the stack it finds. */
  function NodeUses(ctx: Context, parent: Option<Node>, n: Node): (r: set<Use>)
  {
    SelectorUses(ctx, n) +
    (if n.IdentNode? && !(parent.Some? && Skip(parent.value, n)) then IdentUses(ctx, n.ident.name) else {})
  }

  /** Only packages the file can see are written to: a qualified use goes to a package bound in
      importMap, an unqualified one to a dot-import or the traced package itself. */
  predicate Visible(ctx: Context, u: Use)
  {
    if u.qualified then u.pkg in ctx.imports.importMap.Values
    else u.pkg in ctx.imports.dots || (ctx.recordSame && u.pkg == ctx.pkgName)
  }

  function EventUses(ctx: Context, stack: seq<Node>, e: Event): (r: set<Use>)
  {
    if e.Enter? then NodeUses(ctx, Top(stack), e.node) else {}
  }

  /** The uses recorded by a sequence of visitor calls, the stack starting at `stack`. */
  function WalkUses(ctx: Context, stack: seq<Node>, events: seq<Event>): (r: set<Use>)
    decreases |events|
  {
    if events == [] then {}
    else
      var front := events[..|events| - 1];
      WalkUses(ctx, stack, front) + EventUses(ctx, Replay(stack, front), events[|events| - 1])
  }

  /** The uses of a tree, stated without a stack: every node with its actual parent. */
  function TreeUses(ctx: Context, parent: Option<Node>, n: Node): (r: set<Use>)
    ensures forall u :: u in r ==> Visible(ctx, u)
    decreases Size(n), 0
  {
    SizeChildren(n);
    NodeUses(ctx, parent, n) + ForestUses(ctx, n, Children(n))
  }

  function ForestUses(ctx: Context, parent: Node, ns: seq<Node>): (r: set<Use>)
    ensures forall u :: u in r ==> Visible(ctx, u)
    decreases SizeAll(ns), 1
  {
    if ns == [] then {} else TreeUses(ctx, Some(parent), ns[0]) + ForestUses(ctx, parent, ns[1..])
  }

  lemma {:induction false} WalkUsesConcat(ctx: Context, s: seq<Node>, a: seq<Event>, b: seq<Event>)
    ensures WalkUses(ctx, s, a + b) == WalkUses(ctx, s, a) + WalkUses(ctx, Replay(s, a), b)
    decreases |b|
  {
    if b == [] {
      assert a + b == a;
    } else {
      var b' := b[..|b| - 1];
      assert (a + b)[..|a + b| - 1] == a + b';
      assert (a + b)[|a + b| - 1] == b[|b| - 1];
      WalkUsesConcat(ctx, s, a, b');
      ReplayConcat(s, a, b');
    }
  }

  lemma WalkUsesOne(ctx: Context, s: seq<Node>, e: Event)
    ensures WalkUses(ctx, s, [e]) == EventUses(ctx, s, e)
  {
    assert [e][..0] == [];
  }

  /** The stack-based walk records exactly the tree's uses: the stack top is the parent whenever a
      node is visited. */
  lemma {:induction false} WalkInspect(ctx: Context, s: seq<Node>, n: Node)
    requires StepOk(s, Enter(n))
    ensures WalkUses(ctx, s, Inspect(n)) == TreeUses(ctx, Top(s), n)
    decreases Size(n), 0
  {
    var cs := InspectAll(Children(n));
    SizeChildren(n);
    WalkUsesOne(ctx, s, Enter(n));
    ReplayOne(s, Enter(n));
    WalkInspectAll(ctx, s + [n], n, Children(n));
    InspectAllDisciplined(s + [n], n, Children(n));
    WalkUsesConcat(ctx, s, [Enter(n)], cs);
    ReplayConcat(s, [Enter(n)], cs);
    WalkUsesConcat(ctx, s, [Enter(n)] + cs, [Leave]);
    WalkUsesOne(ctx, s + [n], Leave);
  }

  lemma {:induction false} WalkInspectAll(ctx: Context, s: seq<Node>, parent: Node, ns: seq<Node>)
    requires s != [] && s[|s| - 1] == parent
    requires forall c :: c in ns ==> c in Children(parent)
    ensures WalkUses(ctx, s, InspectAll(ns)) == ForestUses(ctx, parent, ns)
    decreases SizeAll(ns), 1
  {
    if ns != [] {
      SizeAllMember(ns, ns[0]);
      WalkInspect(ctx, s, ns[0]);
      InspectDisciplined(s, ns[0]);
      WalkInspectAll(ctx, s, parent, ns[1..]);
      WalkUsesConcat(ctx, s, Inspect(ns[0]), InspectAll(ns[1..]));
    }
  }

  // ---------------------------------------------------------------------------------------------
  // One file

  function FileContext(reg: Registry, file: FileNode, pkgName: string, recordSame: bool): (r: Context)
  {
    Context(Bindings(reg, FileImports(file.decls)), pkgName, recordSame)
  }

  /** All writes of traceFile on one file: its registered imports marked imported, and the uses of
      its tree. */
  function FileEffect(reg: Registry, file: FileNode, pkgName: string, recordSame: bool): (r: Effect)
  {
    Effect(ImportedPaths(reg, FileImports(file.decls)), TreeUses(FileContext(reg, file, pkgName, recordSame), None, file))
  }

  /** The packages traceFile recurses into: the paths bound in importMap and the dot-imports. */
  function Targets(reg: Registry, file: FileNode): (r: set<string>)
  {
    var b := Bindings(reg, FileImports(file.decls));
    b.importMap.Values + Elems(b.dots)
  }

  /** Every package traceFile recurses into is registered and was marked imported by the file. */
  lemma TargetsImported(reg: Registry, file: FileNode, pkgName: string, recordSame: bool)
    ensures Targets(reg, file) <= FileEffect(reg, file, pkgName, recordSame).imported
    ensures Targets(reg, file) <= reg.Keys
  {
    var imps := FileImports(file.decls);
    var b := Bindings(reg, imps);
    BindingsSpec(reg, imps);
    forall p | p in Targets(reg, file)
      ensures p in ImportedPaths(reg, imps) && p in reg
    {
      if p in b.importMap.Values {
        var k :| k in b.importMap && b.importMap[k] == p;
      }
      ImportedPathsSpec(reg, imps, p);
    }
  }

  /** The stack walk of traceFile, the declarative tree uses and the stack discipline agree. */
  lemma FileWalk(ctx: Context, file: FileNode)
    ensures WalkUses(ctx, [], Inspect(file)) == TreeUses(ctx, None, file)
  {
    WalkInspect(ctx, [], file);
  }

  datatype Traced = Traced(file: FileNode, pkgName: string)

  /** The writes of a sequence of traceFile calls. */
  function LogEffect(reg: Registry, log: seq<Traced>, recordSame: bool): (r: Effect)
    decreases |log|
  {
    if log == [] then NoEffect
    else
      var t := log[|log| - 1];
      Join(LogEffect(reg, log[..|log| - 1], recordSame), FileEffect(reg, t.file, t.pkgName, recordSame))
  }

  lemma {:induction false} LogEffectConcat(reg: Registry, a: seq<Traced>, b: seq<Traced>, recordSame: bool)
    ensures LogEffect(reg, a + b, recordSame) == Join(LogEffect(reg, a, recordSame), LogEffect(reg, b, recordSame))
    decreases |b|
  {
    if b == [] {
      assert a + b == a;
    } else {
      var b' := b[..|b| - 1];
      assert (a + b)[..|a + b| - 1] == a + b';
      assert (a + b)[|a + b| - 1] == b[|b| - 1];
      LogEffectConcat(reg, a, b', recordSame);
      var t := b[|b| - 1];
      var fe := FileEffect(reg, t.file, t.pkgName, recordSame);
      var la := LogEffect(reg, a, recordSame);
      var lb := LogEffect(reg, b', recordSame);
      JoinAssoc(la, lb, fe);
    }
  }

  lemma FileEffectLayout(r1: Registry, r2: Registry, file: FileNode, pkgName: string, recordSame: bool)
    requires SameLayout(r1, r2)
    ensures FileEffect(r1, file, pkgName, recordSame) == FileEffect(r2, file, pkgName, recordSame)
    ensures Targets(r1, file) == Targets(r2, file)
  {
    BindingsLayout(r1, r2, FileImports(file.decls));
  }

  lemma {:induction false} LogEffectLayout(r1: Registry, r2: Registry, log: seq<Traced>, recordSame: bool)
    requires SameLayout(r1, r2)
    ensures LogEffect(r1, log, recordSame) == LogEffect(r2, log, recordSame)
    decreases |log|
  {
    if log != [] {
      LogEffectLayout(r1, r2, log[..|log| - 1], recordSame);
      var t := log[|log| - 1];
      FileEffectLayout(r1, r2, t.file, t.pkgName, recordSame);
    }
  }

  // ---------------------------------------------------------------------------------------------
  // Recursion bookkeeping shared by both tracers

  /** The tracer's state at one moment: the registry, every traceFile call so far, every package the
      recursion has entered so far, and visitedPackages. The two clocks say when each log entry was
      made: `tracedAt[i]` is how many packages had been entered when `traced[i]` was logged, and
      `enteredAt[k]` is how many files had been traced when `entered[k]` was entered. */
  datatype Snapshot = Snapshot(reg: Registry, traced: seq<Traced>, entered: seq<string>, visited: set<string>,
                               tracedAt: seq<nat>, enteredAt: seq<nat>)

  /** The clocks of one run interleave: every reading is within the other log, and a file logged
      before package k was entered saw at most k entries. */
  ghost predicate Clocked(tracedAt: seq<nat>, enteredAt: seq<nat>)
  {
    && (forall i :: 0 <= i < |tracedAt| ==> tracedAt[i] <= |enteredAt|)
    && (forall k :: 0 <= k < |enteredAt| ==> enteredAt[k] <= |tracedAt|)
    && (forall i, k :: 0 <= i < |tracedAt| && 0 <= k < |enteredAt| && i < enteredAt[k] ==> tracedAt[i] <= k)
  }

  /** Logging a file keeps the clocks interleaved. */
  lemma ClockedTrace(tracedAt: seq<nat>, enteredAt: seq<nat>)
    requires Clocked(tracedAt, enteredAt)
    ensures Clocked(tracedAt + [|enteredAt|], enteredAt)
  {
    var t := tracedAt + [|enteredAt|];
    forall i, k | 0 <= i < |t| && 0 <= k < |enteredAt| && i < enteredAt[k]
      ensures t[i] <= k
    {
      assert i < |tracedAt|;
      assert t[i] == tracedAt[i];
    }
  }

  /** Entering a package keeps the clocks interleaved. */
  lemma ClockedEnter(tracedAt: seq<nat>, enteredAt: seq<nat>)
    requires Clocked(tracedAt, enteredAt)
    ensures Clocked(tracedAt, enteredAt + [|tracedAt|])
  {
    var e := enteredAt + [|tracedAt|];
    forall k | 0 <= k < |e|
      ensures e[k] <= |tracedAt|
    {
      if k < |enteredAt| {
        assert e[k] == enteredAt[k];
      }
    }
    forall i, k | 0 <= i < |tracedAt| && 0 <= k < |e| && i < e[k]
      ensures tracedAt[i] <= k
    {
      if k < |enteredAt| {
        assert e[k] == enteredAt[k];
      }
    }
  }

  /** Between two moments: visitedPackages only grew; the logs were only appended to; the packages
      entered in between are exactly the newly visited registered ones; and the registry received
      exactly the writes of the files traced in between. */
  ghost predicate Traces(a: Snapshot, b: Snapshot, recordSame: bool, addsKeys: bool)
  {
    && a.visited <= b.visited
    && a.traced <= b.traced
    && a.entered <= b.entered
    && Elems(b.entered[|a.entered|..]) == (b.visited - a.visited) * a.reg.Keys
    && b.reg == Apply(a.reg, LogEffect(a.reg, b.traced[|a.traced|..], recordSame), addsKeys)
  }

  /** Every file traced in between had all the packages it recurses into visited by the second
      moment. */
  ghost predicate Closed(a: Snapshot, b: Snapshot)
  {
    forall k :: |a.traced| <= k < |b.traced| ==> Targets(a.reg, b.traced[k].file) <= b.visited
  }

  /** Tracing never adds or removes a record. */
  lemma TracesKeys(a: Snapshot, b: Snapshot, recordSame: bool, addsKeys: bool)
    requires Traces(a, b, recordSame, addsKeys)
    ensures b.reg.Keys == a.reg.Keys
  {
    ApplyLayout(a.reg, LogEffect(a.reg, b.traced[|a.traced|..], recordSame), addsKeys);
  }

  lemma TracesRefl(a: Snapshot, recordSame: bool, addsKeys: bool)
    ensures Traces(a, a, recordSame, addsKeys) && Closed(a, a)
  {
    assert a.traced[|a.traced|..] == [];
    assert a.entered[|a.entered|..] == [];
    ApplyNone(a.reg, addsKeys);
  }

  lemma SliceAppend<T>(a: seq<T>, b: seq<T>, c: seq<T>)
    requires a <= b <= c
    ensures c[|a|..] == b[|a|..] + c[|b|..]
  {
  }

  lemma ElemsConcat<T>(a: seq<T>, b: seq<T>)
    ensures Elems(a + b) == Elems(a) + Elems(b)
  {
    forall x | x in Elems(a + b)
      ensures x in Elems(a) + Elems(b)
    {
      var i :| 0 <= i < |a + b| && (a + b)[i] == x;
      if i >= |a| {
        assert b[i - |a|] == x;
      }
    }
    forall x | x in Elems(a) + Elems(b)
      ensures x in Elems(a + b)
    {
      if x in Elems(a) {
        var i :| 0 <= i < |a| && a[i] == x;
        assert (a + b)[i] == x;
      } else {
        var i :| 0 <= i < |b| && b[i] == x;
        assert (a + b)[|a| + i] == x;
      }
    }
  }

  lemma TracesTrans(a: Snapshot, b: Snapshot, c: Snapshot, recordSame: bool, addsKeys: bool)
    requires Traces(a, b, recordSame, addsKeys) && Traces(b, c, recordSame, addsKeys)
    ensures Traces(a, c, recordSame, addsKeys)
  {
    var s1 := b.traced[|a.traced|..];
    var s2 := c.traced[|b.traced|..];
    SliceAppend(a.traced, b.traced, c.traced);
    SliceAppend(a.entered, b.entered, c.entered);
    ElemsConcat(b.entered[|a.entered|..], c.entered[|b.entered|..]);
    LogEffectLayout(a.reg, b.reg, s2, recordSame);
    LogEffectConcat(a.reg, s1, s2, recordSame);
    ApplyJoin(a.reg, LogEffect(a.reg, s1, recordSame), LogEffect(a.reg, s2, recordSame), addsKeys);
  }

  lemma ClosedTrans(a: Snapshot, b: Snapshot, c: Snapshot, recordSame: bool, addsKeys: bool)
    requires Traces(a, b, recordSame, addsKeys) && Traces(b, c, recordSame, addsKeys)
    requires Closed(a, b) && Closed(b, c)
    ensures Closed(a, c)
  {
    forall k | |a.traced| <= k < |c.traced|
      ensures Targets(a.reg, c.traced[k].file) <= c.visited
    {
      if k < |b.traced| {
        assert c.traced[k] == b.traced[k];
      } else {
        var t := c.traced[k];
        FileEffectLayout(a.reg, b.reg, t.file, t.pkgName, recordSame);
      }
    }
  }

  /** traceFile's own part: its writes, then the log entry for the file. */
  lemma TracesOwnFile(a: Snapshot, file: FileNode, pkgName: string, recordSame: bool, addsKeys: bool)
    ensures var b := Snapshot(Apply(a.reg, FileEffect(a.reg, file, pkgName, recordSame), addsKeys),
                              a.traced + [Traced(file, pkgName)], a.entered, a.visited,
                              a.tracedAt + [|a.entered|], a.enteredAt);
      Traces(a, b, recordSame, addsKeys)
  {
    var own := [Traced(file, pkgName)];
    var fe := FileEffect(a.reg, file, pkgName, recordSame);
    assert (a.traced + own)[|a.traced|..] == own;
    assert LogEffect(a.reg, own, recordSame) == fe by {
      assert own[..0] == [];
      assert Join(NoEffect, fe) == fe;
    }
    assert a.entered[|a.entered|..] == [];
  }

  // ---------------------------------------------------------------------------------------------
  // Which packages the recursion may visit

  /** The packages the files of a log recurse into. */
  ghost function LogTargets(reg: Registry, log: seq<Traced>): (r: set<string>)
    decreases |log|
  {
    if log == [] then {} else Targets(reg, log[0].file) + LogTargets(reg, log[1..])
  }

  /** A package is among a log's targets exactly when some file of the log recurses into it. */
  lemma {:induction false} LogTargetsSpec(reg: Registry, log: seq<Traced>, q: string)
    ensures q in LogTargets(reg, log) <==> exists k :: 0 <= k < |log| && q in Targets(reg, log[k].file)
    decreases |log|
  {
    if log != [] {
      LogTargetsSpec(reg, log[1..], q);
      if q in LogTargets(reg, log[1..]) {
        var k :| 0 <= k < |log[1..]| && q in Targets(reg, log[1..][k].file);
        assert log[k + 1] == log[1..][k];
      }
      if k :| 0 <= k < |log| && q in Targets(reg, log[k].file) {
        if k > 0 {
          assert log[1..][k - 1] == log[k];
        }
      }
    }
  }

  /** The targets of two logs in a row are the targets of each. */
  lemma {:induction false} LogTargetsConcat(reg: Registry, x: seq<Traced>, y: seq<Traced>)
    ensures LogTargets(reg, x + y) == LogTargets(reg, x) + LogTargets(reg, y)
    decreases |x|
  {
    if x == [] {
      assert x + y == y;
    } else {
      assert (x + y)[0] == x[0];
      assert (x + y)[1..] == x[1..] + y;
      LogTargetsConcat(reg, x[1..], y);
    }
  }

  /** Targets depend only on the registry's layout, so tracing does not change them. */
  lemma {:induction false} LogTargetsLayout(r1: Registry, r2: Registry, log: seq<Traced>)
    requires SameLayout(r1, r2)
    ensures LogTargets(r1, log) == LogTargets(r2, log)
    decreases |log|
  {
    if log != [] {
      FileEffectLayout(r1, r2, log[0].file, log[0].pkgName, false);
      LogTargetsLayout(r1, r2, log[1..]);
    }
  }

  /** Between two moments, every package newly marked visited is in `extra` or is one that a file
      traced in between recurses into. */
  ghost predicate Bounded(a: Snapshot, b: Snapshot, extra: set<string>)
  {
    a.traced <= b.traced && b.visited - a.visited <= extra + LogTargets(a.reg, b.traced[|a.traced|..])
  }

  /** A step that traces nothing and visits only packages of `extra`. */
  lemma BoundedStep(a: Snapshot, b: Snapshot, extra: set<string>)
    requires b.traced == a.traced && b.visited <= a.visited + extra
    ensures Bounded(a, b, extra)
  {
    assert b.traced[|a.traced|..] == [];
  }

  /** Two bounded stretches in a row are bounded by the union of what each may visit. */
  lemma BoundedTrans(a: Snapshot, b: Snapshot, c: Snapshot, e1: set<string>, e2: set<string>, e: set<string>,
                     recordSame: bool, addsKeys: bool)
    requires Traces(a, b, recordSame, addsKeys)
    requires Bounded(a, b, e1) && Bounded(b, c, e2) && e1 + e2 <= e
    ensures Bounded(a, c, e)
  {
    ApplyLayout(a.reg, LogEffect(a.reg, b.traced[|a.traced|..], recordSame), addsKeys);
    BoundedJoin(a, b, c, e1, e2, e);
  }

  /** Two snapshots linked by Traces have registries of the same layout. */
  lemma TracesLayout(a: Snapshot, b: Snapshot, recordSame: bool, addsKeys: bool)
    requires Traces(a, b, recordSame, addsKeys)
    ensures SameLayout(a.reg, b.reg)
  {
    ApplyLayout(a.reg, LogEffect(a.reg, b.traced[|a.traced|..], recordSame), addsKeys);
  }

  lemma BoundedJoin(a: Snapshot, b: Snapshot, c: Snapshot, e1: set<string>, e2: set<string>, e: set<string>)
    requires SameLayout(a.reg, b.reg)
    requires Bounded(a, b, e1) && Bounded(b, c, e2) && e1 + e2 <= e
    ensures Bounded(a, c, e)
  {
    var s1, s2 := b.traced[|a.traced|..], c.traced[|b.traced|..];
    assert a.traced <= c.traced by {
      assert c.traced[..|a.traced|] == b.traced[..|b.traced|][..|a.traced|];
    }
    SliceAppend(a.traced, b.traced, c.traced);
    LogTargetsConcat(a.reg, s1, s2);
    LogTargetsLayout(a.reg, b.reg, s2);
    var t1, t2 := LogTargets(a.reg, s1), LogTargets(a.reg, s2);
    assert LogTargets(a.reg, c.traced[|a.traced|..]) == t1 + t2;
    forall q | q in c.visited - a.visited
      ensures q in e + (t1 + t2)
    {
      if q in b.visited {
        assert q in e1 + t1;
      } else {
        assert q in e2 + t2;
      }
    }
  }

  /** A file traced first in a stretch may send the recursion into any package it imports. */
  lemma BoundedByFirst(a: Snapshot, b: Snapshot, t: Traced, extra: set<string>)
    requires Bounded(a, b, extra + Targets(a.reg, t.file))
    requires |a.traced| < |b.traced| && b.traced[|a.traced|] == t
    ensures Bounded(a, b, extra)
  {
    var log := b.traced[|a.traced|..];
    assert log[0] == t;
    assert log == [t] + log[1..];
    LogTargetsConcat(a.reg, [t], log[1..]);
    assert [t][1..] == [];
  }
}
