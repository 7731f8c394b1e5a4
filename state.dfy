/** The registry shared by the indexer and the tracer: package import path -> package record. */
module State {

  import opened Common

  /** One package: its declared name, its directory, whether anything imports it, and the "used"
      flag of each exported identifier it declares. */
  datatype PackageState = PackageState(
    name: string,
    fsPath: string,
    imported: bool,
    identifiers: map<string, bool>)

  type Registry = map<string, PackageState>

  const UpperAscii: string := "ABCDEFGHIJKLMNOPQRSTUVWXYZ"

  lemma UpperAsciiRange(c: char)
    ensures 'A' <= c <= 'Z' <==> c in UpperAscii
  {
    if 'A' <= c <= 'Z' {
      var k := c as int - 'A' as int;
      assert 0 <= k < 26;
      assert UpperAscii[k] == c;
    }
  }

  /** Exported means: non-empty and the first byte is an ASCII capital. */
  function IsExported(name: string): (r: bool)
    ensures r <==> |name| > 0 && name[0] in UpperAscii
  {
    if |name| > 0 then UpperAsciiRange(name[0]); 'A' <= name[0] <= 'Z' else false
  }

  /** The first byte of the UTF-8 encoding of a character (RFC 3629, section 3). */
  function LeadByte(c: char): (b: int)
    ensures 0 <= b < 0x100
  {
    var v := c as int;
    if v < 0x80 then v
    else if v < 0x800 then 0xC0 + v / 0x40
    else if v < 0x1_0000 then 0xE0 + v / 0x1000
    else 0xF0 + v / 0x4_0000
  }

  /** The Go code tests the first BYTE of the name, not its first character. Both agree: every
      character outside ASCII starts with a byte of 0xC0 or more, above 'Z'. So a name that starts
      with a non-ASCII capital letter (U+00C4, say) is not exported by this rule. */
  lemma ExportedByFirstByte(name: string)
    ensures IsExported(name) <==>
            |name| > 0 && 'A' as int <= LeadByte(name[0]) <= 'Z' as int
  {
    if |name| > 0 {
      UpperAsciiRange(name[0]);
    }
  }

  /** The record after (*PackageState).MarkImported. */
  function WithImported(ps: PackageState): (r: PackageState)
    ensures r.imported
    ensures r.name == ps.name && r.fsPath == ps.fsPath && r.identifiers == ps.identifiers
  {
    ps.(imported := true)
  }

  /** The record after (*PackageState).MarkIdentifierUsed(id): the flag of `id` is set if `id` is
      already a key; an absent `id` changes nothing. */
  function WithIdentifierUsed(ps: PackageState, id: string): (r: PackageState)
    ensures r.name == ps.name && r.fsPath == ps.fsPath && r.imported == ps.imported
    ensures r.identifiers.Keys == ps.identifiers.Keys
    ensures forall s :: s in r.identifiers ==> r.identifiers[s] == (ps.identifiers[s] || s == id)
  {
    if id in ps.identifiers then ps.(identifiers := ps.identifiers[id := true]) else ps
  }

  lemma MarkImportedIdempotent(ps: PackageState)
    ensures WithImported(WithImported(ps)) == WithImported(ps)
  {
  }

  /** The registry after NewIdentifier(fsPath, pkgPath, pkgName, name). */
  function Register(reg: Registry, fsPath: string, pkgPath: string, pkgName: string, name: string): (r: Registry)
  {
    if !IsExported(name) then reg
    else
      var ps := if pkgPath in reg then reg[pkgPath] else PackageState(pkgName, fsPath, false, map[]);
      reg[pkgPath := ps.(identifiers := ps.identifiers[name := false])]
  }

  /** An unexported name changes nothing. An exported one adds the record if it is missing (named
      `pkgName`, at `fsPath`, not imported) and the name as a key flagged unused, resetting its flag
      if it was already there; nothing else in the registry changes. */
  lemma RegisterSpec(reg: Registry, fsPath: string, pkgPath: string, pkgName: string, name: string)
    ensures var r := Register(reg, fsPath, pkgPath, pkgName, name);
      && (!IsExported(name) ==> r == reg)
      && (IsExported(name) ==> r.Keys == reg.Keys + {pkgPath})
      && (IsExported(name) ==> name in r[pkgPath].identifiers && !r[pkgPath].identifiers[name])
      && (IsExported(name) && pkgPath !in reg ==>
            r[pkgPath] == PackageState(pkgName, fsPath, false, map[name := false]))
      && (IsExported(name) && pkgPath in reg ==>
            && r[pkgPath].name == reg[pkgPath].name
            && r[pkgPath].fsPath == reg[pkgPath].fsPath
            && r[pkgPath].imported == reg[pkgPath].imported
            && r[pkgPath].identifiers.Keys == reg[pkgPath].identifiers.Keys + {name}
            && (forall s :: s in reg[pkgPath].identifiers && s != name ==>
                  r[pkgPath].identifiers[s] == reg[pkgPath].identifiers[s]))
      && (forall p :: p in reg && p != pkgPath ==> p in r && r[p] == reg[p])
  {
  }

  /** (*PackageState).UnusedIdentifiers: the identifiers whose flag is false, each once, in whatever
      order Go's map iteration yields. */
  method UnusedIdentifiers(ps: PackageState) returns (r: seq<string>)
    ensures Distinct(r)
    ensures Elems(r) == set s | s in ps.identifiers && !ps.identifiers[s]
  {
    r := [];
    var todo := ps.identifiers.Keys;
    while todo != {}
      invariant todo <= ps.identifiers.Keys
      invariant Distinct(r)
      invariant Elems(r) == set s | s in ps.identifiers.Keys - todo && !ps.identifiers[s]
      decreases todo
    {
      var s :| s in todo;
      if !ps.identifiers[s] {
        ElemsAppend(r, s);
        r := r + [s];
      }
      todo := todo - {s};
    }
  }

  /** *state.State */
  class State {
    var packages: Registry

    /** state.New */
    constructor ()
      ensures packages == map[]
    {
      packages := map[];
    }

    /** A read-only lookup; `Some` exactly when the path is registered. */
    function GetPackageState(pkg: string): (r: Option<PackageState>)
      reads this
      ensures r.Some? <==> pkg in packages
      ensures r.Some? ==> r.value == packages[pkg]
    {
      if pkg in packages then Some(packages[pkg]) else None
    }

    /** The paths of the packages nobody imports, each once. */
    method GetUnusedPackages() returns (r: seq<string>)
      ensures Distinct(r)
      ensures Elems(r) == set p | p in packages && !packages[p].imported
    {
      r := [];
      var todo := packages.Keys;
      while todo != {}
        invariant todo <= packages.Keys
        invariant Distinct(r)
        invariant Elems(r) == set p | p in packages.Keys - todo && !packages[p].imported
        decreases todo
      {
        var p :| p in todo;
        if !packages[p].imported {
          ElemsAppend(r, p);
          r := r + [p];
        }
        todo := todo - {p};
      }
    }

    method NewIdentifier(fsPath: string, pkgPath: string, pkgName: string, name: string)
      modifies this
      ensures packages == Register(old(packages), fsPath, pkgPath, pkgName, name)
    {
      if !IsExported(name) {
        return;
      }
      if pkgPath !in packages {
        packages := packages[pkgPath := PackageState(pkgName, fsPath, false, map[])];
      }
      packages := packages[pkgPath := packages[pkgPath].(identifiers := packages[pkgPath].identifiers[name := false])];
    }

    /** pkgState.MarkImported() on the record registered at `pkgPath`. */
    method MarkImported(pkgPath: string)
      requires pkgPath in packages
      modifies this
      ensures packages == old(packages)[pkgPath := WithImported(old(packages)[pkgPath])]
    {
      packages := packages[pkgPath := packages[pkgPath].(imported := true)];
    }

    /** pkgState.MarkIdentifierUsed(id) on the record registered at `pkgPath`. */
    method MarkIdentifierUsed(pkgPath: string, id: string)
      requires pkgPath in packages
      modifies this
      ensures packages == old(packages)[pkgPath := WithIdentifierUsed(old(packages)[pkgPath], id)]
    {
      var ps := packages[pkgPath];
      if id in ps.identifiers {
        packages := packages[pkgPath := ps.(identifiers := ps.identifiers[id := true])];
      }
    }
  }
}
