/** Go syntax trees (package go/ast), reduced to the node kinds that the declaration indexer and the
    usage tracer look at, and ast.Inspect as the sequence of calls it makes to its visitor. */
module Syntax {

  import opened Common
  import opened GoStrings

  /** Stands for the address of a node: Go compares nodes by address, so two identifiers with the same
      spelling are different nodes. The model takes trees in which distinct nodes carry distinct
      ids, as distinct Go nodes have distinct addresses; it does not state this as a predicate. */
  type NodeId = nat

  /** *ast.Ident */
  datatype Ident = Ident(id: NodeId, name: string)

  /** *ast.BasicLit; `value` is the literal as written, quotes included */
  datatype BasicLit = BasicLit(id: NodeId, value: string)

  /** The ast.Node kinds the tool distinguishes; every other kind is `Other` with its children in
      walking order. Comment groups are not represented: they hold no identifiers. */
  datatype Node =
    | IdentNode(ident: Ident)
    | LitNode(lit: BasicLit)
    | File(id: NodeId, name: Ident, decls: seq<Node>)
    | GenDecl(id: NodeId, specs: seq<Node>)
    | ImportSpec(id: NodeId, alias: Option<Ident>, path: BasicLit)
    | FuncDecl(id: NodeId, recv: seq<Node>, name: Ident, rest: seq<Node>)
    | TypeSpec(id: NodeId, name: Ident, rest: seq<Node>)
    | ValueSpec(id: NodeId, names: seq<Ident>, rest: seq<Node>)
    | Field(id: NodeId, names: seq<Ident>, rest: seq<Node>)
    | AssignStmt(id: NodeId, lhs: seq<Node>, tok: string, rhs: seq<Node>)
    | SelectorExpr(id: NodeId, x: Node, sel: Ident)
    | Other(id: NodeId, children: seq<Node>)

  /** *ast.File */
  type FileNode = n: Node | n.File? witness File(0, Ident(0, ""), [])

  /** *ast.Package as parser.ParseDir returns it: the package name and its files (Go keeps them in a
      map; the sequence stands for the order in which that map happens to be iterated). */
  datatype Package = Package(name: string, files: seq<FileNode>)

  /** A package whose name ends in "_test"; neither the indexer nor the tracer looks at one. */
  predicate IsTestPackage(pkg: Package)
  {
    HasSuffix(pkg.name, "_test")
  }

  function IdentNodes(names: seq<Ident>): (r: seq<Node>)
    ensures |r| == |names|
    ensures forall i :: 0 <= i < |names| ==> r[i] == IdentNode(names[i])
  {
    if names == [] then [] else [IdentNode(names[0])] + IdentNodes(names[1..])
  }

  /** The children of a node in the order ast.Walk visits them: Name before Decls in a File, the
      receiver before the Name of a FuncDecl, Names before the type and values of a Field or
      ValueSpec, X before Sel. */
  function Children(n: Node): (r: seq<Node>)
  {
    match n
    case IdentNode(_) => []
    case LitNode(_) => []
    case File(_, name, decls) => [IdentNode(name)] + decls
    case GenDecl(_, specs) => specs
    case ImportSpec(_, alias, path) =>
      (if alias.Some? then [IdentNode(alias.value)] else []) + [LitNode(path)]
    case FuncDecl(_, recv, name, rest) => recv + [IdentNode(name)] + rest
    case TypeSpec(_, name, rest) => [IdentNode(name)] + rest
    case ValueSpec(_, names, rest) => IdentNodes(names) + rest
    case Field(_, names, rest) => IdentNodes(names) + rest
    case AssignStmt(_, lhs, _, rhs) => lhs + rhs
    case SelectorExpr(_, x, sel) => [x, IdentNode(sel)]
    case Other(_, children) => children
  }

  /** Number of nodes of a tree; the termination measure of every walk. */
  function Size(n: Node): (r: nat)
    ensures r >= 1
  {
    match n
    case IdentNode(_) => 1
    case LitNode(_) => 1
    case File(_, _, decls) => 2 + SizeAll(decls)
    case GenDecl(_, specs) => 1 + SizeAll(specs)
    case ImportSpec(_, alias, _) => 2 + (if alias.Some? then 1 else 0)
    case FuncDecl(_, recv, _, rest) => 2 + SizeAll(recv) + SizeAll(rest)
    case TypeSpec(_, _, rest) => 2 + SizeAll(rest)
    case ValueSpec(_, names, rest) => 1 + |names| + SizeAll(rest)
    case Field(_, names, rest) => 1 + |names| + SizeAll(rest)
    case AssignStmt(_, lhs, _, rhs) => 1 + SizeAll(lhs) + SizeAll(rhs)
    case SelectorExpr(_, x, _) => 2 + Size(x)
    case Other(_, children) => 1 + SizeAll(children)
  }

  function SizeAll(ns: seq<Node>): (r: nat)
  {
    if ns == [] then 0 else Size(ns[0]) + SizeAll(ns[1..])
  }

  lemma {:induction false} SizeAllConcat(a: seq<Node>, b: seq<Node>)
    ensures SizeAll(a + b) == SizeAll(a) + SizeAll(b)
  {
    if a != [] {
      assert (a + b)[1..] == a[1..] + b;
      SizeAllConcat(a[1..], b);
    } else {
      assert a + b == b;
    }
  }

  lemma {:induction false} SizeAllIdents(names: seq<Ident>)
    ensures SizeAll(IdentNodes(names)) == |names|
  {
    if names != [] {
      assert IdentNodes(names)[1..] == IdentNodes(names[1..]);
      SizeAllIdents(names[1..]);
    }
  }

  lemma {:induction false} SizeAllMember(ns: seq<Node>, c: Node)
    requires c in ns
    ensures Size(c) <= SizeAll(ns)
  {
    if ns[0] != c {
      SizeAllMember(ns[1..], c);
    }
  }

  /** A node is one larger than the forest of its children. */
  lemma SizeChildren(n: Node)
    ensures Size(n) == 1 + SizeAll(Children(n))
  {
    match n
    case IdentNode(_) =>
    case LitNode(_) =>
    case File(_, name, decls) =>
      SizeAllOne(IdentNode(name));
      SizeAllConcat([IdentNode(name)], decls);
    case GenDecl(_, _) =>
    case ImportSpec(_, alias, path) =>
      SizeAllOne(LitNode(path));
      if alias.Some? {
        SizeAllOne(IdentNode(alias.value));
        SizeAllConcat([IdentNode(alias.value)], [LitNode(path)]);
      } else {
        assert Children(n) == [LitNode(path)];
      }
    case FuncDecl(_, recv, name, rest) =>
      SizeAllOne(IdentNode(name));
      SizeAllConcat(recv, [IdentNode(name)]);
      SizeAllConcat(recv + [IdentNode(name)], rest);
    case TypeSpec(_, name, rest) =>
      SizeAllOne(IdentNode(name));
      SizeAllConcat([IdentNode(name)], rest);
    case ValueSpec(_, names, rest) =>
      SizeAllConcat(IdentNodes(names), rest);
      SizeAllIdents(names);
    case Field(_, names, rest) =>
      SizeAllConcat(IdentNodes(names), rest);
      SizeAllIdents(names);
    case AssignStmt(_, lhs, _, rhs) =>
      SizeAllConcat(lhs, rhs);
    case SelectorExpr(_, x, sel) =>
      SizeAllOne(x);
      SizeAllOne(IdentNode(sel));
      assert [x, IdentNode(sel)] == [x] + [IdentNode(sel)];
      SizeAllConcat([x], [IdentNode(sel)]);
    case Other(_, _) =>
  }

  lemma SizeAllOne(n: Node)
    ensures SizeAll([n]) == Size(n)
  {
    assert [n][1..] == [];
  }

  // ---------------------------------------------------------------------------------------------
  // ast.Inspect

  /** One call of the visitor: f(node) on the way down, f(nil) once the node's children are done. */
  datatype Event = Enter(node: Node) | Leave

  /** The calls ast.Inspect(n, f) makes when f always returns true: f(n), the calls for each child
      in turn, then f(nil). */
  function Inspect(n: Node): (r: seq<Event>)
    decreases Size(n), 0
    ensures |r| >= 2 && r[0] == Enter(n) && r[|r| - 1] == Leave
  {
    SizeChildren(n);
    [Enter(n)] + InspectAll(Children(n)) + [Leave]
  }

  function InspectAll(ns: seq<Node>): (r: seq<Event>)
    decreases SizeAll(ns), 1
  {
    if ns == [] then [] else Inspect(ns[0]) + InspectAll(ns[1..])
  }

  // ---------------------------------------------------------------------------------------------
  // The ancestor stack kept beside the walk

  function Top(stack: seq<Node>): (r: Option<Node>)
  {
    if stack == [] then None else Some(stack[|stack| - 1])
  }

  /** Push the node on f(node), pop on f(nil). */
  function Step(stack: seq<Node>, e: Event): (r: seq<Node>)
  {
    match e
    case Enter(n) => stack + [n]
    case Leave => if stack == [] then [] else stack[..|stack| - 1]
  }

  /** The stack after a sequence of visitor calls, starting from `stack`. */
  function Replay(stack: seq<Node>, events: seq<Event>): (r: seq<Node>)
    decreases |events|
  {
    if events == [] then stack
    else Step(Replay(stack, events[..|events| - 1]), events[|events| - 1])
  }

  /** What a call expects of the stack it finds: a pop needs something to pop, and a node is entered
      with its parent on top (only a non-identifier root may be entered on an empty stack). */
  predicate StepOk(stack: seq<Node>, e: Event)
  {
    match e
    case Enter(n) => if stack == [] then !n.IdentNode? else n in Children(stack[|stack| - 1])
    case Leave => stack != []
  }

  predicate Disciplined(stack: seq<Node>, events: seq<Event>)
    decreases |events|
  {
    events == [] ||
    (Disciplined(stack, events[..|events| - 1]) &&
     StepOk(Replay(stack, events[..|events| - 1]), events[|events| - 1]))
  }

  lemma {:induction false} ReplayConcat(s: seq<Node>, a: seq<Event>, b: seq<Event>)
    ensures Replay(s, a + b) == Replay(Replay(s, a), b)
    ensures Disciplined(s, a + b) == (Disciplined(s, a) && Disciplined(Replay(s, a), b))
    decreases |b|
  {
    if b == [] {
      assert a + b == a;
    } else {
      var b' := b[..|b| - 1];
      assert (a + b)[..|a + b| - 1] == a + b';
      assert (a + b)[|a + b| - 1] == b[|b| - 1];
      ReplayConcat(s, a, b');
    }
  }

  lemma ReplayOne(s: seq<Node>, e: Event)
    ensures Replay(s, [e]) == Step(s, e)
    ensures Disciplined(s, [e]) == StepOk(s, e)
  {
    assert [e][..0] == [];
  }

  /** Walking a subtree leaves the stack as it found it, and inside the walk every node is entered
      with its own parent on top of the stack. */
  lemma {:induction false} InspectDisciplined(s: seq<Node>, n: Node)
    requires StepOk(s, Enter(n))
    ensures Disciplined(s, Inspect(n)) && Replay(s, Inspect(n)) == s
    decreases Size(n), 0
  {
    var cs := InspectAll(Children(n));
    SizeChildren(n);
    ReplayOne(s, Enter(n));
    InspectAllDisciplined(s + [n], n, Children(n));
    ReplayConcat(s, [Enter(n)], cs);
    ReplayConcat(s, [Enter(n)] + cs, [Leave]);
    ReplayOne(s + [n], Leave);
    assert (s + [n])[..|s|] == s;
  }

  lemma {:induction false} InspectAllDisciplined(s: seq<Node>, parent: Node, ns: seq<Node>)
    requires s != [] && s[|s| - 1] == parent
    requires forall c :: c in ns ==> c in Children(parent)
    ensures Disciplined(s, InspectAll(ns)) && Replay(s, InspectAll(ns)) == s
    decreases SizeAll(ns), 1
  {
    if ns != [] {
      SizeAllMember(ns, ns[0]);
      InspectDisciplined(s, ns[0]);
      InspectAllDisciplined(s, parent, ns[1..]);
      ReplayConcat(s, Inspect(ns[0]), InspectAll(ns[1..]));
    }
  }

  /** ast.Inspect on a file keeps the stack discipline of the tracer: no pop of an empty stack, every
      identifier is visited with its parent on top of the stack, and the stack is empty afterwards. */
  lemma FileWalkDisciplined(file: FileNode)
    ensures Disciplined([], Inspect(file))
    ensures Replay([], Inspect(file)) == []
  {
    InspectDisciplined([], file);
  }

  /** A call sequence that keeps the discipline keeps it on every prefix; in particular the call at
      position i finds the stack the earlier calls left. */
  lemma DisciplinedAt(events: seq<Event>, i: nat)
    requires i < |events| && Disciplined([], events)
    ensures StepOk(Replay([], events[..i]), events[i])
  {
    var pre := events[..i + 1];
    assert events == pre + events[i + 1..];
    ReplayConcat([], pre, events[i + 1..]);
    assert Disciplined([], pre);
    assert pre[..|pre| - 1] == events[..i];
    assert pre[|pre| - 1] == events[i];
  }

  // ---------------------------------------------------------------------------------------------
  // file.Imports

  /** *ast.ImportSpec */
  type ImportNode = n: Node | n.ImportSpec? witness ImportSpec(0, None, BasicLit(0, ""))

  /** The import specs of a file in source order, as the parser lists them in ast.File.Imports: the
      ImportSpec specs of its top-level GenDecls. */
  function FileImports(decls: seq<Node>): (r: seq<ImportNode>)
  {
    if decls == [] then []
    else (if decls[0].GenDecl? then SpecImports(decls[0].specs) else []) + FileImports(decls[1..])
  }

  function SpecImports(specs: seq<Node>): (r: seq<ImportNode>)
    ensures forall i :: 0 <= i < |r| ==> r[i] in specs
  {
    if specs == [] then []
    else (if specs[0].ImportSpec? then [specs[0]] else []) + SpecImports(specs[1..])
  }
}
