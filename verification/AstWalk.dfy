/** The visitor that turns one file's syntax tree into nodes and edges. */
module AstWalk {

  datatype Option<+T> = None | Some(value: T)

  /** A syntax tree; `children` are all child nodes in field order.  `target` is
      the called name, `bases` the names of the base classes, where they have one. */
  datatype Ast =
    | FunctionDef(name: string, line: nat, children: seq<Ast>)
    | ClassDef(name: string, line: nat, bases: seq<Option<string>>, children: seq<Ast>)
    | Call(target: Option<string>, children: seq<Ast>)
    | Import(names: seq<string>)
    | ImportFrom(source: Option<string>)
    | Other(children: seq<Ast>)

  datatype NodeType = FunctionNode | ClassNode | ModuleNode
  datatype Relation = Calls | Inherits | Imports
  datatype Node = Node(id: string, caption: string, line: nat, nodeType: NodeType)
  datatype Edge = Edge(source: string, target: string, relation: Relation)

  predicate Safe(c: char) {
    'a' <= c <= 'z' || 'A' <= c <= 'Z' || '0' <= c <= '9' || c == '_'
  }

  function Sanitize(path: string): string {
    seq(|path|, k requires 0 <= k < |path| => if Safe(path[k]) then path[k] else '_')
  }

  /** The id of a definition in the file whose directory and stem make up `file`. */
  function NodeId(file: string, name: string): string {
    Sanitize(file + "_" + name)
  }

  function Dotted(stack: seq<string>): string {
    if |stack| == 0 then "" else if |stack| == 1 then stack[0] else stack[0] + "." + Dotted(stack[1..])
  }

  function Qualified(stack: seq<string>, name: string): string {
    if Dotted(stack) != "" then Dotted(stack) + "." + name else name
  }

  function Children(node: Ast): seq<Ast> {
    match node
    case FunctionDef(_, _, children) => children
    case ClassDef(_, _, _, children) => children
    case Call(_, children) => children
    case Import(_) => []
    case ImportFrom(_) => []
    case Other(children) => children
  }

  predicate Named(name: Option<string>) {
    name.Some? && name.value != ""
  }

  // ----- the breadth-first walk -----

  function Size(node: Ast): nat
    decreases node, 1
  {
    match node
    case FunctionDef(_, _, children) => 1 + TotalSize(children)
    case ClassDef(_, _, _, children) => 1 + TotalSize(children)
    case Call(_, children) => 1 + TotalSize(children)
    case Import(_) => 1
    case ImportFrom(_) => 1
    case Other(children) => 1 + TotalSize(children)
  }

  function TotalSize(nodes: seq<Ast>): nat
    decreases nodes, 0
  {
    if nodes == [] then 0 else Size(nodes[0]) + TotalSize(nodes[1..])
  }

  lemma {:induction false} TotalSizeConcat(a: seq<Ast>, b: seq<Ast>)
    ensures TotalSize(a + b) == TotalSize(a) + TotalSize(b)
  {
    if a == [] {
      assert a + b == b;
    } else {
      assert (a + b)[1..] == a[1..] + b;
      TotalSizeConcat(a[1..], b);
    }
  }

  lemma QueueShrinks(queue: seq<Ast>)
    requires queue != []
    ensures TotalSize(queue[1..] + Children(queue[0])) < TotalSize(queue)
  {
    TotalSizeConcat(queue[1..], Children(queue[0]));
  }

  /** The nodes in the order a queue of pending nodes yields them. */
  function Walk(queue: seq<Ast>): seq<Ast>
    decreases TotalSize(queue)
  {
    if queue == [] then []
    else
      QueueShrinks(queue);
      [queue[0]] + Walk(queue[1..] + Children(queue[0]))
  }

  function CallEdges(file: string, caller: string, walked: seq<Ast>): seq<Edge> {
    if walked == [] then []
    else
      (if walked[0].Call? && Named(walked[0].target)
       then [Edge(caller, NodeId(file, walked[0].target.value), Calls)] else [])
      + CallEdges(file, caller, walked[1..])
  }

  // ----- the edges of a tree -----

  function BaseEdges(file: string, id: string, bases: seq<Option<string>>): seq<Edge> {
    if bases == [] then []
    else
      (if Named(bases[0]) then [Edge(id, NodeId(file, bases[0].value), Inherits)] else [])
      + BaseEdges(file, id, bases[1..])
  }

  function ImportEdges(file: string, names: seq<string>): seq<Edge> {
    if names == [] then []
    else [Edge(NodeId(file, "__module__"), Sanitize("module_" + names[0]), Imports)] + ImportEdges(file, names[1..])
  }

  /** The edges a visit adds.  The scope grows inside classes; a function's own
      name is off the stack again before its body is visited. */
  function EdgesOf(file: string, stack: seq<string>, node: Ast): seq<Edge>
    decreases node, 1
  {
    match node
    case FunctionDef(name, _, children) =>
      CallEdges(file, NodeId(file, Qualified(stack, name)), Walk([node])) + EdgesOfAll(file, stack, children)
    case ClassDef(name, _, bases, children) =>
      BaseEdges(file, NodeId(file, Qualified(stack, name)), bases) + EdgesOfAll(file, stack + [name], children)
    case Call(_, children) => EdgesOfAll(file, stack, children)
    case Import(names) => ImportEdges(file, names)
    case ImportFrom(source) => if Named(source) then ImportEdges(file, [source.value]) else []
    case Other(children) => EdgesOfAll(file, stack, children)
  }

  function EdgesOfAll(file: string, stack: seq<string>, nodes: seq<Ast>): seq<Edge>
    decreases nodes, 0
  {
    if nodes == [] then [] else EdgesOf(file, stack, nodes[0]) + EdgesOfAll(file, stack, nodes[1..])
  }

  /** The ids a visit emits. */
  function IdsOf(file: string, stack: seq<string>, node: Ast): set<string>
    decreases node, 1
  {
    match node
    case FunctionDef(name, _, children) => {NodeId(file, Qualified(stack, name))} + IdsOfAll(file, stack, children)
    case ClassDef(name, _, _, children) =>
      {NodeId(file, Qualified(stack, name))} + IdsOfAll(file, stack + [name], children)
    case Call(_, children) => IdsOfAll(file, stack, children)
    case Import(_) => {NodeId(file, "__module__")}
    case ImportFrom(source) => if Named(source) then {NodeId(file, "__module__")} else {}
    case Other(children) => IdsOfAll(file, stack, children)
  }

  function IdsOfAll(file: string, stack: seq<string>, nodes: seq<Ast>): set<string>
    decreases nodes, 0
  {
    if nodes == [] then {} else IdsOf(file, stack, nodes[0]) + IdsOfAll(file, stack, nodes[1..])
  }

  /** One definition's node, unless its id was emitted before. */
  function NewNode(file: string, name: string, line: nat, nodeType: NodeType, seen: set<string>): seq<Node> {
    if NodeId(file, name) in seen then [] else [Node(NodeId(file, name), name + "()", line, nodeType)]
  }

  /** The nodes a visit adds, in order, when the ids in `seen` are already there. */
  function NodesOf(file: string, stack: seq<string>, node: Ast, seen: set<string>): seq<Node>
    decreases node, 1
  {
    match node
    case FunctionDef(name, line, children) =>
      NewNode(file, Qualified(stack, name), line, FunctionNode, seen)
      + NodesOfAll(file, stack, children, seen + {NodeId(file, Qualified(stack, name))})
    case ClassDef(name, line, _, children) =>
      NewNode(file, Qualified(stack, name), line, ClassNode, seen)
      + NodesOfAll(file, stack + [name], children, seen + {NodeId(file, Qualified(stack, name))})
    case Call(_, children) => NodesOfAll(file, stack, children, seen)
    case Import(_) => NewNode(file, "__module__", 1, ModuleNode, seen)
    case ImportFrom(source) => if Named(source) then NewNode(file, "__module__", 1, ModuleNode, seen) else []
    case Other(children) => NodesOfAll(file, stack, children, seen)
  }

  function NodesOfAll(file: string, stack: seq<string>, nodes: seq<Ast>, seen: set<string>): seq<Node>
    decreases nodes, 0
  {
    if nodes == [] then []
    else
      NodesOf(file, stack, nodes[0], seen)
      + NodesOfAll(file, stack, nodes[1..], seen + IdsOf(file, stack, nodes[0]))
  }

  // ----- the counting theorem -----

  function CountCalls(edges: seq<Edge>): nat {
    if edges == [] then 0 else (if edges[0].relation == Calls then 1 else 0) + CountCalls(edges[1..])
  }

  /** The named calls of a tree. */
  function NamedCalls(node: Ast): nat
    decreases node, 1
  {
    match node
    case FunctionDef(_, _, children) => NamedCallsOfAll(children)
    case ClassDef(_, _, _, children) => NamedCallsOfAll(children)
    case Call(target, children) => (if Named(target) then 1 else 0) + NamedCallsOfAll(children)
    case Import(_) => 0
    case ImportFrom(_) => 0
    case Other(children) => NamedCallsOfAll(children)
  }

  function NamedCallsOfAll(nodes: seq<Ast>): nat
    decreases nodes, 0
  {
    if nodes == [] then 0 else NamedCalls(nodes[0]) + NamedCallsOfAll(nodes[1..])
  }

  /** The sum, over the named calls of a tree, of how many function definitions
      enclose each, when `depth` of them enclose the tree itself. */
  function Enclosures(node: Ast, depth: nat): nat
    decreases node, 1
  {
    match node
    case FunctionDef(_, _, children) => EnclosuresOfAll(children, depth + 1)
    case ClassDef(_, _, _, children) => EnclosuresOfAll(children, depth)
    case Call(target, children) => (if Named(target) then depth else 0) + EnclosuresOfAll(children, depth)
    case Import(_) => 0
    case ImportFrom(_) => 0
    case Other(children) => EnclosuresOfAll(children, depth)
  }

  function EnclosuresOfAll(nodes: seq<Ast>, depth: nat): nat
    decreases nodes, 0
  {
    if nodes == [] then 0 else Enclosures(nodes[0], depth) + EnclosuresOfAll(nodes[1..], depth)
  }

  lemma {:induction false} CountCallsConcat(a: seq<Edge>, b: seq<Edge>)
    ensures CountCalls(a + b) == CountCalls(a) + CountCalls(b)
  {
    if a == [] {
      assert a + b == b;
    } else {
      assert (a + b)[1..] == a[1..] + b;
      CountCallsConcat(a[1..], b);
    }
  }

  lemma {:induction false} NamedCallsConcat(a: seq<Ast>, b: seq<Ast>)
    ensures NamedCallsOfAll(a + b) == NamedCallsOfAll(a) + NamedCallsOfAll(b)
  {
    if a == [] {
      assert a + b == b;
    } else {
      assert (a + b)[1..] == a[1..] + b;
      NamedCallsConcat(a[1..], b);
    }
  }

  /** The breadth-first walk meets every named call of the queued trees once. */
  lemma {:induction false} WalkCountsCalls(file: string, caller: string, queue: seq<Ast>)
    ensures CountCalls(CallEdges(file, caller, Walk(queue))) == NamedCallsOfAll(queue)
    decreases TotalSize(queue)
  {
    if queue != [] {
      var rest := queue[1..] + Children(queue[0]);
      QueueShrinks(queue);
      WalkCountsCalls(file, caller, rest);
      NamedCallsConcat(queue[1..], Children(queue[0]));
      assert Walk(queue)[1..] == Walk(rest);
      var head := if queue[0].Call? && Named(queue[0].target)
                  then [Edge(caller, NodeId(file, queue[0].target.value), Calls)] else [];
      CountCallsConcat(head, CallEdges(file, caller, Walk(rest)));
    }
  }

  lemma {:induction false} OtherEdgesCallNothing(file: string, id: string, bases: seq<Option<string>>, names: seq<string>)
    ensures CountCalls(BaseEdges(file, id, bases)) == 0
    ensures CountCalls(ImportEdges(file, names)) == 0
    decreases |bases| + |names|
  {
    if bases != [] {
      OtherEdgesCallNothing(file, id, bases[1..], names);
      CountCallsConcat(if Named(bases[0]) then [Edge(id, NodeId(file, bases[0].value), Inherits)] else [],
                       BaseEdges(file, id, bases[1..]));
    } else if names != [] {
      OtherEdgesCallNothing(file, id, bases, names[1..]);
    }
  }

  lemma Distribute(depth: nat, a: nat, b: nat)
    ensures depth * (a + b) == depth * a + depth * b
    ensures (depth + 1) * a == depth * a + a
  {
  }

  /** The edges of a function definition: its own calls and those of its parts. */
  lemma FunctionEdges(file: string, stack: seq<string>, node: Ast)
    requires node.FunctionDef?
    ensures CountCalls(EdgesOf(file, stack, node))
              == NamedCallsOfAll(node.children) + CountCalls(EdgesOfAll(file, stack, node.children))
  {
    var caller := NodeId(file, Qualified(stack, node.name));
    CountCallsConcat(CallEdges(file, caller, Walk([node])), EdgesOfAll(file, stack, node.children));
    WalkCountsCalls(file, caller, [node]);
    assert [node][1..] == [];
  }

  lemma ClassEdges(file: string, stack: seq<string>, node: Ast)
    requires node.ClassDef?
    ensures CountCalls(EdgesOf(file, stack, node)) == CountCalls(EdgesOfAll(file, stack + [node.name], node.children))
  {
    var id := NodeId(file, Qualified(stack, node.name));
    CountCallsConcat(BaseEdges(file, id, node.bases), EdgesOfAll(file, stack + [node.name], node.children));
    OtherEdgesCallNothing(file, id, node.bases, []);
  }

  lemma {:induction false} EnclosuresCount(file: string, stack: seq<string>, node: Ast, depth: nat)
    ensures Enclosures(node, depth) == CountCalls(EdgesOf(file, stack, node)) + depth * NamedCalls(node)
    decreases node, 1
  {
    match node {
      case FunctionDef(name, _, children) =>
        FunctionEdges(file, stack, node);
        EnclosuresOfAllCount(file, stack, children, depth + 1);
        Distribute(depth, NamedCallsOfAll(children), 0);
      case ClassDef(name, _, bases, children) =>
        ClassEdges(file, stack, node);
        EnclosuresOfAllCount(file, stack + [name], children, depth);
      case Call(target, children) =>
        EnclosuresOfAllCount(file, stack, children, depth);
        Distribute(depth, if Named(target) then 1 else 0, NamedCallsOfAll(children));
      case Import(names) => OtherEdgesCallNothing(file, "", [], names);
      case ImportFrom(source) => OtherEdgesCallNothing(file, "", [], if Named(source) then [source.value] else []);
      case Other(children) => EnclosuresOfAllCount(file, stack, children, depth);
    }
  }

  lemma {:induction false} EnclosuresOfAllCount(file: string, stack: seq<string>, nodes: seq<Ast>, depth: nat)
    ensures EnclosuresOfAll(nodes, depth) == CountCalls(EdgesOfAll(file, stack, nodes)) + depth * NamedCallsOfAll(nodes)
    decreases nodes, 0
  {
    if nodes != [] {
      EnclosuresCount(file, stack, nodes[0], depth);
      EnclosuresOfAllCount(file, stack, nodes[1..], depth);
      CountCallsConcat(EdgesOf(file, stack, nodes[0]), EdgesOfAll(file, stack, nodes[1..]));
      Distribute(depth, NamedCalls(nodes[0]), NamedCallsOfAll(nodes[1..]));
    }
  }

  /** A file has as many "calls" edges as there are pairs of a named call and a
      function definition around it. */
  lemma CallEdgesCountEnclosures(file: string, tree: Ast)
    ensures CountCalls(EdgesOf(file, [], tree)) == Enclosures(tree, 0)
  {
    EnclosuresCount(file, [], tree, 0);
  }

  // ----- the builder -----

  function IdsIn(nodes: seq<Node>): set<string> {
    set n | n in nodes :: n.id
  }

  class GraphBuilder {
    const file: string
    var nodes: seq<Node>
    var edges: seq<Edge>
    var scopeStack: seq<string>
    var seen: set<string>

    /** The seen ids are exactly the emitted ones, each emitted once, and every
        edge starts at an emitted node. */
    ghost predicate Valid()
      reads this
    {
      && seen == IdsIn(nodes)
      && (forall j, k :: 0 <= j < k < |nodes| ==> nodes[j].id != nodes[k].id)
      && (forall e :: e in edges ==> e.source in seen)
    }

    constructor (file: string)
      ensures Valid() && this.file == file && nodes == [] && edges == [] && scopeStack == [] && seen == {}
    {
      this.file := file;
      nodes, edges, scopeStack, seen := [], [], [], {};
    }

    method AddNode(name: string, line: nat, nodeType: NodeType) returns (id: string)
      requires Valid()
      modifies this`nodes, this`seen
      ensures Valid()
      ensures id == NodeId(file, name) && seen == old(seen) + {id}
      ensures nodes == old(nodes) + NewNode(file, name, line, nodeType, old(seen))
    {
      id := NodeId(file, name);
      if id in seen {
        assert seen == seen + {id} && nodes == nodes + [];
        return;
      }
      var node := Node(id, name + "()", line, nodeType);
      assert IdsIn(nodes + [node]) == IdsIn(nodes) + {id};
      seen := seen + {id};
      nodes := nodes + [node];
    }

    method AddEdge(source: string, target: string, relation: Relation)
      requires Valid() && source in seen
      modifies this`edges
      ensures Valid() && edges == old(edges) + [Edge(source, target, relation)]
    {
      edges := edges + [Edge(source, target, relation)];
    }

    method AddCallEdges(caller: string, tree: Ast)
      requires Valid() && caller in seen
      modifies this`edges
      ensures Valid() && edges == old(edges) + CallEdges(file, caller, Walk([tree]))
    {
      var queue := [tree];
      while queue != []
        invariant Valid()
        invariant edges + CallEdges(file, caller, Walk(queue)) == old(edges) + CallEdges(file, caller, Walk([tree]))
        decreases TotalSize(queue)
      {
        var node := queue[0];
        QueueShrinks(queue);
        WalkFirst(file, caller, queue);
        ghost var before := edges;
        if node.Call? && Named(node.target) {
          AddEdge(caller, NodeId(file, node.target.value), Calls);
        }
        queue := queue[1..] + Children(node);
        Reassociate(before, edges[|before|..], CallEdges(file, caller, Walk(queue)));
        assert edges == before + edges[|before|..];
      }
      assert edges + [] == edges;
    }

    method AddBaseEdges(id: string, bases: seq<Option<string>>)
      requires Valid() && id in seen
      modifies this`edges
      ensures Valid() && edges == old(edges) + BaseEdges(file, id, bases)
    {
      for k := 0 to |bases|
        invariant Valid()
        invariant edges + BaseEdges(file, id, bases[k..]) == old(edges) + BaseEdges(file, id, bases)
      {
        assert bases[k..][1..] == bases[k + 1..];
        if Named(bases[k]) {
          AddEdge(id, NodeId(file, bases[k].value), Inherits);
        }
      }
      assert edges + [] == edges;
    }

    method AddImportEdges(names: seq<string>)
      requires Valid() && NodeId(file, "__module__") in seen
      modifies this`edges
      ensures Valid() && edges == old(edges) + ImportEdges(file, names)
    {
      for k := 0 to |names|
        invariant Valid()
        invariant edges + ImportEdges(file, names[k..]) == old(edges) + ImportEdges(file, names)
      {
        assert names[k..][1..] == names[k + 1..];
        AddEdge(NodeId(file, "__module__"), Sanitize("module_" + names[k]), Imports);
      }
      assert edges + [] == edges;
    }

    method VisitFunction(node: Ast)
      requires Valid() && node.FunctionDef?
      modifies this
      ensures Valid() && scopeStack == old(scopeStack)
      ensures edges == old(edges) + EdgesOf(file, old(scopeStack), node)
      ensures nodes == old(nodes) + NodesOf(file, old(scopeStack), node, old(seen))
      ensures seen == old(seen) + IdsOf(file, old(scopeStack), node)
      decreases node, 0
    {
      ghost var own := NewNode(file, Qualified(scopeStack, node.name), node.line, FunctionNode, seen);
      var id := AddNode(Qualified(scopeStack, node.name), node.line, FunctionNode);
      scopeStack := scopeStack + [node.name];
      AddCallEdges(id, node);
      scopeStack := scopeStack[..|scopeStack| - 1];
      Reassociate(old(nodes), own, NodesOfAll(file, scopeStack, node.children, seen));
      Reassociate(old(edges), CallEdges(file, id, Walk([node])), EdgesOfAll(file, scopeStack, node.children));
      VisitAll(node.children);
    }

    method VisitClass(node: Ast)
      requires Valid() && node.ClassDef?
      modifies this
      ensures Valid() && scopeStack == old(scopeStack)
      ensures edges == old(edges) + EdgesOf(file, old(scopeStack), node)
      ensures nodes == old(nodes) + NodesOf(file, old(scopeStack), node, old(seen))
      ensures seen == old(seen) + IdsOf(file, old(scopeStack), node)
      decreases node, 0
    {
      ghost var own := NewNode(file, Qualified(scopeStack, node.name), node.line, ClassNode, seen);
      var id := AddNode(Qualified(scopeStack, node.name), node.line, ClassNode);
      AddBaseEdges(id, node.bases);
      scopeStack := scopeStack + [node.name];
      Reassociate(old(nodes), own, NodesOfAll(file, scopeStack, node.children, seen));
      Reassociate(old(edges), BaseEdges(file, id, node.bases), EdgesOfAll(file, scopeStack, node.children));
      VisitAll(node.children);
      scopeStack := scopeStack[..|scopeStack| - 1];
    }

    /** A visit restores the scope stack and adds exactly the tree's edges and ids. */
    method Visit(node: Ast)
      requires Valid()
      modifies this
      ensures Valid() && scopeStack == old(scopeStack)
      ensures edges == old(edges) + EdgesOf(file, old(scopeStack), node)
      ensures nodes == old(nodes) + NodesOf(file, old(scopeStack), node, old(seen))
      ensures seen == old(seen) + IdsOf(file, old(scopeStack), node)
      decreases node, 1
    {
      match node {
        case FunctionDef(_, _, _) => VisitFunction(node);
        case ClassDef(_, _, _, _) => VisitClass(node);
        case Call(_, children) => VisitAll(children);
        case Import(names) =>
          var id := AddNode("__module__", 1, ModuleNode);
          AddImportEdges(names);
        case ImportFrom(source) =>
          if Named(source) {
            var id := AddNode("__module__", 1, ModuleNode);
            AddImportEdges([source.value]);
          }
        case Other(children) => VisitAll(children);
      }
    }

    method VisitAll(trees: seq<Ast>)
      requires Valid()
      modifies this
      ensures Valid() && scopeStack == old(scopeStack)
      ensures edges == old(edges) + EdgesOfAll(file, old(scopeStack), trees)
      ensures nodes == old(nodes) + NodesOfAll(file, old(scopeStack), trees, old(seen))
      ensures seen == old(seen) + IdsOfAll(file, old(scopeStack), trees)
      decreases trees, 0
    {
      if trees != [] {
        ghost var stack, first := scopeStack, IdsOf(file, scopeStack, trees[0]);
        Reassociate(nodes, NodesOf(file, stack, trees[0], seen), NodesOfAll(file, stack, trees[1..], seen + first));
        Reassociate(edges, EdgesOf(file, stack, trees[0]), EdgesOfAll(file, stack, trees[1..]));
        Visit(trees[0]);
        VisitAll(trees[1..]);
      }
    }
  }

  lemma Reassociate<T>(a: seq<T>, b: seq<T>, c: seq<T>)
    ensures (a + b) + c == a + (b + c)
  {
  }

  lemma WalkFirst(file: string, caller: string, queue: seq<Ast>)
    requires queue != []
    ensures CallEdges(file, caller, Walk(queue))
              == (if queue[0].Call? && Named(queue[0].target)
                  then [Edge(caller, NodeId(file, queue[0].target.value), Calls)] else [])
                 + CallEdges(file, caller, Walk(queue[1..] + Children(queue[0])))
  {
    assert Walk(queue)[1..] == Walk(queue[1..] + Children(queue[0]));
  }
}
