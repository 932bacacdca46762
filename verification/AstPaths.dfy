/** Which nodes and edges a file's syntax tree yields, told by paths from the root to a
    definition: its enclosing classes make up its name. */
module AstPaths {
  import opened AstWalk
  import opened Characters

  // ----- ids and names -----

  predicate MayStay(c: char) {
    c in LOWER || c in UPPER || c in DIGITS || c == '_'
  }

  /** `id` is the text with every character other than letters, digits and `_` replaced. */
  ghost predicate IsCleaned(id: string, text: string) {
    && |id| == |text|
    && forall k :: 0 <= k < |text| ==> if MayStay(text[k]) then id[k] == text[k] else id[k] == '_'
  }

  lemma LettersAndDigits(c: char)
    ensures c in LOWER <==> 'a' <= c <= 'z'
    ensures c in UPPER <==> 'A' <= c <= 'Z'
    ensures c in DIGITS <==> '0' <= c <= '9'
  {
    LowerLetters(c);
    UpperLetters(c);
    Digits(c);
  }

  lemma SanitizeCleans(id: string, text: string)
    ensures IsCleaned(id, text) <==> id == Sanitize(text)
  {
    forall k | 0 <= k < |text| ensures Safe(text[k]) <==> MayStay(text[k]) {
      LettersAndDigits(text[k]);
    }
  }

  /** Names joined by dots. */
  function DottedName(names: seq<string>): string
    requires names != []
  {
    if |names| == 1 then names[0] else DottedName(names[..|names| - 1]) + "." + names[|names| - 1]
  }

  ghost predicate Given(names: seq<string>) {
    forall n :: n in names ==> n != ""
  }

  lemma {:induction false} DottedFront(first: string, names: seq<string>)
    requires names != []
    ensures DottedName([first] + names) == first + "." + DottedName(names)
  {
    var all := [first] + names;
    if |names| == 1 {
      assert all[..1] == [first];
    } else {
      assert all[..|all| - 1] == [first] + names[..|names| - 1];
      DottedFront(first, names[..|names| - 1]);
      assert (first + "." + DottedName(names[..|names| - 1])) + "." + names[|names| - 1]
          == first + "." + (DottedName(names[..|names| - 1]) + "." + names[|names| - 1]);
    }
  }

  lemma {:induction false} DottedIsDottedName(stack: seq<string>)
    requires stack != []
    ensures Dotted(stack) == DottedName(stack)
  {
    if |stack| > 1 {
      DottedIsDottedName(stack[1..]);
      DottedFront(stack[0], stack[1..]);
      assert stack == [stack[0]] + stack[1..];
    }
  }

  /** A definition's name is that of its classes and its own, joined by dots. */
  lemma QualifiedIsDotted(scope: seq<string>, name: string)
    requires Given(scope)
    ensures Qualified(scope, name) == DottedName(scope + [name])
  {
    if scope != [] {
      DottedIsDottedName(scope);
      assert (scope + [name])[..|scope|] == scope;
      if |scope| == 1 {
        assert scope[0] in scope;
      }
    }
  }

  // ----- paths -----

  /** A way down the tree, from `root` to the node at the end. */
  ghost predicate IsPath(path: seq<Ast>, root: Ast) {
    && path != [] && path[0] == root
    && forall k :: 0 < k < |path| ==> path[k] in Children(path[k - 1])
  }

  function End(path: seq<Ast>): Ast
    requires path != []
  {
    path[|path| - 1]
  }

  /** The names of the classes passed on the way. */
  function Classes(path: seq<Ast>): seq<string> {
    if |path| <= 1 then []
    else (if path[0].ClassDef? then [path[0].name] else []) + Classes(path[1..])
  }

  lemma PathGoesOn(path: seq<Ast>, root: Ast)
    requires IsPath(path, root) && |path| > 1
    ensures path[1] in Children(root) && IsPath(path[1..], path[1]) && End(path[1..]) == End(path)
  {
  }

  lemma PathFrom(path: seq<Ast>, root: Ast, child: Ast)
    requires child in Children(root) && IsPath(path, child)
    ensures IsPath([root] + path, root) && End([root] + path) == End(path) && ([root] + path)[1..] == path
  {
    var longer := [root] + path;
    forall k | 0 < k < |longer| ensures longer[k] in Children(longer[k - 1]) {
      assert k > 1 ==> longer[k] == path[k - 1] && longer[k - 1] == path[k - 2];
    }
  }

  ghost predicate Reaches(root: Ast, node: Ast) {
    exists path :: IsPath(path, root) && End(path) == node
  }

  lemma ReachesByChild(root: Ast, node: Ast)
    ensures Reaches(root, node) <==> node == root || exists child :: child in Children(root) && Reaches(child, node)
  {
    if Reaches(root, node) {
      var path :| IsPath(path, root) && End(path) == node;
      if |path| > 1 {
        PathGoesOn(path, root);
        assert Reaches(path[1], node);
      }
    }
    if node == root {
      assert IsPath([root], root) && End([root]) == node;
    }
    if child :| child in Children(root) && Reaches(child, node) {
      var path :| IsPath(path, child) && End(path) == node;
      PathFrom(path, root, child);
    }
  }

  /** The breadth-first walk yields exactly the nodes below the queued ones. */
  lemma {:induction false} WalkReaches(queue: seq<Ast>, node: Ast)
    ensures node in Walk(queue) <==> exists root :: root in queue && Reaches(root, node)
    decreases TotalSize(queue)
  {
    if queue != [] {
      QueueShrinks(queue);
      var rest := queue[1..] + Children(queue[0]);
      WalkReaches(rest, node);
      ReachesByChild(queue[0], node);
      assert queue == [queue[0]] + queue[1..];
    }
  }

  // ----- edges -----

  /** The scope inside a node that stands in the scope `stack`. */
  function Inner(stack: seq<string>, node: Ast): seq<string> {
    if node.ClassDef? then stack + [node.name] else stack
  }

  /** An edge that the visit of this one node adds in this scope. */
  ghost predicate Gives(file: string, scope: seq<string>, node: Ast, e: Edge) {
    match node
    case FunctionDef(name, _, _) =>
      e.relation == Calls && e.source == NodeId(file, Qualified(scope, name)) && TargetsACall(file, node, e.target)
    case ClassDef(name, _, bases, _) =>
      && e.relation == Inherits && e.source == NodeId(file, Qualified(scope, name))
      && exists base :: base in bases && Named(base) && e.target == NodeId(file, base.value)
    case Import(names) => exists name :: name in names && e == ImportEdge(file, name)
    case ImportFrom(source) => Named(source) && e == ImportEdge(file, source.value)
    case Call(_, _) => false
    case Other(_) => false
  }

  function ImportEdge(file: string, name: string): Edge {
    Edge(NodeId(file, "__module__"), Sanitize("module_" + name), Imports)
  }

  ghost predicate TargetsACall(file: string, node: Ast, target: string) {
    exists call :: Reaches(node, call) && call.Call? && Named(call.target) && target == NodeId(file, call.target.value)
  }

  lemma {:induction false} CallEdgesExactly(file: string, caller: string, walked: seq<Ast>, e: Edge)
    ensures e in CallEdges(file, caller, walked) <==>
      && e.relation == Calls && e.source == caller
      && exists call :: call in walked && call.Call? && Named(call.target) && e.target == NodeId(file, call.target.value)
  {
    if walked != [] {
      CallEdgesExactly(file, caller, walked[1..], e);
      assert walked == [walked[0]] + walked[1..];
    }
  }

  lemma {:induction false} BaseEdgesExactly(file: string, id: string, bases: seq<Option<string>>, e: Edge)
    ensures e in BaseEdges(file, id, bases) <==>
      && e.relation == Inherits && e.source == id
      && exists base :: base in bases && Named(base) && e.target == NodeId(file, base.value)
  {
    if bases != [] {
      BaseEdgesExactly(file, id, bases[1..], e);
      assert bases == [bases[0]] + bases[1..];
    }
  }

  lemma {:induction false} ImportEdgesExactly(file: string, names: seq<string>, e: Edge)
    ensures e in ImportEdges(file, names) <==> exists name :: name in names && e == ImportEdge(file, name)
  {
    if names != [] {
      ImportEdgesExactly(file, names[1..], e);
      assert names == [names[0]] + names[1..];
      assert ImportEdges(file, names) == [ImportEdge(file, names[0])] + ImportEdges(file, names[1..]);
    }
  }

  /** The edges of one node, without those of its children. */
  function OwnEdges(file: string, stack: seq<string>, node: Ast): seq<Edge> {
    match node
    case FunctionDef(name, _, _) => CallEdges(file, NodeId(file, Qualified(stack, name)), Walk([node]))
    case ClassDef(name, _, bases, _) => BaseEdges(file, NodeId(file, Qualified(stack, name)), bases)
    case Import(names) => ImportEdges(file, names)
    case ImportFrom(source) => if Named(source) then ImportEdges(file, [source.value]) else []
    case Call(_, _) => []
    case Other(_) => []
  }

  lemma OwnAndInner(file: string, stack: seq<string>, node: Ast)
    ensures EdgesOf(file, stack, node) == OwnEdges(file, stack, node) + EdgesOfAll(file, Inner(stack, node), Children(node))
  {
  }

  lemma OwnEdgesExactly(file: string, stack: seq<string>, node: Ast, e: Edge)
    ensures e in OwnEdges(file, stack, node) <==> Gives(file, stack, node, e)
  {
    match node {
      case FunctionDef(name, _, _) =>
        CallEdgesExactly(file, NodeId(file, Qualified(stack, name)), Walk([node]), e);
        forall call ensures call in Walk([node]) <==> Reaches(node, call) {
          WalkReaches([node], call);
        }
      case ClassDef(name, _, bases, _) => BaseEdgesExactly(file, NodeId(file, Qualified(stack, name)), bases, e);
      case Import(names) => ImportEdgesExactly(file, names, e);
      case ImportFrom(source) =>
        if Named(source) {
          ImportEdgesExactly(file, [source.value], e);
        }
      case Call(_, _) =>
      case Other(_) =>
    }
  }

  ghost predicate GivenBelow(file: string, stack: seq<string>, root: Ast, e: Edge) {
    exists path :: IsPath(path, root) && Gives(file, stack + Classes(path), End(path), e)
  }

  lemma GivenByChild(file: string, stack: seq<string>, root: Ast, e: Edge)
    ensures GivenBelow(file, stack, root, e) <==>
      || Gives(file, stack, root, e)
      || exists child :: child in Children(root) && GivenBelow(file, Inner(stack, root), child, e)
  {
    if GivenBelow(file, stack, root, e) {
      var path :| IsPath(path, root) && Gives(file, stack + Classes(path), End(path), e);
      if |path| > 1 {
        PathGoesOn(path, root);
        InnerClasses(stack, path, root);
        assert GivenBelow(file, Inner(stack, root), path[1], e);
      } else {
        assert stack + [] == stack;
      }
    }
    if Gives(file, stack, root, e) {
      assert IsPath([root], root) && stack + Classes([root]) == stack;
    }
    if child :| child in Children(root) && GivenBelow(file, Inner(stack, root), child, e) {
      var path :| IsPath(path, child) && Gives(file, Inner(stack, root) + Classes(path), End(path), e);
      PathFrom(path, root, child);
      InnerClasses(stack, [root] + path, root);
    }
  }

  lemma InnerClasses(stack: seq<string>, path: seq<Ast>, root: Ast)
    requires IsPath(path, root) && |path| > 1
    ensures Inner(stack, root) + Classes(path[1..]) == stack + Classes(path)
  {
    if !root.ClassDef? {
      assert [] + Classes(path[1..]) == Classes(path[1..]);
    }
  }

  lemma {:induction false} EdgesBelow(file: string, stack: seq<string>, node: Ast, e: Edge)
    ensures e in EdgesOf(file, stack, node) <==> GivenBelow(file, stack, node, e)
    decreases node, 1
  {
    OwnAndInner(file, stack, node);
    OwnEdgesExactly(file, stack, node, e);
    GivenByChild(file, stack, node, e);
    match node {
      case FunctionDef(_, _, children) => EdgesBelowAll(file, stack, children, e);
      case ClassDef(name, _, _, children) => EdgesBelowAll(file, stack + [name], children, e);
      case Call(_, children) => EdgesBelowAll(file, stack, children, e);
      case Other(children) => EdgesBelowAll(file, stack, children, e);
      case Import(_) =>
      case ImportFrom(_) =>
    }
  }

  lemma {:induction false} EdgesBelowAll(file: string, stack: seq<string>, nodes: seq<Ast>, e: Edge)
    ensures e in EdgesOfAll(file, stack, nodes) <==> exists node :: node in nodes && GivenBelow(file, stack, node, e)
    decreases nodes, 0
  {
    if nodes != [] {
      EdgesBelow(file, stack, nodes[0], e);
      EdgesBelowAll(file, stack, nodes[1..], e);
      assert nodes == [nodes[0]] + nodes[1..];
    }
  }

  // ----- nodes -----

  predicate IsDefinition(node: Ast) {
    node.FunctionDef? || node.ClassDef?
  }

  /** The node of one definition or of the module. */
  ghost predicate Makes(file: string, scope: seq<string>, node: Ast, n: Node) {
    match node
    case FunctionDef(name, line, _) =>
      n == Node(NodeId(file, Qualified(scope, name)), Qualified(scope, name) + "()", line, FunctionNode)
    case ClassDef(name, line, _, _) =>
      n == Node(NodeId(file, Qualified(scope, name)), Qualified(scope, name) + "()", line, ClassNode)
    case Import(_) => n == Node(NodeId(file, "__module__"), "__module__()", 1, ModuleNode)
    case ImportFrom(source) => Named(source) && n == Node(NodeId(file, "__module__"), "__module__()", 1, ModuleNode)
    case Call(_, _) => false
    case Other(_) => false
  }

  ghost predicate MadeBelow(file: string, stack: seq<string>, root: Ast, n: Node) {
    exists path :: IsPath(path, root) && Makes(file, stack + Classes(path), End(path), n)
  }

  lemma MadeByChild(file: string, stack: seq<string>, root: Ast, n: Node)
    ensures MadeBelow(file, stack, root, n) <==>
      || Makes(file, stack, root, n)
      || exists child :: child in Children(root) && MadeBelow(file, Inner(stack, root), child, n)
  {
    if MadeBelow(file, stack, root, n) {
      var path :| IsPath(path, root) && Makes(file, stack + Classes(path), End(path), n);
      if |path| > 1 {
        PathGoesOn(path, root);
        InnerClasses(stack, path, root);
        assert MadeBelow(file, Inner(stack, root), path[1], n);
      } else {
        assert stack + [] == stack;
      }
    }
    if Makes(file, stack, root, n) {
      assert IsPath([root], root) && stack + Classes([root]) == stack;
    }
    if child :| child in Children(root) && MadeBelow(file, Inner(stack, root), child, n) {
      var path :| IsPath(path, child) && Makes(file, Inner(stack, root) + Classes(path), End(path), n);
      PathFrom(path, root, child);
      InnerClasses(stack, [root] + path, root);
    }
  }

  lemma {:induction false} NodesBelow(file: string, stack: seq<string>, node: Ast, seen: set<string>)
    ensures forall n :: n in NodesOf(file, stack, node, seen) ==> MadeBelow(file, stack, node, n)
    ensures seen + IdsIn(NodesOf(file, stack, node, seen)) == seen + IdsOf(file, stack, node)
    decreases node, 1
  {
    forall n {
      MadeByChild(file, stack, node, n);
    }
    if IsDefinition(node) {
      DefinitionNodes(file, stack, node, seen);
    } else if node.Call? || node.Other? {
      NodesBelowAll(file, stack, Children(node), seen);
    }
  }

  lemma {:induction false} DefinitionNodes(file: string, stack: seq<string>, node: Ast, seen: set<string>)
    requires IsDefinition(node)
    ensures forall n :: n in NodesOf(file, stack, node, seen) ==> MadeBelow(file, stack, node, n)
    ensures seen + IdsIn(NodesOf(file, stack, node, seen)) == seen + IdsOf(file, stack, node)
    decreases node, 0
  {
    forall n {
      MadeByChild(file, stack, node, n);
    }
    var id := NodeId(file, Qualified(stack, node.name));
    var own := NewNode(file, Qualified(stack, node.name), node.line, if node.ClassDef? then ClassNode else FunctionNode, seen);
    var inner := NodesOfAll(file, Inner(stack, node), Children(node), seen + {id});
    NodesBelowAll(file, Inner(stack, node), Children(node), seen + {id});
    assert NodesOf(file, stack, node, seen) == own + inner;
    IdsOfBoth(own, inner);
    assert seen + IdsIn(own) == seen + {id};
  }

  lemma IdsOfBoth(a: seq<Node>, b: seq<Node>)
    ensures IdsIn(a + b) == IdsIn(a) + IdsIn(b)
  {
  }

  lemma {:induction false} NodesBelowAll(file: string, stack: seq<string>, nodes: seq<Ast>, seen: set<string>)
    ensures forall n :: n in NodesOfAll(file, stack, nodes, seen) ==> exists node :: node in nodes && MadeBelow(file, stack, node, n)
    ensures seen + IdsIn(NodesOfAll(file, stack, nodes, seen)) == seen + IdsOfAll(file, stack, nodes)
    decreases nodes, 0
  {
    if nodes != [] {
      var after := seen + IdsOf(file, stack, nodes[0]);
      var first, rest := NodesOf(file, stack, nodes[0], seen), NodesOfAll(file, stack, nodes[1..], after);
      NodesBelow(file, stack, nodes[0], seen);
      NodesBelowAll(file, stack, nodes[1..], after);
      IdsOfBoth(first, rest);
      forall n | n in first + rest ensures exists node :: node in nodes && MadeBelow(file, stack, node, n) {
        if n in first {
          assert nodes[0] in nodes;
        } else {
          var node :| node in nodes[1..] && MadeBelow(file, stack, node, n);
          assert node in nodes;
        }
      }
    }
  }

  lemma {:induction false} IdsBelow(file: string, stack: seq<string>, root: Ast, path: seq<Ast>, n: Node)
    requires IsPath(path, root) && Makes(file, stack + Classes(path), End(path), n)
    ensures n.id in IdsOf(file, stack, root)
    decreases |path|
  {
    if |path| == 1 {
      assert stack + [] == stack;
    } else {
      PathGoesOn(path, root);
      InnerClasses(stack, path, root);
      IdsBelow(file, Inner(stack, root), path[1], path[1..], n);
      IdsOfChild(file, Inner(stack, root), Children(root), path[1]);
    }
  }

  lemma {:induction false} IdsOfChild(file: string, stack: seq<string>, nodes: seq<Ast>, node: Ast)
    requires node in nodes
    ensures IdsOf(file, stack, node) <= IdsOfAll(file, stack, nodes)
  {
    if node != nodes[0] {
      assert nodes == [nodes[0]] + nodes[1..];
      IdsOfChild(file, stack, nodes[1..], node);
    }
  }

  // ----- in plain terms -----

  /** Identifiers are never empty. */
  ghost predicate ClassesHaveNames(root: Ast) {
    forall path :: IsPath(path, root) ==> Given(Classes(path))
  }

  /** The name of the definition at the end of a path: its classes and its own, with dots. */
  function FullName(path: seq<Ast>): string
    requires path != [] && IsDefinition(End(path))
  {
    DottedName(Classes(path) + [End(path).name])
  }

  /** `n` is the node of the definition at the end of the path. */
  ghost predicate IsNodeOf(n: Node, file: string, path: seq<Ast>)
    requires path != [] && IsDefinition(End(path))
  {
    && IsCleaned(n.id, file + "_" + FullName(path)) && n.caption == FullName(path) + "()"
    && n.line == End(path).line && n.nodeType == if End(path).ClassDef? then ClassNode else FunctionNode
  }

  lemma MadeInPlainTerms(file: string, path: seq<Ast>, n: Node)
    requires path != [] && IsDefinition(End(path)) && Given(Classes(path))
    ensures Makes(file, [] + Classes(path), End(path), n) <==> IsNodeOf(n, file, path)
  {
    var name := End(path).name;
    assert [] + Classes(path) == Classes(path);
    QualifiedIsDotted(Classes(path), name);
    SanitizeCleans(n.id, file + "_" + FullName(path));
  }

  /** Every node of a file is that of a definition on some path, or the file's module. */
  lemma NodesAreDefinitions(file: string, root: Ast, n: Node)
    requires ClassesHaveNames(root) && n in NodesOf(file, [], root, {})
    ensures || (exists path :: IsPath(path, root) && IsDefinition(End(path)) && IsNodeOf(n, file, path))
            || (IsCleaned(n.id, file + "_" + "__module__") && n.caption == "__module__()" && n.line == 1 && n.nodeType == ModuleNode)
  {
    NodesBelow(file, [], root, {});
    var path :| IsPath(path, root) && Makes(file, [] + Classes(path), End(path), n);
    if IsDefinition(End(path)) {
      MadeInPlainTerms(file, path, n);
    } else {
      SanitizeCleans(n.id, file + "_" + "__module__");
    }
  }

  /** No other definition, and not the module, goes by the definition's id. */
  ghost predicate HasItsOwnId(file: string, root: Ast, path: seq<Ast>)
    requires path != [] && IsDefinition(End(path))
  {
    forall id :: IsCleaned(id, file + "_" + FullName(path)) ==>
      && !IsCleaned(id, file + "_" + "__module__")
      && forall other :: IsPath(other, root) && IsDefinition(End(other)) && other != path
                         ==> !IsCleaned(id, file + "_" + FullName(other))
  }

  /** Every definition's id is among those of the file's nodes; if the id is its own, the
      node under it carries its full name, its line and its kind. */
  lemma DefinitionsHaveNodes(file: string, root: Ast, path: seq<Ast>)
    requires ClassesHaveNames(root) && IsPath(path, root) && IsDefinition(End(path))
    ensures exists n :: n in NodesOf(file, [], root, {}) && IsCleaned(n.id, file + "_" + FullName(path))
                        && (HasItsOwnId(file, root, path) ==> IsNodeOf(n, file, path))
  {
    var full := FullName(path);
    var own := Node(Sanitize(file + "_" + full), full + "()", End(path).line, if End(path).ClassDef? then ClassNode else FunctionNode);
    SanitizeCleans(own.id, file + "_" + full);
    MadeInPlainTerms(file, path, own);
    NodesBelow(file, [], root, {});
    IdsBelow(file, [], root, path, own);
    var nodes := NodesOf(file, [], root, {});
    assert own.id in IdsIn(nodes);
    var n :| n in nodes && n.id == own.id;
    NodesAreDefinitions(file, root, n);
  }

  /** `e` is an edge of what stands at the end of the path: from a function to what is
      called below it, from a class to a base, or from the module to an import. */
  ghost predicate IsEdgeOf(e: Edge, file: string, path: seq<Ast>)
    requires path != []
  {
    match End(path)
    case FunctionDef(_, _, _) =>
      && e.relation == Calls && IsCleaned(e.source, file + "_" + FullName(path))
      && exists call :: Reaches(End(path), call) && call.Call? && call.target.Some? && call.target.value != ""
                        && IsCleaned(e.target, file + "_" + call.target.value)
    case ClassDef(_, _, bases, _) =>
      && e.relation == Inherits && IsCleaned(e.source, file + "_" + FullName(path))
      && exists base :: base in bases && base.Some? && base.value != "" && IsCleaned(e.target, file + "_" + base.value)
    case Import(names) =>
      && e.relation == Imports && IsCleaned(e.source, file + "_" + "__module__")
      && exists name :: name in names && IsCleaned(e.target, "module_" + name)
    case ImportFrom(source) =>
      && e.relation == Imports && IsCleaned(e.source, file + "_" + "__module__")
      && source.Some? && source.value != "" && IsCleaned(e.target, "module_" + source.value)
    case Call(_, _) => false
    case Other(_) => false
  }

  lemma GivenInPlainTerms(file: string, path: seq<Ast>, e: Edge)
    requires path != [] && Given(Classes(path))
    ensures Gives(file, [] + Classes(path), End(path), e) <==> IsEdgeOf(e, file, path)
  {
    assert [] + Classes(path) == Classes(path);
    forall text ensures IsCleaned(e.source, text) <==> e.source == Sanitize(text) {
      SanitizeCleans(e.source, text);
    }
    forall text ensures IsCleaned(e.target, text) <==> e.target == Sanitize(text) {
      SanitizeCleans(e.target, text);
    }
    if IsDefinition(End(path)) {
      QualifiedIsDotted(Classes(path), End(path).name);
    }
  }

  /** The edges of a file are exactly those of what stands on its paths. */
  lemma EdgesAreExactly(file: string, root: Ast, e: Edge)
    requires ClassesHaveNames(root)
    ensures e in EdgesOf(file, [], root) <==> exists path :: IsPath(path, root) && IsEdgeOf(e, file, path)
  {
    EdgesBelow(file, [], root, e);
    forall path | IsPath(path, root)
      ensures Gives(file, [] + Classes(path), End(path), e) <==> IsEdgeOf(e, file, path)
    {
      GivenInPlainTerms(file, path, e);
    }
  }

  /** The extraction of one file: its ids are distinct, each node is that of a definition
      or of the module, each definition has its id among them, and the edges are exactly
      those of what stands in the tree. */
  method ExtractFile(file: string, tree: Ast) returns (nodes: seq<Node>, edges: seq<Edge>)
    ensures nodes == NodesOf(file, [], tree, {}) && edges == EdgesOf(file, [], tree)
    ensures forall j, k :: 0 <= j < k < |nodes| ==> nodes[j].id != nodes[k].id
    ensures forall e :: e in edges ==> e.source in IdsIn(nodes)
  {
    var builder := new GraphBuilder(file);
    builder.Visit(tree);
    nodes, edges := builder.nodes, builder.edges;
  }
}
