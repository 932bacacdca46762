/** Merging extracted nodes and links into an existing code graph: the loops with
    their index and key set, against an ordered upsert. */
module GraphMerge {

  /** A JSON object; values are kept as text. */
  type Fields = map<string, string>

  datatype Option<+T> = None | Some(value: T)
  datatype LinkKey = LinkKey(source: string, target: string, relation: string)

  function IdOf(node: Fields): string {
    if "id" in node then node["id"] else ""
  }

  predicate IsAst(f: Fields) {
    "_origin" in f && f["_origin"] == "ast"
  }

  predicate HasKey(link: Fields) {
    "source" in link && "target" in link && "relation" in link
  }

  function KeyOf(link: Fields): LinkKey
    requires HasKey(link)
  {
    LinkKey(link["source"], link["target"], link["relation"])
  }

  predicate IsAstLink(link: Fields, key: LinkKey) {
    IsAst(link) && HasKey(link) && KeyOf(link) == key
  }

  // ----- the ordered upsert -----

  /** The last node with an id, the one the index points to. */
  function LastWithId(nodes: seq<Fields>, id: string): (r: Option<nat>)
    ensures r.Some? ==> r.value < |nodes| && IdOf(nodes[r.value]) == id
  {
    if nodes == [] then None
    else if IdOf(nodes[|nodes| - 1]) == id then Some(|nodes| - 1)
    else LastWithId(nodes[..|nodes| - 1], id)
  }

  function UpsertNode(nodes: seq<Fields>, node: Fields): seq<Fields> {
    match LastWithId(nodes, IdOf(node))
    case None => nodes + [node]
    case Some(k) => if IsAst(nodes[k]) then nodes[k := node] else nodes
  }

  function MergeNodes(nodes: seq<Fields>, batch: seq<Fields>): seq<Fields> {
    if batch == [] then nodes else UpsertNode(MergeNodes(nodes, batch[..|batch| - 1]), batch[|batch| - 1])
  }

  /** The first AST link with a key, the one an update goes to. */
  function FirstWithKey(links: seq<Fields>, key: LinkKey): (r: Option<nat>)
    ensures r.Some? ==> r.value < |links| && IsAstLink(links[r.value], key)
  {
    if links == [] then None
    else
      match FirstWithKey(links[..|links| - 1], key)
      case Some(k) => Some(k)
      case None => if IsAstLink(links[|links| - 1], key) then Some(|links| - 1) else None
  }

  function UpsertLink(links: seq<Fields>, edge: Fields): seq<Fields>
    requires HasKey(edge)
  {
    match FirstWithKey(links, KeyOf(edge))
    case None => links + [edge]
    case Some(k) => links[k := links[k] + edge]
  }

  predicate AstEdges(edges: seq<Fields>) {
    forall e :: e in edges ==> HasKey(e) && IsAst(e)
  }

  function MergeLinks(links: seq<Fields>, batch: seq<Fields>): seq<Fields>
    requires AstEdges(batch)
  {
    if batch == [] then links
    else
      assert batch[|batch| - 1] in batch;
      UpsertLink(MergeLinks(links, batch[..|batch| - 1]), batch[|batch| - 1])
  }

  // ----- the lookups, in terms of the fields -----

  /** The node that an update goes to is the last one with the id; a node without an id
      goes by the empty text. */
  lemma {:induction false} LastWithIdExactly(nodes: seq<Fields>, id: string, k: nat)
    ensures LastWithId(nodes, id) == Some(k) <==>
      && k < |nodes| && (if "id" in nodes[k] then nodes[k]["id"] == id else id == "")
      && forall j :: k < j < |nodes| ==> if "id" in nodes[j] then nodes[j]["id"] != id else id != ""
  {
    if nodes != [] && IdOf(nodes[|nodes| - 1]) != id {
      LastWithIdExactly(nodes[..|nodes| - 1], id, k);
    }
  }

  /** The link is of this origin and has this source, target and relation. */
  predicate IsAstEdge(link: Fields, source: string, target: string, relation: string) {
    && "_origin" in link && link["_origin"] == "ast"
    && "source" in link && link["source"] == source
    && "target" in link && link["target"] == target
    && "relation" in link && link["relation"] == relation
  }

  /** The link that an update goes to is the first extracted one with the same source,
      target and relation. */
  lemma {:induction false} FirstWithKeyExactly(links: seq<Fields>, source: string, target: string, relation: string, k: nat)
    ensures FirstWithKey(links, LinkKey(source, target, relation)) == Some(k) <==>
      && k < |links| && IsAstEdge(links[k], source, target, relation)
      && forall j :: 0 <= j < k ==> !IsAstEdge(links[j], source, target, relation)
  {
    if links != [] {
      FirstWithKeyExactly(links[..|links| - 1], source, target, relation, k);
      if FirstWithKey(links[..|links| - 1], LinkKey(source, target, relation)).None? {
        NoneWithKey(links[..|links| - 1], source, target, relation);
      }
    }
  }

  lemma {:induction false} NoneWithKey(links: seq<Fields>, source: string, target: string, relation: string)
    ensures FirstWithKey(links, LinkKey(source, target, relation)).None? <==>
      forall j :: 0 <= j < |links| ==> !IsAstEdge(links[j], source, target, relation)
  {
    if links != [] {
      NoneWithKey(links[..|links| - 1], source, target, relation);
    }
  }

  /** What one new node does: it takes the place of the last node with its id if that one
      was extracted too, is dropped if that one is of another origin, and is appended if
      there is none. */
  lemma UpsertNodeExactly(nodes: seq<Fields>, node: Fields, k: nat)
    requires "id" in node
    ensures (forall j :: 0 <= j < |nodes| ==> "id" in nodes[j] ==> nodes[j]["id"] != node["id"])
            && (node["id"] == "" ==> forall j :: 0 <= j < |nodes| ==> "id" in nodes[j])
            ==> UpsertNode(nodes, node) == nodes + [node]
    ensures k < |nodes| && "id" in nodes[k] && nodes[k]["id"] == node["id"]
            && (forall j :: k < j < |nodes| ==> "id" in nodes[j] && nodes[j]["id"] != node["id"])
            ==> UpsertNode(nodes, node)
                  == if "_origin" in nodes[k] && nodes[k]["_origin"] == "ast" then nodes[k := node] else nodes
  {
    LastWithIdExactly(nodes, node["id"], k);
    var last := LastWithId(nodes, node["id"]);
    if last.Some? {
      LastWithIdExactly(nodes, node["id"], last.value);
    }
  }

  /** What one new edge does: its fields go over those of the first extracted link with the
      same source, target and relation, or it is appended if there is none. */
  lemma UpsertLinkExactly(links: seq<Fields>, edge: Fields, k: nat)
    requires "source" in edge && "target" in edge && "relation" in edge
    ensures (forall j :: 0 <= j < |links| ==> !IsAstEdge(links[j], edge["source"], edge["target"], edge["relation"]))
            ==> UpsertLink(links, edge) == links + [edge]
    ensures k < |links| && IsAstEdge(links[k], edge["source"], edge["target"], edge["relation"])
            && (forall j :: 0 <= j < k ==> !IsAstEdge(links[j], edge["source"], edge["target"], edge["relation"]))
            ==> UpsertLink(links, edge) == links[k := links[k] + edge]
  {
    FirstWithKeyExactly(links, edge["source"], edge["target"], edge["relation"], k);
    NoneWithKey(links, edge["source"], edge["target"], edge["relation"]);
  }

  // ----- how the lookups react to one change -----

  lemma {:induction false} LastAfterAppend(nodes: seq<Fields>, node: Fields, id: string)
    ensures LastWithId(nodes + [node], id) == if IdOf(node) == id then Some(|nodes|) else LastWithId(nodes, id)
  {
    assert (nodes + [node])[..|nodes|] == nodes;
  }

  lemma {:induction false} LastAfterReplace(nodes: seq<Fields>, k: nat, node: Fields, id: string)
    requires k < |nodes| && IdOf(node) == IdOf(nodes[k])
    ensures LastWithId(nodes[k := node], id) == LastWithId(nodes, id)
  {
    var front := nodes[..|nodes| - 1];
    if k < |nodes| - 1 {
      assert nodes[k := node][..|nodes| - 1] == front[k := node];
      LastAfterReplace(front, k, node, id);
    } else {
      assert nodes[k := node][..|nodes| - 1] == front;
    }
  }

  lemma {:induction false} FirstAfterAppend(links: seq<Fields>, link: Fields, key: LinkKey)
    ensures FirstWithKey(links + [link], key)
              == if FirstWithKey(links, key).None? && IsAstLink(link, key) then Some(|links|) else FirstWithKey(links, key)
  {
    assert (links + [link])[..|links|] == links;
  }

  lemma {:induction false} FirstAfterReplace(links: seq<Fields>, k: nat, link: Fields, key: LinkKey)
    requires k < |links| && IsAstLink(links[k], key) == IsAstLink(link, key)
    ensures FirstWithKey(links[k := link], key) == FirstWithKey(links, key)
  {
    var front := links[..|links| - 1];
    if k < |links| - 1 {
      assert links[k := link][..|links| - 1] == front[k := link];
      FirstAfterReplace(front, k, link, key);
    } else {
      assert links[k := link][..|links| - 1] == front;
    }
  }

  lemma LastAfterUpsert(nodes: seq<Fields>, node: Fields, id: string)
    ensures LastWithId(UpsertNode(nodes, node), id)
              == if LastWithId(nodes, id).None? && IdOf(node) == id then Some(|nodes|) else LastWithId(nodes, id)
    ensures LastWithId(nodes, IdOf(node)).None? ==> UpsertNode(nodes, node) == nodes + [node]
  {
    match LastWithId(nodes, IdOf(node)) {
      case None => LastAfterAppend(nodes, node, id);
      case Some(k) => LastAfterReplace(nodes, k, node, id);
    }
  }

  lemma UpdatedLinkKeepsKey(link: Fields, edge: Fields, key: LinkKey)
    requires HasKey(edge) && IsAst(edge) && IsAstLink(link, KeyOf(edge))
    ensures IsAstLink(link + edge, key) == IsAstLink(link, key)
  {
  }

  lemma FirstAfterUpsert(links: seq<Fields>, edge: Fields, key: LinkKey)
    requires HasKey(edge) && IsAst(edge)
    ensures FirstWithKey(UpsertLink(links, edge), key)
              == if FirstWithKey(links, key).None? && KeyOf(edge) == key then Some(|links|) else FirstWithKey(links, key)
  {
    match FirstWithKey(links, KeyOf(edge)) {
      case None => FirstAfterAppend(links, edge, key);
      case Some(k) =>
        UpdatedLinkKeepsKey(links[k], edge, key);
        FirstAfterReplace(links, k, links[k] + edge, key);
    }
  }

  // ----- merging is a homomorphism over batches -----

  lemma MergeNodesSnoc(nodes: seq<Fields>, batch: seq<Fields>, node: Fields)
    ensures MergeNodes(nodes, batch + [node]) == UpsertNode(MergeNodes(nodes, batch), node)
  {
    assert (batch + [node])[..|batch|] == batch;
  }

  lemma MergeLinksSnoc(links: seq<Fields>, batch: seq<Fields>, edge: Fields)
    requires AstEdges(batch) && HasKey(edge) && IsAst(edge)
    ensures AstEdges(batch + [edge])
    ensures MergeLinks(links, batch + [edge]) == UpsertLink(MergeLinks(links, batch), edge)
  {
    assert (batch + [edge])[..|batch|] == batch;
  }

  /** Merging two batches one after the other is merging their concatenation. */
  lemma {:induction false} MergingNodesIsAHomomorphism(nodes: seq<Fields>, a: seq<Fields>, b: seq<Fields>)
    ensures MergeNodes(MergeNodes(nodes, a), b) == MergeNodes(nodes, a + b)
  {
    if b == [] {
      assert a + b == a;
    } else {
      var front, last := b[..|b| - 1], b[|b| - 1];
      calc {
        MergeNodes(MergeNodes(nodes, a), b);
        UpsertNode(MergeNodes(MergeNodes(nodes, a), front), last);
        { MergingNodesIsAHomomorphism(nodes, a, front); }
        UpsertNode(MergeNodes(nodes, a + front), last);
        { MergeNodesSnoc(nodes, a + front, last); }
        MergeNodes(nodes, (a + front) + [last]);
        { assert a + b == (a + front) + [last]; }
        MergeNodes(nodes, a + b);
      }
    }
  }

  lemma {:induction false} MergingLinksIsAHomomorphism(links: seq<Fields>, a: seq<Fields>, b: seq<Fields>)
    requires AstEdges(a) && AstEdges(b)
    ensures AstEdges(a + b) && MergeLinks(MergeLinks(links, a), b) == MergeLinks(links, a + b)
  {
    if b == [] {
      assert a + b == a;
    } else {
      var front, last := b[..|b| - 1], b[|b| - 1];
      assert last in b;
      calc {
        MergeLinks(MergeLinks(links, a), b);
        UpsertLink(MergeLinks(MergeLinks(links, a), front), last);
        { MergingLinksIsAHomomorphism(links, a, front); }
        UpsertLink(MergeLinks(links, a + front), last);
        { MergeLinksSnoc(links, a + front, last); }
        MergeLinks(links, (a + front) + [last]);
        { assert a + b == (a + front) + [last]; }
        MergeLinks(links, a + b);
      }
    }
  }

  // ----- what happens to one node or link -----

  /** The node that ends up in a slot after a sequence of nodes with its id. */
  function Settle(node: Fields, batch: seq<Fields>, id: string): Fields {
    if batch == [] then node
    else
      var before := Settle(node, batch[..|batch| - 1], id);
      if IdOf(batch[|batch| - 1]) == id && IsAst(before) then batch[|batch| - 1] else before
  }

  function MergedAt(nodes: seq<Fields>, batch: seq<Fields>, k: nat): Fields
    requires k < |nodes|
  {
    if LastWithId(nodes, IdOf(nodes[k])) == Some(k) then Settle(nodes[k], batch, IdOf(nodes[k])) else nodes[k]
  }

  lemma {:induction false} SettleKeepsId(node: Fields, batch: seq<Fields>)
    ensures IdOf(Settle(node, batch, IdOf(node))) == IdOf(node)
  {
    if batch != [] {
      SettleKeepsId(node, batch[..|batch| - 1]);
    }
  }

  /** The ids of the merged nodes are those of both sides, and existing slots stay put. */
  lemma {:induction false} MergedIds(nodes: seq<Fields>, batch: seq<Fields>)
    ensures |nodes| <= |MergeNodes(nodes, batch)|
    ensures forall id :: LastWithId(nodes, id).Some? ==> LastWithId(MergeNodes(nodes, batch), id) == LastWithId(nodes, id)
    ensures forall n :: n in batch ==> LastWithId(MergeNodes(nodes, batch), IdOf(n)).Some?
  {
    if batch != [] {
      var front, node := batch[..|batch| - 1], batch[|batch| - 1];
      assert batch == front + [node];
      MergedIds(nodes, front);
      var merged := MergeNodes(nodes, front);
      forall id ensures LastWithId(UpsertNode(merged, node), id)
                          == if LastWithId(merged, id).None? && IdOf(node) == id then Some(|merged|) else LastWithId(merged, id) {
        LastAfterUpsert(merged, node, id);
      }
    }
  }

  lemma {:induction false} NothingNewAppended(nodes: seq<Fields>, batch: seq<Fields>)
    requires forall n :: n in batch ==> LastWithId(nodes, IdOf(n)).Some?
    ensures |MergeNodes(nodes, batch)| == |nodes|
  {
    if batch != [] {
      var front, node := batch[..|batch| - 1], batch[|batch| - 1];
      assert batch == front + [node];
      NothingNewAppended(nodes, front);
      MergedIds(nodes, front);
    }
  }

  /** Every existing node keeps its position; it is replaced only in the slot its
      id points to, by what the batch's nodes of that id leave there. */
  lemma MergedNodes(nodes: seq<Fields>, batch: seq<Fields>)
    ensures |nodes| <= |MergeNodes(nodes, batch)|
    ensures forall k :: 0 <= k < |nodes| ==> MergeNodes(nodes, batch)[k] == MergedAt(nodes, batch, k)
  {
    MergedIds(nodes, batch);
    forall k | 0 <= k < |nodes| ensures MergeNodes(nodes, batch)[k] == MergedAt(nodes, batch, k) {
      MergedNode(nodes, batch, k);
    }
  }

  lemma {:induction false} MergedNode(nodes: seq<Fields>, batch: seq<Fields>, k: nat)
    requires k < |nodes|
    ensures |nodes| <= |MergeNodes(nodes, batch)|
    ensures MergeNodes(nodes, batch)[k] == MergedAt(nodes, batch, k)
    decreases |batch|
  {
    if batch != [] {
      var front, node := batch[..|batch| - 1], batch[|batch| - 1];
      MergedNode(nodes, front, k);
      MergedStep(nodes, front, node, k);
      var whole := front + [node];
      MergeNodesSnoc(nodes, front, node);
      assert MergeNodes(nodes, whole)[k] == MergedAt(nodes, whole, k);
      assert batch == whole;
    }
  }

  lemma MergedStep(nodes: seq<Fields>, front: seq<Fields>, node: Fields, k: nat)
    requires k < |nodes| <= |MergeNodes(nodes, front)|
    requires MergeNodes(nodes, front)[k] == MergedAt(nodes, front, k)
    ensures |nodes| <= |UpsertNode(MergeNodes(nodes, front), node)|
    ensures UpsertNode(MergeNodes(nodes, front), node)[k] == MergedAt(nodes, front + [node], k)
  {
    var id := IdOf(nodes[k]);
    MergedIds(nodes, front);
    SettleKeepsId(nodes[k], front);
    SettleSnoc(nodes[k], front, node, id);
    LastExists(nodes, k);
    assert LastWithId(MergeNodes(nodes, front), id) == LastWithId(nodes, id);
  }

  lemma {:induction false} LastExists(nodes: seq<Fields>, k: nat)
    requires k < |nodes|
    ensures LastWithId(nodes, IdOf(nodes[k])).Some?
  {
    if k < |nodes| - 1 {
      LastExists(nodes[..|nodes| - 1], k);
    }
  }

  /** Nodes that did not come from the AST are never touched. */
  lemma {:induction false} ForeignNodeSettles(node: Fields, batch: seq<Fields>, id: string)
    requires !IsAst(node)
    ensures Settle(node, batch, id) == node
  {
    if batch != [] {
      ForeignNodeSettles(node, batch[..|batch| - 1], id);
    }
  }

  lemma ForeignNodesStay(nodes: seq<Fields>, batch: seq<Fields>)
    ensures |nodes| <= |MergeNodes(nodes, batch)|
    ensures forall k :: 0 <= k < |nodes| && !IsAst(nodes[k]) ==> MergeNodes(nodes, batch)[k] == nodes[k]
  {
    MergedNodes(nodes, batch);
    forall k | 0 <= k < |nodes| && !IsAst(nodes[k]) ensures MergedAt(nodes, batch, k) == nodes[k] {
      ForeignNodeSettles(nodes[k], batch, IdOf(nodes[k]));
    }
  }

  /** The last new node of an id wins in an AST slot, when the batch is all AST. */
  lemma {:induction false} LastNodeWins(node: Fields, batch: seq<Fields>, id: string)
    requires IsAst(node) && forall n :: n in batch ==> IsAst(n)
    ensures Settle(node, batch, id)
              == match LastWithId(batch, id) case None => node case Some(j) => batch[j]
  {
    if batch != [] {
      var front := batch[..|batch| - 1];
      assert batch[|batch| - 1] in batch;
      assert forall n :: n in front ==> n in batch;
      LastNodeWins(node, front, id);
      assert match LastWithId(front, id) case None => true case Some(j) => front[j] in batch;
    }
  }

  // ----- merging twice is merging once -----

  /** The node in a slot stays what it is when the batch comes again. */
  ghost predicate Absorbs(nodes: seq<Fields>, batch: seq<Fields>) {
    forall k :: 0 <= k < |nodes| ==> MergedAt(nodes, batch, k) == nodes[k]
  }

  /** A slot that ends as it began with an AST node has only seen AST nodes. */
  lemma {:induction false} SettledAst(node: Fields, other: Fields, batch: seq<Fields>, id: string)
    requires IsAst(node) && IsAst(other) && IsAst(Settle(node, batch, id))
    ensures IsAst(Settle(other, batch, id))
  {
    if batch != [] {
      var front, last := batch[..|batch| - 1], batch[|batch| - 1];
      SettledAst(node, other, front, id);
    }
  }

  lemma {:induction false} UnmentionedSettles(node: Fields, batch: seq<Fields>, id: string)
    requires forall n :: n in batch ==> IdOf(n) != id
    ensures Settle(node, batch, id) == node
  {
    if batch != [] {
      assert batch[|batch| - 1] in batch;
      assert forall n :: n in batch[..|batch| - 1] ==> n in batch;
      UnmentionedSettles(node, batch[..|batch| - 1], id);
    }
  }

  lemma SettleSnoc(node: Fields, batch: seq<Fields>, last: Fields, id: string)
    ensures Settle(node, batch + [last], id)
              == if IdOf(last) == id && IsAst(Settle(node, batch, id)) then last else Settle(node, batch, id)
  {
    assert (batch + [last])[..|batch|] == batch;
  }

  /** One slot of a graph that absorbs a batch and then takes one more node. */
  lemma SlotAbsorbsOneMore(nodes: seq<Fields>, batch: seq<Fields>, node: Fields, k: nat)
    requires Absorbs(nodes, batch) && k < |UpsertNode(nodes, node)|
    requires forall n :: n in batch ==> LastWithId(nodes, IdOf(n)).Some?
    ensures MergedAt(UpsertNode(nodes, node), batch + [node], k) == UpsertNode(nodes, node)[k]
  {
    var after := UpsertNode(nodes, node);
    var x := after[k];
    var id := IdOf(x);
    LastAfterUpsert(nodes, node, id);
    SettleSnoc(x, batch, node, id);
    if LastWithId(after, id) == Some(k) {
      if k == |nodes| {
        UnmentionedSettles(x, batch, id);
      } else if IdOf(node) == id {
        assert MergedAt(nodes, batch, k) == nodes[k];
        if IsAst(nodes[k]) {
          if IsAst(node) {
            SettledAst(nodes[k], node, batch, id);
          } else {
            ForeignNodeSettles(node, batch, id);
          }
        }
      } else {
        assert MergedAt(nodes, batch, k) == nodes[k];
      }
    }
  }

  lemma {:induction false} MergeAbsorbs(nodes: seq<Fields>, batch: seq<Fields>)
    ensures Absorbs(MergeNodes(nodes, batch), batch)
  {
    if batch != [] {
      var front, node := batch[..|batch| - 1], batch[|batch| - 1];
      var whole := front + [node];
      assert batch == whole;
      MergeAbsorbs(nodes, front);
      MergedIds(nodes, front);
      MergeNodesSnoc(nodes, front, node);
      AbsorbsOneMore(MergeNodes(nodes, front), front, node);
    }
  }

  lemma AbsorbsOneMore(nodes: seq<Fields>, batch: seq<Fields>, node: Fields)
    requires Absorbs(nodes, batch) && forall n :: n in batch ==> LastWithId(nodes, IdOf(n)).Some?
    ensures Absorbs(UpsertNode(nodes, node), batch + [node])
  {
    var after := UpsertNode(nodes, node);
    forall k | 0 <= k < |after| ensures MergedAt(after, batch + [node], k) == after[k] {
      SlotAbsorbsOneMore(nodes, batch, node, k);
    }
  }

  /** Merging the same nodes a second time changes nothing. */
  lemma MergingNodesTwiceIsMergingOnce(nodes: seq<Fields>, batch: seq<Fields>)
    ensures MergeNodes(MergeNodes(nodes, batch), batch) == MergeNodes(nodes, batch)
  {
    var merged := MergeNodes(nodes, batch);
    MergeAbsorbs(nodes, batch);
    MergedIds(nodes, batch);
    NothingNewAppended(merged, batch);
    MergedNodes(merged, batch);
    forall k | 0 <= k < |merged| ensures MergeNodes(merged, batch)[k] == merged[k] {
      assert MergedAt(merged, batch, k) == merged[k];
    }
  }

  // ----- what happens to one link -----

  /** The fields of a link after the batch's edges of its key were applied in order. */
  function Overlay(link: Fields, batch: seq<Fields>, key: LinkKey): Fields
    requires AstEdges(batch)
  {
    if batch == [] then link
    else
      var edge := batch[|batch| - 1];
      assert edge in batch;
      var before := Overlay(link, batch[..|batch| - 1], key);
      if KeyOf(edge) == key then before + edge else before
  }

  lemma OverlaySnoc(link: Fields, batch: seq<Fields>, edge: Fields, key: LinkKey)
    requires AstEdges(batch) && HasKey(edge) && IsAst(edge)
    ensures AstEdges(batch + [edge])
    ensures Overlay(link, batch + [edge], key)
              == if KeyOf(edge) == key then Overlay(link, batch, key) + edge else Overlay(link, batch, key)
  {
    assert (batch + [edge])[..|batch|] == batch;
  }

  /** The value the batch's edges of a key leave for one field. */
  function LastValue(batch: seq<Fields>, key: LinkKey, field: string): Option<string>
    requires AstEdges(batch)
  {
    if batch == [] then None
    else
      var edge := batch[|batch| - 1];
      assert edge in batch;
      if KeyOf(edge) == key && field in edge then Some(edge[field])
      else LastValue(batch[..|batch| - 1], key, field)
  }

  /** Fields are overridden one by one: the last edge of the key that has the
      field decides it, and a field no such edge has is kept. */
  lemma {:induction false} FieldsAreOverridden(link: Fields, batch: seq<Fields>, key: LinkKey, field: string)
    requires AstEdges(batch)
    ensures var merged := Overlay(link, batch, key);
            match LastValue(batch, key, field)
            case Some(v) => field in merged && merged[field] == v
            case None => (field in merged <==> field in link) && (field in link ==> merged[field] == link[field])
  {
    if batch != [] {
      FieldsAreOverridden(link, batch[..|batch| - 1], key, field);
    }
  }

  lemma {:induction false} OverlayKeepsKey(link: Fields, batch: seq<Fields>, key: LinkKey)
    requires AstEdges(batch) && IsAstLink(link, key)
    ensures IsAstLink(Overlay(link, batch, key), key)
  {
    if batch != [] {
      assert batch[|batch| - 1] in batch;
      OverlayKeepsKey(link, batch[..|batch| - 1], key);
    }
  }

  predicate IsSlot(links: seq<Fields>, k: nat)
    requires k < |links|
  {
    IsAst(links[k]) && HasKey(links[k]) && FirstWithKey(links, KeyOf(links[k])) == Some(k)
  }

  function LinkMergedAt(links: seq<Fields>, batch: seq<Fields>, k: nat): Fields
    requires k < |links| && AstEdges(batch)
  {
    if IsSlot(links, k) then Overlay(links[k], batch, KeyOf(links[k])) else links[k]
  }

  lemma {:induction false} MergedKeys(links: seq<Fields>, batch: seq<Fields>)
    requires AstEdges(batch)
    ensures |links| <= |MergeLinks(links, batch)|
    ensures forall key :: FirstWithKey(links, key).Some? ==> FirstWithKey(MergeLinks(links, batch), key) == FirstWithKey(links, key)
    ensures forall e :: e in batch ==> FirstWithKey(MergeLinks(links, batch), KeyOf(e)).Some?
  {
    if batch != [] {
      var front, edge := batch[..|batch| - 1], batch[|batch| - 1];
      assert batch == front + [edge] && edge in batch;
      MergedKeys(links, front);
      var merged := MergeLinks(links, front);
      forall key ensures FirstWithKey(UpsertLink(merged, edge), key)
                           == if FirstWithKey(merged, key).None? && KeyOf(edge) == key then Some(|merged|) else FirstWithKey(merged, key) {
        FirstAfterUpsert(merged, edge, key);
      }
    }
  }

  lemma {:induction false} NoNewLinks(links: seq<Fields>, batch: seq<Fields>)
    requires AstEdges(batch) && forall e :: e in batch ==> FirstWithKey(links, KeyOf(e)).Some?
    ensures |MergeLinks(links, batch)| == |links|
  {
    if batch != [] {
      var front, edge := batch[..|batch| - 1], batch[|batch| - 1];
      assert batch == front + [edge] && edge in batch;
      NoNewLinks(links, front);
      MergedKeys(links, front);
    }
  }

  lemma MergedLinkStep(links: seq<Fields>, front: seq<Fields>, edge: Fields, k: nat)
    requires AstEdges(front) && HasKey(edge) && IsAst(edge) && k < |links| <= |MergeLinks(links, front)|
    requires MergeLinks(links, front)[k] == LinkMergedAt(links, front, k)
    ensures AstEdges(front + [edge]) && |links| <= |UpsertLink(MergeLinks(links, front), edge)|
    ensures UpsertLink(MergeLinks(links, front), edge)[k] == LinkMergedAt(links, front + [edge], k)
  {
    var merged := MergeLinks(links, front);
    var edgeKey := KeyOf(edge);
    MergedKeys(links, front);
    if IsSlot(links, k) {
      var key := KeyOf(links[k]);
      OverlaySnoc(links[k], front, edge, key);
      assert FirstWithKey(merged, key) == Some(k);
      if edgeKey != key {
        OverlayKeepsKey(links[k], front, key);
      }
    } else {
      assert FirstWithKey(merged, edgeKey) == Some(k) ==> IsAstLink(links[k], edgeKey);
      FirstExists(links, k);
    }
  }

  lemma {:induction false} FirstExists(links: seq<Fields>, k: nat)
    requires k < |links|
    ensures IsAst(links[k]) && HasKey(links[k]) ==> FirstWithKey(links, KeyOf(links[k])).Some?
  {
    if k < |links| - 1 {
      FirstExists(links[..|links| - 1], k);
    }
  }

  /** Every existing link keeps its position; only the first AST link of a key is
      updated, and other links keep their content. */
  lemma {:induction false} MergedLinks(links: seq<Fields>, batch: seq<Fields>)
    requires AstEdges(batch)
    ensures |links| <= |MergeLinks(links, batch)|
    ensures forall k :: 0 <= k < |links| ==> MergeLinks(links, batch)[k] == LinkMergedAt(links, batch, k)
  {
    MergedKeys(links, batch);
    if batch != [] {
      var front, edge := batch[..|batch| - 1], batch[|batch| - 1];
      assert edge in batch;
      MergedLinks(links, front);
      MergedKeys(links, front);
      forall k | 0 <= k < |links| ensures MergeLinks(links, batch)[k] == LinkMergedAt(links, batch, k) {
        MergedLinkStep(links, front, edge, k);
        assert batch == front + [edge];
      }
    }
  }

  // ----- merging the same links twice -----

  ghost predicate AbsorbsLinks(links: seq<Fields>, batch: seq<Fields>)
    requires AstEdges(batch)
  {
    forall k :: 0 <= k < |links| ==> LinkMergedAt(links, batch, k) == links[k]
  }

  lemma {:induction false} OverlayIsUnion(link: Fields, batch: seq<Fields>, key: LinkKey)
    requires AstEdges(batch)
    ensures Overlay(link, batch, key) == link + Overlay(map[], batch, key)
  {
    if batch != [] {
      OverlayIsUnion(link, batch[..|batch| - 1], key);
    }
  }

  lemma OverlayAgain(link: Fields, batch: seq<Fields>, edge: Fields, key: LinkKey)
    requires AstEdges(batch) && HasKey(edge) && IsAst(edge) && KeyOf(edge) == key
    requires Overlay(link, batch, key) == link
    ensures AstEdges(batch + [edge]) && Overlay(link + edge, batch + [edge], key) == link + edge
  {
    OverlaySnoc(link + edge, batch, edge, key);
    OverlayIsUnion(link, batch, key);
    OverlayIsUnion(link + edge, batch, key);
    var union := Overlay(map[], batch, key);
    assert link + union == link;
    assert forall f :: f in union ==> f in link + union && (link + union)[f] == union[f];
    assert ((link + edge) + union) + edge == link + edge;
  }

  lemma {:induction false} UnmentionedOverlay(link: Fields, batch: seq<Fields>, key: LinkKey)
    requires AstEdges(batch) && forall e :: e in batch ==> KeyOf(e) != key
    ensures Overlay(link, batch, key) == link
  {
    if batch != [] {
      assert batch[|batch| - 1] in batch;
      assert forall e :: e in batch[..|batch| - 1] ==> e in batch;
      UnmentionedOverlay(link, batch[..|batch| - 1], key);
    }
  }

  lemma LinkSlotAbsorbsOneMore(links: seq<Fields>, batch: seq<Fields>, edge: Fields, k: nat)
    requires AstEdges(batch) && HasKey(edge) && IsAst(edge)
    requires AbsorbsLinks(links, batch) && k < |UpsertLink(links, edge)|
    requires forall e :: e in batch ==> FirstWithKey(links, KeyOf(e)).Some?
    ensures AstEdges(batch + [edge])
    ensures LinkMergedAt(UpsertLink(links, edge), batch + [edge], k) == UpsertLink(links, edge)[k]
  {
    var after := UpsertLink(links, edge);
    if IsSlot(after, k) {
      var key := KeyOf(after[k]);
      FirstAfterUpsert(links, edge, key);
      OverlaySnoc(after[k], batch, edge, key);
      if k == |links| {
        UnmentionedOverlay(edge, batch, key);
        assert edge + edge == edge;
      } else {
        var edgeKey := KeyOf(edge);
        assert FirstWithKey(links, key) == Some(k);
        assert LinkMergedAt(links, batch, k) == links[k];
        if edgeKey == key {
          OverlayAgain(links[k], batch, edge, key);
        }
      }
    }
  }

  lemma {:induction false} MergeAbsorbsLinks(links: seq<Fields>, batch: seq<Fields>)
    requires AstEdges(batch)
    ensures AbsorbsLinks(MergeLinks(links, batch), batch)
  {
    var merged := MergeLinks(links, batch);
    if batch != [] {
      var front, edge := batch[..|batch| - 1], batch[|batch| - 1];
      assert batch == front + [edge] && edge in batch;
      MergeAbsorbsLinks(links, front);
      MergedKeys(links, front);
      forall k | 0 <= k < |merged| ensures LinkMergedAt(merged, batch, k) == merged[k] {
        LinkSlotAbsorbsOneMore(MergeLinks(links, front), front, edge, k);
      }
    }
  }

  /** Merging the same edges a second time changes nothing. */
  lemma MergingLinksTwiceIsMergingOnce(links: seq<Fields>, batch: seq<Fields>)
    requires AstEdges(batch)
    ensures MergeLinks(MergeLinks(links, batch), batch) == MergeLinks(links, batch)
  {
    var merged := MergeLinks(links, batch);
    MergeAbsorbsLinks(links, batch);
    MergedKeys(links, batch);
    NoNewLinks(merged, batch);
    MergedLinks(merged, batch);
    forall k | 0 <= k < |merged| ensures MergeLinks(merged, batch)[k] == merged[k] {
      assert LinkMergedAt(merged, batch, k) == merged[k];
    }
  }

  // ----- every slot of the merged graph, old or new -----

  /** The node an id stands for. */
  function NodeAt(nodes: seq<Fields>, id: string): Option<Fields> {
    match LastWithId(nodes, id)
    case None => None
    case Some(k) => Some(nodes[k])
  }

  lemma NodeAfterUpsert(nodes: seq<Fields>, node: Fields, id: string)
    ensures NodeAt(UpsertNode(nodes, node), id)
      == if IdOf(node) == id && (NodeAt(nodes, id).None? || IsAst(NodeAt(nodes, id).value)) then Some(node)
         else NodeAt(nodes, id)
  {
    LastAfterUpsert(nodes, node, id);
  }

  lemma NodeAfterAppend(nodes: seq<Fields>, node: Fields, id: string)
    ensures NodeAt(nodes + [node], id) == if IdOf(node) == id then Some(node) else NodeAt(nodes, id)
  {
    LastAfterAppend(nodes, node, id);
  }

  ghost predicate AllAst(batch: seq<Fields>) {
    forall n :: n in batch ==> IsAst(n)
  }

  lemma NewNodeIsAst(batch: seq<Fields>, id: string)
    requires AllAst(batch)
    ensures NodeAt(batch, id).Some? ==> IsAst(NodeAt(batch, id).value)
  {
  }

  /** What stands under an id after a batch: the last new node, unless the graph has a
      node from elsewhere there or the batch has none. */
  function Standing(before: Option<Fields>, after: Option<Fields>): Option<Fields> {
    if after.None? || (before.Some? && !IsAst(before.value)) then before else after
  }

  lemma StandsAfterOneMore(nodes: seq<Fields>, front: seq<Fields>, node: Fields, id: string)
    requires IsAst(node) && (NodeAt(front, id).Some? ==> IsAst(NodeAt(front, id).value))
    requires NodeAt(MergeNodes(nodes, front), id) == Standing(NodeAt(nodes, id), NodeAt(front, id))
    ensures NodeAt(UpsertNode(MergeNodes(nodes, front), node), id)
      == Standing(NodeAt(nodes, id), NodeAt(front + [node], id))
  {
    NodeAfterUpsert(MergeNodes(nodes, front), node, id);
    NodeAfterAppend(front, node, id);
  }

  /** The last new node wins under every id, whether the graph had it or not: only an
      existing node from elsewhere is kept, and an id occurs exactly when one of the
      two sides has it. */
  lemma {:induction false} LastNewNodeStands(nodes: seq<Fields>, batch: seq<Fields>, id: string)
    requires AllAst(batch)
    ensures NodeAt(MergeNodes(nodes, batch), id) == Standing(NodeAt(nodes, id), NodeAt(batch, id))
  {
    if batch != [] {
      var front, node := batch[..|batch| - 1], batch[|batch| - 1];
      var whole := front + [node];
      assert batch == whole;
      assert node in batch && AllAst(front);
      LastNewNodeStands(nodes, front, id);
      NewNodeIsAst(front, id);
      StandsAfterOneMore(nodes, front, node, id);
      MergeNodesSnoc(nodes, front, node);
    }
  }

  /** A node added behind the existing ones is the one its id stands for, and its id
      is new. */
  lemma {:induction false} AddedNodesAreNew(nodes: seq<Fields>, batch: seq<Fields>, k: nat)
    requires |nodes| <= k < |MergeNodes(nodes, batch)|
    ensures var merged := MergeNodes(nodes, batch);
      LastWithId(merged, IdOf(merged[k])) == Some(k) && LastWithId(nodes, IdOf(merged[k])).None?
    decreases |batch|
  {
    if batch != [] {
      var front, node := batch[..|batch| - 1], batch[|batch| - 1];
      var before := MergeNodes(nodes, front);
      MergedIds(nodes, front);
      if k < |before| {
        AddedNodesAreNew(nodes, front, k);
        LastAfterUpsert(before, node, IdOf(before[k]));
      } else {
        LastAfterUpsert(before, node, IdOf(node));
      }
    }
  }

  /** The AST link a key stands for. */
  function LinkAt(links: seq<Fields>, key: LinkKey): Option<Fields> {
    match FirstWithKey(links, key)
    case None => None
    case Some(k) => Some(links[k])
  }

  predicate Mentions(batch: seq<Fields>, key: LinkKey) {
    exists e :: e in batch && HasKey(e) && KeyOf(e) == key
  }

  lemma LinkAfterUpsert(links: seq<Fields>, edge: Fields, key: LinkKey)
    requires HasKey(edge) && IsAst(edge)
    ensures LinkAt(UpsertLink(links, edge), key)
      == if KeyOf(edge) != key then LinkAt(links, key)
         else if LinkAt(links, key).None? then Some(edge) else Some(LinkAt(links, key).value + edge)
  {
    FirstAfterUpsert(links, edge, key);
  }

  /** Under every key stands the overlay of all the batch's edges of that key, on the
      link the graph had or, for a new key, on nothing; a key occurs exactly when one
      of the two sides has it. */
  lemma {:induction false} LinksAreOverlaid(links: seq<Fields>, batch: seq<Fields>, key: LinkKey)
    requires AstEdges(batch)
    ensures LinkAt(MergeLinks(links, batch), key)
      == if LinkAt(links, key).Some? then Some(Overlay(LinkAt(links, key).value, batch, key))
         else if Mentions(batch, key) then Some(Overlay(map[], batch, key)) else None
  {
    if batch != [] {
      var front, edge := batch[..|batch| - 1], batch[|batch| - 1];
      assert batch == front + [edge] && edge in batch;
      LinksAreOverlaid(links, front, key);
      LinkAfterUpsert(MergeLinks(links, front), edge, key);
      assert Mentions(batch, key) <==> Mentions(front, key) || KeyOf(edge) == key;
      if !Mentions(front, key) {
        UnmentionedOverlay(map[], front, key);
        assert map[] + edge == edge;
      }
    }
  }

  /** A link added behind the existing ones is the one its key stands for, and its key
      is new. */
  lemma {:induction false} AddedLinksAreNew(links: seq<Fields>, batch: seq<Fields>, k: nat)
    requires AstEdges(batch) && |links| <= k < |MergeLinks(links, batch)|
    ensures var merged := MergeLinks(links, batch);
      && IsAst(merged[k]) && HasKey(merged[k])
      && FirstWithKey(merged, KeyOf(merged[k])) == Some(k) && FirstWithKey(links, KeyOf(merged[k])).None?
    decreases |batch|
  {
    if batch != [] {
      var front, edge := batch[..|batch| - 1], batch[|batch| - 1];
      assert edge in batch;
      var before := MergeLinks(links, front);
      MergedKeys(links, front);
      if k < |before| {
        AddedLinksAreNew(links, front, k);
        FirstAfterUpsert(before, edge, KeyOf(before[k]));
        if FirstWithKey(before, KeyOf(edge)) == Some(k) {
          UpdatedLinkKeepsKey(before[k], edge, KeyOf(before[k]));
        }
      } else {
        FirstAfterUpsert(before, edge, KeyOf(edge));
      }
    }
  }

  lemma {:induction false} MergedLinksHaveKeys(links: seq<Fields>, batch: seq<Fields>)
    requires AstEdges(batch) && forall l :: l in links && IsAst(l) ==> HasKey(l)
    ensures forall l :: l in MergeLinks(links, batch) && IsAst(l) ==> HasKey(l)
  {
    if batch != [] {
      assert batch[|batch| - 1] in batch;
      MergedLinksHaveKeys(links, batch[..|batch| - 1]);
    }
  }

  // ----- uniqueness -----

  ghost predicate UniqueIds(nodes: seq<Fields>) {
    forall j, k :: 0 <= j < k < |nodes| ==> IdOf(nodes[j]) != IdOf(nodes[k])
  }

  ghost predicate UniqueAstKeys(links: seq<Fields>) {
    forall j, k :: 0 <= j < k < |links| && IsAst(links[k]) && HasKey(links[k]) ==> !IsAstLink(links[j], KeyOf(links[k]))
  }

  /** Unique node ids and unique AST link keys stay unique. */
  lemma {:induction false} MergingKeepsIdsUnique(nodes: seq<Fields>, batch: seq<Fields>)
    requires UniqueIds(nodes)
    ensures UniqueIds(MergeNodes(nodes, batch))
  {
    if batch != [] {
      MergingKeepsIdsUnique(nodes, batch[..|batch| - 1]);
      UpsertKeepsIdsUnique(MergeNodes(nodes, batch[..|batch| - 1]), batch[|batch| - 1]);
    }
  }

  lemma UpsertKeepsIdsUnique(nodes: seq<Fields>, node: Fields)
    requires UniqueIds(nodes)
    ensures UniqueIds(UpsertNode(nodes, node))
  {
    if LastWithId(nodes, IdOf(node)).None? {
      forall k | 0 <= k < |nodes| ensures IdOf(nodes[k]) != IdOf(node) {
        LastExists(nodes, k);
      }
    }
  }

  lemma {:induction false} MergingKeepsKeysUnique(links: seq<Fields>, batch: seq<Fields>)
    requires AstEdges(batch) && UniqueAstKeys(links)
    ensures UniqueAstKeys(MergeLinks(links, batch))
  {
    if batch != [] {
      var merged, edge := MergeLinks(links, batch[..|batch| - 1]), batch[|batch| - 1];
      assert edge in batch;
      MergingKeepsKeysUnique(links, batch[..|batch| - 1]);
      forall k | 0 <= k < |merged| ensures IsAst(merged[k]) && HasKey(merged[k]) ==> FirstWithKey(merged, KeyOf(merged[k])).Some? {
        FirstExists(merged, k);
      }
      match FirstWithKey(merged, KeyOf(edge)) {
        case None =>
        case Some(at) => assert KeyOf(merged[at] + edge) == KeyOf(edge);
      }
    }
  }

  // ----- the loops -----

  ghost predicate IndexAgrees(index: map<string, int>, nodes: seq<Fields>) {
    forall id :: match LastWithId(nodes, id) case None => id !in index case Some(k) => id in index && index[id] == k
  }

  ghost predicate KeysAgree(keys: set<LinkKey>, links: seq<Fields>) {
    forall key :: key in keys <==> FirstWithKey(links, key).Some?
  }

  lemma IndexAfterAppend(index: map<string, int>, nodes: seq<Fields>, node: Fields)
    requires IndexAgrees(index, nodes)
    ensures IndexAgrees(index[IdOf(node) := |nodes|], nodes + [node])
  {
    forall id ensures LastWithId(nodes + [node], id) == if IdOf(node) == id then Some(|nodes|) else LastWithId(nodes, id) {
      LastAfterAppend(nodes, node, id);
    }
  }

  lemma IndexAfterReplace(index: map<string, int>, nodes: seq<Fields>, k: nat, node: Fields)
    requires IndexAgrees(index, nodes) && k < |nodes| && IdOf(node) == IdOf(nodes[k])
    ensures IndexAgrees(index, nodes[k := node])
  {
    forall id ensures LastWithId(nodes[k := node], id) == LastWithId(nodes, id) {
      LastAfterReplace(nodes, k, node, id);
    }
  }

  lemma KeysAfterUpsert(keys: set<LinkKey>, links: seq<Fields>, edge: Fields)
    requires KeysAgree(keys, links) && HasKey(edge) && IsAst(edge)
    ensures KeysAgree(keys + {KeyOf(edge)}, UpsertLink(links, edge))
  {
    forall key ensures FirstWithKey(UpsertLink(links, edge), key)
                         == if FirstWithKey(links, key).None? && KeyOf(edge) == key then Some(|links|) else FirstWithKey(links, key) {
      FirstAfterUpsert(links, edge, key);
    }
  }

  lemma MergeNodesPrefix(nodes: seq<Fields>, batch: seq<Fields>, j: nat)
    requires j < |batch|
    ensures MergeNodes(nodes, batch[..j + 1]) == UpsertNode(MergeNodes(nodes, batch[..j]), batch[j])
  {
    MergeNodesSnoc(nodes, batch[..j], batch[j]);
    assert batch[..j + 1] == batch[..j] + [batch[j]];
  }

  /** A graph file in memory: two lists changed in place. */
  class CodeGraph {
    var nodes: seq<Fields>
    var links: seq<Fields>

    constructor (nodes: seq<Fields>, links: seq<Fields>)
      ensures this.nodes == nodes && this.links == links
    {
      this.nodes, this.links := nodes, links;
    }

    method BuildIndex() returns (index: map<string, int>)
      ensures IndexAgrees(index, nodes)
    {
      index := map[];
      for i := 0 to |nodes|
        invariant IndexAgrees(index, nodes[..i])
      {
        IndexAfterAppend(index, nodes[..i], nodes[i]);
        assert nodes[..i + 1] == nodes[..i] + [nodes[i]];
        index := index[IdOf(nodes[i]) := i];
      }
      assert nodes[..|nodes|] == nodes;
    }

    /** One turn of the node loop: the index decides, and is kept up to date. */
    method UpsertIndexed(index: map<string, int>, node: Fields) returns (index': map<string, int>)
      requires "id" in node && IndexAgrees(index, nodes)
      modifies this`nodes
      ensures nodes == UpsertNode(old(nodes), node) && IndexAgrees(index', nodes)
    {
      index' := index;
      var id := node["id"];
      if id in index {
        var k := index[id];
        if IsAst(nodes[k]) {
          IndexAfterReplace(index, nodes, k, node);
          nodes := nodes[k := node];
        }
      } else {
        IndexAfterAppend(index, nodes, node);
        index' := index[id := |nodes|];
        nodes := nodes + [node];
      }
    }

    method MergeNodeBatch(batch: seq<Fields>)
      requires forall n :: n in batch ==> "id" in n
      modifies this`nodes
      ensures nodes == MergeNodes(old(nodes), batch)
    {
      var index: map<string, int> := BuildIndex();
      for j := 0 to |batch|
        invariant IndexAgrees(index, nodes)
        invariant nodes == MergeNodes(old(nodes), batch[..j])
      {
        MergeNodesPrefix(old(nodes), batch, j);
        index := UpsertIndexed(index, batch[j]);
      }
      assert batch[..|batch|] == batch;
    }

    /** The scan for the link to update, which stops at the first match. */
    method UpdateFirst(edge: Fields)
      requires HasKey(edge) && IsAst(edge) && FirstWithKey(links, KeyOf(edge)).Some?
      requires forall l :: l in links && IsAst(l) ==> HasKey(l)
      modifies this`links
      ensures links == UpsertLink(old(links), edge)
    {
      var k := 0;
      while k < |links| && !IsAstLink(links[k], KeyOf(edge))
        invariant 0 <= k <= |links| && links == old(links)
        invariant FirstWithKey(links[..k], KeyOf(edge)).None?
      {
        assert links[..k + 1] == links[..k] + [links[k]];
        FirstAfterAppend(links[..k], links[k], KeyOf(edge));
        k := k + 1;
      }
      assert links[..|links|] == links;
      assert k < |links|;
      FoundAtScan(links, k, KeyOf(edge));
      links := links[k := links[k] + edge];
    }

    method MergeLinkBatch(batch: seq<Fields>)
      requires forall l :: l in links && IsAst(l) ==> HasKey(l)
      requires AstEdges(batch)
      modifies this`links
      ensures links == MergeLinks(old(links), batch)
    {
      var keys: set<LinkKey> := {};
      for i := 0 to |links|
        invariant links == old(links)
        invariant KeysAgree(keys, links[..i])
      {
        var link := links[i];
        assert links[..i + 1] == links[..i] + [link] && link in links;
        forall key ensures FirstWithKey(links[..i] + [link], key)
                             == if FirstWithKey(links[..i], key).None? && IsAstLink(link, key) then Some(i) else FirstWithKey(links[..i], key) {
          FirstAfterAppend(links[..i], link, key);
        }
        if IsAst(link) {
          keys := keys + {KeyOf(link)};
        }
      }
      assert links[..|links|] == links;
      for j := 0 to |batch|
        invariant KeysAgree(keys, links)
        invariant links == MergeLinks(old(links), batch[..j])
        invariant forall l :: l in links && IsAst(l) ==> HasKey(l)
      {
        var edge := batch[j];
        assert edge in batch;
        MergeLinksSnoc(old(links), batch[..j], edge);
        assert batch[..j + 1] == batch[..j] + [edge];
        KeysAfterUpsert(keys, links, edge);
        var key := KeyOf(edge);
        if key in keys {
          UpdateFirst(edge);
          assert keys == keys + {key};
        } else {
          keys := keys + {key};
          links := links + [edge];
        }
      }
      assert batch[..|batch|] == batch;
    }

    /** Merges a batch of extracted nodes and edges into the graph.  AST links
        must carry their three key fields; the lookup by key fails otherwise. */
    method Merge(newNodes: seq<Fields>, newEdges: seq<Fields>)
      requires forall n :: n in newNodes ==> "id" in n
      requires forall l :: l in links && IsAst(l) ==> HasKey(l)
      requires AstEdges(newEdges)
      modifies this
      ensures nodes == MergeNodes(old(nodes), newNodes)
      ensures links == MergeLinks(old(links), newEdges)
    {
      MergeNodeBatch(newNodes);
      MergeLinkBatch(newEdges);
    }

    /** Two calls, each with an index and a key set of its own, leave what one call on
        the concatenated batches leaves. */
    method MergeInTurn(nodes1: seq<Fields>, edges1: seq<Fields>, nodes2: seq<Fields>, edges2: seq<Fields>)
      requires forall n :: n in nodes1 || n in nodes2 ==> "id" in n
      requires forall l :: l in links && IsAst(l) ==> HasKey(l)
      requires AstEdges(edges1) && AstEdges(edges2)
      modifies this
      ensures AstEdges(edges1 + edges2)
      ensures nodes == MergeNodes(old(nodes), nodes1 + nodes2)
      ensures links == MergeLinks(old(links), edges1 + edges2)
    {
      MergingNodesIsAHomomorphism(nodes, nodes1, nodes2);
      MergingLinksIsAHomomorphism(links, edges1, edges2);
      MergedLinksHaveKeys(links, edges1);
      Merge(nodes1, edges1);
      Merge(nodes2, edges2);
    }
  }

  lemma {:induction false} FoundAtScan(links: seq<Fields>, k: nat, key: LinkKey)
    requires k < |links| && FirstWithKey(links[..k], key).None? && IsAstLink(links[k], key)
    ensures FirstWithKey(links, key) == Some(k)
  {
    if k < |links| - 1 {
      var front := links[..|links| - 1];
      assert front[..k] == links[..k];
      FoundAtScan(front, k, key);
    }
  }
}
