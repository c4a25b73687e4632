/** The mind-map component as the object it is: its data sets, counter, selection and
    loading state are fields that its operations update in place, step by step, as
    ContentContainer.tsx does. Each operation is proved to end in exactly the state the
    matching function of module MapState (or ExpandMap, MergeContent, LoadMap) gives,
    so every property proved there holds of the object. */
module ContentContainer {
  import opened Wrappers
  import opened Strings
  import opened MindMap
  import opened MapQueries
  import opened MapState
  import opened ExpandMap
  import opened LoadMap
  import opened MergeContent

  /** A loop that has built the first `i` elements of `all` and now builds the next. */
  lemma {:induction false} SnocNode(all: seq<Node>, i: nat, built: seq<Node>, next: Node)
    requires i < |all| && built == all[..i] && next == all[i]
    ensures built + [next] == all[..i + 1]
  {
  }

  lemma {:induction false} SnocEdge(all: seq<Edge>, i: nat, built: seq<Edge>, next: Edge)
    requires i < |all| && built == all[..i] && next == all[i]
    ensures built + [next] == all[..i + 1]
  {
  }

  // -------------------------------------------------------------------------------
  // The loops' invariants: each says that the first `i` rounds have been done.

  predicate DetailedUpTo(env: Env, k: DetailKind, sel: string, items: seq<ElaborationDetail>, c0: nat, d0: nat,
                         i: nat, ns: seq<Node>, es: seq<Edge>)
  {
    i <= |items| && ns == DetailNodes(env, k, items, c0, d0)[..i] && es == DetailEdges(env, k, sel, items, c0, d0)[..i]
  }

  lemma {:induction false} DetailedBounds(env: Env, k: DetailKind, sel: string, items: seq<ElaborationDetail>, c0: nat, d0: nat)
    ensures DetailedUpTo(env, k, sel, items, c0, d0, 0, [], [])
    ensures forall ns, es :: DetailedUpTo(env, k, sel, items, c0, d0, |items|, ns, es) ==>
      ns == DetailNodes(env, k, items, c0, d0) && es == DetailEdges(env, k, sel, items, c0, d0)
  {
    assert DetailNodes(env, k, items, c0, d0)[..|items|] == DetailNodes(env, k, items, c0, d0);
    assert DetailEdges(env, k, sel, items, c0, d0)[..|items|] == DetailEdges(env, k, sel, items, c0, d0);
  }

  predicate ConnectedUpTo(env: Env, id: string, targets: seq<string>, c0: nat, d0: nat, i: nat, es: seq<Edge>) {
    i <= |targets| && es == ConnectorEdges(env, id, targets, c0, d0)[..i]
  }

  lemma {:induction false} ConnectedBounds(env: Env, id: string, targets: seq<string>, c0: nat, d0: nat)
    ensures ConnectedUpTo(env, id, targets, c0, d0, 0, [])
    ensures forall es :: ConnectedUpTo(env, id, targets, c0, d0, |targets|, es) ==> es == ConnectorEdges(env, id, targets, c0, d0)
  {
    assert ConnectorEdges(env, id, targets, c0, d0)[..|targets|] == ConnectorEdges(env, id, targets, c0, d0);
  }

  predicate ExpandedUpTo(env: Env, p: Node, items: seq<ElaborationDetail>, c0: nat, d0: nat, i: nat, ns: seq<Node>, es: seq<Edge>) {
    i <= |items| && ns == ExpandNodes(env, p, items, c0, d0)[..i] && es == ExpandEdges(env, p, items, c0, d0)[..i]
  }

  lemma {:induction false} ExpandedBounds(env: Env, p: Node, items: seq<ElaborationDetail>, c0: nat, d0: nat)
    ensures ExpandedUpTo(env, p, items, c0, d0, 0, [], [])
    ensures forall ns, es :: ExpandedUpTo(env, p, items, c0, d0, |items|, ns, es) ==>
      ns == ExpandNodes(env, p, items, c0, d0) && es == ExpandEdges(env, p, items, c0, d0)
  {
    assert ExpandNodes(env, p, items, c0, d0)[..|items|] == ExpandNodes(env, p, items, c0, d0);
    assert ExpandEdges(env, p, items, c0, d0)[..|items|] == ExpandEdges(env, p, items, c0, d0);
  }

  predicate ExpandedAllUpTo(env: Env, s0: GraphState, targets: seq<Node>, replies: nat -> Result<Option<seq<ElaborationDetail>>>,
                            i: nat, st: GraphState, total: nat)
  {
    i <= |targets| && st == ExpandAll(env, s0, targets[..i], replies).0 && total == ExpandAll(env, s0, targets[..i], replies).1
  }

  lemma {:induction false} ExpandedAllBounds(env: Env, s0: GraphState, targets: seq<Node>, replies: nat -> Result<Option<seq<ElaborationDetail>>>)
    ensures ExpandedAllUpTo(env, s0, targets, replies, 0, s0, 0)
    ensures forall st, total :: ExpandedAllUpTo(env, s0, targets, replies, |targets|, st, total) ==>
      st == ExpandAll(env, s0, targets, replies).0 && total == ExpandAll(env, s0, targets, replies).1
  {
    assert targets[..0] == [];
    assert targets[..|targets|] == targets;
  }

  predicate NormalizedUpTo(env: Env, nodes: seq<Node>, prefix: string, c0: nat, d0: nat, i: nat, ns: seq<Node>, c: nat, d: nat) {
    i <= |nodes| && (ns, c, d) == NormalizeNodes(env, nodes[..i], prefix, c0, d0)
  }

  lemma {:induction false} NormalizedBounds(env: Env, nodes: seq<Node>, prefix: string, c0: nat, d0: nat)
    ensures NormalizedUpTo(env, nodes, prefix, c0, d0, 0, [], c0, d0)
    ensures forall ns, c: nat, d: nat :: NormalizedUpTo(env, nodes, prefix, c0, d0, |nodes|, ns, c, d) ==>
      (ns, c, d) == NormalizeNodes(env, nodes, prefix, c0, d0)
  {
    assert nodes[..0] == [];
    assert nodes[..|nodes|] == nodes;
  }

  predicate ReconciledUpTo(env: Env, s0: GraphState, tops: seq<Node>, root: Option<Node>, all: seq<Node>,
                           replies: nat -> Result<ConnectSuggestion>, i: nat, st: GraphState)
  {
    i <= |tops| && st == Reconcile(env, s0, tops[..i], root, all, replies)
  }

  lemma {:induction false} ReconciledBounds(env: Env, s0: GraphState, tops: seq<Node>, root: Option<Node>, all: seq<Node>,
                         replies: nat -> Result<ConnectSuggestion>)
    ensures ReconciledUpTo(env, s0, tops, root, all, replies, 0, s0)
    ensures forall st :: ReconciledUpTo(env, s0, tops, root, all, replies, |tops|, st) ==>
      st == Reconcile(env, s0, tops, root, all, replies)
  {
    assert tops[..0] == [];
    assert tops[..|tops|] == tops;
  }

  /** The edges loop runs from the front: what it has built, followed by what the rest
      of the edges give from the present counter and draws, is the whole result. */
  predicate EdgesRenamedFrom(env: Env, edges: seq<Edge>, m: map<string, string>, full: (seq<Edge>, nat, nat),
                             i: nat, es: seq<Edge>, c: nat, d: nat)
  {
    i <= |edges| && es + MergeEdges(env, edges[i..], m, c, d).0 == full.0
    && MergeEdges(env, edges[i..], m, c, d).1 == full.1 && MergeEdges(env, edges[i..], m, c, d).2 == full.2
  }

  lemma {:induction false} EdgesRenamedBounds(env: Env, edges: seq<Edge>, m: map<string, string>, c0: nat, d0: nat)
    ensures EdgesRenamedFrom(env, edges, m, MergeEdges(env, edges, m, c0, d0), 0, [], c0, d0)
    ensures forall es, c: nat, d: nat :: EdgesRenamedFrom(env, edges, m, MergeEdges(env, edges, m, c0, d0), |edges|, es, c, d) ==>
      (es, c, d) == MergeEdges(env, edges, m, c0, d0)
  {
    assert edges[0..] == edges;
    assert [] + MergeEdges(env, edges, m, c0, d0).0 == MergeEdges(env, edges, m, c0, d0).0;
    assert edges[|edges|..] == [];
    forall es, c: nat, d: nat | EdgesRenamedFrom(env, edges, m, MergeEdges(env, edges, m, c0, d0), |edges|, es, c, d)
      ensures (es, c, d) == MergeEdges(env, edges, m, c0, d0)
    {
      assert MergeEdges(env, edges[|edges|..], m, c, d) == ([], c, d);
      assert es + [] == es;
    }
  }

  /** One more edge: renamed and appended when both its ends were renamed, skipped
      otherwise. */
  lemma {:induction false} EdgesRenamedStep(env: Env, edges: seq<Edge>, m: map<string, string>, full: (seq<Edge>, nat, nat),
                         i: nat, es: seq<Edge>, c: nat, d: nat)
    requires i < |edges| && EdgesRenamedFrom(env, edges, m, full, i, es, c, d)
    ensures edges[i].from in m && edges[i].to in m ==>
      EdgesRenamedFrom(env, edges, m, full, i + 1, es + [MergeEdge(env, edges[i], m, c, d)], c + 1, if edges[i].id == [] then d + 2 else d + 1)
    ensures !(edges[i].from in m && edges[i].to in m) ==> EdgesRenamedFrom(env, edges, m, full, i + 1, es, c, d)
  {
    var e := edges[i];
    if e.from in m && e.to in m {
      MergeEdgesKeep(env, edges, i, m, c, d);
      var rest := MergeEdges(env, edges[i + 1..], m, c + 1, if e.id == [] then d + 2 else d + 1).0;
      assert es + ([MergeEdge(env, e, m, c, d)] + rest) == (es + [MergeEdge(env, e, m, c, d)]) + rest;
    } else {
      MergeEdgesSkip(env, edges, i, m, c, d);
    }
  }

  class Container {
    /** The props and the outside world: style flags, the random source, the data set's
        message for refused batches. */
    const env: Env

    var hasNodes: bool
    var hasEdges: bool
    /** The contents of `nodesDataSet` and `edgesDataSet`, in insertion order. */
    var nodes: seq<Node>
    var edges: seq<Edge>
    /** `lastAssignedNodeId.current` */
    var counter: nat
    /** How many random suffixes were taken so far. */
    var draws: nat
    var selected: Option<string>
    var network: NetworkState
    var loadingType: LoadingType
    var error: Option<string>

    /** The fields as one value. */
    function State(): GraphState
      reads this
    {
      GraphState(hasNodes, hasEdges, nodes, edges, counter, draws, selected, network, loadingType, error)
    }

    constructor(env: Env)
      ensures this.env == env && State() == InitialState()
    {
      this.env := env;
      hasNodes, hasEdges := false, false;
      nodes, edges := [], [];
      counter, draws := 0, 0;
      selected := None;
      network, loadingType, error := Idle, Generation, None;
    }

    // -------------------------------------------------------------------------------
    // Building blocks

    /** `uuidv4().slice(0, 4)` */
    method NextSuffix() returns (sfx: Suffix)
      modifies this
      ensures sfx == env.uuid(old(draws))
      ensures State() == old(State()).(draws := old(draws) + 1)
    {
      sfx := env.uuid(draws);
      draws := draws + 1;
    }

    /** `generateNewNodeId(prefix)` (lines 125-128): the counter goes up by one and the
        id carries its new value. */
    method GenerateNewNodeId(prefix: string) returns (id: string)
      modifies this
      ensures id == GeneratedId(prefix, old(counter) + 1, env.uuid(old(draws)))
      ensures State() == old(State()).(counter := old(counter) + 1, draws := old(draws) + 1)
    {
      counter := counter + 1;
      var sfx := NextSuffix();
      id := prefix + NatToString(counter) + "_" + sfx;
    }

    /** `nodesDataSet.add(ns)` then `edgesDataSet.add(es)`; a refused batch throws, so
        the edges are not tried after refused nodes. */
    method AddBatch(ns: seq<Node>, es: seq<Edge>) returns (ok: bool)
      modifies this
      ensures (State(), ok) == TryAdd(old(State()), ns, es)
    {
      if !CanAdd(NodeIds(nodes), NodeIds(ns)) {
        return false;
      }
      nodes := nodes + ns;
      if !CanAdd(EdgeIds(edges), EdgeIds(es)) {
        return false;
      }
      edges := edges + es;
      ok := true;
    }

    /** `setNetworkLoadingState('ready')` after a batch went in, or the catch block. */
    method SettleBatch(ok: bool)
      modifies this
      ensures State() == Settle(env, (old(State()), ok))
    {
      if ok {
        network := Ready;
      } else {
        network, error := Failed, Some(env.duplicateIdError);
      }
    }

    /** The start of a model-backed operation. */
    method BeginLoading(t: LoadingType)
      modifies this
      ensures State() == Begin(old(State()), t)
    {
      loadingType, network, error := t, Loading, None;
    }

    method FailWith(m: string)
      modifies this
      ensures State() == Fail(old(State()), m)
    {
      network, error := Failed, Some(m);
    }

    // -------------------------------------------------------------------------------
    // Elaborate, examples, pros, cons (lines 143-193, 492-522)

    /** The `forEach` over the details: one node and one edge per detail, each node
        with the next generated id and each edge with a further random suffix. */
    method DetailBatch(k: DetailKind, sel: string, items: seq<ElaborationDetail>) returns (ns: seq<Node>, es: seq<Edge>)
      modifies this
      ensures ns == DetailNodes(env, k, items, old(counter), old(draws))
      ensures es == DetailEdges(env, k, sel, items, old(counter), old(draws))
      ensures State() == old(State()).(counter := old(counter) + |items|, draws := old(draws) + 2 * |items|)
    {
      ghost var s0 := State();
      var c0, d0 := counter, draws;
      DetailedBounds(env, k, sel, items, c0, d0);
      ns, es := [], [];
      var i := 0;
      while i < |items|
        invariant State() == s0.(counter := c0 + i, draws := d0 + 2 * i)
        invariant DetailedUpTo(env, k, sel, items, c0, d0, i, ns, es)
        decreases |items| - i
      {
        ns, es := DetailAt(k, sel, items, i, c0, d0, ns, es);
        i := i + 1;
      }
    }

    /** The body of the loop for the `i`-th detail. */
    method DetailAt(k: DetailKind, sel: string, items: seq<ElaborationDetail>, i: nat, ghost c0: nat, ghost d0: nat,
                    ns: seq<Node>, es: seq<Edge>) returns (ns': seq<Node>, es': seq<Edge>)
      requires i < |items| && counter == c0 + i && draws == d0 + 2 * i && DetailedUpTo(env, k, sel, items, c0, d0, i, ns, es)
      modifies this
      ensures DetailedUpTo(env, k, sel, items, c0, d0, i + 1, ns', es')
      ensures State() == old(State()).(counter := old(counter) + 1, draws := old(draws) + 2)
    {
      var node, edge := DetailItem(k, sel, items[i], i, c0, d0);
      SnocNode(DetailNodes(env, k, items, c0, d0), i, ns, node);
      SnocEdge(DetailEdges(env, k, sel, items, c0, d0), i, es, edge);
      ns', es' := ns + [node], es + [edge];
    }

    /** One detail: the node with the next generated id, and the edge to it. */
    method DetailItem(k: DetailKind, sel: string, d: ElaborationDetail, i: nat, ghost c0: nat, ghost d0: nat)
      returns (node: Node, edge: Edge)
      requires counter == c0 + i && draws == d0 + 2 * i
      modifies this
      ensures node == DetailNode(env, k, d, i, c0, d0) && edge == DetailEdge(env, k, sel, d, i, c0, d0)
      ensures State() == old(State()).(counter := old(counter) + 1, draws := old(draws) + 2)
    {
      var id := GenerateNewNodeId(DetailPrefix(k, i));
      node := NewNode(id, d.caption, OrElse(d.title, d.caption), DetailGroup(k), "", if env.obsidian then Some(2) else None);
      var sfx := NextSuffix();
      edge := Edge("edge_" + DetailEdgeTag(k) + "_" + sel + "_to_" + id + "_" + sfx, sel, id, d.relationshipLabel, false);
    }

    /** `handleGenericElaborationAction` and `elaborateOnSelectedNode`. */
    method Elaborate(k: DetailKind, reply: Result<Option<seq<ElaborationDetail>>>)
      modifies this
      ensures State() == DetailOp(env, old(State()), k, reply)
    {
      if !(hasNodes && hasEdges) || selected.None? {
        error := Some(NoSelectionMessage(k));
        return;
      }
      if FindNode(nodes, selected.value).None? {
        error := Some("Selected node data not found.");
        return;
      }
      ElaborateSelected(k, reply);
    }

    /** The elaboration once a node is selected and found. */
    method ElaborateSelected(k: DetailKind, reply: Result<Option<seq<ElaborationDetail>>>)
      requires hasNodes && hasEdges && selected.Some? && FindNode(nodes, selected.value).Some?
      modifies this
      ensures State() == DetailOp(env, old(State()), k, reply)
    {
      ghost var st := State();
      var sel := selected.value;
      BeginLoading(DetailLoading(k));
      if reply.Err? {
        FailWith(reply.msg);
        return;
      }
      if reply.value.None? {
        FailWith(InvalidDetailsMessage(k));
        return;
      }
      var items := reply.value.value;
      AddDetails(k, sel, items);
      DetailOpSuccess(env, st, k, items);
    }

    /** The details, built and then added as one batch. */
    method AddDetails(k: DetailKind, sel: string, items: seq<ElaborationDetail>)
      modifies this
      ensures State() == DetailAdded(env, old(State()), k, sel, items)
    {
      ghost var s0 := State();
      var ns, es := DetailBatch(k, sel, items);
      ghost var s1 := s0.(counter := s0.counter + |items|, draws := s0.draws + 2 * |items|);
      assert State() == s1 && ns == DetailNodes(env, k, items, s0.counter, s0.draws)
          && es == DetailEdges(env, k, sel, items, s0.counter, s0.draws);
      DetailAddedIs(env, s0, k, sel, items, s1, ns, es);
      ghost var p := TryAdd(s1, ns, es);
      var ok := AddBatch(ns, es);
      assert (State(), ok) == p;
      SettleBatch(ok);
      assert State() == Settle(env, p);
    }
  
    // -------------------------------------------------------------------------------
    // Explain (lines 523-579)

    method Explain(t: ExplanationType, reply: Result<Option<ExplanationDetail>>)
      modifies this
      ensures State() == ExplainOp(env, old(State()), t, reply)
    {
      if !(hasNodes && hasEdges) || selected.None? {
        error := Some("No node selected for explanation.");
        return;
      }
      if FindNode(nodes, selected.value).None? {
        error := Some("Selected node data not found.");
        return;
      }
      ExplainSelected(t, reply);
    }

    /** The explanation once a node is selected and found. */
    method ExplainSelected(t: ExplanationType, reply: Result<Option<ExplanationDetail>>)
      requires hasNodes && hasEdges && selected.Some? && FindNode(nodes, selected.value).Some?
      modifies this
      ensures State() == ExplainOp(env, old(State()), t, reply)
    {
      ghost var st := State();
      var sel := selected.value;
      BeginLoading(Explanation(t));
      if reply.Err? {
        FailWith(reply.msg);
        return;
      }
      if reply.value.None? {
        FailWith("Invalid explanation data from API.");
        return;
      }
      var d := reply.value.value;
      var id := GenerateNewNodeId(ExplainPrefix(t));
      var node := NewNode(id, d.caption, OrElse(d.title, d.caption), "explanation_" + ExplanationName(t), "",
                          if env.obsidian then Some(2) else None);
      var edge := Edge("edge_expl_" + ExplanationName(t) + "_" + sel + "_" + id, sel, id, d.relationshipLabel, false);
      assert node == ExplainNode(env, st, t, d);
      assert edge == ExplainEdge(env, st, t, sel, d);
      ghost var s1 := Begin(st, Explanation(t)).(counter := st.counter + 1, draws := st.draws + 1);
      assert State() == s1;
      ExplainAddedIs(env, st, t, d, s1, node, edge);
      ghost var p := TryAdd(s1, [node], [edge]);
      var ok := AddBatch([node], [edge]);
      assert (State(), ok) == p;
      SettleBatch(ok);
      assert State() == Settle(env, p);
      ExplainOpSuccess(env, st, t, d);
    }

    // -------------------------------------------------------------------------------
    // A node named in the chat (lines 580-644)

    method AddFromChat(entity: string, reply: Result<ChatReply>) returns (res: AddNodeFromChatResult)
      modifies this
      ensures (State(), res) == ChatOp(env, old(State()), entity, reply)
    {
      if !(hasNodes && hasEdges) {
        return AddNodeFromChatResult(false, None, None, None, None);
      }
      BeginLoading(ChatAddNode);
      if reply.Err? {
        FailWith(reply.msg);
        return ChatFailure(entity);
      }
      var cr := reply.value;
      if cr.definition == [] {
        FailWith("AI failed to provide a definition for the entity.");
        return ChatFailure(entity);
      }
      res := AddChatNode(entity, cr);
    }

    /** Once a definition came back: the new node, then its link. */
    method AddChatNode(entity: string, cr: ChatReply) returns (res: AddNodeFromChatResult)
      modifies this
      ensures (State(), res) == ChatAdd(env, old(State()), entity, cr)
    {
      ghost var s1 := State();
      var id := GenerateNewNodeId("chat_");
      var node := NewNode(id, entity, cr.definition, "chat_added", if env.obsidian then "dot" else "box",
                          if env.obsidian then Some(4) else None);
      assert node == ChatNode(env, s1, entity, cr.definition);
      var ok := AddBatch([node], []);
      if !ok {
        FailWith(env.duplicateIdError);
        return ChatFailure(entity);
      }
      ChatAddSuccess(env, s1, entity, cr);
      res := LinkChatNode(id, entity, cr.bestParentLabel);
    }

    /** Lines 615-632: the edge from the suggested parent, when a node has that label. */
    method LinkChatNode(id: string, entity: string, wanted: string) returns (res: AddNodeFromChatResult)
      modifies this
      ensures (State(), res) == ChatLink(env, old(State()), id, entity, wanted)
    {
      var parent := ChatParent(nodes, wanted);
      if parent.None? {
        network := Ready;
        return AddNodeFromChatResult(true, Some(id), Some(entity), None, None);
      }
      var p := parent.value;
      var ok := AddBatch([], [Edge("edge_chat_" + p.id + "_" + id, p.id, id, ChatEdgeLabel, false)]);
      if !ok {
        FailWith(env.duplicateIdError);
        return ChatFailure(entity);
      }
      network := Ready;
      res := AddNodeFromChatResult(true, Some(id), Some(entity), Some(p.id), Some(p.caption));
    }

    // -------------------------------------------------------------------------------
    // Connection node (lines 354-427)

    /** The `map` over the chosen nodes: one dashed edge to each, with a generated id. */
    method ConnectorBatch(id: string, targets: seq<string>) returns (es: seq<Edge>)
      modifies this
      ensures es == ConnectorEdges(env, id, targets, old(counter), old(draws))
      ensures State() == old(State()).(counter := old(counter) + |targets|, draws := old(draws) + |targets|)
    {
      ghost var s0 := State();
      var c0, d0 := counter, draws;
      ConnectedBounds(env, id, targets, c0, d0);
      es := [];
      var i := 0;
      while i < |targets|
        invariant State() == s0.(counter := c0 + i, draws := d0 + i)
        invariant ConnectedUpTo(env, id, targets, c0, d0, i, es)
        decreases |targets| - i
      {
        es := ConnectorAt(id, targets, i, c0, d0, es);
        i := i + 1;
      }
    }

    /** The body of the `map` for the `i`-th chosen node. */
    method ConnectorAt(id: string, targets: seq<string>, i: nat, ghost c0: nat, ghost d0: nat, es: seq<Edge>) returns (es': seq<Edge>)
      requires i < |targets| && counter == c0 + i && draws == d0 + i && ConnectedUpTo(env, id, targets, c0, d0, i, es)
      modifies this
      ensures ConnectedUpTo(env, id, targets, c0, d0, i + 1, es')
      ensures State() == old(State()).(counter := old(counter) + 1, draws := old(draws) + 1)
    {
      var eid := GenerateNewNodeId(ConnectorEdgePrefix(id, targets[i]));
      var edge := Edge(eid, id, targets[i], "connects", true);
      SnocEdge(ConnectorEdges(env, id, targets, c0, d0), i, es, edge);
      es' := es + [edge];
    }

    /** After the connector node is in: its edges, then the ready state. */
    method LinkConnector(id: string, targets: seq<string>) returns (r: Option<string>)
      modifies this
      ensures (State(), r) == ConnectorLink(env, old(State()), id, targets)
    {
      var es := ConnectorBatch(id, targets);
      var ok := AddBatch([], es);
      if !ok {
        FailWith(env.duplicateIdError);
        return None;
      }
      network := Ready;
      r := Some(id);
    }

    /** `addConnectionNodeAndEdges`: the id of the new node, or `None`. */
    method AddConnector(caption: string, title: string, targets: seq<string>, position: Option<Point>, obsidianStyle: bool)
      returns (r: Option<string>)
      modifies this
      ensures (State(), r) == ConnectorOp(env, old(State()), caption, title, targets, position, obsidianStyle)
    {
      if !(hasNodes && hasEdges) {
        error := Some("Datasets not available for adding connection node.");
        assert (State(), None) == ConnectorOp(env, old(State()), caption, title, targets, position, obsidianStyle);
        return None;
      }
      ghost var st := State();
      BeginLoading(MakingConnection);
      var id := GenerateNewNodeId("connector_");
      ghost var s2 := Begin(st, MakingConnection).(counter := st.counter + 1, draws := st.draws + 1);
      assert id == ConnectorId(env, st) && State() == s2;
      var node := ConnectorNode(id, caption, title, position, obsidianStyle);
      var ok := AddBatch([node], []);
      ghost var added := TryAdd(s2, [node], []);
      assert (State(), ok) == added;
      if !ok {
        FailWith(env.duplicateIdError);
        assert (State(), None) == ConnectorOp(env, st, caption, title, targets, position, obsidianStyle);
        return None;
      }
      ConnectorOpSuccess(env, st, caption, title, targets, position, obsidianStyle);
      assert State() == Begin(st, MakingConnection).(counter := st.counter + 1, draws := st.draws + 1, nodes := st.nodes + [node]);
      r := LinkConnector(id, targets);
      assert (State(), r) == ConnectorOp(env, st, caption, title, targets, position, obsidianStyle);
    }

    // -------------------------------------------------------------------------------
    // Freeze, descriptions (lines 733-843)

    method Freeze() returns (res: Result<()>)
      modifies this
      ensures (State(), res) == FreezeOp(old(State()))
    {
      if selected.None? || !hasNodes {
        return Err("No node selected or dataset not available.");
      }
      var node := FindNode(nodes, selected.value);
      if node.None? {
        return Err("Selected node not found.");
      }
      nodes := SetFixed(nodes, node.value.id, Toggled(node.value));
      res := Ok(());
    }

    /** `isNodeFrozen(id)` */
    method IsFrozenNode(id: string) returns (b: bool)
      ensures b == IsNodeFrozen(State(), id)
    {
      if !hasNodes {
        return false;
      }
      var node := FindNode(nodes, id);
      b := node.Some? && node.value.fixed.FixedAxes? && node.value.fixed.x;
    }

    /** `addMissingDescriptions`: `replies(k)` answers for the `k`-th node needing one. */
    method DescribeMissing(replies: nat -> Result<string>) returns (res: Result<nat>)
      modifies this
      ensures (State(), res) == DescribeOp(old(State()), replies)
    {
      if !hasNodes {
        return Err("Mind map data not available.");
      }
      ghost var st := State();
      BeginLoading(AddDescriptions);
      var targets := NodesNeedingDescription(nodes);
      if targets == [] {
        network := Ready;
        return Ok(0);
      }
      var updated := DescribeEach(targets, replies);
      network := Ready;
      res := Ok(updated);
    }

    /** The `for ... of` over the nodes needing a description. */
    method DescribeEach(targets: seq<Node>, replies: nat -> Result<string>) returns (updated: nat)
      modifies this
      ensures State() == old(State()).(nodes := DescribeAll(old(nodes), targets, replies).0)
      ensures updated == DescribeAll(old(nodes), targets, replies).1
    {
      ghost var s0 := State();
      DescribedBounds(nodes, targets, replies);
      updated := 0;
      var i := 0;
      while i < |targets|
        invariant State() == s0.(nodes := nodes)
        invariant DescribedUpTo(s0.nodes, targets, replies, i, nodes, updated)
        decreases |targets| - i
      {
        updated := DescribeAt(targets, replies, i, s0.nodes, updated);
        i := i + 1;
      }
    }

    /** The body of the loop for the `i`-th node. */
    method DescribeAt(targets: seq<Node>, replies: nat -> Result<string>, i: nat, ghost nodes0: seq<Node>, updated: nat)
      returns (updated': nat)
      requires i < |targets| && DescribedUpTo(nodes0, targets, replies, i, nodes, updated)
      modifies this
      ensures DescribedUpTo(nodes0, targets, replies, i + 1, nodes, updated')
      ensures State() == old(State()).(nodes := nodes)
    {
      DescribeAllStep(nodes0, targets, i, replies);
      var filled := DescribeOne(targets[i].id, replies(i));
      updated' := if filled then updated + 1 else updated;
    }

    /** One node of the loop: a non-blank answer, trimmed, becomes its description. */
    method DescribeOne(id: string, reply: Result<string>) returns (filled: bool)
      modifies this
      ensures filled <==> reply.Ok? && Trim(reply.value) != []
      ensures State() == old(State()).(nodes := nodes)
      ensures filled ==> nodes == SetTitle(old(nodes), id, Trim(reply.value))
      ensures !filled ==> nodes == old(nodes)
    {
      filled := false;
      if reply.Ok? && Trim(reply.value) != [] {
        nodes := SetTitle(nodes, id, Trim(reply.value));
        filled := true;
      }
    }

    /** `enhanceSelectedNodeDescription`: the new description, or `None` for a blank
        answer. */
    method Enhance(reply: Result<string>) returns (res: Result<Option<string>>)
      modifies this
      ensures (State(), res) == EnhanceOp(old(State()), reply)
    {
      if selected.None? || !hasNodes {
        return Err("No node selected or dataset not available for enhancing description.");
      }
      var found := FindNode(nodes, selected.value);
      if found.None? {
        return Err("Selected node data not found for enhancing description.");
      }
      res := EnhanceWith(found.value, reply);
    }

    /** The enhancement once the selected node `n` is found. */
    method EnhanceWith(n: Node, reply: Result<string>) returns (res: Result<Option<string>>)
      modifies this
      ensures (State(), res) == EnhanceFound(old(State()), n, reply)
    {
      ghost var st := State();
      BeginLoading(EnhancingDescription);
      ghost var s1 := State();
      if reply.Err? {
        FailWith(reply.msg);
        return Err(reply.msg);
      }
      var text := Trim(reply.value);
      if text == [] {
        network := Ready;
        assert State() == s1.(network := Ready);
        return Ok(None);
      }
      var d := Enhanced(n, reply.value);
      nodes := SetTitle(nodes, n.id, d);
      network := Ready;
      assert State() == s1.(nodes := SetTitle(st.nodes, n.id, d), network := Ready);
      res := Ok(Some(d));
    }

    // -------------------------------------------------------------------------------
    // Selection (lines 1262-1289, 901-907)

    /** A click on the canvas. */
    method Click(clicked: Option<string>, connectionMode: bool)
      modifies this
      ensures State() == ClickOp(old(State()), clicked, connectionMode)
    {
      if !connectionMode {
        selected := clicked;
      }
    }
  
    // -------------------------------------------------------------------------------
    // Expand (lines 645-732)

    /** The `forEach` over one parent's proposed sub-nodes: each takes the next
        generated id, and its edge from the parent is named after it. */
    method ExpandBatch(p: Node, items: seq<ElaborationDetail>) returns (ns: seq<Node>, es: seq<Edge>)
      modifies this
      ensures ns == ExpandNodes(env, p, items, old(counter), old(draws))
      ensures es == ExpandEdges(env, p, items, old(counter), old(draws))
      ensures State() == old(State()).(counter := old(counter) + |items|, draws := old(draws) + |items|)
    {
      ghost var s0 := State();
      var c0, d0 := counter, draws;
      ExpandedBounds(env, p, items, c0, d0);
      ns, es := [], [];
      var i := 0;
      while i < |items|
        invariant State() == s0.(counter := c0 + i, draws := d0 + i)
        invariant ExpandedUpTo(env, p, items, c0, d0, i, ns, es)
        decreases |items| - i
      {
        ns, es := ExpandAt(p, items, i, c0, d0, ns, es);
        i := i + 1;
      }
    }

    /** The body of the loop for the `i`-th proposal. */
    method ExpandAt(p: Node, items: seq<ElaborationDetail>, i: nat, ghost c0: nat, ghost d0: nat, ns: seq<Node>, es: seq<Edge>)
      returns (ns': seq<Node>, es': seq<Edge>)
      requires i < |items| && counter == c0 + i && draws == d0 + i && ExpandedUpTo(env, p, items, c0, d0, i, ns, es)
      modifies this
      ensures ExpandedUpTo(env, p, items, c0, d0, i + 1, ns', es')
      ensures State() == old(State()).(counter := old(counter) + 1, draws := old(draws) + 1)
    {
      var node, edge := ExpandItem(p, items[i], i, c0, d0);
      SnocNode(ExpandNodes(env, p, items, c0, d0), i, ns, node);
      SnocEdge(ExpandEdges(env, p, items, c0, d0), i, es, edge);
      ns', es' := ns + [node], es + [edge];
    }

    /** One sub-node: the next generated id, the label, and the edge from the parent. */
    method ExpandItem(p: Node, d: ElaborationDetail, i: nat, ghost c0: nat, ghost d0: nat) returns (node: Node, edge: Edge)
      requires counter == c0 + i && draws == d0 + i
      modifies this
      ensures node == ExpandNode(env, p, d, i, c0, d0) && edge == ExpandEdge(env, p, d, i, c0, d0)
      ensures State() == old(State()).(counter := old(counter) + 1, draws := old(draws) + 1)
    {
      var caption := ExpandLabel(d);
      var id := GenerateNewNodeId(ExpandPrefix(p.id, i));
      node := NewNode(id, caption, OrElse(d.title, caption), ExpandGroup(env), "", if env.obsidian then Some(2) else None);
      edge := Edge("edge_exp_" + p.id + "_" + id, p.id, id, OrElse(d.relationshipLabel, "related"), false);
    }

    /** One parent: the batch its answer proposes, added as one; a refused batch is
        dropped. Returns how many sub-nodes were proposed. */
    method ExpandOne(p: Node, reply: Result<Option<seq<ElaborationDetail>>>) returns (m: nat)
      modifies this
      ensures (State(), m) == ExpandStep(env, old(State()), p, reply)
    {
      if reply.Err? || reply.value.None? {
        return 0;
      }
      var items := reply.value.value;
      ExpandStepOf(env, State(), p, items);
      AddExpansion(p, items);
      m := |items|;
    }

    /** A parent's proposed sub-nodes, built and then added as one batch. */
    method AddExpansion(p: Node, items: seq<ElaborationDetail>)
      modifies this
      ensures State() == ExpandBatchAdded(env, old(State()), p, items).0
    {
      var ns, es := ExpandBatch(p, items);
      var _ := AddBatch(ns, es);
    }

    /** The `for ... of` over the parents to expand. */
    method ExpandEach(targets: seq<Node>, replies: nat -> Result<Option<seq<ElaborationDetail>>>) returns (total: nat)
      modifies this
      ensures State() == ExpandAll(env, old(State()), targets, replies).0
      ensures total == ExpandAll(env, old(State()), targets, replies).1
    {
      ghost var s0 := State();
      ExpandedAllBounds(env, s0, targets, replies);
      total := 0;
      var i := 0;
      while i < |targets|
        invariant ExpandedAllUpTo(env, s0, targets, replies, i, State(), total)
        decreases |targets| - i
      {
        total := ExpandNext(targets, replies, i, s0, total);
        i := i + 1;
      }
    }

    /** The body of the loop for the `i`-th parent. */
    method ExpandNext(targets: seq<Node>, replies: nat -> Result<Option<seq<ElaborationDetail>>>, i: nat, ghost s0: GraphState, total: nat)
      returns (total': nat)
      requires i < |targets| && ExpandedAllUpTo(env, s0, targets, replies, i, State(), total)
      modifies this
      ensures ExpandedAllUpTo(env, s0, targets, replies, i + 1, State(), total')
    {
      ExpandAllStep(env, s0, targets, i, replies);
      var m := ExpandOne(targets[i], replies(i));
      total' := total + m;
    }

    /** `expandMap`: how many sub-nodes were proposed in all. */
    method Expand(replies: nat -> Result<Option<seq<ElaborationDetail>>>) returns (res: Result<nat>)
      modifies this
      ensures (State(), res) == ExpandOp(env, old(State()), replies)
    {
      if !(hasNodes && hasEdges) {
        return Err("Mind map data not available for expansion.");
      }
      BeginLoading(Expansion);
      var targets := ExpandTargets(nodes, edges);
      if targets == [] {
        FailWith("No suitable nodes found to expand.");
        return Err("No suitable nodes found to expand.");
      }
      var total := ExpandEach(targets, replies);
      network := Ready;
      res := Ok(total);
    }
  
    // -------------------------------------------------------------------------------
    // Loading a map (lines 921-1057)

    /** One node of the `map`: a missing id is generated, a supplied one raises the
        counter to its leading number; the label and the weight are filled in. */
    method NormalizeOne(n: Node, prefix: string, i: nat) returns (node: Node)
      modifies this
      ensures (node, counter, draws) == NormalizeNode(env, n, prefix, i, old(counter), old(draws))
      ensures State() == old(State()).(counter := counter, draws := draws)
    {
      if n.id != [] {
        node := n.(caption := OrElse(n.caption, "Node " + n.id), value := LoadValue(env, n));
        counter := Max(counter, LeadingNumber(n.id));
      } else {
        var id := GenerateNewNodeId(NodeIdPrefix(prefix, i));
        node := n.(id := id, caption := OrElse(n.caption, "Node " + id), value := LoadValue(env, n));
      }
    }

    /** The `map` over the received nodes, in order. */
    method NormalizeEach(nodes: seq<Node>, prefix: string) returns (ns: seq<Node>)
      modifies this
      ensures (ns, counter, draws) == NormalizeNodes(env, nodes, prefix, old(counter), old(draws))
      ensures State() == old(State()).(counter := counter, draws := draws)
    {
      ghost var s0 := State();
      NormalizedBounds(env, nodes, prefix, counter, draws);
      ns := [];
      var i := 0;
      while i < |nodes|
        invariant State() == s0.(counter := counter, draws := draws)
        invariant NormalizedUpTo(env, nodes, prefix, s0.counter, s0.draws, i, ns, counter, draws)
        decreases |nodes| - i
      {
        ns := NormalizeNext(nodes, prefix, i, s0.counter, s0.draws, ns);
        i := i + 1;
      }
    }

    /** The body of the `map` for the `i`-th node. */
    method NormalizeNext(nodes: seq<Node>, prefix: string, i: nat, ghost c0: nat, ghost d0: nat, ns: seq<Node>) returns (ns': seq<Node>)
      requires i < |nodes| && NormalizedUpTo(env, nodes, prefix, c0, d0, i, ns, counter, draws)
      modifies this
      ensures NormalizedUpTo(env, nodes, prefix, c0, d0, i + 1, ns', counter, draws)
      ensures State() == old(State()).(counter := counter, draws := draws)
    {
      NormalizeSnoc(env, nodes, prefix, c0, d0, i);
      var node := NormalizeOne(nodes[i], prefix, i);
      ns' := ns + [node];
    }

    /** `new DataSet(nodes)` and `new DataSet(edges)`. */
    method InstallSets(ns: seq<Node>, es: seq<Edge>)
      modifies this
      ensures State() == Install(env, old(State()), ns, es)
    {
      if !Distinct(NodeIds(ns)) {
        FailWith(env.duplicateIdError);
        return;
      }
      hasNodes, nodes := true, ns;
      if !Distinct(EdgeIds(es)) {
        FailWith(env.duplicateIdError);
        return;
      }
      hasEdges, edges, network := true, es, Ready;
    }

    /** The effect that loads a map: the preloaded one, or the one the model generated
        for the source. */
    method Load(source: Source, preloaded: Option<MapData>, reply: Result<Option<MapData>>)
      modifies this
      ensures State() == LoadOp(env, old(State()), source, preloaded, reply)
    {
      ghost var st := State();
      hasNodes, hasEdges, nodes, edges := false, false, [], [];
      selected, error, counter := None, None, 0;
      if source.NoSource? {
        network := Idle;
        return;
      }
      loadingType := Generation;
      ghost var s1 := State();
      assert s1 == Reset(st).(loadingType := Generation);
      if preloaded.Some? {
        Preload(preloaded.value);
        assert LoadOp(env, st, source, preloaded, reply) == PreloadOp(env, s1, preloaded.value);
        return;
      }
      network := Loading;
      assert LoadOp(env, st, source, preloaded, reply) == RequestOp(env, State(), source, reply);
      Request(source, reply);
    }

    /** The map asked of the model, once the request has started. */
    method Request(source: Source, reply: Result<Option<MapData>>)
      modifies this
      ensures State() == RequestOp(env, old(State()), source, reply)
    {
      if source.TranscriptSource? && source.content == [] {
        FailWith(MissingContentMessage);
        return;
      }
      if reply.Err? {
        FailWith(reply.msg);
        return;
      }
      if reply.value.None? {
        FailWith(InvalidStructureMessage);
        return;
      }
      Generate(reply.value.value);
    }

    /** The preloaded map, installed without asking the model. */
    method Preload(md: MapData)
      modifies this
      ensures State() == PreloadOp(env, old(State()), md)
    {
      var ns := NormalizeEach(md.nodes, "node_preloaded_");
      InstallSets(ns, LoadEdges(md.edges, "edge_preloaded_"));
    }

    /** The generated map: relabelled, normalised, on a historical map dated and laid
        out on the timeline, then installed. */
    method Generate(md: MapData)
      modifies this
      ensures State() == GenerateOp(env, old(State()), md)
    {
      var ns := NormalizeEach(Relabelled(md.nodes), "node_init_");
      if env.historical {
        ns := Timeline(HistoricalNodes(ns));
      }
      InstallSets(ns, LoadEdges(md.edges, "edge_init_"));
    }
  
    // -------------------------------------------------------------------------------
    // Merging new content (lines 209-352)

    /** The `forEach` over the parsed nodes: each gets a generated id, recorded in the
        id map, and its group, weight and shape. */
    method RenameNodes(md: MapData, useAlternateColor: bool, makeNewTopNodesMain: bool)
      returns (ns: seq<Node>, idMap: map<string, string>)
      modifies this
      ensures ns == MergeNodes(env, md, useAlternateColor, makeNewTopNodesMain, old(counter), old(draws))
      ensures idMap == IdMap(NodeIds(md.nodes), NodeIds(ns))
      ensures State() == old(State()).(counter := old(counter) + |md.nodes|, draws := old(draws) + |md.nodes|)
    {
      ghost var s0 := State();
      var c0, d0 := counter, draws;
      ns, idMap := [], map[];
      var i := 0;
      while i < |md.nodes|
        invariant State() == s0.(counter := c0 + i, draws := d0 + i)
        invariant RenamedUpTo(env, md, useAlternateColor, makeNewTopNodesMain, c0, d0, i, ns, idMap)
        decreases |md.nodes| - i
      {
        ns, idMap := RenameNodeAt(md, i, useAlternateColor, makeNewTopNodesMain, c0, d0, ns, idMap);
        i := i + 1;
      }
      RenamedAll(env, md, useAlternateColor, makeNewTopNodesMain, c0, d0, ns, idMap);
    }

    /** The body of the `forEach`: the `i`-th node renamed, and its id recorded. */
    method RenameNodeAt(md: MapData, i: nat, useAlternateColor: bool, makeNewTopNodesMain: bool, ghost c0: nat, ghost d0: nat,
                        ns: seq<Node>, idMap: map<string, string>)
      returns (ns': seq<Node>, idMap': map<string, string>)
      requires i < |md.nodes| && counter == c0 + i && draws == d0 + i
      requires RenamedUpTo(env, md, useAlternateColor, makeNewTopNodesMain, c0, d0, i, ns, idMap)
      modifies this
      ensures RenamedUpTo(env, md, useAlternateColor, makeNewTopNodesMain, c0, d0, i + 1, ns', idMap')
      ensures State() == old(State()).(counter := old(counter) + 1, draws := old(draws) + 1)
    {
      var node := RenameNode(md, i, useAlternateColor, makeNewTopNodesMain, c0, d0);
      SnocNode(MergeNodes(env, md, useAlternateColor, makeNewTopNodesMain, c0, d0), i, ns, node);
      IdMapGrow(md.nodes, i, ns, node);
      idMap' := idMap[md.nodes[i].id := node.id];
      ns' := ns + [node];
    }

    /** One parsed node. */
    method RenameNode(md: MapData, i: nat, useAlternateColor: bool, makeNewTopNodesMain: bool, ghost c0: nat, ghost d0: nat)
      returns (node: Node)
      requires i < |md.nodes| && counter == c0 + i && draws == d0 + i
      modifies this
      ensures node == MergeNode(env, md, i, useAlternateColor, makeNewTopNodesMain, c0, d0)
      ensures State() == old(State()).(counter := old(counter) + 1, draws := old(draws) + 1)
    {
      var n := md.nodes[i];
      var id := GenerateNewNodeId(MergePrefix(n.id));
      var top := IsNewTopLevel(md.edges, n.id);
      var main := top && makeNewTopNodesMain;
      node := n.(id := id, group := MergeGroup(main, useAlternateColor), value := MergeValue(env, n, main),
                 shape := OrElse(n.shape, if env.obsidian then "dot" else "box"));
    }

    /** The `forEach` over the parsed edges: those whose two ends were renamed are
        re-pointed and get a generated id. */
    method RenameEdges(edges: seq<Edge>, idMap: map<string, string>) returns (es: seq<Edge>)
      modifies this
      ensures (es, counter, draws) == MergeEdges(env, edges, idMap, old(counter), old(draws))
      ensures State() == old(State()).(counter := counter, draws := draws)
    {
      ghost var s0 := State();
      ghost var full := MergeEdges(env, edges, idMap, counter, draws);
      EdgesRenamedBounds(env, edges, idMap, counter, draws);
      es := [];
      var i := 0;
      while i < |edges|
        invariant State() == s0.(counter := counter, draws := draws)
        invariant EdgesRenamedFrom(env, edges, idMap, full, i, es, counter, draws)
        decreases |edges| - i
      {
        es := RenameEdgeAt(edges, i, idMap, full, es);
        i := i + 1;
      }
    }

    /** The edge at position `i`: renamed and appended when both its ends were renamed,
        skipped otherwise. What remains to be done stays the same. */
    method RenameEdgeAt(edges: seq<Edge>, i: nat, idMap: map<string, string>, ghost full: (seq<Edge>, nat, nat), es: seq<Edge>)
      returns (es': seq<Edge>)
      requires i < |edges| && EdgesRenamedFrom(env, edges, idMap, full, i, es, counter, draws)
      modifies this
      ensures EdgesRenamedFrom(env, edges, idMap, full, i + 1, es', counter, draws)
      ensures State() == old(State()).(counter := counter, draws := draws)
    {
      ghost var c, d := counter, draws;
      var e := edges[i];
      if e.from in idMap && e.to in idMap {
        var edge := RenameEdge(e, idMap);
        es' := es + [edge];
      } else {
        es' := es;
      }
      EdgesRenamedStep(env, edges, idMap, full, i, es, c, d);
    }

    /** One renamed edge: an edge without an id first takes a random tag. */
    method RenameEdge(e: Edge, idMap: map<string, string>) returns (edge: Edge)
      requires e.from in idMap && e.to in idMap
      modifies this
      ensures edge == MergeEdge(env, e, idMap, old(counter), old(draws))
      ensures counter == old(counter) + 1 && draws == (if e.id == [] then old(draws) + 2 else old(draws) + 1)
      ensures State() == old(State()).(counter := counter, draws := draws)
    {
      var tag := e.id;
      if e.id == [] {
        tag := NextSuffix();
      }
      var id := GenerateNewNodeId(MergeEdgePrefix(tag));
      edge := e.(id := id, from := idMap[e.from], to := idMap[e.to]);
    }

    /** One new top node tied in where the suggestion names; a refused edge is dropped. */
    method ConnectOne(top: Node, root: Option<Node>, all: seq<Node>, reply: Result<ConnectSuggestion>)
      modifies this
      ensures State() == ConnectStep(env, old(State()), top, root, all, reply)
    {
      if reply.Err? {
        return;
      }
      var t := ConnectTarget(all, root, reply.value);
      if t.None? {
        return;
      }
      AddConnectEdge(top, t.value, reply.value);
    }

    /** The edge from the suggested node to the new top node, with a generated id. */
    method AddConnectEdge(top: Node, target: string, sug: ConnectSuggestion)
      modifies this
      ensures State() == ConnectAdd(env, old(State()), top, target, sug)
    {
      var id := GenerateNewNodeId("aiconnect_" + top.id + "_");
      var _ := AddBatch([], [Edge(id, target, top.id, OrElse(sug.relationshipLabel, "related"), false)]);
    }

    /** The `for ... of` over the new top nodes. */
    method ConnectTops(tops: seq<Node>, root: Option<Node>, all: seq<Node>, connect: nat -> Result<ConnectSuggestion>)
      modifies this
      ensures State() == Reconcile(env, old(State()), tops, root, all, connect)
    {
      ghost var s0 := State();
      ReconciledBounds(env, s0, tops, root, all, connect);
      var i := 0;
      while i < |tops|
        invariant ReconciledUpTo(env, s0, tops, root, all, connect, i, State())
        decreases |tops| - i
      {
        ReconcileSnoc(env, s0, tops, i, root, all, connect);
        ConnectOne(tops[i], root, all, connect(i));
        i := i + 1;
      }
    }

    /** The parsed content: renamed, added as one batch, then tied in. */
    method MergeData(md: MapData, useAlternateColor: bool, attemptMerge: bool, makeNewTopNodesMain: bool,
                     connect: nat -> Result<ConnectSuggestion>) returns (res: Result<()>)
      modifies this
      ensures (State(), res) == MergeParsed(env, old(State()), md, useAlternateColor, attemptMerge, makeNewTopNodesMain, connect)
    {
      ghost var s1 := State();
      var ns, idMap := RenameNodes(md, useAlternateColor, makeNewTopNodesMain);
      RenamedIs(env, s1, md, useAlternateColor, makeNewTopNodesMain, ns, idMap, counter, draws);
      var es := RenameEdges(md.edges, idMap);
      MergeParsedIs(env, s1, md, useAlternateColor, attemptMerge, makeNewTopNodesMain, connect, ns, es, counter, draws);
      res := AddAndTieIn(ns, es, attemptMerge, connect);
    }

    /** `nodesDataSet.add` and `edgesDataSet.add` of the renamed content, then, when asked
        to and when something was added, the tie-in loop. */
    method AddAndTieIn(ns: seq<Node>, es: seq<Edge>, attemptMerge: bool, connect: nat -> Result<ConnectSuggestion>)
      returns (res: Result<()>)
      modifies this
      ensures (State(), res) == AddAndTie(env, old(State()), ns, es, attemptMerge, connect)
    {
      var ok := AddBatch(ns, es);
      if !ok {
        FailWith(env.duplicateIdError);
        return Err(env.duplicateIdError);
      }
      ghost var s4 := State();
      if attemptMerge && ns != [] {
        ConnectTops(NewTops(ns, EdgeEnds(es)), RootNode(env, nodes), nodes, connect);
      }
      assert State() == TieIn(env, s4, ns, es, attemptMerge, connect);
      network := Ready;
      res := Ok(());
    }

    /** `mergeNewContent`: `reply` is the parsed content (`Ok(None)` when it is not a
        map) and `connect(k)` the suggestion for the `k`-th new top node. */
    method Merge(reply: Result<Option<MapData>>, useAlternateColor: bool, attemptMerge: bool, makeNewTopNodesMain: bool,
                 connect: nat -> Result<ConnectSuggestion>) returns (res: Result<()>)
      modifies this
      ensures (State(), res) == MergeOp(env, old(State()), reply, useAlternateColor, attemptMerge, makeNewTopNodesMain, connect)
    {
      if !(hasNodes && hasEdges) {
        return Err("Existing mind map data not available for merging.");
      }
      BeginLoading(MergingContent);
      if reply.Err? {
        FailWith(reply.msg);
        return Err(reply.msg);
      }
      if reply.value.None? {
        FailWith(InvalidMergeMessage);
        return Err(InvalidMergeMessage);
      }
      res := MergeData(reply.value.value, useAlternateColor, attemptMerge, makeNewTopNodesMain, connect);
    }
  }
}
