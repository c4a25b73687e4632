/** The state of the mind-map component and what each of its operations does to it,
    as pure functions from the old state (and the replies of the language model) to
    the new one. The class `ContentContainer.Container` performs the same operations
    step by step and is proved to end in the state these functions give. */
module MapState {
  import opened Wrappers
  import opened Strings
  import opened MindMap
  import opened MapQueries
  import Historical

  /** `NetworkLoadingState` */
  datatype NetworkState = Idle | Loading | Ready | Failed

  /** What the component reads but does not own: its style props, the random source
      behind `uuidv4()` (the `n`-th draw), and the message the data set throws when a
      batch is refused. */
  datatype Env = Env(obsidian: bool, historical: bool, uuid: nat -> Suffix, duplicateIdError: string)

  /** The component's state. `hasNodes`/`hasEdges` say whether the node and edge data
      sets exist; `counter` is `lastAssignedNodeId`; `draws` counts the random suffixes
      taken so far. */
  datatype GraphState = GraphState(
    hasNodes: bool,
    hasEdges: bool,
    nodes: seq<Node>,
    edges: seq<Edge>,
    counter: nat,
    draws: nat,
    selected: Option<string>,
    network: NetworkState,
    loadingType: LoadingType,
    error: Option<string>)

  /** The state before anything is loaded. */
  function InitialState(): (st: GraphState)
    ensures !st.hasNodes && !st.hasEdges && st.nodes == [] && st.edges == [] && st.counter == 0
  {
    GraphState(false, false, [], [], 0, 0, None, Idle, Generation, None)
  }

  /** Both data sets exist. */
  predicate Loaded(st: GraphState) { st.hasNodes && st.hasEdges }

  /** What every reachable state satisfies: ids are unique in each data set, and a data
      set that does not exist holds nothing. */
  predicate WellFormed(st: GraphState) {
    Distinct(NodeIds(st.nodes)) && Distinct(EdgeIds(st.edges))
    && (!st.hasNodes ==> st.nodes == []) && (!st.hasEdges ==> st.edges == [])
  }

  /** An operation that only adds: old nodes and edges stay, in place, and the counters
      never go back. */
  predicate Grows(st: GraphState, r: GraphState) {
    st.nodes <= r.nodes && st.edges <= r.edges && st.counter <= r.counter && st.draws <= r.draws
  }

  /** The start of every model-backed operation: loading of the given kind, no error. */
  function Begin(st: GraphState, t: LoadingType): GraphState {
    st.(loadingType := t, network := Loading, error := None)
  }

  function Fail(st: GraphState, m: string): GraphState {
    st.(network := Failed, error := Some(m))
  }

  /** A state whose data, data-set flags and counters are those of a well-formed state
      is well formed and has grown from it. */
  lemma {:induction false} SameDataKeeps(st: GraphState, r: GraphState)
    requires WellFormed(st)
    requires r.nodes == st.nodes && r.edges == st.edges && r.hasNodes == st.hasNodes && r.hasEdges == st.hasEdges
    requires r.counter == st.counter && r.draws == st.draws
    ensures WellFormed(r) && Grows(st, r)
  {
  }

  // ---------------------------------------------------------------------------------
  // Generated ids (lines 125-128)

  /** `generateNewNodeId(prefix)` once the counter has reached `n`. */
  function GeneratedId(prefix: string, n: nat, sfx: Suffix): (r: string)
    ensures StartsWith(r, prefix)
  {
    prefix + NatToString(n) + "_" + sfx
  }

  /** Every prefix the component passes ends in an underscore. */
  predicate EndsInUnderscore(p: string) { p != [] && p[|p| - 1] == '_' }

  /** `id` was generated when the counter reached `n`. */
  ghost predicate HasCounter(id: string, n: nat) {
    exists p: string, sfx: Suffix :: EndsInUnderscore(p) && id == GeneratedId(p, n, sfx)
  }

  /** Ids generated at different counter values differ, whatever their prefixes and
      random suffixes: the counter is the run of digits between the prefix's last
      underscore and the final `_xxxx`. */
  lemma {:induction false} GeneratedIdsDiffer(p: string, q: string, a: nat, b: nat, s: Suffix, t: Suffix)
    requires EndsInUnderscore(p) && EndsInUnderscore(q) && a != b
    ensures GeneratedId(p, a, s) != GeneratedId(q, b, t)
  {
    var A, B := NatToString(a), NatToString(b);
    var x, y := GeneratedId(p, a, s), GeneratedId(q, b, t);
    if |x| == |y| {
      if |A| == |B| {
        if A == B {
          NatToStringInjective(a, b);
          assert false;
        }
        var k :| 0 <= k < |A| && A[k] != B[k];
        assert x[|p| + k] == A[k] && y[|q| + k] == B[k];
      } else if |A| < |B| {
        assert x[|p| - 1] == '_';
        assert y[|p| - 1] == B[|p| - 1 - |q|];
      } else {
        assert y[|q| - 1] == '_';
        assert x[|q| - 1] == A[|q| - 1 - |p|];
      }
    }
  }

  lemma {:induction false} Minted(p: string, n: nat, s: Suffix)
    requires EndsInUnderscore(p)
    ensures HasCounter(GeneratedId(p, n, s), n)
  {
  }

  lemma {:induction false} CountersSeparate(x: string, y: string, a: nat, b: nat)
    requires HasCounter(x, a) && HasCounter(y, b) && a != b
    ensures x != y
  {
    var p, s :| EndsInUnderscore(p) && x == GeneratedId(p, a, s);
    var q, t :| EndsInUnderscore(q) && y == GeneratedId(q, b, t);
    GeneratedIdsDiffer(p, q, a, b, s, t);
  }

  /** The ids of a batch were generated at counters `c + 1`, `c + 2`, ... in order. */
  ghost predicate CountedFrom(ids: seq<string>, c: nat) {
    forall i :: 0 <= i < |ids| ==> HasCounter(ids[i], c + i + 1)
  }

  /** An id minted just before a counted run starts it one counter value earlier. */
  lemma {:induction false} CountedCons(id: string, ids: seq<string>, c: nat)
    requires HasCounter(id, c + 1) && CountedFrom(ids, c + 1)
    ensures CountedFrom([id] + ids, c)
  {
    forall i | 0 <= i < |[id] + ids| ensures HasCounter(([id] + ids)[i], c + i + 1) {
      if i > 0 {
        assert ([id] + ids)[i] == ids[i - 1];
      }
    }
  }

  lemma {:induction false} CountedFromDistinct(ids: seq<string>, c: nat)
    requires CountedFrom(ids, c)
    ensures Distinct(ids)
  {
    forall i, j | 0 <= i < j < |ids| ensures ids[i] != ids[j] {
      CountersSeparate(ids[i], ids[j], c + i + 1, c + j + 1);
    }
  }

  /** Ids built as `head + id + "_" + four characters` differ when the ids do. */
  lemma {:induction false} SuffixedDiffer(head: string, m: string, n: string, s: Suffix, t: Suffix)
    requires m != n
    ensures head + m + "_" + s != head + n + "_" + t
  {
    var x, y := head + m + "_" + s, head + n + "_" + t;
    if |m| == |n| {
      var k :| 0 <= k < |m| && m[k] != n[k];
      assert x[|head| + k] == m[k] && y[|head| + k] == n[k];
    } else {
      assert |x| != |y|;
    }
  }

  lemma {:induction false} TailDiffer(head: string, m: string, n: string)
    requires m != n
    ensures head + m != head + n
  {
    assert (head + m)[|head|..] == m && (head + n)[|head|..] == n;
  }

  // ---------------------------------------------------------------------------------
  // Adding to the data sets

  /** `nodes.add(ns)` followed by `edges.add(es)`. A refused batch adds nothing and
      throws, so the edges are not tried when the nodes were refused, and nodes that
      were added stay when their edges are refused. The flag says both succeeded. */
  function TryAdd(st: GraphState, ns: seq<Node>, es: seq<Edge>): (GraphState, bool) {
    if !CanAdd(NodeIds(st.nodes), NodeIds(ns)) then (st, false)
    else if !CanAdd(EdgeIds(st.edges), EdgeIds(es)) then (st.(nodes := st.nodes + ns), false)
    else (st.(nodes := st.nodes + ns, edges := st.edges + es), true)
  }

  /** Adding keeps every id unique and only ever appends. */
  lemma {:induction false} TryAddKeeps(st: GraphState, ns: seq<Node>, es: seq<Edge>)
    requires WellFormed(st) && Loaded(st)
    ensures WellFormed(TryAdd(st, ns, es).0) && Grows(st, TryAdd(st, ns, es).0)
    ensures TryAdd(st, ns, es).1 <==> CanAdd(NodeIds(st.nodes), NodeIds(ns)) && CanAdd(EdgeIds(st.edges), EdgeIds(es))
    ensures TryAdd(st, ns, es).1 ==> TryAdd(st, ns, es).0 == st.(nodes := st.nodes + ns, edges := st.edges + es)
  {
    if CanAdd(NodeIds(st.nodes), NodeIds(ns)) {
      assert NodeIds(st.nodes + ns) == NodeIds(st.nodes) + NodeIds(ns);
      DistinctAppend(NodeIds(st.nodes), NodeIds(ns));
      if CanAdd(EdgeIds(st.edges), EdgeIds(es)) {
        assert EdgeIds(st.edges + es) == EdgeIds(st.edges) + EdgeIds(es);
        DistinctAppend(EdgeIds(st.edges), EdgeIds(es));
      }
    }
  }

  /** Each data set either stays as it was or gains the whole of its batch; nothing
      else changes. */
  lemma {:induction false} TryAddAllOrNothing(st: GraphState, ns: seq<Node>, es: seq<Edge>)
    ensures TryAdd(st, ns, es).0.nodes == st.nodes || TryAdd(st, ns, es).0.nodes == st.nodes + ns
    ensures TryAdd(st, ns, es).0.edges == st.edges || TryAdd(st, ns, es).0.edges == st.edges + es
    ensures TryAdd(st, ns, es).0 == st.(nodes := TryAdd(st, ns, es).0.nodes, edges := TryAdd(st, ns, es).0.edges)
  {
  }

  /** The end of an adding operation: ready, or failed with the data set's message. */
  function Settle(env: Env, p: (GraphState, bool)): GraphState {
    if p.1 then p.0.(network := Ready) else Fail(p.0, env.duplicateIdError)
  }

  lemma {:induction false} SettleKeeps(env: Env, st: GraphState, ns: seq<Node>, es: seq<Edge>)
    requires WellFormed(st) && Loaded(st)
    ensures WellFormed(Settle(env, TryAdd(st, ns, es))) && Grows(st, Settle(env, TryAdd(st, ns, es)))
  {
    TryAddKeeps(st, ns, es);
  }

  // ---------------------------------------------------------------------------------
  // Elaborate, give examples, pros, cons (lines 143-193, 492-522, 844-846)

  /** Which of the four elaborating actions runs. */
  datatype DetailKind = Details | Examples | Pros | Cons

  function DetailGroup(k: DetailKind): string {
    match k
    case Details => "elaboration"
    case Examples => "example_node"
    case Pros => "pros_node"
    case Cons => "cons_node"
  }

  /** The `actionType` of the generic handler. */
  function DetailAction(k: DetailKind): string {
    match k
    case Details => "elaboration"
    case Examples => "give_examples"
    case Pros => "elaborate_pros"
    case Cons => "elaborate_cons"
  }

  function DetailLoading(k: DetailKind): LoadingType {
    match k
    case Details => Elaboration
    case Examples => GiveExamples
    case Pros => ElaboratePros
    case Cons => ElaborateCons
  }

  function NoSelectionMessage(k: DetailKind): string {
    if k == Details then "No node selected or mind map data not available."
    else "No node selected for " + DetailAction(k) + "."
  }

  function InvalidDetailsMessage(k: DetailKind): string {
    "Invalid " + DetailAction(k) + " data from API."
  }

  function DetailPrefix(k: DetailKind, i: nat): (p: string)
    ensures EndsInUnderscore(p)
  {
    if k == Details then "elab_" else DetailGroup(k) + "_" + NatToString(i) + "_"
  }

  function DetailEdgeTag(k: DetailKind): string {
    if k == Details then "elab" else DetailGroup(k)
  }

  /** The `i`-th new node's id: the action started with counter `c0` and `d0` draws,
      and each detail takes one id and one edge suffix. */
  function DetailNodeId(env: Env, k: DetailKind, i: nat, c0: nat, d0: nat): string {
    GeneratedId(DetailPrefix(k, i), c0 + i + 1, env.uuid(d0 + 2 * i))
  }

  function DetailNode(env: Env, k: DetailKind, d: ElaborationDetail, i: nat, c0: nat, d0: nat): Node {
    NewNode(DetailNodeId(env, k, i, c0, d0), d.caption, OrElse(d.title, d.caption), DetailGroup(k), "",
            if env.obsidian then Some(2) else None)
  }

  function DetailEdge(env: Env, k: DetailKind, sel: string, d: ElaborationDetail, i: nat, c0: nat, d0: nat): Edge {
    var to := DetailNodeId(env, k, i, c0, d0);
    Edge("edge_" + DetailEdgeTag(k) + "_" + sel + "_to_" + to + "_" + env.uuid(d0 + 2 * i + 1), sel, to, d.relationshipLabel, false)
  }

  function DetailNodes(env: Env, k: DetailKind, items: seq<ElaborationDetail>, c0: nat, d0: nat): (r: seq<Node>)
    ensures |r| == |items|
  {
    seq(|items|, i requires 0 <= i < |items| => DetailNode(env, k, items[i], i, c0, d0))
  }

  function DetailEdges(env: Env, k: DetailKind, sel: string, items: seq<ElaborationDetail>, c0: nat, d0: nat): (r: seq<Edge>)
    ensures |r| == |items|
  {
    seq(|items|, i requires 0 <= i < |items| => DetailEdge(env, k, sel, items[i], i, c0, d0))
  }

  /** The new nodes' ids are pairwise different, and so are the new edges' ids. */
  lemma {:induction false} DetailIdsDistinct(env: Env, k: DetailKind, sel: string, items: seq<ElaborationDetail>, c0: nat, d0: nat)
    ensures CountedFrom(NodeIds(DetailNodes(env, k, items, c0, d0)), c0)
    ensures Distinct(NodeIds(DetailNodes(env, k, items, c0, d0)))
    ensures Distinct(EdgeIds(DetailEdges(env, k, sel, items, c0, d0)))
  {
    var ns := DetailNodes(env, k, items, c0, d0);
    forall i | 0 <= i < |ns| ensures HasCounter(NodeIds(ns)[i], c0 + i + 1) {
      Minted(DetailPrefix(k, i), c0 + i + 1, env.uuid(d0 + 2 * i));
    }
    CountedFromDistinct(NodeIds(ns), c0);
    var es := DetailEdges(env, k, sel, items, c0, d0);
    forall i, j | 0 <= i < j < |es| ensures EdgeIds(es)[i] != EdgeIds(es)[j] {
      assert NodeIds(ns)[i] != NodeIds(ns)[j];
      SuffixedDiffer("edge_" + DetailEdgeTag(k) + "_" + sel + "_to_", NodeIds(ns)[i], NodeIds(ns)[j],
                     env.uuid(d0 + 2 * i + 1), env.uuid(d0 + 2 * j + 1));
    }
  }

  /** The start of an elaborating action that received `n` details: each takes one
      id (advancing the counter) and two random suffixes. */
  function DetailStart(st: GraphState, k: DetailKind, n: nat): GraphState {
    Begin(st, DetailLoading(k)).(counter := st.counter + n, draws := st.draws + 2 * n)
  }

  /** The elaborating actions: `reply` is what `parseJSON` made of the model's answer
      (`Err` when the request or the parse threw, `None` when it is not an array). */
  function DetailOp(env: Env, st: GraphState, k: DetailKind, reply: Result<Option<seq<ElaborationDetail>>>): GraphState {
    if !Loaded(st) || st.selected.None? then st.(error := Some(NoSelectionMessage(k)))
    else if FindNode(st.nodes, st.selected.value).None? then st.(error := Some("Selected node data not found."))
    else
    if reply.Err? then Fail(Begin(st, DetailLoading(k)), reply.msg)
    else if reply.value.None? then Fail(Begin(st, DetailLoading(k)), InvalidDetailsMessage(k))
    else DetailAdded(env, Begin(st, DetailLoading(k)), k, st.selected.value, reply.value.value)
  }

  /** The details of a valid answer, built from the present counter and draws and
      added as one batch. */
  function DetailAdded(env: Env, s1: GraphState, k: DetailKind, sel: string, items: seq<ElaborationDetail>): GraphState {
    Settle(env, TryAdd(s1.(counter := s1.counter + |items|, draws := s1.draws + 2 * |items|),
                       DetailNodes(env, k, items, s1.counter, s1.draws), DetailEdges(env, k, sel, items, s1.counter, s1.draws)))
  }

  lemma {:induction false} DetailAddedIs(env: Env, s0: GraphState, k: DetailKind, sel: string, items: seq<ElaborationDetail>,
                      s1: GraphState, ns: seq<Node>, es: seq<Edge>)
    requires s1 == s0.(counter := s0.counter + |items|, draws := s0.draws + 2 * |items|)
    requires ns == DetailNodes(env, k, items, s0.counter, s0.draws) && es == DetailEdges(env, k, sel, items, s0.counter, s0.draws)
    ensures DetailAdded(env, s0, k, sel, items) == Settle(env, TryAdd(s1, ns, es))
  {
    assert DetailAdded(env, s0, k, sel, items)
        == Settle(env, TryAdd(s0.(counter := s0.counter + |items|, draws := s0.draws + 2 * |items|),
                              DetailNodes(env, k, items, s0.counter, s0.draws), DetailEdges(env, k, sel, items, s0.counter, s0.draws)));
  }

  lemma {:induction false} DetailOpSuccess(env: Env, st: GraphState, k: DetailKind, items: seq<ElaborationDetail>)
    requires Loaded(st) && st.selected.Some? && FindNode(st.nodes, st.selected.value).Some?
    ensures DetailOp(env, st, k, Ok(Some(items))) == DetailAdded(env, Begin(st, DetailLoading(k)), k, st.selected.value, items)
  {
  }

  /** The same, with the batch and the state it is offered to written out. */
  lemma {:induction false} DetailOpBatch(env: Env, st: GraphState, k: DetailKind, items: seq<ElaborationDetail>)
    requires Loaded(st) && st.selected.Some? && FindNode(st.nodes, st.selected.value).Some?
    ensures DetailOp(env, st, k, Ok(Some(items)))
         == Settle(env, TryAdd(DetailStart(st, k, |items|), DetailNodes(env, k, items, st.counter, st.draws),
                               DetailEdges(env, k, st.selected.value, items, st.counter, st.draws)))
  {
    var b := Begin(st, DetailLoading(k));
    DetailOpSuccess(env, st, k, items);
    DetailAddedIs(env, b, k, st.selected.value, items, DetailStart(st, k, |items|),
                  DetailNodes(env, k, items, st.counter, st.draws), DetailEdges(env, k, st.selected.value, items, st.counter, st.draws));
  }

  /** Every elaborating action keeps the ids unique and only appends. */
  lemma {:induction false} DetailOpKeeps(env: Env, st: GraphState, k: DetailKind, reply: Result<Option<seq<ElaborationDetail>>>)
    requires WellFormed(st)
    ensures WellFormed(DetailOp(env, st, k, reply)) && Grows(st, DetailOp(env, st, k, reply))
  {
    if !Loaded(st) || st.selected.None? || FindNode(st.nodes, st.selected.value).None? {
      SameDataKeeps(st, DetailOp(env, st, k, reply));
    } else if reply.Err? || reply.value.None? {
      SameDataKeeps(st, DetailOp(env, st, k, reply));
    } else {
      var items := reply.value.value;
      var s1 := DetailStart(st, k, |items|);
      DetailOpBatch(env, st, k, items);
      SettleKeeps(env, s1, DetailNodes(env, k, items, st.counter, st.draws),
                  DetailEdges(env, k, st.selected.value, items, st.counter, st.draws));
      assert Grows(st, s1);
    }
  }

  /** When none of the new ids is taken, each detail becomes a node of the action's
      group, labelled and described as the model said, joined to the selected node by
      an edge carrying the relationship label; nothing else changes. */
  lemma {:induction false} DetailOpAttaches(env: Env, st: GraphState, k: DetailKind, items: seq<ElaborationDetail>)
    requires WellFormed(st) && Loaded(st) && st.selected.Some? && FindNode(st.nodes, st.selected.value).Some?
    requires forall i :: 0 <= i < |items| ==> DetailNodeId(env, k, i, st.counter, st.draws) !in NodeIds(st.nodes)
    requires forall e :: e in DetailEdges(env, k, st.selected.value, items, st.counter, st.draws) ==> e.id !in EdgeIds(st.edges)
    ensures var r := DetailOp(env, st, k, Ok(Some(items)));
      && r.network == Ready && r.error == None
      && r.nodes == st.nodes + DetailNodes(env, k, items, st.counter, st.draws)
      && r.edges == st.edges + DetailEdges(env, k, st.selected.value, items, st.counter, st.draws)
  {
    var sel := st.selected.value;
    var ns := DetailNodes(env, k, items, st.counter, st.draws);
    var es := DetailEdges(env, k, sel, items, st.counter, st.draws);
    DetailIdsDistinct(env, k, sel, items, st.counter, st.draws);
    forall i | 0 <= i < |es| ensures EdgeIds(es)[i] !in EdgeIds(st.edges) {
      assert es[i] in es;
    }
    DetailOpBatch(env, st, k, items);
    TryAddKeeps(DetailStart(st, k, |items|), ns, es);
  }

  /** The `i`-th new node carries the `i`-th detail's label and description (the label
      again when there is none) in the action's group, and the `i`-th new edge joins
      the selected node to it under the relationship label. */
  lemma {:induction false} DetailBatchShape(env: Env, k: DetailKind, sel: string, items: seq<ElaborationDetail>, c0: nat, d0: nat, i: nat)
    requires i < |items|
    ensures var n, e := DetailNodes(env, k, items, c0, d0)[i], DetailEdges(env, k, sel, items, c0, d0)[i];
      n.caption == items[i].caption && n.title == OrElse(items[i].title, items[i].caption)
      && n.group == DetailGroup(k) && HasCounter(n.id, c0 + i + 1)
      && e.from == sel && e.to == n.id && e.caption == items[i].relationshipLabel
  {
    Minted(DetailPrefix(k, i), c0 + i + 1, env.uuid(d0 + 2 * i));
  }

  /** A reply that is not a list of details changes neither the graph nor the counters. */
  lemma {:induction false} DetailOpRefusal(env: Env, st: GraphState, k: DetailKind, reply: Result<Option<seq<ElaborationDetail>>>)
    requires !(reply.Ok? && reply.value.Some?)
    ensures var r := DetailOp(env, st, k, reply);
      r.nodes == st.nodes && r.edges == st.edges && r.counter == st.counter && r.draws == st.draws && r.error.Some?
      && (Loaded(st) && st.selected.Some? && FindNode(st.nodes, st.selected.value).Some? ==> r.network == Failed)
  {
  }

  // ---------------------------------------------------------------------------------
  // Explain (lines 523-579)

  function ExplainPrefix(t: ExplanationType): (p: string)
    ensures EndsInUnderscore(p)
  {
    "expl_" + ExplanationName(t) + "_"
  }

  function ExplainNode(env: Env, st: GraphState, t: ExplanationType, d: ExplanationDetail): Node {
    var id := GeneratedId(ExplainPrefix(t), st.counter + 1, env.uuid(st.draws));
    NewNode(id, d.caption, OrElse(d.title, d.caption), "explanation_" + ExplanationName(t), "",
            if env.obsidian then Some(2) else None)
  }

  function ExplainEdge(env: Env, st: GraphState, t: ExplanationType, sel: string, d: ExplanationDetail): Edge {
    var id := ExplainNode(env, st, t, d).id;
    Edge("edge_expl_" + ExplanationName(t) + "_" + sel + "_" + id, sel, id, d.relationshipLabel, false)
  }

  function ExplainOp(env: Env, st: GraphState, t: ExplanationType, reply: Result<Option<ExplanationDetail>>): GraphState {
    if !Loaded(st) || st.selected.None? then st.(error := Some("No node selected for explanation."))
    else if FindNode(st.nodes, st.selected.value).None? then st.(error := Some("Selected node data not found."))
    else
      var s1 := Begin(st, Explanation(t));
      if reply.Err? then Fail(s1, reply.msg)
      else if reply.value.None? then Fail(s1, "Invalid explanation data from API.")
      else ExplainAdded(env, st, t, reply.value.value)
  }

  /** The explanation node and its edge, added as one batch. */
  function ExplainAdded(env: Env, st: GraphState, t: ExplanationType, d: ExplanationDetail): GraphState
    requires st.selected.Some?
  {
    Settle(env, TryAdd(Begin(st, Explanation(t)).(counter := st.counter + 1, draws := st.draws + 1),
                       [ExplainNode(env, st, t, d)], [ExplainEdge(env, st, t, st.selected.value, d)]))
  }

  lemma {:induction false} ExplainAddedIs(env: Env, st: GraphState, t: ExplanationType, d: ExplanationDetail, s1: GraphState, n: Node, e: Edge)
    requires st.selected.Some?
    requires s1 == Begin(st, Explanation(t)).(counter := st.counter + 1, draws := st.draws + 1)
    requires n == ExplainNode(env, st, t, d) && e == ExplainEdge(env, st, t, st.selected.value, d)
    ensures ExplainAdded(env, st, t, d) == Settle(env, TryAdd(s1, [n], [e]))
  {
  }

  lemma {:induction false} ExplainOpSuccess(env: Env, st: GraphState, t: ExplanationType, d: ExplanationDetail)
    requires Loaded(st) && st.selected.Some? && FindNode(st.nodes, st.selected.value).Some?
    ensures ExplainOp(env, st, t, Ok(Some(d))) == ExplainAdded(env, st, t, d)
  {
  }

  /** Explaining keeps the ids unique and only appends; a reply that is not an
      explanation leaves the graph as it was. */
  lemma {:induction false} ExplainOpKeeps(env: Env, st: GraphState, t: ExplanationType, reply: Result<Option<ExplanationDetail>>)
    requires WellFormed(st)
    ensures var r := ExplainOp(env, st, t, reply);
      && WellFormed(r) && Grows(st, r)
      && (!(reply.Ok? && reply.value.Some?) ==> r.nodes == st.nodes && r.edges == st.edges && r.error.Some?)
  {
    if Loaded(st) && st.selected.Some? && FindNode(st.nodes, st.selected.value).Some? && reply.Ok? && reply.value.Some? {
      var d := reply.value.value;
      var s1 := Begin(st, Explanation(t)).(counter := st.counter + 1, draws := st.draws + 1);
      var n, e := ExplainNode(env, st, t, d), ExplainEdge(env, st, t, st.selected.value, d);
      ExplainOpSuccess(env, st, t, d);
      ExplainAddedIs(env, st, t, d, s1, n, e);
      SettleKeeps(env, s1, [n], [e]);
    } else {
      SameDataKeeps(st, ExplainOp(env, st, t, reply));
    }
  }

  /** When the new ids are free, the explanation becomes one node in the group of its
      kind, generated at the next counter value, joined to the selected node by an edge
      carrying the relationship label. */
  lemma {:induction false} ExplainOpAttaches(env: Env, st: GraphState, t: ExplanationType, d: ExplanationDetail)
    requires WellFormed(st) && Loaded(st) && st.selected.Some? && FindNode(st.nodes, st.selected.value).Some?
    requires ExplainNode(env, st, t, d).id !in NodeIds(st.nodes)
    requires ExplainEdge(env, st, t, st.selected.value, d).id !in EdgeIds(st.edges)
    ensures var r := ExplainOp(env, st, t, Ok(Some(d)));
      && r.network == Ready && r.error == None
      && r.nodes == st.nodes + [ExplainNode(env, st, t, d)]
      && r.edges == st.edges + [ExplainEdge(env, st, t, st.selected.value, d)]
  {
    var s1 := Begin(st, Explanation(t)).(counter := st.counter + 1, draws := st.draws + 1);
    var n, e := ExplainNode(env, st, t, d), ExplainEdge(env, st, t, st.selected.value, d);
    ExplainOpSuccess(env, st, t, d);
    ExplainAddedIs(env, st, t, d, s1, n, e);
    TryAddKeeps(s1, [n], [e]);
  }

  /** The explanation node is labelled and described as the model said, in the group
      of its kind, generated at the next counter value; its edge runs from the selected
      node to it. */
  lemma {:induction false} ExplainShape(env: Env, st: GraphState, t: ExplanationType, sel: string, d: ExplanationDetail)
    ensures var n, e := ExplainNode(env, st, t, d), ExplainEdge(env, st, t, sel, d);
      && n.caption == d.caption && n.title == OrElse(d.title, d.caption)
      && n.group == "explanation_" + ExplanationName(t) && HasCounter(n.id, st.counter + 1)
      && e.from == sel && e.to == n.id && e.caption == d.relationshipLabel
  {
    Minted(ExplainPrefix(t), st.counter + 1, env.uuid(st.draws));
  }

  // ---------------------------------------------------------------------------------
  // Add a node from the chat (lines 580-644)

  /** The parsed answer: the suggested parent's label (empty for `null`) and the
      definition of the entity. */
  datatype ChatReply = ChatReply(bestParentLabel: string, definition: string)

  const ChatEdgeLabel: string := "related (from chat)"

  function ChatFailure(entity: string): AddNodeFromChatResult {
    AddNodeFromChatResult(false, None, Some(entity), None, None)
  }

  function ChatNode(env: Env, st: GraphState, entity: string, definition: string): Node {
    NewNode(GeneratedId("chat_", st.counter + 1, env.uuid(st.draws)), entity, definition, "chat_added",
            if env.obsidian then "dot" else "box", if env.obsidian then Some(4) else None)
  }

  /** The suggested parent, looked up (ignoring case) among the nodes once the new one
      is in. */
  function ChatParent(nodes: seq<Node>, wanted: string): (r: Option<Node>)
    ensures r.Some? ==> r.value in nodes && EqualsIgnoreCase(r.value.caption, wanted)
  {
    if wanted == [] then None else FindByLabel(nodes, wanted)
  }

  /** After the node is in: the edge from the parent, when there is one. */
  function ChatLink(env: Env, s: GraphState, id: string, entity: string, wanted: string): (GraphState, AddNodeFromChatResult) {
    var parent := ChatParent(s.nodes, wanted);
    if parent.None? then (s.(network := Ready), AddNodeFromChatResult(true, Some(id), Some(entity), None, None))
    else
      var p := parent.value;
      var linked := TryAdd(s, [], [Edge("edge_chat_" + p.id + "_" + id, p.id, id, ChatEdgeLabel, false)]);
      if !linked.1 then (Fail(linked.0, env.duplicateIdError), ChatFailure(entity))
      else (linked.0.(network := Ready), AddNodeFromChatResult(true, Some(id), Some(entity), Some(p.id), Some(p.caption)))
  }

  /** Once a definition came back: the new node, then its link. */
  function ChatAdd(env: Env, s1: GraphState, entity: string, cr: ChatReply): (GraphState, AddNodeFromChatResult) {
    var node := ChatNode(env, s1, entity, cr.definition);
    var added := TryAdd(s1.(counter := s1.counter + 1, draws := s1.draws + 1), [node], []);
    if !added.1 then (Fail(added.0, env.duplicateIdError), ChatFailure(entity))
    else ChatLink(env, added.0, node.id, entity, cr.bestParentLabel)
  }

  function ChatOp(env: Env, st: GraphState, entity: string, reply: Result<ChatReply>): (GraphState, AddNodeFromChatResult) {
    if !Loaded(st) then (st, AddNodeFromChatResult(false, None, None, None, None))
    else
      match reply
      case Err(m) => (Fail(Begin(st, ChatAddNode), m), ChatFailure(entity))
      case Ok(cr) =>
        if cr.definition == [] then (Fail(Begin(st, ChatAddNode), "AI failed to provide a definition for the entity."), ChatFailure(entity))
        else ChatAdd(env, Begin(st, ChatAddNode), entity, cr)
  }

  /** The link step keeps the ids unique, adds at most the one edge, and names a parent
      exactly when that edge, from a node with the suggested label, was added. */
  lemma {:induction false} ChatLinkKeeps(env: Env, s: GraphState, id: string, entity: string, wanted: string)
    requires WellFormed(s) && Loaded(s)
    ensures var (r, res) := ChatLink(env, s, id, entity, wanted);
      && WellFormed(r) && Grows(s, r) && r.nodes == s.nodes
      && (res.mainNodeAdded <==> r.network == Ready)
      && (res.mainNodeAdded ==> res.newNodeId == Some(id) && res.newNodeLabel == Some(entity))
      && (res.parentNodeId.Some? <==> res.mainNodeAdded && |r.edges| == |s.edges| + 1)
      && (!res.mainNodeAdded ==> r.edges == s.edges && res == ChatFailure(entity))
      && (res.parentNodeId.Some? ==>
            (r.edges[|s.edges|].from == res.parentNodeId.value && r.edges[|s.edges|].to == id
             && r.edges[|s.edges|].caption == ChatEdgeLabel
             && EqualsIgnoreCase(res.parentNodeLabel.value, wanted)))
  {
    var parent := ChatParent(s.nodes, wanted);
    if parent.Some? {
      var p := parent.value;
      TryAddKeeps(s, [], [Edge("edge_chat_" + p.id + "_" + id, p.id, id, ChatEdgeLabel, false)]);
    }
  }

  /** Once the node is in, what remains is the link step. */
  lemma {:induction false} ChatAddSuccess(env: Env, s1: GraphState, entity: string, cr: ChatReply)
    requires CanAdd(NodeIds(s1.nodes), NodeIds([ChatNode(env, s1, entity, cr.definition)]))
    ensures ChatAdd(env, s1, entity, cr)
         == ChatLink(env, s1.(counter := s1.counter + 1, draws := s1.draws + 1, nodes := s1.nodes + [ChatNode(env, s1, entity, cr.definition)]),
                     ChatNode(env, s1, entity, cr.definition).id, entity, cr.bestParentLabel)
  {
    var node := ChatNode(env, s1, entity, cr.definition);
    var s2 := s1.(counter := s1.counter + 1, draws := s1.draws + 1);
    assert CanAdd(EdgeIds(s2.edges), EdgeIds([]));
    assert s2.edges + [] == s1.edges;
    assert TryAdd(s2, [node], []) == (s1.(counter := s1.counter + 1, draws := s1.draws + 1, nodes := s1.nodes + [node]), true);
  }

  lemma {:induction false} ChatAddKeeps(env: Env, s1: GraphState, entity: string, cr: ChatReply)
    requires WellFormed(s1) && Loaded(s1)
    ensures var (r, res) := ChatAdd(env, s1, entity, cr);
      && WellFormed(r) && Grows(s1, r)
      && (res.mainNodeAdded <==> r.network == Ready)
      && (!res.mainNodeAdded ==> r.edges == s1.edges)
  {
    var node := ChatNode(env, s1, entity, cr.definition);
    var s2 := s1.(counter := s1.counter + 1, draws := s1.draws + 1);
    TryAddKeeps(s2, [node], []);
    if CanAdd(NodeIds(s1.nodes), NodeIds([node])) {
      ChatAddSuccess(env, s1, entity, cr);
      ChatLinkKeeps(env, s2.(nodes := s1.nodes + [node]), node.id, entity, cr.bestParentLabel);
    }
  }

  /** Adding from the chat keeps the ids unique and only appends. Before a map is
      loaded it changes nothing; otherwise it reports success exactly when it ends
      ready, and a failure adds no edge. */
  lemma {:induction false} ChatOpKeeps(env: Env, st: GraphState, entity: string, reply: Result<ChatReply>)
    requires WellFormed(st)
    ensures var (r, res) := ChatOp(env, st, entity, reply);
      && WellFormed(r) && Grows(st, r)
      && (!Loaded(st) ==> r == st && !res.mainNodeAdded)
      && (Loaded(st) ==> (res.mainNodeAdded <==> r.network == Ready))
      && (res.mainNodeAdded ==> reply.Ok? && reply.value.definition != [])
      && (!res.mainNodeAdded ==> r.edges == st.edges)
  {
    if Loaded(st) && reply.Ok? && reply.value.definition != [] {
      ChatAddKeeps(env, Begin(st, ChatAddNode), entity, reply.value);
    }
  }

  /** With a definition and a free id, the one new node is labelled with the entity
      and described by the definition, and the result names it. A parent is named
      exactly when an edge was added as well, from a node whose label matches the
      suggestion ignoring case, to the new node; when no node matches, the node is
      added alone and the operation succeeds. */
  lemma {:induction false} ChatOpAttaches(env: Env, st: GraphState, entity: string, cr: ChatReply)
    requires WellFormed(st) && Loaded(st) && cr.definition != []
    requires ChatNode(env, st, entity, cr.definition).id !in NodeIds(st.nodes)
    ensures var (r, res) := ChatOp(env, st, entity, Ok(cr));
      var n := ChatNode(env, st, entity, cr.definition);
      && n.caption == entity && n.title == cr.definition && n.group == "chat_added"
      && r.nodes == st.nodes + [n]
      && (res.mainNodeAdded ==> res.newNodeId == Some(n.id) && res.newNodeLabel == Some(entity))
      && (res.parentNodeId.Some? <==> res.mainNodeAdded && |r.edges| == |st.edges| + 1)
      && (res.parentNodeId.Some? ==>
            (r.edges[|st.edges|].from == res.parentNodeId.value && r.edges[|st.edges|].to == n.id
             && r.edges[|st.edges|].caption == ChatEdgeLabel
             && EqualsIgnoreCase(res.parentNodeLabel.value, cr.bestParentLabel)))
      && (ChatParent(st.nodes + [n], cr.bestParentLabel).None? ==> res.mainNodeAdded && r.edges == st.edges)
  {
    var s1 := Begin(st, ChatAddNode);
    var n := ChatNode(env, s1, entity, cr.definition);
    ChatAddSuccess(env, s1, entity, cr);
    assert NodeIds(st.nodes + [n]) == NodeIds(st.nodes) + [n.id];
    DistinctAppend(NodeIds(st.nodes), [n.id]);
    ChatLinkKeeps(env, s1.(counter := s1.counter + 1, draws := s1.draws + 1, nodes := s1.nodes + [n]), n.id, entity, cr.bestParentLabel);
  }

  // ---------------------------------------------------------------------------------
  // Connection node (lines 354-427)

  datatype Point = Point(x: real, y: real)

  function ConnectorNode(id: string, caption: string, title: string, position: Option<Point>, obsidianStyle: bool): Node {
    Node(id, caption, OrElse(title, caption), "connector_node",
         if obsidianStyle then "diamond" else "ellipse",
         if position.Some? then Some(position.value.x) else None,
         if position.Some? then Some(position.value.y) else None,
         if position.Some? then FixedAxes(false, false) else NotFixed,
         if obsidianStyle then Some(6) else None, "", "", None)
  }

  function ConnectorEdgePrefix(id: string, target: string): (p: string)
    ensures EndsInUnderscore(p)
  {
    "conn_edge_" + id + "_" + target + "_"
  }

  /** One dashed "connects" edge from the connector to each chosen node, in order. */
  function ConnectorEdges(env: Env, id: string, targets: seq<string>, c0: nat, d0: nat): (r: seq<Edge>)
    ensures |r| == |targets|
    ensures forall k :: 0 <= k < |targets| ==> r[k].from == id && r[k].to == targets[k] && r[k].dashed && r[k].caption == "connects"
  {
    seq(|targets|, k requires 0 <= k < |targets| =>
      Edge(GeneratedId(ConnectorEdgePrefix(id, targets[k]), c0 + k + 1, env.uuid(d0 + k)), id, targets[k], "connects", true))
  }

  /** The connector's edges have pairwise different ids. */
  lemma {:induction false} ConnectorEdgesDistinct(env: Env, id: string, targets: seq<string>, c0: nat, d0: nat)
    ensures CountedFrom(EdgeIds(ConnectorEdges(env, id, targets, c0, d0)), c0)
    ensures Distinct(EdgeIds(ConnectorEdges(env, id, targets, c0, d0)))
  {
    var es := ConnectorEdges(env, id, targets, c0, d0);
    forall k | 0 <= k < |es| ensures HasCounter(EdgeIds(es)[k], c0 + k + 1) {
      Minted(ConnectorEdgePrefix(id, targets[k]), c0 + k + 1, env.uuid(d0 + k));
    }
    CountedFromDistinct(EdgeIds(es), c0);
  }

  /** After the connector node is in: its edges. */
  function ConnectorLink(env: Env, s: GraphState, id: string, targets: seq<string>): (GraphState, Option<string>) {
    var es := ConnectorEdges(env, id, targets, s.counter, s.draws);
    var linked := TryAdd(s.(counter := s.counter + |targets|, draws := s.draws + |targets|), [], es);
    if !linked.1 then (Fail(linked.0, env.duplicateIdError), None)
    else (linked.0.(network := Ready), Some(id))
  }

  function ConnectorId(env: Env, st: GraphState): string {
    GeneratedId("connector_", st.counter + 1, env.uuid(st.draws))
  }

  /** The connector node and edges the connection mode asks for; `obsidianStyle` is the
      flag passed with the request. Returns the new node's id on success. */
  function ConnectorOp(env: Env, st: GraphState, caption: string, title: string, targets: seq<string>,
                       position: Option<Point>, obsidianStyle: bool): (GraphState, Option<string>)
  {
    if !Loaded(st) then (st.(error := Some("Datasets not available for adding connection node.")), None)
    else
      var s1 := Begin(st, MakingConnection);
      var id := ConnectorId(env, st);
      var added := TryAdd(s1.(counter := st.counter + 1, draws := st.draws + 1), [ConnectorNode(id, caption, title, position, obsidianStyle)], []);
      if !added.1 then (Fail(added.0, env.duplicateIdError), None)
      else ConnectorLink(env, added.0, id, targets)
  }

  lemma {:induction false} ConnectorLinkKeeps(env: Env, s: GraphState, id: string, targets: seq<string>)
    requires WellFormed(s) && Loaded(s)
    ensures var (r, res) := ConnectorLink(env, s, id, targets);
      && WellFormed(r) && Grows(s, r) && r.nodes == s.nodes
      && (res.Some? ==>
            (res.value == id && r.network == Ready
             && r.edges == s.edges + ConnectorEdges(env, id, targets, s.counter, s.draws)))
  {
    TryAddKeeps(s.(counter := s.counter + |targets|, draws := s.draws + |targets|), [],
                ConnectorEdges(env, id, targets, s.counter, s.draws));
  }

  /** Once the connector node is in, what remains is the link step. */
  lemma {:induction false} ConnectorOpSuccess(env: Env, st: GraphState, caption: string, title: string, targets: seq<string>,
                           position: Option<Point>, obsidianStyle: bool)
    requires Loaded(st)
    requires CanAdd(NodeIds(st.nodes), NodeIds([ConnectorNode(ConnectorId(env, st), caption, title, position, obsidianStyle)]))
    ensures ConnectorOp(env, st, caption, title, targets, position, obsidianStyle)
         == ConnectorLink(env, Begin(st, MakingConnection).(counter := st.counter + 1, draws := st.draws + 1,
                                                             nodes := st.nodes + [ConnectorNode(ConnectorId(env, st), caption, title, position, obsidianStyle)]),
                          ConnectorId(env, st), targets)
  {
    var node := ConnectorNode(ConnectorId(env, st), caption, title, position, obsidianStyle);
    var s2 := Begin(st, MakingConnection).(counter := st.counter + 1, draws := st.draws + 1);
    assert CanAdd(EdgeIds(s2.edges), EdgeIds([]));
    assert s2.edges + [] == s2.edges;
    assert TryAdd(s2, [node], []) == (s2.(nodes := st.nodes + [node]), true);
  }

  /** The connection node keeps the ids unique and only appends. */
  lemma {:induction false} ConnectorOpKeeps(env: Env, st: GraphState, caption: string, title: string, targets: seq<string>,
                         position: Option<Point>, obsidianStyle: bool)
    requires WellFormed(st)
    ensures var (r, res) := ConnectorOp(env, st, caption, title, targets, position, obsidianStyle);
      WellFormed(r) && Grows(st, r) && (Loaded(st) ==> (res.Some? <==> r.network == Ready))
  {
    if Loaded(st) {
      var node := ConnectorNode(ConnectorId(env, st), caption, title, position, obsidianStyle);
      var s2 := Begin(st, MakingConnection).(counter := st.counter + 1, draws := st.draws + 1);
      TryAddKeeps(s2, [node], []);
      if CanAdd(NodeIds(st.nodes), NodeIds([node])) {
        ConnectorOpSuccess(env, st, caption, title, targets, position, obsidianStyle);
        ConnectorLinkKeeps(env, s2.(nodes := st.nodes + [node]), ConnectorId(env, st), targets);
      }
    }
  }

  /** When the connector's id and its edges' ids are free, the one new node is the
      connector, labelled as asked, and there is one dashed "connects" edge from it to
      each chosen node, in order. */
  lemma {:induction false} ConnectorOpAttaches(env: Env, st: GraphState, caption: string, title: string, targets: seq<string>,
                            position: Option<Point>, obsidianStyle: bool)
    requires WellFormed(st) && Loaded(st) && ConnectorId(env, st) !in NodeIds(st.nodes)
    requires forall e :: e in ConnectorEdges(env, ConnectorId(env, st), targets, st.counter + 1, st.draws + 1) ==> e.id !in EdgeIds(st.edges)
    ensures var (r, res) := ConnectorOp(env, st, caption, title, targets, position, obsidianStyle);
      && res == Some(ConnectorId(env, st)) && r.network == Ready
      && r.nodes == st.nodes + [ConnectorNode(ConnectorId(env, st), caption, title, position, obsidianStyle)]
      && r.edges == st.edges + ConnectorEdges(env, ConnectorId(env, st), targets, st.counter + 1, st.draws + 1)
  {
    var id := ConnectorId(env, st);
    var node := ConnectorNode(id, caption, title, position, obsidianStyle);
    var s3 := Begin(st, MakingConnection).(counter := st.counter + 1, draws := st.draws + 1, nodes := st.nodes + [node]);
    var es := ConnectorEdges(env, id, targets, st.counter + 1, st.draws + 1);
    ConnectorEdgesDistinct(env, id, targets, st.counter + 1, st.draws + 1);
    forall k | 0 <= k < |es| ensures EdgeIds(es)[k] !in EdgeIds(s3.edges) {
      assert es[k] in es;
    }
    assert CanAdd(EdgeIds(s3.edges), EdgeIds(es));
    ConnectorOpSuccess(env, st, caption, title, targets, position, obsidianStyle);
  }

  // ---------------------------------------------------------------------------------
  // Freeze (lines 733-749)

  /** A node is frozen when its x axis is pinned. */
  predicate IsFrozen(n: Node) { n.fixed.FixedAxes? && n.fixed.x }

  /** `isNodeFrozen(id)` */
  predicate IsNodeFrozen(st: GraphState, id: string) {
    st.hasNodes && FindNode(st.nodes, id).Some? && IsFrozen(FindNode(st.nodes, id).value)
  }

  /** `DataSet.update` of the node with id `id`. */
  function SetFixed(nodes: seq<Node>, id: string, f: Fixed): (r: seq<Node>)
    ensures |r| == |nodes| && NodeIds(r) == NodeIds(nodes)
  {
    seq(|nodes|, k requires 0 <= k < |nodes| => if nodes[k].id == id then nodes[k].(fixed := f) else nodes[k])
  }

  function Toggled(n: Node): Fixed {
    if IsFrozen(n) then NotFixed else FixedAxes(true, true)
  }

  function FreezeOp(st: GraphState): (GraphState, Result<()>) {
    if st.selected.None? || !st.hasNodes then (st, Err("No node selected or dataset not available."))
    else
      var node := FindNode(st.nodes, st.selected.value);
      if node.None? then (st, Err("Selected node not found."))
      else (st.(nodes := SetFixed(st.nodes, node.value.id, Toggled(node.value))), Ok(()))
  }

  lemma {:induction false} IndexOfIdIs(nodes: seq<Node>, id: string, k: nat)
    requires k < |nodes| && nodes[k].id == id && forall j :: 0 <= j < k ==> nodes[j].id != id
    ensures IndexOfId(nodes, id) == k
  {
  }

  /** Updating one node leaves `get` of the same id returning the updated node. */
  lemma {:induction false} FindNodeAfterSet(nodes: seq<Node>, id: string, f: Fixed)
    requires FindNode(nodes, id).Some?
    ensures FindNode(SetFixed(nodes, id, f), id) == Some(FindNode(nodes, id).value.(fixed := f))
  {
    var k := IndexOfId(nodes, id);
    var r := SetFixed(nodes, id, f);
    forall j | 0 <= j < k ensures r[j].id != id {
      assert r[j].id == NodeIds(r)[j] == NodeIds(nodes)[j];
    }
    IndexOfIdIs(r, id, k);
  }

  /** Freezing flips whether the selected node is frozen and touches nothing else;
      doing it twice gives the node its frozen state back. It fails, changing nothing,
      when no node is selected or the selected node is not on the map. */
  lemma {:induction false} FreezeOpToggles(st: GraphState)
    requires WellFormed(st)
    ensures var (r, res) := FreezeOp(st);
      && WellFormed(r) && NodeIds(r.nodes) == NodeIds(st.nodes) && r.edges == st.edges
      && (res.Ok? <==> st.selected.Some? && st.hasNodes && FindNode(st.nodes, st.selected.value).Some?)
      && (res.Ok? ==>
            (IsNodeFrozen(r, st.selected.value) == !IsNodeFrozen(st, st.selected.value)
             && IsNodeFrozen(FreezeOp(r).0, st.selected.value) == IsNodeFrozen(st, st.selected.value)))
      && (res.Err? ==> r == st)
      && (forall k :: 0 <= k < |st.nodes| && Some(st.nodes[k].id) != st.selected ==> r.nodes[k] == st.nodes[k])
  {
    if st.selected.Some? && st.hasNodes && FindNode(st.nodes, st.selected.value).Some? {
      var id := st.selected.value;
      var n := FindNode(st.nodes, id).value;
      var r := FreezeOp(st).0;
      assert r == st.(nodes := SetFixed(st.nodes, id, Toggled(n)));
      FindNodeAfterSet(st.nodes, id, Toggled(n));
      var n2 := FindNode(r.nodes, id).value;
      assert FreezeOp(r).0 == r.(nodes := SetFixed(r.nodes, id, Toggled(n2)));
      FindNodeAfterSet(r.nodes, id, Toggled(n2));
    } else {
      assert FreezeOp(st).0 == st;
    }
  }

  // ---------------------------------------------------------------------------------
  // Descriptions (lines 750-843)

  function SetTitle(nodes: seq<Node>, id: string, title: string): (r: seq<Node>)
    ensures |r| == |nodes| && NodeIds(r) == NodeIds(nodes)
  {
    seq(|nodes|, k requires 0 <= k < |nodes| => if nodes[k].id == id then nodes[k].(title := title) else nodes[k])
  }

  /** The description loop over `targets`: `replies(k)` is the parsed answer about the
      `k`-th one (`Err` when the request or the parse threw); a blank answer is skipped. */
  function DescribeAll(nodes: seq<Node>, targets: seq<Node>, replies: nat -> Result<string>): (r: (seq<Node>, nat))
    ensures |r.0| == |nodes| && NodeIds(r.0) == NodeIds(nodes) && r.1 <= |targets|
    decreases |targets|
  {
    if targets == [] then (nodes, 0)
    else
      var k := |targets| - 1;
      var p := DescribeAll(nodes, targets[..k], replies);
      DescribeNext(p.0, p.1, targets[k], replies(k))
  }

  /** One round of the loop: a non-blank answer, trimmed, becomes the target's
      description and counts as one more update. */
  function DescribeNext(nodes: seq<Node>, n: nat, target: Node, reply: Result<string>): (r: (seq<Node>, nat))
    ensures |r.0| == |nodes| && NodeIds(r.0) == NodeIds(nodes) && r.1 <= n + 1
  {
    if reply.Ok? && Trim(reply.value) != [] then (SetTitle(nodes, target.id, Trim(reply.value)), n + 1) else (nodes, n)
  }

  /** The loop has handled the first `i` targets, leaving `nodes` and `updated`. */
  predicate DescribedUpTo(nodes0: seq<Node>, targets: seq<Node>, replies: nat -> Result<string>, i: nat,
                          nodes: seq<Node>, updated: nat)
  {
    i <= |targets| && nodes == DescribeAll(nodes0, targets[..i], replies).0 && updated == DescribeAll(nodes0, targets[..i], replies).1
  }

  lemma {:induction false} DescribedBounds(nodes0: seq<Node>, targets: seq<Node>, replies: nat -> Result<string>)
    ensures DescribedUpTo(nodes0, targets, replies, 0, nodes0, 0)
    ensures forall nodes, updated :: DescribedUpTo(nodes0, targets, replies, |targets|, nodes, updated) ==>
      nodes == DescribeAll(nodes0, targets, replies).0 && updated == DescribeAll(nodes0, targets, replies).1
  {
    assert targets[..0] == [];
    assert targets[..|targets|] == targets;
  }

  /** One more target: its answer, when not blank, fills that node's description. */
  lemma {:induction false} DescribeAllStep(nodes: seq<Node>, targets: seq<Node>, i: nat, replies: nat -> Result<string>)
    requires i < |targets|
    ensures DescribeAll(nodes, targets[..i + 1], replies)
         == DescribeNext(DescribeAll(nodes, targets[..i], replies).0, DescribeAll(nodes, targets[..i], replies).1, targets[i], replies(i))
  {
    assert targets[..i + 1][..i] == targets[..i];
  }

  function DescribeOp(st: GraphState, replies: nat -> Result<string>): (GraphState, Result<nat>) {
    if !st.hasNodes then (st, Err("Mind map data not available."))
    else
      var s1 := Begin(st, AddDescriptions);
      var targets := NodesNeedingDescription(st.nodes);
      if targets == [] then (s1.(network := Ready), Ok(0))
      else
        var (ns, n) := DescribeAll(st.nodes, targets, replies);
        (s1.(nodes := ns, network := Ready), Ok(n))
  }

  /** No whitespace at either end. */
  predicate Trimmed(s: string) { NoLeadingWhitespace(s) && NoTrailingWhitespace(s) }

  /** `cur` differs from `orig` only in titles, and only in those of nodes that needed a
      description, each now a trimmed, non-blank text. */
  predicate OnlyFilled(orig: seq<Node>, cur: seq<Node>) {
    |cur| == |orig|
    && forall k :: 0 <= k < |orig| ==>
         (cur[k] == orig[k]
          || (NeedsDescription(orig[k]) && cur[k] == orig[k].(title := cur[k].title)
              && cur[k].title != [] && Trimmed(cur[k].title)))
  }

  lemma {:induction false} SetTitleFills(orig: seq<Node>, cur: seq<Node>, t: Node, d: string)
    requires Distinct(NodeIds(orig)) && NodeIds(cur) == NodeIds(orig) && OnlyFilled(orig, cur)
    requires t in orig && NeedsDescription(t) && d != [] && Trimmed(d)
    ensures OnlyFilled(orig, SetTitle(cur, t.id, d))
  {
    var next := SetTitle(cur, t.id, d);
    var i :| 0 <= i < |orig| && orig[i] == t;
    forall k | 0 <= k < |orig|
      ensures next[k] == orig[k]
              || (NeedsDescription(orig[k]) && next[k] == orig[k].(title := next[k].title)
                  && next[k].title != [] && Trimmed(next[k].title))
    {
      if cur[k].id == t.id {
        assert NodeIds(orig)[k] == NodeIds(cur)[k] == NodeIds(orig)[i];
        assert k == i;
        assert next[k] == cur[k].(title := d);
        assert next[k] == orig[k].(title := d);
      } else {
        assert next[k] == cur[k];
      }
    }
  }

  /** The loop touches only titles, and only those of nodes that needed a description. */
  lemma {:induction false} DescribeAllOnlyFills(nodes: seq<Node>, targets: seq<Node>, replies: nat -> Result<string>)
    requires forall i :: 0 <= i < |targets| ==> NeedsDescription(targets[i]) && targets[i] in nodes
    requires Distinct(NodeIds(nodes))
    ensures OnlyFilled(nodes, DescribeAll(nodes, targets, replies).0)
    decreases |targets|
  {
    if targets == [] {
      assert DescribeAll(nodes, targets, replies).0 == nodes;
    } else {
      var k := |targets| - 1;
      var front := targets[..k];
      DescribeAllOnlyFills(nodes, front, replies);
      var ns := DescribeAll(nodes, front, replies).0;
      var r := DescribeAll(nodes, targets, replies).0;
      if replies(k).Ok? && Trim(replies(k).value) != [] {
        var d := Trim(replies(k).value);
        assert r == SetTitle(ns, targets[k].id, d);
        SetTitleFills(nodes, ns, targets[k], d);
      } else {
        assert r == ns;
      }
    }
  }

  /** Adding missing descriptions keeps every id and edge, counts at most one update
      per node that needed one, and leaves every other node as it was. */
  lemma {:induction false} DescribeOpKeeps(st: GraphState, replies: nat -> Result<string>)
    requires WellFormed(st)
    ensures var (r, res) := DescribeOp(st, replies);
      && WellFormed(r) && NodeIds(r.nodes) == NodeIds(st.nodes) && r.edges == st.edges
      && (res.Ok? <==> st.hasNodes)
      && (res.Ok? ==> res.value <= |NodesNeedingDescription(st.nodes)| && r.network == Ready)
      && OnlyFilled(st.nodes, r.nodes)
  {
    var targets := NodesNeedingDescription(st.nodes);
    if st.hasNodes && targets != [] {
      DescribeAllOnlyFills(st.nodes, targets, replies);
    }
  }

  /** `enhanceSelectedNodeDescription`: `reply` is the model's plain-text answer. The
      result is the new description, or `None` when the answer was blank. */
  function EnhanceOp(st: GraphState, reply: Result<string>): (GraphState, Result<Option<string>>) {
    if st.selected.None? || !st.hasNodes then (st, Err("No node selected or dataset not available for enhancing description."))
    else
      var found := FindNode(st.nodes, st.selected.value);
      if found.None? then (st, Err("Selected node data not found for enhancing description."))
      else EnhanceFound(st, found.value, reply)
  }

  /** Once the selected node `n` is found: the answer appended to its description. */
  function EnhanceFound(st: GraphState, n: Node, reply: Result<string>): (GraphState, Result<Option<string>>) {
    var s1 := Begin(st, EnhancingDescription);
    if reply.Err? then (Fail(s1, reply.msg), Err(reply.msg))
    else if Trim(reply.value) == [] then (s1.(network := Ready), Ok(None))
    else
      var d := Enhanced(n, reply.value);
      (s1.(nodes := SetTitle(st.nodes, n.id, d), network := Ready), Ok(Some(d)))
  }

  /** The old description (the label when there is none), a blank line, the answer. */
  function Enhanced(n: Node, text: string): string {
    OrElse(n.title, n.caption) + "\n\n" + Trim(text)
  }

  /** Updating one node's title leaves `get` of that id returning the updated node
      and every other node as it was. */
  lemma {:induction false} FindNodeAfterSetTitle(nodes: seq<Node>, id: string, d: string)
    requires FindNode(nodes, id).Some?
    ensures FindNode(SetTitle(nodes, id, d), id) == Some(FindNode(nodes, id).value.(title := d))
  {
    var k := IndexOfId(nodes, id);
    var r := SetTitle(nodes, id, d);
    forall j | 0 <= j < k ensures r[j].id != id {
      assert r[j].id == NodeIds(r)[j] == NodeIds(nodes)[j];
    }
    IndexOfIdIs(r, id, k);
  }

  /** Enhancing appends the trimmed answer to the node's old description (its label
      when it had none) after a blank line, and changes no other node; a blank answer
      changes nothing but the loading state. */
  lemma {:induction false} EnhanceOpAppends(st: GraphState, reply: Result<string>)
    requires WellFormed(st)
    ensures WellFormed(EnhanceOp(st, reply).0)
    ensures !(st.selected.Some? && st.hasNodes && FindNode(st.nodes, st.selected.value).Some?) ==>
      EnhanceOp(st, reply).0 == st && EnhanceOp(st, reply).1.Err?
    ensures st.selected.Some? && st.hasNodes && FindNode(st.nodes, st.selected.value).Some? ==>
      EnhancedAs(st, FindNode(st.nodes, st.selected.value).value, reply, EnhanceOp(st, reply).0, EnhanceOp(st, reply).1)
  {
    if st.selected.Some? && st.hasNodes && FindNode(st.nodes, st.selected.value).Some? {
      var n := FindNode(st.nodes, st.selected.value).value;
      assert EnhanceOp(st, reply) == EnhanceFound(st, n, reply);
      EnhanceFoundAppends(st, n, reply);
    } else {
      assert EnhanceOp(st, reply).0 == st;
    }
  }

  /** What enhancing node `n` leaves: the ids and edges as they were; an error exactly
      when the request failed; for a blank answer nothing changed; otherwise the new
      description is the old one (the label when there is none), a blank line and the
      trimmed answer, and it is the node's title now; every other node as it was. */
  predicate EnhancedAs(st: GraphState, n: Node, reply: Result<string>, r: GraphState, res: Result<Option<string>>) {
    && |r.nodes| == |st.nodes| && NodeIds(r.nodes) == NodeIds(st.nodes) && r.edges == st.edges
    && (res.Ok? <==> reply.Ok?)
    && (res.Ok? && res.value.None? ==> r.nodes == st.nodes && Trim(reply.value) == [])
    && (res.Ok? && res.value.Some? ==>
          res.value.value == OrElse(n.title, n.caption) + "\n\n" + Trim(reply.value) && Trim(reply.value) != []
          && FindNode(r.nodes, n.id) == Some(n.(title := res.value.value)))
    && (forall k :: 0 <= k < |st.nodes| && st.nodes[k].id != n.id ==> r.nodes[k] == st.nodes[k])
  }

  lemma {:induction false} EnhanceFoundAppends(st: GraphState, n: Node, reply: Result<string>)
    requires WellFormed(st) && FindNode(st.nodes, n.id) == Some(n)
    ensures WellFormed(EnhanceFound(st, n, reply).0)
    ensures EnhancedAs(st, n, reply, EnhanceFound(st, n, reply).0, EnhanceFound(st, n, reply).1)
  {
    if reply.Ok? && Trim(reply.value) != [] {
      var d := Enhanced(n, reply.value);
      FindNodeAfterSetTitle(st.nodes, n.id, d);
      assert d == (OrElse(n.title, n.caption) + "\n\n") + Trim(reply.value);
    }
  }

  // ---------------------------------------------------------------------------------
  // Selection (lines 1262-1289, 901-907)

  /** A click on the canvas: in connection mode the selection stays (the click goes to
      the connection list); otherwise the clicked node, or nothing, becomes selected. */
  function ClickOp(st: GraphState, clicked: Option<string>, connectionMode: bool): (r: GraphState)
    ensures connectionMode ==> r == st
    ensures !connectionMode ==> r == st.(selected := clicked)
  {
    if connectionMode then st else st.(selected := clicked)
  }

  /** `getSelectedNodeDetails`: id, label and description of the selected node. */
  function SelectedNodeDetails(st: GraphState): (r: Option<(string, string, string)>)
    ensures r.Some? <==> st.selected.Some? && st.hasNodes && st.selected.value in NodeIds(st.nodes)
    ensures r.Some? ==> r.value.0 == st.selected.value
    ensures r.Some? ==> (FindNode(st.nodes, st.selected.value).Some?
                         && var n := FindNode(st.nodes, st.selected.value).value;
                         r.value == (n.id, n.caption, n.title))
  {
    if st.selected.Some? && st.hasNodes then
      match FindNode(st.nodes, st.selected.value)
      case Some(n) => Some((n.id, n.caption, n.title))
      case None => None
    else None
  }
}
