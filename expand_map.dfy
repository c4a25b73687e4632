/** Expand Map (ContentContainer.tsx lines 645-732): every top-level node receives the
    sub-nodes the language model proposes for it, each tied to its parent by an edge. */
module ExpandMap {
  import opened Wrappers
  import opened Strings
  import opened MindMap
  import opened MapQueries
  import opened MapState

  /** `/^Node\d+$/` */
  predicate IsPlaceholder(s: string) {
    |s| > 4 && s[..4] == "Node" && forall i :: 4 <= i < |s| ==> IsDigit(s[i])
  }

  /** A prefix of a prefix is a prefix. */
  lemma {:induction false} PrefixOfPrefix(s: string, b: string, l: string)
    requires |b| <= |s| && b == s[..|b|] && |l| <= |b| && l == b[..|l|]
    ensures StartsWith(s, l)
  {
    assert s[..|l|] == s[..|b|][..|l|];
  }

  /** Lines 697-700: a placeholder label such as "Node7" gives way to the first clause of
      a description of 6 to 49 characters, when that clause is 3 to 40 characters long. */
  function ExpandLabel(d: ElaborationDetail): (r: string)
    ensures r == d.caption
         || (IsPlaceholder(d.caption) && 3 <= |r| <= 40 && StartsWith(d.title, r) && '.' !in r && ',' !in r)
  {
    if IsPlaceholder(d.caption) && 5 < |d.title| < 50 then
      var b := BeforeFirst(d.title, '.');
      var l := BeforeFirst(b, ',');
      if |l| < 3 || |l| > 40 then d.caption
      else
        PrefixOfPrefix(d.title, b, l);
        l
    else d.caption
  }

  /** The clause replaces the placeholder whenever the description has the right length
      and its first clause does too. */
  lemma {:induction false} ExpandLabelReplaces(d: ElaborationDetail)
    requires IsPlaceholder(d.caption) && 5 < |d.title| < 50
    requires 3 <= |BeforeFirst(BeforeFirst(d.title, '.'), ',')| <= 40
    ensures ExpandLabel(d) == BeforeFirst(BeforeFirst(d.title, '.'), ',')
  {
  }

  function ExpandGroup(env: Env): string {
    if env.historical then "historical_event" else "detail"
  }

  function ExpandPrefix(pid: string, i: nat): (p: string)
    ensures EndsInUnderscore(p)
  {
    "exp_" + pid + "_" + NatToString(i) + "_"
  }

  /** The id of the `i`-th sub-node of `pid`, once the counter is at `c0` and `d0` random
      suffixes are taken: each sub-node takes one of each. */
  function ExpandNodeId(env: Env, pid: string, i: nat, c0: nat, d0: nat): string {
    GeneratedId(ExpandPrefix(pid, i), c0 + i + 1, env.uuid(d0 + i))
  }

  /** The `i`-th sub-node of `p`, proposed as `d`. */
  function ExpandNode(env: Env, p: Node, d: ElaborationDetail, i: nat, c0: nat, d0: nat): (r: Node)
    ensures r.id == ExpandNodeId(env, p.id, i, c0, d0) && r.group == ExpandGroup(env)
  {
    var caption := ExpandLabel(d);
    NewNode(ExpandNodeId(env, p.id, i, c0, d0), caption, OrElse(d.title, caption), ExpandGroup(env), "",
            if env.obsidian then Some(2) else None)
  }

  /** The edge from `p` to its `i`-th sub-node. */
  function ExpandEdge(env: Env, p: Node, d: ElaborationDetail, i: nat, c0: nat, d0: nat): (r: Edge)
    ensures r.from == p.id && r.to == ExpandNodeId(env, p.id, i, c0, d0)
  {
    var to := ExpandNodeId(env, p.id, i, c0, d0);
    Edge("edge_exp_" + p.id + "_" + to, p.id, to, OrElse(d.relationshipLabel, "related"), false)
  }

  function ExpandNodes(env: Env, p: Node, items: seq<ElaborationDetail>, c0: nat, d0: nat): (r: seq<Node>)
    ensures |r| == |items|
    ensures forall i :: 0 <= i < |r| ==> r[i].group == ExpandGroup(env)
  {
    seq(|items|, i requires 0 <= i < |items| => ExpandNode(env, p, items[i], i, c0, d0))
  }

  function ExpandEdges(env: Env, p: Node, items: seq<ElaborationDetail>, c0: nat, d0: nat): (r: seq<Edge>)
    ensures |r| == |items|
    ensures forall i :: 0 <= i < |r| ==> r[i].from == p.id && r[i].to == ExpandNodeId(env, p.id, i, c0, d0)
  {
    seq(|items|, i requires 0 <= i < |items| => ExpandEdge(env, p, items[i], i, c0, d0))
  }

  /** A batch's sub-nodes have pairwise different ids, generated at consecutive counter
      values, and so do its edges. */
  lemma {:induction false} ExpandIdsDistinct(env: Env, p: Node, items: seq<ElaborationDetail>, c0: nat, d0: nat)
    ensures CountedFrom(NodeIds(ExpandNodes(env, p, items, c0, d0)), c0)
    ensures Distinct(NodeIds(ExpandNodes(env, p, items, c0, d0)))
    ensures Distinct(EdgeIds(ExpandEdges(env, p, items, c0, d0)))
  {
    var ns := ExpandNodes(env, p, items, c0, d0);
    forall i | 0 <= i < |ns| ensures HasCounter(NodeIds(ns)[i], c0 + i + 1) {
      Minted(ExpandPrefix(p.id, i), c0 + i + 1, env.uuid(d0 + i));
    }
    CountedFromDistinct(NodeIds(ns), c0);
    var es := ExpandEdges(env, p, items, c0, d0);
    forall i, j | 0 <= i < j < |es| ensures EdgeIds(es)[i] != EdgeIds(es)[j] {
      assert NodeIds(ns)[i] != NodeIds(ns)[j];
      TailDiffer("edge_exp_" + p.id + "_", NodeIds(ns)[i], NodeIds(ns)[j]);
    }
  }

  /** One parent: `reply` is the parsed answer (`Err` when the request or the parse threw,
      `None` when it is not an array). Every proposed sub-node is counted, whether or not
      the data sets accept the batch; a refused batch is dropped without an error. */
  function ExpandStep(env: Env, s: GraphState, p: Node, reply: Result<Option<seq<ElaborationDetail>>>): (GraphState, nat) {
    if reply.Err? || reply.value.None? then (s, 0)
    else ExpandBatchAdded(env, s, p, reply.value.value)
  }

  /** A parent whose answer proposes `items`: the batch, tried as one, and how many. */
  function ExpandBatchAdded(env: Env, s: GraphState, p: Node, items: seq<ElaborationDetail>): (GraphState, nat) {
    var n := |items|;
    (TryAdd(s.(counter := s.counter + n, draws := s.draws + n),
            ExpandNodes(env, p, items, s.counter, s.draws), ExpandEdges(env, p, items, s.counter, s.draws)).0, n)
  }

  /** The loop over the parents; `replies(k)` answers for the `k`-th. */
  function ExpandAll(env: Env, s: GraphState, targets: seq<Node>, replies: nat -> Result<Option<seq<ElaborationDetail>>>): (GraphState, nat)
    decreases |targets|
  {
    if targets == [] then (s, 0)
    else
      var k := |targets| - 1;
      var (s1, n) := ExpandAll(env, s, targets[..k], replies);
      var (s2, m) := ExpandStep(env, s1, targets[k], replies(k));
      (s2, n + m)
  }

  /** A parent whose answer proposes `items`. */
  lemma {:induction false} ExpandStepOf(env: Env, s: GraphState, p: Node, items: seq<ElaborationDetail>)
    ensures ExpandStep(env, s, p, Ok(Some(items))) == ExpandBatchAdded(env, s, p, items)
  {
  }

  /** One more parent: its step runs on the state the earlier ones left. */
  lemma {:induction false} ExpandAllStep(env: Env, s: GraphState, targets: seq<Node>, i: nat, replies: nat -> Result<Option<seq<ElaborationDetail>>>)
    requires i < |targets|
    ensures ExpandAll(env, s, targets[..i + 1], replies).0
         == ExpandStep(env, ExpandAll(env, s, targets[..i], replies).0, targets[i], replies(i)).0
    ensures ExpandAll(env, s, targets[..i + 1], replies).1
         == ExpandAll(env, s, targets[..i], replies).1 + ExpandStep(env, ExpandAll(env, s, targets[..i], replies).0, targets[i], replies(i)).1
  {
    assert targets[..i + 1][..i] == targets[..i];
  }

  function ExpandOp(env: Env, st: GraphState, replies: nat -> Result<Option<seq<ElaborationDetail>>>): (GraphState, Result<nat>) {
    if !Loaded(st) then (st, Err("Mind map data not available for expansion."))
    else
      var s1 := Begin(st, Expansion);
      var targets := ExpandTargets(st.nodes, st.edges);
      if targets == [] then (Fail(s1, "No suitable nodes found to expand."), Err("No suitable nodes found to expand."))
      else
        var (s2, n) := ExpandAll(env, s1, targets, replies);
        (s2.(network := Ready), Ok(n))
  }

  /** Every edge added between `s` and `r` comes from one of `parents`, and every node
      added lies in the expansion group. */
  predicate AddedUnder(s: GraphState, r: GraphState, env: Env, parents: set<string>) {
    (forall i :: |s.edges| <= i < |r.edges| ==> r.edges[i].from in parents)
    && (forall i :: |s.nodes| <= i < |r.nodes| ==> r.nodes[i].group == ExpandGroup(env))
  }

  lemma {:induction false} ExpandStepKeeps(env: Env, s: GraphState, p: Node, reply: Result<Option<seq<ElaborationDetail>>>)
    requires WellFormed(s) && Loaded(s)
    ensures var (r, n) := ExpandStep(env, s, p, reply);
      && WellFormed(r) && Grows(s, r) && Loaded(r)
      && r.counter == s.counter + n && r.selected == s.selected && r.network == s.network
      && |r.nodes| <= |s.nodes| + n
      && AddedUnder(s, r, env, {p.id})
  {
    if reply.Ok? && reply.value.Some? {
      ExpandStepOf(env, s, p, reply.value.value);
      ExpandBatchKeeps(env, s, p, reply.value.value);
    }
  }

  /** The batch of one parent, added or refused. */
  lemma {:induction false} ExpandBatchKeeps(env: Env, s: GraphState, p: Node, items: seq<ElaborationDetail>)
    requires WellFormed(s) && Loaded(s)
    ensures var r := TryAdd(s.(counter := s.counter + |items|, draws := s.draws + |items|),
                            ExpandNodes(env, p, items, s.counter, s.draws), ExpandEdges(env, p, items, s.counter, s.draws)).0;
      && WellFormed(r) && Grows(s, r) && Loaded(r)
      && r.counter == s.counter + |items| && r.selected == s.selected && r.network == s.network
      && |r.nodes| <= |s.nodes| + |items|
      && AddedUnder(s, r, env, {p.id})
  {
    var s2 := s.(counter := s.counter + |items|, draws := s.draws + |items|);
    var ns, es := ExpandNodes(env, p, items, s.counter, s.draws), ExpandEdges(env, p, items, s.counter, s.draws);
    TryAddKeeps(s2, ns, es);
    TryAddAllOrNothing(s2, ns, es);
    forall k | 0 <= k < |es| ensures es[k].from == p.id {
      assert es[k] == ExpandEdge(env, p, items[k], k, s.counter, s.draws);
    }
    forall k | 0 <= k < |ns| ensures ns[k].group == ExpandGroup(env) {
      assert ns[k] == ExpandNode(env, p, items[k], k, s.counter, s.draws);
    }
    AddedUnderBatch(env, s, TryAdd(s2, ns, es).0, ns, es, p.id);
  }

  /** A batch whose edges all leave `parent` and whose nodes all lie in the expansion
      group, added or refused as a whole, adds only such edges and nodes. */
  lemma {:induction false} AddedUnderBatch(env: Env, s: GraphState, r: GraphState, ns: seq<Node>, es: seq<Edge>, parent: string)
    requires r.nodes == s.nodes || r.nodes == s.nodes + ns
    requires r.edges == s.edges || r.edges == s.edges + es
    requires forall k :: 0 <= k < |es| ==> es[k].from == parent
    requires forall k :: 0 <= k < |ns| ==> ns[k].group == ExpandGroup(env)
    ensures AddedUnder(s, r, env, {parent})
  {
    if r.edges != s.edges {
      forall i | |s.edges| <= i < |r.edges| ensures r.edges[i].from in {parent} {
        assert r.edges[i] == es[i - |s.edges|];
      }
    }
    if r.nodes != s.nodes {
      forall i | |s.nodes| <= i < |r.nodes| ensures r.nodes[i].group == ExpandGroup(env) {
        assert r.nodes[i] == ns[i - |s.nodes|];
      }
    }
  }

  /** When none of the new ids is taken, a parent's sub-nodes and their edges are all added. */
  lemma {:induction false} ExpandStepAttaches(env: Env, s: GraphState, p: Node, items: seq<ElaborationDetail>)
    requires WellFormed(s) && Loaded(s)
    requires forall i :: 0 <= i < |items| ==> ExpandNodeId(env, p.id, i, s.counter, s.draws) !in NodeIds(s.nodes)
    requires forall e :: e in ExpandEdges(env, p, items, s.counter, s.draws) ==> e.id !in EdgeIds(s.edges)
    ensures var (r, n) := ExpandStep(env, s, p, Ok(Some(items)));
      && n == |items|
      && r.nodes == s.nodes + ExpandNodes(env, p, items, s.counter, s.draws)
      && r.edges == s.edges + ExpandEdges(env, p, items, s.counter, s.draws)
  {
    var ns, es := ExpandNodes(env, p, items, s.counter, s.draws), ExpandEdges(env, p, items, s.counter, s.draws);
    ExpandIdsDistinct(env, p, items, s.counter, s.draws);
    forall i | 0 <= i < |es| ensures EdgeIds(es)[i] !in EdgeIds(s.edges) {
      assert es[i] in es;
    }
    TryAddKeeps(s.(counter := s.counter + |items|, draws := s.draws + |items|), ns, es);
  }

  lemma {:induction false} ExpandAllKeeps(env: Env, s: GraphState, targets: seq<Node>, replies: nat -> Result<Option<seq<ElaborationDetail>>>)
    requires WellFormed(s) && Loaded(s)
    ensures var (r, n) := ExpandAll(env, s, targets, replies);
      && WellFormed(r) && Grows(s, r) && Loaded(r)
      && r.counter == s.counter + n && r.selected == s.selected && r.network == s.network
      && |r.nodes| <= |s.nodes| + n
      && AddedUnder(s, r, env, IdSet(targets))
    decreases |targets|
  {
    if targets != [] {
      var k := |targets| - 1;
      ExpandAllKeeps(env, s, targets[..k], replies);
      var (s1, n) := ExpandAll(env, s, targets[..k], replies);
      ExpandStepKeeps(env, s1, targets[k], replies(k));
      var (s2, m) := ExpandStep(env, s1, targets[k], replies(k));
      IdSetPrefix(targets, k);
      forall i | |s.edges| <= i < |s2.edges| ensures s2.edges[i].from in IdSet(targets) {
        if i < |s1.edges| {
          assert s2.edges[i] == s1.edges[i];
        }
      }
      forall i | |s.nodes| <= i < |s2.nodes| ensures s2.nodes[i].group == ExpandGroup(env) {
        if i < |s1.nodes| {
          assert s2.nodes[i] == s1.nodes[i];
        }
      }
    }
  }

  /** Expanding keeps the ids unique and only appends; before a map is loaded it changes
      nothing. It succeeds exactly when a map is loaded and has a node, ending ready and
      reporting as many sub-nodes as ids it generated; every edge it adds comes from one
      of the parents it chose, and every node it adds lies in the expansion group. */
  lemma {:induction false} ExpandOpKeeps(env: Env, st: GraphState, replies: nat -> Result<Option<seq<ElaborationDetail>>>)
    requires WellFormed(st)
    ensures var (r, res) := ExpandOp(env, st, replies);
      && WellFormed(r) && Grows(st, r)
      && (!Loaded(st) ==> r == st && res.Err?)
      && (res.Ok? <==> Loaded(st) && st.nodes != [])
      && (res.Ok? ==>
            (r.network == Ready && r.counter == st.counter + res.value && |r.nodes| <= |st.nodes| + res.value
             && AddedUnder(st, r, env, IdSet(ExpandTargets(st.nodes, st.edges)))))
  {
    if Loaded(st) {
      ExpandTargetsAreTopLevel(st.nodes, st.edges);
      var targets := ExpandTargets(st.nodes, st.edges);
      if targets != [] {
        ExpandAllKeeps(env, Begin(st, Expansion), targets, replies);
      }
    }
  }
}
