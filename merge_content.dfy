/** Merging new content into the loaded map (ContentContainer.tsx lines 209-352): the
    parsed nodes and edges get fresh ids and are added; then, on request, each new
    top-level node is tied to the existing map where the language model suggests. */
module MergeContent {
  import opened Wrappers
  import opened Strings
  import opened MindMap
  import opened MapState

  /** The parsed connection suggestion: the label of the node to connect to (empty for
      `null`), or `RootToken`; and the relationship label. */
  datatype ConnectSuggestion = ConnectSuggestion(target: string, relationshipLabel: string)

  const RootToken: string := "ROOT_NODE"

  const InvalidMergeMessage: string := "Invalid data structure received for new content to merge."

  /** `node.value || 0` */
  function Weight(n: Node): int {
    if n.value.Some? then n.value.value else 0
  }

  /** No parsed edge ends at `id`. */
  predicate IsNewTop(edges: seq<Edge>, id: string) {
    forall k :: 0 <= k < |edges| ==> edges[k].to != id
  }

  /** Lines 253-259: the `for ... of` over the parsed edges that stops at the first one
      ending at `id`. */
  method IsNewTopLevel(edges: seq<Edge>, id: string) returns (top: bool)
    ensures top <==> IsNewTop(edges, id)
  {
    var k := 0;
    while k < |edges|
      invariant 0 <= k <= |edges|
      invariant forall j :: 0 <= j < k ==> edges[j].to != id
    {
      if edges[k].to == id {
        return false;
      }
      k := k + 1;
    }
    return true;
  }

  /** Lines 256-268: the weight of a merged node. */
  function MergeValue(env: Env, n: Node, main: bool): (r: Option<int>)
    ensures r.Some? <==> env.obsidian
    ensures env.obsidian && main ==> r.value >= 5
    ensures env.obsidian && !main ==> r == (if n.value.Some? then n.value else Some(2))
  {
    var v := if env.obsidian then (if n.value.Some? then n.value else Some(2)) else None;
    if main && env.obsidian then Some(Max(v.value, 5)) else v
  }

  function MergeGroup(main: bool, useAlternateColor: bool): string {
    if main then "main" else if useAlternateColor then "group_merged_alternate" else "group_merged_default"
  }

  function MergePrefix(id: string): (p: string)
    ensures EndsInUnderscore(p)
  {
    "merge_" + id + "_"
  }

  /** Lines 249-277: the `i`-th parsed node with its new id, group, weight and shape;
      everything else is kept. */
  function MergeNode(env: Env, md: MapData, i: nat, useAlternateColor: bool, makeNewTopNodesMain: bool, c0: nat, d0: nat): Node
    requires i < |md.nodes|
  {
    var n := md.nodes[i];
    var main := IsNewTop(md.edges, n.id) && makeNewTopNodesMain;
    n.(id := GeneratedId(MergePrefix(n.id), c0 + i + 1, env.uuid(d0 + i)),
       group := MergeGroup(main, useAlternateColor),
       value := MergeValue(env, n, main),
       shape := OrElse(n.shape, if env.obsidian then "dot" else "box"))
  }

  function MergeNodes(env: Env, md: MapData, useAlternateColor: bool, makeNewTopNodesMain: bool, c0: nat, d0: nat): (r: seq<Node>)
    ensures |r| == |md.nodes|
  {
    seq(|md.nodes|, i requires 0 <= i < |md.nodes| => MergeNode(env, md, i, useAlternateColor, makeNewTopNodesMain, c0, d0))
  }

  /** Each merged node keeps what the parsed node said, except its id, group, weight and
      shape; it is "main" exactly when no parsed edge ends at it and new top nodes are
      to be made main; its id was generated at the next counter value. */
  lemma {:induction false} MergeNodesShape(env: Env, md: MapData, useAlternateColor: bool, makeNewTopNodesMain: bool, c0: nat, d0: nat, i: nat)
    requires i < |md.nodes|
    ensures var m := MergeNodes(env, md, useAlternateColor, makeNewTopNodesMain, c0, d0)[i];
      && m.caption == md.nodes[i].caption && m.title == md.nodes[i].title
      && m.x == md.nodes[i].x && m.y == md.nodes[i].y && m.fixed == md.nodes[i].fixed
      && m.date == md.nodes[i].date && m.era == md.nodes[i].era
      && (m.group == "main" <==> IsNewTop(md.edges, md.nodes[i].id) && makeNewTopNodesMain)
      && m.shape != []
      && HasCounter(m.id, c0 + i + 1) && StartsWith(m.id, MergePrefix(md.nodes[i].id))
  {
    Minted(MergePrefix(md.nodes[i].id), c0 + i + 1, env.uuid(d0 + i));
  }

  lemma {:induction false} MergeNodesDistinct(env: Env, md: MapData, useAlternateColor: bool, makeNewTopNodesMain: bool, c0: nat, d0: nat)
    ensures CountedFrom(NodeIds(MergeNodes(env, md, useAlternateColor, makeNewTopNodesMain, c0, d0)), c0)
    ensures Distinct(NodeIds(MergeNodes(env, md, useAlternateColor, makeNewTopNodesMain, c0, d0)))
  {
    var ns := MergeNodes(env, md, useAlternateColor, makeNewTopNodesMain, c0, d0);
    forall i | 0 <= i < |ns| ensures HasCounter(NodeIds(ns)[i], c0 + i + 1) {
      Minted(MergePrefix(md.nodes[i].id), c0 + i + 1, env.uuid(d0 + i));
    }
    CountedFromDistinct(NodeIds(ns), c0);
  }

  /** `newIdMap`: each parsed id to the id generated for it; when a parsed id occurs
      twice, the later node's id wins. */
  function IdMap(olds: seq<string>, news: seq<string>): (r: map<string, string>)
    requires |olds| == |news|
    ensures forall k :: k in r <==> k in olds
    ensures forall k :: k in r ==> r[k] in news
    decreases |olds|
  {
    if olds == [] then map[]
    else
      var k := |olds| - 1;
      var m := IdMap(olds[..k], news[..k]);
      assert forall x :: x in olds[..k] ==> x in olds;
      assert forall x :: x in news[..k] ==> x in news;
      m[olds[k] := news[k]]
  }

  /** `newIdMap.set(old, new)` for one more node. */
  lemma {:induction false} IdMapSnoc(olds: seq<string>, news: seq<string>, o: string, n: string)
    requires |olds| == |news|
    ensures IdMap(olds + [o], news + [n]) == IdMap(olds, news)[o := n]
  {
    assert (olds + [o])[..|olds|] == olds;
    assert (news + [n])[..|news|] == news;
  }

  /** The map after the `i`-th parsed node is renamed to `node`. */
  lemma {:induction false} IdMapGrow(nodes: seq<Node>, i: nat, ns: seq<Node>, node: Node)
    requires i < |nodes| && |ns| == i
    ensures IdMap(NodeIds(nodes)[..i + 1], NodeIds(ns + [node])) == IdMap(NodeIds(nodes)[..i], NodeIds(ns))[nodes[i].id := node.id]
  {
    IdMapSnoc(NodeIds(nodes)[..i], NodeIds(ns), nodes[i].id, node.id);
    assert NodeIds(nodes)[..i + 1] == NodeIds(nodes)[..i] + [nodes[i].id];
    assert NodeIds(ns + [node]) == NodeIds(ns) + [node.id];
  }

  /** The first `i` parsed nodes are renamed into `ns`, and `idMap` records their ids. */
  predicate RenamedUpTo(env: Env, md: MapData, useAlternateColor: bool, makeNewTopNodesMain: bool, c0: nat, d0: nat,
                        i: nat, ns: seq<Node>, idMap: map<string, string>)
  {
    i <= |md.nodes| && ns == MergeNodes(env, md, useAlternateColor, makeNewTopNodesMain, c0, d0)[..i]
    && idMap == IdMap(NodeIds(md.nodes)[..i], NodeIds(ns))
  }

  lemma {:induction false} RenamedAll(env: Env, md: MapData, useAlternateColor: bool, makeNewTopNodesMain: bool, c0: nat, d0: nat,
                   ns: seq<Node>, idMap: map<string, string>)
    requires RenamedUpTo(env, md, useAlternateColor, makeNewTopNodesMain, c0, d0, |md.nodes|, ns, idMap)
    ensures ns == MergeNodes(env, md, useAlternateColor, makeNewTopNodesMain, c0, d0)
    ensures idMap == IdMap(NodeIds(md.nodes), NodeIds(ns))
  {
    assert NodeIds(md.nodes)[..|md.nodes|] == NodeIds(md.nodes);
  }

  /** A parsed id maps to the id generated for its last occurrence. */
  lemma {:induction false} IdMapLast(olds: seq<string>, news: seq<string>, i: nat)
    requires |olds| == |news| && i < |olds|
    requires forall j :: i < j < |olds| ==> olds[j] != olds[i]
    ensures IdMap(olds, news)[olds[i]] == news[i]
    decreases |olds|
  {
    var k := |olds| - 1;
    if i < k {
      IdMapLast(olds[..k], news[..k], i);
    }
  }

  function MergeEdgePrefix(head: string): (p: string)
    ensures EndsInUnderscore(p)
  {
    "medge_" + head + "_"
  }

  /** Lines 280-292: the parsed edges whose two ends are parsed nodes, renamed and
      re-pointed at the new ids, in order. Each takes the next counter value and one
      random suffix, and one more suffix first when it had no id. Returns the edges and
      the counter and draw count after them. */
  /** `medge_${edge.id || uuidv4().slice(0,4)}_`: an edge without an id takes the draw
      `d` for it. */
  function MergePrefixOf(env: Env, e: Edge, d: nat): (p: string)
    ensures EndsInUnderscore(p)
  {
    MergeEdgePrefix(if e.id == [] then env.uuid(d) else e.id)
  }

  function MergeEdge(env: Env, e: Edge, m: map<string, string>, c: nat, d: nat): Edge
    requires e.from in m && e.to in m
  {
    e.(id := GeneratedId(MergePrefixOf(env, e, d), c + 1, env.uuid(if e.id == [] then d + 1 else d)), from := m[e.from], to := m[e.to])
  }

  function MergeEdges(env: Env, es: seq<Edge>, m: map<string, string>, c: nat, d: nat): (r: (seq<Edge>, nat, nat))
    ensures r.1 == c + |r.0| && r.2 >= d && |r.0| <= |es|
    decreases |es|
  {
    if es == [] then ([], c, d)
    else
      var e := es[0];
      if e.from in m && e.to in m then
        var d1 := if e.id == [] then d + 1 else d;
        var rest := MergeEdges(env, es[1..], m, c + 1, d1 + 1);
        ([MergeEdge(env, e, m, c, d)] + rest.0, rest.1, rest.2)
      else
        MergeEdges(env, es[1..], m, c, d)
  }

  /** The edge at position `i` is renamed when both its ends were... */
  lemma {:induction false} MergeEdgesKeep(env: Env, es: seq<Edge>, i: nat, m: map<string, string>, c: nat, d: nat)
    requires i < |es| && es[i].from in m && es[i].to in m
    ensures var d1 := if es[i].id == [] then d + 2 else d + 1;
      MergeEdges(env, es[i..], m, c, d)
      == ([MergeEdge(env, es[i], m, c, d)] + MergeEdges(env, es[i + 1..], m, c + 1, d1).0,
          MergeEdges(env, es[i + 1..], m, c + 1, d1).1, MergeEdges(env, es[i + 1..], m, c + 1, d1).2)
  {
    assert es[i..][0] == es[i] && es[i..][1..] == es[i + 1..];
  }

  /** ... and skipped otherwise. */
  lemma {:induction false} MergeEdgesSkip(env: Env, es: seq<Edge>, i: nat, m: map<string, string>, c: nat, d: nat)
    requires i < |es| && !(es[i].from in m && es[i].to in m)
    ensures MergeEdges(env, es[i..], m, c, d) == MergeEdges(env, es[i + 1..], m, c, d)
  {
    assert es[i..][0] == es[i] && es[i..][1..] == es[i + 1..];
  }

  /** The renamed edges were generated at consecutive counter values, so their ids are
      pairwise different. */
  lemma {:induction false} MergeEdgesCounted(env: Env, es: seq<Edge>, m: map<string, string>, c: nat, d: nat)
    ensures CountedFrom(EdgeIds(MergeEdges(env, es, m, c, d).0), c)
    ensures Distinct(EdgeIds(MergeEdges(env, es, m, c, d).0))
  {
    MergeEdgesCountedFrom(env, es, m, c, d);
    CountedFromDistinct(EdgeIds(MergeEdges(env, es, m, c, d).0), c);
  }

  lemma {:induction false} MergeEdgesCountedFrom(env: Env, es: seq<Edge>, m: map<string, string>, c: nat, d: nat)
    ensures CountedFrom(EdgeIds(MergeEdges(env, es, m, c, d).0), c)
    decreases |es|
  {
    if es != [] {
      var e := es[0];
      if e.from in m && e.to in m {
        var d1 := if e.id == [] then d + 1 else d;
        var first := MergeEdge(env, e, m, c, d);
        var rest := MergeEdges(env, es[1..], m, c + 1, d1 + 1).0;
        MergeEdgesCountedFrom(env, es[1..], m, c + 1, d1 + 1);
        Minted(MergePrefixOf(env, e, d), c + 1, env.uuid(d1));
        assert MergeEdges(env, es, m, c, d).0 == [first] + rest;
        EdgeIdsCons(first, rest);
        CountedCons(first.id, EdgeIds(rest), c);
      } else {
        MergeEdgesCountedFrom(env, es[1..], m, c, d);
      }
    }
  }

  /** Each renamed edge joins two of the new ids. */
  lemma {:induction false} MergeEdgesJoinNew(env: Env, es: seq<Edge>, m: map<string, string>, c: nat, d: nat)
    ensures forall i :: 0 <= i < |MergeEdges(env, es, m, c, d).0| ==>
              MergeEdges(env, es, m, c, d).0[i].from in m.Values && MergeEdges(env, es, m, c, d).0[i].to in m.Values
    decreases |es|
  {
    if es != [] {
      var e := es[0];
      if e.from in m && e.to in m {
        var d1 := if e.id == [] then d + 1 else d;
        MergeEdgesJoinNew(env, es[1..], m, c + 1, d1 + 1);
        assert m[e.from] in m.Values && m[e.to] in m.Values;
      } else {
        MergeEdgesJoinNew(env, es[1..], m, c, d);
      }
    }
  }

  /** When every parsed edge joins two parsed nodes, none is dropped. */
  lemma {:induction false} MergeEdgesKeepAll(env: Env, es: seq<Edge>, m: map<string, string>, c: nat, d: nat)
    requires forall i :: 0 <= i < |es| ==> es[i].from in m && es[i].to in m
    ensures |MergeEdges(env, es, m, c, d).0| == |es|
    decreases |es|
  {
    if es != [] {
      var e := es[0];
      assert e.from in m && e.to in m;
      var d1 := if e.id == [] then d + 1 else d;
      assert forall i :: 1 <= i < |es| ==> es[1..][i - 1] == es[i];
      MergeEdgesKeepAll(env, es[1..], m, c + 1, d1 + 1);
    }
  }

  /** The first node of the `center` group, as an index, or -1. */
  function FirstCenter(nodes: seq<Node>): (r: int)
    ensures -1 <= r < |nodes|
    ensures r == -1 <==> forall k :: 0 <= k < |nodes| ==> nodes[k].group != "center"
    ensures r >= 0 ==> nodes[r].group == "center" && forall k :: 0 <= k < r ==> nodes[k].group != "center"
  {
    if nodes == [] then -1
    else if nodes[0].group == "center" then 0
    else
      var k := FirstCenter(nodes[1..]);
      assert forall j :: 1 <= j < |nodes| ==> nodes[j] == nodes[1..][j - 1];
      if k == -1 then -1 else k + 1
  }

  /** `reduce((prev, curr) => weight(prev) > weight(curr) ? prev : curr)`: the last node of
      greatest weight. */
  function HeaviestIndex(s: seq<Node>): (r: nat)
    requires s != []
    ensures r < |s|
    ensures forall k :: 0 <= k < |s| ==> Weight(s[k]) <= Weight(s[r])
    ensures forall k :: r < k < |s| ==> Weight(s[k]) < Weight(s[r])
  {
    if |s| == 1 then 0
    else
      var front := s[..|s| - 1];
      var p := HeaviestIndex(front);
      assert forall k :: 0 <= k < |front| ==> front[k] == s[k];
      if Weight(s[p]) > Weight(s[|s| - 1]) then p else |s| - 1
  }

  /** Line 300: the root of the map the new content is tied to: the first centre node;
      failing that, on an Obsidian-style map the last node of greatest weight, otherwise
      the first node. */
  function RootNode(env: Env, nodes: seq<Node>): (r: Option<Node>)
    ensures r.None? <==> nodes == []
    ensures r.Some? ==> r.value in nodes
    ensures FirstCenter(nodes) >= 0 ==> r == Some(nodes[FirstCenter(nodes)])
    ensures FirstCenter(nodes) == -1 && env.obsidian && r.Some? ==>
              forall k :: 0 <= k < |nodes| ==> Weight(nodes[k]) <= Weight(r.value)
    ensures FirstCenter(nodes) == -1 && !env.obsidian && r.Some? ==> r.value == nodes[0]
  {
    var c := FirstCenter(nodes);
    if c >= 0 then Some(nodes[c])
    else if nodes == [] then None
    else if env.obsidian then Some(nodes[HeaviestIndex(nodes)])
    else Some(nodes[0])
  }

  /** Lines 326-332: the id of the node a suggestion names, when it names one. */
  function ConnectTarget(all: seq<Node>, root: Option<Node>, sug: ConnectSuggestion): (r: Option<string>)
    ensures r.Some? ==> r.value != []
    ensures r.Some? && sug.target == RootToken && root.Some? ==> r.value == root.value.id
    ensures r.Some? && !(sug.target == RootToken && root.Some?) ==>
              exists n :: n in all && n.id == r.value && EqualsIgnoreCase(n.caption, sug.target)
    ensures sug.target == RootToken && root.Some? && root.value.id != [] ==> r == Some(root.value.id)
    ensures (&& !(sug.target == RootToken && root.Some?) && sug.target != []
             && FindByLabel(all, sug.target).Some? && FindByLabel(all, sug.target).value.id != [])
              ==> r == Some(FindByLabel(all, sug.target).value.id)
  {
    var t :=
      if sug.target == RootToken && root.Some? then Some(root.value.id)
      else if sug.target != [] then
        var f := FindByLabel(all, sug.target);
        if f.Some? then Some(f.value.id) else None
      else None;
    if t.Some? && t.value != [] then t else None
  }

  function ConnectEdge(env: Env, s: GraphState, top: Node, target: string, sug: ConnectSuggestion): Edge {
    Edge(GeneratedId("aiconnect_" + top.id + "_", s.counter + 1, env.uuid(s.draws)), target, top.id,
         OrElse(sug.relationshipLabel, "related"), false)
  }

  /** One new top node: `reply` is the parsed suggestion (`Err` when the request or the
      parse threw). A refused edge is dropped without an error. */
  function ConnectStep(env: Env, s: GraphState, top: Node, root: Option<Node>, all: seq<Node>, reply: Result<ConnectSuggestion>): GraphState {
    if reply.Err? then s
    else
      var t := ConnectTarget(all, root, reply.value);
      if t.None? then s
      else ConnectAdd(env, s, top, t.value, reply.value)
  }

  /** The suggested edge, with the next generated id, offered to the edge set. */
  function ConnectAdd(env: Env, s: GraphState, top: Node, target: string, sug: ConnectSuggestion): GraphState {
    TryAdd(s.(counter := s.counter + 1, draws := s.draws + 1), [], [ConnectEdge(env, s, top, target, sug)]).0
  }

  /** The loop over the new top nodes; `replies(k)` answers for the `k`-th. */
  function Reconcile(env: Env, s: GraphState, tops: seq<Node>, root: Option<Node>, all: seq<Node>, replies: nat -> Result<ConnectSuggestion>): GraphState
    decreases |tops|
  {
    if tops == [] then s
    else
      var k := |tops| - 1;
      ConnectStep(env, Reconcile(env, s, tops[..k], root, all, replies), tops[k], root, all, replies(k))
  }

  /** One more new top node: its step runs on the state the earlier ones left. */
  lemma {:induction false} ReconcileSnoc(env: Env, s: GraphState, tops: seq<Node>, i: nat, root: Option<Node>, all: seq<Node>,
                      replies: nat -> Result<ConnectSuggestion>)
    requires i < |tops|
    ensures Reconcile(env, s, tops[..i + 1], root, all, replies)
         == ConnectStep(env, Reconcile(env, s, tops[..i], root, all, replies), tops[i], root, all, replies(i))
  {
    assert tops[..i + 1][..i] == tops[..i];
  }

  /** The new nodes no new edge ends at. */
  function NewTops(ns: seq<Node>, ends: set<string>): (r: seq<Node>)
    ensures forall k :: 0 <= k < |r| ==> r[k] in ns && r[k].id !in ends
    ensures forall k :: 0 <= k < |ns| && ns[k].id !in ends ==> ns[k] in r
  {
    if ns == [] then []
    else
      assert forall k :: 1 <= k < |ns| ==> ns[k] == ns[1..][k - 1];
      if ns[0].id !in ends then [ns[0]] + NewTops(ns[1..], ends)
      else NewTops(ns[1..], ends)
  }

  /** The top nodes of a concatenation are those of each part, in order; so every new
      node no new edge ends at is tied in, in the order the nodes came. */
  lemma {:induction false} NewTopsAppend(a: seq<Node>, b: seq<Node>, ends: set<string>)
    ensures NewTops(a + b, ends) == NewTops(a, ends) + NewTops(b, ends)
    decreases |a|
  {
    if a == [] {
      assert a + b == b;
    } else {
      assert (a + b)[0] == a[0];
      assert (a + b)[1..] == a[1..] + b;
      NewTopsAppend(a[1..], b, ends);
    }
  }

  function EdgeEnds(es: seq<Edge>): set<string> {
    set k | 0 <= k < |es| :: es[k].to
  }

  /** Lines 245-292: the renamed nodes, ... */
  function RenamedNodes(env: Env, s1: GraphState, md: MapData, useAlternateColor: bool, makeNewTopNodesMain: bool): seq<Node> {
    MergeNodes(env, md, useAlternateColor, makeNewTopNodesMain, s1.counter, s1.draws)
  }

  /** ... the renamed edges and the counter and draw count after them. */
  function RenamedEdges(env: Env, s1: GraphState, md: MapData, useAlternateColor: bool, makeNewTopNodesMain: bool): (seq<Edge>, nat, nat) {
    var ns := RenamedNodes(env, s1, md, useAlternateColor, makeNewTopNodesMain);
    MergeEdges(env, md.edges, IdMap(NodeIds(md.nodes), NodeIds(ns)), s1.counter + |md.nodes|, s1.draws + |md.nodes|)
  }

  /** Lines 297-343: when asked to, and when there is something new, tie each new top
      node in. */
  function TieIn(env: Env, s4: GraphState, ns: seq<Node>, es: seq<Edge>, attemptMerge: bool, connect: nat -> Result<ConnectSuggestion>): GraphState {
    if attemptMerge && ns != [] then Reconcile(env, s4, NewTops(ns, EdgeEnds(es)), RootNode(env, s4.nodes), s4.nodes, connect) else s4
  }

  /** Lines 245-345 once the content is parsed: rename, add, then tie in. */
  /** Add the renamed nodes and edges as one batch; on success tie the new top nodes in
      and mark the map ready, otherwise fail with the duplicate-id message. */
  function AddAndTie(env: Env, s2: GraphState, ns: seq<Node>, es: seq<Edge>, attemptMerge: bool,
                     connect: nat -> Result<ConnectSuggestion>): (GraphState, Result<()>)
  {
    var added := TryAdd(s2, ns, es);
    if !added.1 then (Fail(added.0, env.duplicateIdError), Err(env.duplicateIdError))
    else (TieIn(env, added.0, ns, es, attemptMerge, connect).(network := Ready), Ok(()))
  }

  function MergeParsed(env: Env, s1: GraphState, md: MapData, useAlternateColor: bool, attemptMerge: bool,
                       makeNewTopNodesMain: bool, connect: nat -> Result<ConnectSuggestion>): (GraphState, Result<()>)
  {
    var re := RenamedEdges(env, s1, md, useAlternateColor, makeNewTopNodesMain);
    AddAndTie(env, s1.(counter := re.1, draws := re.2), RenamedNodes(env, s1, md, useAlternateColor, makeNewTopNodesMain),
              re.0, attemptMerge, connect)
  }

  /** Once the nodes and edges are renamed, what remains is adding and tying in. */
  lemma {:induction false} RenamedIs(env: Env, s1: GraphState, md: MapData, useAlternateColor: bool, makeNewTopNodesMain: bool,
                  ns: seq<Node>, idMap: map<string, string>, c1: nat, d1: nat)
    requires ns == MergeNodes(env, md, useAlternateColor, makeNewTopNodesMain, s1.counter, s1.draws)
    requires idMap == IdMap(NodeIds(md.nodes), NodeIds(ns))
    requires c1 == s1.counter + |md.nodes| && d1 == s1.draws + |md.nodes|
    ensures ns == RenamedNodes(env, s1, md, useAlternateColor, makeNewTopNodesMain)
    ensures RenamedEdges(env, s1, md, useAlternateColor, makeNewTopNodesMain) == MergeEdges(env, md.edges, idMap, c1, d1)
  {
  }

  lemma {:induction false} MergeParsedIs(env: Env, s1: GraphState, md: MapData, useAlternateColor: bool, attemptMerge: bool,
                      makeNewTopNodesMain: bool, connect: nat -> Result<ConnectSuggestion>,
                      ns: seq<Node>, es: seq<Edge>, c: nat, d: nat)
    requires ns == RenamedNodes(env, s1, md, useAlternateColor, makeNewTopNodesMain)
    requires (es, c, d) == RenamedEdges(env, s1, md, useAlternateColor, makeNewTopNodesMain)
    ensures MergeParsed(env, s1, md, useAlternateColor, attemptMerge, makeNewTopNodesMain, connect)
         == AddAndTie(env, s1.(counter := c, draws := d), ns, es, attemptMerge, connect)
  {
  }

  function MergeOp(env: Env, st: GraphState, reply: Result<Option<MapData>>, useAlternateColor: bool, attemptMerge: bool,
                   makeNewTopNodesMain: bool, connect: nat -> Result<ConnectSuggestion>): (GraphState, Result<()>)
  {
    if !Loaded(st) then (st, Err("Existing mind map data not available for merging."))
    else
      var s1 := Begin(st, MergingContent);
      match reply
      case Err(m) => (Fail(s1, m), Err(m))
      case Ok(None) => (Fail(s1, InvalidMergeMessage), Err(InvalidMergeMessage))
      case Ok(Some(md)) => MergeParsed(env, s1, md, useAlternateColor, attemptMerge, makeNewTopNodesMain, connect)
  }

  /** Every edge of `r` from position `base` on ends at one of `tos` and starts at one of
      `froms`. */
  predicate TiedFrom(r: GraphState, base: nat, tos: set<string>, froms: set<string>) {
    forall i :: base <= i < |r.edges| ==> r.edges[i].to in tos && r.edges[i].from in froms
  }

  /** Tying in one new top node adds at most one edge, which ends at that node and
      starts at a node of `all`. */
  lemma {:induction false} ConnectStepKeeps(env: Env, s: GraphState, top: Node, root: Option<Node>, all: seq<Node>, reply: Result<ConnectSuggestion>)
    requires WellFormed(s) && Loaded(s) && (root.Some? ==> root.value in all)
    ensures var r := ConnectStep(env, s, top, root, all, reply);
      && WellFormed(r) && Grows(s, r) && Loaded(r) && r.nodes == s.nodes
      && r.selected == s.selected && r.network == s.network && |r.edges| <= |s.edges| + 1
      && TiedFrom(r, |s.edges|, {top.id}, IdSet(all))
  {
    if reply.Ok? {
      var t := ConnectTarget(all, root, reply.value);
      if t.Some? {
        TargetInAll(all, root, reply.value);
        ConnectAddKeeps(env, s, top, t.value, reply.value, IdSet(all));
      }
    }
  }

  /** The suggested node is a node of `all`. */
  lemma {:induction false} TargetInAll(all: seq<Node>, root: Option<Node>, sug: ConnectSuggestion)
    requires root.Some? ==> root.value in all
    ensures ConnectTarget(all, root, sug).Some? ==> ConnectTarget(all, root, sug).value in IdSet(all)
  {
    var t := ConnectTarget(all, root, sug);
    if t.Some? {
      var n :| n in all && n.id == t.value;
      var k :| 0 <= k < |all| && all[k] == n;
      assert all[k].id in IdSet(all);
    }
  }

  /** Offering the one edge keeps the state well formed and adds at most that edge. */
  lemma {:induction false} ConnectAddKeeps(env: Env, s: GraphState, top: Node, target: string, sug: ConnectSuggestion, froms: set<string>)
    requires WellFormed(s) && Loaded(s) && target in froms
    ensures var r := ConnectAdd(env, s, top, target, sug);
      && WellFormed(r) && Grows(s, r) && Loaded(r) && r.nodes == s.nodes
      && r.selected == s.selected && r.network == s.network && |r.edges| <= |s.edges| + 1
      && TiedFrom(r, |s.edges|, {top.id}, froms)
  {
    var e := ConnectEdge(env, s, top, target, sug);
    TryAddKeeps(s.(counter := s.counter + 1, draws := s.draws + 1), [], [e]);
  }

  lemma {:induction false} ReconcileKeeps(env: Env, s: GraphState, tops: seq<Node>, root: Option<Node>, all: seq<Node>,
                                          replies: nat -> Result<ConnectSuggestion>)
    requires WellFormed(s) && Loaded(s) && (root.Some? ==> root.value in all)
    ensures var r := Reconcile(env, s, tops, root, all, replies);
      && WellFormed(r) && Grows(s, r) && Loaded(r) && r.nodes == s.nodes
      && r.selected == s.selected && r.network == s.network && |r.edges| <= |s.edges| + |tops|
      && TiedFrom(r, |s.edges|, IdSet(tops), IdSet(all))
    decreases |tops|
  {
    if tops != [] {
      var k := |tops| - 1;
      ReconcileKeeps(env, s, tops[..k], root, all, replies);
      var s1 := Reconcile(env, s, tops[..k], root, all, replies);
      ConnectStepKeeps(env, s1, tops[k], root, all, replies(k));
      var s2 := ConnectStep(env, s1, tops[k], root, all, replies(k));
      IdSetPrefix(tops, k);
      forall i | |s.edges| <= i < |s2.edges| ensures s2.edges[i].to in IdSet(tops) && s2.edges[i].from in IdSet(all) {
        if i < |s1.edges| {
          assert s2.edges[i] == s1.edges[i];
        }
      }
    }
  }

  /** The tie-in stage adds edges only: each ends at one of the new nodes and starts at a
      node of the merged map. */
  lemma {:induction false} TieInKeeps(env: Env, s4: GraphState, ns: seq<Node>, es: seq<Edge>, attemptMerge: bool, connect: nat -> Result<ConnectSuggestion>)
    requires WellFormed(s4) && Loaded(s4)
    ensures var r := TieIn(env, s4, ns, es, attemptMerge, connect);
      && WellFormed(r) && Grows(s4, r) && r.nodes == s4.nodes
      && TiedFrom(r, |s4.edges|, IdSet(ns), IdSet(s4.nodes))
      && (!attemptMerge ==> r == s4)
  {
    if attemptMerge && ns != [] {
      var tops := NewTops(ns, EdgeEnds(es));
      ReconcileKeeps(env, s4, tops, RootNode(env, s4.nodes), s4.nodes, connect);
      assert IdSet(tops) <= IdSet(ns) by {
        forall x | x in IdSet(tops) ensures x in IdSet(ns) {
          var j :| 0 <= j < |tops| && tops[j].id == x;
          var q :| 0 <= q < |ns| && ns[q] == tops[j];
        }
      }
    }
  }

  lemma {:induction false} AddAndTieKeeps(env: Env, s2: GraphState, ns: seq<Node>, es: seq<Edge>, attemptMerge: bool,
                       connect: nat -> Result<ConnectSuggestion>)
    requires WellFormed(s2) && Loaded(s2)
    ensures var (r, res) := AddAndTie(env, s2, ns, es, attemptMerge, connect);
      && WellFormed(r) && Grows(s2, r)
      && (res.Ok? <==> CanAdd(NodeIds(s2.nodes), NodeIds(ns)) && CanAdd(EdgeIds(s2.edges), EdgeIds(es)))
      && (res.Ok? ==> r.network == Ready && r.nodes == s2.nodes + ns && s2.edges + es <= r.edges)
      && (res.Err? ==> r.network == Failed && r.error == Some(res.msg))
      && (res.Ok? ==> TiedFrom(r, |s2.edges| + |es|, IdSet(ns), IdSet(r.nodes)))
      && (res.Ok? && !attemptMerge ==> r.edges == s2.edges + es)
  {
    TryAddKeeps(s2, ns, es);
    var added := TryAdd(s2, ns, es);
    if added.1 {
      TieInKeeps(env, added.0, ns, es, attemptMerge, connect);
      var r := TieIn(env, added.0, ns, es, attemptMerge, connect);
      assert r.edges[..|added.0.edges|] == added.0.edges;
    }
  }

  /** Lines 245-345 once the content is parsed: the renamed nodes go in first, then the
      renamed edges; a clash stops the add where it occurs. */
  lemma {:induction false} MergeParsedKeeps(env: Env, s1: GraphState, md: MapData, useAlternateColor: bool, attemptMerge: bool,
                         makeNewTopNodesMain: bool, connect: nat -> Result<ConnectSuggestion>)
    requires WellFormed(s1) && Loaded(s1)
    ensures var (r, res) := MergeParsed(env, s1, md, useAlternateColor, attemptMerge, makeNewTopNodesMain, connect);
      var ns := RenamedNodes(env, s1, md, useAlternateColor, makeNewTopNodesMain);
      var es := RenamedEdges(env, s1, md, useAlternateColor, makeNewTopNodesMain).0;
      && WellFormed(r) && Grows(s1, r)
      && (res.Ok? <==> CanAdd(NodeIds(s1.nodes), NodeIds(ns)) && CanAdd(EdgeIds(s1.edges), EdgeIds(es)))
      && (res.Ok? ==> r.network == Ready && r.nodes == s1.nodes + ns && s1.edges + es <= r.edges)
      && (res.Err? ==> r.network == Failed && r.error == Some(res.msg))
      && (res.Ok? ==> TiedFrom(r, |s1.edges| + |es|, IdSet(ns), IdSet(r.nodes)))
      && (res.Ok? && !attemptMerge ==> r.edges == s1.edges + es)
  {
    var re := RenamedEdges(env, s1, md, useAlternateColor, makeNewTopNodesMain);
    var s2 := s1.(counter := re.1, draws := re.2);
    AddAndTieKeeps(env, s2, RenamedNodes(env, s1, md, useAlternateColor, makeNewTopNodesMain), re.0, attemptMerge, connect);
  }

  /** Merging keeps the ids unique and only appends; without a loaded map it changes
      nothing. It succeeds exactly when the content parsed and the renamed nodes and
      edges were accepted; then the map ends ready, with the renamed nodes after the old
      ones in the parsed order. */
  lemma {:induction false} MergeOpKeeps(env: Env, st: GraphState, reply: Result<Option<MapData>>, useAlternateColor: bool, attemptMerge: bool,
                     makeNewTopNodesMain: bool, connect: nat -> Result<ConnectSuggestion>)
    requires WellFormed(st)
    ensures var (r, res) := MergeOp(env, st, reply, useAlternateColor, attemptMerge, makeNewTopNodesMain, connect);
      && WellFormed(r) && Grows(st, r)
      && (!Loaded(st) ==> r == st && res.Err?)
      && (res.Ok? ==> Loaded(st) && reply.Ok? && reply.value.Some? && r.network == Ready)
      && (res.Err? && Loaded(st) ==> r.network == Failed && r.error == Some(res.msg))
      && (res.Ok? ==>
            r.nodes == st.nodes + MergeNodes(env, reply.value.value, useAlternateColor, makeNewTopNodesMain, st.counter, st.draws))
  {
    if Loaded(st) && reply.Ok? && reply.value.Some? {
      MergeParsedKeeps(env, Begin(st, MergingContent), reply.value.value, useAlternateColor, attemptMerge, makeNewTopNodesMain, connect);
    }
  }
}
