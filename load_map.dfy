/** Loading a map (`initializeOrLoadMindMap`, ContentContainer.tsx lines 921-1057): the
    component forgets its graph, then installs either the preloaded map or the one the
    language model generates, after giving every node an id, a label and a weight and,
    on a historical map, a date and a place on the timeline. */
module LoadMap {
  import opened Wrappers
  import opened Strings
  import opened MindMap
  import opened MapState
  import Historical
  import ExpandMap

  /** The source props: none (no identifier or no type), a URL, or an uploaded
      transcript with the text read from it. */
  datatype Source = NoSource | UrlSource | TranscriptSource(content: string)

  const MissingContentMessage: string := "Invalid source type or missing content for mind map generation."
  const InvalidStructureMessage: string := "Invalid mind map data structure."

  // ---------------------------------------------------------------------------------
  // The number in a supplied id (lines 944, 995)

  /** `s.replace(/^\D+/g, '')`: `s` without the non-digits it starts with. */
  function DropNonDigits(s: string): (r: string)
    ensures |r| <= |s| && r == s[|s| - |r|..]
    ensures r == [] || IsDigit(r[0])
    ensures forall k :: 0 <= k < |s| - |r| ==> !IsDigit(s[k])
  {
    if s == [] || IsDigit(s[0]) then s else DropNonDigits(s[1..])
  }

  /** The digits `s` starts with. */
  function DigitRun(s: string): (r: string)
    ensures |r| <= |s| && r == s[..|r|]
    ensures forall k :: 0 <= k < |r| ==> IsDigit(r[k])
    ensures |r| < |s| ==> !IsDigit(s[|r|])
  {
    if s != [] && IsDigit(s[0]) then [s[0]] + DigitRun(s[1..]) else []
  }

  /** `parseInt(id.replace(/^\D+/g, ''), 10) || 0`: the first run of digits in `id`, or 0
      when there is none. */
  function LeadingNumber(id: string): nat {
    DigitsValue(DigitRun(DropNonDigits(id)))
  }

  /** An id made of a digit-free head, a number and a tail that does not start with a
      digit gives back that number, as the ids `generateNewNodeId("node_")` returns do. */
  lemma {:induction false} LeadingNumberOf(head: string, n: nat, tail: string)
    requires forall k :: 0 <= k < |head| ==> !IsDigit(head[k])
    requires tail == [] || !IsDigit(tail[0])
    ensures LeadingNumber(head + NatToString(n) + tail) == n
  {
    var d := NatToString(n);
    var s := head + d + tail;
    assert s == head + (d + tail);
    assert IsDigit((d + tail)[0]);
    DropNonDigitsSkips(head, d + tail);
    DigitRunStops(d, tail);
    assert DigitRun(DropNonDigits(s)) == d;
    DigitsValueOfNatToString(n);
  }

  lemma {:induction false} DropNonDigitsSkips(head: string, rest: string)
    requires forall k :: 0 <= k < |head| ==> !IsDigit(head[k])
    requires rest != [] && IsDigit(rest[0])
    ensures DropNonDigits(head + rest) == rest
  {
    if head != [] {
      assert (head + rest)[1..] == head[1..] + rest;
      DropNonDigitsSkips(head[1..], rest);
    }
  }

  lemma {:induction false} DigitRunStops(d: string, tail: string)
    requires forall k :: 0 <= k < |d| ==> IsDigit(d[k])
    requires tail == [] || !IsDigit(tail[0])
    ensures DigitRun(d + tail) == d
  {
    if d != [] {
      assert (d + tail)[1..] == d[1..] + tail;
      DigitRunStops(d[1..], tail);
    } else {
      assert d + tail == tail;
    }
  }

  // ---------------------------------------------------------------------------------
  // Normalising one node (lines 941-947, 993-998)

  /** The weight a loaded node gets: in Obsidian style its own number or 3, raised to at
      least 10 for the centre; otherwise none. */
  function LoadValue(env: Env, n: Node): (r: Option<int>)
    ensures env.obsidian <==> r.Some?
    ensures env.obsidian && n.group != "center" ==> r == (if n.value.Some? then n.value else Some(3))
    ensures env.obsidian && n.group == "center" ==> r.value >= 10
    ensures env.obsidian && n.value.Some? ==> r.value >= n.value.value
    ensures env.obsidian && n.group == "center" && n.value.Some? && n.value.value >= 10 ==> r == n.value
  {
    var v := if env.obsidian then (if n.value.Some? then n.value else Some(3)) else None;
    if n.group == "center" && env.obsidian then Some(Max(v.value, 10)) else v
  }

  /** The prefix of the id generated for the `i`-th node without one. */
  function NodeIdPrefix(prefix: string, i: nat): (p: string)
    ensures EndsInUnderscore(p) && StartsWith(p, prefix)
  {
    prefix + NatToString(i) + "_"
  }

  /** The `i`-th node of the map once the counter is at `c` and `d` random suffixes are
      taken: a node without an id gets a generated one, which raises the counter by one;
      a supplied id raises the counter to its leading number. The label falls back to
      "Node <id>"; nothing else changes but the weight. */
  function NormalizeNode(env: Env, n: Node, prefix: string, i: nat, c: nat, d: nat): (r: (Node, nat, nat))
    ensures r.0.id != [] && r.0.caption != []
    ensures r.0 == n.(id := r.0.id, caption := r.0.caption, value := LoadValue(env, n))
    ensures n.caption != [] ==> r.0.caption == n.caption
    ensures n.caption == [] ==> r.0.caption == "Node " + r.0.id
    ensures n.id != [] ==> r.0.id == n.id && r.1 >= c && r.1 >= LeadingNumber(n.id) && r.2 == d
    ensures n.id != [] ==> r.1 == c || r.1 == LeadingNumber(n.id)
    ensures n.id == [] ==> r.0.id == GeneratedId(NodeIdPrefix(prefix, i), c + 1, env.uuid(d)) && r.1 == c + 1 && r.2 == d + 1
  {
    if n.id != [] then
      (n.(caption := OrElse(n.caption, "Node " + n.id), value := LoadValue(env, n)), Max(c, LeadingNumber(n.id)), d)
    else
      var id := GeneratedId(NodeIdPrefix(prefix, i), c + 1, env.uuid(d));
      (n.(id := id, caption := OrElse(n.caption, "Node " + id), value := LoadValue(env, n)), c + 1, d + 1)
  }

  /** What every node holds after loading: an id, a label, and in Obsidian style a weight,
      at least 10 for the centre; without Obsidian style no weight. */
  predicate Normalized(env: Env, n: Node) {
    n.id != [] && n.caption != []
    && (env.obsidian ==> n.value.Some? && (n.group == "center" ==> n.value.value >= 10))
    && (!env.obsidian ==> n.value.None?)
  }

  // ---------------------------------------------------------------------------------
  // Normalising all nodes, with the counter carried from node to node

  /** `nodes.map(...)` with the counter and the random draws threaded through, in order. */
  function NormalizeNodes(env: Env, nodes: seq<Node>, prefix: string, c: nat, d: nat): (r: (seq<Node>, nat, nat))
    ensures |r.0| == |nodes| && r.1 >= c && r.2 >= d
    decreases |nodes|
  {
    if nodes == [] then ([], c, d)
    else
      var p := NormalizeNodes(env, nodes[..|nodes| - 1], prefix, c, d);
      var q := NormalizeNode(env, nodes[|nodes| - 1], prefix, |nodes| - 1, p.1, p.2);
      (p.0 + [q.0], q.1, q.2)
  }

  /** Normalising a prefix gives a prefix of the result. */
  lemma {:induction false} NormalizePrefix(env: Env, nodes: seq<Node>, prefix: string, c: nat, d: nat, i: nat)
    requires i <= |nodes|
    ensures NormalizeNodes(env, nodes, prefix, c, d).0[..i] == NormalizeNodes(env, nodes[..i], prefix, c, d).0
    decreases |nodes| - i
  {
    if i < |nodes| {
      NormalizePrefix(env, nodes, prefix, c, d, i + 1);
      var t := nodes[..i + 1];
      NormalizeDropLast(env, t, prefix, c, d);
      assert t[..|t| - 1] == nodes[..i];
      var full := NormalizeNodes(env, nodes, prefix, c, d).0;
      var part := NormalizeNodes(env, t, prefix, c, d).0;
      assert full[..i + 1] == part;
      assert full[..i] == part[..i];
    } else {
      assert nodes[..i] == nodes;
    }
  }

  lemma {:induction false} NormalizeDropLast(env: Env, nodes: seq<Node>, prefix: string, c: nat, d: nat)
    requires nodes != []
    ensures NormalizeNodes(env, nodes, prefix, c, d).0[..|nodes| - 1] == NormalizeNodes(env, nodes[..|nodes| - 1], prefix, c, d).0
  {
    var p := NormalizeNodes(env, nodes[..|nodes| - 1], prefix, c, d);
    var q := NormalizeNode(env, nodes[|nodes| - 1], prefix, |nodes| - 1, p.1, p.2);
    assert (p.0 + [q.0])[..|nodes| - 1] == p.0;
  }

  /** One more node: it is normalised with what its predecessors left. */
  lemma {:induction false} NormalizeSnoc(env: Env, nodes: seq<Node>, prefix: string, c: nat, d: nat, i: nat)
    requires i < |nodes|
    ensures var p := NormalizeNodes(env, nodes[..i], prefix, c, d);
      NormalizeNodes(env, nodes[..i + 1], prefix, c, d)
      == (p.0 + [NormalizeNode(env, nodes[i], prefix, i, p.1, p.2).0],
          NormalizeNode(env, nodes[i], prefix, i, p.1, p.2).1, NormalizeNode(env, nodes[i], prefix, i, p.1, p.2).2)
  {
    assert nodes[..i + 1][..i] == nodes[..i];
  }

  /** The `i`-th node is normalised with the counter and draws its predecessors left. */
  lemma {:induction false} NormalizeAt(env: Env, nodes: seq<Node>, prefix: string, c: nat, d: nat, i: nat)
    requires i < |nodes|
    ensures var p := NormalizeNodes(env, nodes[..i], prefix, c, d);
      NormalizeNodes(env, nodes, prefix, c, d).0[i] == NormalizeNode(env, nodes[i], prefix, i, p.1, p.2).0
    ensures var p := NormalizeNodes(env, nodes[..i], prefix, c, d);
      NormalizeNodes(env, nodes[..i + 1], prefix, c, d).1 == NormalizeNode(env, nodes[i], prefix, i, p.1, p.2).1
  {
    var p := NormalizeNodes(env, nodes[..i], prefix, c, d);
    var q := NormalizeNode(env, nodes[i], prefix, i, p.1, p.2);
    NormalizeSnoc(env, nodes, prefix, c, d, i);
    NormalizePrefix(env, nodes, prefix, c, d, i + 1);
    var r := NormalizeNodes(env, nodes, prefix, c, d).0;
    assert r[..i + 1] == p.0 + [q.0];
    assert r[i] == r[..i + 1][i];
  }

  lemma {:induction false} NormalizeStep(env: Env, nodes: seq<Node>, prefix: string, c: nat, d: nat)
    requires nodes != []
    ensures NormalizeNodes(env, nodes[..|nodes| - 1], prefix, c, d).1 <= NormalizeNodes(env, nodes, prefix, c, d).1
  {
    var p := NormalizeNodes(env, nodes[..|nodes| - 1], prefix, c, d);
    var q := NormalizeNode(env, nodes[|nodes| - 1], prefix, |nodes| - 1, p.1, p.2);
    assert q.1 >= p.1;
  }

  /** The counter never goes back from one node to the next. */
  lemma {:induction false} NormalizeCounterGrows(env: Env, nodes: seq<Node>, prefix: string, c: nat, d: nat, i: nat, j: nat)
    requires i <= j <= |nodes|
    ensures NormalizeNodes(env, nodes[..i], prefix, c, d).1 <= NormalizeNodes(env, nodes[..j], prefix, c, d).1
    decreases j - i
  {
    if i < j {
      NormalizeCounterGrows(env, nodes, prefix, c, d, i, j - 1);
      var s, t := nodes[..j], nodes[..j - 1];
      assert s[..|s| - 1] == t;
      NormalizeStep(env, s, prefix, c, d);
      assert NormalizeNodes(env, t, prefix, c, d).1 <= NormalizeNodes(env, s, prefix, c, d).1;
    } else {
      assert nodes[..i] == nodes[..j];
    }
  }

  /** After normalising, the `i`-th node has an id, a label and the right weight; a
      supplied id is kept and the counter ends at least at its leading number; a missing
      id is generated from the node's position. */
  lemma {:induction false} NormalizeNodesAt(env: Env, nodes: seq<Node>, prefix: string, c: nat, d: nat, i: nat)
    requires i < |nodes|
    ensures var r := NormalizeNodes(env, nodes, prefix, c, d);
      && Normalized(env, r.0[i])
      && (nodes[i].id != [] ==> r.0[i].id == nodes[i].id && LeadingNumber(nodes[i].id) <= r.1)
      && (nodes[i].id == [] ==> StartsWith(r.0[i].id, NodeIdPrefix(prefix, i)))
  {
    NormalizeAt(env, nodes, prefix, c, d, i);
    NormalizeCounterGrows(env, nodes, prefix, c, d, i + 1, |nodes|);
    assert nodes[..|nodes|] == nodes;
  }

  lemma {:induction false} NormalizeNodesShape(env: Env, nodes: seq<Node>, prefix: string, c: nat, d: nat)
    ensures forall i :: 0 <= i < |nodes| ==> Normalized(env, NormalizeNodes(env, nodes, prefix, c, d).0[i])
    ensures forall i :: 0 <= i < |nodes| && nodes[i].id != [] ==>
      NormalizeNodes(env, nodes, prefix, c, d).0[i].id == nodes[i].id
      && LeadingNumber(nodes[i].id) <= NormalizeNodes(env, nodes, prefix, c, d).1
  {
    forall i | 0 <= i < |nodes|
      ensures Normalized(env, NormalizeNodes(env, nodes, prefix, c, d).0[i])
      ensures nodes[i].id != [] ==>
        NormalizeNodes(env, nodes, prefix, c, d).0[i].id == nodes[i].id
        && LeadingNumber(nodes[i].id) <= NormalizeNodes(env, nodes, prefix, c, d).1
    {
      NormalizeNodesAt(env, nodes, prefix, c, d, i);
    }
  }

  /** Ids generated for two different nodes differ: each took a higher counter. */
  lemma {:induction false} NormalizeGeneratedDistinct(env: Env, nodes: seq<Node>, prefix: string, c: nat, d: nat, i: nat, j: nat)
    requires i < j < |nodes| && nodes[i].id == [] && nodes[j].id == []
    ensures NormalizeNodes(env, nodes, prefix, c, d).0[i].id != NormalizeNodes(env, nodes, prefix, c, d).0[j].id
  {
    var a, s := NormalizeGeneratedAt(env, nodes, prefix, c, d, i);
    var b, t := NormalizeGeneratedAt(env, nodes, prefix, c, d, j);
    NormalizeCounterGrows(env, nodes, prefix, c, d, i + 1, j);
    GeneratedIdsDiffer(NodeIdPrefix(prefix, i), NodeIdPrefix(prefix, j), a, b, s, t);
  }

  /** A node without an id gets one generated at the counter value after the one its
      predecessors left. */
  lemma {:induction false} NormalizeGeneratedAt(env: Env, nodes: seq<Node>, prefix: string, c: nat, d: nat, i: nat) returns (n: nat, sfx: Suffix)
    requires i < |nodes| && nodes[i].id == []
    ensures NormalizeNodes(env, nodes, prefix, c, d).0[i].id == GeneratedId(NodeIdPrefix(prefix, i), n, sfx)
    ensures n == NormalizeNodes(env, nodes[..i], prefix, c, d).1 + 1 && n == NormalizeNodes(env, nodes[..i + 1], prefix, c, d).1
  {
    var p := NormalizeNodes(env, nodes[..i], prefix, c, d);
    NormalizeAt(env, nodes, prefix, c, d, i);
    n, sfx := p.1 + 1, env.uuid(p.2);
  }

  // ---------------------------------------------------------------------------------
  // Edges (lines 949, 1053)

  /** Every edge keeps its ends; one without an id is named after its position. The ends
      are not checked against the nodes. */
  function LoadEdges(edges: seq<Edge>, prefix: string): (r: seq<Edge>)
    ensures |r| == |edges|
    ensures forall i :: 0 <= i < |r| ==> r[i] == edges[i].(id := r[i].id) && r[i].id != []
    ensures forall i :: 0 <= i < |r| && edges[i].id != [] ==> r[i].id == edges[i].id
    ensures forall i :: 0 <= i < |r| && edges[i].id == [] ==> r[i].id == prefix + NatToString(i) + "_"
  {
    seq(|edges|, i requires 0 <= i < |edges| => edges[i].(id := OrElse(edges[i].id, prefix + NatToString(i) + "_")))
  }

  /** Edges named after their positions get different names. */
  lemma {:induction false} LoadEdgeIdsDiffer(edges: seq<Edge>, prefix: string, i: nat, j: nat)
    requires i < j < |edges| && edges[i].id == [] && edges[j].id == []
    ensures LoadEdges(edges, prefix)[i].id != LoadEdges(edges, prefix)[j].id
  {
    if NatToString(i) + "_" == NatToString(j) + "_" {
      assert NatToString(i) == (NatToString(i) + "_")[..|NatToString(i)|];
      assert NatToString(j) == (NatToString(j) + "_")[..|NatToString(j)|];
      NatToStringInjective(i, j);
    }
    assert prefix + NatToString(i) + "_" == prefix + (NatToString(i) + "_");
    assert prefix + NatToString(j) + "_" == prefix + (NatToString(j) + "_");
    if NatToString(i) + "_" != NatToString(j) + "_" {
      TailDiffer(prefix, NatToString(i) + "_", NatToString(j) + "_");
    }
  }

  // ---------------------------------------------------------------------------------
  // A generated map: placeholder labels, dates and the timeline (lines 985-1050)

  /** Lines 985-991: a placeholder label such as "Node7" gives way to the first clause of
      a description of 6 to 49 characters, trimmed, when that is 4 to 39 characters long. */
  function InitialLabel(n: Node): (r: string)
    ensures r == n.caption
         || (ExpandMap.IsPlaceholder(n.caption) && 3 < |r| < 40 && Trimmed(r) && Within(r, n.title)
             && '.' !in r && ',' !in r)
  {
    if ExpandMap.IsPlaceholder(n.caption) && 5 < |n.title| < 50 then
      var b := BeforeFirst(n.title, '.');
      var l := Trim(BeforeFirst(b, ','));
      if |l| > 3 && |l| < 40 then
        FirstClauseWithin(n.title);
        l
      else n.caption
    else n.caption
  }

  /** `r` occurs in `t`. */
  ghost predicate Within(r: string, t: string) {
    exists k :: OccursAt(r, t, k)
  }

  predicate OccursAt(r: string, t: string, k: int) {
    0 <= k <= |t| - |r| && t[k..k + |r|] == r
  }

  /** The trimmed first clause occurs in the text and holds no full stop or comma. */
  lemma {:induction false} FirstClauseWithin(t: string)
    ensures var l := Trim(BeforeFirst(BeforeFirst(t, '.'), ','));
      Within(l, t) && '.' !in l && ',' !in l
  {
    var b := BeforeFirst(t, '.');
    var a := BeforeFirst(b, ',');
    ExpandMap.PrefixOfPrefix(t, b, a);
    TrimmedWithin(t, a);
    var l := Trim(a);
    var k := |a| - |TrimStart(a)|;
    forall q | 0 <= q < |l| ensures l[q] != '.' && l[q] != ',' {
      assert l[q] == a[k..k + |l|][q] == a[k + q];
      assert a[k + q] == b[..|a|][k + q] == b[k + q];
    }
  }

  /** Trimming a prefix of `t` leaves text that occurs in `t`, and in the prefix. */
  lemma {:induction false} TrimmedWithin(t: string, a: string)
    requires StartsWith(t, a)
    ensures OccursAt(Trim(a), a, |a| - |TrimStart(a)|) && Within(Trim(a), t)
  {
    var s := TrimStart(a);
    var l := TrimEnd(s);
    OccursInPrefix(t, a, s, l);
    assert Trim(a) == l;
  }

  /** A prefix of a suffix of a prefix of `t` occurs in `t` where the suffix starts. */
  lemma {:induction false} OccursInPrefix(t: string, a: string, s: string, l: string)
    requires StartsWith(t, a) && |s| <= |a| && s == a[|a| - |s|..] && |l| <= |s| && l == s[..|l|]
    ensures OccursAt(l, a, |a| - |s|) && OccursAt(l, t, |a| - |s|)
  {
    var k := |a| - |s|;
    assert a[k..k + |l|] == s[..|l|];
    assert a == t[..|a|];
    assert t[..|a|][k..k + |l|] == t[k..k + |l|];
  }

  /** Lines 997-1012 on a historical map: no group becomes "historical_event", and a date
      of an accepted shape becomes the node's day. */
  function HistoricalNode(n: Node): (r: Node)
    ensures r == n.(group := r.group, parsedDate := r.parsedDate)
    ensures r.group == OrElse(n.group, "historical_event")
    ensures Historical.ParseDate(n.date).Some? ==> r.parsedDate == Historical.ParseDate(n.date)
    ensures Historical.ParseDate(n.date).None? ==> r.parsedDate == n.parsedDate
  {
    var day := Historical.ParseDate(n.date);
    n.(group := OrElse(n.group, "historical_event"), parsedDate := if day.Some? then day else n.parsedDate)
  }

  /** Lines 1024-1049: once any node is dated, every node is pinned on both axes. */
  function Pinned(nodes: seq<Node>): (r: seq<Node>)
    ensures |r| == |nodes|
    ensures forall i :: 0 <= i < |r| ==> r[i] == nodes[i].(fixed := FixedAxes(true, true))
  {
    seq(|nodes|, i requires 0 <= i < |nodes| => nodes[i].(fixed := FixedAxes(true, true)))
  }

  /** Lines 1014-1050: dated nodes first by day, then the undated ones, all pinned when
      any is dated. */
  function Timeline(nodes: seq<Node>): seq<Node> {
    var c := Historical.Chronological(nodes);
    if Historical.DatedNodes(nodes) != [] then Pinned(c) else c
  }

  /** With no dated node the timeline is the nodes as they were. */
  lemma {:induction false} UndatedKeepsAll(nodes: seq<Node>)
    requires forall k :: 0 <= k < |nodes| ==> !Historical.Dated(nodes[k])
    ensures Historical.UndatedNodes(nodes) == nodes
  {
    if nodes != [] {
      UndatedKeepsAll(nodes[1..]);
    }
  }

  lemma {:induction false} NoDatedMeansNone(nodes: seq<Node>)
    requires Historical.DatedNodes(nodes) == []
    ensures forall k :: 0 <= k < |nodes| ==> !Historical.Dated(nodes[k])
  {
    if nodes != [] {
      NoDatedMeansNone(nodes[1..]);
      forall k | 1 <= k < |nodes| ensures !Historical.Dated(nodes[k]) {
        assert nodes[k] == nodes[1..][k - 1];
      }
    }
  }

  /** The timeline holds as many nodes as it was given: with no date it is the nodes
      unchanged, otherwise every node is pinned and the order is the chronological one. */
  lemma {:induction false} TimelineShape(nodes: seq<Node>)
    ensures |Timeline(nodes)| == |nodes|
    ensures Historical.DatedNodes(nodes) == [] ==> Timeline(nodes) == nodes
    ensures Historical.DatedNodes(nodes) != [] ==>
      forall i :: 0 <= i < |nodes| ==> Timeline(nodes)[i] == Historical.Chronological(nodes)[i].(fixed := FixedAxes(true, true))
  {
    Historical.ChronologicalOrder(nodes, 0);
    if Historical.DatedNodes(nodes) == [] {
      NoDatedMeansNone(nodes);
      UndatedKeepsAll(nodes);
      assert Historical.Chronological(nodes) == nodes;
    }
  }

  /** `x` is one of `nodes`, pinned or not. */
  ghost predicate PinnedOrNot(x: Node, nodes: seq<Node>) {
    exists j :: 0 <= j < |nodes| && (x == nodes[j] || x == nodes[j].(fixed := FixedAxes(true, true)))
  }

  /** Every node of the timeline is one of the given nodes, pinned or not. */
  lemma {:induction false} TimelineFrom(nodes: seq<Node>)
    ensures forall i :: 0 <= i < |Timeline(nodes)| ==> PinnedOrNot(Timeline(nodes)[i], nodes)
  {
    forall i | 0 <= i < |Timeline(nodes)| ensures PinnedOrNot(Timeline(nodes)[i], nodes) {
      var j := TimelineSource(nodes, i);
    }
  }

  /** Where the `i`-th node of the timeline comes from. */
  lemma {:induction false} TimelineSource(nodes: seq<Node>, i: nat) returns (j: nat)
    requires i < |Timeline(nodes)|
    ensures j < |nodes| && (Timeline(nodes)[i] == nodes[j] || Timeline(nodes)[i] == nodes[j].(fixed := FixedAxes(true, true)))
  {
    var c := Historical.Chronological(nodes);
    Historical.ChronologicalOrder(nodes, 0);
    j := IndexOfElement(nodes, c[i]);
  }

  /** An element of the multiset of `s` sits at some index of `s`. */
  lemma {:induction false} IndexOfElement(s: seq<Node>, x: Node) returns (j: nat)
    requires x in multiset(s)
    ensures j < |s| && s[j] == x
  {
    j :| 0 <= j < |s| && s[j] == x;
  }

  // ---------------------------------------------------------------------------------
  // Installing the data sets and the whole load

  /** Forget the graph: no data sets, no selection, no error, the counter back at 0. */
  function Reset(st: GraphState): (r: GraphState)
    ensures !r.hasNodes && !r.hasEdges && r.nodes == [] && r.edges == []
    ensures r.selected == None && r.error == None && r.counter == 0
    ensures r.draws == st.draws && r.network == st.network && r.loadingType == st.loadingType
  {
    st.(hasNodes := false, hasEdges := false, nodes := [], edges := [], selected := None, error := None, counter := 0)
  }

  /** `new DataSet(nodes)`, then `new DataSet(edges)`: either refuses repeated ids and
      throws, so the node data set is stored only when its own ids are unique and the
      edge data set only when both are. */
  function Install(env: Env, st: GraphState, ns: seq<Node>, es: seq<Edge>): GraphState {
    if !Distinct(NodeIds(ns)) then Fail(st, env.duplicateIdError)
    else if !Distinct(EdgeIds(es)) then Fail(st.(hasNodes := true, nodes := ns), env.duplicateIdError)
    else st.(hasNodes := true, hasEdges := true, nodes := ns, edges := es, network := Ready)
  }

  /** Lines 936-960: the preloaded map, without asking the model. */
  function PreloadNodes(env: Env, st: GraphState, md: MapData): (seq<Node>, nat, nat) {
    NormalizeNodes(env, md.nodes, "node_preloaded_", st.counter, st.draws)
  }

  function PreloadOp(env: Env, st: GraphState, md: MapData): GraphState {
    var p := PreloadNodes(env, st, md);
    Install(env, st.(counter := p.1, draws := p.2), p.0, LoadEdges(md.edges, "edge_preloaded_"))
  }

  /** Lines 985-1054: the generated map, relabelled, normalised and, on a historical map,
      dated and laid out on the timeline. */
  function GenerateNodes(env: Env, st: GraphState, md: MapData): (seq<Node>, nat, nat) {
    var p := NormalizeNodes(env, Relabelled(md.nodes), "node_init_", st.counter, st.draws);
    if env.historical then (Timeline(HistoricalNodes(p.0)), p.1, p.2) else p
  }

  /** Lines 985-991 over the whole reply. */
  function Relabelled(nodes: seq<Node>): (r: seq<Node>)
    ensures |r| == |nodes|
    ensures forall i :: 0 <= i < |r| ==> r[i] == nodes[i].(caption := InitialLabel(nodes[i]))
  {
    seq(|nodes|, i requires 0 <= i < |nodes| => nodes[i].(caption := InitialLabel(nodes[i])))
  }

  function HistoricalNodes(nodes: seq<Node>): (r: seq<Node>)
    ensures |r| == |nodes|
    ensures forall i :: 0 <= i < |r| ==> r[i] == HistoricalNode(nodes[i])
  {
    seq(|nodes|, i requires 0 <= i < |nodes| => HistoricalNode(nodes[i]))
  }

  function GenerateOp(env: Env, st: GraphState, md: MapData): GraphState {
    var p := GenerateNodes(env, st, md);
    Install(env, st.(counter := p.1, draws := p.2), p.0, LoadEdges(md.edges, "edge_init_"))
  }

  /** The whole load. `preloaded` is the map handed in, if any; `reply` is what the model
      returned for the prompt, already parsed (`Ok(None)` when it is not a map). */
  function LoadOp(env: Env, st: GraphState, source: Source, preloaded: Option<MapData>,
                  reply: Result<Option<MapData>>): GraphState
  {
    var s0 := Reset(st);
    if source.NoSource? then s0.(network := Idle)
    else
      var s1 := s0.(loadingType := Generation);
      if preloaded.Some? then PreloadOp(env, s1, preloaded.value)
      else
        RequestOp(env, s1.(network := Loading), source, reply)
  }

  /** The map asked of the model: refused without content, failed on an answer that
      is not a map, generated otherwise. */
  function RequestOp(env: Env, s2: GraphState, source: Source, reply: Result<Option<MapData>>): GraphState {
    if source.TranscriptSource? && source.content == [] then Fail(s2, MissingContentMessage)
    else if reply.Err? then Fail(s2, reply.msg)
    else if reply.value.None? then Fail(s2, InvalidStructureMessage)
    else GenerateOp(env, s2, reply.value.value)
  }

  /** Installing always leaves a well-formed state that is ready exactly when both data
      sets were stored, and fails otherwise. */
  lemma {:induction false} InstallKeeps(env: Env, st: GraphState, ns: seq<Node>, es: seq<Edge>)
    requires !st.hasNodes && !st.hasEdges && st.nodes == [] && st.edges == []
    ensures var r := Install(env, st, ns, es);
      && WellFormed(r) && r.counter == st.counter && r.draws == st.draws
      && (r.network == Ready <==> Loaded(r))
      && (r.network == Ready <==> Distinct(NodeIds(ns)) && Distinct(EdgeIds(es)))
      && (Loaded(r) ==> r.nodes == ns && r.edges == es && r.error == st.error)
      && (!Loaded(r) ==> r.network == Failed && r.error == Some(env.duplicateIdError))
  {
  }

  /** Every node of the timeline keeps the properties a normalised node has, and gains a
      group when it had none. */
  lemma {:induction false} TimelineNormalized(env: Env, nodes: seq<Node>)
    requires forall k :: 0 <= k < |nodes| ==> Normalized(env, nodes[k])
    ensures forall i :: 0 <= i < |Timeline(nodes)| ==> Normalized(env, Timeline(nodes)[i])
  {
    forall i | 0 <= i < |Timeline(nodes)| ensures Normalized(env, Timeline(nodes)[i]) {
      var j := TimelineSource(nodes, i);
    }
  }

  /** On the timeline a dated node is preceded only by dated nodes of the same or an
      earlier day. */
  lemma {:induction false} TimelineOrdered(nodes: seq<Node>)
    ensures forall i, j :: 0 <= i < j < |Timeline(nodes)| && Historical.Dated(Timeline(nodes)[j]) ==>
      Historical.Dated(Timeline(nodes)[i]) && Timeline(nodes)[i].parsedDate.value <= Timeline(nodes)[j].parsedDate.value
  {
    TimelineShape(nodes);
    if Historical.DatedNodes(nodes) == [] {
      NoDatedMeansNone(nodes);
    } else {
      var c := Historical.Chronological(nodes);
      var k := |Historical.DatedNodes(nodes)|;
      Historical.ChronologicalOrder(nodes, 0);
      var t := Timeline(nodes);
      forall i, j | 0 <= i < j < |t| && Historical.Dated(t[j])
        ensures Historical.Dated(t[i]) && t[i].parsedDate.value <= t[j].parsedDate.value
      {
        assert t[j].parsedDate == c[j].parsedDate && t[i].parsedDate == c[i].parsedDate;
        assert j < k;
        assert c[..k][i] == c[i] && c[..k][j] == c[j];
      }
    }
  }

  /** Once any node is dated, every node of the timeline is pinned. */
  lemma {:induction false} TimelinePinned(nodes: seq<Node>, q: nat)
    requires q < |nodes| && Historical.Dated(nodes[q])
    ensures forall i :: 0 <= i < |Timeline(nodes)| ==> IsFrozen(Timeline(nodes)[i])
  {
    if Historical.DatedNodes(nodes) == [] {
      NoDatedMeansNone(nodes);
      assert false;
    }
    TimelineShape(nodes);
  }

  /** The nodes of a generated map: one per node of the reply, each with an id, a label
      and the right weight; the counter ends at least at the leading number of every
      supplied id. Without a timeline every supplied id stays at its place. On a
      historical map every node has a group, dated nodes come first by day, and once any
      node is dated every node is pinned. */
  lemma {:induction false} GenerateNodesShape(env: Env, st: GraphState, md: MapData)
    ensures var p := GenerateNodes(env, st, md);
      && |p.0| == |md.nodes| && p.1 >= st.counter && p.2 >= st.draws
      && (forall i :: 0 <= i < |p.0| ==> Normalized(env, p.0[i]))
      && (forall i :: 0 <= i < |md.nodes| && md.nodes[i].id != [] ==> LeadingNumber(md.nodes[i].id) <= p.1)
      && (!env.historical ==> forall i :: 0 <= i < |md.nodes| && md.nodes[i].id != [] ==> p.0[i].id == md.nodes[i].id)
      && (env.historical ==> forall i :: 0 <= i < |p.0| ==> p.0[i].group != [])
      && (env.historical ==> forall i, j :: 0 <= i < j < |p.0| && Historical.Dated(p.0[j]) ==>
            Historical.Dated(p.0[i]) && p.0[i].parsedDate.value <= p.0[j].parsedDate.value)
  {
    var q := NormalizeNodes(env, Relabelled(md.nodes), "node_init_", st.counter, st.draws);
    NormalizeNodesShape(env, Relabelled(md.nodes), "node_init_", st.counter, st.draws);
    if env.historical {
      HistoricalTimeline(env, q.0);
    }
  }

  /** Dating and ordering normalised nodes keeps them normalised, gives each a group, and
      puts dated nodes first by day. */
  lemma {:induction false} HistoricalTimeline(env: Env, nodes: seq<Node>)
    requires forall k :: 0 <= k < |nodes| ==> Normalized(env, nodes[k])
    ensures var t := Timeline(HistoricalNodes(nodes));
      && |t| == |nodes|
      && (forall i :: 0 <= i < |t| ==> Normalized(env, t[i]) && t[i].group != [])
      && (forall i, j :: 0 <= i < j < |t| && Historical.Dated(t[j]) ==>
            Historical.Dated(t[i]) && t[i].parsedDate.value <= t[j].parsedDate.value)
  {
    var h := HistoricalNodes(nodes);
    assert forall k :: 0 <= k < |h| ==> Normalized(env, h[k]) && h[k].group != [];
    TimelineNormalized(env, h);
    TimelineOrdered(h);
    TimelineShape(h);
    var t := Timeline(h);
    forall i | 0 <= i < |t| ensures t[i].group != [] {
      var j := TimelineSource(h, i);
    }
  }

  /** The nodes of a preloaded map: one per node given, at the same place, each with an
      id, a label and the right weight; a supplied id is kept, and the counter ends at
      least at its leading number. */
  lemma {:induction false} PreloadNodesShape(env: Env, st: GraphState, md: MapData)
    ensures var p := PreloadNodes(env, st, md);
      && |p.0| == |md.nodes| && p.1 >= st.counter && p.2 >= st.draws
      && (forall i :: 0 <= i < |p.0| ==> Normalized(env, p.0[i]))
      && (forall i :: 0 <= i < |md.nodes| && md.nodes[i].id != [] ==>
            p.0[i].id == md.nodes[i].id && LeadingNumber(md.nodes[i].id) <= p.1)
  {
    NormalizeNodesShape(env, md.nodes, "node_preloaded_", st.counter, st.draws);
  }

  /** Loading always starts afresh and ends settled: the selection and the old graph are
      gone, the state is well formed, the map is ready exactly when both data sets were
      stored, and an error is recorded exactly when it failed. Without a source nothing
      is loaded and the counter is back at 0. A transcript without text, a failed reply
      and a reply that is not a map each fail with their own message. */
  lemma {:induction false} LoadOpKeeps(env: Env, st: GraphState, source: Source, preloaded: Option<MapData>, reply: Result<Option<MapData>>)
    ensures var r := LoadOp(env, st, source, preloaded, reply);
      && WellFormed(r) && r.selected == None && r.network != Loading
      && (r.network == Ready <==> Loaded(r))
      && (r.network == Failed <==> r.error.Some?)
      && (source.NoSource? ==> r.network == Idle && !r.hasNodes && !r.hasEdges && r.counter == 0)
      && (!source.NoSource? ==> r.loadingType == Generation)
      && (!source.NoSource? && preloaded.None? && source.TranscriptSource? && source.content == [] ==>
            r.error == Some(MissingContentMessage) && !r.hasNodes)
      && (!source.NoSource? && preloaded.None? && !(source.TranscriptSource? && source.content == []) ==>
            (reply.Err? ==> r.error == Some(reply.msg) && !r.hasNodes)
            && (reply == Ok(None) ==> r.error == Some(InvalidStructureMessage) && !r.hasNodes))
  {
    var s1 := Reset(st).(loadingType := Generation);
    if !source.NoSource? {
      if preloaded.Some? {
        var p := PreloadNodes(env, s1, preloaded.value);
        InstallKeeps(env, s1.(counter := p.1, draws := p.2), p.0, LoadEdges(preloaded.value.edges, "edge_preloaded_"));
      } else if !(source.TranscriptSource? && source.content == []) && reply.Ok? && reply.value.Some? {
        var s2 := s1.(network := Loading);
        var p := GenerateNodes(env, s2, reply.value.value);
        InstallKeeps(env, s2.(counter := p.1, draws := p.2), p.0, LoadEdges(reply.value.value.edges, "edge_init_"));
      }
    }
  }

  /** A preloaded map is installed as given: every node is normalised and every supplied
      id kept in place, every edge keeps its ends, and the counter ends at least at the
      leading number of every supplied id, whether or not the data sets accepted them. */
  lemma {:induction false} LoadOpPreloaded(env: Env, st: GraphState, source: Source, md: MapData, reply: Result<Option<MapData>>)
    requires !source.NoSource?
    ensures var r := LoadOp(env, st, source, Some(md), reply);
      && (forall i :: 0 <= i < |md.nodes| && md.nodes[i].id != [] ==> LeadingNumber(md.nodes[i].id) <= r.counter)
      && (r.hasNodes ==> |r.nodes| == |md.nodes| && forall i :: 0 <= i < |r.nodes| ==> Normalized(env, r.nodes[i]))
      && (r.hasNodes ==> forall i :: 0 <= i < |md.nodes| && md.nodes[i].id != [] ==> r.nodes[i].id == md.nodes[i].id)
      && (r.hasEdges ==> (|r.edges| == |md.edges|
            && forall i :: 0 <= i < |r.edges| ==> r.edges[i].from == md.edges[i].from && r.edges[i].to == md.edges[i].to))
  {
    var s1 := Reset(st).(loadingType := Generation);
    PreloadNodesShape(env, s1, md);
  }

  /** A generated map is installed with one normalised node per node of the reply and
      one edge per edge, with its ends; the counter ends at least at the leading number
      of every supplied id; on a historical map dated nodes come first by day. */
  lemma {:induction false} LoadOpGenerated(env: Env, st: GraphState, source: Source, md: MapData)
    requires !source.NoSource? && !(source.TranscriptSource? && source.content == [])
    ensures var r := LoadOp(env, st, source, None, Ok(Some(md)));
      && (forall i :: 0 <= i < |md.nodes| && md.nodes[i].id != [] ==> LeadingNumber(md.nodes[i].id) <= r.counter)
      && (r.hasNodes ==> |r.nodes| == |md.nodes| && forall i :: 0 <= i < |r.nodes| ==> Normalized(env, r.nodes[i]))
      && (r.hasNodes && env.historical ==> forall i, j :: 0 <= i < j < |r.nodes| && Historical.Dated(r.nodes[j]) ==>
            Historical.Dated(r.nodes[i]) && r.nodes[i].parsedDate.value <= r.nodes[j].parsedDate.value)
      && (r.hasEdges ==> (|r.edges| == |md.edges|
            && forall i :: 0 <= i < |r.edges| ==> r.edges[i].from == md.edges[i].from && r.edges[i].to == md.edges[i].to))
  {
    var s2 := Reset(st).(loadingType := Generation, network := Loading);
    assert LoadOp(env, st, source, None, Ok(Some(md))) == GenerateOp(env, s2, md);
    GenerateOpShape(env, s2, md);
  }

  lemma {:induction false} GenerateOpShape(env: Env, s: GraphState, md: MapData)
    requires !s.hasNodes && !s.hasEdges && s.nodes == [] && s.edges == []
    ensures var r := GenerateOp(env, s, md);
      && (forall i :: 0 <= i < |md.nodes| && md.nodes[i].id != [] ==> LeadingNumber(md.nodes[i].id) <= r.counter)
      && (r.hasNodes ==> |r.nodes| == |md.nodes| && forall i :: 0 <= i < |r.nodes| ==> Normalized(env, r.nodes[i]))
      && (r.hasNodes && env.historical ==> forall i, j :: 0 <= i < j < |r.nodes| && Historical.Dated(r.nodes[j]) ==>
            Historical.Dated(r.nodes[i]) && r.nodes[i].parsedDate.value <= r.nodes[j].parsedDate.value)
      && (r.hasEdges ==> (|r.edges| == |md.edges|
            && forall i :: 0 <= i < |r.edges| ==> r.edges[i].from == md.edges[i].from && r.edges[i].to == md.edges[i].to))
  {
    GenerateNodesShape(env, s, md);
    var p := GenerateNodes(env, s, md);
    var es := LoadEdges(md.edges, "edge_init_");
    var r := GenerateOp(env, s, md);
    assert r.counter == p.1;
    assert r.hasNodes ==> r.nodes == p.0;
    assert r.hasEdges ==> r.edges == es;
  }
}
