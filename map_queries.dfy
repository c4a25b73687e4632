/** The read-only views of the mind map: which nodes Expand Map grows, which nodes lack
    a description, the notes of the Obsidian export, the flashcard selection and the
    label list the chat panel compares entities with. */
module MapQueries {
  import opened Wrappers
  import opened Strings
  import opened MindMap
  import ObsidianExport

  /** The groups whose nodes anchor a map: centre, main topics and eras. */
  predicate IsMainGroup(n: Node) {
    n.group == "center" || n.group == "main" || n.group == "historical_era"
  }

  /** Some edge leads to `id` from a node of a main group (lines 668-673). */
  predicate HasIncomingMainEdge(nodes: seq<Node>, edges: seq<Edge>, id: string) {
    exists k :: 0 <= k < |edges| && edges[k].to == id
      && FindNode(nodes, edges[k].from).Some? && IsMainGroup(FindNode(nodes, edges[k].from).value)
  }

  /** A node Expand Map grows: a main-group node, or one no main-group node points to. */
  predicate IsExpandTarget(nodes: seq<Node>, edges: seq<Edge>, n: Node) {
    IsMainGroup(n) || !HasIncomingMainEdge(nodes, edges, n.id)
  }

  /** `topLevelNodeIds` after lines 663-678. */
  function TopLevelIds(nodes: seq<Node>, edges: seq<Edge>): set<string> {
    set k | 0 <= k < |nodes| && IsExpandTarget(nodes, edges, nodes[k]) :: nodes[k].id
  }

  /** `nodes.filter(n => ids.has(n.id))` */
  function NodesWithIdIn(nodes: seq<Node>, ids: set<string>): (r: seq<Node>)
    ensures |r| <= |nodes|
    ensures forall k :: 0 <= k < |r| ==> r[k] in nodes && r[k].id in ids
  {
    if nodes == [] then []
    else if nodes[0].id in ids then [nodes[0]] + NodesWithIdIn(nodes[1..], ids)
    else NodesWithIdIn(nodes[1..], ids)
  }

  /** The nodes of `nodes` that Expand Map grows, in order. */
  function ExpandTargetsOf(all: seq<Node>, edges: seq<Edge>, nodes: seq<Node>): (r: seq<Node>)
    ensures forall k :: 0 <= k < |r| ==> r[k] in nodes && IsExpandTarget(all, edges, r[k])
  {
    if nodes == [] then []
    else if IsExpandTarget(all, edges, nodes[0]) then [nodes[0]] + ExpandTargetsOf(all, edges, nodes[1..])
    else ExpandTargetsOf(all, edges, nodes[1..])
  }

  /** Lines 657-687: the parents Expand Map asks new sub-nodes for, taken from the graph
      as it is before any is added, with the code's fallbacks for an empty selection. */
  function ExpandTargets(nodes: seq<Node>, edges: seq<Edge>): seq<Node> {
    var top := TopLevelIds(nodes, edges);
    var ids := if top == {} && |nodes| > 0 then set k | 0 <= k < |nodes| :: nodes[k].id else top;
    var parents := NodesWithIdIn(nodes, ids);
    if parents == [] && |nodes| > 0 then nodes[..if |nodes| < 3 then |nodes| else 3] else parents
  }

  /** Every node of a non-empty map either anchors it or hangs under an anchor, so the
      target set is never empty and the fallbacks never apply. */
  lemma {:induction false} TopLevelIdsNonEmpty(nodes: seq<Node>, edges: seq<Edge>)
    requires nodes != []
    ensures TopLevelIds(nodes, edges) != {}
  {
    if IsExpandTarget(nodes, edges, nodes[0]) {
      assert nodes[0].id in TopLevelIds(nodes, edges);
    } else {
      var k :| 0 <= k < |edges| && edges[k].to == nodes[0].id
        && FindNode(nodes, edges[k].from).Some? && IsMainGroup(FindNode(nodes, edges[k].from).value);
      var m := FindNode(nodes, edges[k].from).value;
      var j :| 0 <= j < |nodes| && nodes[j] == m;
      assert nodes[j].id in TopLevelIds(nodes, edges);
    }
  }

  lemma {:induction false} NodesWithIdInMatches(nodes: seq<Node>, ids: set<string>, all: seq<Node>, edges: seq<Edge>)
    requires Distinct(NodeIds(all))
    requires forall k :: 0 <= k < |nodes| ==> nodes[k] in all
    requires forall k :: 0 <= k < |nodes| ==> (nodes[k].id in ids <==> IsExpandTarget(all, edges, nodes[k]))
    ensures NodesWithIdIn(nodes, ids) == ExpandTargetsOf(all, edges, nodes)
  {
    if nodes != [] {
      NodesWithIdInMatches(nodes[1..], ids, all, edges);
    }
  }

  /** In a map whose ids are unique, the Expand Map parents are exactly the main-group
      nodes and the nodes no main-group node points to, in map order; a non-empty map
      always has at least one. */
  lemma {:induction false} ExpandTargetsAreTopLevel(nodes: seq<Node>, edges: seq<Edge>)
    requires Distinct(NodeIds(nodes))
    ensures ExpandTargets(nodes, edges) == ExpandTargetsOf(nodes, edges, nodes)
    ensures nodes != [] ==> ExpandTargets(nodes, edges) != []
  {
    var top := TopLevelIds(nodes, edges);
    forall k | 0 <= k < |nodes|
      ensures nodes[k].id in top <==> IsExpandTarget(nodes, edges, nodes[k])
    {
      TopLevelIdOf(nodes, edges, k);
    }
    if nodes != [] {
      TopLevelIdsNonEmpty(nodes, edges);
      var id :| id in top;
      var j :| 0 <= j < |nodes| && IsExpandTarget(nodes, edges, nodes[j]) && nodes[j].id == id;
      TargetsOfContains(nodes, edges, nodes, j);
    }
    NodesWithIdInMatches(nodes, top, nodes, edges);
  }

  /** With unique ids, a node's id is a top-level id exactly when the node itself is a
      parent to expand. */
  lemma {:induction false} TopLevelIdOf(nodes: seq<Node>, edges: seq<Edge>, k: nat)
    requires Distinct(NodeIds(nodes)) && k < |nodes|
    ensures nodes[k].id in TopLevelIds(nodes, edges) <==> IsExpandTarget(nodes, edges, nodes[k])
  {
    if nodes[k].id in TopLevelIds(nodes, edges) {
      var j :| 0 <= j < |nodes| && IsExpandTarget(nodes, edges, nodes[j]) && nodes[j].id == nodes[k].id;
      assert NodeIds(nodes)[j] == NodeIds(nodes)[k];
    }
  }

  lemma {:induction false} TargetsOfContains(all: seq<Node>, edges: seq<Edge>, nodes: seq<Node>, j: nat)
    requires j < |nodes| && IsExpandTarget(all, edges, nodes[j])
    ensures ExpandTargetsOf(all, edges, nodes) != []
  {
    if j > 0 && !IsExpandTarget(all, edges, nodes[0]) {
      TargetsOfContains(all, edges, nodes[1..], j - 1);
    }
  }

  /** A node Add Missing Descriptions asks a description for: no title, a blank one, or
      one that only repeats the label (line 763). */
  predicate NeedsDescription(n: Node) {
    n.title == [] || Trim(n.title) == [] || Trim(n.title) == Trim(n.caption)
  }

  /** `nodes.filter(keep)`, in order. */
  function Filter(nodes: seq<Node>, keep: Node -> bool): (r: seq<Node>)
    ensures |r| <= |nodes|
    ensures forall k :: 0 <= k < |r| ==> r[k] in nodes && keep(r[k])
    ensures forall k :: 0 <= k < |nodes| && keep(nodes[k]) ==> nodes[k] in r
  {
    if nodes == [] then []
    else
      var rest := Filter(nodes[1..], keep);
      assert forall k :: 1 <= k < |nodes| ==> nodes[k] == nodes[1..][k - 1];
      if keep(nodes[0]) then [nodes[0]] + rest else rest
  }

  /** A single node is kept exactly when it passes. */
  lemma {:induction false} FilterSingle(n: Node, keep: Node -> bool)
    ensures Filter([n], keep) == if keep(n) then [n] else []
  {
    assert [n][1..] == [];
  }

  /** Filtering a concatenation filters each part and keeps their order; with
      `FilterSingle` this makes the result exactly the passing nodes, in order. */
  lemma {:induction false} FilterAppend(a: seq<Node>, b: seq<Node>, keep: Node -> bool)
    ensures Filter(a + b, keep) == Filter(a, keep) + Filter(b, keep)
    decreases |a|
  {
    if a == [] {
      assert a + b == b;
    } else {
      assert (a + b)[0] == a[0];
      assert (a + b)[1..] == a[1..] + b;
      FilterAppend(a[1..], b, keep);
    }
  }

  /** The filter keeps nothing exactly when no node passes it. */
  lemma {:induction false} FilterEmpty(nodes: seq<Node>, keep: Node -> bool)
    ensures Filter(nodes, keep) == [] <==> forall k :: 0 <= k < |nodes| ==> !keep(nodes[k])
  {
    if forall k :: 0 <= k < |nodes| ==> !keep(nodes[k]) {
      FilterNone(nodes, keep);
    } else {
      var k :| 0 <= k < |nodes| && keep(nodes[k]);
      FilterSome(nodes, keep, k);
    }
  }

  lemma {:induction false} FilterNone(nodes: seq<Node>, keep: Node -> bool)
    requires forall k :: 0 <= k < |nodes| ==> !keep(nodes[k])
    ensures Filter(nodes, keep) == []
  {
    if nodes != [] {
      var tail := nodes[1..];
      forall k | 0 <= k < |tail| ensures !keep(tail[k]) {
        assert tail[k] == nodes[k + 1];
      }
      FilterNone(tail, keep);
    }
  }

  lemma {:induction false} FilterSome(nodes: seq<Node>, keep: Node -> bool, k: nat)
    requires k < |nodes| && keep(nodes[k])
    ensures Filter(nodes, keep) != []
  {
    if k > 0 && !keep(nodes[0]) {
      assert nodes[1..][k - 1] == nodes[k];
      FilterSome(nodes[1..], keep, k - 1);
    }
  }

  /** Line 763: the nodes Add Missing Descriptions asks about. */
  function NodesNeedingDescription(nodes: seq<Node>): (r: seq<Node>)
    ensures |r| <= |nodes|
    ensures forall k :: 0 <= k < |r| ==> r[k] in nodes && NeedsDescription(r[k])
    ensures forall k :: 0 <= k < |nodes| && NeedsDescription(nodes[k]) ==> nodes[k] in r
  {
    Filter(nodes, NeedsDescription)
  }

  /** The selection is empty exactly when no node needs a description. */
  lemma {:induction false} NothingNeedsDescription(nodes: seq<Node>)
    ensures NodesNeedingDescription(nodes) == [] <==> forall k :: 0 <= k < |nodes| ==> !NeedsDescription(nodes[k])
  {
    FilterEmpty(nodes, NeedsDescription);
  }

  /** `replace(/\s+/g, '_')`: every run of whitespace becomes one underscore. */
  function WhitespaceToUnderscore(s: string): (r: string)
    ensures forall k :: 0 <= k < |r| ==> !IsWhitespace(r[k])
    ensures |r| <= |s|
    decreases |s|
  {
    if s == [] then []
    else if IsWhitespace(s[0]) then "_" + WhitespaceToUnderscore(TrimStart(s))
    else [s[0]] + WhitespaceToUnderscore(s[1..])
  }

  /** A maximal run of whitespace becomes a single underscore. */
  lemma {:induction false} WhitespaceRunToUnderscore(w: string, q: string)
    requires w != [] && AllWhitespace(w)
    requires NoLeadingWhitespace(q)
    ensures WhitespaceToUnderscore(w + q) == "_" + WhitespaceToUnderscore(q)
  {
    assert (w + q)[0] == w[0];
    TrimStartSkipsRun(w, q);
  }

  /** A character that is not whitespace is kept, in its place. */
  lemma {:induction false} WhitespaceToUnderscoreKeeps(c: char, q: string)
    requires !IsWhitespace(c)
    ensures WhitespaceToUnderscore([c] + q) == [c] + WhitespaceToUnderscore(q)
  {
    assert ([c] + q)[1..] == q;
  }

  /** The titles of the nodes that `id`'s outgoing edges reach, edge by edge; an edge to
      a missing node contributes nothing. */
  function LinkTitles(nodes: seq<Node>, edges: seq<Edge>, id: string): (r: seq<string>)
    ensures |r| <= |edges|
    ensures forall t :: t in r <==> (exists k :: 0 <= k < |edges| && edges[k].from == id
                                          && FindNode(nodes, edges[k].to).Some? && FindNode(nodes, edges[k].to).value.caption == t)
  {
    if edges == [] then []
    else
      var rest := LinkTitles(nodes, edges[1..], id);
      assert forall k :: 1 <= k < |edges| ==> edges[k] == edges[1..][k - 1];
      var e := edges[0];
      if e.from == id && FindNode(nodes, e.to).Some? then [FindNode(nodes, e.to).value.caption] + rest else rest
  }

  /** The export data of one node (lines 859-867). */
  function NoteOf(nodes: seq<Node>, edges: seq<Edge>, n: Node): ObsidianExport.NoteData {
    ObsidianExport.NoteData(
      n.id,
      n.caption,
      if n.title != [] && n.title != n.caption then n.title else [],
      if n.era != [] then [WhitespaceToUnderscore(n.era)] else [],
      [],
      LinkTitles(nodes, edges, n.id))
  }

  /** `getMapDataForObsidianExport`: one note per node, in map order; `None` before a
      map is loaded. */
  function ObsidianExportData(loaded: bool, nodes: seq<Node>, edges: seq<Edge>): (r: Option<seq<ObsidianExport.NoteData>>)
    ensures r.Some? <==> loaded
    ensures r.Some? ==> |r.value| == |nodes|
    ensures r.Some? ==> forall k :: 0 <= k < |nodes| ==> r.value[k].id == nodes[k].id && r.value[k].originalTitle == nodes[k].caption
  {
    if !loaded then None else Some(seq(|nodes|, k requires 0 <= k < |nodes| => NoteOf(nodes, edges, nodes[k])))
  }

  /** The description of a note is the node's title unless it is missing or only repeats
      the label; a tag is made of the era with each whitespace run turned into `_`. */
  lemma {:induction false} NoteDescriptionAndTags(nodes: seq<Node>, edges: seq<Edge>, n: Node)
    ensures NoteOf(nodes, edges, n).description == [] <==> n.title == [] || n.title == n.caption
    ensures NoteOf(nodes, edges, n).description != [] ==> NoteOf(nodes, edges, n).description == n.title
    ensures |NoteOf(nodes, edges, n).tags| <= 1 && (NoteOf(nodes, edges, n).tags == [] <==> n.era == [])
    ensures forall t :: t in NoteOf(nodes, edges, n).tags ==> forall k :: 0 <= k < |t| ==> !IsWhitespace(t[k])
  {
  }

  /** The front and back source of a flashcard. */
  datatype Card = Card(front: string, title: string)

  /** Whether the flashcard selection takes a node (lines 883-891). */
  predicate IsImportant(n: Node, historical: bool, obsidian: bool) {
    n.group == "center" || n.group == "main"
    || (historical && (n.group == "historical_era" || n.group == "historical_event"))
    || (obsidian && n.value.Some? && n.value.value >= 6)
  }

  predicate HasLabel(n: Node) { n.caption != [] && Trim(n.caption) != [] }

  /** The selection loop, with the set of ids already taken. */
  function ImportantFrom(nodes: seq<Node>, historical: bool, obsidian: bool, added: set<string>): (r: seq<Card>)
    ensures |r| <= |nodes|
    ensures forall c :: c in r ==> (exists k :: 0 <= k < |nodes| && nodes[k].caption == c.front && nodes[k].title == c.title
                                         && HasLabel(nodes[k]) && IsImportant(nodes[k], historical, obsidian))
  {
    if nodes == [] then []
    else
      var n := nodes[0];
      assert forall k :: 1 <= k < |nodes| ==> nodes[k] == nodes[1..][k - 1];
      if !HasLabel(n) || n.id in added || !IsImportant(n, historical, obsidian) then
        ImportantFrom(nodes[1..], historical, obsidian, added)
      else
        [Card(n.caption, n.title)] + ImportantFrom(nodes[1..], historical, obsidian, added + {n.id})
  }

  /** `getImportantNodesForFlashcards`: `None` before a map is loaded. */
  function ImportantNodesForFlashcards(loaded: bool, nodes: seq<Node>, historical: bool, obsidian: bool): (r: Option<seq<Card>>)
    ensures r.Some? <==> loaded
    ensures r.Some? ==> |r.value| <= |nodes|
    ensures r.Some? ==> forall c :: c in r.value ==> (exists k :: 0 <= k < |nodes| && nodes[k].caption == c.front
                                                          && nodes[k].title == c.title && HasLabel(nodes[k]) && IsImportant(nodes[k], historical, obsidian))
  {
    if loaded then Some(ImportantFrom(nodes, historical, obsidian, {})) else None
  }

  /** The selection without its duplicate guard: one card per labelled important node. */
  function CardsOf(nodes: seq<Node>, historical: bool, obsidian: bool): seq<Card> {
    if nodes == [] then []
    else if HasLabel(nodes[0]) && IsImportant(nodes[0], historical, obsidian) then
      [Card(nodes[0].caption, nodes[0].title)] + CardsOf(nodes[1..], historical, obsidian)
    else CardsOf(nodes[1..], historical, obsidian)
  }

  /** With unique ids the duplicate guard never fires: every labelled important node
      gives exactly one card, in map order. */
  lemma {:induction false} ImportantFromTakesAll(nodes: seq<Node>, historical: bool, obsidian: bool, added: set<string>)
    requires Distinct(NodeIds(nodes))
    requires forall k :: 0 <= k < |nodes| ==> nodes[k].id !in added
    ensures ImportantFrom(nodes, historical, obsidian, added) == CardsOf(nodes, historical, obsidian)
  {
    if nodes != [] {
      var n := nodes[0];
      var tail := nodes[1..];
      var added' := if HasLabel(n) && IsImportant(n, historical, obsidian) then added + {n.id} else added;
      forall k | 0 <= k < |tail| ensures tail[k].id !in added' {
        assert NodeIds(nodes)[k + 1] == tail[k].id;
        assert NodeIds(nodes)[0] == n.id;
      }
      assert Distinct(NodeIds(tail)) by {
        forall i, j | 0 <= i < j < |tail| ensures NodeIds(tail)[i] != NodeIds(tail)[j] {
          assert NodeIds(nodes)[i + 1] != NodeIds(nodes)[j + 1];
        }
      }
      ImportantFromTakesAll(tail, historical, obsidian, added');
    }
  }

  /** `getAllNodeLabels`: every node's label, trimmed. */
  function AllNodeLabels(loaded: bool, nodes: seq<Node>): (r: seq<string>)
    ensures !loaded ==> r == []
    ensures loaded ==> |r| == |nodes| && forall k :: 0 <= k < |nodes| ==> r[k] == Trim(nodes[k].caption)
  {
    if loaded then seq(|nodes|, k requires 0 <= k < |nodes| => Trim(nodes[k].caption)) else []
  }
}
