/** The mind-map entities: nodes, edges, the details the language model returns for
    them, and the tag that says which operation is running. An optional text field that
    is absent is the empty string: where the application tests one for truth, a missing
    value and an empty one behave alike. */
module MindMap {
  import opened Wrappers
  import opened Strings

  /** The first four characters of a random UUID, as `uuidv4().slice(0, 4)` gives them. */
  type Suffix = s: string | |s| == 4 witness "0000"

  /** A node's `fixed` field: absent (or `false`), or pinned per axis. */
  datatype Fixed = NotFixed | FixedAxes(x: bool, y: bool)

  /** `MindMapNode`. `parsedDate` is the day number of the parsed `date` of a node on a
      historical map (see module Historical). */
  datatype Node = Node(
    id: string,
    caption: string,
    title: string,
    group: string,
    shape: string,
    x: Option<real>,
    y: Option<real>,
    fixed: Fixed,
    value: Option<int>,
    date: string,
    era: string,
    parsedDate: Option<int>)

  /** `MindMapEdge`; `dashed` stands for the dash pattern of connector edges. */
  datatype Edge = Edge(id: string, from: string, to: string, caption: string, dashed: bool)

  /** Nodes and edges as the language model returns a whole map. */
  datatype MapData = MapData(nodes: seq<Node>, edges: seq<Edge>)

  /** `ElaborationDetail`, used for elaborations, examples, pros and cons. */
  datatype ElaborationDetail = ElaborationDetail(caption: string, title: string, relationshipLabel: string)

  /** `ExplanationDetail` */
  datatype ExplanationDetail = ExplanationDetail(caption: string, title: string, relationshipLabel: string)

  /** `SpecificExplanationType` together with `'default'`. */
  datatype ExplanationType = What | Who | When | Why | How | DefaultExplanation

  function ExplanationName(t: ExplanationType): (r: string)
    ensures r != []
  {
    match t
    case What => "what"
    case Who => "who"
    case When => "when"
    case Why => "why"
    case How => "how"
    case DefaultExplanation => "default"
  }

  /** `ContentLoadingType` */
  datatype LoadingType =
    | Generation
    | Elaboration
    | Explanation(kind: ExplanationType)
    | Expansion
    | ChatAddNode
    | GiveExamples
    | ElaboratePros
    | ElaborateCons
    | AddDescriptions
    | EnhancingDescription
    | MergingContent
    | MakingConnection

  /** `AddNodeFromChatResult` */
  datatype AddNodeFromChatResult = AddNodeFromChatResult(
    mainNodeAdded: bool,
    newNodeId: Option<string>,
    newNodeLabel: Option<string>,
    parentNodeId: Option<string>,
    parentNodeLabel: Option<string>)

  /** `Math.max(a, b)` */
  function Max(a: int, b: int): (r: int)
    ensures r >= a && r >= b && (r == a || r == b)
  {
    if a >= b then a else b
  }

  /** `a || b` on text: the first unless it is empty. */
  function OrElse(a: string, b: string): (r: string)
    ensures r == a || r == b
    ensures r == [] ==> a == [] && b == []
  {
    if a != [] then a else b
  }

  /** A node with only an id, a label, a title, a group, a shape and a weight. */
  function NewNode(id: string, caption: string, title: string, group: string, shape: string, value: Option<int>): Node {
    Node(id, caption, title, group, shape, None, None, NotFixed, value, "", "", None)
  }

  function NodeIds(nodes: seq<Node>): (r: seq<string>)
    ensures |r| == |nodes| && forall i :: 0 <= i < |nodes| ==> r[i] == nodes[i].id
  {
    seq(|nodes|, i requires 0 <= i < |nodes| => nodes[i].id)
  }

  function EdgeIds(edges: seq<Edge>): (r: seq<string>)
    ensures |r| == |edges| && forall i :: 0 <= i < |edges| ==> r[i] == edges[i].id
  {
    seq(|edges|, i requires 0 <= i < |edges| => edges[i].id)
  }

  lemma {:induction false} EdgeIdsCons(e: Edge, rest: seq<Edge>)
    ensures EdgeIds([e] + rest) == [e.id] + EdgeIds(rest)
  {
    assert forall i :: 0 < i <= |rest| ==> ([e] + rest)[i] == rest[i - 1];
  }

  /** No text occurs twice. */
  predicate Distinct(s: seq<string>) {
    forall i, j :: 0 <= i < j < |s| ==> s[i] != s[j]
  }

  /** Joining two duplicate-free lists that share nothing gives a duplicate-free list. */
  lemma {:induction false} DistinctAppend(a: seq<string>, b: seq<string>)
    requires Distinct(a) && Distinct(b)
    requires forall k :: 0 <= k < |b| ==> b[k] !in a
    ensures Distinct(a + b)
  {
    var c := a + b;
    forall i, j | 0 <= i < j < |c| ensures c[i] != c[j] {
      if j >= |a| && i < |a| {
        assert c[j] == b[j - |a|];
      }
    }
  }

  /** Whether a data set holding `existing` accepts the batch `batch`: `add` refuses a
      batch when one of its ids is taken or occurs twice, and then adds nothing. */
  predicate CanAdd(existing: seq<string>, batch: seq<string>) {
    Distinct(batch) && forall k :: 0 <= k < |batch| ==> batch[k] !in existing
  }

  /** The position of the node with id `id` (`DataSet.get(id)`), or -1. */
  function IndexOfId(nodes: seq<Node>, id: string): (r: int)
    ensures -1 <= r < |nodes|
    ensures r == -1 <==> forall k :: 0 <= k < |nodes| ==> nodes[k].id != id
    ensures r >= 0 ==> nodes[r].id == id && forall k :: 0 <= k < r ==> nodes[k].id != id
  {
    if nodes == [] then -1
    else if nodes[0].id == id then 0
    else
      var k := IndexOfId(nodes[1..], id);
      assert forall j :: 1 <= j < |nodes| ==> nodes[j] == nodes[1..][j - 1];
      if k == -1 then -1 else k + 1
  }

  /** `DataSet.get(id)` */
  function FindNode(nodes: seq<Node>, id: string): (r: Option<Node>)
    ensures r.None? <==> id !in NodeIds(nodes)
    ensures r.Some? ==> r.value in nodes && r.value.id == id
  {
    var k := IndexOfId(nodes, id);
    if k == -1 then None else Some(nodes[k])
  }

  /** `nodes.find(n => n.caption.toLowerCase() === label.toLowerCase())` */
  function FindByLabel(nodes: seq<Node>, caption: string): (r: Option<Node>)
    ensures r.None? <==> forall k :: 0 <= k < |nodes| ==> !EqualsIgnoreCase(nodes[k].caption, caption)
    ensures r.Some? ==> r.value in nodes && EqualsIgnoreCase(r.value.caption, caption)
  {
    if nodes == [] then None
    else if EqualsIgnoreCase(nodes[0].caption, caption) then Some(nodes[0])
    else
      var r := FindByLabel(nodes[1..], caption);
      assert forall k :: 1 <= k < |nodes| ==> nodes[k] == nodes[1..][k - 1];
      r
  }

  /** The first matching node is the earliest one: no node before it matches. */
  lemma {:induction false} FindByLabelFirst(nodes: seq<Node>, caption: string, k: nat)
    requires k < |nodes| && EqualsIgnoreCase(nodes[k].caption, caption)
    requires forall j :: 0 <= j < k ==> !EqualsIgnoreCase(nodes[j].caption, caption)
    ensures FindByLabel(nodes, caption) == Some(nodes[k])
  {
    if k > 0 {
      FindByLabelFirst(nodes[1..], caption, k - 1);
    }
  }

  /** The ids of a list of nodes, as a set. */
  function IdSet(nodes: seq<Node>): set<string> {
    set k | 0 <= k < |nodes| :: nodes[k].id
  }

  /** The ids of a prefix are ids of the whole list, and so is the id of its next node. */
  lemma {:induction false} IdSetPrefix(nodes: seq<Node>, k: nat)
    requires k < |nodes|
    ensures IdSet(nodes[..k]) <= IdSet(nodes) && nodes[k].id in IdSet(nodes)
  {
    forall x | x in IdSet(nodes[..k]) ensures x in IdSet(nodes) {
      var j :| 0 <= j < k && nodes[..k][j].id == x;
      assert nodes[j].id == x;
    }
  }
}
