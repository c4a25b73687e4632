/** The session rules of the application shell (App.tsx): choosing nodes for a
    connection, entering and leaving connection mode, placing the connector node,
    the flashcard CSV, the source a submit generates from and the state of the
    generate button. */
module Session {
  import opened Wrappers
  import opened Strings
  import opened MindMap
  import opened MapQueries

  // ---------------------------------------------------------------------------------
  // Choosing nodes for a connection (lines 416-424)

  /** `filter(x => x !== id)`: every copy of `id` removed, the rest in order. */
  function Without(sel: seq<string>, id: string): (r: seq<string>)
    ensures id !in r && |r| <= |sel|
    ensures forall x :: x != id ==> (x in r <==> x in sel)
  {
    if sel == [] then []
    else (if sel[0] == id then [] else [sel[0]]) + Without(sel[1..], id)
  }

  /** A list without `id` loses nothing when `id` is filtered out. */
  lemma {:induction false} WithoutAbsent(sel: seq<string>, id: string)
    requires id !in sel
    ensures Without(sel, id) == sel
  {
    if sel != [] {
      assert sel[0] != id && id !in sel[1..];
      WithoutAbsent(sel[1..], id);
      assert sel == [sel[0]] + sel[1..];
    }
  }

  /** Filtering keeps a duplicate-free list duplicate-free. */
  lemma {:induction false} WithoutDistinct(sel: seq<string>, id: string)
    requires Distinct(sel)
    ensures Distinct(Without(sel, id))
  {
    if sel != [] {
      var tail := sel[1..];
      assert Distinct(tail) by {
        forall i, j | 0 <= i < j < |tail| ensures tail[i] != tail[j] {
          assert tail[i] == sel[i + 1] && tail[j] == sel[j + 1];
        }
      }
      WithoutDistinct(tail, id);
      var rest := Without(tail, id);
      if sel[0] != id {
        assert sel[0] !in tail by {
          forall k | 0 <= k < |tail| ensures tail[k] != sel[0] {
            assert tail[k] == sel[k + 1];
          }
        }
        assert sel[0] !in rest;
        var r := [sel[0]] + rest;
        forall i, j | 0 <= i < j < |r| ensures r[i] != r[j] {
          if i == 0 {
            assert r[j] == rest[j - 1] && r[j] in rest;
          } else {
            assert r[i] == rest[i - 1] && r[j] == rest[j - 1];
          }
        }
      } else {
        assert Without(sel, id) == rest;
      }
    }
  }

  /** `handleNodeToggleForConnection`: a chosen id is dropped (every copy of it), any
      other id is appended; the other ids stay chosen or unchosen as they were. */
  function Toggle(sel: seq<string>, id: string): (r: seq<string>)
    ensures id in r <==> id !in sel
    ensures forall x :: x != id ==> (x in r <==> x in sel)
  {
    if id in sel then Without(sel, id) else sel + [id]
  }

  /** Toggling the same id twice restores whether it is chosen; an id that was not
      chosen is appended and then dropped, which gives back the very same list. */
  lemma {:induction false} ToggleTwice(sel: seq<string>, id: string)
    ensures forall x :: x in Toggle(Toggle(sel, id), id) <==> x in sel
    ensures id !in sel ==> Toggle(Toggle(sel, id), id) == sel
  {
    if id !in sel {
      var t := sel + [id];
      assert Toggle(t, id) == Without(t, id);
      WithoutSnoc(sel, id);
      WithoutAbsent(sel, id);
    }
  }

  lemma {:induction false} WithoutSnoc(sel: seq<string>, id: string)
    ensures Without(sel + [id], id) == Without(sel, id)
  {
    if sel == [] {
      assert Without([id], id) == [] + Without([], id);
    } else {
      assert (sel + [id])[1..] == sel[1..] + [id];
      WithoutSnoc(sel[1..], id);
    }
  }

  /** A duplicate-free choice stays duplicate-free under toggling. */
  lemma {:induction false} ToggleDistinct(sel: seq<string>, id: string)
    requires Distinct(sel)
    ensures Distinct(Toggle(sel, id))
  {
    if id in sel {
      WithoutDistinct(sel, id);
    } else {
      var r := sel + [id];
      forall i, j | 0 <= i < j < |r| ensures r[i] != r[j] {
        if j == |sel| {
          assert r[i] == sel[i] && sel[i] in sel;
        } else {
          assert r[i] == sel[i] && r[j] == sel[j];
        }
      }
    }
  }

  // ---------------------------------------------------------------------------------
  // The connector position (lines 814-823)

  /** A node whose x and y are numbers. */
  predicate HasCoords(n: Node) { n.x.Some? && n.y.Some? }

  /** How many of `nodes` have both coordinates. */
  function CountWithCoords(nodes: seq<Node>): nat {
    if nodes == [] then 0
    else CountWithCoords(nodes[..|nodes| - 1]) + (if HasCoords(nodes[|nodes| - 1]) then 1 else 0)
  }

  /** The sums of the coordinates of the nodes that have both. */
  function SumCoords(nodes: seq<Node>): (real, real) {
    if nodes == [] then (0.0, 0.0)
    else
      var p := SumCoords(nodes[..|nodes| - 1]);
      var n := nodes[|nodes| - 1];
      if HasCoords(n) then (p.0 + n.x.value, p.1 + n.y.value) else p
  }

  /** The connector position: the mean of the coordinates of the nodes that have
      both, undefined when none has. */
  function CentroidOf(nodes: seq<Node>): Option<(real, real)> {
    var c := CountWithCoords(nodes);
    if c > 0 then Some((SumCoords(nodes).0 / c as real, SumCoords(nodes).1 / c as real)) else None
  }

  /** Some node is counted exactly when some node has both coordinates. */
  lemma {:induction false} CountWithCoordsPositive(nodes: seq<Node>)
    ensures CountWithCoords(nodes) > 0 <==> exists k :: 0 <= k < |nodes| && HasCoords(nodes[k])
  {
    if nodes != [] {
      var init := nodes[..|nodes| - 1];
      CountWithCoordsPositive(init);
      if exists k :: 0 <= k < |init| && HasCoords(init[k]) {
        var k :| 0 <= k < |init| && HasCoords(init[k]);
        assert nodes[k] == init[k];
      }
      if exists k :: 0 <= k < |nodes| && HasCoords(nodes[k]) {
        var k :| 0 <= k < |nodes| && HasCoords(nodes[k]);
        if k < |init| {
          assert init[k] == nodes[k];
        }
      }
    }
  }

  /** The position is defined exactly when some chosen node has numeric x and y. */
  lemma {:induction false} CentroidDefined(nodes: seq<Node>)
    ensures CentroidOf(nodes).Some? <==> exists k :: 0 <= k < |nodes| && HasCoords(nodes[k])
  {
    CountWithCoordsPositive(nodes);
  }

  /** Nodes without both coordinates change neither the count nor the sums. */
  lemma {:induction false} CoordlessIgnored(nodes: seq<Node>, n: Node)
    requires !HasCoords(n)
    ensures CountWithCoords(nodes + [n]) == CountWithCoords(nodes) && SumCoords(nodes + [n]) == SumCoords(nodes)
    ensures CentroidOf(nodes + [n]) == CentroidOf(nodes)
  {
    assert (nodes + [n])[..|nodes|] == nodes;
  }

  /** The loop of `processConnection` that sums the coordinates. */
  method Centroid(details: seq<Node>) returns (position: Option<(real, real)>)
    ensures position == CentroidOf(details)
    ensures position.Some? <==> exists k :: 0 <= k < |details| && HasCoords(details[k])
  {
    var sumX, sumY, count := 0.0, 0.0, 0;
    var i := 0;
    while i < |details|
      invariant i <= |details|
      invariant count == CountWithCoords(details[..i]) && (sumX, sumY) == SumCoords(details[..i])
    {
      assert details[..i + 1][..i] == details[..i];
      var n := details[i];
      if n.x.Some? && n.y.Some? {
        sumX, sumY, count := sumX + n.x.value, sumY + n.y.value, count + 1;
      }
      i := i + 1;
    }
    assert details[..i] == details;
    CentroidDefined(details);
    position := if count > 0 then Some((sumX / count as real, sumY / count as real)) else None;
  }

  // ---------------------------------------------------------------------------------
  // Connection mode (lines 401-402, 781-868)

  /** The parsed reply to the connection prompt: `connectorNodeLabel` and the optional
      `connectorNodeTitle` ("" when absent). */
  datatype ConnectorReply = ConnectorReply(caption: string, title: string)

  /** What `processConnection` hands to `addConnectionNodeAndEdges`: the connector's
      label and title, the chosen ids and the position, when there is one. */
  datatype ConnectorRequest = ConnectorRequest(caption: string, title: string, ids: seq<string>, position: Option<(real, real)>)

  class ConnectionSession {
    var active: bool
    var chosen: seq<string>
    var making: bool
    var selectedNode: Option<string>
    var selectedLabel: Option<string>

    constructor ()
      ensures !active && chosen == [] && !making && selectedNode == None && selectedLabel == None
    {
      active, chosen, making := false, [], false;
      selectedNode, selectedLabel := None, None;
    }

    /** `handleNodeSelectedForApp`: ignored while connection mode is on; otherwise the
        node (and its label, when it has one) becomes the selection. */
    method NodeSelected(id: Option<string>, caption: string)
      modifies this
      ensures active == old(active) && chosen == old(chosen) && making == old(making)
      ensures old(active) ==> selectedNode == old(selectedNode) && selectedLabel == old(selectedLabel)
      ensures !old(active) ==> selectedNode == id && (selectedLabel.Some? <==> id.Some? && caption != "")
      ensures !old(active) && selectedLabel.Some? ==> selectedLabel.value == caption
    {
      if active {
        return;
      }
      selectedNode := id;
      if id.Some? && caption != "" {
        selectedLabel := Some(caption);
      } else {
        selectedLabel := None;
      }
    }

    /** A node clicked while connection mode is on (ContentContainer.tsx lines 1264-1266). */
    method NodeToggled(id: string)
      modifies this
      ensures chosen == Toggle(old(chosen), id)
      ensures active == old(active) && making == old(making)
      ensures selectedNode == old(selectedNode) && selectedLabel == old(selectedLabel)
    {
      chosen := Toggle(chosen, id);
    }

    /** `processConnection`, given the details of the chosen nodes and the parsed reply
        of the model (`Err` when the request or the parse failed).
        It asks for a connector only with two or more chosen nodes and a label, and it
        always ends with connection mode off and nothing chosen. */
    method ProcessConnection(details: seq<Node>, reply: Result<ConnectorReply>) returns (request: Option<ConnectorRequest>)
      modifies this
      ensures !active && chosen == [] && making == (old(making) && |old(chosen)| < 2)
      ensures selectedNode == old(selectedNode) && selectedLabel == old(selectedLabel)
      ensures request.Some? <==> |old(chosen)| >= 2 && reply.Ok? && reply.value.caption != ""
      ensures request.Some? ==> reply.Ok? && request.value == ConnectorRequest(reply.value.caption, reply.value.title, old(chosen), CentroidOf(details))
    {
      if |chosen| < 2 {
        active, chosen := false, [];
        return None;
      }
      making := true;
      request := None;
      if reply.Ok? && reply.value.caption != "" {
        var position := Centroid(details);
        request := Some(ConnectorRequest(reply.value.caption, reply.value.title, chosen, position));
      }
      making, active, chosen := false, false, [];
    }

    /** `handleToggleConnectionMode`: leaving the mode processes the connection when
        two or more nodes are chosen and simply switches off otherwise; entering it
        clears the choice and the single selection. */
    method ToggleConnectionMode(details: seq<Node>, reply: Result<ConnectorReply>) returns (request: Option<ConnectorRequest>)
      modifies this
      ensures active == !old(active) && chosen == []
      ensures making == (old(making) && !(old(active) && |old(chosen)| >= 2))
      ensures old(active) ==> selectedNode == old(selectedNode) && selectedLabel == old(selectedLabel)
      ensures !old(active) ==> selectedNode == None && selectedLabel == None
      ensures request.Some? ==> old(active) && |old(chosen)| >= 2
      ensures request.Some? ==> reply.Ok? && request.value == ConnectorRequest(reply.value.caption, reply.value.title, old(chosen), CentroidOf(details))
      ensures old(active) && |old(chosen)| >= 2 && reply.Ok? && reply.value.caption != "" ==> request.Some?
    {
      if active {
        if |chosen| >= 2 {
          request := ProcessConnection(details, reply);
        } else {
          active, chosen := false, [];
          request := None;
        }
      } else {
        active, chosen := true, [];
        selectedNode, selectedLabel := None, None;
        request := None;
      }
    }
  }

  // ---------------------------------------------------------------------------------
  // Flashcards (lines 639-651)

  datatype Flashcard = Flashcard(front: string, back: string)

  /** The back of a card: the description when it says something besides the label,
      a stock sentence naming the label otherwise. The back is never blank and never
      repeats the front. */
  function Back(front: string, title: string): (r: string)
    ensures Trim(r) != [] && r != front
    ensures Trim(title) != [] && Trim(title) != Trim(front) ==> r == title
    ensures !(Trim(title) != [] && Trim(title) != Trim(front)) ==> StartsWith(r, StockPrefix) && EndsWith(r, front)
  {
    if Trim(title) != [] && Trim(title) != Trim(front) then title
    else
      var stock := StockPrefix + front;
      StockNotBlank(stock);
      assert stock[..|StockPrefix|] == StockPrefix && stock[|stock| - |front|..] == front;
      stock
  }

  const StockPrefix := "Definition or details for "

  /** Text that starts with a letter does not trim to nothing. */
  lemma {:induction false} StockNotBlank(s: string)
    requires s != [] && s[0] == 'D'
    ensures Trim(s) != []
  {
    TrimStartKeeps(s);
    TrimEndRemovesWhitespace(s);
    assert !IsWhitespace(s[0]);
  }

  function CardOf(c: Card): Flashcard {
    Flashcard(c.front, Back(c.front, c.title))
  }

  // ---------------------------------------------------------------------------------
  // The CSV file (lines 644-651)

  /** `escapeCsvField`: every double quote doubled. */
  function EscapeCsv(s: string): (r: string)
    ensures |r| >= |s|
  {
    if s == [] then []
    else (if s[0] == '"' then "\"\"" else [s[0]]) + EscapeCsv(s[1..])
  }

  /** One line per card: both fields escaped and quoted, a comma between, a newline
      after. */
  function Row(card: Flashcard): string {
    "\"" + EscapeCsv(card.front) + "\",\"" + EscapeCsv(card.back) + "\"\n"
  }

  function Csv(cards: seq<Flashcard>): string {
    if cards == [] then [] else Row(cards[0]) + Csv(cards[1..])
  }

  lemma {:induction false} CsvSnoc(cards: seq<Flashcard>, c: Flashcard)
    ensures Csv(cards + [c]) == Csv(cards) + Row(c)
  {
    if cards == [] {
      assert Csv([c]) == Row(c) + Csv([]);
    } else {
      assert (cards + [c])[1..] == cards[1..] + [c];
      CsvSnoc(cards[1..], c);
    }
  }

  /** The `forEach` that builds the file, one row per card. */
  method CsvContent(cards: seq<Flashcard>) returns (csv: string)
    ensures csv == Csv(cards)
  {
    csv := "";
    var i := 0;
    while i < |cards|
      invariant i <= |cards| && csv == Csv(cards[..i])
    {
      CsvSnoc(cards[..i], cards[i]);
      assert cards[..i + 1] == cards[..i] + [cards[i]];
      csv := csv + Row(cards[i]);
      i := i + 1;
    }
    assert cards[..i] == cards;
  }

  /** Reading a quoted field back: the text up to the first quote that is not doubled,
      with each doubled quote read as one, and what follows the closing quote. */
  function ReadQuoted(s: string): (r: Option<(string, string)>)
    ensures r.Some? ==> |r.value.1| < |s|
  {
    if s == [] then None
    else if s[0] == '"' then
      if |s| >= 2 && s[1] == '"' then
        var t := ReadQuoted(s[2..]);
        if t.None? then None else Some(("\"" + t.value.0, t.value.1))
      else Some(([], s[1..]))
    else
      var t := ReadQuoted(s[1..]);
      if t.None? then None else Some(([s[0]] + t.value.0, t.value.1))
  }

  /** Undoing the doubling recovers the field: an escaped field followed by a closing
      quote reads back as the field, whatever comes after that is not a quote. */
  lemma {:induction false} ReadEscaped(f: string, rest: string)
    requires rest == [] || rest[0] != '"'
    ensures ReadQuoted(EscapeCsv(f) + "\"" + rest) == Some((f, rest))
  {
    if f == [] {
      assert EscapeCsv(f) + "\"" + rest == "\"" + rest;
    } else {
      ReadEscaped(f[1..], rest);
      var tail := EscapeCsv(f[1..]) + "\"" + rest;
      EscapeCons(f, rest);
      if f[0] == '"' {
        ReadDoubled(tail);
        assert "\"" + f[1..] == f;
      } else {
        ReadPlain(f[0], tail);
        assert [f[0]] + f[1..] == f;
      }
    }
  }

  lemma {:induction false} EscapeCons(f: string, rest: string)
    requires f != []
    ensures EscapeCsv(f) + "\"" + rest == (if f[0] == '"' then "\"\"" else [f[0]]) + (EscapeCsv(f[1..]) + "\"" + rest)
  {
  }

  lemma {:induction false} ReadDoubled(tail: string)
    ensures var t := ReadQuoted(tail);
      ReadQuoted("\"\"" + tail) == if t.None? then None else Some(("\"" + t.value.0, t.value.1))
  {
    assert ("\"\"" + tail)[2..] == tail;
  }

  lemma {:induction false} ReadPlain(ch: char, tail: string)
    requires ch != '"'
    ensures var t := ReadQuoted(tail);
      ReadQuoted([ch] + tail) == if t.None? then None else Some(([ch] + t.value.0, t.value.1))
  {
    assert ([ch] + tail)[1..] == tail;
  }

  /** Reading one line of the file back into a card. */
  function ReadRow(s: string): (r: Option<(Flashcard, string)>)
    ensures r.Some? ==> |r.value.1| < |s|
  {
    if s == [] || s[0] != '"' then None
    else
      var a := ReadQuoted(s[1..]);
      if a.None? || !StartsWith(a.value.1, ",\"") then None
      else
        var b := ReadQuoted(a.value.1[2..]);
        if b.None? || !StartsWith(b.value.1, "\n") then None
        else Some((Flashcard(a.value.0, b.value.0), b.value.1[1..]))
  }

  /** Reading the whole file back. */
  function ReadCsv(s: string): (r: Option<seq<Flashcard>>)
    decreases |s|
  {
    if s == [] then Some([])
    else
      var row := ReadRow(s);
      if row.None? then None
      else
        var rest := ReadCsv(row.value.1);
        if rest.None? then None else Some([row.value.0] + rest.value)
  }

  lemma {:induction false} ReadRowOf(c: Flashcard, rest: string)
    ensures ReadRow(Row(c) + rest) == Some((c, rest))
  {
    var ef, eb := EscapeCsv(c.front), EscapeCsv(c.back);
    var tail := "\n" + rest;
    var after := ",\"" + (eb + "\"" + tail);
    RowShape(c, rest, ef, eb, after, tail);
    var s := Row(c) + rest;
    assert s[1..] == ef + "\"" + after;
    ReadEscaped(c.front, after);
    assert StartsWith(after, ",\"") && after[2..] == eb + "\"" + tail;
    ReadEscaped(c.back, tail);
    assert StartsWith(tail, "\n") && tail[1..] == rest;
  }

  lemma {:induction false} RowShape(c: Flashcard, rest: string, ef: string, eb: string, after: string, tail: string)
    requires ef == EscapeCsv(c.front) && eb == EscapeCsv(c.back)
    requires tail == "\n" + rest && after == ",\"" + (eb + "\"" + tail)
    ensures Row(c) + rest == "\"" + (ef + "\"" + after)
  {
    var q := "\"";
    assert "\",\"" == q + ",\"" && "\"\n" == q + "\n";
    calc {
      Row(c) + rest;
      q + ef + "\",\"" + eb + "\"\n" + rest;
      q + ef + (q + ",\"") + eb + (q + "\n") + rest;
      { Regroup(q, ef, q, ",\"", eb, q, "\n", rest); }
      q + (ef + q + (",\"" + (eb + q + ("\n" + rest))));
    }
  }

  /** The file reads back as exactly the cards it was made from, in order: every field
      survives its quoting, whatever quotes, commas or newlines it holds. */
  lemma {:induction false} CsvRoundTrip(cards: seq<Flashcard>)
    ensures ReadCsv(Csv(cards)) == Some(cards)
  {
    if cards != [] {
      CsvRoundTrip(cards[1..]);
      ReadRowOf(cards[0], Csv(cards[1..]));
      assert [cards[0]] + cards[1..] == cards;
    }
  }

  lemma {:induction false} Regroup(a: string, b: string, c: string, d: string, e: string, f: string, g: string, h: string)
    ensures a + b + (c + d) + e + (f + g) + h == a + (b + c + (d + (e + f + (g + h))))
  {
  }

  /** How often `c` occurs in `s`. */
  function Occurrences(s: string, c: char): nat {
    if s == [] then 0 else (if s[0] == c then 1 else 0) + Occurrences(s[1..], c)
  }

  lemma {:induction false} OccurrencesAppend(a: string, b: string, c: char)
    ensures Occurrences(a + b, c) == Occurrences(a, c) + Occurrences(b, c)
  {
    if a != [] {
      assert (a + b)[0] == a[0] && (a + b)[1..] == a[1..] + b;
      OccurrencesAppend(a[1..], b, c);
      calc {
        Occurrences(a + b, c);
        (if a[0] == c then 1 else 0) + Occurrences(a[1..] + b, c);
        (if a[0] == c then 1 else 0) + Occurrences(a[1..], c) + Occurrences(b, c);
      }
    } else {
      assert a + b == b;
    }
  }

  /** Escaping adds no line break. */
  lemma {:induction false} EscapeKeepsNewlines(s: string)
    ensures Occurrences(EscapeCsv(s), '\n') == Occurrences(s, '\n')
  {
    if s != [] {
      EscapeKeepsNewlines(s[1..]);
      var head := if s[0] == '"' then "\"\"" else [s[0]];
      OccurrencesAppend(head, EscapeCsv(s[1..]), '\n');
    }
  }

  /** When no field holds a line break, the file has exactly one line per card. */
  lemma {:induction false} CsvLineCount(cards: seq<Flashcard>)
    requires forall k :: 0 <= k < |cards| ==> Occurrences(cards[k].front, '\n') == 0 && Occurrences(cards[k].back, '\n') == 0
    ensures Occurrences(Csv(cards), '\n') == |cards|
  {
    if cards != [] {
      var c := cards[0];
      CsvLineCount(cards[1..]);
      EscapeKeepsNewlines(c.front);
      EscapeKeepsNewlines(c.back);
      var ef, eb := EscapeCsv(c.front), EscapeCsv(c.back);
      OccurrencesAppend("\"", ef, '\n');
      OccurrencesAppend("\"" + ef, "\",\"", '\n');
      OccurrencesAppend("\"" + ef + "\",\"", eb, '\n');
      OccurrencesAppend("\"" + ef + "\",\"" + eb, "\"\n", '\n');
      OccurrencesAppend(Row(c), Csv(cards[1..]), '\n');
    }
  }

  // ---------------------------------------------------------------------------------
  // Submitting (lines 239-261)

  datatype GenerationSource = FromUrl(url: string) | FromTranscript(content: string)

  /** `handleSubmit`: the source the map is generated from, `None` when submitting does
      nothing. `file` is the name of the chosen transcript file, `content` its text
      ("" until it is read). */
  function SubmitSource(input: string, file: Option<string>, content: string, busy: bool): (r: Option<GenerationSource>)
    ensures busy ==> r == None
    ensures r.Some? && r.value.FromTranscript? <==> !busy && file.Some? && content != [] && Trim(input) == file.value
    ensures r.Some? && r.value.FromTranscript? ==> r.value.content == content
    ensures r.Some? && r.value.FromUrl? <==> !busy && Trim(input) != [] && !(file.Some? && content != [] && Trim(input) == file.value)
    ensures r.Some? && r.value.FromUrl? ==> r.value.url == Trim(input)
  {
    var t := Trim(input);
    if t == [] && content == [] then None
    else if busy then None
    else if file.Some? && content != [] && t == file.value then Some(FromTranscript(content))
    else if t != [] then Some(FromUrl(t))
    else None
  }

  // ---------------------------------------------------------------------------------
  // The generate button (lines 897-935)

  /** The busy flags whose disjunction is `overallLoading`. */
  datatype Activity =
    | ContentLoading | UrlValidating | ProcessingFile | ElaboratingNode | GivingExamples
    | ElaboratingPros | ElaboratingCons | ExplainAction | ExpandingMap | ExportingObsidian
    | FreezingNode | ChatLoading | CreatingFlashcards | AddingDescriptions | ConvertingText
    | EnhancingDescription | MergingContent | ProcessingMergeFile | MakingConnection

  /** `isEffectiveTranscriptMode`: compares the untrimmed input with the file name. */
  predicate TranscriptMode(input: string, file: Option<string>, content: string) {
    file.Some? && content != [] && input == file.value
  }

  predicate UrlMode(input: string, file: Option<string>, content: string) {
    !TranscriptMode(input, file, content) && Trim(input) != []
  }

  /** The button's text and whether it is disabled; `validUrl` stands for
      `validateYoutubeUrl(...).isValid`. */
  function GenerateButton(busy: set<Activity>, input: string, file: Option<string>, content: string,
                          validUrl: string -> bool): (r: (string, bool))
    ensures busy != {} ==> r.1
    ensures busy == {} ==> (!r.1 <==> TranscriptMode(input, file, content) || (UrlMode(input, file, content) && validUrl(Trim(input))))
    ensures Activity.ContentLoading in busy ==> r.0 == "Generating..."
    ensures busy == {} && TranscriptMode(input, file, content) ==> r.0 == "Generate from Transcript"
  {
    if Activity.ContentLoading in busy then ("Generating...", true)
    else if Activity.UrlValidating in busy then ("Validating URL...", true)
    else if Activity.ProcessingFile in busy then ("Processing File...", true)
    else if busy != {} then
      (if Activity.ElaboratingNode in busy then "Elaborating..."
       else if Activity.ExpandingMap in busy then "Expanding..."
       else if Activity.MakingConnection in busy then "Connecting..."
       else "Processing...", true)
    else if TranscriptMode(input, file, content) then ("Generate from Transcript", content == [])
    else if UrlMode(input, file, content) then ("Generate Mind Map", !validUrl(Trim(input)))
    else ("Generate Mind Map", true)
  }

  /** An enabled button always submits something, provided the file name has no
      surrounding whitespace (the button compares the untrimmed input, the submit the
      trimmed one). */
  lemma {:induction false} EnabledButtonSubmits(busy: set<Activity>, input: string, file: Option<string>, content: string,
                             validUrl: string -> bool)
    requires file.Some? ==> Trim(file.value) == file.value
    requires !GenerateButton(busy, input, file, content, validUrl).1
    ensures SubmitSource(input, file, content, busy != {}).Some?
  {
    if TranscriptMode(input, file, content) {
      assert Trim(input) == file.value;
    }
  }
}
