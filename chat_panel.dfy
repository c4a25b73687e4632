/** The chat panel (components/ChatPanel.tsx): an answer is split on `**entity**`
    markers, each entity is shown as already on the map or as new, and a new entity
    is added to the map at most once per message. */
module ChatPanel {
  import opened Wrappers
  import opened Strings

  // ---------------------------------------------------------------------------------
  // Finding `**entity**` (line 79: the pattern /\*\*(.*?)\*\*/g)

  /** Two asterisks start at position `i`. */
  predicate MarkerAt(s: string, i: int) {
    0 <= i && i + 1 < |s| && s[i] == '*' && s[i + 1] == '*'
  }

  /** The lazy `(.*?)\*\*` from position `i`: the first marker at or after `i`, provided
      no line terminator comes before it (`.` does not match one). */
  function CloseFrom(s: string, i: nat): (r: Option<nat>)
    decreases |s| - i
    ensures r.Some? ==> i <= r.value && MarkerAt(s, r.value)
    ensures r.Some? ==> forall k :: i <= k < r.value ==> !IsLineTerminator(s[k])
    ensures r.Some? ==> forall k {:trigger MarkerAt(s, k)} :: i <= k < r.value ==> !MarkerAt(s, k)
  {
    if i + 1 >= |s| then None
    else if MarkerAt(s, i) then Some(i)
    else if IsLineTerminator(s[i]) then None
    else CloseFrom(s, i + 1)
  }

  /** A whole match starts at `p`. */
  predicate MatchAt(s: string, p: nat) {
    MarkerAt(s, p) && CloseFrom(s, p + 2).Some?
  }

  /** `entityRegex.exec(text)` with `lastIndex == from`: the leftmost match at or after
      `from`, as the positions of its two markers. */
  function FindFrom(s: string, from: nat): (r: Option<(nat, nat)>)
    decreases |s| - from
    ensures r.Some? ==> from <= r.value.0 && MatchAt(s, r.value.0) && CloseFrom(s, r.value.0 + 2) == Some(r.value.1)
    ensures r.Some? ==> r.value.0 + 2 <= r.value.1 && r.value.1 + 2 <= |s|
  {
    if from + 1 >= |s| then None
    else if MatchAt(s, from) then Some((from, CloseFrom(s, from + 2).value))
    else FindFrom(s, from + 1)
  }

  /** The match found is the leftmost one: none starts between `from` and it, and
      when none is found, none starts anywhere from `from` on. */
  lemma {:induction false} FindFromLeftmost(s: string, from: nat, p: nat)
    requires from <= p && MatchAt(s, p)
    ensures FindFrom(s, from).Some? && FindFrom(s, from).value.0 <= p
    decreases p - from
  {
    if from < p && !MatchAt(s, from) {
      FindFromLeftmost(s, from + 1, p);
    }
  }

  // ---------------------------------------------------------------------------------
  // Splitting a message (lines 78-95)

  datatype Segment = Plain(text: string) | Marked(entity: string)

  /** An entity as the lazy pattern takes it: no line terminator, and no marker starts
      inside it, not even at its last character once the closing marker follows. */
  predicate LazyEntity(e: string) {
    && (forall k :: 0 <= k < |e| ==> !IsLineTerminator(e[k]))
    && (forall k {:trigger MarkerAt(e + "*", k)} :: 0 <= k < |e| ==> !MarkerAt(e + "*", k))
  }

  predicate WellSplit(seg: Segment) {
    match seg
    case Plain(t) => t != []
    case Marked(e) => LazyEntity(e)
  }

  /** The entity between the markers at `p` and `q`. */
  lemma {:induction false} EntityIsLazy(s: string, p: nat, q: nat)
    requires p + 2 <= q && CloseFrom(s, p + 2) == Some(q)
    ensures LazyEntity(s[p + 2..q])
  {
    var e := s[p + 2..q];
    forall k | 0 <= k < |e| ensures !IsLineTerminator(e[k]) {
      assert e[k] == s[p + 2 + k];
    }
    forall k | 0 <= k < |e| ensures !MarkerAt(e + "*", k) {
      assert !MarkerAt(s, p + 2 + k);
      assert (e + "*")[k] == s[p + 2 + k];
      assert (e + "*")[k + 1] == s[p + 3 + k];
    }
  }

  /** The segments of `s` from `from` on, as the loop pushes them: the text before each
      match when there is some, then the entity; after the last match, the rest when
      there is some. */
  function SegmentsFrom(s: string, from: nat): seq<Segment>
    requires from <= |s|
    decreases |s| - from, 1
  {
    match FindFrom(s, from)
    case None => if from < |s| then [Plain(s[from..])] else []
    case Some((p, q)) => SplitAt(s, from, p, q)
  }

  /** The segments from `from` on when the leftmost match has its markers at `p` and `q`. */
  function SplitAt(s: string, from: nat, p: nat, q: nat): seq<Segment>
    requires from <= p && p + 2 <= q && q + 2 <= |s|
    decreases |s| - from, 0
  {
    Before(s, from, p) + [Marked(s[p + 2..q])] + SegmentsFrom(s, q + 2)
  }

  /** Every segment is well split: no empty text, and every entity is one the lazy
      pattern would take. */
  lemma {:induction false} SegmentsFromWellSplit(s: string, from: nat)
    requires from <= |s|
    ensures forall k :: 0 <= k < |SegmentsFrom(s, from)| ==> WellSplit(SegmentsFrom(s, from)[k])
    decreases |s| - from
  {
    var m := FindFrom(s, from);
    if m.Some? {
      var p, q := m.value.0, m.value.1;
      EntityIsLazy(s, p, q);
      var head := Before(s, from, p) + [Marked(s[p + 2..q])];
      SegmentsFromWellSplit(s, q + 2);
      assert forall k :: 0 <= k < |head| ==> WellSplit(head[k]);
      WellSplitAppend(head, SegmentsFrom(s, q + 2));
    }
  }

  lemma {:induction false} WellSplitAppend(a: seq<Segment>, b: seq<Segment>)
    requires forall k :: 0 <= k < |a| ==> WellSplit(a[k])
    requires forall k :: 0 <= k < |b| ==> WellSplit(b[k])
    ensures forall k :: 0 <= k < |a + b| ==> WellSplit((a + b)[k])
  {
    forall k | 0 <= k < |a + b| ensures WellSplit((a + b)[k]) {
      if k >= |a| {
        assert (a + b)[k] == b[k - |a|];
      }
    }
  }

  /** The plain segment before a match, when the match does not start at `from`. */
  function Before(s: string, from: nat, p: nat): (r: seq<Segment>)
    requires from <= p <= |s|
    ensures forall k :: 0 <= k < |r| ==> r[k] == Plain(s[from..p]) && p > from
  {
    if p > from then [Plain(s[from..p])] else []
  }

  /** One step of the split: the text before the leftmost match, its entity, and the
      segments after it. */
  lemma {:induction false} SegmentsFromStep(s: string, from: nat, p: nat, q: nat)
    requires from <= |s| && FindFrom(s, from) == Some((p, q))
    ensures from <= p && p + 2 <= q && q + 2 <= |s|
    ensures SegmentsFrom(s, from) == SplitAt(s, from, p, q)
  {
  }

  function Segments(s: string): seq<Segment> {
    SegmentsFrom(s, 0)
  }

  /** What a segment shows: plain text as it is, an entity between its markers. */
  function Source(seg: Segment): string {
    match seg
    case Plain(t) => t
    case Marked(e) => "**" + e + "**"
  }

  function Render(segs: seq<Segment>): string {
    if segs == [] then [] else Source(segs[0]) + Render(segs[1..])
  }

  lemma {:induction false} RenderAppend(a: seq<Segment>, b: seq<Segment>)
    ensures Render(a + b) == Render(a) + Render(b)
  {
    if a == [] {
      assert a + b == b;
    } else {
      assert (a + b)[0] == a[0] && (a + b)[1..] == a[1..] + b;
      RenderAppend(a[1..], b);
    }
  }

  /** Putting the segments back together, entities between their markers, gives the
      text from `from` on. */
  lemma {:induction false} RenderSegmentsFrom(s: string, from: nat)
    requires from <= |s|
    ensures Render(SegmentsFrom(s, from)) == s[from..]
    decreases |s| - from
  {
    match FindFrom(s, from)
    case None =>
      RenderRest(s, from);
    case Some((p, q)) =>
      RenderSegmentsFrom(s, q + 2);
      RenderStep(s, from, p, q);
  }

  /** No match left: the rest of the text is one plain segment, or none. */
  lemma {:induction false} RenderRest(s: string, from: nat)
    requires from <= |s| && FindFrom(s, from).None?
    ensures Render(SegmentsFrom(s, from)) == s[from..]
  {
    if from < |s| {
      assert Render([Plain(s[from..])]) == s[from..] + Render([]);
      assert SegmentsFrom(s, from) == [Plain(s[from..])];
    } else {
      assert SegmentsFrom(s, from) == [];
    }
  }

  /** One match: the segments from `from` render as the text from `from` when those
      after the match render as the text after it. */
  lemma {:induction false} RenderStep(s: string, from: nat, p: nat, q: nat)
    requires from <= |s| && FindFrom(s, from) == Some((p, q))
    requires Render(SegmentsFrom(s, q + 2)) == s[q + 2..]
    ensures Render(SegmentsFrom(s, from)) == s[from..]
  {
    var pre, mark, tail := Before(s, from, p), [Marked(s[p + 2..q])], SegmentsFrom(s, q + 2);
    SegmentsFromStep(s, from, p, q);
    assert SegmentsFrom(s, from) == pre + mark + tail;
    RenderAppend(pre + mark, tail);
    RenderAppend(pre, mark);
    RenderPieces(s, from, p, q);
    SliceAround(s, from, p, q);
  }

  lemma {:induction false} RenderPieces(s: string, from: nat, p: nat, q: nat)
    requires from <= p && p + 2 <= q <= |s|
    ensures Render(Before(s, from, p)) == s[from..p]
    ensures Render([Marked(s[p + 2..q])]) == "**" + s[p + 2..q] + "**"
  {
    var mark := [Marked(s[p + 2..q])];
    assert Render(mark) == Source(mark[0]) + Render([]);
    if p > from {
      var pre := Before(s, from, p);
      assert Render(pre) == Source(pre[0]) + Render([]);
    }
  }

  lemma {:induction false} SliceAround(s: string, from: nat, p: nat, q: nat)
    requires from <= p && p + 2 <= q && q + 2 <= |s|
    requires MarkerAt(s, p) && MarkerAt(s, q)
    ensures s[from..] == s[from..p] + ("**" + s[p + 2..q] + "**") + s[q + 2..]
  {
    assert s[p..p + 2] == "**" && s[q..q + 2] == "**";
    assert s[q..] == s[q..q + 2] + s[q + 2..];
    assert s[p + 2..] == s[p + 2..q] + s[q..];
    assert s[p..] == s[p..p + 2] + s[p + 2..];
    assert s[from..] == s[from..p] + s[p..];
  }

  /** The message text is exactly its segments put back together. */
  lemma {:induction false} RenderSegments(s: string)
    ensures Render(Segments(s)) == s
  {
    RenderSegmentsFrom(s, 0);
  }

  // ---------------------------------------------------------------------------------
  // Entities on the map (lines 82-88)

  /** `currentMapNodeLabels.some(label => label.toLowerCase() === entityTextLower)` */
  function OnMap(labels: seq<string>, e: string): (r: bool)
    ensures r <==> exists k :: 0 <= k < |labels| && EqualsIgnoreCase(labels[k], e)
  {
    if labels == [] then false
    else if EqualsIgnoreCase(labels[0], e) then true
    else
      assert forall k :: 1 <= k < |labels| ==> labels[k] == labels[1..][k - 1];
      OnMap(labels[1..], e)
  }

  /** The key under which an added entity is remembered: the message index, an
      underscore, the entity. */
  function EntityKey(index: nat, e: string): string {
    KeyPrefix(index) + e
  }

  /** The part of a key that names the message: its index and an underscore. */
  function KeyPrefix(index: nat): string {
    NatToString(index) + "_"
  }

  /** Different messages or different entities give different keys, so the same
      entity can be added once from each message. */
  lemma {:induction false} EntityKeyInjective(i: nat, e: string, j: nat, f: string)
    requires EntityKey(i, e) == EntityKey(j, f)
    ensures i == j && e == f
  {
    var a, b := NatToString(i), NatToString(j);
    var key := EntityKey(i, e);
    KeyUnderscore(i, e);
    KeyUnderscore(j, f);
    assert a == key[..|a|] == b;
    NatToStringInjective(i, j);
    assert e == key[|a| + 1..] == f;
  }

  /** The first underscore of a key is the one after the message index. */
  lemma {:induction false} KeyUnderscore(i: nat, e: string)
    ensures IndexOf(EntityKey(i, e), '_') == |NatToString(i)|
  {
    var a, key := NatToString(i), EntityKey(i, e);
    assert key[..|a|] == a && key[|a|] == '_';
    assert '_' !in a;
  }

  /** How an entity is shown: already on the map (not clickable), or new, marked when
      it has already been added from this message. */
  datatype Part = TextPart(text: string) | ExistingEntity(entity: string) | NewEntity(entity: string, added: bool)

  function Classify(seg: Segment, prefix: string, labels: seq<string>, clicked: set<string>): Part {
    match seg
    case Plain(t) => TextPart(t)
    case Marked(e) => if OnMap(labels, e) then ExistingEntity(e) else NewEntity(e, prefix + e in clicked)
  }

  function ClassifyAll(segs: seq<Segment>, prefix: string, labels: seq<string>, clicked: set<string>): (r: seq<Part>)
    ensures |r| == |segs|
  {
    if segs == [] then [] else [Classify(segs[0], prefix, labels, clicked)] + ClassifyAll(segs[1..], prefix, labels, clicked)
  }

  /** Each part is its own segment's classification. */
  lemma {:induction false} ClassifyAllAt(segs: seq<Segment>, prefix: string, labels: seq<string>, clicked: set<string>)
    ensures forall k :: 0 <= k < |segs| ==> ClassifyAll(segs, prefix, labels, clicked)[k] == Classify(segs[k], prefix, labels, clicked)
  {
    if segs != [] {
      ClassifyAllAt(segs[1..], prefix, labels, clicked);
      forall k | 1 <= k < |segs|
        ensures ClassifyAll(segs, prefix, labels, clicked)[k] == Classify(segs[k], prefix, labels, clicked)
      {
        assert segs[1..][k - 1] == segs[k];
      }
    }
  }

  /** Each part shows its segment: text as text, and an entity as existing exactly when
      some label equals it ignoring case. */
  lemma {:induction false} PartsShowSegments(s: string, index: nat, labels: seq<string>, clicked: set<string>)
    ensures var segs, parts := Segments(s), ClassifyAll(Segments(s), KeyPrefix(index), labels, clicked);
      forall k :: 0 <= k < |parts| ==>
        && (parts[k].TextPart? <==> segs[k].Plain?)
        && (parts[k].TextPart? ==> parts[k].text == segs[k].text && parts[k].text != [])
        && (parts[k].ExistingEntity? <==> segs[k].Marked? && exists j :: 0 <= j < |labels| && EqualsIgnoreCase(labels[j], segs[k].entity))
        && (parts[k].NewEntity? ==> parts[k].entity == segs[k].entity && (parts[k].added <==> EntityKey(index, segs[k].entity) in clicked))
  {
    SegmentsFromWellSplit(s, 0);
    ClassifyAllAt(Segments(s), KeyPrefix(index), labels, clicked);
  }

  /** `renderMessageContent` for the message at `index`: an entity's key is the
      message's key prefix followed by the entity. */
  method RenderMessage(text: string, index: nat, labels: seq<string>, clicked: set<string>) returns (parts: seq<Part>)
    ensures parts == ClassifyAll(Segments(text), KeyPrefix(index), labels, clicked)
  {
    parts := RenderParts(text, KeyPrefix(index), labels, clicked);
  }

  /** The loop over `entityRegex.exec`, with the keys' prefix computed once. */
  method RenderParts(text: string, prefix: string, labels: seq<string>, clicked: set<string>) returns (parts: seq<Part>)
    ensures parts == ClassifyAll(Segments(text), prefix, labels, clicked)
  {
    parts := [];
    var lastIndex: nat := 0;
    var m := FindFrom(text, lastIndex);
    ghost var total := ClassifyAll(Segments(text), prefix, labels, clicked);
    while m.Some?
      invariant m == FindFrom(text, lastIndex)
      invariant Rendered(text, lastIndex, parts, total, prefix, labels, clicked)
      decreases |text| - lastIndex
    {
      parts, lastIndex, m := Advance(text, prefix, labels, clicked, parts, lastIndex, m, total);
    }
    if lastIndex < |text| {
      parts := parts + [TextPart(text[lastIndex..])];
    }
  }

  /** One turn of the loop: push the parts of the match found, move `lastIndex` past
      its closing marker and look for the next match. */
  method Advance(text: string, prefix: string, labels: seq<string>, clicked: set<string>,
                 parts: seq<Part>, lastIndex: nat, m: Option<(nat, nat)>, ghost total: seq<Part>)
    returns (parts': seq<Part>, lastIndex': nat, m': Option<(nat, nat)>)
    requires m.Some? && m == FindFrom(text, lastIndex)
    requires Rendered(text, lastIndex, parts, total, prefix, labels, clicked)
    ensures lastIndex < lastIndex' && m' == FindFrom(text, lastIndex')
    ensures Rendered(text, lastIndex', parts', total, prefix, labels, clicked)
  {
    var p, q := m.value.0, m.value.1;
    var more := RenderMatch(text, lastIndex, p, q, prefix, labels, clicked);
    RenderedStep(text, lastIndex, p, q, parts, more, total, prefix, labels, clicked);
    parts' := parts + more;
    lastIndex' := q + 2;
    m' := FindFrom(text, lastIndex');
  }

  /** The parts one match pushes: the text before it, when there is some, then the
      entity, shown as on the map or as new. */
  method RenderMatch(text: string, lastIndex: nat, p: nat, q: nat, prefix: string, labels: seq<string>, clicked: set<string>)
    returns (more: seq<Part>)
    requires lastIndex <= p && p + 2 <= q <= |text|
    ensures more == ClassifyAll(Before(text, lastIndex, p) + [Marked(text[p + 2..q])], prefix, labels, clicked)
  {
    more := [];
    if p > lastIndex {
      more := more + [TextPart(text[lastIndex..p])];
    }
    var entity := text[p + 2..q];
    var key := prefix + entity;
    if OnMap(labels, entity) {
      more := more + [ExistingEntity(entity)];
    } else {
      more := more + [NewEntity(entity, key in clicked)];
    }
  }

  /** The loop invariant of `RenderParts`: the parts pushed so far, followed by the
      parts of the text from `lastIndex` on, are the parts of the whole message. */
  ghost predicate Rendered(text: string, lastIndex: nat, parts: seq<Part>, total: seq<Part>, prefix: string, labels: seq<string>, clicked: set<string>) {
    lastIndex <= |text| && total == parts + ClassifyAll(SegmentsFrom(text, lastIndex), prefix, labels, clicked)
  }

  lemma {:induction false} RenderedStep(text: string, lastIndex: nat, p: nat, q: nat, parts: seq<Part>, more: seq<Part>, total: seq<Part>,
                     prefix: string, labels: seq<string>, clicked: set<string>)
    requires Rendered(text, lastIndex, parts, total, prefix, labels, clicked)
    requires FindFrom(text, lastIndex) == Some((p, q))
    requires p + 2 <= q <= |text| && lastIndex <= p
    requires more == ClassifyAll(Before(text, lastIndex, p) + [Marked(text[p + 2..q])], prefix, labels, clicked)
    ensures Rendered(text, q + 2, parts + more, total, prefix, labels, clicked)
  {
    var head := Before(text, lastIndex, p) + [Marked(text[p + 2..q])];
    var tail := SegmentsFrom(text, q + 2);
    var rest := ClassifyAll(tail, prefix, labels, clicked);
    SegmentsFromStep(text, lastIndex, p, q);
    assert SegmentsFrom(text, lastIndex) == head + tail;
    ClassifyAppend(head, tail, prefix, labels, clicked);
    assert ClassifyAll(head + tail, prefix, labels, clicked) == more + rest;
    assert total == parts + (more + rest);
    assert parts + (more + rest) == (parts + more) + rest;
  }

  lemma {:induction false} ClassifyAppend(a: seq<Segment>, b: seq<Segment>, prefix: string, labels: seq<string>, clicked: set<string>)
    ensures ClassifyAll(a + b, prefix, labels, clicked) == ClassifyAll(a, prefix, labels, clicked) + ClassifyAll(b, prefix, labels, clicked)
  {
    if a == [] {
      assert a + b == b;
    } else {
      assert (a + b)[0] == a[0] && (a + b)[1..] == a[1..] + b;
      ClassifyAppend(a[1..], b, prefix, labels, clicked);
    }
  }

  // ---------------------------------------------------------------------------------
  // Adding a new entity (lines 70-76)

  class EntityClicks {
    var clicked: set<string>

    constructor ()
      ensures clicked == {}
    {
      clicked := {};
    }

    /** `handleNewEntityClick`: returns the entity and its message when the add callback
        is invoked. A key already recorded, or a busy panel, does nothing; otherwise the
        callback runs once and the key is recorded. */
    method Click(entity: string, message: string, index: nat, loading: bool) returns (add: Option<(string, string)>)
      modifies this
      ensures EntityKey(index, entity) in old(clicked) || loading ==> add == None && clicked == old(clicked)
      ensures !(EntityKey(index, entity) in old(clicked) || loading) ==>
                add == Some((entity, message)) && clicked == old(clicked) + {EntityKey(index, entity)}
    {
      var key := EntityKey(index, entity);
      if key in clicked || loading {
        return None;
      }
      add := Some((entity, message));
      clicked := clicked + {key};
    }
  }
}
