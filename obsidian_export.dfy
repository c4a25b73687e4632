/** The Obsidian vault export: a safe file name per note and the Markdown text of each
    note (YAML frontmatter, description, wiki-links to the notes it points to). */
module ObsidianExport {
  import opened Strings

  const Untitled: string := "Untitled_Note"

  /** The characters a file name may not hold: `/ \ : * ? " < > |`. */
  predicate IsForbidden(c: char) {
    c == '/' || c == '\\' || c == ':' || c == '*' || c == '?' || c == '"' || c == '<' || c == '>' || c == '|'
  }

  predicate NoForbidden(s: string) { forall i :: 0 <= i < |s| ==> !IsForbidden(s[i]) }

  /** No two underscores in a row. */
  predicate NoDoubleUnderscore(s: string) {
    forall i :: 0 <= i < |s| - 1 ==> !(s[i] == '_' && s[i + 1] == '_')
  }

  /** `replace(/[\/\\:*?"<>|]/g, '_')` */
  function ReplaceForbidden(s: string): (r: string)
    ensures |r| == |s| && NoForbidden(r)
    ensures forall i :: 0 <= i < |s| ==> r[i] == (if IsForbidden(s[i]) then '_' else s[i])
  {
    if s == [] then [] else [if IsForbidden(s[0]) then '_' else s[0]] + ReplaceForbidden(s[1..])
  }

  /** The number of underscores `s` starts with. */
  function UnderscoreRun(s: string): (r: nat)
    ensures r <= |s|
    ensures forall i :: 0 <= i < r ==> s[i] == '_'
    ensures r < |s| ==> s[r] != '_'
  {
    if s != [] && s[0] == '_' then 1 + UnderscoreRun(s[1..]) else 0
  }

  /** `replace(/__+/g, '_')`: every run of two or more underscores becomes one. */
  function Collapse(s: string): (r: string)
    ensures |r| <= |s|
    ensures s != [] ==> r != [] && r[0] == s[0] && r[|r| - 1] == s[|s| - 1]
    decreases |s|
  {
    if s == [] then []
    else if UnderscoreRun(s) >= 2 then "_" + Collapse(s[UnderscoreRun(s)..])
    else [s[0]] + Collapse(s[1..])
  }

  /** A maximal run of underscores, one or more long, becomes a single underscore. */
  lemma {:induction false} CollapseRun(u: string, q: string)
    requires u != [] && forall i :: 0 <= i < |u| ==> u[i] == '_'
    requires q == [] || q[0] != '_'
    ensures Collapse(u + q) == "_" + Collapse(q)
  {
    var s := u + q;
    assert forall i :: 0 <= i < |u| ==> s[i] == u[i];
    assert |u| < |s| ==> s[|u|] == q[0];
    assert s[0] == '_';
    if |u| >= 2 {
      assert s[|u|..] == q;
    } else {
      assert s[1..] == q;
    }
  }

  /** A character other than an underscore is kept, in its place. */
  lemma {:induction false} CollapseOther(c: char, q: string)
    requires c != '_'
    ensures Collapse([c] + q) == [c] + Collapse(q)
  {
    assert ([c] + q)[1..] == q;
  }

  /** Collapsing brings in no forbidden character. */
  lemma {:induction false} CollapseNoForbidden(s: string)
    requires NoForbidden(s)
    ensures NoForbidden(Collapse(s))
    decreases |s|
  {
    if s != [] {
      var rest := if UnderscoreRun(s) >= 2 then s[UnderscoreRun(s)..] else s[1..];
      assert NoForbidden(rest);
      CollapseNoForbidden(rest);
    }
  }

  /** Trimming brings in no forbidden character. */
  lemma {:induction false} TrimNoForbidden(s: string)
    requires NoForbidden(s)
    ensures NoForbidden(Trim(s))
  {
    var a := TrimStart(s);
    assert NoForbidden(a) by {
      forall i | 0 <= i < |a| ensures !IsForbidden(a[i]) {
        assert a[i] == s[|s| - |a| + i];
      }
    }
    var b := TrimEnd(a);
    assert NoForbidden(b) by {
      forall i | 0 <= i < |b| ensures !IsForbidden(b[i]) {
        assert b[i] == a[i];
      }
    }
  }

  /** After collapsing, no two underscores are adjacent. */
  lemma {:induction false} CollapseNoDouble(s: string)
    ensures NoDoubleUnderscore(Collapse(s))
    decreases |s|
  {
    if s != [] {
      if UnderscoreRun(s) >= 2 {
        CollapseNoDouble(s[UnderscoreRun(s)..]);
      } else {
        CollapseNoDouble(s[1..]);
      }
    }
  }

  /** Text without a double underscore is not changed by collapsing. */
  lemma {:induction false} CollapseKeeps(s: string)
    requires NoDoubleUnderscore(s)
    ensures Collapse(s) == s
    decreases |s|
  {
    if s != [] {
      assert UnderscoreRun(s) < 2 by {
        if |s| >= 2 && s[0] == '_' {
          assert !(s[0] == '_' && s[1] == '_');
        }
      }
      CollapseKeeps(s[1..]);
    }
  }

  /** Text without forbidden characters is not changed by the replacement. */
  lemma {:induction false} ReplaceForbiddenKeeps(s: string)
    requires NoForbidden(s)
    ensures ReplaceForbidden(s) == s
  {
  }

  /** `sanitizeFilename`: a name safe for the file system, never empty. */
  function SanitizeFilename(title: string): (r: string)
    ensures r != []
    ensures NoForbidden(r)
    ensures NoLeadingWhitespace(r) && NoTrailingWhitespace(r)
    ensures NoDoubleUnderscore(r)
    ensures AllWhitespace(title) ==> r == Untitled
    ensures !AllWhitespace(title) ==> r == Collapse(Trim(ReplaceForbidden(title)))
  {
    UntitledIsSanitized();
    if title == [] then Untitled
    else
      var c := Collapse(Trim(ReplaceForbidden(title)));
      CollapsedSanitized(title);
      CleanedEmpty(title);
      if c == [] then Untitled else c
  }

  /** Replacing, trimming and collapsing leave nothing exactly when the title is all
      whitespace: the replacement turns no character into whitespace or out of it. */
  lemma {:induction false} CleanedEmpty(title: string)
    ensures Collapse(Trim(ReplaceForbidden(title))) == [] <==> AllWhitespace(title)
  {
    var t := ReplaceForbidden(title);
    assert AllWhitespace(t) <==> AllWhitespace(title) by {
      forall i | 0 <= i < |title| ensures IsWhitespace(t[i]) <==> IsWhitespace(title[i]) {
        assert t[i] == (if IsForbidden(title[i]) then '_' else title[i]);
      }
    }
    TrimEmpty(t);
  }

  /** Replacing, trimming and collapsing leave a name with no forbidden character, no
      whitespace at either end and no doubled underscore. */
  lemma {:induction false} CollapsedSanitized(title: string)
    ensures var c := Collapse(Trim(ReplaceForbidden(title)));
      && NoForbidden(c) && NoDoubleUnderscore(c)
      && NoLeadingWhitespace(c) && NoTrailingWhitespace(c)
  {
    var t := Trim(ReplaceForbidden(title));
    CollapseNoDouble(t);
    TrimNoForbidden(ReplaceForbidden(title));
    CollapseNoForbidden(t);
  }

  /** The fallback name itself is a sanitised name. */
  lemma {:induction false} UntitledIsSanitized()
    ensures Untitled != [] && NoForbidden(Untitled) && NoDoubleUnderscore(Untitled)
    ensures NoLeadingWhitespace(Untitled) && NoTrailingWhitespace(Untitled)
  {
    var u := Untitled;
    assert u == ['U', 'n', 't', 'i', 't', 'l', 'e', 'd', '_', 'N', 'o', 't', 'e'];
    assert forall i :: 0 <= i < |u| ==> (u[i] == '_' <==> i == 8);
  }

  /** A name is unchanged by sanitising when it is non-empty, has no forbidden character,
      no whitespace at either end and no double underscore. */
  lemma {:induction false} SanitizeKeeps(s: string)
    requires s != [] && NoForbidden(s) && NoDoubleUnderscore(s)
    requires NoLeadingWhitespace(s) && NoTrailingWhitespace(s)
    ensures SanitizeFilename(s) == s
  {
    ReplaceForbiddenKeeps(s);
    TrimKeeps(s);
    CollapseKeeps(s);
  }

  /** Sanitising a sanitised name returns it unchanged. */
  lemma {:induction false} SanitizeIdempotent(title: string)
    ensures SanitizeFilename(SanitizeFilename(title)) == SanitizeFilename(title)
  {
    SanitizeKeeps(SanitizeFilename(title));
  }

  /** The data one note is written from. An absent description is the empty string. */
  datatype NoteData = NoteData(
    id: string,
    originalTitle: string,
    description: string,
    tags: seq<string>,
    aliases: seq<string>,
    outgoingLinks: seq<string>)

  /** One YAML list line per item, in order. */
  function ListLines(items: seq<string>): (r: seq<string>)
    ensures |r| == |items|
    ensures forall k :: 0 <= k < |items| ==> r[k] == "  - " + items[k]
  {
    seq(|items|, k requires 0 <= k < |items| => "  - " + items[k])
  }

  /** A YAML block: its heading then its list lines; nothing for an empty list. */
  function Block(heading: string, items: seq<string>): (r: seq<string>)
    ensures items == [] <==> r == []
    ensures items != [] ==> r == [heading] + ListLines(items)
  {
    if items == [] then [] else [heading] + ListLines(items)
  }

  /** The frontmatter lines: the title, then the tags block, then the aliases block. */
  function FrontmatterParts(d: NoteData): (r: seq<string>)
    ensures |r| >= 1 && r[0] == "title: " + d.originalTitle
    ensures |r| == 1 + |Block("tags:", d.tags)| + |Block("aliases:", d.aliases)|
  {
    ["title: " + d.originalTitle] + Block("tags:", d.tags) + Block("aliases:", d.aliases)
  }

  function Frontmatter(d: NoteData): string {
    "---\n" + Join(FrontmatterParts(d), "\n") + "\n---"
  }

  /** One wiki-link line per outgoing link, in order. */
  function LinkLines(links: seq<string>): (r: seq<string>)
    ensures |r| == |links|
    ensures forall k :: 0 <= k < |links| ==> r[k] == "- [[" + links[k] + "]]"
  {
    seq(|links|, k requires 0 <= k < |links| => "- [[" + links[k] + "]]")
  }

  /** The body: the description, then (when there are links) a separator and the links. */
  function Body(d: NoteData): string {
    if d.outgoingLinks == [] then d.description
    else d.description + (if d.description != [] then "\n\n" else "\n") + Join(LinkLines(d.outgoingLinks), "\n")
  }

  /** The whole Markdown text of a note. */
  function Note(d: NoteData): string {
    Frontmatter(d) + "\n" + Body(d)
  }

  /** The note opens the frontmatter with the title line and closes it before the body. */
  lemma {:induction false} NoteLayout(d: NoteData)
    ensures StartsWith(Note(d), "---\ntitle: " + d.originalTitle)
    ensures Note(d) == Frontmatter(d) + "\n" + Body(d) && EndsWith(Frontmatter(d), "\n---")
  {
    var parts := FrontmatterParts(d);
    assert parts == [parts[0]] + parts[1..];
    JoinStartsWithFirst(parts, "\n");
    var n := Note(d);
    var lead := "---\ntitle: " + d.originalTitle;
    assert n == lead + (Join(parts, "\n")[|parts[0]|..] + "\n---\n" + Body(d)) by {
      assert Join(parts, "\n") == parts[0] + Join(parts, "\n")[|parts[0]|..];
    }
    assert n[..|lead|] == lead;
    var f := Frontmatter(d);
    assert f[|f| - 4..] == "\n---";
  }

  /** A joined list starts with its first element. */
  lemma {:induction false} JoinStartsWithFirst(parts: seq<string>, sep: string)
    requires parts != []
    ensures StartsWith(Join(parts, sep), parts[0])
  {
    var j := Join(parts, sep);
    if |parts| > 1 {
      assert j == parts[0] + (sep + Join(parts[1..], sep));
    }
    assert j[..|parts[0]|] == parts[0];
  }

  /** The tags and aliases headings appear exactly when their lists are non-empty, each
      followed by its items in order. */
  lemma {:induction false} FrontmatterBlocks(d: NoteData)
    ensures d.tags != [] ==> FrontmatterParts(d)[1] == "tags:" && FrontmatterParts(d)[2..2 + |d.tags|] == ListLines(d.tags)
    ensures d.tags == [] && d.aliases == [] ==> FrontmatterParts(d) == ["title: " + d.originalTitle]
    ensures d.aliases != [] ==>
      var a := 1 + |Block("tags:", d.tags)|;
      FrontmatterParts(d)[a] == "aliases:" && FrontmatterParts(d)[a + 1..] == ListLines(d.aliases)
  {
    var p := FrontmatterParts(d);
    var t := Block("tags:", d.tags);
    var a := Block("aliases:", d.aliases);
    assert p == ["title: " + d.originalTitle] + t + a;
    if d.tags != [] {
      assert p[1] == t[0];
      assert p[2..2 + |d.tags|] == t[1..];
    }
    if d.aliases != [] {
      assert p[1 + |t|..] == a;
    }
  }

  /** Without links the body is exactly the description; with links it keeps the
      description, adds one blank line (or a bare line break when the description is
      empty), and ends with the joined link lines. */
  lemma {:induction false} BodyShape(d: NoteData)
    ensures d.outgoingLinks == [] ==> Body(d) == d.description
    ensures d.outgoingLinks != [] && d.description != [] ==>
      Body(d) == d.description + "\n\n" + Join(LinkLines(d.outgoingLinks), "\n")
    ensures d.outgoingLinks != [] && d.description == [] ==>
      Body(d) == "\n" + Join(LinkLines(d.outgoingLinks), "\n")
  {
  }

  /** `generateMarkdownContent`: collects the frontmatter lines and appends the body step
      by step; the text it builds is `Note(d)`. */
  method GenerateMarkdownContent(d: NoteData) returns (md: string)
    ensures md == Note(d)
  {
    var parts: seq<string> := ["title: " + d.originalTitle];
    if |d.tags| > 0 {
      parts := parts + ["tags:"];
      var i := 0;
      while i < |d.tags|
        invariant 0 <= i <= |d.tags|
        invariant parts == ["title: " + d.originalTitle, "tags:"] + ListLines(d.tags[..i])
      {
        assert ListLines(d.tags[..i + 1]) == ListLines(d.tags[..i]) + ["  - " + d.tags[i]];
        parts := parts + ["  - " + d.tags[i]];
        i := i + 1;
      }
      assert d.tags[..i] == d.tags;
    }
    ghost var afterTags := parts;
    assert afterTags == ["title: " + d.originalTitle] + Block("tags:", d.tags);
    if |d.aliases| > 0 {
      parts := parts + ["aliases:"];
      var i := 0;
      while i < |d.aliases|
        invariant 0 <= i <= |d.aliases|
        invariant parts == afterTags + ["aliases:"] + ListLines(d.aliases[..i])
      {
        assert ListLines(d.aliases[..i + 1]) == ListLines(d.aliases[..i]) + ["  - " + d.aliases[i]];
        parts := parts + ["  - " + d.aliases[i]];
        i := i + 1;
      }
      assert d.aliases[..i] == d.aliases;
    }
    assert parts == FrontmatterParts(d);
    var frontmatter := "---\n" + Join(parts, "\n") + "\n---";
    var body := d.description;
    if |d.outgoingLinks| > 0 {
      if |body| > 0 {
        body := body + "\n\n";
      } else {
        body := body + "\n";
      }
      body := body + Join(LinkLines(d.outgoingLinks), "\n");
    }
    md := frontmatter + "\n" + body;
  }
}
