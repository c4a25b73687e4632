/** The tolerant reader for the JSON the language model returns: trim, strip a Markdown
    code fence, repair a stray word between a string value and the next object, rescue an
    embedded object, then hand the text to the JSON parser. The JSON grammar itself is a
    parameter (`jsonParse`). */
module Parse {
  import opened Wrappers
  import opened Strings

  const Fence: string := "```"

  /** Length of the longest prefix of `s` made of `\w` characters. */
  function WordSpan(s: string): (r: nat)
    ensures r <= |s|
    ensures forall i :: 0 <= i < r ==> IsWordChar(s[i])
    ensures r < |s| ==> !IsWordChar(s[r])
  {
    if s != [] && IsWordChar(s[0]) then 1 + WordSpan(s[1..]) else 0
  }

  /** The word span stops before the first character that is not a word character. */
  lemma {:induction false} WordSpanStops(s: string, k: nat)
    requires k <= |s|
    requires forall i :: 0 <= i < k ==> IsWordChar(s[i])
    requires k < |s| ==> !IsWordChar(s[k])
    ensures WordSpan(s) == k
  {
    if k > 0 {
      WordSpanStops(s[1..], k - 1);
    }
  }

  /** Whether the fence pattern ` ^```(\w*)?\s*\n?(.*?)\n?\s*```$ ` (dot matching newlines)
      matches the whole of `s`: it does exactly when `s` opens and closes with three
      backticks that do not overlap. */
  predicate IsFenced(s: string) {
    |s| >= 6 && StartsWith(s, Fence) && EndsWith(s, Fence)
  }

  /** The second capture group of the fence pattern on a fenced `s`. The optional language
      tag and the whitespace after it are taken greedily; the lazy body then stops at the
      trailing whitespace before the closing fence. */
  function FenceBody(s: string): (g: string)
    requires IsFenced(s)
    ensures NoLeadingWhitespace(g) && NoTrailingWhitespace(g)
  {
    var body := FenceTail(s);
    TrimEndKeepsFirst(body[..|body| - 3]);
    TrimEnd(body[..|body| - 3])
  }

  /** What follows the opening backticks, the language tag and the whitespace after it;
      the closing backticks are still at its end. */
  function FenceTail(s: string): (body: string)
    requires IsFenced(s)
    ensures |body| >= 3 && NoLeadingWhitespace(body)
  {
    var after := s[3..];
    assert EndsWith(after, Fence) by {
      assert after[|after| - 3..] == s[|s| - 3..];
    }
    var rest := after[WordSpan(after)..];
    SpansKeepFence(after);
    TrimStart(rest)
  }

  /** Neither the tag nor the whitespace can reach into the closing backticks. */
  lemma {:induction false} SpansKeepFence(after: string)
    requires EndsWith(after, Fence)
    ensures WordSpan(after) <= |after| - 3
    ensures |TrimStart(after[WordSpan(after)..])| >= 3
  {
    assert after[|after| - 3..] == Fence;
    assert after[|after| - 3..][0] == '`';
    assert !IsWordChar('`');
    var rest := after[WordSpan(after)..];
    assert rest[|rest| - 3] == '`';
    TrimStartKeepsFrom(rest, |rest| - 3);
  }

  /** Trimming the start never removes a character that follows one that is not whitespace. */
  lemma {:induction false} TrimStartKeepsFrom(s: string, i: nat)
    requires i < |s| && !IsWhitespace(s[i])
    ensures |TrimStart(s)| >= |s| - i
  {
    if i > 0 && IsWhitespace(s[0]) {
      TrimStartKeepsFrom(s[1..], i - 1);
      assert TrimStart(s) == TrimStart(s[1..]);
    } else {
      assert TrimStart(s) == s;
    }
  }

  /** Lines 8-16: trim the reply and, when it is a fenced code block with a non-empty body,
      keep the trimmed body. */
  function StripFence(str: string): (r: string)
    ensures NoLeadingWhitespace(r) && NoTrailingWhitespace(r)
    ensures !IsFenced(Trim(str)) ==> r == Trim(str)
  {
    var s := Trim(str);
    if IsFenced(s) && FenceBody(s) != [] then Trim(FenceBody(s)) else s
  }

  /** The states of the junk-word pattern `(")\s*([A-Za-z][A-Za-z0-9]*)\s*(\{)` after its
      opening quote: before the word, inside the word, after the word. The character
      classes of consecutive parts are disjoint, so the pattern matches deterministically. */
  datatype JunkState = BeforeWord | InWord | AfterWord

  /** The number of characters of `t` the rest of the pattern consumes from state `q`,
      up to and including the `{`; 0 when it does not match. */
  function TailLen(q: JunkState, t: string): (r: nat)
    ensures r <= |t|
    ensures r > 0 ==> t[r - 1] == '{'
    decreases |t|
  {
    if t == [] then 0
    else
      var c := t[0];
      var next: Option<JunkState> :=
        match q
        case BeforeWord =>
          if IsWhitespace(c) then Some(BeforeWord) else if IsAsciiLetter(c) then Some(InWord) else None
        case InWord =>
          if IsAsciiAlnum(c) then Some(InWord) else if IsWhitespace(c) then Some(AfterWord) else None
        case AfterWord =>
          if IsWhitespace(c) then Some(AfterWord) else None;
      if q != BeforeWord && c == '{' then 1
      else if next.None? then 0
      else
        var k := TailLen(next.value, t[1..]);
        if k == 0 then 0 else k + 1
  }

  /** The length of the junk-word match at the start of `s`, or 0 when there is none. */
  function JunkMatchLen(s: string): (r: nat)
    ensures r <= |s|
    ensures r > 0 ==> s[0] == '"' && s[r - 1] == '{'
  {
    if s != [] && s[0] == '"' then
      var k := TailLen(BeforeWord, s[1..]);
      if k == 0 then 0 else k + 1
    else 0
  }

  /** No junk word starts anywhere in `s`. */
  predicate JunkFree(s: string) {
    forall i :: 0 <= i <= |s| ==> JunkMatchLen(s[i..]) == 0
  }

  /** The text that replaces each junk match: the quote, a closing brace, a comma and a
      line break, then the opening brace. */
  const Patch: string := "\"},\n{"

  /** `replace` with the global junk pattern: scanning left to right, every match is
      replaced by `Patch` and the scan resumes after it. */
  function Repair(s: string): (r: string)
    decreases |s|
  {
    if s == [] then []
    else if JunkMatchLen(s) > 0 then Patch + Repair(s[JunkMatchLen(s)..])
    else [s[0]] + Repair(s[1..])
  }

  /** Lines 29-38: the repair runs only when the pattern finds a match. */
  function RepairJunk(s: string): (r: string)
    ensures r == Repair(s)
  {
    if JunkFree(s) then (RepairLeavesJunkFree(s); s) else Repair(s)
  }

  /** A text without junk is left as it is. */
  lemma {:induction false} RepairLeavesJunkFree(s: string)
    requires JunkFree(s)
    ensures Repair(s) == s
    decreases |s|
  {
    if s != [] {
      assert JunkMatchLen(s[0..]) == 0;
      assert s[0..] == s;
      assert JunkFree(s[1..]) by {
        forall i | 0 <= i <= |s[1..]|
          ensures JunkMatchLen(s[1..][i..]) == 0
        {
          assert s[1..][i..] == s[i + 1..];
        }
      }
      RepairLeavesJunkFree(s[1..]);
    }
  }

  /** Where the pattern fails from state `q` on `t`, it also fails on the repaired `t`. */
  lemma {:induction false} RepairKeepsTailFailing(q: JunkState, t: string)
    requires TailLen(q, t) == 0
    ensures TailLen(q, Repair(t)) == 0
    decreases |t|
  {
    if t != [] && JunkMatchLen(t) == 0 {
      var r := Repair(t);
      assert r[0] == t[0] && r[1..] == Repair(t[1..]);
      var c := t[0];
      if q == BeforeWord && IsWhitespace(c) {
        RepairKeepsTailFailing(BeforeWord, t[1..]);
      } else if q == BeforeWord && IsAsciiLetter(c) {
        RepairKeepsTailFailing(InWord, t[1..]);
      } else if q == InWord && IsAsciiAlnum(c) {
        RepairKeepsTailFailing(InWord, t[1..]);
      } else if q == InWord && IsWhitespace(c) && c != '{' {
        RepairKeepsTailFailing(AfterWord, t[1..]);
      } else if q == AfterWord && IsWhitespace(c) {
        RepairKeepsTailFailing(AfterWord, t[1..]);
      }
    } else if t != [] {
      assert Repair(t)[0] == '"';
    }
  }

  /** After the repair no junk word is left: the pattern finds nothing more. */
  lemma {:induction false} RepairIsJunkFree(s: string)
    ensures JunkFree(Repair(s))
    decreases |s|
  {
    var r := Repair(s);
    if s == [] {
      assert JunkMatchLen(r[0..]) == 0;
    } else if JunkMatchLen(s) > 0 {
      var rest := Repair(s[JunkMatchLen(s)..]);
      RepairIsJunkFree(s[JunkMatchLen(s)..]);
      forall i | 0 <= i <= |r|
        ensures JunkMatchLen(r[i..]) == 0
      {
        if i >= |Patch| {
          assert r[i..] == rest[i - |Patch|..];
        } else if i == 0 {
          assert r[1] == '}';
          assert TailLen(BeforeWord, r[1..]) == 0;
        } else {
          assert r[i] != '"';
        }
      }
    } else {
      var rest := Repair(s[1..]);
      assert r == [s[0]] + rest;
      RepairIsJunkFree(s[1..]);
      forall i | 0 <= i <= |r|
        ensures JunkMatchLen(r[i..]) == 0
      {
        if i >= 1 {
          assert r[i..] == rest[i - 1..];
        } else if s[0] == '"' {
          assert r[0..] == r;
          assert TailLen(BeforeWord, s[1..]) == 0;
          RepairKeepsTailFailing(BeforeWord, s[1..]);
          assert r[1..] == rest;
        }
      }
    }
  }

  /** Repairing twice is repairing once. */
  lemma {:induction false} RepairIdempotent(s: string)
    ensures Repair(Repair(s)) == Repair(s)
  {
    RepairIsJunkFree(s);
    RepairLeavesJunkFree(Repair(s));
  }

  /** Whether the text already looks like a whole array or a whole object. */
  predicate LooksWhole(s: string) {
    (StartsWith(s, "[") && EndsWith(s, "]")) || (StartsWith(s, "{") && EndsWith(s, "}"))
  }

  /** Lines 44-56: when the text is neither a whole array nor a whole object, keep the
      span from the first `{` to the last `}` if there is one. */
  function Rescue(s: string): (r: string)
    ensures r == s || (StartsWith(r, "{") && EndsWith(r, "}") && |r| >= 2)
    ensures r != s ==> !LooksWhole(s) && 0 <= IndexOf(s, '{') < LastIndexOf(s, '}') + 1 <= |s|
    ensures r != s ==> r == s[IndexOf(s, '{')..LastIndexOf(s, '}') + 1]
    ensures r != s <==> !LooksWhole(s) && IndexOf(s, '{') != -1 && LastIndexOf(s, '}') + 1 > IndexOf(s, '{')
  {
    if !LooksWhole(s) then
      var start := IndexOf(s, '{');
      var end := LastIndexOf(s, '}') + 1;
      if start != -1 && end != 0 && end > start then s[start..end] else s
    else s
  }

  /** The rescued span has no `{` before it and no `}` after it in the original text. */
  lemma {:induction false} RescueIsOutermost(s: string)
    requires Rescue(s) != s
    ensures '{' !in s[..IndexOf(s, '{')] && '}' !in s[LastIndexOf(s, '}') + 1..]
  {
  }

  /** Rescuing twice is rescuing once: a rescued span is already a whole object. */
  lemma {:induction false} RescueIdempotent(s: string)
    ensures Rescue(Rescue(s)) == Rescue(s)
  {
    var r := Rescue(s);
    if r != s {
      assert LooksWhole(r);
    }
  }

  /** The text handed to the JSON parser. */
  function Clean(str: string): string {
    Rescue(RepairJunk(StripFence(str)))
  }

  const PreviewLength: nat := 200

  /** Line 63: the first 200 characters of the text, with an ellipsis when it is longer. */
  function Preview(s: string): (r: string)
    ensures |s| <= PreviewLength ==> r == s
    ensures |s| > PreviewLength ==> |r| == PreviewLength + 3 && StartsWith(s, r[..PreviewLength]) && EndsWith(r, "...")
  {
    if |s| > PreviewLength then s[..PreviewLength] + "..." else s
  }

  const ErrorLead: string := "Invalid JSON response from API after attempting to clean it. Content preview: "

  /** The message of the error `parseJSON` throws when the parser rejects the cleaned text. */
  function ParseErrorMessage(cleaned: string, parserMessage: string): (m: string)
    ensures StartsWith(m, ErrorLead + Preview(cleaned))
    ensures EndsWith(m, parserMessage)
  {
    var lead := ErrorLead + Preview(cleaned);
    var m := lead + ". Original error: " + parserMessage;
    assert m[..|lead|] == lead;
    assert m[|m| - |parserMessage|..] == parserMessage;
    m
  }

  /** `parseJSON`: clean the reply and parse it; a parser failure becomes an error that
      carries a preview of the cleaned text and the parser's own message. */
  function ParseJSON<J>(str: string, jsonParse: string -> Result<J>): (r: Result<J>)
    ensures r.Ok? <==> jsonParse(Clean(str)).Ok?
    ensures r.Ok? ==> r.value == jsonParse(Clean(str)).value
    ensures r.Err? ==> StartsWith(r.msg, ErrorLead + Preview(Clean(str)))
    ensures r.Err? ==> EndsWith(r.msg, jsonParse(Clean(str)).msg)
  {
    var s := Clean(str);
    match jsonParse(s)
    case Ok(v) => Ok(v)
    case Err(e) => Err(ParseErrorMessage(s, e))
  }

  predicate AllWordChars(s: string) { forall i :: 0 <= i < |s| ==> IsWordChar(s[i]) }

  /** Text wrapped in a fence: the backticks, a language tag, some whitespace, the body,
      some whitespace, the closing backticks. */
  function Fenced(tag: string, open: string, body: string, close: string): (r: string)
    ensures IsFenced(r)
  {
    var r := Fence + tag + open + body + close + Fence;
    assert r[..3] == Fence;
    assert r[|r| - 3..] == Fence;
    r
  }

  /** Stripping a fence recovers the body it wraps, whatever the tag and the whitespace
      around the body, as long as the body begins with an array or object bracket and does
      not end in whitespace. */
  lemma {:induction false} StripFenceRecoversBody(tag: string, open: string, body: string, close: string)
    requires AllWordChars(tag) && AllWhitespace(open) && AllWhitespace(close)
    requires body != [] && (body[0] == '{' || body[0] == '[') && !IsWhitespace(body[|body| - 1])
    ensures StripFence(Fenced(tag, open, body, close)) == body
  {
    var s := Fenced(tag, open, body, close);
    assert s[0] == '`' && s[|s| - 1] == '`';
    TrimKeeps(s);
    FenceTailOfFenced(tag, open, body, close);
    var inner := (body + close + Fence)[..|body + close|];
    assert inner == body + close;
    TrimEndStops(inner, |body|);
    assert FenceBody(s) == body;
    TrimKeeps(body);
  }

  /** In a fenced text, what follows the tag and the whitespace is the body onwards. */
  lemma {:induction false} FenceTailOfFenced(tag: string, open: string, body: string, close: string)
    requires AllWordChars(tag) && AllWhitespace(open)
    requires body != [] && (body[0] == '{' || body[0] == '[')
    ensures FenceTail(Fenced(tag, open, body, close)) == body + close + Fence
  {
    var s := Fenced(tag, open, body, close);
    var after := s[3..];
    assert after == tag + (open + body + close + Fence);
    WordSpanStops(after, |tag|);
    var rest := after[|tag|..];
    assert rest == open + (body + close + Fence);
    assert rest[..|open|] == open && rest[|open|] == body[0];
    TrimStartStops(rest, |open|);
    assert rest[|open|..] == body + close + Fence;
    assert FenceTail(s) == TrimStart(rest);
  }

  /** Trimming the start stops at the first character that is not whitespace. */
  lemma {:induction false} TrimStartStops(s: string, k: nat)
    requires k < |s| && AllWhitespace(s[..k]) && !IsWhitespace(s[k])
    ensures TrimStart(s) == s[k..]
  {
    if k > 0 {
      assert s[1..][..k - 1] == s[1..k];
      TrimStartStops(s[1..], k - 1);
      assert s[1..][k - 1..] == s[k..];
    }
  }

  /** Trimming the end stops at the last character that is not whitespace. */
  lemma {:induction false} TrimEndStops(s: string, k: nat)
    requires 0 < k <= |s| && AllWhitespace(s[k..]) && !IsWhitespace(s[k - 1])
    ensures TrimEnd(s) == s[..k]
  {
    if k < |s| {
      assert s[..|s| - 1][k..] == s[k..|s| - 1];
      TrimEndStops(s[..|s| - 1], k);
      assert s[..|s| - 1][..k] == s[..k];
    }
  }

  /** A fenced reply is read exactly as its bare body would be. */
  lemma {:induction false} ParseFencedAsBare<J>(tag: string, open: string, body: string, close: string, jsonParse: string -> Result<J>)
    requires AllWordChars(tag) && AllWhitespace(open) && AllWhitespace(close)
    requires body != [] && (body[0] == '{' || body[0] == '[') && !IsWhitespace(body[|body| - 1])
    ensures ParseJSON(Fenced(tag, open, body, close), jsonParse) == ParseJSON(body, jsonParse)
  {
    StripFenceRecoversBody(tag, open, body, close);
    StripFenceLeavesBare(body);
    assert Clean(Fenced(tag, open, body, close)) == Clean(body);
  }

  /** A bare payload that begins with a bracket is only trimmed by the fence step. */
  lemma {:induction false} StripFenceLeavesBare(body: string)
    requires body != [] && (body[0] == '{' || body[0] == '[') && !IsWhitespace(body[|body| - 1])
    ensures StripFence(body) == body
  {
    TrimKeeps(body);
    assert !IsFenced(body) by {
      if |body| >= 3 {
        assert body[..3][0] == body[0];
      }
    }
  }
}
