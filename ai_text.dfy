/**
 * The two normalisers that turn a generative model's free text into JSON:
 * `cleanJSON` of the recipe screen (drop one trailing comma, keep the text
 * from the first `{` to the last `}`, parse) and the fence stripping of the
 * image analysis service (drop a leading "```json" and a trailing "```",
 * trim, parse). Each regular expression is modelled by the match it finds,
 * and a lemma shows that this is the leftmost match the regex engine takes.
 */
module AiText {
  import opened Wrappers
  import opened JsText
  import opened Json

  // ------------------------------------------------------ cleanJSON: /,\s*$/

  /** `/,\s*$/` matches at `p`: a comma followed only by white space. */
  predicate TrailingCommaAt(s: string, p: nat) {
    p < |s| && s[p] == ',' && AllWhitespace(s[p + 1..])
  }

  /** Where `/,\s*$/` matches: the last non-white-space character, if it is a comma. */
  function TrailingComma(s: string): (r: Option<nat>)
    ensures r.Some? ==> TrailingCommaAt(s, r.value)
  {
    var q := BackOverWhitespace(s, 0, |s|);
    if 0 < q && s[q - 1] == ',' then Some(q - 1) else None
  }

  /** Every position the regex can match at is the one `TrailingComma` finds. */
  lemma TrailingCommaIsTheMatch(s: string, p: nat)
    requires TrailingCommaAt(s, p)
    ensures TrailingComma(s) == Some(p)
  {
    var q := BackOverWhitespace(s, 0, |s|);
    assert forall i :: p + 1 <= i < |s| ==> IsWhitespace(s[i]) by {
      forall i | p + 1 <= i < |s| ensures IsWhitespace(s[i]) { assert s[p + 1..][i - p - 1] == s[i]; }
    }
    assert !IsWhitespace(s[p]);
    assert q == p + 1;
  }

  /** So the regex matches at most one comma: `replace` never removes two. */
  lemma AtMostOneTrailingComma(s: string, p1: nat, p2: nat)
    requires TrailingCommaAt(s, p1) && TrailingCommaAt(s, p2)
    ensures p1 == p2
  {
    TrailingCommaIsTheMatch(s, p1);
    TrailingCommaIsTheMatch(s, p2);
  }

  /** `s.replace(/,\s*$/, "")`. */
  function StripTrailingComma(s: string): (r: string)
    ensures r <= s
  {
    match TrailingComma(s)
    case Some(p) => s[..p]
    case None => s
  }

  /** The comma and the white space after it go; anything before, a comma included, stays. */
  lemma StripTrailingCommaOf(t: string, w: string)
    requires AllWhitespace(w)
    ensures StripTrailingComma(t + "," + w) == t
  {
    var s := t + "," + w;
    assert s[|t| + 1..] == w;
    TrailingCommaIsTheMatch(s, |t|);
  }

  /** Text that does not end in a comma (white space aside) is left alone. */
  lemma StripWithoutTrailingComma(s: string)
    requires forall p :: 0 <= p < |s| ==> !TrailingCommaAt(s, p)
    ensures StripTrailingComma(s) == s
  {
  }

  // ---------------------------------------------------- cleanJSON: /{[\s\S]*}/

  function FirstIndexOf(s: string, c: char): (r: Option<nat>)
    ensures r.Some? ==> r.value < |s| && s[r.value] == c && forall k :: 0 <= k < r.value ==> s[k] != c
    ensures r.None? ==> forall k :: 0 <= k < |s| ==> s[k] != c
    decreases |s|
  {
    if s == [] then None
    else if s[0] == c then Some(0)
    else match FirstIndexOf(s[1..], c)
      case None => None
      case Some(i) => Some(i + 1)
  }

  function LastIndexOf(s: string, c: char): (r: Option<nat>)
    ensures r.Some? ==> r.value < |s| && s[r.value] == c && forall k :: r.value < k < |s| ==> s[k] != c
    ensures r.None? ==> forall k :: 0 <= k < |s| ==> s[k] != c
    decreases |s|
  {
    if s == [] then None
    else if s[|s| - 1] == c then Some(|s| - 1)
    else LastIndexOf(s[..|s| - 1], c)
  }

  /**
   * `s.match(/{[\s\S]*}/)`: the match starts at the leftmost `{` that has a
   * `}` after it and, being greedy, runs to the last `}`.
   */
  function BraceCandidate(s: string): (r: Option<string>)
    ensures r.Some? <==> exists i, j :: 0 <= i < j < |s| && s[i] == '{' && s[j] == '}'
    ensures r.Some? ==> 2 <= |r.value| && r.value[0] == '{' && r.value[|r.value| - 1] == '}'
  {
    var i := FirstIndexOf(s, '{');
    var j := LastIndexOf(s, '}');
    if i.Some? && j.Some? && i.value < j.value then Some(s[i.value..j.value + 1]) else None
  }

  /** The candidate is exactly the slice from the first `{` to the last `}`. */
  lemma BraceCandidateIsGreedy(s: string, i: nat, j: nat)
    requires i < j < |s| && s[i] == '{' && s[j] == '}'
    requires forall k :: 0 <= k < i ==> s[k] != '{'
    requires forall k :: j < k < |s| ==> s[k] != '}'
    ensures BraceCandidate(s) == Some(s[i..j + 1])
  {
    var fi := FirstIndexOf(s, '{');
    var lj := LastIndexOf(s, '}');
    assert fi == Some(i) by {
      assert fi.Some?;
      assert !(fi.value < i) && !(i < fi.value);
    }
    assert lj == Some(j) by {
      assert lj.Some?;
      assert !(lj.value < j) && !(j < lj.value);
    }
  }

  /** `cleanJSON(response)`: `None` for a non-string response or a failed match or parse. */
  function CleanJson(response: Option<string>, parse: string -> Option<Json>): (r: Option<Json>)
    ensures response.None? ==> r.None?
    ensures r.Some? ==> exists c :: BraceCandidate(StripTrailingComma(response.value)) == Some(c) && parse(c) == r
    ensures response.Some? && BraceCandidate(StripTrailingComma(response.value)).Some? ==>
      r == parse(BraceCandidate(StripTrailingComma(response.value)).value)
  {
    match response
    case None => None
    case Some(s) =>
      match BraceCandidate(StripTrailingComma(s))
      case None => None
      case Some(c) => parse(c)
  }

  /** Text without any `{` never yields an object, whatever the parser. */
  lemma NoBraceYieldsNull(s: string, parse: string -> Option<Json>)
    requires forall k :: 0 <= k < |s| ==> s[k] != '{'
    ensures CleanJson(Some(s), parse) == None
  {
    var t := StripTrailingComma(s);
    assert forall k :: 0 <= k < |t| ==> t[k] == s[k];
  }

  /**
   * Prose around one object and a trailing comma: what reaches the parser is
   * exactly the object's text, from its `{` to its `}`.
   */
  lemma CleanJsonOfWrappedObject(pre: string, body: string, post: string, w: string, parse: string -> Option<Json>)
    requires forall k :: 0 <= k < |pre| ==> pre[k] != '{'
    requires forall k :: 0 <= k < |post| ==> post[k] != '}'
    requires AllWhitespace(w)
    ensures CleanJson(Some(pre + "{" + body + "}" + post + "," + w), parse) == parse("{" + body + "}")
  {
    var t := pre + "{" + body + "}" + post;
    StripTrailingCommaOf(t, w);
    assert pre + "{" + body + "}" + post + "," + w == t + "," + w;
    var i := |pre|;
    var j := |pre| + |body| + 1;
    assert t[i..j + 1] == "{" + body + "}";
    forall k | 0 <= k < i ensures t[k] != '{' { assert t[k] == pre[k]; }
    forall k | j < k < |t| ensures t[k] != '}' { assert t[k] == post[k - j - 1]; }
    BraceCandidateIsGreedy(t, i, j);
  }

  /**
   * Prose or a fence around one object, with no trailing comma: what reaches
   * the parser is exactly the object's text, from its `{` to its `}`.
   */
  lemma CleanJsonOfBareObject(pre: string, body: string, post: string, parse: string -> Option<Json>)
    requires forall k :: 0 <= k < |pre| ==> pre[k] != '{'
    requires forall k :: 0 <= k < |post| ==> post[k] != '}' && post[k] != ','
    ensures CleanJson(Some(pre + "{" + body + "}" + post), parse) == parse("{" + body + "}")
  {
    var t := pre + "{" + body + "}" + post;
    var i := |pre|;
    var j := |pre| + |body| + 1;
    assert t[j] == '}';
    forall p | 0 <= p < |t| ensures !TrailingCommaAt(t, p) {
      if j < p {
        assert t[p] == post[p - j - 1];
      } else if p < j {
        assert t[p + 1..][j - p - 1] == '}';
      }
    }
    StripWithoutTrailingComma(t);
    assert t[i..j + 1] == "{" + body + "}";
    forall k | 0 <= k < i ensures t[k] != '{' { assert t[k] == pre[k]; }
    forall k | j < k < |t| ensures t[k] != '}' { assert t[k] == post[k - j - 1]; }
    BraceCandidateIsGreedy(t, i, j);
  }

  // ------------------------------------------ image analysis: fence stripping

  const OpeningFence: string := "```json"
  const Fence: string := "```"

  /** Where alternative `^```json\s*` stops matching, or 0 when it does not match. */
  function OpeningEnd(s: string): (k: nat)
    ensures k <= |s|
    ensures k > 0 <==> OpeningFence <= s
    ensures OpeningFence <= s ==> 7 <= k && forall i :: 7 <= i < k ==> IsWhitespace(s[i])
    ensures OpeningFence <= s && k < |s| ==> !IsWhitespace(s[k])
  {
    if OpeningFence <= s then SkipWhitespace(s, |OpeningFence|) else 0
  }

  /** Alternative `\s*```$` matches at `p`: only white space, then "```" ending the text. */
  predicate ClosingAt(s: string, p: nat) {
    p + 3 <= |s| && s[|s| - 3..] == Fence && AllWhitespace(s[p..|s| - 3])
  }

  /** The leftmost position at or after `from` where `\s*```$` matches. */
  function ClosingStart(s: string, from: nat): (r: Option<nat>)
    requires from <= |s|
    ensures r.Some? ==> from <= r.value && ClosingAt(s, r.value)
  {
    if from + 3 <= |s| && s[|s| - 3..] == Fence then Some(BackOverWhitespace(s, from, |s| - 3)) else None
  }

  /** No position at or after `from` that `ClosingStart` passes over is a match. */
  lemma ClosingStartIsLeftmost(s: string, from: nat, p: nat)
    requires from <= p <= |s| && ClosingAt(s, p)
    ensures ClosingStart(s, from).Some? && ClosingStart(s, from).value <= p
  {
    var q := BackOverWhitespace(s, from, |s| - 3);
    assert forall i :: p <= i < |s| - 3 ==> IsWhitespace(s[i]) by {
      forall i | p <= i < |s| - 3 ensures IsWhitespace(s[i]) { assert s[p..|s| - 3][i - p] == s[i]; }
    }
    assert q <= p;
  }

  /** `text.replace(/^```json\s*|\s*```$/g, "")`. */
  function StripFences(s: string): string {
    var a := OpeningEnd(s);
    match ClosingStart(s, a)
    case Some(p) => s[a..p]
    case None => s[a..]
  }

  /** The text handed to `JSON.parse`: fences stripped, then trimmed. */
  function CleanAnalysisText(s: string): (r: string)
    ensures Unpadded(r)
  {
    Trim(StripFences(s))
  }

  /** Text without either fence is only trimmed. */
  lemma UnfencedTextIsOnlyTrimmed(s: string)
    requires !(OpeningFence <= s)
    requires !(|s| >= 3 && s[|s| - 3..] == Fence)
    ensures CleanAnalysisText(s) == Trim(s)
  {
    assert s[0..] == s;
  }

  /** The pieces of a fenced block, by position. */
  lemma FencedBlockLayout(body: string)
    ensures var s := OpeningFence + body + Fence;
      && |s| == |body| + 10
      && OpeningFence <= s
      && s[|s| - 3..] == Fence
  {
  }

  /** In a text with both fences, where the two fence matches stop and start. */
  lemma FenceMatches(s: string) returns (a: nat, p: nat)
    requires |s| >= 10 && OpeningFence <= s && s[|s| - 3..] == Fence
    ensures 7 <= a <= p <= |s| - 3
    ensures StripFences(s) == s[a..p]
    ensures forall i :: 7 <= i < a ==> IsWhitespace(s[i])
    ensures forall i :: p <= i < |s| - 3 ==> IsWhitespace(s[i])
    ensures a < p ==> !IsWhitespace(s[a]) && !IsWhitespace(s[p - 1])
  {
    assert s[|s| - 3] == '`' by { assert s[|s| - 3..][0] == s[|s| - 3]; }
    a := OpeningEnd(s);
    assert a <= |s| - 3 by { assert !IsWhitespace(s[|s| - 3]); }
    p := BackOverWhitespace(s, a, |s| - 3);
  }

  /** Stripping the fences of a block leaves a slice of its body with only white space around it. */
  lemma StripFencedBlock(body: string) returns (a': nat, p': nat)
    ensures a' <= p' <= |body|
    ensures StripFences(OpeningFence + body + Fence) == body[a'..p']
    ensures AllWhitespace(body[..a']) && AllWhitespace(body[p'..]) && Unpadded(body[a'..p'])
  {
    var s := OpeningFence + body + Fence;
    FencedBlockLayout(body);
    var a, p := FenceMatches(s);
    a', p' := a - 7, p - 7;
    MiddleSlice(OpeningFence, body, Fence, a', p');
    MiddleSlice(OpeningFence, body, Fence, 0, a');
    MiddleSlice(OpeningFence, body, Fence, p', |body|);
    WhitespaceSlice(s, 7, a);
    WhitespaceSlice(s, p, |s| - 3);
    UnpaddedSlice(s, a, p);
    assert body[..a'] == body[0..a'] && body[p'..] == body[p'..|body|];
  }

  /** A fenced block is reduced to its trimmed contents. */
  lemma FencedBlockIsUnwrapped(body: string)
    ensures CleanAnalysisText(OpeningFence + body + Fence) == Trim(body)
  {
    var a', p' := StripFencedBlock(body);
    TrimIsCore(body, a', p');
    var c := body[a'..p'];
    assert c[..0] == [] && c[|c|..] == [] && c[0..|c|] == c;
    TrimIsCore(c, 0, |c|);
  }

  /**
   * A bare opening "```" (no "json" tag) survives: only the closing fence is
   * removed, so what reaches the parser still starts with "```".
   */
  lemma BareOpeningFenceSurvives(s: string)
    requires !(OpeningFence <= s) && Fence <= s && 6 <= |s|
    ensures Fence <= CleanAnalysisText(s)
  {
    var t := StripFences(s);
    assert OpeningEnd(s) == 0;
    assert t[..3] == Fence by {
      match ClosingStart(s, 0)
      case None =>
        assert t == s;
      case Some(p) =>
        assert !IsWhitespace(s[2]) && s[2] == '`';
        assert 3 <= p by {
          assert s[..3] == Fence;
          assert p <= |s| - 3;
          assert forall i :: p <= i < |s| - 3 ==> IsWhitespace(s[i]);
        }
        assert t == s[..p];
    }
    var b := BackOverWhitespace(t, 0, |t|);
    assert 3 <= b by { assert !IsWhitespace(t[2]); }
    assert SkipWhitespace(t, 0) == 0;
    assert Trim(t) == t[..b];
  }

  // ------------------------------------------- image analysis: the outcomes

  /**
   * What reading the image and posting it yields: an error (from either
   * step), or the first candidate's text, if the reply has one.
   */
  datatype GeminiReply = RequestFailed(message: string) | Replied(text: Option<string>)

  /** The service's result: the parsed object, a sentinel string, or a rethrown error. */
  datatype Analysis = Parsed(result: Json) | Sentinel(text: string) | Thrown(message: string)

  const NoResponse: string := "No valid response from Gemini API"
  const ParseFailure: string := "Error: Unable to parse the analysis response."

  /**
   * `analyzeImageWithGemini` after the request: a missing key or a failed
   * request is thrown to the caller; a missing or empty text gives one
   * sentinel, a parse failure the other; otherwise the parsed object.
   */
  function AnalyzeImage(apiKey: Option<string>, reply: GeminiReply, parse: string -> Option<Json>): (a: Analysis)
    ensures !(apiKey.Some? && apiKey.value != "") ==> a == Thrown("Gemini API key is not configured")
    ensures a.Parsed? ==> reply.Replied? && reply.text.Some? && parse(CleanAnalysisText(reply.text.value)) == Some(a.result)
    ensures apiKey.Some? && apiKey.value != "" && reply.Replied? && (reply.text.None? || reply.text.value == "") ==>
      a == Sentinel(NoResponse)
    ensures apiKey.Some? && apiKey.value != "" && reply.RequestFailed? ==> a == Thrown(reply.message)
    ensures apiKey.Some? && apiKey.value != "" && reply.Replied? && reply.text.Some? && reply.text.value != "" ==>
      (parse(CleanAnalysisText(reply.text.value)).None? <==> a == Sentinel(ParseFailure))
    ensures (apiKey.Some? && apiKey.value != "" && reply.Replied? && reply.text.Some? && reply.text.value != "" &&
             parse(CleanAnalysisText(reply.text.value)).Some?) ==>
      a == Parsed(parse(CleanAnalysisText(reply.text.value)).value)
    ensures a.Sentinel? ==> a.text in {NoResponse, ParseFailure}
  {
    if !(apiKey.Some? && apiKey.value != "") then Thrown("Gemini API key is not configured")
    else match reply
      case RequestFailed(msg) => Thrown(msg)
      case Replied(text) =>
        if text.None? || text.value == "" then Sentinel(NoResponse)
        else match parse(CleanAnalysisText(text.value))
          case None => Sentinel(ParseFailure)
          case Some(j) => Parsed(j)
  }

  /** A reply that is one fenced block parses as the block's trimmed body. */
  lemma FencedReplyIsParsed(apiKey: string, body: string, parse: string -> Option<Json>, j: Json)
    requires apiKey != ""
    requires parse(Trim(body)) == Some(j)
    ensures AnalyzeImage(Some(apiKey), Replied(Some(OpeningFence + body + Fence)), parse) == Parsed(j)
  {
    FencedBlockIsUnwrapped(body);
  }

  /** The value a caller receives when nothing was thrown. */
  function Returned(a: Analysis): Option<Json>
    requires !a.Thrown?
  {
    match a
    case Parsed(j) => Some(j)
    case Sentinel(t) => Some(JStr(t))
  }

  /** The analysis modal's `Array.isArray(result.items)` check: sentinels never pass it. */
  lemma SentinelsCarryNoItems(a: Analysis)
    requires a.Sentinel?
    ensures !IsArray(Member(Returned(a), "items"))
  {
  }
}
