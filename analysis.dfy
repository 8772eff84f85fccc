/** The two pure steps of `POST /api/analyze` that surround the call to the
    external model: assembling the ordered request parts, and cleaning the
    model's reply before it is parsed as JSON.
 */
module Analysis {
  import opened Records

  /** The fixed instruction appended as the last part.  For an advisory the
      template interpolates the request's `text` (`undefined` when it is
      absent); the analysis template is a constant. */
  datatype Prompt = AdvisoryPrompt(incidentDetails: string) | AssessmentPrompt

  datatype Part =
    | TextPart(text: string)
    | FilePart(data: string, mimeType: Option<string>)
    | InstructionPart(prompt: Prompt)

  /** JavaScript truthiness of an optional string: present and non-empty. */
  predicate Present(s: Option<string>) {
    s.Some? && s.value != ""
  }

  /** How a template literal renders an optional string. */
  function Interpolated(s: Option<string>): string {
    if s.Some? then s.value else "undefined"
  }

  function PromptFor(text: Option<string>, taskType: Option<string>): Prompt {
    if taskType == Some(ADVISORY) then AdvisoryPrompt(Interpolated(text)) else AssessmentPrompt
  }

  /** Builds the parts list by successive pushes: the user's text if it is
      truthy, then the inline file if its data is truthy, then the prompt. */
  method AssembleParts(text: Option<string>, fileData: Option<string>, mimeType: Option<string>,
                       taskType: Option<string>) returns (parts: seq<Part>)
    ensures |parts| == (if Present(text) then 1 else 0) + (if Present(fileData) then 1 else 0) + 1
    ensures parts[|parts| - 1] == InstructionPart(PromptFor(text, taskType))
    ensures Present(text) ==> parts[0] == TextPart(text.value)
    ensures Present(fileData) ==> parts[|parts| - 2] == FilePart(fileData.value, mimeType)
    ensures forall i :: 0 <= i < |parts| - 1 ==> !parts[i].InstructionPart?
  {
    parts := [];
    if Present(text) {
      parts := parts + [TextPart(text.value)];
    }
    if Present(fileData) {
      parts := parts + [FilePart(fileData.value, mimeType)];
    }
    parts := parts + [InstructionPart(PromptFor(text, taskType))];
  }

  // ---------------------------------------------------------------------
  // Reply cleaning
  // ---------------------------------------------------------------------

  const FENCE := "```"
  const JSON_FENCE := "```json"

  /** `s.replace(/pat/g, '')` for a literal pattern: matches are taken left
      to right without overlap, and scanning resumes after each match. */
  function RemoveAll(s: string, pat: string): string
    requires pat != []
    decreases |s|
  {
    if |s| < |pat| then s
    else if s[..|pat|] == pat then RemoveAll(s[|pat|..], pat)
    else [s[0]] + RemoveAll(s[1..], pat)
  }

  predicate OccursAt(s: string, pat: string, i: int) {
    0 <= i && i + |pat| <= |s| && s[i..i + |pat|] == pat
  }

  /** Three backticks start at position `i` of `s`. */
  predicate FenceAt(s: string, i: int) {
    0 <= i && i + 3 <= |s| && s[i] == '`' && s[i + 1] == '`' && s[i + 2] == '`'
  }

  ghost predicate FenceFree(s: string) {
    forall i :: !FenceAt(s, i)
  }

  /** ECMAScript WhiteSpace and LineTerminator code points, the set that
      `String.prototype.trim` removes. */
  predicate IsWhitespace(c: char) {
    || c == '\t' || c == '\n' || c == '\r' || c == ' '
    || c == '\U{000B}' || c == '\U{000C}' || c == '\U{00A0}' || c == '\U{1680}'
    || ('\U{2000}' <= c <= '\U{200A}')
    || c == '\U{2028}' || c == '\U{2029}' || c == '\U{202F}' || c == '\U{205F}'
    || c == '\U{3000}' || c == '\U{FEFF}'
  }

  function TrimStart(s: string): (r: string)
    ensures |r| <= |s| && r == s[|s| - |r|..]
    ensures forall i :: 0 <= i < |s| - |r| ==> IsWhitespace(s[i])
    ensures r == [] || !IsWhitespace(r[0])
    decreases |s|
  {
    if s != [] && IsWhitespace(s[0]) then TrimStart(s[1..]) else s
  }

  function TrimEnd(s: string): (r: string)
    ensures |r| <= |s| && r == s[..|r|]
    ensures forall i :: |r| <= i < |s| ==> IsWhitespace(s[i])
    ensures r == [] || !IsWhitespace(r[|r| - 1])
    decreases |s|
  {
    if s != [] && IsWhitespace(s[|s| - 1]) then TrimEnd(s[..|s| - 1]) else s
  }

  /** Where the trimmed string starts inside the original. */
  function TrimOffset(s: string): nat {
    |s| - |TrimStart(s)|
  }

  /** `s.trim()`: the longest infix of `s` that neither starts nor ends with
      whitespace, everything cut off around it being whitespace. */
  function Trim(s: string): (r: string)
    ensures TrimOffset(s) + |r| <= |s| && r == s[TrimOffset(s)..TrimOffset(s) + |r|]
    ensures forall i :: 0 <= i < TrimOffset(s) ==> IsWhitespace(s[i])
    ensures forall i :: TrimOffset(s) + |r| <= i < |s| ==> IsWhitespace(s[i])
    ensures r == [] || (!IsWhitespace(r[0]) && !IsWhitespace(r[|r| - 1]))
  {
    var t := TrimStart(s);
    var r := TrimEnd(t);
    assert r == [] || r[0] == t[0];
    r
  }

  /** The text handed to the JSON parser: every "```json" removed, then every
      "```" removed, then trimmed. */
  function Clean(raw: string): string {
    Trim(RemoveAll(RemoveAll(raw, JSON_FENCE), FENCE))
  }

  /** What the handler does with the model's reply: non-advisory tasks parse
      the cleaned text; an advisory is answered as `{ text }` with the reply
      only trimmed. */
  datatype Reply = ParserInput(cleaned: string) | AdvisoryText(text: string)

  function ReplyFor(taskType: Option<string>, raw: string): Reply {
    if taskType != Some(ADVISORY) then ParserInput(Clean(raw)) else AdvisoryText(Trim(raw))
  }

  // ---------------------------------------------------------------------
  // Lemmas
  // ---------------------------------------------------------------------

  lemma FencePrefix(s: string)
    requires |s| >= 3
    ensures (s[..3] == FENCE) == FenceAt(s, 0)
  {
    if FenceAt(s, 0) {
      assert s[..3] == FENCE;
    }
  }

  /** A string that does not start with a backtick keeps its first
      character when fences are stripped. */
  lemma StripKeepsPlainHead(t: string)
    requires t != [] && t[0] != '`'
    ensures RemoveAll(t, FENCE) != [] && RemoveAll(t, FENCE)[0] == t[0]
  {
    if |t| >= 3 {
      FencePrefix(t);
    }
  }

  predicate StartsWithTwoTicks(s: string) {
    |s| >= 2 && s[0] == '`' && s[1] == '`'
  }

  /** Stripping fences never creates a leading double backtick. */
  lemma StripCreatesNoDoubleTick(t: string)
    requires !StartsWithTwoTicks(t)
    ensures !StartsWithTwoTicks(RemoveAll(t, FENCE))
  {
    if t == [] || |t| < 3 {
    } else if t[0] != '`' {
      StripKeepsPlainHead(t);
    } else {
      FencePrefix(t);
      assert t[1..] != [] && t[1..][0] != '`';
      StripKeepsPlainHead(t[1..]);
    }
  }

  /** After the "```" pass no three consecutive backticks remain: a run of
      backticks is consumed three at a time from its left end, so fewer than
      three are left of each run. */
  lemma {:induction false} StripFencesIsFenceFree(s: string)
    ensures FenceFree(RemoveAll(s, FENCE))
    decreases |s|
  {
    var r := RemoveAll(s, FENCE);
    if |s| < 3 {
      assert r == s;
    } else {
      FencePrefix(s);
      if FenceAt(s, 0) {
        StripFencesIsFenceFree(s[3..]);
      } else {
        var rest := RemoveAll(s[1..], FENCE);
        assert r == [s[0]] + rest;
        StripFencesIsFenceFree(s[1..]);
        if s[0] == '`' {
          assert !StartsWithTwoTicks(s[1..]);
          StripCreatesNoDoubleTick(s[1..]);
        }
        forall i ensures !FenceAt(r, i) {
          if 1 <= i && i + 3 <= |r| {
            assert !FenceAt(rest, i - 1);
            assert r[i] == rest[i - 1] && r[i + 1] == rest[i] && r[i + 2] == rest[i + 1];
          }
        }
      }
    }
  }

  lemma FenceFreeInfix(s: string, a: nat, b: nat)
    requires FenceFree(s) && a <= b <= |s|
    ensures FenceFree(s[a..b])
  {
    forall i ensures !FenceAt(s[a..b], i) {
      assert !FenceAt(s, a + i);
    }
  }

  /** Trimming cuts an infix, so it keeps a string fence-free. */
  lemma TrimKeepsFenceFree(s: string)
    requires FenceFree(s)
    ensures FenceFree(Trim(s))
  {
    var t, off := Trim(s), TrimOffset(s);
    FenceFreeInfix(s, off, off + |t|);
  }

  /** The parser input contains no code fence at all and is trimmed. */
  lemma CleanIsFenceFreeAndTrimmed(raw: string)
    ensures FenceFree(Clean(raw))
    ensures Clean(raw) == [] || (!IsWhitespace(Clean(raw)[0]) && !IsWhitespace(Clean(raw)[|Clean(raw)| - 1]))
  {
    var stripped := RemoveAll(RemoveAll(raw, JSON_FENCE), FENCE);
    StripFencesIsFenceFree(RemoveAll(raw, JSON_FENCE));
    TrimKeepsFenceFree(stripped);
  }

  lemma {:induction false} RemoveAllAbsent(s: string, pat: string)
    requires pat != []
    requires forall i :: !OccursAt(s, pat, i)
    ensures RemoveAll(s, pat) == s
    decreases |s|
  {
    if |s| >= |pat| {
      assert !OccursAt(s, pat, 0);
      assert s[0..|pat|] == s[..|pat|];
      forall i ensures !OccursAt(s[1..], pat, i) {
        if OccursAt(s[1..], pat, i) {
          assert s[1..][i..i + |pat|] == s[i + 1..i + 1 + |pat|];
          assert OccursAt(s, pat, i + 1);
        }
      }
      RemoveAllAbsent(s[1..], pat);
    }
  }

  lemma FenceFreeHasNoPattern(s: string, pat: string)
    requires FenceFree(s)
    requires pat == FENCE || pat == JSON_FENCE
    ensures forall i :: !OccursAt(s, pat, i)
  {
    forall i ensures !OccursAt(s, pat, i) {
      assert !FenceAt(s, i);
      if 0 <= i && i + |pat| <= |s| {
        var w := s[i..i + |pat|];
        assert w[0] == s[i] && w[1] == s[i + 1] && w[2] == s[i + 2];
        assert pat[0] == '`' && pat[1] == '`' && pat[2] == '`';
      }
    }
  }

  lemma TrimIdentity(s: string)
    requires s == [] || (!IsWhitespace(s[0]) && !IsWhitespace(s[|s| - 1]))
    ensures Trim(s) == s
  {
  }

  /** Cleaning is idempotent: a cleaned reply is its own cleaning. */
  lemma CleanIdempotent(raw: string)
    ensures Clean(Clean(raw)) == Clean(raw)
  {
    var c := Clean(raw);
    CleanIsFenceFreeAndTrimmed(raw);
    FenceFreeHasNoPattern(c, JSON_FENCE);
    RemoveAllAbsent(c, JSON_FENCE);
    FenceFreeHasNoPattern(c, FENCE);
    RemoveAllAbsent(c, FENCE);
    TrimIdentity(c);
  }

  /** Non-advisory replies go to the parser cleaned; advisory replies are
      returned trimmed, fences and all. */
  lemma ReplyRouting(taskType: Option<string>, raw: string)
    ensures taskType != Some(ADVISORY) ==> ReplyFor(taskType, raw).ParserInput? && FenceFree(ReplyFor(taskType, raw).cleaned)
    ensures taskType == Some(ADVISORY) ==> ReplyFor(taskType, raw) == AdvisoryText(Trim(raw))
  {
    CleanIsFenceFreeAndTrimmed(raw);
  }
}
