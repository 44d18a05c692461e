/**
 * `ClicodGenerator._parse_json_response`: the model's reply is trimmed and, when
 * it is wrapped in a Markdown code fence, the fence body is cut out before it is
 * handed to the JSON parser. The parser itself is an oracle `decode`.
 *
 * `CandidateAsWritten` is the cut exactly as the program performs it, including
 * its quirk: the "```json" branch is entered whenever the text holds a fence and
 * the word `json` anywhere, and when "```json" itself is absent `find` returns
 * -1 and the cut starts at index 6. `ParseJsonResponse` decodes that cut, as
 * the program does. `Candidate` is the corrected cut (enter that branch only
 * when "```json" occurs), and `ParseJsonResponseCorrected` decodes it.
 */
module Unwrap {
  import opened Text
  import opened Wrappers

  const Fence: string := "```"
  const JsonWord: string := "json"
  const JsonFence: string := "```json"

  /** The string `_parse_json_response` passes to `json.loads`, exactly as written. */
  function CandidateAsWritten(responseText: string): (r: string)
    ensures IsStripped(r) && IsSubstring(r, Strip(responseText))
  {
    var t := Strip(responseText);
    SelfSubstring(t);
    if Contains(t, Fence) && Contains(t, JsonWord) then
      var start := Find(t, JsonFence, 0) + 7;
      var end := Find(t, Fence, start);
      if end != -1 then SliceStripSubstring(t, start, end); Strip(t[start..end]) else t
    else if Contains(t, Fence) then
      var start := Find(t, Fence, 0) + 3;
      var end := RFind(t, Fence);
      if end != -1 && end > start then SliceStripSubstring(t, start, end); Strip(t[start..end]) else t
    else t
  }

  /** The corrected cut: the "```json" branch is taken only when "```json" occurs. */
  function Candidate(responseText: string): (r: string)
    ensures IsStripped(r) && IsSubstring(r, Strip(responseText))
  {
    var t := Strip(responseText);
    SelfSubstring(t);
    var open := Find(t, JsonFence, 0);
    if open != -1 then
      var end := Find(t, Fence, open + 7);
      if end != -1 then SliceStripSubstring(t, open + 7, end); Strip(t[open + 7..end]) else t
    else if Contains(t, Fence) then
      var start := Find(t, Fence, 0) + 3;
      var end := RFind(t, Fence);
      if end != -1 && end > start then SliceStripSubstring(t, start, end); Strip(t[start..end]) else t
    else t
  }

  /** `_parse_json_response` as written: the decoded candidate, `None` when it does not decode. */
  function ParseJsonResponse<T>(responseText: string, decode: string -> Option<T>): Option<T>
  {
    decode(CandidateAsWritten(responseText))
  }

  /** `_parse_json_response` with the corrected cut. */
  function ParseJsonResponseCorrected<T>(responseText: string, decode: string -> Option<T>): Option<T>
  {
    decode(Candidate(responseText))
  }

  // ---------------------------------------------------------------------------
  // Helpers

  lemma SelfSubstring(t: string)
    ensures IsSubstring(t, t)
  {
    assert MatchAt(t, t, 0);
  }

  lemma SliceStripSubstring(t: string, i: int, j: int)
    requires 0 <= i <= j <= |t|
    ensures IsSubstring(Strip(t[i..j]), t)
  {
    var u := t[i..j];
    var k := LeadingSpace(u);
    StripMatches(u);
    MatchInSlice(t, i, j, Strip(u), k);
  }

  lemma StripMatches(u: string)
    ensures MatchAt(u, Strip(u), LeadingSpace(u))
  {
  }

  lemma MatchInSlice(t: string, i: int, j: int, sub: string, k: int)
    requires 0 <= i <= j <= |t| && MatchAt(t[i..j], sub, k)
    ensures MatchAt(t, sub, i + k)
  {
    forall n | 0 <= n < |sub|
      ensures t[i + k..i + k + |sub|][n] == sub[n]
    {
      assert sub[n] == t[i..j][k + n];
    }
  }

  predicate NoBacktick(s: string) {
    forall i :: 0 <= i < |s| ==> s[i] != '`'
  }

  /** A fenced block: an opening fence with its language tag, the body, a closing fence. */
  function Fenced(tag: string, body: string): string {
    Fence + tag + "\n" + body + "\n" + Fence
  }

  /** In a fenced block whose body holds no fence, fences occur only at its two ends. */
  lemma FencedFences(tag: string, body: string, k: int)
    requires NoBacktick(tag) && !IsSubstring(Fence, body)
    requires 0 < k < |Fenced(tag, body)| - 3
    ensures !MatchAt(Fenced(tag, body), Fence, k)
  {
    var w := Fenced(tag, body);
    var p := 4 + |tag|;
    assert |w| == p + |body| + 4;
    if k < 3 {
      assert w[3] == (if tag == [] then '\n' else tag[0]);
      assert w[k..k + 3][3 - k] == w[3];
    } else if k < p {
      assert w[k] == (if k < 3 + |tag| then tag[k - 3] else '\n');
      assert w[k..k + 3][0] == w[k];
    } else if k <= p + |body| - 3 {
      assert w[k..k + 3] == body[k - p..k - p + 3];
      assert !MatchAt(body, Fence, k - p);
    } else {
      assert w[p + |body|] == '\n';
      assert w[k..k + 3][p + |body| - k] == w[p + |body|];
    }
  }

  lemma JsonFenceIsFence(s: string, k: int)
    ensures MatchAt(s, JsonFence, k) ==> MatchAt(s, Fence, k) && MatchAt(s, JsonWord, k + 3)
  {
    assert JsonFence == Fence + JsonWord;
    if MatchAt(s, JsonFence, k) {
      MatchAtConcat(s, Fence, JsonWord, k);
    }
  }

  lemma FencedIsStripped(tag: string, body: string)
    ensures Strip(Fenced(tag, body)) == Fenced(tag, body)
  {
    var w := Fenced(tag, body);
    assert w[0] == '`' && w[|w| - 1] == '`';
    StripStripped(w);
  }

  lemma FencedBody(tag: string, body: string)
    requires IsStripped(body)
    ensures var w := Fenced(tag, body);
      Strip(w[4 + |tag| - 1..|w| - 3]) == body
  {
    var w := Fenced(tag, body);
    assert w[4 + |tag| - 1..|w| - 3] == "\n" + body + "\n";
    StripPadding("\n", body, "\n");
  }

  // ---------------------------------------------------------------------------
  // The cut, as written

  /**
   * "```json" branch: with the first "```json" at `i` and the next fence after
   * it at `j`, the candidate is the trimmed text between them.
   */
  lemma JsonFenceCut(responseText: string, i: nat, j: nat)
    requires var t := Strip(responseText);
      && MatchAt(t, JsonFence, i) && (forall k :: 0 <= k < i ==> !MatchAt(t, JsonFence, k))
      && i + 7 <= j && MatchAt(t, Fence, j)
      && (forall k :: i + 7 <= k < j ==> !MatchAt(t, Fence, k))
    ensures var t := Strip(responseText);
      && CandidateAsWritten(responseText) == Strip(t[i + 7..j])
      && Candidate(responseText) == Strip(t[i + 7..j])
  {
    var t := Strip(responseText);
    JsonFenceIsFence(t, i);
    FindIs(t, JsonFence, 0, i);
    FindIs(t, Fence, i + 7, j);
  }

  /** "```json" branch without a closing fence after it: the trimmed input is kept. */
  lemma JsonFenceUnclosed(responseText: string, i: nat)
    requires var t := Strip(responseText);
      && MatchAt(t, JsonFence, i) && (forall k :: 0 <= k < i ==> !MatchAt(t, JsonFence, k))
      && (forall k :: i + 7 <= k ==> !MatchAt(t, Fence, k))
    ensures CandidateAsWritten(responseText) == Strip(responseText)
    ensures Candidate(responseText) == Strip(responseText)
  {
    var t := Strip(responseText);
    JsonFenceIsFence(t, i);
    FindIs(t, JsonFence, 0, i);
  }

  /** No fence at all: the candidate is `response_text.strip()`. */
  lemma NoFenceKept(responseText: string)
    requires forall k :: !MatchAt(Strip(responseText), Fence, k)
    ensures CandidateAsWritten(responseText) == Strip(responseText)
    ensures Candidate(responseText) == Strip(responseText)
  {
    var t := Strip(responseText);
    if Find(t, JsonFence, 0) != -1 {
      JsonFenceIsFence(t, Find(t, JsonFence, 0));
    }
  }

  /**
   * Plain-fence branch (no `json` anywhere): with the first fence at `i` and the
   * last at `j`, the candidate is the trimmed text between them when they are
   * apart, and the trimmed input when there is in effect only one fence.
   */
  lemma PlainFenceCut(responseText: string, i: nat, j: nat)
    requires var t := Strip(responseText);
      && !IsSubstring(JsonWord, t)
      && MatchAt(t, Fence, i) && (forall k :: 0 <= k < i ==> !MatchAt(t, Fence, k))
      && MatchAt(t, Fence, j) && (forall k :: j < k ==> !MatchAt(t, Fence, k))
    ensures var t := Strip(responseText);
      CandidateAsWritten(responseText) == if j > i + 3 then Strip(t[i + 3..j]) else t
  {
    var t := Strip(responseText);
    ContainsIff(t, JsonWord);
    FindIs(t, Fence, 0, i);
    RFindIs(t, Fence, j);
  }

  /**
   * Corrected plain-fence branch (no "```json" anywhere): with the first fence
   * at `i` and the last at `j`, the candidate is the trimmed text between them
   * when they are apart, and the trimmed input otherwise.
   */
  lemma PlainFenceCutCorrected(responseText: string, i: nat, j: nat)
    requires var t := Strip(responseText);
      && !IsSubstring(JsonFence, t)
      && MatchAt(t, Fence, i) && (forall k :: 0 <= k < i ==> !MatchAt(t, Fence, k))
      && MatchAt(t, Fence, j) && (forall k :: j < k ==> !MatchAt(t, Fence, k))
    ensures var t := Strip(responseText);
      Candidate(responseText) == if j > i + 3 then Strip(t[i + 3..j]) else t
  {
    var t := Strip(responseText);
    ContainsIff(t, JsonFence);
    FindIs(t, Fence, 0, i);
    RFindIs(t, Fence, j);
  }

  /**
   * The quirk: the text holds a fence and `json` but no "```json". Then the cut
   * starts at index 6 whatever the text is, and ends at the first fence at or
   * after index 6.
   */
  lemma QuirkCut(responseText: string, j: nat)
    requires var t := Strip(responseText);
      && IsSubstring(JsonWord, t) && IsSubstring(Fence, t) && !IsSubstring(JsonFence, t)
      && 6 <= j && MatchAt(t, Fence, j) && (forall k :: 6 <= k < j ==> !MatchAt(t, Fence, k))
    ensures CandidateAsWritten(responseText) == Strip(Strip(responseText)[6..j])
  {
    var t := Strip(responseText);
    ContainsIff(t, JsonWord);
    ContainsIff(t, Fence);
    ContainsIff(t, JsonFence);
    FindIs(t, Fence, 6, j);
  }

  /**
   * The other side of the quirk: with a fence and `json` but no "```json", and
   * no fence at or after index 6, the stripped reply is handed over whole.
   */
  lemma QuirkUnclosed(responseText: string)
    requires var t := Strip(responseText);
      && IsSubstring(JsonWord, t) && IsSubstring(Fence, t) && !IsSubstring(JsonFence, t)
      && (forall k :: 6 <= k ==> !MatchAt(t, Fence, k))
    ensures CandidateAsWritten(responseText) == Strip(responseText)
  {
    var t := Strip(responseText);
    ContainsIff(t, JsonWord);
    ContainsIff(t, Fence);
    ContainsIff(t, JsonFence);
    assert Find(t, Fence, 6) == -1;
  }

  // ---------------------------------------------------------------------------
  // Round trips: a fenced body comes back out

  /** The fences of a fenced block whose body holds none: the opening one and the closing one. */
  lemma FencedFenceSet(tag: string, body: string)
    requires NoBacktick(tag) && !IsSubstring(Fence, body)
    ensures var w := Fenced(tag, body);
      && MatchAt(w, Fence, 0) && MatchAt(w, Fence, |w| - 3)
      && forall k :: 0 < k < |w| - 3 ==> !MatchAt(w, Fence, k)
  {
    var w := Fenced(tag, body);
    assert w[..3] == Fence;
    assert w[|w| - 3..] == Fence;
    forall k | 0 < k < |w| - 3
      ensures !MatchAt(w, Fence, k)
    {
      FencedFences(tag, body, k);
    }
  }

  /** A plain fenced block whose body holds no fence has no "```json" in it. */
  lemma PlainFencedHasNoJsonFence(body: string)
    requires !IsSubstring(Fence, body)
    ensures !IsSubstring(JsonFence, Fenced("", body))
  {
    var w := Fenced("", body);
    forall k
      ensures !MatchAt(w, JsonFence, k)
    {
      JsonFenceIsFence(w, k);
      if k == 0 {
        assert w[3] == '\n';
      } else if 0 < k < |w| - 3 {
        FencedFences("", body, k);
      }
    }
  }

  /** `json` occurs in a plain fenced block only where it occurs in the body. */
  lemma PlainFencedJsonWord(body: string)
    requires !IsSubstring(JsonWord, body)
    ensures !IsSubstring(JsonWord, Fenced("", body))
  {
    var w := Fenced("", body);
    assert |w| == |body| + 8;
    forall k
      ensures !MatchAt(w, JsonWord, k)
    {
      if 0 <= k < 4 {
        assert w[k] == (if k < 3 then '`' else '\n');
        assert w[k..k + 4][0] == w[k];
      } else if 4 <= k <= |body| {
        assert w[k..k + 4] == body[k - 4..k];
        assert !MatchAt(body, JsonWord, k - 4);
      } else if |body| < k <= |w| - 4 {
        assert w[k + 3] == (if k + 3 == |body| + 4 then '\n' else '`');
        assert w[k..k + 4][3] == w[k + 3];
      }
    }
  }

  /** A stripped body without fences, wrapped as "```json", is cut out exactly. */
  lemma UnwrapJsonFence(body: string)
    requires IsStripped(body) && !IsSubstring(Fence, body)
    ensures CandidateAsWritten(Fenced(JsonWord, body)) == body
    ensures Candidate(Fenced(JsonWord, body)) == body
  {
    var w := Fenced(JsonWord, body);
    FencedIsStripped(JsonWord, body);
    FencedFenceSet(JsonWord, body);
    assert w[..7] == JsonFence;
    assert MatchAt(w, JsonFence, 0);
    JsonFenceCut(w, 0, |w| - 3);
    FencedBody(JsonWord, body);
  }

  /** A stripped body without fences, wrapped in a plain fence, is cut out exactly. */
  lemma UnwrapPlainFence(body: string)
    requires IsStripped(body) && !IsSubstring(Fence, body)
    ensures Candidate(Fenced("", body)) == body
  {
    var w := Fenced("", body);
    FencedIsStripped("", body);
    FencedFenceSet("", body);
    PlainFencedHasNoJsonFence(body);
    PlainFenceCutCorrected(w, 0, |w| - 3);
    FencedBody("", body);
  }

  /**
   * As written, the plain fence is cut out exactly only when `json` does not
   * occur in the body.
   */
  lemma UnwrapPlainFenceAsWritten(body: string)
    requires IsStripped(body) && !IsSubstring(Fence, body) && !IsSubstring(JsonWord, body)
    ensures CandidateAsWritten(Fenced("", body)) == body
  {
    var w := Fenced("", body);
    FencedIsStripped("", body);
    FencedFenceSet("", body);
    PlainFencedJsonWord(body);
    PlainFenceCut(w, 0, |w| - 3);
    FencedBody("", body);
  }

  /**
   * A fenced body is decoded as the bare body would be: as written, for a
   * "```json" fence, and for a plain fence when the body does not mention
   * `json`; with the corrected cut, for both fences always.
   */
  lemma ParseFencedJson<T>(body: string, decode: string -> Option<T>)
    requires IsStripped(body) && !IsSubstring(Fence, body)
    ensures ParseJsonResponse(Fenced(JsonWord, body), decode) == decode(body)
    ensures !IsSubstring(JsonWord, body) ==> ParseJsonResponse(Fenced("", body), decode) == decode(body)
    ensures ParseJsonResponseCorrected(Fenced(JsonWord, body), decode) == decode(body)
    ensures ParseJsonResponseCorrected(Fenced("", body), decode) == decode(body)
  {
    UnwrapJsonFence(body);
    UnwrapPlainFence(body);
    if !IsSubstring(JsonWord, body) {
      UnwrapPlainFenceAsWritten(body);
    }
  }

  // ---------------------------------------------------------------------------
  // The quirk on fenced replies

  /**
   * A reply in a plain fence whose JSON body mentions `json` anywhere: as written
   * the cut starts two characters into the body (index 6 of the reply), so the
   * parser is handed the body without its first two characters (for the body
   * `{"json":1}` it gets `json":1}`, which is not JSON). The corrected cut hands
   * the parser the body itself.
   */
  lemma QuirkCutFenced(body: string)
    requires IsStripped(body) && !IsSubstring(Fence, body) && IsSubstring(JsonWord, Fenced("", body))
    requires |body| >= 2
    ensures CandidateAsWritten(Fenced("", body)) == Strip(body[2..])
  {
    var w := Fenced("", body);
    FencedIsStripped("", body);
    FencedFenceSet("", body);
    PlainFencedHasNoJsonFence(body);
    assert MatchAt(w, Fence, 0);
    QuirkCut(w, |w| - 3);
    PlainFencedTail(body);
    StripSpaceSuffix(body[2..], "\n");
  }

  lemma PlainFencedTail(body: string)
    requires |body| >= 2
    ensures Fenced("", body)[6..|body| + 5] == body[2..] + "\n"
  {
    var w := Fenced("", body);
    assert w == "```\n" + body + "\n```";
    assert w[4..|body| + 5] == body + "\n";
    assert w[6..|body| + 5] == (body + "\n")[2..];
  }

  lemma QuirkPlainFence(body: string)
    requires IsStripped(body) && !IsSubstring(Fence, body) && IsSubstring(JsonWord, body)
    ensures |body| >= 4
    ensures CandidateAsWritten(Fenced("", body)) == Strip(body[2..])
    ensures |CandidateAsWritten(Fenced("", body))| < |body|
    ensures Candidate(Fenced("", body)) == body
  {
    var w := Fenced("", body);
    var i :| MatchAt(body, JsonWord, i);
    assert |w| == |body| + 8;
    assert w[i + 4..i + 8] == body[i..i + 4];
    assert MatchAt(w, JsonWord, i + 4);
    QuirkCutFenced(body);
    UnwrapPlainFence(body);
  }
}
