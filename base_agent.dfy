/**
 * BaseAgent._call_llm: the model's reply is cleaned of markdown fences and
 * string-concatenation artefacts, stripped, and cut down to the outermost
 * braces when the model introduced its answer with "Here is".
 */
module BaseAgent {
  import opened Wrappers
  import opened Text

  /**
   * What the HTTP round trip to the model yields: the `response` field as text,
   * a `response` field that is not a string (so .replace fails after the
   * field was read), or a failure before the field was read (connection,
   * timeout, HTTP status, a body without `response`).
   */
  datatype LlmReply = Reply(text: string) | NonTextReply | TransportFailure

  /** The language model, as a function of the prompt and the system prompt. */
  type Model = (string, string) -> LlmReply

  /** The four literal replacements, in the source's order, then strip(). */
  function RemoveArtifacts(raw: string): (t: string)
    ensures |t| <= |raw|
    ensures t != [] ==> !IsSpace(t[0]) && !IsSpace(t[|t| - 1])
  {
    var noJsonFence := ReplaceAll(raw, "```json", "");
    var noFence := ReplaceAll(noJsonFence, "```", "");
    var noTrailingPlus := ReplaceAll(noFence, "\" +", "\"");
    var noLeadingPlus := ReplaceAll(noTrailingPlus, "+ \"", "\"");
    Strip(noLeadingPlus)
  }

  /**
   * The cut applied after "Here is": from the first '{' through the last '}',
   * empty when the last '}' comes before the first '{', and no cut without both.
   */
  function CutToBraces(t: string): (r: string)
    ensures '{' !in t || '}' !in t ==> r == t
    ensures '{' in t && '}' in t && Find(t, '{') < RFind(t, '}') ==>
              r == t[Find(t, '{')..RFind(t, '}') + 1] && r[0] == '{' && r[|r| - 1] == '}'
    ensures '{' in t && '}' in t && RFind(t, '}') < Find(t, '{') ==> r == ""
  {
    var start := Find(t, '{');
    var end := RFind(t, '}') + 1;
    if start >= 0 && end > 0 then Slice(t, start, end) else t
  }

  /** The cut is never longer than its input and keeps ends that are not whitespace. */
  lemma CutToBracesTrimmed(t: string)
    requires t != [] ==> !IsSpace(t[0]) && !IsSpace(t[|t| - 1])
    ensures var r := CutToBraces(t);
            && |r| <= |t|
            && (r != [] ==> !IsSpace(r[0]) && !IsSpace(r[|r| - 1]))
  {
  }

  /** The text _call_llm returns for a reply it received. */
  function CleanResponse(raw: string): (r: string)
  {
    var t := RemoveArtifacts(raw);
    if Contains(t, "Here is") then CutToBraces(t) else t
  }

  /**
   * _call_llm. Its handler logs `raw_response`: when the failure came before
   * that variable was bound, the handler itself raises, so a transport failure
   * escapes to the caller; a failure after it was bound is logged and gives None.
   */
  function CallLlm(reply: LlmReply): (r: Flow<Option<string>>)
    ensures reply.TransportFailure? <==> r.Raised?
    ensures reply.NonTextReply? ==> r == Done(None)
    ensures reply.Reply? ==> r == Done(Some(CleanResponse(reply.text)))
  {
    match reply
    case Reply(text) => Done(Some(CleanResponse(text)))
    case NonTextReply => Done(None)
    case TransportFailure => Raised
  }

  /** `if not response`: None and the empty string both count as no answer. */
  predicate HasText(response: Option<string>) {
    response.Some? && response.value != ""
  }

  /** The cleaned text is never longer than the reply and has no whitespace at either end. */
  lemma CleanResponseTrimmed(raw: string)
    ensures var r := CleanResponse(raw);
            && |r| <= |raw|
            && (r != [] ==> !IsSpace(r[0]) && !IsSpace(r[|r| - 1]))
  {
    var t := RemoveArtifacts(raw);
    assert CleanResponse(raw) == if Contains(t, "Here is") then CutToBraces(t) else t;
    CutToBracesTrimmed(t);
  }

  // ---- No markdown fence survives the cleaning ----

  ghost predicate TicksAt(s: string, i: int) {
    0 <= i && i + 3 <= |s| && s[i] == '`' && s[i + 1] == '`' && s[i + 2] == '`'
  }

  /** s holds no run of three backticks. */
  ghost predicate FenceFree(s: string) {
    forall i :: !TicksAt(s, i)
  }

  lemma FenceFreeIff(s: string)
    ensures FenceFree(s) <==> !Contains(s, "```")
  {
    if !FenceFree(s) {
      var i :| TicksAt(s, i);
      assert OccursAt(s, "```", i);
    }
    if Contains(s, "```") {
      var i: nat :| i <= |s| && OccursAt(s, "```", i);
      assert s[i..i + 3][0] == s[i] && s[i..i + 3][1] == s[i + 1] && s[i..i + 3][2] == s[i + 2];
      assert TicksAt(s, i);
    }
  }

  lemma FenceFreeSlice(s: string, a: nat, b: nat)
    requires a <= b <= |s| && FenceFree(s)
    ensures FenceFree(s[a..b])
  {
    forall i | 0 <= i && i + 3 <= b - a
      ensures !TicksAt(s[a..b], i)
    {
      assert !TicksAt(s, a + i);
      assert s[a..b][i] == s[a + i] && s[a..b][i + 1] == s[a + i + 1] && s[a..b][i + 2] == s[a + i + 2];
    }
  }

  lemma FenceFreeStrip(s: string)
    requires FenceFree(s)
    ensures FenceFree(Strip(s))
  {
    var l := StripLeft(s);
    FenceFreeSlice(s, |s| - |l|, |s|);
    assert s[|s| - |l|..|s|] == l;
    FenceFreeSlice(l, 0, |StripRight(l)|);
    assert l[0..|StripRight(l)|] == StripRight(l);
  }

  /** Removing "```" keeps the first character when it is not a backtick. */
  lemma RemoveTicksKeepsHead(u: string)
    requires u != [] && u[0] != '`'
    ensures var r := ReplaceAll(u, "```", ""); r != [] && r[0] == u[0]
  {
  }

  /** After removing every "```" in one left-to-right pass, no "```" is left. */
  lemma {:induction false} RemoveTicksFenceFree(s: string)
    ensures FenceFree(ReplaceAll(s, "```", ""))
    decreases |s|
  {
    var r := ReplaceAll(s, "```", "");
    if |s| < 3 {
      assert |r| < 3;
    } else if s[..3] == "```" {
      RemoveTicksFenceFree(s[3..]);
      assert r == ReplaceAll(s[3..], "```", "");
    } else {
      var rest := ReplaceAll(s[1..], "```", "");
      RemoveTicksFenceFree(s[1..]);
      assert r == [s[0]] + rest;
      if s[0] == '`' {
        if s[1] != '`' {
          RemoveTicksKeepsHead(s[1..]);
        } else {
          assert s[2] != '`';
          RemoveTicksKeepsHead(s[2..]);
          if |s[1..]| >= 3 {
            assert s[1..][..3] != "```";
            assert rest == [s[1]] + ReplaceAll(s[2..], "```", "");
          }
          assert rest[1] == s[2];
        }
        assert !TicksAt(r, 0);
      }
      forall i | i > 0
        ensures !TicksAt(r, i)
      {
        assert !TicksAt(rest, i - 1);
      }
    }
  }

  /**
   * When neither the pattern's first character nor any character of the
   * non-empty replacement is a backtick, the output starts with a backtick
   * only where the input does, and that backtick is copied through.
   */
  lemma ReplaceHeadTick(u: string, pat: string, rep: string)
    requires pat != [] && pat[0] != '`' && rep != [] && '`' !in rep
    ensures var r := ReplaceAll(u, pat, rep);
            r != [] && r[0] == '`' ==> u != [] && u[0] == '`' && r == [u[0]] + ReplaceAll(u[1..], pat, rep)
  {
    var r := ReplaceAll(u, pat, rep);
    if |u| >= |pat| && u[..|pat|] == pat {
      assert r[0] == rep[0];
    }
  }

  /** A replacement whose pattern does not start with a backtick and whose
      non-empty replacement has none cannot create "```". */
  lemma {:induction false} ReplacePreservesFenceFree(s: string, pat: string, rep: string)
    requires pat != [] && pat[0] != '`' && rep != [] && '`' !in rep
    requires FenceFree(s)
    ensures FenceFree(ReplaceAll(s, pat, rep))
    decreases |s|
  {
    var r := ReplaceAll(s, pat, rep);
    if |s| < |pat| {
    } else if s[..|pat|] == pat {
      var tail := ReplaceAll(s[|pat|..], pat, rep);
      FenceFreeSlice(s, |pat|, |s|);
      assert s[|pat|..|s|] == s[|pat|..];
      ReplacePreservesFenceFree(s[|pat|..], pat, rep);
      assert r == rep + tail;
      forall i
        ensures !TicksAt(r, i)
      {
        if 0 <= i < |rep| {
          assert r[i] == rep[i];
        } else if i >= |rep| {
          assert !TicksAt(tail, i - |rep|);
        }
      }
    } else {
      var rest := ReplaceAll(s[1..], pat, rep);
      FenceFreeSlice(s, 1, |s|);
      assert s[1..|s|] == s[1..];
      ReplacePreservesFenceFree(s[1..], pat, rep);
      assert r == [s[0]] + rest;
      assert !TicksAt(s, 0);
      ReplaceHeadTick(s[1..], pat, rep);
      if |s| >= 2 {
        assert s[1..][1..] == s[2..];
        ReplaceHeadTick(s[2..], pat, rep);
      }
      assert !TicksAt(r, 0);
      forall i | i > 0
        ensures !TicksAt(r, i)
      {
        assert !TicksAt(rest, i - 1);
      }
    }
  }

  /** The cleaned text never contains a markdown fence "```". */
  lemma CleanedHasNoFence(raw: string)
    ensures !Contains(CleanResponse(raw), "```")
  {
    var noJsonFence := ReplaceAll(raw, "```json", "");
    var noFence := ReplaceAll(noJsonFence, "```", "");
    RemoveTicksFenceFree(noJsonFence);
    var noTrailingPlus := ReplaceAll(noFence, "\" +", "\"");
    ReplacePreservesFenceFree(noFence, "\" +", "\"");
    var noLeadingPlus := ReplaceAll(noTrailingPlus, "+ \"", "\"");
    ReplacePreservesFenceFree(noTrailingPlus, "+ \"", "\"");
    var t := Strip(noLeadingPlus);
    FenceFreeStrip(noLeadingPlus);
    assert t == RemoveArtifacts(raw);
    var r := CleanResponse(raw);
    if r != t {
      var start := Find(t, '{');
      var end := RFind(t, '}') + 1;
      if start <= end {
        FenceFreeSlice(t, start, end);
      }
    }
    FenceFreeIff(r);
  }
}
