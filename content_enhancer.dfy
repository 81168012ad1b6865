/**
 * ContentEnhancer: sends a blog post back to the model with a fixed
 * enhancement prompt and returns the cleaned answer, or None when it is empty.
 */
module ContentEnhancer {
  import opened Wrappers
  import opened Text
  import opened BaseAgent

  const SystemPrompt: string :=
    "You are a content enhancement specialist.\nYour role is to improve and enrich blog post content while maintaining accuracy and readability."

  const PromptLead: string :=
    "Please enhance this blog post content while maintaining its core message and technical accuracy.\nAdd relevant details, examples, and improve readability where needed.\n\n"

  const ContentMarker: string := "Original content:\n"

  const GuidelinesMarker: string := "\n\nGuidelines:"

  const GuidelineList: string :=
    "\n- Maintain technical accuracy\n- Improve clarity and flow\n- Add relevant examples or context\n- Keep the same overall tone\n- Preserve any technical terms and concepts"

  /** _create_enhancement_prompt. */
  function EnhancementPrompt(content: string): string {
    PromptLead + ContentMarker + content + GuidelinesMarker + GuidelineList
  }

  /** Reads the content back out of an enhancement prompt; None for text of another shape. */
  function PromptContent(prompt: string): (r: Option<string>)
    ensures r.Some? ==> |r.value| + |PromptLead + ContentMarker| + |GuidelinesMarker + GuidelineList| == |prompt|
  {
    var head := PromptLead + ContentMarker;
    var tail := GuidelinesMarker + GuidelineList;
    if |prompt| >= |head| + |tail| && prompt[..|head|] == head && prompt[|prompt| - |tail|..] == tail
    then Some(prompt[|head|..|prompt| - |tail|])
    else None
  }

  /** The content goes into the prompt verbatim: it can be read back out unchanged. */
  lemma PromptContentRoundTrip(content: string)
    ensures PromptContent(EnhancementPrompt(content)) == Some(content)
  {
    var head := PromptLead + ContentMarker;
    var tail := GuidelinesMarker + GuidelineList;
    var prompt := EnhancementPrompt(content);
    assert prompt == head + content + tail;
    assert prompt[..|head|] == head;
    assert prompt[|prompt| - |tail|..] == tail;
    assert prompt[|head|..|prompt| - |tail|] == content;
  }

  /** The content sits between "Original content:\n" and "\n\nGuidelines:". */
  lemma ContentBetweenMarkers(content: string)
    ensures Contains(EnhancementPrompt(content), ContentMarker + content + GuidelinesMarker)
  {
    ContainsInner(PromptLead, ContentMarker, content, GuidelinesMarker, GuidelineList);
  }

  /**
   * enhance_content: Raised when the model call raises; None when the cleaned
   * answer is None or empty; otherwise the cleaned answer, unchanged.
   */
  function EnhanceContent(content: string, model: Model): (r: Flow<Option<string>>)
    ensures r.Raised? <==> model(EnhancementPrompt(content), SystemPrompt).TransportFailure?
    ensures r.Done? && r.value.Some? <==>
              model(EnhancementPrompt(content), SystemPrompt).Reply?
              && CleanResponse(model(EnhancementPrompt(content), SystemPrompt).text) != ""
    ensures r.Done? && r.value.Some? ==>
              && r.value.value == CleanResponse(model(EnhancementPrompt(content), SystemPrompt).text)
              && !Contains(r.value.value, "```")
  {
    var reply := model(EnhancementPrompt(content), SystemPrompt);
    match CallLlm(reply)
    case Raised => Raised
    case Done(response) =>
      if !HasText(response) then Done(None)
      else
        CleanedHasNoFence(reply.text);
        Done(response)
  }
}
