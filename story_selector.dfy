/**
 * StorySelector: lists the stories in a prompt, asks the model for a JSON
 * object naming one of them, validates that object, and marks the chosen
 * story with the model's reason.
 */
module StorySelector {
  import opened Wrappers
  import opened Text
  import opened Numerals
  import opened Json
  import opened Stories
  import opened BaseAgent

  const SystemPrompt: string :=
    "You are a technical blog content curator. \nRespond with ONLY a JSON object in this exact format, with no additional text or explanations:\n{\n    \"selected_index\": <number>,\n    \"reason\": \"<explanation string>\"\n}"

  const PromptHeader: string :=
    "Please analyze these news stories and select the most interesting one for a technical blog post:\n\n"

  const PromptFooter: string :=
    "\n\nSelect the story that best matches these criteria:\n- Technical relevance and depth\n- Current importance\n- Educational value\n- Reader engagement potential\n\nRespond with a JSON object containing:\n1. selected_index: the index number of the chosen story\n2. reason: brief explanation of why this story was chosen"

  // ---- The selection prompt ----

  /** The block that presents story number i. */
  function StoryEntry(i: nat, story: Story): string {
    "[" + IntToString(i) + "] Title: " + story.title + "\nDescription: " + story.description + "\nURL: " + story.url
  }

  function StoryEntries(stories: seq<Story>): (r: seq<string>)
    ensures |r| == |stories|
    ensures forall k :: 0 <= k < |stories| ==> r[k] == StoryEntry(k, stories[k])
  {
    seq(|stories|, k requires 0 <= k < |stories| => StoryEntry(k, stories[k]))
  }

  /** The prompt _create_selection_prompt returns. */
  function SelectionPrompt(stories: seq<Story>): string {
    PromptHeader + Join(StoryEntries(stories), "\n\n") + PromptFooter
  }

  /** _create_selection_prompt: the entries are collected one story at a time, then joined. */
  method CreateSelectionPrompt(stories: seq<Story>) returns (prompt: string)
    ensures prompt == SelectionPrompt(stories)
  {
    var storiesList: seq<string> := [];
    var i := 0;
    while i < |stories|
      invariant 0 <= i <= |stories|
      invariant storiesList == StoryEntries(stories[..i])
    {
      storiesList := storiesList + [StoryEntry(i, stories[i])];
      i := i + 1;
    }
    assert stories[..i] == stories;
    var storiesText := Join(storiesList, "\n\n");
    prompt := PromptHeader + storiesText + PromptFooter;
  }

  /** A story's entry shows its title and its URL. */
  lemma EntryShowsFields(i: nat, story: Story)
    ensures Contains(StoryEntry(i, story), story.title)
    ensures Contains(StoryEntry(i, story), story.url)
  {
    ContainsSecondAndLast("[" + IntToString(i) + "] Title: ", story.title,
                          "\nDescription: ", story.description, "\nURL: ", story.url);
  }

  /** Every story appears in the prompt, numbered by its position, with its title and URL. */
  lemma SelectionPromptShowsStory(stories: seq<Story>, k: nat)
    requires k < |stories|
    ensures Contains(SelectionPrompt(stories), StoryEntry(k, stories[k]))
    ensures Contains(SelectionPrompt(stories), stories[k].title)
    ensures Contains(SelectionPrompt(stories), stories[k].url)
  {
    var entries := StoryEntries(stories);
    var joined := Join(entries, "\n\n");
    var prompt := SelectionPrompt(stories);
    var entry := StoryEntry(k, stories[k]);
    JoinContains(entries, "\n\n", k);
    ContainsMiddle(PromptHeader, joined, PromptFooter);
    ContainsTransitive(prompt, joined, entry);
    EntryShowsFields(k, stories[k]);
    ContainsTransitive(prompt, entry, stories[k].title);
    ContainsTransitive(prompt, entry, stories[k].url);
  }

  // ---- _extract_json ----

  /** What _extract_json hands back: a non-negative index and a truthy reason. */
  datatype Selection = Selection(index: nat, reason: JsonValue)

  /** `.replace('```json', '').replace('```', '')`. */
  function RemoveFences(s: string): (r: string)
    ensures |r| <= |s|
  {
    ReplaceAll(ReplaceAll(s, "```json", ""), "```", "")
  }

  /**
   * The text handed to json.loads: the slice from the first '{' through the
   * last '}', without fences, stripped. None when a brace is missing.
   */
  function JsonCandidate(text: string): (r: Option<string>)
    ensures r.None? <==> '{' !in text || '}' !in text
    ensures r.Some? ==> |r.value| <= |text| && !Contains(r.value, "```")
  {
    var start := Find(text, '{');
    var end := RFind(text, '}') + 1;
    if start == -1 || end == 0 then None
    else
      var potential := Slice(text, start, end);
      var cleaned := Strip(RemoveFences(potential));
      NoFenceInCandidate(potential);
      Some(cleaned)
  }

  lemma NoFenceInCandidate(potential: string)
    ensures !Contains(Strip(RemoveFences(potential)), "```")
  {
    RemoveTicksFenceFree(ReplaceAll(potential, "```json", ""));
    FenceFreeStrip(RemoveFences(potential));
    FenceFreeIff(Strip(RemoveFences(potential)));
  }

  /** `int(str(data.get('selected_index', '-1')))`, None where int() raises ValueError. */
  function IndexField(m: map<string, JsonValue>): (r: Option<int>)
    ensures "selected_index" !in m ==> r == Some(-1)
    ensures "selected_index" in m && m["selected_index"].JInt? ==> r == Some(m["selected_index"].i)
    ensures "selected_index" in m && !m["selected_index"].JInt? && !m["selected_index"].JString? ==> r == None
  {
    MinusOne();
    IntOfStr(Get(m, "selected_index", JString("-1")))
  }

  lemma MinusOne()
    ensures ParseIntLiteral("-1") == Some(-1)
  {
    ParseIntRoundTrip(-1);
    assert IntToString(-1) == "-1";
  }

  /**
   * The checks after json.loads: a dict whose index converts to an int >= 0
   * and whose reason is truthy. `data` is None where json.loads raised.
   */
  function ValidatedSelection(data: Option<JsonValue>): (r: Option<Selection>)
    ensures r.Some? ==> Truthy(r.value.reason)
  {
    match data
    case Some(JObject(m)) =>
      var index := IndexField(m);
      var reason := Get(m, "reason", JNull);
      if index.None? || index.value < 0 || !Truthy(reason) then None
      else Some(Selection(index.value, reason))
    case _ => None
  }

  /** The validated selections are exactly the objects with an integer index >= 0 and a truthy reason. */
  lemma ValidatedSelectionAccepts(data: Option<JsonValue>)
    ensures ValidatedSelection(data).Some? <==>
              && data.Some? && data.value.JObject?
              && var m := data.value.fields;
                 && IndexField(m).Some? && IndexField(m).value >= 0
                 && "reason" in m && Truthy(m["reason"])
    ensures ValidatedSelection(data).Some? ==>
              var m := data.value.fields;
              ValidatedSelection(data).value == Selection(IndexField(m).value, m["reason"])
  {
    if data.Some? && data.value.JObject? {
      var m := data.value.fields;
      assert Truthy(Get(m, "reason", JNull)) <==> "reason" in m && Truthy(m["reason"]);
    }
  }

  /** _extract_json; every JSONDecodeError and ValueError it catches is a None. */
  function ExtractJson(text: string, parse: string -> Option<JsonValue>): (r: Option<Selection>)
    ensures r.Some? ==> JsonCandidate(text).Some? && Truthy(r.value.reason)
  {
    match JsonCandidate(text)
    case None => None
    case Some(cleaned) => ValidatedSelection(parse(cleaned))
  }

  /** The accepted selections are exactly the objects with an integer index >= 0 and a truthy reason. */
  lemma ExtractJsonAccepts(text: string, parse: string -> Option<JsonValue>)
    ensures ExtractJson(text, parse).Some? <==>
              && JsonCandidate(text).Some?
              && parse(JsonCandidate(text).value).Some?
              && parse(JsonCandidate(text).value).value.JObject?
              && var m := parse(JsonCandidate(text).value).value.fields;
                 && IndexField(m).Some? && IndexField(m).value >= 0
                 && "reason" in m && Truthy(m["reason"])
    ensures ExtractJson(text, parse).Some? ==>
              var m := parse(JsonCandidate(text).value).value.fields;
              ExtractJson(text, parse).value == Selection(IndexField(m).value, m["reason"])
  {
    if JsonCandidate(text).Some? {
      ValidatedSelectionAccepts(parse(JsonCandidate(text).value));
    }
  }

  /** A missing index defaults to -1 and is rejected; so is a float, bool, null, list or dict. */
  lemma NonIntegerIndexRejected(text: string, parse: string -> Option<JsonValue>)
    requires JsonCandidate(text).Some?
    requires parse(JsonCandidate(text).value).Some? && parse(JsonCandidate(text).value).value.JObject?
    requires var m := parse(JsonCandidate(text).value).value.fields;
             "selected_index" !in m || !(m["selected_index"].JInt? || m["selected_index"].JString?)
    ensures ExtractJson(text, parse) == None
  {
  }

  /** A string index such as "2.5" or "two" is not an int literal, so it is rejected too. */
  lemma PointIndexRejected(text: string, parse: string -> Option<JsonValue>)
    requires JsonCandidate(text).Some?
    requires parse(JsonCandidate(text).value).Some? && parse(JsonCandidate(text).value).value.JObject?
    requires var m := parse(JsonCandidate(text).value).value.fields;
             "selected_index" in m && m["selected_index"].JString? && '.' in m["selected_index"].s
    ensures ExtractJson(text, parse) == None
  {
    var m := parse(JsonCandidate(text).value).value.fields;
    PointRejected(m["selected_index"].s);
  }

  // ---- select_story ----

  /**
   * What select_story decides: Raised when the model call raises, otherwise the
   * selection when the answer is non-empty, validates, and indexes a story.
   */
  function Choice(stories: seq<Story>, model: Model, parse: string -> Option<JsonValue>): (r: Flow<Option<Selection>>)
    ensures r.Raised? <==> model(SelectionPrompt(stories), SystemPrompt).TransportFailure?
    ensures model(SelectionPrompt(stories), SystemPrompt).NonTextReply? ==> r == Done(None)
    ensures r.Done? && r.value.Some? ==> r.value.value.index < |stories| && Truthy(r.value.value.reason)
  {
    match CallLlm(model(SelectionPrompt(stories), SystemPrompt))
    case Raised => Raised
    case Done(response) =>
      if !HasText(response) then Done(None)
      else
        var selection := ExtractJson(response.value, parse);
        if selection.Some? && selection.value.index < |stories| then Done(selection) else Done(None)
  }

  /** A valid selection whose index is past the end of the list (IndexError) gives None. */
  lemma ChoiceIndexInRange(stories: seq<Story>, model: Model, parse: string -> Option<JsonValue>)
    requires model(SelectionPrompt(stories), SystemPrompt).Reply?
    ensures var text := CleanResponse(model(SelectionPrompt(stories), SystemPrompt).text);
            var selection := ExtractJson(text, parse);
            Choice(stories, model, parse).Done?
            && (Choice(stories, model, parse).value.Some? <==> selection.Some? && selection.value.index < |stories|)
  {
    var text := CleanResponse(model(SelectionPrompt(stories), SystemPrompt).text);
    if text == "" {
      assert JsonCandidate(text).None?;
    }
  }

  /**
   * select_story: on a valid choice the chosen dict gains `selection_reason`
   * in place and is returned; nothing else in the list changes.
   */
  method SelectStory(stories: array<Story>, model: Model, parse: string -> Option<JsonValue>)
    returns (r: Flow<Option<Story>>)
    modifies stories
    ensures match Choice(old(stories[..]), model, parse)
            case Raised => r.Raised? && stories[..] == old(stories[..])
            case Done(None) => r == Done(None) && stories[..] == old(stories[..])
            case Done(Some(selection)) =>
              && selection.index < stories.Length
              && stories[..] == old(stories[..])[selection.index :=
                                   old(stories[selection.index]).(selectionReason := Some(selection.reason))]
              && r == Done(Some(stories[selection.index]))
  {
    ghost var choice := Choice(stories[..], model, parse);
    var prompt := CreateSelectionPrompt(stories[..]);
    var response := CallLlm(model(prompt, SystemPrompt));
    if response.Raised? {
      assert choice.Raised?;
      return Raised;
    }
    if !HasText(response.value) {
      assert choice == Done(None);
      return Done(None);
    }
    var selection := ExtractJson(response.value.value, parse);
    if selection.None? {
      assert choice == Done(None);
      return Done(None);
    }
    var i := selection.value.index;
    if i >= stories.Length {
      assert choice == Done(None);
      return Done(None);
    }
    assert choice == Done(selection);
    stories[i] := stories[i].(selectionReason := Some(selection.value.reason));
    r := Done(Some(stories[i]));
  }
}
