/**
 * The command-line entry point: load the configuration, collect stories,
 * let the model pick one, write the post; stop at the first stage that
 * comes back empty, and catch whatever is raised.
 */
module Pipeline {
  import opened Wrappers
  import opened Text
  import opened Json
  import opened Stories
  import opened BaseAgent
  import opened NewsScraper
  import opened StorySelector
  import opened BlogWriter

  /** str_to_bool: the default for a missing variable, otherwise whether it reads "true" in any case. */
  function StrToBool(value: Option<string>, default: bool): (r: bool)
    ensures value.None? ==> r == default
  {
    if value.None? then default else Lower(value.value) == "true"
  }

  /** A set value is true exactly when it is the four letters t, r, u, e, each in either case. */
  lemma StrToBoolIff(value: string, default: bool)
    ensures StrToBool(Some(value), default) <==>
              && |value| == 4
              && value[0] in "tT" && value[1] in "rR" && value[2] in "uU" && value[3] in "eE"
  {
    var lowered := Lower(value);
    if |value| == 4 {
      assert lowered == "true" <==>
               lowered[0] == 't' && lowered[1] == 'r' && lowered[2] == 'u' && lowered[3] == 'e';
    } else {
      assert |lowered| != |"true"|;
    }
  }

  /** The stages main can reach; the enhancer and the publisher are imported but have no stage in main. */
  datatype Stage = LoadConfig | Scrape | Select | Write | Enhance | Publish

  /** How a run ends; every exception in a stage ends as Crashed, which is logged. */
  datatype Outcome = NoStories | SelectionFailed | GenerationFailed | Created(post: PostFile) | Crashed

  /**
   * The stages after a non-empty scrape: the selection (Raised when its model
   * call raises, None when it fails) and then the blog post (None on any
   * failure, which generate_blog_post catches itself).
   */
  function SelectAndWriteOutcome(stories: seq<Story>, model: Model, parse: string -> Option<JsonValue>,
                                 date: string, outputDir: string, writeSucceeds: bool): (r: Outcome)
    requires stories != []
    ensures r.Crashed? <==> Choice(stories, model, parse).Raised?
    ensures r == SelectionFailed <==> Choice(stories, model, parse) == Done(None)
    ensures r.Created? ==>
              && Choice(stories, model, parse).Done? && Choice(stories, model, parse).value.Some?
              && var selection := Choice(stories, model, parse).value.value;
                 var story := stories[selection.index].(selectionReason := Some(selection.reason));
                 && r.post.path == outputDir + "/" + FileName(date, stories[selection.index].title)
                 && GenerateBlogPost(story, model, date, outputDir, writeSucceeds) == Some(r.post)
                 && r.post.content != ""
                 && !Contains(r.post.content, "```")
    ensures r.Created? <==>
              && Choice(stories, model, parse).Done? && Choice(stories, model, parse).value.Some?
              && var selection := Choice(stories, model, parse).value.value;
                 GenerateBlogPost(stories[selection.index].(selectionReason := Some(selection.reason)),
                                  model, date, outputDir, writeSucceeds).Some?
    ensures r.NoStories? == false
  {
    match Choice(stories, model, parse)
    case Raised => Crashed
    case Done(None) => SelectionFailed
    case Done(Some(selection)) =>
      var story := stories[selection.index].(selectionReason := Some(selection.reason));
      match GenerateBlogPost(story, model, date, outputDir, writeSucceeds)
      case None => GenerationFailed
      case Some(post) =>
        var reply := model(BlogPrompt(story), BlogWriter.SystemPrompt);
        CleanedHasNoFence(reply.text);
        Created(post)
  }

  /** select_story on a list built from the scraped stories, then generate_blog_post on the chosen one. */
  method SelectAndWrite(stories: seq<Story>, model: Model, parse: string -> Option<JsonValue>,
                        date: string, outputDir: string, writeSucceeds: bool) returns (outcome: Outcome)
    requires stories != []
    ensures outcome == SelectAndWriteOutcome(stories, model, parse, date, outputDir, writeSucceeds)
  {
    var storyList := new Story[|stories|](k requires 0 <= k < |stories| => stories[k]);
    assert storyList[..] == stories;
    var selected := SelectStory(storyList, model, parse);
    if selected.Raised? {
      return Crashed;
    }
    if selected.value.None? {
      return SelectionFailed;
    }
    var result := GenerateBlogPost(selected.value.value, model, date, outputDir, writeSucceeds);
    if result.None? {
      return GenerationFailed;
    }
    outcome := Created(result.value);
  }

  /** Whether the selector hands a story to the writer. */
  predicate Selected(stories: seq<Story>, model: Model, parse: string -> Option<JsonValue>) {
    Choice(stories, model, parse).Done? && Choice(stories, model, parse).value.Some?
  }

  /**
   * The stages main goes through: each one runs only when the one before it
   * produced something, and the enhancer and the publisher never run.
   */
  function StagesReached(configLoaded: bool, scraped: bool, selected: bool): (r: seq<Stage>)
    ensures 1 <= |r| <= 4 && r[0] == LoadConfig
    ensures |r| >= 2 <==> configLoaded
    ensures |r| >= 3 <==> configLoaded && scraped
    ensures |r| == 4 <==> configLoaded && scraped && selected
    ensures forall k :: 0 <= k < |r| ==> !r[k].Enhance? && !r[k].Publish?
  {
    if !configLoaded then [LoadConfig]
    else if !scraped then [LoadConfig, Scrape]
    else if !selected then [LoadConfig, Scrape, Select]
    else [LoadConfig, Scrape, Select, Write]
  }

  /**
   * main. `configLoads` says whether load_config's int() conversions succeed;
   * the scraper then runs get_news with its keywords, and the same model
   * serves the selector and the writer. Nothing is raised out of it.
   */
  method RunPipeline(configLoads: bool, cfg: ScraperConfig, fetch: Fetch, model: Model,
                     parse: string -> Option<JsonValue>, date: string, outputDir: string, writeSucceeds: bool)
    returns (outcome: Outcome, stages: seq<Stage>)
    ensures var stories := Collected(cfg.keywords, true, cfg, cfg.numStories, fetch);
            && stages == StagesReached(configLoads, stories != [], stories != [] && Selected(stories, model, parse))
            && (!configLoads ==> outcome == Crashed)
            && (configLoads && stories == [] ==> outcome == NoStories)
            && (configLoads && stories != [] ==>
                  outcome == SelectAndWriteOutcome(stories, model, parse, date, outputDir, writeSucceeds))
  {
    if !configLoads {
      return Crashed, [LoadConfig];
    }
    var stories := GetNews(cfg, true, fetch);
    assert stories == Collected(cfg.keywords, true, cfg, cfg.numStories, fetch);
    if stories == [] {
      return NoStories, [LoadConfig, Scrape];
    }
    outcome := SelectAndWrite(stories, model, parse, date, outputDir, writeSucceeds);
    if outcome.Created? || outcome.GenerationFailed? {
      stages := [LoadConfig, Scrape, Select, Write];
    } else {
      stages := [LoadConfig, Scrape, Select];
    }
  }
}
