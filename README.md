# OfflineAgenticBlogWriter in Dafny

This project models the text-handling and bookkeeping core of OfflineAgenticBlogWriter. The system collects tech news from RSS search feeds and asks a local language model to pick one story. It then has the model write a blog post about that story and saves the post as a markdown file. A small web service keeps a schedule for running this pipeline.

The model covers these parts:

- **Reply cleaning** (`BaseAgent`). This is the cleaning `_call_llm` applies to every model reply: literal replacements, strip, and the "Here is" brace cut.
- **Story selection** (`StorySelector`). This covers the selection prompt, the JSON extraction with its index and reason checks, and the in-place marking of the chosen story.
- **Blog writing** (`BlogWriter`). This covers the slug and file name, the blog prompt, the post itself, the read-time estimate, the next post id and the category.
- **Story collection** (`NewsScraper`). These are the loops of `get_news` and `get_top_stories`: de-duplication by raw title, the keyword filter, the count cap, and skipping a feed that fails. Keyword loading and matching are also modelled.
- **Prompt wrapping** (`PromptWrapper`). This is `wrap_prompt`.
- **Schedule service** (`ScheduleService`). `web/app.py` keeps one job slot and one schedule file. `set_schedule`, `init_scheduler`, `load_schedule` and `save_schedule` act on both.
- **Content enhancer** (`ContentEnhancer`). This is the enhancement prompt plus the empty-answer check.
- **Entry point** (`Pipeline`). This is `str_to_bool` and the short-circuiting stages of `main`.

Shared modules hold the Python semantics the core relies on:

- `Text`: `strip`, `lower`, `find`, `rfind`, `replace`, `split`, `join` and `in`, over ASCII.
- `Numerals`: `str(int)` and `int(str)`.
- `Json`: JSON values, truthiness, `dict.get`, `int(str(v))` and `int(v)`.
- `Wrappers`: `Option`, and `Flow`, which records whether a call returned or raised.

The language model, `json.loads`, the feed fetch and the outcome of each file write are all inputs:

- The model is a function from (prompt, system prompt) to a reply. The reply is one of three things: text, a `response` field that is not text, or a failure before the field was read.
- `json.loads` is a function from text to an optional JSON value.
- The feed fetch is a function from URL to an optional list of entries.
- The outcome of each file write is a flag.

Behaviour of the code a reader might not expect, which the model follows:

- A transport failure in `_call_llm` does not come back as "no result". The `except` block logs `raw_response`, which is unbound at that point, so the handler itself raises (`src/agent/base_agent.py:49-52`). `CallLlm` returns `Raised`. Three callers deal with it differently:
  - `generate_blog_post` catches it and returns None.
  - `select_story` lets it escape.
  - `main` catches it.
- `selection_reason` is not limited to strings. It is whatever truthy JSON value the model put under `reason` (`src/agent/story_selector.py:70-77`).
- `set_schedule` does not replace the job atomically. It removes the old job first (`web/app.py:96-97`). A later `int()` failure therefore leaves no job and an unchanged file.
- `init_scheduler` passes the saved cron `hour` and `minute` on as they are, without `int()` (`web/app.py:70-72`). `set_schedule` does convert them.

## Model

| member | source | states |
|---|---|---|
| BaseAgent.RemoveArtifacts | src/agent/base_agent.py:33-38 | the four replacements and the strip never lengthen the reply and leave no whitespace at either end |
| BaseAgent.CutToBraces | src/agent/base_agent.py:42-45 | without both braces the text is unchanged; if the first `{` precedes the last `}`, the result is the inclusive slice between them, starting with `{` and ending with `}`; if the last `}` comes first, the result is empty |
| BaseAgent.CutToBracesTrimmed | src/agent/base_agent.py:42-45 | the brace cut never lengthens a stripped text and keeps its ends free of whitespace |
| BaseAgent.CallLlm | src/agent/base_agent.py:21-52 | raises exactly on a transport failure; a `response` field that is not text gives None; a text reply gives its cleaned form |
| BaseAgent.CleanResponseTrimmed | src/agent/base_agent.py:33-47 | the cleaned reply is never longer than the raw reply and has no whitespace at either end |
| BaseAgent.RemoveTicksFenceFree | src/agent/base_agent.py:35 | after `.replace('```', '')` no three backticks remain in a row |
| BaseAgent.ReplacePreservesFenceFree | src/agent/base_agent.py:36-37 | a replacement whose pattern and replacement hold no backtick cannot create a fence |
| BaseAgent.FenceFreeStrip | src/agent/base_agent.py:38 | strip keeps a fence-free text fence-free |
| BaseAgent.FenceFreeSlice | src/agent/base_agent.py:45 | a slice of a fence-free text is fence-free |
| BaseAgent.CleanedHasNoFence | src/agent/base_agent.py:33-47 | the cleaned reply never contains "```" |
| StorySelector.StoryEntries | src/agent/story_selector.py:23-26 | one entry per story, entry k built from story k and its 0-based index |
| StorySelector.CreateSelectionPrompt | src/agent/story_selector.py:21-42 | the loop that appends one entry per story, then joins them, builds exactly the selection prompt |
| StorySelector.EntryShowsFields | src/agent/story_selector.py:24-26 | a story's entry shows its title and its URL |
| StorySelector.SelectionPromptShowsStory | src/agent/story_selector.py:21-42 | every story's numbered entry, title and URL occur in the prompt |
| StorySelector.RemoveFences | src/agent/story_selector.py:57-59 | removing fences never lengthens the text |
| StorySelector.JsonCandidate | src/agent/story_selector.py:48-60 | there is no candidate exactly when a `{` or a `}` is missing; a candidate is never longer than the text and holds no fence |
| StorySelector.IndexField | src/agent/story_selector.py:69 | a missing index reads as -1; an int index reads as itself; None, bool, float, list or dict indexes are rejected |
| StorySelector.ValidatedSelection | src/agent/story_selector.py:63-78 | a validated selection always carries a truthy reason |
| StorySelector.ValidatedSelectionAccepts | src/agent/story_selector.py:63-78 | the parsed value is accepted iff it is an object whose index converts to an int >= 0 and whose reason is present and truthy; the selection holds exactly that index and reason |
| StorySelector.ExtractJson | src/agent/story_selector.py:44-82 | an accepted selection needs a candidate and carries a truthy reason |
| StorySelector.ExtractJsonAccepts | src/agent/story_selector.py:63-78 | a selection is accepted iff the candidate parses to an object whose index converts to an int >= 0 and whose reason is present and truthy; the result holds exactly that index and reason |
| StorySelector.NonIntegerIndexRejected | src/agent/story_selector.py:69-73 | a missing index, or one that is not an int or a str, gives None |
| StorySelector.PointIndexRejected | src/agent/story_selector.py:69-82 | a string index with a decimal point gives None, not an exception |
| StorySelector.Choice | src/agent/story_selector.py:84-107 | raises exactly when the model call raises; a reply whose `response` field is not text gives None; a selection it returns has an index inside the list and a truthy reason |
| StorySelector.ChoiceIndexInRange | src/agent/story_selector.py:93-107 | for a text reply, a story is chosen iff extraction succeeds and the index is below the list length |
| StorySelector.SelectStory | src/agent/story_selector.py:84-107 | on a choice, only the chosen element changes, gaining `selection_reason`, and that element is returned; otherwise the list is unchanged and the result is None or the raised call |
| BlogWriter.RemovePunctuation | src/agent/blog_writer.py:62 | only word characters, whitespace and hyphens remain |
| BlogWriter.CollapseSeparators | src/agent/blog_writer.py:63 | every run of hyphens and whitespace becomes one hyphen: no whitespace, no two hyphens in a row, empty iff the input is empty |
| BlogWriter.StripHyphensLeft | src/agent/blog_writer.py:63 | drops leading hyphens only; the result does not start with one |
| BlogWriter.StripHyphensRight | src/agent/blog_writer.py:63 | drops trailing hyphens only; the result does not end with one |
| BlogWriter.SlugIsShaped | src/agent/blog_writer.py:62-63 | the slug holds only word characters and hyphens, never two hyphens in a row, none at either end |
| BlogWriter.SlugKeepsWords | src/agent/blog_writer.py:62-63 | the slug keeps exactly the title's word characters, in order |
| BlogWriter.SlugEmptyIff | src/agent/blog_writer.py:62-63 | the slug is empty iff the title has no word character |
| BlogWriter.SlugIdempotent | src/agent/blog_writer.py:62-63 | sanitising a slug again leaves it unchanged |
| BlogWriter.FileName | src/agent/blog_writer.py:62-65 | the name is the date, a hyphen, the first 50 slug characters and ".md", cut after the strip |
| BlogWriter.PunctuationTitleFileName | src/agent/blog_writer.py:62-65 | a title without word characters gives "<date>-.md" |
| BlogWriter.BlogPromptShowsStory | src/agent/blog_writer.py:79-97 | the prompt shows the title, description and URL, and the literal reference `"[Title](<url>)"` |
| BlogWriter.GenerateBlogPost | src/agent/blog_writer.py:41-77 | a post is written iff the reply is text, its cleaned form is non-empty and the write succeeds; it goes to `<output dir>/<file name>` and holds the cleaned reply |
| BlogWriter.RoundPer200 | src/agent/blog_writer.py:176 | the nearest whole number to w/200, an exact half going to the even neighbour |
| BlogWriter.EstimateReadTime | src/agent/blog_writer.py:170-177 | the estimate is at least one minute |
| BlogWriter.ReadTimeNearest | src/agent/blog_writer.py:170-177 | under 300 words the estimate is 1; otherwise it is within half a minute of words/200, and even on an exact half |
| BlogWriter.MaxOf | src/agent/blog_writer.py:164 | `max` is an element of the list and no element exceeds it |
| BlogWriter.NextPostId | src/agent/blog_writer.py:156-164 | 1 with no posts; otherwise one more than an existing id and greater than every id |
| BlogWriter.DetermineCategory | src/agent/blog_writer.py:179-181 | the category never holds a comma, and is "" when the variable is unset |
| BlogWriter.CategoryIsFirstItem | src/agent/blog_writer.py:180-181 | the category is the setting's text before its first comma, or all of it |
| NewsScraper.UniversalNewlines | src/agent/news_scraper.py:22-23 | text-mode reading leaves no carriage return and keeps the length |
| NewsScraper.NonEmpty | src/agent/news_scraper.py:23 | the comprehension's `if` keeps only non-empty strings and never adds one |
| NewsScraper.SourceIndex | src/agent/news_scraper.py:23 | every string the filter keeps is one of its input strings, at a position it names |
| NewsScraper.NonEmptyComplete | src/agent/news_scraper.py:23 | every non-empty input string is kept |
| NewsScraper.NonEmptyInOrder | src/agent/news_scraper.py:23 | the kept strings appear in the order of the input |
| NewsScraper.NonEmptyCounts | src/agent/news_scraper.py:23 | each non-empty string is kept as many times as it occurs in the input |
| NewsScraper.StrippedLines | src/agent/news_scraper.py:23 | one stripped line per line, in order |
| NewsScraper.NonBlankStrippedTrimmed | src/agent/news_scraper.py:23 | every keyword is non-empty and already stripped |
| NewsScraper.LoadKeywords | src/agent/news_scraper.py:17-27 | an unreadable file gives the three defaults; otherwise every keyword is non-empty and stripped |
| NewsScraper.LoadKeywordsFromLines | src/agent/news_scraper.py:22-23 | the keywords are exactly the stripped non-blank lines: each keyword comes from a line, each such line gives a keyword, and they keep the file's order and every duplicate |
| NewsScraper.AnyKeywordInIff | src/agent/news_scraper.py:103 | `any(...)` holds iff some lowered keyword occurs in the lowered text |
| NewsScraper.ContainsKeywordsIff | src/agent/news_scraper.py:99-103 | false on empty text, otherwise true iff some keyword occurs, ignoring case |
| NewsScraper.ToStory | src/agent/news_scraper.py:78-82 | empty title and summary become 'No Title' and 'No Description'; link and date are copied; a missing source is 'Unknown' |
| NewsScraper.StoriesOf | src/agent/news_scraper.py:77-83 | one article per kept entry, in order |
| NewsScraper.SliceTo | src/agent/news_scraper.py:93 | Python's `[:n]`, counting from the end for negative n |
| NewsScraper.ScanEntries | src/agent/news_scraper.py:66-86 | the inner loop, with its `continue`s and its `break`, keeps exactly the entries the feed scan specifies, and `articles` and `seen_titles` stay the stories and the titles of the kept entries |
| NewsScraper.NextHarvest | src/agent/news_scraper.py:58-90 | one round records the term as requested, and a feed whose request raised keeps the articles as they are |
| NewsScraper.CollectArticles | src/agent/news_scraper.py:54-93 | the nested loops with their `continue`s and `break`s return exactly the specified harvest, cut to the cap, and request exactly the specified terms |
| NewsScraper.GetNews | src/agent/news_scraper.py:29-97 | the configured keywords as terms and filter, or the fixed terms unfiltered, collected with the configured count |
| NewsScraper.GetTopStories | src/agent/news_scraper.py:105-177 | the fixed terms, always filtered, collected with the given count or the configured one |
| NewsScraper.ScanFeedAppends | src/agent/news_scraper.py:66-86 | one feed only appends entries that are new, admitted, distinct and in feed order, and never past the cap |
| NewsScraper.ScanFeedComplete | src/agent/news_scraper.py:66-86 | one feed loses no title kept before, and unless it stops at the cap, every entry that passes the filter is kept or shares a kept title |
| NewsScraper.NextHarvestKeepsInvariant | src/agent/news_scraper.py:58-90 | one round below the cap keeps the bound, distinct titles, the filter and term-then-feed order |
| NewsScraper.GatherKeepsInvariant | src/agent/news_scraper.py:54-90 | the outer loop keeps the bound, distinct titles, the filter and term-then-feed order |
| NewsScraper.GatherQueried | src/agent/news_scraper.py:54-64 | terms are requested in order, after those requested before, and all of them unless the cap is reached |
| NewsScraper.NextHarvestComplete | src/agent/news_scraper.py:58-90 | a round ending below the cap has kept a title for every admitted entry of every fetched feed so far |
| NewsScraper.GatherComplete | src/agent/news_scraper.py:54-90 | when the outer loop ends below the cap, every admitted entry of every fetched feed has its title kept |
| NewsScraper.CollectedProperties | src/agent/news_scraper.py:54-93 | at most `cap` stories, none and no request when cap <= 0; distinct raw titles; all pass the filter; term order then feed order; unless the cap was reached, every term was requested and every entry of a fetched feed that passes the filter was kept, or one with its title, so a failed feed does not stop later ones |
| NewsScraper.RejectedTitleStaysOpen | src/agent/news_scraper.py:68-76 | a rejected entry does not mark its title as seen, so a later same-title entry that passes is kept |
| PromptWrapper.FormatLines | src/utils/prompt_wrapper.py:12-14 | one `key: <value>` line per entry, in order |
| PromptWrapper.WrapPromptShape | src/utils/prompt_wrapper.py:16-30 | starts with the context line and a blank line when the context is non-empty, otherwise with "IMPORTANT INSTRUCTIONS:"; ends with "\nPROMPT:\n" and the base prompt |
| PromptWrapper.InstructionsInOrder | src/utils/prompt_wrapper.py:16-30 | the joined lines are the optional context, the five instruction lines in order, the format lines, and the base prompt last |
| PromptWrapper.InstructionsPresent | src/utils/prompt_wrapper.py:17-21 | every instruction line occurs in the output |
| PromptWrapper.FormatBlockLines | src/utils/prompt_wrapper.py:12-14 | an empty format gives an empty block; otherwise splitting the block at line breaks gives back one line per entry |
| PromptWrapper.FormatBlockPresent | src/utils/prompt_wrapper.py:12-25 | the "EXPECTED FORMAT" header, the block and "PROMPT:" occur together, even for an empty format |
| ScheduleService.LoadedSchedule | web/app.py:22-30 | a readable file gives its value; a missing or unreadable one gives `{'enabled': False, 'schedule': {}}` |
| ScheduleService.ApplySchedule | web/app.py:93-134 | a successful call saves exactly `enabled` as sent and an object `schedule` |
| ScheduleService.RestoredJob | web/app.py:53-75 | a falsy `enabled` registers nothing; a registered job needs a truthy `enabled` |
| ScheduleService.DisabledLeavesNoJob | web/app.py:99-134 | a falsy or missing `enabled` saves an empty schedule and leaves no job |
| ScheduleService.IntervalSchedule | web/app.py:101-114 | an interval schedule, the default type, stores and uses `int(hours)`, 24 when absent, and raises iff that conversion fails |
| ScheduleService.CronSchedule | web/app.py:116-132 | a cron schedule saves `{'type': 'cron', 'day_of_week': ..., 'hour': int(hour), 'minute': int(minute)}` and registers the matching job, with `day_of_week` as sent ('*' when absent) and hour and minute 0 when absent; it raises iff a conversion fails |
| ScheduleService.OtherTypeLeavesNoJob | web/app.py:101-134 | any other type stores only the type and registers nothing |
| ScheduleService.PointHoursRaise | web/app.py:106 | hours such as "1.5" make the call raise |
| ScheduleService.RestartRestoresJob | web/app.py:53-134 | what `set_schedule` saved makes `init_scheduler` register the same job after a restart |
| ScheduleService.NoFileNoJob | web/app.py:22-55 | with no readable file the service starts without a job |
| ScheduleService.Scheduler.constructor | web/app.py:15-20 | a fresh scheduler has no job |
| ScheduleService.Scheduler.LoadSchedule | web/app.py:22-30 | returns the loaded schedule of the current file |
| ScheduleService.Scheduler.SaveSchedule | web/app.py:32-38 | a successful write stores the data; a failed one leaves the file as it was |
| ScheduleService.Scheduler.InitScheduler | web/app.py:53-75 | raises iff the saved configuration cannot be read back into a job, and then leaves the slot as it was; otherwise registers the restored job, if any |
| ScheduleService.Scheduler.SetSchedule | web/app.py:90-135 | the slot is cleared first; on an exception it stays empty and the file is unchanged; otherwise the slot holds the specified job, the file the saved configuration when the write succeeds, and the reply echoes it |
| ScheduleService.SetThenRestart | web/app.py:53-135 | a schedule set through the form and then reloaded at start-up gives the same job |
| ContentEnhancer.PromptContent | src/agent/content_enhancer.py:30-42 | reading content back out of a prompt accounts for every character between the fixed head and tail |
| ContentEnhancer.PromptContentRoundTrip | src/agent/content_enhancer.py:30-42 | the content goes into the prompt verbatim and can be read back unchanged |
| ContentEnhancer.ContentBetweenMarkers | src/agent/content_enhancer.py:34-37 | the content sits between "Original content:\n" and "\n\nGuidelines:" |
| ContentEnhancer.EnhanceContent | src/agent/content_enhancer.py:16-28 | raises exactly when the model call raises; returns text iff the reply is text whose cleaned form is non-empty, and then returns that cleaned form unchanged and fence-free |
| Pipeline.StrToBool | src/main.py:31-34 | an unset variable gives the default |
| Pipeline.StrToBoolIff | src/main.py:34 | a set value is true iff it spells "true" in any mix of cases |
| Pipeline.SelectAndWriteOutcome | src/main.py:88-112 | Crashed exactly when the selection call raises; SelectionFailed exactly when no story is chosen; Created exactly when a story is chosen and `generate_blog_post` returns a post for it, which lies at the file name of that story's title and holds non-empty fence-free text |
| Pipeline.SelectAndWrite | src/main.py:88-112 | running `select_story` on the scraped list and `generate_blog_post` on its result gives exactly that outcome |
| Pipeline.StagesReached | src/main.py:67-115 | each stage is reached iff every stage before it produced something; the run passes through at most four stages, always starting with the configuration, and never reaches the enhancer or the publisher |
| Pipeline.RunPipeline | src/main.py:67-115 | the stages run, derived from what each stage returned, are exactly the ones reached given whether the configuration loads, whether the scrape finds stories and whether one is selected; a config failure ends as Crashed, no stories as NoStories, and otherwise the outcome is that of selecting and writing, so every exception ends the run as Crashed instead of escaping |
| Text.Strip | src/agent/base_agent.py:38 | strip never lengthens and leaves no whitespace at either end |
| Text.StripKeeps | src/agent/story_selector.py:60 | strip removes whitespace only |
| Text.Find | src/agent/base_agent.py:42 | the first index of the character, -1 iff absent |
| Text.RFind | src/agent/base_agent.py:43 | the last index of the character, -1 iff absent |
| Text.ReplaceAll | src/agent/base_agent.py:34-37 | a replacement no longer than its pattern never lengthens the text |
| Text.JoinContains | src/agent/story_selector.py:28 | every joined part occurs in the joined text |
| Text.Split | src/agent/blog_writer.py:180 | never empty, and no part holds the separator |
| Text.SplitFirst | src/agent/blog_writer.py:180-181 | the first part is the text before the first separator, or all of it |
| Text.JoinSplit | src/utils/prompt_wrapper.py:12-14 | joining the parts with the separator gives the text back |
| Text.SplitJoin | src/utils/prompt_wrapper.py:12-14 | splitting joined parts that lack the separator gives the parts back |
| Text.Words | src/agent/blog_writer.py:175 | `split()` gives non-empty runs of non-whitespace |
| Text.WordsKeepText | src/agent/blog_writer.py:175 | the words, written one after another, are exactly the text's non-whitespace characters in order |
| Text.WordsCount | src/agent/blog_writer.py:175 | the number of words is the number of positions where a non-whitespace character starts the text or follows whitespace |
| Text.WordsCountAfter | src/agent/blog_writer.py:175 | `split()` gives exactly one word for each non-whitespace character that starts the text or follows whitespace |
| Text.NonSpaceAppend | src/agent/blog_writer.py:175 | the non-whitespace characters of two joined texts are those of each, in order |
| Numerals.ParseIntRoundTrip | src/agent/story_selector.py:69 | `int(str(n)) == n` for every int |
| Numerals.PointRejected | src/agent/story_selector.py:69 | a numeral with a decimal point is not an int literal |
| Json.Get | web/app.py:99 | `dict.get` gives the stored value for a present key and the default otherwise |
| Json.IntOfStr | src/agent/story_selector.py:69 | `int(str(v))` keeps an int and rejects None, bools, floats, lists and dicts |
| Json.Truncate | web/app.py:106 | `int()` of a float truncates toward zero |
| Json.IntOf | web/app.py:106-119 | `int(v)` keeps an int and raises on None, lists and dicts |

## Left out

- The HTTP request to the model endpoint (`src/agent/base_agent.py:13-27`) is not modelled. The reply is an input, so headers, timeouts and status codes are not modelled either.
- The RSS fetch and `feedparser` are not modelled. Each search term's feed is an input list of entries, or nothing when the request or the parse raised. Entry fields arrive already defaulted to '' as `entry.get` gives them.
- The outer `try`/`except` of `get_news` and `get_top_stories` is not modelled. Nothing outside the per-term `try` can raise once the fetch is an input.
- Reading the keyword file and the environment is not modelled. The file is an optional text and the settings are a configuration value.
- Flask routing, `render_template`, the `run_now` route and the `subprocess` launch are not modelled.
- APScheduler's own timing and its checks on trigger arguments are not modelled. For example, `hour=25` would make `add_job` raise.
- Logging is left out: the logger calls and all of `src/utils/llm_logger.py`.
- `src/publish/web_publisher.py` is not part of this model. `main` never calls it.
- `src/agent/blog_generator.py` is not part of this model. It is a separate HTTP client, and `main` does not use it.
- The test files are not modelled. They need a live model server.
- Dead or broken code is not modelled: the alternate selection code in `src/agent/story_selector.py:109-233`, and the undefined-method paths in `src/agent/blog_writer.py:99-154` and `183-188`.
- Characters are ASCII only. Python's Unicode-aware `\w`, `\s`, `str.isspace`, `str.strip` and `str.lower` are modelled for ASCII.
- JSON `NaN` and the infinities are not modelled. Neither is the limit on `str()` of ints longer than 4300 digits.
- Dict aliasing is modelled as value equality. `select_story` returns the very dict it modified, and the model returns an equal value read from the updated array element.
- CallLlm: a failure after `raw_response` was bound is modelled only as a `response` field that is not text. No other failure after that point is modelled.
- CollectArticles: the `articles` dicts are compared as values. The `headers` of the request are not modelled.
- GenerateBlogPost: the date comes from a parameter instead of the clock. The output directory is a string. The file write is a success flag, so a partly written file is not modelled.
- NextPostId: takes the post numbers directly. Globbing `post*.ts` and the `int()` of each file stem are not modelled. A stem that is not a number would raise.
- RoundPer200: uses integer round-half-even. The float quotient `w / 200` is exact enough to round the same way for every word count below 2^53.
- DetermineCategory: the `BLOG_CATEGORIES` variable is an optional input.
- LoadKeywords: a file that cannot be opened or read is None. The text-mode "\r\n" becomes two line breaks rather than one. The extra line is blank and filtered out, so the keywords are the same.
- Scheduler.SetSchedule: takes the parsed JSON body. A request whose body is not JSON makes `request.json` raise on the handler's first line (`web/app.py:93`), before the job is removed, so nothing changes; that case is not modelled. Any JSON body that is not an object raises after the job was removed.
- Scheduler.SaveSchedule: a write that fails after the file was opened, which truncates it, is not modelled. A failed write leaves the file unchanged.
- Scheduler.InitScheduler: `replace_existing` matters only when a job is already present. At start-up the slot is empty.
- RunPipeline: parts of the run are abstracted.
  - `configLoads` stands for whether `load_config`'s `int()` conversions succeed. `NewsScraper()` repeats the same `NEWS_NUM_STORIES` conversion, so it succeeds whenever the configuration loads.
  - The keyword file is part of the scraper configuration.
  - The `BlogWriter` constructor's `mkdir` is assumed to succeed.
