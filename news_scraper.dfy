/**
 * NewsScraper: the keyword list, the keyword filter, and the loop that walks
 * the search terms and their RSS entries, keeping unseen relevant titles
 * until the requested number of stories is reached.
 */
module NewsScraper {
  import opened Wrappers
  import opened Text
  import opened Stories

  /** A feed entry as feedparser hands it over; a missing field reads as "". */
  datatype Entry = Entry(
    title: string,
    summary: string,
    link: string,
    published: string,
    sourceTitle: Option<string>)

  /** The RSS round trip for one URL: the entries, or None when the request or the parse raises. */
  type Fetch = string -> Option<seq<Entry>>

  /** The scraper's settings, fixed once __init__ has run. */
  datatype ScraperConfig = ScraperConfig(
    keywords: seq<string>,
    newsSource: string,
    language: string,
    numStories: int)

  const DefaultKeywords: seq<string> := ["technology", "AI", "software"]

  const DefaultSearchTerms: seq<string> := ["technology", "tech", "AI", "software", "digital"]

  // ---- _load_keywords ----

  /** Text-mode reading turns "\r\n" and a lone "\r" into "\n". */
  function UniversalNewlines(s: string): (r: string)
    ensures |r| == |s| && '\r' !in r
  {
    seq(|s|, i requires 0 <= i < |s| => if s[i] == '\r' then '\n' else s[i])
  }

  /** The `if` of a comprehension over strings: the non-empty ones, in order. */
  function NonEmpty(xs: seq<string>): (r: seq<string>)
    ensures |r| <= |xs|
    ensures forall k :: 0 <= k < |r| ==> r[k] != ""
  {
    if xs == [] then []
    else (if xs[0] != "" then [xs[0]] else []) + NonEmpty(xs[1..])
  }

  /** Where an element of NonEmpty(xs) came from. */
  function SourceIndex(xs: seq<string>, k: nat): (j: nat)
    requires k < |NonEmpty(xs)|
    ensures j < |xs| && NonEmpty(xs)[k] == xs[j]
    decreases |xs|
  {
    var head := if xs[0] != "" then [xs[0]] else [];
    var rest := NonEmpty(xs[1..]);
    assert NonEmpty(xs) == head + rest;
    if k < |head| then
      assert NonEmpty(xs)[k] == xs[0];
      0
    else
      var i := k - |head|;
      var j := SourceIndex(xs[1..], i);
      assert NonEmpty(xs)[k] == rest[i] == xs[1..][j] == xs[j + 1];
      j + 1
  }

  /** Every non-empty string survives the filter. */
  lemma {:induction false} NonEmptyComplete(xs: seq<string>, j: nat)
    requires j < |xs| && xs[j] != ""
    ensures xs[j] in NonEmpty(xs)
  {
    var head := if xs[0] != "" then [xs[0]] else [];
    assert NonEmpty(xs) == head + NonEmpty(xs[1..]);
    if j > 0 {
      NonEmptyComplete(xs[1..], j - 1);
      assert xs[1..][j - 1] == xs[j];
    }
  }

  /** The filter keeps the non-empty strings in their order. */
  lemma {:induction false} NonEmptyInOrder(xs: seq<string>)
    ensures IsSubsequence(NonEmpty(xs), xs)
  {
    if xs != [] {
      var r := NonEmpty(xs);
      var rest := NonEmpty(xs[1..]);
      NonEmptyInOrder(xs[1..]);
      if xs[0] != "" {
        assert r == [xs[0]] + rest;
        assert r[1..] == rest;
      } else {
        assert r == rest;
      }
    }
  }

  /** The filter keeps every occurrence of each non-empty string, duplicates included. */
  lemma {:induction false} NonEmptyCounts(xs: seq<string>)
    ensures forall s :: s != "" ==> multiset(NonEmpty(xs))[s] == multiset(xs)[s]
  {
    if xs != [] {
      var head := if xs[0] != "" then [xs[0]] else [];
      NonEmptyCounts(xs[1..]);
      assert NonEmpty(xs) == head + NonEmpty(xs[1..]);
      assert xs == [xs[0]] + xs[1..];
      var kept := multiset(NonEmpty(xs[1..]));
      var all := multiset(xs[1..]);
      assert multiset(NonEmpty(xs)) == multiset(head) + kept;
      assert multiset(xs) == multiset{xs[0]} + all;
      forall s | s != ""
        ensures multiset(NonEmpty(xs))[s] == multiset(xs)[s]
      {
        assert kept[s] == all[s];
      }
    }
  }

  function StrippedLines(lines: seq<string>): (r: seq<string>)
    ensures |r| == |lines|
    ensures forall j :: 0 <= j < |lines| ==> r[j] == Strip(lines[j])
  {
    seq(|lines|, j requires 0 <= j < |lines| => Strip(lines[j]))
  }

  /** `[line.strip() for line in lines if line.strip()]`. */
  function NonBlankStripped(lines: seq<string>): seq<string> {
    NonEmpty(StrippedLines(lines))
  }

  /** Every line kept is non-empty and already stripped. */
  lemma NonBlankStrippedTrimmed(lines: seq<string>)
    ensures var r := NonBlankStripped(lines);
            forall k :: 0 <= k < |r| ==> r[k] != "" && r[k] == Strip(r[k])
  {
    var r := NonBlankStripped(lines);
    forall k | 0 <= k < |r|
      ensures r[k] != "" && r[k] == Strip(r[k])
    {
      var j := SourceIndex(StrippedLines(lines), k);
      StripUnchangedIfTrimmed(Strip(lines[j]));
    }
  }

  lemma StripUnchangedIfTrimmed(t: string)
    requires t != [] ==> !IsSpace(t[0]) && !IsSpace(t[|t| - 1])
    ensures t == Strip(t)
  {
    if t != [] {
      StripUnchanged(t);
    }
  }

  /**
   * _load_keywords: the stripped non-blank lines of the keyword file, or the
   * three defaults when the file cannot be read (None). An empty file gives no
   * keywords at all.
   */
  function LoadKeywords(file: Option<string>): (r: seq<string>)
    ensures file.None? ==> r == DefaultKeywords
    ensures file.Some? ==> forall k :: 0 <= k < |r| ==> r[k] != "" && r[k] == Strip(r[k])
  {
    match file
    case None => DefaultKeywords
    case Some(text) =>
      NonBlankStrippedTrimmed(Split(UniversalNewlines(text), '\n'));
      NonBlankStripped(Split(UniversalNewlines(text), '\n'))
  }

  /**
   * The keywords are the stripped non-blank lines of the file: each came from a
   * line, every non-blank line gave one, in file order and with duplicates kept.
   */
  lemma LoadKeywordsFromLines(text: string)
    ensures var lines := Split(UniversalNewlines(text), '\n');
            forall k :: 0 <= k < |lines| && Strip(lines[k]) != "" ==> Strip(lines[k]) in LoadKeywords(Some(text))
    ensures var lines := Split(UniversalNewlines(text), '\n');
            var keywords := LoadKeywords(Some(text));
            forall k :: 0 <= k < |keywords| ==> exists j :: 0 <= j < |lines| && keywords[k] == Strip(lines[j])
    ensures var lines := Split(UniversalNewlines(text), '\n');
            var keywords := LoadKeywords(Some(text));
            && IsSubsequence(keywords, StrippedLines(lines))
            && forall s :: s != "" ==> multiset(keywords)[s] == multiset(StrippedLines(lines))[s]
  {
    var lines := Split(UniversalNewlines(text), '\n');
    NonEmptyInOrder(StrippedLines(lines));
    NonEmptyCounts(StrippedLines(lines));
    forall k | 0 <= k < |LoadKeywords(Some(text))|
      ensures exists j :: 0 <= j < |lines| && LoadKeywords(Some(text))[k] == Strip(lines[j])
    {
      var j := SourceIndex(StrippedLines(lines), k);
    }
    forall k | 0 <= k < |lines| && Strip(lines[k]) != ""
      ensures Strip(lines[k]) in LoadKeywords(Some(text))
    {
      NonEmptyComplete(StrippedLines(lines), k);
    }
  }

  // ---- _contains_keywords ----

  function AnyKeywordIn(lowered: string, keywords: seq<string>): bool {
    keywords != [] && (Contains(lowered, Lower(keywords[0])) || AnyKeywordIn(lowered, keywords[1..]))
  }

  /** _contains_keywords: false for "", otherwise whether some keyword occurs, ignoring case. */
  function ContainsKeywords(text: string, keywords: seq<string>): bool {
    text != "" && AnyKeywordIn(Lower(text), keywords)
  }

  lemma {:induction false} AnyKeywordInIff(lowered: string, keywords: seq<string>)
    ensures AnyKeywordIn(lowered, keywords) <==>
              exists k :: 0 <= k < |keywords| && Contains(lowered, Lower(keywords[k]))
  {
    if keywords != [] {
      AnyKeywordInIff(lowered, keywords[1..]);
      if AnyKeywordIn(lowered, keywords[1..]) {
        var k :| 0 <= k < |keywords[1..]| && Contains(lowered, Lower(keywords[1..][k]));
        assert keywords[1..][k] == keywords[k + 1];
      }
      if exists k :: 0 <= k < |keywords| && Contains(lowered, Lower(keywords[k])) {
        var k :| 0 <= k < |keywords| && Contains(lowered, Lower(keywords[k]));
        if k > 0 {
          assert keywords[k] == keywords[1..][k - 1];
        }
      }
    }
  }

  lemma ContainsKeywordsIff(text: string, keywords: seq<string>)
    ensures ContainsKeywords(text, keywords) <==>
              text != "" && exists k :: 0 <= k < |keywords| && Contains(Lower(text), Lower(keywords[k]))
  {
    AnyKeywordInIff(Lower(text), keywords);
  }

  // ---- One entry ----

  /** The article dict built from a kept entry, with the source's defaults for empty fields. */
  function ToStory(e: Entry): (r: Story)
    ensures r.title != "" && r.description != ""
    ensures e.title != "" ==> r.title == e.title
    ensures e.summary != "" ==> r.description == e.summary
    ensures r.url == e.link && r.publishedAt == e.published
    ensures e.sourceTitle.Some? ==> r.source == e.sourceTitle.value
    ensures r.selectionReason.None?
  {
    Story(
      if e.title == "" then "No Title" else e.title,
      if e.summary == "" then "No Description" else e.summary,
      e.link,
      e.published,
      e.sourceTitle.GetOr("Unknown"),
      None)
  }

  function StoriesOf(kept: seq<Entry>): (r: seq<Story>)
    ensures |r| == |kept|
    ensures forall i :: 0 <= i < |kept| ==> r[i] == ToStory(kept[i])
  {
    seq(|kept|, i requires 0 <= i < |kept| => ToStory(kept[i]))
  }

  /** The keyword test on the raw title or the raw summary. */
  predicate Relevant(e: Entry, keywords: seq<string>) {
    ContainsKeywords(e.title, keywords) || ContainsKeywords(e.summary, keywords)
  }

  /** The filter applied to an entry: the keyword test when filtering, nothing otherwise. */
  predicate Admits(e: Entry, useFilter: bool, keywords: seq<string>) {
    !useFilter || Relevant(e, keywords)
  }

  function Titles(kept: seq<Entry>): set<string> {
    set e | e in kept :: e.title
  }

  // ---- The collection loop, as a specification ----

  /**
   * The inner loop over one feed: an entry whose raw title was already kept is
   * skipped, so is one the filter rejects (without marking its title as seen);
   * any other entry is kept, and the scan stops once `cap` entries are kept.
   */
  function ScanFeed(es: seq<Entry>, kept: seq<Entry>, cap: int, useFilter: bool, keywords: seq<string>): seq<Entry>
    decreases |es|
  {
    if es == [] then kept
    else if es[0].title in Titles(kept) || !Admits(es[0], useFilter, keywords) then
      ScanFeed(es[1..], kept, cap, useFilter, keywords)
    else if |kept| + 1 >= cap then kept + [es[0]]
    else ScanFeed(es[1..], kept + [es[0]], cap, useFilter, keywords)
  }

  /** The URL get_news and get_top_stories request for a search term. */
  function FeedUrl(cfg: ScraperConfig, term: string): string {
    cfg.newsSource + "/news/rss/search?q=" + term + "&hl=" + cfg.language
  }

  /** The entries kept so far and the terms whose feed was requested, in order. */
  datatype Harvest = Harvest(kept: seq<Entry>, queried: seq<string>)

  /**
   * One round of the outer loop: request the term's feed and scan it, or keep
   * the articles as they are when the request raised.
   */
  function NextHarvest(term: string, useFilter: bool, cfg: ScraperConfig, cap: int, fetch: Fetch, h: Harvest): (r: Harvest)
    ensures r.queried == h.queried + [term]
    ensures fetch(FeedUrl(cfg, term)).None? ==> r.kept == h.kept
  {
    match fetch(FeedUrl(cfg, term))
    case None => Harvest(h.kept, h.queried + [term])
    case Some(es) => Harvest(ScanFeed(es, h.kept, cap, useFilter, cfg.keywords), h.queried + [term])
  }

  /** The outer loop: stop when the terms run out or `cap` entries are kept, otherwise run one round. */
  function Gather(terms: seq<string>, useFilter: bool, cfg: ScraperConfig, cap: int, fetch: Fetch, h: Harvest): Harvest
    decreases |terms|
  {
    if terms == [] || |h.kept| >= cap then h
    else Gather(terms[1..], useFilter, cfg, cap, fetch, NextHarvest(terms[0], useFilter, cfg, cap, fetch, h))
  }

  /** Python's `s[:n]`, where a negative n counts from the end. */
  function SliceTo<T>(s: seq<T>, n: int): (r: seq<T>)
    ensures n >= 0 ==> r == s[..if n <= |s| then n else |s|]
    ensures n < 0 ==> r == s[..if |s| + n >= 0 then |s| + n else 0]
  {
    if n >= 0 then s[..if n <= |s| then n else |s|]
    else s[..if |s| + n >= 0 then |s| + n else 0]
  }

  /** The list get_news and get_top_stories return. */
  function Collected(terms: seq<string>, useFilter: bool, cfg: ScraperConfig, cap: int, fetch: Fetch): seq<Story> {
    SliceTo(StoriesOf(Gather(terms, useFilter, cfg, cap, fetch, Harvest([], [])).kept), cap)
  }

  // ---- The collection loop, as the source runs it ----

  /**
   * The inner loop over one feed's entries: `continue` past a seen title or an
   * entry the filter rejects, otherwise keep the entry and `break` once `cap`
   * articles are kept.
   */
  method ScanEntries(es: seq<Entry>, articles0: seq<Story>, seenTitles0: set<string>, ghost kept0: seq<Entry>,
                     cap: int, useFilter: bool, keywords: seq<string>)
    returns (articles: seq<Story>, seenTitles: set<string>, ghost kept: seq<Entry>)
    requires articles0 == StoriesOf(kept0) && seenTitles0 == Titles(kept0)
    ensures kept == ScanFeed(es, kept0, cap, useFilter, keywords)
    ensures articles == StoriesOf(kept) && seenTitles == Titles(kept)
  {
    articles, seenTitles, kept := articles0, seenTitles0, kept0;
    var j := 0;
    while j < |es|
      invariant 0 <= j <= |es|
      invariant articles == StoriesOf(kept) && seenTitles == Titles(kept)
      invariant ScanFeed(es, kept0, cap, useFilter, keywords) == ScanFeed(es[j..], kept, cap, useFilter, keywords)
    {
      var entry := es[j];
      assert es[j..][0] == entry && es[j..][1..] == es[j + 1..];
      var title := entry.title;
      if title in seenTitles {
        j := j + 1;
        continue;
      }
      var desc := entry.summary;
      if useFilter && !(ContainsKeywords(title, keywords) || ContainsKeywords(desc, keywords)) {
        j := j + 1;
        continue;
      }
      seenTitles := seenTitles + {title};
      articles := articles + [ToStory(entry)];
      kept := kept + [entry];
      if |articles| >= cap {
        break;
      }
      j := j + 1;
    }
  }

  /**
   * The loop body of get_news and get_top_stories: `articles` and `seen_titles`
   * grow entry by entry, with a `continue` for a seen or rejected entry, a
   * `break` on the count in both loops, and a skipped term when its fetch raises.
   */
  method CollectArticles(terms: seq<string>, useFilter: bool, cfg: ScraperConfig, cap: int, fetch: Fetch)
    returns (articles: seq<Story>, queried: seq<string>)
    ensures var h := Gather(terms, useFilter, cfg, cap, fetch, Harvest([], []));
            articles == SliceTo(StoriesOf(h.kept), cap) && queried == h.queried
  {
    articles := [];
    queried := [];
    var seenTitles: set<string> := {};
    ghost var kept: seq<Entry> := [];
    var t := 0;
    while t < |terms|
      invariant 0 <= t <= |terms|
      invariant articles == StoriesOf(kept) && seenTitles == Titles(kept)
      invariant Gather(terms, useFilter, cfg, cap, fetch, Harvest([], []))
                == Gather(terms[t..], useFilter, cfg, cap, fetch, Harvest(kept, queried))
    {
      if |articles| >= cap {
        break;
      }
      var term := terms[t];
      queried := queried + [term];
      var feed := fetch(FeedUrl(cfg, term));
      assert terms[t..][1..] == terms[t + 1..];
      if feed.Some? {
        articles, seenTitles, kept := ScanEntries(feed.value, articles, seenTitles, kept, cap, useFilter, cfg.keywords);
      }
      t := t + 1;
    }
    articles := SliceTo(articles, cap);
  }

  /** get_news: the configured keywords as search terms and filter, or the fixed terms unfiltered. */
  method GetNews(cfg: ScraperConfig, useCustomKeywords: bool, fetch: Fetch) returns (articles: seq<Story>)
    ensures articles == Collected(if useCustomKeywords then cfg.keywords else DefaultSearchTerms,
                                  useCustomKeywords, cfg, cfg.numStories, fetch)
  {
    var searchTerms := if useCustomKeywords then cfg.keywords else DefaultSearchTerms;
    var queried;
    articles, queried := CollectArticles(searchTerms, useCustomKeywords, cfg, cfg.numStories, fetch);
  }

  /** get_top_stories: the fixed terms, always filtered by the keywords; the count defaults to the setting. */
  method GetTopStories(cfg: ScraperConfig, numStories: Option<int>, fetch: Fetch) returns (stories: seq<Story>)
    ensures stories == Collected(DefaultSearchTerms, true, cfg, numStories.GetOr(cfg.numStories), fetch)
  {
    var limit := if numStories.None? then cfg.numStories else numStories.value;
    var queried;
    stories, queried := CollectArticles(DefaultSearchTerms, true, cfg, limit, fetch);
  }

  // ---- What the loop guarantees ----

  predicate DistinctTitles(kept: seq<Entry>) {
    forall i, j :: 0 <= i < j < |kept| ==> kept[i].title != kept[j].title
  }

  predicate AllAdmitted(kept: seq<Entry>, useFilter: bool, keywords: seq<string>) {
    forall i :: 0 <= i < |kept| ==> Admits(kept[i], useFilter, keywords)
  }

  /** x is y with some elements left out, the rest in their order. */
  predicate IsSubsequence<T(==)>(x: seq<T>, y: seq<T>)
    decreases |y|
  {
    if x == [] then true
    else if y == [] then false
    else (x[0] == y[0] && IsSubsequence(x[1..], y[1..])) || IsSubsequence(x, y[1..])
  }

  lemma {:induction false} SubsequenceOfSelf<T>(y: seq<T>)
    ensures IsSubsequence(y, y)
  {
    if y != [] {
      SubsequenceOfSelf(y[1..]);
    }
  }

  lemma {:induction false} SubsequenceAppend<T>(x1: seq<T>, y1: seq<T>, x2: seq<T>, y2: seq<T>)
    requires IsSubsequence(x1, y1) && IsSubsequence(x2, y2)
    ensures IsSubsequence(x1 + x2, y1 + y2)
    decreases |y1|, |y2|
  {
    if y1 == [] {
      assert x1 == [];
      assert x1 + x2 == x2 && y1 + y2 == y2;
    } else if x1 != [] && x1[0] == y1[0] && IsSubsequence(x1[1..], y1[1..]) {
      SubsequenceAppend(x1[1..], y1[1..], x2, y2);
      assert (x1 + x2)[1..] == x1[1..] + x2 && (y1 + y2)[1..] == y1[1..] + y2;
    } else if x1 == [] {
      if x2 != [] {
        SubsequenceAppend(x1, y1[1..], x2, y2);
        assert x1 + x2 == x2;
        assert (y1 + y2)[1..] == y1[1..] + y2;
      }
    } else {
      SubsequenceAppend(x1, y1[1..], x2, y2);
      assert (y1 + y2)[1..] == y1[1..] + y2;
    }
  }

  lemma {:induction false} EmptySubsequence<T>(y: seq<T>)
    ensures IsSubsequence([], y)
  {
  }

  /** Keeping an entry with a fresh title that passes the filter keeps both properties. */
  lemma KeepPreserves(kept: seq<Entry>, e: Entry, useFilter: bool, keywords: seq<string>)
    requires DistinctTitles(kept) && AllAdmitted(kept, useFilter, keywords)
    requires e.title !in Titles(kept) && Admits(e, useFilter, keywords)
    ensures DistinctTitles(kept + [e]) && AllAdmitted(kept + [e], useFilter, keywords)
  {
    assert forall i :: 0 <= i < |kept| ==> kept[i] in kept;
  }

  /**
   * One feed scan only appends, at most up to `cap`, entries of the feed in
   * feed order, with fresh titles that pass the filter.
   */
  lemma {:induction false} ScanFeedAppends(es: seq<Entry>, kept: seq<Entry>, cap: int, useFilter: bool, keywords: seq<string>)
    requires |kept| < cap
    requires DistinctTitles(kept) && AllAdmitted(kept, useFilter, keywords)
    ensures var r := ScanFeed(es, kept, cap, useFilter, keywords);
            && |kept| <= |r| <= cap
            && r[..|kept|] == kept
            && IsSubsequence(r[|kept|..], es)
            && DistinctTitles(r)
            && AllAdmitted(r, useFilter, keywords)
    decreases |es|
  {
    var r := ScanFeed(es, kept, cap, useFilter, keywords);
    if es == [] {
      assert r[|kept|..] == [];
    } else {
      var e := es[0];
      if e.title in Titles(kept) || !Admits(e, useFilter, keywords) {
        ScanFeedAppends(es[1..], kept, cap, useFilter, keywords);
        assert r == ScanFeed(es[1..], kept, cap, useFilter, keywords);
      } else {
        var next := kept + [e];
        KeepPreserves(kept, e, useFilter, keywords);
        if |kept| + 1 >= cap {
          assert r == next;
          ScanFeedLast(es, kept, e);
        } else {
          assert r == ScanFeed(es[1..], next, cap, useFilter, keywords);
          ScanFeedAppends(es[1..], next, cap, useFilter, keywords);
          ScanFeedStep(es, kept, e, r);
        }
      }
    }
  }

  lemma TitlesAppend(kept: seq<Entry>, e: Entry)
    ensures Titles(kept + [e]) == Titles(kept) + {e.title}
  {
    assert e in kept + [e];
    assert forall x :: x in kept + [e] <==> x in kept || x == e;
  }

  /**
   * One feed scan loses no title already kept, and unless it stops at `cap`, it
   * keeps every entry of the feed that passes the filter, or one with its title.
   */
  lemma {:induction false} ScanFeedComplete(es: seq<Entry>, kept: seq<Entry>, cap: int, useFilter: bool, keywords: seq<string>)
    requires |kept| < cap
    ensures var r := ScanFeed(es, kept, cap, useFilter, keywords);
            && Titles(kept) <= Titles(r)
            && (|r| < cap ==> forall e :: e in es && Admits(e, useFilter, keywords) ==> e.title in Titles(r))
    decreases |es|
  {
    if es != [] {
      var e := es[0];
      var r := ScanFeed(es, kept, cap, useFilter, keywords);
      assert forall x :: x in es ==> x == e || x in es[1..];
      TitlesAppend(kept, e);
      if e.title in Titles(kept) || !Admits(e, useFilter, keywords) {
        ScanFeedComplete(es[1..], kept, cap, useFilter, keywords);
      } else if |kept| + 1 < cap {
        ScanFeedComplete(es[1..], kept + [e], cap, useFilter, keywords);
        assert r == ScanFeed(es[1..], kept + [e], cap, useFilter, keywords);
      }
    }
  }

  lemma ScanFeedLast(es: seq<Entry>, kept: seq<Entry>, e: Entry)
    requires es != [] && es[0] == e
    ensures (kept + [e])[..|kept|] == kept && IsSubsequence((kept + [e])[|kept|..], es)
  {
    assert (kept + [e])[|kept|..] == [e];
    EmptySubsequence(es[1..]);
    assert [e][1..] == [];
  }

  lemma ScanFeedStep(es: seq<Entry>, kept: seq<Entry>, e: Entry, r: seq<Entry>)
    requires es != [] && es[0] == e
    requires |kept + [e]| <= |r| && r[..|kept| + 1] == kept + [e]
    requires IsSubsequence(r[|kept| + 1..], es[1..])
    ensures r[..|kept|] == kept && IsSubsequence(r[|kept|..], es)
  {
    assert r[|kept|..] == [e] + r[|kept| + 1..];
    assert r[..|kept|] == (kept + [e])[..|kept|];
  }

  /** The entries of the feeds requested for these terms, in request order (a failed request adds none). */
  function FeedEntries(terms: seq<string>, cfg: ScraperConfig, fetch: Fetch): seq<Entry> {
    if terms == [] then []
    else fetch(FeedUrl(cfg, terms[0])).GetOr([]) + FeedEntries(terms[1..], cfg, fetch)
  }

  lemma {:induction false} FeedEntriesAppend(a: seq<string>, t: string, cfg: ScraperConfig, fetch: Fetch)
    ensures FeedEntries(a + [t], cfg, fetch) == FeedEntries(a, cfg, fetch) + fetch(FeedUrl(cfg, t)).GetOr([])
  {
    if a == [] {
      assert a + [t] == [t];
      assert [t][1..] == [];
    } else {
      assert (a + [t])[1..] == a[1..] + [t];
      FeedEntriesAppend(a[1..], t, cfg, fetch);
    }
  }

  /** Everything the outer loop keeps: bounded, distinct raw titles, filtered, in term then feed order. */
  predicate HarvestInvariant(h: Harvest, cap: int, useFilter: bool, cfg: ScraperConfig, fetch: Fetch) {
    && (cap <= 0 ==> h.kept == []) && (cap > 0 ==> |h.kept| <= cap)
    && DistinctTitles(h.kept)
    && AllAdmitted(h.kept, useFilter, cfg.keywords)
    && IsSubsequence(h.kept, FeedEntries(h.queried, cfg, fetch))
  }

  /** One round keeps the invariant. */
  lemma NextHarvestKeepsInvariant(term: string, useFilter: bool, cfg: ScraperConfig, cap: int, fetch: Fetch, h: Harvest)
    requires HarvestInvariant(h, cap, useFilter, cfg, fetch) && |h.kept| < cap
    ensures HarvestInvariant(NextHarvest(term, useFilter, cfg, cap, fetch, h), cap, useFilter, cfg, fetch)
  {
    var feed := fetch(FeedUrl(cfg, term)).GetOr([]);
    var kept := NextHarvest(term, useFilter, cfg, cap, fetch, h).kept;
    FeedEntriesAppend(h.queried, term, cfg, fetch);
    if fetch(FeedUrl(cfg, term)).Some? {
      ScanFeedAppends(feed, h.kept, cap, useFilter, cfg.keywords);
      assert kept == h.kept + kept[|h.kept|..];
      SubsequenceAppend(h.kept, FeedEntries(h.queried, cfg, fetch), kept[|h.kept|..], feed);
    } else {
      EmptySubsequence(feed);
      SubsequenceAppend(h.kept, FeedEntries(h.queried, cfg, fetch), [], feed);
      assert h.kept + [] == h.kept;
    }
  }

  lemma {:induction false} GatherKeepsInvariant(terms: seq<string>, useFilter: bool, cfg: ScraperConfig, cap: int, fetch: Fetch, h: Harvest)
    requires HarvestInvariant(h, cap, useFilter, cfg, fetch)
    ensures HarvestInvariant(Gather(terms, useFilter, cfg, cap, fetch, h), cap, useFilter, cfg, fetch)
    decreases |terms|
  {
    if terms != [] && |h.kept| < cap {
      NextHarvestKeepsInvariant(terms[0], useFilter, cfg, cap, fetch, h);
      GatherKeepsInvariant(terms[1..], useFilter, cfg, cap, fetch, NextHarvest(terms[0], useFilter, cfg, cap, fetch, h));
    }
  }

  /** Every entry of a requested feed that passes the filter was kept, or one with its title. */
  predicate KeptEveryAdmitted(h: Harvest, useFilter: bool, cfg: ScraperConfig, fetch: Fetch) {
    forall e :: e in FeedEntries(h.queried, cfg, fetch) && Admits(e, useFilter, cfg.keywords) ==> e.title in Titles(h.kept)
  }

  /** A round that ends below the cap keeps every admitted title of its feed, and loses none kept before. */
  lemma NextHarvestComplete(term: string, useFilter: bool, cfg: ScraperConfig, cap: int, fetch: Fetch, h: Harvest)
    requires |h.kept| < cap && KeptEveryAdmitted(h, useFilter, cfg, fetch)
    ensures var next := NextHarvest(term, useFilter, cfg, cap, fetch, h);
            |next.kept| < cap ==> KeptEveryAdmitted(next, useFilter, cfg, fetch)
  {
    var next := NextHarvest(term, useFilter, cfg, cap, fetch, h);
    var feed := fetch(FeedUrl(cfg, term)).GetOr([]);
    FeedEntriesAppend(h.queried, term, cfg, fetch);
    assert FeedEntries(next.queried, cfg, fetch) == FeedEntries(h.queried, cfg, fetch) + feed;
    if fetch(FeedUrl(cfg, term)).Some? {
      ScanFeedComplete(feed, h.kept, cap, useFilter, cfg.keywords);
    }
  }

  lemma {:induction false} GatherComplete(terms: seq<string>, useFilter: bool, cfg: ScraperConfig, cap: int, fetch: Fetch, h: Harvest)
    requires |h.kept| < cap ==> KeptEveryAdmitted(h, useFilter, cfg, fetch)
    ensures var g := Gather(terms, useFilter, cfg, cap, fetch, h);
            |g.kept| < cap ==> KeptEveryAdmitted(g, useFilter, cfg, fetch)
    decreases |terms|
  {
    if terms != [] && |h.kept| < cap {
      NextHarvestComplete(terms[0], useFilter, cfg, cap, fetch, h);
      GatherComplete(terms[1..], useFilter, cfg, cap, fetch, NextHarvest(terms[0], useFilter, cfg, cap, fetch, h));
    }
  }

  /** The terms are requested in order, and all of them unless the cap is reached. */
  lemma {:induction false} GatherQueried(terms: seq<string>, useFilter: bool, cfg: ScraperConfig, cap: int, fetch: Fetch, h: Harvest)
    ensures var g := Gather(terms, useFilter, cfg, cap, fetch, h);
            && |h.queried| <= |g.queried| && g.queried[..|h.queried|] == h.queried
            && (|g.kept| < cap ==> g.queried == h.queried + terms)
    decreases |terms|
  {
    if terms != [] && |h.kept| < cap {
      var next := NextHarvest(terms[0], useFilter, cfg, cap, fetch, h);
      GatherQueried(terms[1..], useFilter, cfg, cap, fetch, next);
      var g := Gather(terms[1..], useFilter, cfg, cap, fetch, next);
      assert g.queried[..|h.queried|] == next.queried[..|h.queried|] == h.queried;
      assert |g.kept| < cap ==> g.queried == next.queried + terms[1..] == h.queried + terms;
    }
  }

  /**
   * What get_news and get_top_stories promise: at most `cap` stories (none, and
   * no request at all, when cap <= 0); kept entries have distinct raw titles,
   * pass the filter, and come in term order, then feed order; and unless the
   * cap was reached, every term was requested and every entry of its feed that
   * passes the filter was kept, or one with the same title.
   */
  lemma CollectedProperties(terms: seq<string>, useFilter: bool, cfg: ScraperConfig, cap: int, fetch: Fetch)
    ensures var g := Gather(terms, useFilter, cfg, cap, fetch, Harvest([], []));
            && Collected(terms, useFilter, cfg, cap, fetch) == StoriesOf(g.kept)
            && (cap <= 0 ==> g.kept == [] && g.queried == [])
            && (cap > 0 ==> |g.kept| <= cap)
            && DistinctTitles(g.kept)
            && AllAdmitted(g.kept, useFilter, cfg.keywords)
            && IsSubsequence(g.kept, FeedEntries(g.queried, cfg, fetch))
            && (|g.kept| < cap ==> g.queried == terms)
            && (|g.kept| < cap ==>
                  forall e :: e in FeedEntries(g.queried, cfg, fetch) && Admits(e, useFilter, cfg.keywords) ==>
                    e.title in Titles(g.kept))
  {
    var h := Harvest([], []);
    GatherComplete(terms, useFilter, cfg, cap, fetch, h);
    EmptySubsequence(FeedEntries([], cfg, fetch));
    GatherKeepsInvariant(terms, useFilter, cfg, cap, fetch, h);
    GatherQueried(terms, useFilter, cfg, cap, fetch, h);
    var g := Gather(terms, useFilter, cfg, cap, fetch, h);
    assert [] + terms == terms;
    if cap > 0 {
      assert StoriesOf(g.kept)[..|g.kept|] == StoriesOf(g.kept);
    }
  }

  /**
   * An entry the filter rejects does not mark its title as seen: a later entry
   * with the same title that passes is still kept.
   */
  lemma RejectedTitleStaysOpen(rejected: Entry, later: Entry, kept: seq<Entry>, cap: int, keywords: seq<string>)
    requires rejected.title == later.title && later.title !in Titles(kept)
    requires !Relevant(rejected, keywords) && Relevant(later, keywords)
    requires |kept| + 1 < cap
    ensures ScanFeed([rejected, later], kept, cap, true, keywords) == kept + [later]
  {
    assert [rejected, later][1..] == [later];
    assert [later][1..] == [];
    assert ScanFeed([rejected, later], kept, cap, true, keywords) == ScanFeed([later], kept, cap, true, keywords);
    assert ScanFeed([later], kept, cap, true, keywords) == ScanFeed([], kept + [later], cap, true, keywords);
  }
}
