/**
 * BlogWriter: the blog prompt, the file name derived from the story title,
 * the post itself, and the small helpers (read time, next post id, category).
 */
module BlogWriter {
  import opened Wrappers
  import opened Text
  import opened Stories
  import opened BaseAgent

  const SystemPrompt: string :=
    "You are a professional blog writer who creates engaging, \ntechnical content from news articles while maintaining accuracy and readability."

  // ---- The file-name slug: re.sub(r'[^\w\s-]', ''), re.sub(r'[-\s]+', '-'), strip('-') ----

  /** `\w` on ASCII: letters, digits and the underscore. */
  predicate IsWordChar(c: char) {
    'a' <= c <= 'z' || 'A' <= c <= 'Z' || '0' <= c <= '9' || c == '_'
  }

  /** The class `[-\s]`. */
  predicate IsSeparator(c: char) {
    c == '-' || IsSpace(c)
  }

  /** The word characters of s, in order. */
  function WordCharsOf(s: string): string {
    if s == [] then []
    else (if IsWordChar(s[0]) then [s[0]] else []) + WordCharsOf(s[1..])
  }

  /** `re.sub(r'[^\w\s-]', '', s)`: keeps word characters, whitespace and hyphens. */
  function RemovePunctuation(s: string): (r: string)
    ensures forall i :: 0 <= i < |r| ==> IsWordChar(r[i]) || IsSeparator(r[i])
  {
    if s == [] then []
    else (if IsWordChar(s[0]) || IsSeparator(s[0]) then [s[0]] else []) + RemovePunctuation(s[1..])
  }

  /** Length of the leading run of separators. */
  function SeparatorRun(s: string): (n: nat)
    ensures n <= |s|
    ensures forall i :: 0 <= i < n ==> IsSeparator(s[i])
    ensures n < |s| ==> !IsSeparator(s[n])
  {
    if s == [] || !IsSeparator(s[0]) then 0 else 1 + SeparatorRun(s[1..])
  }

  /** A hyphen at i directly followed by another. */
  predicate DoubleHyphenAt(s: string, i: int) {
    0 <= i && i + 1 < |s| && s[i] == '-' && s[i + 1] == '-'
  }

  /** `re.sub(r'[-\s]+', '-', s)`: each maximal run of separators becomes one hyphen. */
  function CollapseSeparators(s: string): (r: string)
    ensures r == [] <==> s == []
    ensures r != [] ==> (r[0] == '-' <==> IsSeparator(s[0]))
    ensures forall i :: 0 <= i < |r| ==> !IsSpace(r[i])
    ensures forall i :: 0 <= i < |r| ==> !DoubleHyphenAt(r, i)
    ensures (forall i :: 0 <= i < |s| ==> IsWordChar(s[i]) || IsSeparator(s[i])) ==>
              forall i :: 0 <= i < |r| ==> IsWordChar(r[i]) || r[i] == '-'
    decreases |s|
  {
    if s == [] then []
    else if IsSeparator(s[0]) then
      var rest := s[SeparatorRun(s)..];
      assert forall i :: 0 <= i < |rest| ==> rest[i] == s[SeparatorRun(s) + i];
      ConsNoDoubleHyphen('-', CollapseSeparators(rest));
      "-" + CollapseSeparators(rest)
    else
      assert forall i :: 0 <= i < |s[1..]| ==> s[1..][i] == s[1 + i];
      ConsNoDoubleHyphen(s[0], CollapseSeparators(s[1..]));
      [s[0]] + CollapseSeparators(s[1..])
  }

  /** A character put in front of a string without double hyphens adds none unless both are hyphens. */
  lemma ConsNoDoubleHyphen(c: char, t: string)
    requires forall i :: 0 <= i < |t| ==> !DoubleHyphenAt(t, i)
    requires c == '-' && t != [] ==> t[0] != '-'
    ensures forall i :: 0 <= i < |[c] + t| ==> !DoubleHyphenAt([c] + t, i)
  {
    var r := [c] + t;
    forall i | 0 <= i < |r|
      ensures !DoubleHyphenAt(r, i)
    {
      if 1 <= i && i + 1 < |r| {
        assert !DoubleHyphenAt(t, i - 1);
        assert r[i] == t[i - 1] && r[i + 1] == t[i];
      }
    }
  }

  /** `lstrip('-')`. */
  function StripHyphensLeft(s: string): (r: string)
    ensures |r| <= |s| && r == s[|s| - |r|..]
    ensures forall i :: 0 <= i < |s| - |r| ==> s[i] == '-'
    ensures r != [] ==> r[0] != '-'
  {
    if s != [] && s[0] == '-' then StripHyphensLeft(s[1..]) else s
  }

  /** `rstrip('-')`. */
  function StripHyphensRight(s: string): (r: string)
    ensures |r| <= |s| && r == s[..|r|]
    ensures forall i :: |r| <= i < |s| ==> s[i] == '-'
    ensures r != [] ==> r[|r| - 1] != '-'
  {
    if s != [] && s[|s| - 1] == '-' then StripHyphensRight(s[..|s| - 1]) else s
  }

  /** `strip('-')`. */
  function StripHyphens(s: string): string {
    StripHyphensRight(StripHyphensLeft(s))
  }

  /** The sanitised title, before the 50-character cut. */
  function Slug(title: string): string {
    StripHyphens(CollapseSeparators(RemovePunctuation(title)))
  }

  /** Hyphen-separated words: word characters and single inner hyphens, nothing else. */
  predicate IsSlugShaped(s: string) {
    && (forall i :: 0 <= i < |s| ==> IsWordChar(s[i]) || s[i] == '-')
    && (s != [] ==> s[0] != '-' && s[|s| - 1] != '-')
    && (forall i :: 0 <= i < |s| ==> !DoubleHyphenAt(s, i))
  }

  lemma StripHyphensKeepsShape(s: string)
    requires forall i :: 0 <= i < |s| ==> IsWordChar(s[i]) || s[i] == '-'
    requires forall i :: 0 <= i < |s| ==> !DoubleHyphenAt(s, i)
    ensures IsSlugShaped(StripHyphens(s))
  {
    var l := StripHyphensLeft(s);
    var r := StripHyphensRight(l);
    forall i | 0 <= i < |r|
      ensures IsWordChar(r[i]) || r[i] == '-'
    {
      assert r[i] == l[i] == s[|s| - |l| + i];
    }
    forall i | 0 <= i < |r|
      ensures !DoubleHyphenAt(r, i)
    {
      if 0 <= i && i + 1 < |r| {
        assert r[i] == s[|s| - |l| + i] && r[i + 1] == s[|s| - |l| + i + 1];
        assert !DoubleHyphenAt(s, |s| - |l| + i);
      }
    }
  }

  /** The slug holds only word characters and hyphens, never two hyphens in a row, none at either end. */
  lemma SlugIsShaped(title: string)
    ensures IsSlugShaped(Slug(title))
  {
    StripHyphensKeepsShape(CollapseSeparators(RemovePunctuation(title)));
  }

  // Word characters survive every step, in order.

  lemma {:induction false} WordCharsAppend(a: string, b: string)
    ensures WordCharsOf(a + b) == WordCharsOf(a) + WordCharsOf(b)
  {
    if a != [] {
      assert (a + b)[1..] == a[1..] + b;
      WordCharsAppend(a[1..], b);
    } else {
      assert a + b == b;
    }
  }

  lemma {:induction false} WordCharsNone(s: string)
    ensures WordCharsOf(s) == [] <==> forall i :: 0 <= i < |s| ==> !IsWordChar(s[i])
  {
    if s != [] {
      WordCharsNone(s[1..]);
      assert forall i :: 1 <= i < |s| ==> s[i] == s[1..][i - 1];
    }
  }

  lemma {:induction false} RemovePunctuationKeepsWords(s: string)
    ensures WordCharsOf(RemovePunctuation(s)) == WordCharsOf(s)
  {
    if s != [] {
      var head: string := if IsWordChar(s[0]) || IsSeparator(s[0]) then [s[0]] else [];
      RemovePunctuationKeepsWords(s[1..]);
      WordCharsAppend(head, RemovePunctuation(s[1..]));
      if head != [] {
        assert head[1..] == [];
      }
    }
  }

  /** One hyphen in place of a run of separators keeps the word characters. */
  lemma HyphenForRunKeepsWords(run: string, rest: string, collapsed: string)
    requires forall i :: 0 <= i < |run| ==> IsSeparator(run[i])
    requires WordCharsOf(collapsed) == WordCharsOf(rest)
    ensures WordCharsOf("-" + collapsed) == WordCharsOf(run + rest)
  {
    WordCharsAppend("-", collapsed);
    WordCharsAppend(run, rest);
    WordCharsNone(run);
    assert "-"[1..] == [];
  }

  /** The same character in front of two strings with the same word characters. */
  lemma ConsKeepsWords(c: char, t: string, u: string)
    requires WordCharsOf(t) == WordCharsOf(u)
    ensures WordCharsOf([c] + t) == WordCharsOf([c] + u)
  {
    WordCharsAppend([c], t);
    WordCharsAppend([c], u);
  }

  lemma {:induction false} CollapseKeepsWords(s: string)
    ensures WordCharsOf(CollapseSeparators(s)) == WordCharsOf(s)
    decreases |s|
  {
    if s != [] {
      if IsSeparator(s[0]) {
        var n := SeparatorRun(s);
        var rest := s[n..];
        CollapseKeepsWords(rest);
        assert s == s[..n] + rest;
        HyphenForRunKeepsWords(s[..n], rest, CollapseSeparators(rest));
      } else {
        CollapseKeepsWords(s[1..]);
        assert s == [s[0]] + s[1..];
        ConsKeepsWords(s[0], CollapseSeparators(s[1..]), s[1..]);
      }
    }
  }

  lemma DropHyphensKeepsWords(s: string, k: nat)
    requires k <= |s|
    requires forall i :: 0 <= i < k ==> s[i] == '-'
    ensures WordCharsOf(s[k..]) == WordCharsOf(s)
  {
    assert s == s[..k] + s[k..];
    WordCharsAppend(s[..k], s[k..]);
    WordCharsNone(s[..k]);
  }

  lemma DropTrailingHyphensKeepsWords(s: string, k: nat)
    requires k <= |s|
    requires forall i :: k <= i < |s| ==> s[i] == '-'
    ensures WordCharsOf(s[..k]) == WordCharsOf(s)
  {
    assert s == s[..k] + s[k..];
    WordCharsAppend(s[..k], s[k..]);
    WordCharsNone(s[k..]);
  }

  lemma StripHyphensKeepsWords(s: string)
    ensures WordCharsOf(StripHyphens(s)) == WordCharsOf(s)
  {
    var l := StripHyphensLeft(s);
    DropHyphensKeepsWords(s, |s| - |l|);
    DropTrailingHyphensKeepsWords(l, |StripHyphensRight(l)|);
  }

  /** The slug keeps exactly the title's word characters, in order. */
  lemma SlugKeepsWords(title: string)
    ensures WordCharsOf(Slug(title)) == WordCharsOf(title)
  {
    RemovePunctuationKeepsWords(title);
    CollapseKeepsWords(RemovePunctuation(title));
    StripHyphensKeepsWords(CollapseSeparators(RemovePunctuation(title)));
  }

  /** The slug is empty exactly when the title has no word character at all. */
  lemma SlugEmptyIff(title: string)
    ensures Slug(title) == [] <==> forall i :: 0 <= i < |title| ==> !IsWordChar(title[i])
  {
    var slug := Slug(title);
    SlugKeepsWords(title);
    SlugIsShaped(title);
    WordCharsNone(title);
    WordCharsNone(slug);
    if slug != [] {
      assert IsWordChar(slug[0]);
    }
  }

  // Sanitising a slug again changes nothing.

  lemma {:induction false} RemovePunctuationKeepsSlug(s: string)
    requires forall i :: 0 <= i < |s| ==> IsWordChar(s[i]) || s[i] == '-'
    ensures RemovePunctuation(s) == s
  {
    if s != [] {
      assert forall i :: 0 <= i < |s[1..]| ==> s[1..][i] == s[i + 1];
      RemovePunctuationKeepsSlug(s[1..]);
    }
  }

  lemma {:induction false} CollapseKeepsSlug(s: string)
    requires forall i :: 0 <= i < |s| ==> IsWordChar(s[i]) || s[i] == '-'
    requires forall i :: 0 <= i < |s| ==> !DoubleHyphenAt(s, i)
    ensures CollapseSeparators(s) == s
    decreases |s|
  {
    if s != [] {
      var t := s[1..];
      assert forall i :: 0 <= i < |t| ==> t[i] == s[i + 1];
      forall i | 0 <= i < |t|
        ensures !DoubleHyphenAt(t, i)
      {
        assert !DoubleHyphenAt(s, i + 1);
      }
      CollapseKeepsSlug(t);
      if IsSeparator(s[0]) {
        assert s[0] == '-';
        assert SeparatorRun(s) == 1 by {
          if |s| > 1 {
            assert !DoubleHyphenAt(s, 0);
            assert !IsSeparator(s[1]);
          }
        }
      }
    }
  }

  lemma SlugIdempotent(title: string)
    ensures Slug(Slug(title)) == Slug(title)
  {
    var s := Slug(title);
    SlugIsShaped(title);
    RemovePunctuationKeepsSlug(s);
    CollapseKeepsSlug(s);
    assert StripHyphensLeft(s) == s;
    assert StripHyphensRight(s) == s;
  }

  /** `f"{date_str}-{safe_title[:50]}.md"`: the cut comes after the strip, so it may end in '-'. */
  function FileName(date: string, title: string): (r: string)
    ensures var slug := Slug(title);
            var kept := if |slug| <= 50 then slug else slug[..50];
            && |r| == |date| + 1 + |kept| + 3
            && r[..|date| + 1] == date + "-"
            && r[|r| - 3..] == ".md"
            && r[|date| + 1..|r| - 3] == kept
  {
    var slug := Slug(title);
    var kept := if |slug| <= 50 then slug else slug[..50];
    ConcatSlices(date + "-", kept, ".md");
    date + "-" + kept + ".md"
  }

  /** A title with no word character, such as "!!!", gives "<date>-.md". */
  lemma PunctuationTitleFileName(date: string, title: string)
    requires forall i :: 0 <= i < |title| ==> !IsWordChar(title[i])
    ensures FileName(date, title) == date + "-.md"
  {
    SlugEmptyIff(title);
  }

  // ---- The blog prompt ----

  const BlogIntro: string := "Create a technical blog post based on this news story:\n\nTitle: "

  const BlogRequirements: string :=
    "\n\nRequirements:\n1. Write in a professional, technical tone\n2. Include specific technical details and explanations\n3. Structure with clear headings and paragraphs\n4. Add technical insights and analysis\n5. Include relevant examples or use cases\n6. Maintain accuracy of information\n7. End with a References section that includes:\n   - The original source URL as: "

  const BlogClosing: string := "\n   - Any additional relevant technical sources\n\nGenerate the complete blog post content:"

  /** The reference the prompt asks for: the literal word Title, linked to the URL, in quotes. */
  function ReferenceLink(url: string): string {
    "\"[Title](" + url + ")\""
  }

  /** The prompt _create_blog_prompt builds for a story. */
  function BlogPrompt(story: Story): string {
    BlogIntro + story.title + "\nDescription: " + story.description + "\nURL: " + story.url
    + BlogRequirements + ReferenceLink(story.url) + BlogClosing
  }

  /** The prompt shows the story's title, description and URL, and the reference link. */
  lemma BlogPromptShowsStory(story: Story)
    ensures Contains(BlogPrompt(story), story.title)
    ensures Contains(BlogPrompt(story), story.description)
    ensures Contains(BlogPrompt(story), story.url)
    ensures Contains(BlogPrompt(story), ReferenceLink(story.url))
  {
    FilledTemplate(BlogIntro, story.title, "\nDescription: ", story.description, "\nURL: ", story.url,
                   BlogRequirements, ReferenceLink(story.url), BlogClosing);
  }

  /** Each value filled into a template of fixed pieces appears in the result. */
  lemma FilledTemplate(x0: string, t: string, x1: string, d: string, x2: string, u: string,
                       x3: string, l: string, x4: string)
    ensures var p := x0 + t + x1 + d + x2 + u + x3 + l + x4;
            Contains(p, t) && Contains(p, d) && Contains(p, u) && Contains(p, l)
  {
    var p := x0 + t + x1 + d + x2 + u + x3 + l + x4;
    assert OccursAt(p, t, |x0|);
    assert OccursAt(p, d, |x0 + t + x1|);
    assert OccursAt(p, u, |x0 + t + x1 + d + x2|);
    assert OccursAt(p, l, |x0 + t + x1 + d + x2 + u + x3|);
  }

  // ---- generate_blog_post ----

  /** The markdown file a post is saved to. */
  datatype PostFile = PostFile(path: string, content: string)

  /**
   * generate_blog_post, with the clock's date, the output directory and the
   * outcome of the file write as inputs. Every exception, including the one
   * _call_llm raises on a transport failure, is caught and gives None.
   */
  function GenerateBlogPost(story: Story, model: Model, date: string, outputDir: string, writeSucceeds: bool): (r: Option<PostFile>)
    ensures r.Some? <==>
              && model(BlogPrompt(story), SystemPrompt).Reply?
              && CleanResponse(model(BlogPrompt(story), SystemPrompt).text) != ""
              && writeSucceeds
    ensures r.Some? ==>
              && r.value.path == outputDir + "/" + FileName(date, story.title)
              && r.value.content == CleanResponse(model(BlogPrompt(story), SystemPrompt).text)
  {
    match CallLlm(model(BlogPrompt(story), SystemPrompt))
    case Raised => None
    case Done(response) =>
      if !HasText(response) then None
      else if !writeSucceeds then None
      else Some(PostFile(outputDir + "/" + FileName(date, story.title), response.value))
  }

  // ---- _estimate_read_time ----

  /**
   * Python's round(w / 200): the nearest whole number, a half going to the even
   * neighbour. Halves are exact in binary floating point, so the float division
   * decides exactly as this integer rule does.
   */
  function RoundPer200(w: nat): (q: nat)
    ensures 2 * w <= 200 * (2 * q + 1) && 200 * (2 * q - 1) <= 2 * w
    ensures 2 * w == 200 * (2 * q + 1) || 200 * (2 * q - 1) == 2 * w ==> q % 2 == 0
  {
    var q := w / 200;
    var rem := w % 200;
    if 2 * rem < 200 then q
    else if 2 * rem > 200 then q + 1
    else if q % 2 == 0 then q else q + 1
  }

  /** `max(1, round(len(content.split()) / 200))`. */
  function EstimateReadTime(content: string): (minutes: nat)
    ensures minutes >= 1
  {
    var wordCount := |Words(content)|;
    var rounded := RoundPer200(wordCount);
    if rounded < 1 then 1 else rounded
  }

  /**
   * The estimate is the nearest whole number of minutes at 200 words a minute,
   * at least one, with exact halves going to the even neighbour.
   */
  lemma ReadTimeNearest(content: string)
    ensures var w := |Words(content)|;
            var m := EstimateReadTime(content);
            && (w < 300 ==> m == 1)
            && (w >= 100 ==> -100 <= 200 * m - w <= 100)
            && (w >= 300 && w % 200 == 100 ==> m % 2 == 0)
  {
    var w := |Words(content)|;
    var q := RoundPer200(w);
  }

  // ---- _get_next_post_id ----

  function MaxOf(ids: seq<int>): (m: int)
    requires ids != []
    ensures m in ids
    ensures forall i :: 0 <= i < |ids| ==> ids[i] <= m
  {
    if |ids| == 1 then ids[0]
    else
      var rest := MaxOf(ids[1..]);
      if ids[0] >= rest then ids[0] else rest
  }

  /** One more than the largest existing post number; 1 when there is no post yet. */
  function NextPostId(ids: seq<int>): (r: int)
    ensures ids == [] ==> r == 1
    ensures ids != [] ==> r - 1 in ids
    ensures forall i :: 0 <= i < |ids| ==> ids[i] < r
  {
    if ids == [] then 1 else MaxOf(ids) + 1
  }

  // ---- _determine_category ----

  /** `os.getenv('BLOG_CATEGORIES', '').split(',')[0]`. */
  function DetermineCategory(setting: Option<string>): (r: string)
    ensures ',' !in r
    ensures setting.None? ==> r == ""
  {
    Split(setting.GetOr(""), ',')[0]
  }

  /** The category is the text before the first comma, or the whole setting when it has none. */
  lemma CategoryIsFirstItem(setting: string)
    ensures var r := DetermineCategory(Some(setting));
            && |r| <= |setting| && r == setting[..|r|]
            && (|r| < |setting| ==> setting[|r|] == ',')
  {
    SplitFirst(setting, ',');
  }
}
