/**
 * wrap_prompt: puts fixed answer-format instructions, the expected format
 * and an optional context line around a base prompt.
 */
module PromptWrapper {
  import opened Wrappers
  import opened Text

  const Instructions: seq<string> := [
    "IMPORTANT INSTRUCTIONS:",
    "1. Respond ONLY with the requested format below",
    "2. Do NOT include explanations or additional text",
    "3. Do NOT wait for confirmation or further input",
    "4. Ensure ALL required fields are present"
  ]

  /** One line of the format block: `f"{key}: <{value}>"`. */
  function FormatLine(entry: (string, string)): string {
    entry.0 + ": <" + entry.1 + ">"
  }

  /** The lines of the format block, one per entry of `expected_format`, in insertion order. */
  function FormatLines(expectedFormat: seq<(string, string)>): (r: seq<string>)
    ensures |r| == |expectedFormat|
    ensures forall k :: 0 <= k < |r| ==> r[k] == FormatLine(expectedFormat[k])
  {
    seq(|expectedFormat|, k requires 0 <= k < |expectedFormat| => FormatLine(expectedFormat[k]))
  }

  function FormatBlock(expectedFormat: seq<(string, string)>): string {
    Join(FormatLines(expectedFormat), "\n")
  }

  /** The lines that are joined: the context line when given, the instructions, the format, the base prompt. */
  function WrapperLines(basePrompt: string, expectedFormat: seq<(string, string)>, systemContext: Option<string>): seq<string> {
    var wrapper := Instructions + ["\nEXPECTED FORMAT:", FormatBlock(expectedFormat), "\nPROMPT:"];
    var withContext :=
      if systemContext.Some? && systemContext.value != "" then ["CONTEXT: " + systemContext.value + "\n"] + wrapper
      else wrapper;
    withContext + [basePrompt]
  }

  /** wrap_prompt. A context of None or "" is falsy and adds no line. */
  function WrapPrompt(basePrompt: string, expectedFormat: seq<(string, string)>, systemContext: Option<string>): string {
    Join(WrapperLines(basePrompt, expectedFormat, systemContext), "\n")
  }

  /**
   * The wrapped prompt starts with the context line when a non-empty context is
   * given, and with "IMPORTANT INSTRUCTIONS:" otherwise; it always ends with
   * "\nPROMPT:\n" followed by the base prompt.
   */
  lemma WrapPromptShape(basePrompt: string, expectedFormat: seq<(string, string)>, systemContext: Option<string>)
    ensures var r := WrapPrompt(basePrompt, expectedFormat, systemContext);
            var tail := "\nPROMPT:\n" + basePrompt;
            var head := if systemContext.Some? && systemContext.value != "" then "CONTEXT: " + systemContext.value + "\n\n"
                        else "IMPORTANT INSTRUCTIONS:\n";
            && |r| >= |head| + |tail|
            && r[..|head|] == head
            && r[|r| - |tail|..] == tail
  {
    var lines := WrapperLines(basePrompt, expectedFormat, systemContext);
    InstructionsInOrder(basePrompt, expectedFormat, systemContext);
    JoinEnds(lines, "\n");
  }

  lemma JoinFirstLength(parts: seq<string>, sep: string)
    requires parts != []
    ensures |Join(parts, sep)| >= |parts[0]|
  {
  }

  /** A join of three or more parts starts with the first part and a separator and ends with the last two. */
  lemma JoinEnds(lines: seq<string>, sep: string)
    requires |lines| >= 3
    ensures var j := Join(lines, sep);
            var n := |lines|;
            var head := lines[0] + sep;
            var tail := lines[n - 2] + sep + lines[n - 1];
            && |j| >= |head| + |tail|
            && j[..|head|] == head
            && j[|j| - |tail|..] == tail
  {
    var n := |lines|;
    var front := lines[..n - 2];
    var tail := lines[n - 2] + sep + lines[n - 1];
    JoinSplitLastTwo(lines, sep);
    JoinStartsWithFirst(lines, sep);
    JoinFirstLength(front, sep);
    assert front[0] == lines[0];
  }

  lemma JoinStartsWithFirst(lines: seq<string>, sep: string)
    requires |lines| >= 2
    ensures var j := Join(lines, sep);
            |j| >= |lines[0] + sep| && j[..|lines[0] + sep|] == lines[0] + sep
  {
    JoinCons(lines[0], lines[1..], sep);
    assert lines == [lines[0]] + lines[1..];
  }

  lemma JoinSplitLastTwo(lines: seq<string>, sep: string)
    requires |lines| >= 3
    ensures var n := |lines|;
            Join(lines, sep) == Join(lines[..n - 2], sep) + sep + (lines[n - 2] + sep + lines[n - 1])
  {
    var n := |lines|;
    var front := lines[..n - 2];
    var lastTwo := lines[n - 2..];
    assert lines == front + lastTwo;
    JoinAppend(front, lastTwo, sep);
    assert lastTwo[1..] == [lines[n - 1]];
    assert Join(lastTwo, sep) == lines[n - 2] + sep + lines[n - 1];
  }

  /** The four numbered instructions always appear, and in order. */
  lemma InstructionsInOrder(basePrompt: string, expectedFormat: seq<(string, string)>, systemContext: Option<string>)
    ensures var lines := WrapperLines(basePrompt, expectedFormat, systemContext);
            var o := if systemContext.Some? && systemContext.value != "" then 1 else 0;
            && |lines| == 9 + o
            && lines[o..o + 5] == Instructions
            && lines[|lines| - 1] == basePrompt
  {
  }

  /** Every instruction line occurs in the wrapped text. */
  lemma InstructionsPresent(basePrompt: string, expectedFormat: seq<(string, string)>, systemContext: Option<string>, k: nat)
    requires k < |Instructions|
    ensures Contains(WrapPrompt(basePrompt, expectedFormat, systemContext), Instructions[k])
  {
    var lines := WrapperLines(basePrompt, expectedFormat, systemContext);
    var o := if systemContext.Some? && systemContext.value != "" then 1 else 0;
    InstructionsInOrder(basePrompt, expectedFormat, systemContext);
    assert lines[o + k] == Instructions[k];
    JoinContains(lines, "\n", o + k);
  }

  /**
   * The format block has exactly one line per entry, in order: splitting it at
   * the line breaks gives the `key: <value>` lines back, when no key or value
   * holds a line break. An empty format gives an empty block.
   */
  lemma FormatBlockLines(expectedFormat: seq<(string, string)>)
    requires forall k :: 0 <= k < |expectedFormat| ==> '\n' !in expectedFormat[k].0 && '\n' !in expectedFormat[k].1
    ensures expectedFormat == [] ==> FormatBlock(expectedFormat) == ""
    ensures expectedFormat != [] ==> Split(FormatBlock(expectedFormat), '\n') == FormatLines(expectedFormat)
  {
    var lines := FormatLines(expectedFormat);
    if expectedFormat != [] {
      forall k | 0 <= k < |lines|
        ensures '\n' !in lines[k]
      {
        var e := expectedFormat[k];
        assert lines[k] == e.0 + ": <" + e.1 + ">";
      }
      SplitJoin(lines, '\n');
    }
  }

  /** The format block sits in the wrapped text even when it is empty. */
  lemma FormatBlockPresent(basePrompt: string, expectedFormat: seq<(string, string)>, systemContext: Option<string>)
    ensures Contains(WrapPrompt(basePrompt, expectedFormat, systemContext), "\nEXPECTED FORMAT:\n" + FormatBlock(expectedFormat) + "\n\nPROMPT:")
  {
    var lines := WrapperLines(basePrompt, expectedFormat, systemContext);
    var o := if systemContext.Some? && systemContext.value != "" then 1 else 0;
    InstructionsInOrder(basePrompt, expectedFormat, systemContext);
    var mid := ["\nEXPECTED FORMAT:", FormatBlock(expectedFormat), "\nPROMPT:"];
    var before := lines[..o + 5];
    var after := lines[o + 8..];
    assert lines[o + 5..o + 8] == mid;
    assert lines == before + mid + after;
    JoinThree(mid[0], mid[1], mid[2], "\n");
    assert "\nEXPECTED FORMAT:" + "\n" == "\nEXPECTED FORMAT:\n";
    assert "\n" + "\nPROMPT:" == "\n\nPROMPT:";
    JoinMiddle(before, mid, after, "\n");
  }

  lemma JoinThree(a: string, b: string, c: string, sep: string)
    ensures Join([a, b, c], sep) == a + sep + b + (sep + c)
  {
    assert [a, b, c][1..] == [b, c];
    assert [b, c][1..] == [c];
    assert Join([c], sep) == c;
    assert Join([b, c], sep) == b + sep + c;
    assert Join([a, b, c], sep) == a + sep + (b + sep + c);
  }

  lemma JoinMiddle(before: seq<string>, mid: seq<string>, after: seq<string>, sep: string)
    requires before != [] && after != [] && mid != []
    ensures Contains(Join(before + mid + after, sep), Join(mid, sep))
  {
    JoinAppend(before, mid + after, sep);
    JoinAppend(mid, after, sep);
    assert before + mid + after == before + (mid + after);
    var full := Join(before + mid + after, sep);
    assert full == Join(before, sep) + sep + Join(mid, sep) + (sep + Join(after, sep));
    ContainsMiddle(Join(before, sep) + sep, Join(mid, sep), sep + Join(after, sep));
  }

  lemma {:induction false} JoinAppend(a: seq<string>, b: seq<string>, sep: string)
    requires a != [] && b != []
    ensures Join(a + b, sep) == Join(a, sep) + sep + Join(b, sep)
  {
    if |a| == 1 {
      assert (a + b)[1..] == b;
    } else {
      assert (a + b)[1..] == a[1..] + b;
      JoinAppend(a[1..], b, sep);
    }
  }
}
