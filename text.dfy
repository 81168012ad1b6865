/**
 * The Python string operations the pipeline relies on, over ASCII text:
 * whitespace, strip, lower, substring search, str.replace, str.split and str.join.
 */
module Text {

  /** str.isspace() on ASCII: space, \t \n \v \f \r and the separators 0x1C-0x1F. */
  predicate IsSpace(c: char) {
    c == ' ' || '\t' <= c <= '\r' || '\U{1C}' <= c <= '\U{1F}'
  }

  /** str.lstrip(): drops the leading whitespace and nothing else. */
  function StripLeft(s: string): (r: string)
    ensures |r| <= |s| && r == s[|s| - |r|..]
    ensures forall i :: 0 <= i < |s| - |r| ==> IsSpace(s[i])
    ensures r != [] ==> !IsSpace(r[0])
  {
    if s != [] && IsSpace(s[0]) then StripLeft(s[1..]) else s
  }

  /** str.rstrip(): drops the trailing whitespace and nothing else. */
  function StripRight(s: string): (r: string)
    ensures |r| <= |s| && r == s[..|r|]
    ensures forall i :: |r| <= i < |s| ==> IsSpace(s[i])
    ensures r != [] ==> !IsSpace(r[|r| - 1])
  {
    if s != [] && IsSpace(s[|s| - 1]) then StripRight(s[..|s| - 1]) else s
  }

  /** str.strip(): the infix of s left after dropping whitespace at both ends. */
  function Strip(s: string): (r: string)
    ensures |r| <= |s|
    ensures r != [] ==> !IsSpace(r[0]) && !IsSpace(r[|r| - 1])
  {
    StripRight(StripLeft(s))
  }

  /** strip() removes whitespace only: every other character survives. */
  lemma StripKeeps(s: string, i: nat)
    requires i < |s| && !IsSpace(s[i])
    ensures s[i] in Strip(s)
  {
    var l := StripLeft(s);
    var k := i - (|s| - |l|);
    assert l[k] == s[i];
    assert StripRight(l)[k] == l[k];
  }

  lemma StripUnchanged(s: string)
    requires s != [] && !IsSpace(s[0]) && !IsSpace(s[|s| - 1])
    ensures Strip(s) == s
  {
  }

  function LowerChar(c: char): char {
    if 'A' <= c <= 'Z' then (c as int + 32) as char else c
  }

  /** str.lower() on ASCII letters. */
  function Lower(s: string): string {
    seq(|s|, i requires 0 <= i < |s| => LowerChar(s[i]))
  }

  /** t occurs in s starting at index i. */
  predicate OccursAt(s: string, t: string, i: nat) {
    i + |t| <= |s| && s[i..i + |t|] == t
  }

  /** Python's `t in s`. */
  predicate Contains(s: string, t: string) {
    exists i: nat | i <= |s| :: OccursAt(s, t, i)
  }

  /** The three pieces of a + b + c can be sliced back out. */
  lemma ConcatSlices(a: string, b: string, c: string)
    ensures var s := a + b + c;
            && |s| == |a| + |b| + |c|
            && s[..|a|] == a
            && s[|a|..|a| + |b|] == b
            && s[|a| + |b|..] == c
  {
  }

  lemma ContainsMiddle(a: string, t: string, b: string)
    ensures Contains(a + t + b, t)
  {
    assert OccursAt(a + t + b, t, |a|);
  }

  /** The first and the last of the parts a + t + b + c + d + u occur in the whole. */
  lemma ContainsSecondAndLast(a: string, t: string, b: string, c: string, d: string, u: string)
    ensures Contains(a + t + b + c + d + u, t)
    ensures Contains(a + t + b + c + d + u, u)
  {
    var s := a + t + b + c + d + u;
    assert OccursAt(s, t, |a|);
    assert OccursAt(s, u, |s| - |u|);
  }

  /** The three middle parts of a + b + c + d + e occur together in the whole. */
  lemma ContainsInner(a: string, b: string, c: string, d: string, e: string)
    ensures Contains(a + b + c + d + e, b + c + d)
  {
    assert a + b + c + d + e == a + (b + c + d) + e;
    ContainsMiddle(a, b + c + d, e);
  }

  lemma ContainsTransitive(s: string, t: string, u: string)
    requires Contains(s, t) && Contains(t, u)
    ensures Contains(s, u)
  {
    var i: nat :| i <= |s| && OccursAt(s, t, i);
    var j: nat :| j <= |t| && OccursAt(t, u, j);
    forall k | 0 <= k < |u|
      ensures s[i + j + k] == u[k]
    {
      assert t[j + k] == u[k];
      assert s[i + (j + k)] == t[j + k];
    }
    assert OccursAt(s, u, i + j);
  }

  /** str.find for one character: the first index of c, or -1. */
  function Find(s: string, c: char): (r: int)
    ensures -1 <= r < |s|
    ensures r == -1 <==> c !in s
    ensures r >= 0 ==> s[r] == c && c !in s[..r]
  {
    if s == [] then -1
    else if s[0] == c then 0
    else
      var k := Find(s[1..], c);
      assert k >= 0 ==> s[..k + 1] == [s[0]] + s[1..][..k];
      if k == -1 then -1 else k + 1
  }

  /** str.rfind for one character: the last index of c, or -1. */
  function RFind(s: string, c: char): (r: int)
    ensures -1 <= r < |s|
    ensures r == -1 <==> c !in s
    ensures r >= 0 ==> s[r] == c && forall k :: r < k < |s| ==> s[k] != c
  {
    if s == [] then -1
    else if s[|s| - 1] == c then |s| - 1
    else RFind(s[..|s| - 1], c)
  }

  /** Python's s[i:j] for bounds already inside s: empty when j <= i. */
  function Slice(s: string, i: nat, j: nat): (r: string)
    requires i <= |s| && j <= |s|
  {
    if i <= j then s[i..j] else []
  }

  /**
   * str.replace(pat, rep): one left-to-right scan; each occurrence found is
   * replaced and the scan resumes after it, so occurrences never overlap.
   */
  function ReplaceAll(s: string, pat: string, rep: string): (r: string)
    requires pat != []
    ensures |rep| <= |pat| ==> |r| <= |s|
    decreases |s|
  {
    if |s| < |pat| then s
    else if s[..|pat|] == pat then rep + ReplaceAll(s[|pat|..], pat, rep)
    else [s[0]] + ReplaceAll(s[1..], pat, rep)
  }

  /** sep.join(parts). */
  function Join(parts: seq<string>, sep: string): string {
    if |parts| == 0 then ""
    else if |parts| == 1 then parts[0]
    else parts[0] + sep + Join(parts[1..], sep)
  }

  lemma JoinCons(p: string, rest: seq<string>, sep: string)
    requires rest != []
    ensures Join([p] + rest, sep) == p + sep + Join(rest, sep)
  {
    assert ([p] + rest)[1..] == rest;
  }

  /** Every part appears in the joined text. */
  lemma {:induction false} JoinContains(parts: seq<string>, sep: string, k: nat)
    requires k < |parts|
    ensures Contains(Join(parts, sep), parts[k])
  {
    if |parts| == 1 {
      assert OccursAt(Join(parts, sep), parts[0], 0);
    } else {
      var head := parts[0] + sep;
      var tail := Join(parts[1..], sep);
      assert Join(parts, sep) == head + tail;
      if k == 0 {
        ContainsHead(head, tail);
        ContainsHead(parts[0], sep);
        ContainsTransitive(head + tail, head, parts[0]);
      } else {
        JoinContains(parts[1..], sep, k - 1);
        assert parts[1..][k - 1] == parts[k];
        ContainsTail(head, tail);
        ContainsTransitive(head + tail, tail, parts[k]);
      }
    }
  }

  lemma ContainsHead(a: string, b: string)
    ensures Contains(a + b, a)
  {
    assert OccursAt(a + b, a, 0);
  }

  lemma ContainsTail(a: string, b: string)
    ensures Contains(a + b, b)
  {
    assert OccursAt(a + b, b, |a|);
  }

  /** s.split(c) for a one-character separator: never empty, no part holds c. */
  function Split(s: string, c: char): (r: seq<string>)
    ensures |r| >= 1
    ensures forall k :: 0 <= k < |r| ==> c !in r[k]
  {
    if s == [] then [""]
    else
      var rest := Split(s[1..], c);
      if s[0] == c then [""] + rest else [[s[0]] + rest[0]] + rest[1..]
  }

  /** The first part is the text before the first separator, or all of it. */
  lemma {:induction false} SplitFirst(s: string, c: char)
    ensures var r := Split(s, c)[0];
            && |r| <= |s| && r == s[..|r|]
            && (|r| < |s| ==> s[|r|] == c)
  {
    if s != [] && s[0] != c {
      SplitFirst(s[1..], c);
      var rest := Split(s[1..], c)[0];
      assert Split(s, c)[0] == [s[0]] + rest;
      assert s[..|rest| + 1] == [s[0]] + s[1..][..|rest|];
    }
  }

  /** Joining the parts with the separator gives back the original text. */
  lemma {:induction false} JoinSplit(s: string, c: char)
    ensures Join(Split(s, c), [c]) == s
  {
    if s != [] {
      var rest := Split(s[1..], c);
      JoinSplit(s[1..], c);
      if s[0] == c {
        JoinCons("", rest, [c]);
      } else if |rest| == 1 {
        assert Split(s, c) == [[s[0]] + rest[0]];
      } else {
        JoinCons(rest[0], rest[1..], [c]);
        assert rest == [rest[0]] + rest[1..];
        JoinCons([s[0]] + rest[0], rest[1..], [c]);
      }
    }
  }

  /** Splitting text that starts with a part free of c extends the first part. */
  lemma {:induction false} SplitPrefix(a: string, t: string, c: char)
    requires c !in a
    ensures Split(a + t, c) == [a + Split(t, c)[0]] + Split(t, c)[1..]
  {
    if a != [] {
      var tail := Split(t, c);
      assert (a + t)[0] == a[0] && a[0] != c;
      assert (a + t)[1..] == a[1..] + t;
      SplitPrefix(a[1..], t, c);
      var rest := Split(a[1..] + t, c);
      assert rest[0] == a[1..] + tail[0] && rest[1..] == tail[1..];
      assert [a[0]] + (a[1..] + tail[0]) == a + tail[0];
    } else {
      assert a + t == t;
      assert Split(t, c) == [Split(t, c)[0]] + Split(t, c)[1..];
      assert a + Split(t, c)[0] == Split(t, c)[0];
    }
  }

  /** Splitting joined parts that do not contain the separator gives the parts back. */
  lemma {:induction false} SplitJoin(parts: seq<string>, c: char)
    requires |parts| >= 1
    requires forall k :: 0 <= k < |parts| ==> c !in parts[k]
    ensures Split(Join(parts, [c]), c) == parts
  {
    if |parts| == 1 {
      SplitPrefix(parts[0], "", c);
      assert parts[0] + "" == parts[0];
    } else {
      var tail := Join(parts[1..], [c]);
      SplitJoin(parts[1..], c);
      assert Join(parts, [c]) == parts[0] + ([c] + tail);
      SplitPrefix(parts[0], [c] + tail, c);
      assert ([c] + tail)[1..] == tail;
      assert Split([c] + tail, c) == [""] + parts[1..];
      assert parts[0] + "" == parts[0];
      assert parts == [parts[0]] + parts[1..];
    }
  }

  /** Length of the leading run of non-whitespace characters. */
  function WordLength(s: string): (n: nat)
    ensures n <= |s|
    ensures forall i :: 0 <= i < n ==> !IsSpace(s[i])
    ensures n < |s| ==> IsSpace(s[n])
  {
    if s == [] || IsSpace(s[0]) then 0 else 1 + WordLength(s[1..])
  }

  /** str.split() with no argument: the maximal runs of non-whitespace, in order. */
  function Words(s: string): (r: seq<string>)
    ensures forall k :: 0 <= k < |r| ==> r[k] != []
    ensures forall k, i :: 0 <= k < |r| && 0 <= i < |r[k]| ==> !IsSpace(r[k][i])
    decreases |s|
  {
    if s == [] then []
    else if IsSpace(s[0]) then Words(s[1..])
    else
      var n := WordLength(s);
      [s[..n]] + Words(s[n..])
  }

  /** The non-whitespace characters of s, in order. */
  function NonSpace(s: string): string {
    if s == [] then [] else (if IsSpace(s[0]) then [] else [s[0]]) + NonSpace(s[1..])
  }

  /** The parts written one after another. */
  function Concat(parts: seq<string>): string {
    if parts == [] then [] else parts[0] + Concat(parts[1..])
  }

  /** A word starts at i: a non-whitespace character at the start or after whitespace. */
  predicate StartsWord(s: string, i: int) {
    0 <= i < |s| && !IsSpace(s[i]) && (i == 0 || IsSpace(s[i - 1]))
  }

  /** How many words start at or after position `from`. */
  function WordStarts(s: string, from: nat): nat
    decreases |s| - from
  {
    if from >= |s| then 0 else (if StartsWord(s, from) then 1 else 0) + WordStarts(s, from + 1)
  }

  lemma {:induction false} NonSpaceAppend(a: string, b: string)
    ensures NonSpace(a + b) == NonSpace(a) + NonSpace(b)
  {
    if a != [] {
      assert (a + b)[1..] == a[1..] + b;
      NonSpaceAppend(a[1..], b);
    } else {
      assert a + b == b;
    }
  }

  lemma {:induction false} NonSpaceOfWord(w: string)
    requires forall i :: 0 <= i < |w| ==> !IsSpace(w[i])
    ensures NonSpace(w) == w
  {
    if w != [] {
      NonSpaceOfWord(w[1..]);
      assert w == [w[0]] + w[1..];
    }
  }

  /** The words hold exactly the text's non-whitespace characters, in order. */
  lemma {:induction false} WordsKeepText(s: string)
    ensures Concat(Words(s)) == NonSpace(s)
    decreases |s|
  {
    if s != [] {
      if IsSpace(s[0]) {
        WordsKeepText(s[1..]);
      } else {
        var n := WordLength(s);
        var w := s[..n];
        WordsKeepText(s[n..]);
        assert Words(s) == [w] + Words(s[n..]);
        assert ([w] + Words(s[n..]))[1..] == Words(s[n..]);
        assert s == w + s[n..];
        NonSpaceAppend(w, s[n..]);
        NonSpaceOfWord(w);
      }
    }
  }

  /**
   * How many words start in t, when the character before t is whitespace (or
   * t begins the text) exactly if `afterSpace`.
   */
  function WordStartsAfter(t: string, afterSpace: bool): nat {
    if t == [] then 0
    else (if afterSpace && !IsSpace(t[0]) then 1 else 0) + WordStartsAfter(t[1..], IsSpace(t[0]))
  }

  /** Counting word starts from position k of s is counting them in the suffix from k. */
  lemma {:induction false} WordStartsSuffix(s: string, k: nat)
    requires k <= |s|
    ensures WordStarts(s, k) == WordStartsAfter(s[k..], k == 0 || IsSpace(s[k - 1]))
    decreases |s| - k
  {
    if k < |s| {
      assert s[k..][0] == s[k] && s[k..][1..] == s[k + 1..];
      WordStartsSuffix(s, k + 1);
    } else {
      assert s[k..] == [];
    }
  }

  /** Inside a word no new word starts. */
  lemma {:induction false} NoStartInsideWord(t: string, j: nat, n: nat)
    requires 1 <= j <= n <= |t|
    requires forall i :: 0 <= i < n ==> !IsSpace(t[i])
    ensures WordStartsAfter(t[j..], false) == WordStartsAfter(t[n..], false)
    decreases n - j
  {
    if j < n {
      assert t[j..][0] == t[j] && t[j..][1..] == t[j + 1..];
      NoStartInsideWord(t, j + 1, n);
    }
  }

  /** split() gives one word per word start. */
  lemma {:induction false} WordsCountAfter(t: string)
    ensures |Words(t)| == WordStartsAfter(t, true)
    decreases |t|
  {
    if t != [] {
      if IsSpace(t[0]) {
        WordsCountAfter(t[1..]);
      } else {
        var n := WordLength(t);
        NoStartInsideWord(t, 1, n);
        if n < |t| {
          assert t[n..][0] == t[n] && t[n..][1..] == t[n + 1..];
          WordsCountAfter(t[n + 1..]);
        } else {
          assert t[n..] == [];
        }
      }
    }
  }

  /** `len(content.split())` is the number of positions where a word starts. */
  lemma WordsCount(s: string)
    ensures |Words(s)| == WordStarts(s, 0)
  {
    WordsCountAfter(s);
    WordStartsSuffix(s, 0);
    assert s[0..] == s;
  }
}
