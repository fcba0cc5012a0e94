/**
 * The transcript classifiers of response_safety.py: is a candidate's answer
 * empty, too short, or uncertain?  Each is a predicate over Python's
 * `str.strip()`, `str.split()`, `str.lower()` and substring search, which are
 * modelled here character by character.
 */
module ResponseSafety {

  // ---------------------------------------------------------------------------
  // Whitespace, strip and split
  // ---------------------------------------------------------------------------

  /** Python's `str.isspace`: the characters that `strip()` and `split()`
      without arguments treat as whitespace. */
  predicate IsSpace(c: char) {
    ('\t' <= c <= '\r') || ('\U{1C}' <= c <= ' ') || c == '\U{85}' || c == '\U{A0}'
    || c == '\U{1680}' || ('\U{2000}' <= c <= '\U{200A}') || c == '\U{2028}'
    || c == '\U{2029}' || c == '\U{202F}' || c == '\U{205F}' || c == '\U{3000}'
  }

  predicate AllSpace(s: string) {
    forall i :: 0 <= i < |s| ==> IsSpace(s[i])
  }

  predicate NoSpace(s: string) {
    forall i :: 0 <= i < |s| ==> !IsSpace(s[i])
  }

  /** The length of the whitespace run at the front of `s`. */
  function LeadingSpaces(s: string): (k: nat)
    ensures k <= |s|
    ensures forall i :: 0 <= i < k ==> IsSpace(s[i])
    ensures k < |s| ==> !IsSpace(s[k])
  {
    if |s| > 0 && IsSpace(s[0]) then 1 + LeadingSpaces(s[1..]) else 0
  }

  /** The length of the whitespace run at the back of `s`. */
  function TrailingSpaces(s: string): (k: nat)
    ensures k <= |s|
    ensures forall i :: |s| - k <= i < |s| ==> IsSpace(s[i])
    ensures k < |s| ==> !IsSpace(s[|s| - 1 - k])
  {
    if |s| > 0 && IsSpace(s[|s| - 1]) then 1 + TrailingSpaces(s[..|s| - 1]) else 0
  }

  /** The length of the non-whitespace run at the front of `s`. */
  function WordLength(s: string): (k: nat)
    ensures k <= |s|
    ensures forall i :: 0 <= i < k ==> !IsSpace(s[i])
    ensures k < |s| ==> IsSpace(s[k])
  {
    if |s| > 0 && !IsSpace(s[0]) then 1 + WordLength(s[1..]) else 0
  }

  /** `s.lstrip()` */
  function TrimLeft(s: string): string {
    s[LeadingSpaces(s)..]
  }

  /** `s.rstrip()` */
  function TrimRight(s: string): string {
    s[..|s| - TrailingSpaces(s)]
  }

  /** `s.strip()` */
  function Strip(s: string): string {
    TrimRight(TrimLeft(s))
  }

  /** `s.split()`: the maximal runs of non-whitespace characters, in order. */
  function Split(s: string): (words: seq<string>)
    ensures forall k :: 0 <= k < |words| ==> words[k] != [] && NoSpace(words[k])
    decreases |s|
  {
    var a := LeadingSpaces(s);
    if a == |s| then []
    else
      var t := s[a..];
      var n := WordLength(t);
      assert n > 0 by { assert t[0] == s[a]; }
      [t[..n]] + Split(t[n..])
  }

  /** Reference count of words, independent of Split: the number of positions
      of `s` where a non-whitespace character follows whitespace (or, when
      `afterSpace` holds, the start of `s`). */
  function RunStarts(s: string, afterSpace: bool): nat
    decreases |s|
  {
    if s == [] then 0
    else (if afterSpace && !IsSpace(s[0]) then 1 else 0) + RunStarts(s[1..], IsSpace(s[0]))
  }

  /** The number of maximal non-whitespace runs in `s`. */
  function WordRuns(s: string): nat {
    RunStarts(s, true)
  }

  /** The non-whitespace characters of `s`, in order. */
  function NonSpace(s: string): string
    decreases |s|
  {
    if s == [] then [] else (if IsSpace(s[0]) then [] else [s[0]]) + NonSpace(s[1..])
  }

  function Concat(words: seq<string>): string
    decreases |words|
  {
    if words == [] then [] else words[0] + Concat(words[1..])
  }

  // ---------------------------------------------------------------------------
  // Lower-casing and substring search
  // ---------------------------------------------------------------------------

  /** `c.lower()` for ASCII letters; every other character is left alone. */
  function LowerChar(c: char): char {
    if 'A' <= c <= 'Z' then (c as int + 32) as char else c
  }

  function UpperChar(c: char): char {
    if 'a' <= c <= 'z' then (c as int - 32) as char else c
  }

  /** `s.lower()`, restricted to ASCII letters. */
  function Lower(s: string): string {
    seq(|s|, i requires 0 <= i < |s| => LowerChar(s[i]))
  }

  function Upper(s: string): string {
    seq(|s|, i requires 0 <= i < |s| => UpperChar(s[i]))
  }

  /** `p` occurs in `s` starting at index `i`. */
  predicate OccursAt(s: string, p: string, i: nat) {
    i + |p| <= |s| && s[i..i + |p|] == p
  }

  /** Python's `p in s` for strings: `p` starts at some index of `s`. */
  predicate Contains(s: string, p: string) {
    exists i: nat | i <= |s| :: OccursAt(s, p, i)
  }

  // ---------------------------------------------------------------------------
  // The three classifiers
  // ---------------------------------------------------------------------------

  /** The phrases `is_uncertain_response` looks for, in the source's order. */
  const Markers: seq<string> := ["i don't know", "not sure", "no idea", "i have no idea", "i'm not sure"]

  /** The markers that are not substrings of other markers. */
  const CoreMarkers: seq<string> := ["i don't know", "not sure", "no idea"]

  /** The default `min_words` of `is_too_short`. */
  const DefaultMinWords: int := 5

  /** `is_uncertain_response(text)` */
  predicate IsUncertain(text: string) {
    var t := Strip(Lower(text));
    exists k :: 0 <= k < |Markers| && Contains(t, Markers[k])
  }

  /** `is_too_short(text, min_words)` */
  predicate IsTooShort(text: string, minWords: int) {
    |Split(Strip(text))| < minWords
  }

  /** `is_empty(text)`: the stripped text is the (falsy) empty string. */
  predicate IsEmpty(text: string) {
    Strip(text) == ""
  }

  // ---------------------------------------------------------------------------
  // Lemmas about strip and split
  // ---------------------------------------------------------------------------

  /** Strip(s) is the slice of `s` between its leading and trailing whitespace runs. */
  lemma StripSlice(s: string) returns (a: nat, b: nat)
    ensures a <= b <= |s|
    ensures Strip(s) == s[a..b]
    ensures forall i :: 0 <= i < a ==> IsSpace(s[i])
    ensures forall i :: b <= i < |s| ==> IsSpace(s[i])
    ensures a < b ==> !IsSpace(s[a]) && !IsSpace(s[b - 1])
  {
    a := LeadingSpaces(s);
    var t := s[a..];
    var k := TrailingSpaces(t);
    b := |s| - k;
    assert TrimLeft(s) == t;
    assert Strip(s) == t[..|t| - k];
    assert t[..|t| - k] == s[a..b];
    forall i | b <= i < |s| ensures IsSpace(s[i]) {
      assert s[i] == t[i - a];
    }
    if a < b {
      assert s[b - 1] == t[|t| - 1 - k];
    }
  }

  /** `is_empty(t)` holds exactly when every character of `t` is whitespace. */
  lemma EmptyIffAllSpace(t: string)
    ensures IsEmpty(t) <==> AllSpace(t)
  {
    var a, b := StripSlice(t);
    if AllSpace(t) {
      assert a == b;
    }
  }

  lemma {:induction false} RunStartsAppend(u: string, v: string, b: bool)
    ensures RunStarts(u + v, b) == RunStarts(u, b) + RunStarts(v, if u == [] then b else IsSpace(u[|u| - 1]))
    decreases |u|
  {
    if u != [] {
      assert (u + v)[0] == u[0];
      assert (u + v)[1..] == u[1..] + v;
      RunStartsAppend(u[1..], v, IsSpace(u[0]));
      if u[1..] != [] {
        assert u[1..][|u[1..]| - 1] == u[|u| - 1];
      }
    } else {
      assert u + v == v;
    }
  }

  lemma {:induction false} RunStartsSpaces(s: string, b: bool)
    requires AllSpace(s)
    ensures RunStarts(s, b) == 0
    decreases |s|
  {
    if s != [] {
      RunStartsSpaces(s[1..], true);
    }
  }

  lemma {:induction false} RunStartsWord(s: string, k: nat)
    requires k <= |s|
    requires forall i :: 0 <= i < k ==> !IsSpace(s[i])
    ensures RunStarts(s, false) == RunStarts(s[k..], false)
    decreases k
  {
    if k > 0 {
      RunStartsWord(s[1..], k - 1);
      assert s[1..][k - 1..] == s[k..];
    }
  }

  /** A text that opens with a word has one run more than what follows the word. */
  lemma WordThenRest(t: string)
    requires t != [] && !IsSpace(t[0])
    ensures RunStarts(t, true) == 1 + RunStarts(t[WordLength(t)..], true)
  {
    var n := WordLength(t);
    RunStartsWord(t[1..], n - 1);
    assert t[1..][n - 1..] == t[n..];
    if n < |t| {
      assert IsSpace(t[n..][0]);
    }
  }

  /** Python's split() yields one word per maximal non-whitespace run. */
  lemma {:induction false} SplitCountsRuns(s: string)
    ensures |Split(s)| == WordRuns(s)
    decreases |s|
  {
    var a := LeadingSpaces(s);
    DropSpacePrefix(s, a);
    if a < |s| {
      var t := s[a..];
      assert t[0] == s[a];
      WordThenRest(t);
      SplitCountsRuns(t[WordLength(t)..]);
    }
  }

  /** Whitespace before the text starts no run. */
  lemma DropSpacePrefix(s: string, a: nat)
    requires a <= |s|
    requires forall i :: 0 <= i < a ==> IsSpace(s[i])
    ensures RunStarts(s, true) == RunStarts(s[a..], true)
  {
    var head := s[..a];
    assert AllSpace(head) by {
      forall i | 0 <= i < |head| ensures IsSpace(head[i]) {
        assert head[i] == s[i];
      }
    }
    assert s == head + s[a..];
    RunStartsAppend(head, s[a..], true);
    RunStartsSpaces(head, true);
  }

  /** Whitespace after the text starts no run. */
  lemma DropSpaceSuffix(s: string, b: nat)
    requires b <= |s|
    requires forall i :: b <= i < |s| ==> IsSpace(s[i])
    ensures RunStarts(s[..b], true) == RunStarts(s, true)
  {
    var mid, tail := s[..b], s[b..];
    assert AllSpace(tail) by {
      forall i | 0 <= i < |tail| ensures IsSpace(tail[i]) {
        assert tail[i] == s[b + i];
      }
    }
    assert s == mid + tail;
    RunStartsAppend(mid, tail, true);
    RunStartsSpaces(tail, if mid == [] then true else IsSpace(mid[|mid| - 1]));
  }

  /** Whitespace around a slice starts no run. */
  lemma RunsIgnoreOuterSpaces(s: string, a: nat, b: nat)
    requires a <= b <= |s|
    requires forall i :: 0 <= i < a ==> IsSpace(s[i])
    requires forall i :: b <= i < |s| ==> IsSpace(s[i])
    ensures RunStarts(s[a..b], true) == RunStarts(s, true)
  {
    DropSpacePrefix(s, a);
    var t := s[a..];
    forall i | b - a <= i < |t| ensures IsSpace(t[i]) {
      assert t[i] == s[a + i];
    }
    DropSpaceSuffix(t, b - a);
    assert t[..b - a] == s[a..b];
  }

  /** Stripping never changes the number of words. */
  lemma StripKeepsRuns(s: string)
    ensures WordRuns(Strip(s)) == WordRuns(s)
  {
    var a, b := StripSlice(s);
    RunsIgnoreOuterSpaces(s, a, b);
  }

  /** `is_too_short(t, m)` holds exactly when `t` has fewer than `m` maximal
      non-whitespace runs. */
  lemma TooShortIffFewRuns(t: string, m: int)
    ensures IsTooShort(t, m) <==> WordRuns(t) < m
  {
    SplitCountsRuns(Strip(t));
    StripKeepsRuns(t);
  }

  /** A blank answer has zero words, so it is too short for every `m >= 1`;
      and the blank answers are exactly those with fewer than one word. */
  lemma EmptyIffTooShortForOne(t: string)
    ensures IsEmpty(t) <==> IsTooShort(t, 1)
    ensures forall m :: m >= 1 && IsEmpty(t) ==> IsTooShort(t, m)
  {
    var a, b := StripSlice(t);
    SplitCountsRuns(Strip(t));
    if a < b {
      assert Strip(t) != [];
      assert Strip(t)[0] == t[a];
      assert RunStarts(Strip(t), true) >= 1;
    }
  }

  lemma {:induction false} NonSpaceAppend(u: string, v: string)
    ensures NonSpace(u + v) == NonSpace(u) + NonSpace(v)
    decreases |u|
  {
    if u != [] {
      assert (u + v)[0] == u[0];
      assert (u + v)[1..] == u[1..] + v;
      NonSpaceAppend(u[1..], v);
      calc {
        NonSpace(u + v);
        (if IsSpace(u[0]) then [] else [u[0]]) + NonSpace(u[1..] + v);
        (if IsSpace(u[0]) then [] else [u[0]]) + (NonSpace(u[1..]) + NonSpace(v));
        ((if IsSpace(u[0]) then [] else [u[0]]) + NonSpace(u[1..])) + NonSpace(v);
      }
    } else {
      assert u + v == v;
    }
  }

  lemma {:induction false} NonSpaceOfSpaces(s: string)
    requires AllSpace(s)
    ensures NonSpace(s) == []
    decreases |s|
  {
    if s != [] {
      NonSpaceOfSpaces(s[1..]);
    }
  }

  lemma {:induction false} NonSpaceOfWord(s: string)
    requires NoSpace(s)
    ensures NonSpace(s) == s
    decreases |s|
  {
    if s != [] {
      NonSpaceOfWord(s[1..]);
    }
  }

  /** The words of `split()` are, joined together, exactly the non-whitespace
      characters of the text: split drops whitespace and nothing else. */
  lemma {:induction false} SplitKeepsText(s: string)
    ensures Concat(Split(s)) == NonSpace(s)
    decreases |s|
  {
    var a := LeadingSpaces(s);
    SkipLeadingText(s);
    if a < |s| {
      var t := s[a..];
      var n := WordLength(t);
      assert t[0] == s[a];
      WordThenRestText(t);
      SplitKeepsText(t[n..]);
      var words := [t[..n]] + Split(t[n..]);
      assert words[0] == t[..n] && words[1..] == Split(t[n..]);
    }
  }

  /** Leading whitespace contributes no text. */
  lemma SkipLeadingText(s: string)
    ensures NonSpace(s) == NonSpace(s[LeadingSpaces(s)..])
  {
    var a := LeadingSpaces(s);
    assert s == s[..a] + s[a..];
    NonSpaceAppend(s[..a], s[a..]);
    NonSpaceOfSpaces(s[..a]);
  }

  /** A text that opens with a word keeps that word whole. */
  lemma WordThenRestText(t: string)
    requires t != [] && !IsSpace(t[0])
    ensures NonSpace(t) == t[..WordLength(t)] + NonSpace(t[WordLength(t)..])
  {
    var n := WordLength(t);
    assert t == t[..n] + t[n..];
    NonSpaceAppend(t[..n], t[n..]);
    NonSpaceOfWord(t[..n]);
  }

  // ---------------------------------------------------------------------------
  // Lemmas about substring search and uncertainty
  // ---------------------------------------------------------------------------

  /** Substring search survives text on either side. */
  lemma ContainsInContext(pre: string, s: string, post: string, p: string)
    requires Contains(s, p)
    ensures Contains(pre + s + post, p)
  {
    var i: nat :| i <= |s| && OccursAt(s, p, i);
    assert (pre + s + post)[|pre| + i..|pre| + i + |p|] == s[i..i + |p|];
    assert OccursAt(pre + s + post, p, |pre| + i);
  }

  /** A substring of a substring is a substring. */
  lemma ContainsTransitive(s: string, m: string, p: string)
    requires Contains(s, m) && Contains(m, p)
    ensures Contains(s, p)
  {
    var i: nat :| i <= |s| && OccursAt(s, m, i);
    var j: nat :| j <= |m| && OccursAt(m, p, j);
    assert m == s[i..i + |m|];
    forall k | 0 <= k < |p| ensures s[i + j + k] == p[k] {
      assert p[k] == m[j + k];
    }
    assert s[i + j..i + j + |p|] == p;
    assert OccursAt(s, p, i + j);
  }

  /** A phrase with a character the text lacks does not occur in it. */
  lemma AbsentChar(s: string, p: string, k: nat)
    requires k < |p| && p[k] !in s
    ensures !Contains(s, p)
  {
  }

  /** Text before the first place the phrase's first character appears can be skipped. */
  lemma SkipToFirstChar(u: string, v: string, p: string)
    requires p != [] && p[0] !in u
    ensures Contains(u + v, p) ==> Contains(v, p)
  {
    if i: nat :| i <= |u + v| && OccursAt(u + v, p, i) {
      assert (u + v)[i] == p[0];
      assert i >= |u|;
      assert v[i - |u|..i - |u| + |p|] == (u + v)[i..i + |p|];
      assert OccursAt(v, p, i - |u|);
    }
  }

  /** A phrase that does not start at the first character occurs, if at all, in the rest. */
  lemma SkipMismatch(c: char, v: string, p: string)
    requires |p| >= 2 && |v| >= 1 && v[0] != p[1]
    ensures Contains([c] + v, p) ==> Contains(v, p)
  {
    if i: nat :| i <= |[c] + v| && OccursAt([c] + v, p, i) {
      assert v[i - 1..i - 1 + |p|] == ([c] + v)[i..i + |p|];
      assert OccursAt(v, p, i - 1);
    }
  }

  /** An occurrence in the stripped text is an occurrence in the text. */
  lemma StripOccurrenceLifts(s: string, p: string, a: nat, b: nat, i: nat)
    requires a <= b <= |s| && OccursAt(s[a..b], p, i)
    ensures OccursAt(s, p, a + i)
  {
    forall k | 0 <= k < |p| ensures s[a + i + k] == p[k] {
      assert p[k] == s[a..b][i + k];
    }
    assert s[a + i..a + i + |p|] == p;
  }

  /** An occurrence of a phrase with non-whitespace ends lies inside the stripped text. */
  lemma OccurrenceInsideStrip(s: string, p: string, i: nat) returns (j: nat)
    requires p != [] && !IsSpace(p[0]) && !IsSpace(p[|p| - 1]) && OccursAt(s, p, i)
    ensures OccursAt(Strip(s), p, j)
  {
    var a, b := StripSlice(s);
    assert s[i] == p[0];
    assert s[i + |p| - 1] == p[|p| - 1];
    assert a <= i;
    assert i + |p| <= b;
    j := i - a;
    assert s[a..b][j..j + |p|] == s[i..i + |p|];
  }

  /** For a phrase that begins and ends with a non-whitespace character,
      stripping the text first does not change whether the phrase occurs. */
  lemma StripKeepsPhrases(s: string, p: string)
    requires p != [] && !IsSpace(p[0]) && !IsSpace(p[|p| - 1])
    ensures Contains(Strip(s), p) <==> Contains(s, p)
  {
    var a, b := StripSlice(s);
    if i: nat :| i <= |Strip(s)| && OccursAt(Strip(s), p, i) {
      StripOccurrenceLifts(s, p, a, b, i);
    }
    if i: nat :| i <= |s| && OccursAt(s, p, i) {
      var j := OccurrenceInsideStrip(s, p, i);
    }
  }

  /** `is_uncertain_response(t)` holds exactly when one of the five markers
      occurs in the lower-cased `t`; the strip is immaterial. */
  lemma UncertainIffMarker(t: string)
    ensures IsUncertain(t) <==> exists k :: 0 <= k < |Markers| && Contains(Lower(t), Markers[k])
  {
    forall k | 0 <= k < |Markers|
      ensures Contains(Strip(Lower(t)), Markers[k]) <==> Contains(Lower(t), Markers[k])
    {
      StripKeepsPhrases(Lower(t), Markers[k]);
    }
  }

  lemma MarkerInclusions()
    ensures Contains(Markers[3], Markers[2]) && Contains(Markers[4], Markers[1])
  {
    assert OccursAt("i have no idea", "no idea", 7);
    assert OccursAt("i'm not sure", "not sure", 4);
  }

  /** Two of the five markers are redundant: "i have no idea" contains
      "no idea" and "i'm not sure" contains "not sure". */
  lemma ThreeMarkersSuffice(t: string)
    ensures IsUncertain(t) <==> exists k :: 0 <= k < |CoreMarkers| && Contains(Strip(Lower(t)), CoreMarkers[k])
  {
    var s := Strip(Lower(t));
    MarkerInclusions();
    if Contains(s, Markers[3]) {
      ContainsTransitive(s, Markers[3], Markers[2]);
    }
    if Contains(s, Markers[4]) {
      ContainsTransitive(s, Markers[4], Markers[1]);
    }
    assert Markers[..3] == CoreMarkers;
  }

  lemma LowerAppend(u: string, v: string, w: string)
    ensures Lower(u + v + w) == Lower(u) + Lower(v) + Lower(w)
  {
  }

  /** An uncertain answer stays uncertain whatever is said before or after it. */
  lemma UncertainInContext(pre: string, t: string, post: string)
    requires IsUncertain(t)
    ensures IsUncertain(pre + t + post)
  {
    UncertainIffMarker(t);
    var k :| 0 <= k < |Markers| && Contains(Lower(t), Markers[k]);
    LowerAppend(pre, t, post);
    ContainsInContext(Lower(pre), Lower(t), Lower(post), Markers[k]);
    UncertainIffMarker(pre + t + post);
  }

  /** The check is case-insensitive: texts that agree up to ASCII letter case
      are classified alike. */
  lemma UncertainIgnoresCase(t: string, u: string)
    requires |t| == |u|
    requires forall i :: 0 <= i < |t| ==> LowerChar(t[i]) == LowerChar(u[i])
    ensures IsUncertain(t) == IsUncertain(u)
  {
    assert Lower(t) == Lower(u);
  }

  /** Shouting an answer does not change whether it is uncertain. */
  lemma UncertainIgnoresUpper(t: string)
    ensures IsUncertain(Upper(t)) == IsUncertain(t)
  {
    UncertainIgnoresCase(Upper(t), t);
  }

  lemma LowerConfidentParts()
    ensures Lower("I am con") == "i am con"
    ensures Lower("fident th") == "fident th"
    ensures Lower("is works") == "is works"
  {
  }

  lemma LowerConfidentSample()
    ensures Lower("I am confident this works") == "i am confident this works"
  {
    assert "I am confident this works" == "I am con" + "fident th" + "is works";
    LowerAppend("I am con", "fident th", "is works");
    LowerConfidentParts();
    assert "i am con" + "fident th" + "is works" == "i am confident this works";
  }

  /** The sample uncertain answer. */
  lemma UncertainExample(t: string)
    requires t == "I'm not sure about that"
    ensures IsUncertain(t)
  {
    var pre, m, post := "I'm ", "not sure", " about that";
    assert t == pre + m + post;
    LowerAppend(pre, m, post);
    assert Lower(m) == Markers[1];
    assert OccursAt(Lower(m), Markers[1], 0);
    ContainsInContext(Lower(pre), Lower(m), Lower(post), Markers[1]);
    UncertainIffMarker(t);
  }

  /** None of the three core markers occurs in the lower-cased confident answer. */
  lemma NoMarkerInConfident()
    ensures forall k :: 0 <= k < |CoreMarkers| ==> !Contains("i am confident this works", CoreMarkers[k])
  {
    assert '\'' !in "i am confident this works";
    assert "i don't know"[5] == '\'';
    AbsentChar("i am confident this works", "i don't know", 5);
    assert 'u' !in "i am confident this works";
    assert "not sure"[5] == 'u';
    AbsentChar("i am confident this works", "not sure", 5);
    NoIdeaNotInConfident();
  }

  lemma NoIdeaNotInConfidentTail()
    ensures !Contains("fident this works", "no idea")
  {
    var p := "no idea";
    assert "fident this works" == "fide" + "nt this works";
    SkipToFirstChar("fide", "nt this works", p);
    assert "nt this works" == "n" + "t this works";
    SkipMismatch('n', "t this works", p);
    AbsentChar("t this works", p, 0);
  }

  lemma NoIdeaNotInConfident()
    ensures !Contains("i am confident this works", "no idea")
  {
    var p := "no idea";
    assert "i am confident this works" == "i am co" + "nfident this works";
    SkipToFirstChar("i am co", "nfident this works", p);
    assert "nfident this works" == "n" + "fident this works";
    SkipMismatch('n', "fident this works", p);
    NoIdeaNotInConfidentTail();
  }

  /** An answer whose lower-cased text holds none of the core markers is not uncertain. */
  lemma NoCoreMarkerNotUncertain(t: string)
    requires forall k :: 0 <= k < |CoreMarkers| ==> !Contains(Lower(t), CoreMarkers[k])
    ensures !IsUncertain(t)
  {
    ThreeMarkersSuffice(t);
    forall k | 0 <= k < |CoreMarkers|
      ensures !Contains(Strip(Lower(t)), CoreMarkers[k])
    {
      StripKeepsPhrases(Lower(t), CoreMarkers[k]);
    }
  }

  /** The sample confident answer. */
  lemma ConfidentExample()
    ensures !IsUncertain("I am confident this works")
  {
    LowerConfidentSample();
    NoMarkerInConfident();
    NoCoreMarkerNotUncertain("I am confident this works");
  }
}
