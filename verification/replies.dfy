/** How the program reads a y/n answer at the terminal: `input().strip().lower()`
    compared against fixed spellings (main.py lines 144-145 and 166-212). */
module Replies {

  /** Python's `str.isspace` for a single character. */
  predicate IsSpace(c: char) {
    var n := c as int;
    || 9 <= n <= 13
    || 28 <= n <= 32
    || n == 0x85 || n == 0xA0 || n == 0x1680
    || 0x2000 <= n <= 0x200A
    || n == 0x2028 || n == 0x2029 || n == 0x202F || n == 0x205F || n == 0x3000
  }

  predicate AllSpace(s: string) {
    forall k | 0 <= k < |s| :: IsSpace(s[k])
  }

  /** How many whitespace characters `s` starts with. */
  function LeadingSpace(s: string): (n: nat)
    ensures n <= |s|
  {
    if s != [] && IsSpace(s[0]) then 1 + LeadingSpace(s[1..]) else 0
  }

  /** How many characters of `s` are left once trailing whitespace is dropped. */
  function BeforeTrailingSpace(s: string): (n: nat)
    ensures n <= |s|
  {
    if s != [] && IsSpace(s[|s| - 1]) then BeforeTrailingSpace(s[..|s| - 1]) else |s|
  }

  /** The leading run is all whitespace and stops at the first other character. */
  lemma {:induction false} LeadingSpaceRun(s: string)
    ensures AllSpace(s[..LeadingSpace(s)])
    ensures LeadingSpace(s) < |s| ==> !IsSpace(s[LeadingSpace(s)])
  {
    if s != [] && IsSpace(s[0]) {
      LeadingSpaceRun(s[1..]);
      assert s[..LeadingSpace(s)] == [s[0]] + s[1..][..LeadingSpace(s[1..])];
    }
  }

  /** The trailing run is all whitespace and stops at the last other character. */
  lemma {:induction false} TrailingSpaceRun(s: string)
    ensures AllSpace(s[BeforeTrailingSpace(s)..])
    ensures BeforeTrailingSpace(s) > 0 ==> !IsSpace(s[BeforeTrailingSpace(s) - 1])
  {
    if s != [] && IsSpace(s[|s| - 1]) {
      var init := s[..|s| - 1];
      TrailingSpaceRun(init);
      assert s[BeforeTrailingSpace(s)..] == init[BeforeTrailingSpace(init)..] + [s[|s| - 1]];
    }
  }

  /** `s.lstrip()`: the suffix left after dropping leading whitespace. */
  function StripLeft(s: string): string {
    s[LeadingSpace(s)..]
  }

  /** `s.rstrip()`: the prefix left after dropping trailing whitespace. */
  function StripRight(s: string): string {
    s[..BeforeTrailingSpace(s)]
  }

  /** `s.strip()`. */
  function Strip(s: string): string {
    StripRight(StripLeft(s))
  }

  /** What `strip` promises at a glance: nothing but whitespace is dropped, and only
      from the ends. A line of whitespace strips to the empty string; a line already
      without whitespace at either end is kept whole. */
  lemma StripEnds(s: string)
    ensures |Strip(s)| <= |s|
    ensures Strip(s) == [] || (!IsSpace(Strip(s)[0]) && !IsSpace(Strip(s)[|Strip(s)| - 1]))
    ensures Strip(s) == [] <==> AllSpace(s)
    ensures s != [] && !IsSpace(s[0]) && !IsSpace(s[|s| - 1]) ==> Strip(s) == s
  {
    var left := StripLeft(s);
    LeadingSpaceRun(s);
    TrailingSpaceRun(left);
    if s != [] && !IsSpace(s[0]) && !IsSpace(s[|s| - 1]) {
      StripLeftUnique(s, 0);
      StripRightUnique(s, |s|);
    }
    if StripRight(left) == [] {
      assert s == s[..|s| - |left|] + left;
    }
  }

  /** What `strip` keeps: a contiguous slice with only whitespace around it and no
      whitespace at either end. */
  lemma StripShape(s: string) returns (i: nat, j: nat)
    ensures i <= j <= |s| && Strip(s) == s[i..j]
    ensures AllSpace(s[..i]) && AllSpace(s[j..])
    ensures Strip(s) == [] || (!IsSpace(Strip(s)[0]) && !IsSpace(Strip(s)[|Strip(s)| - 1]))
  {
    var left := StripLeft(s);
    var kept := StripRight(left);
    LeadingSpaceRun(s);
    TrailingSpaceRun(left);
    i := LeadingSpace(s);
    j := i + BeforeTrailingSpace(left);
    assert left == s[i..];
    assert kept == s[i..j];
    assert s[j..] == left[|kept|..];
    if kept != [] {
      assert kept[0] == left[0];
    }
  }

  /** Only one cut leaves whitespace before it and none right after it. */
  lemma {:induction false} StripLeftUnique(s: string, i: nat)
    requires i < |s| && AllSpace(s[..i]) && !IsSpace(s[i])
    ensures StripLeft(s) == s[i..]
  {
    LeadingSpaceIs(s, i);
  }

  lemma {:induction false} LeadingSpaceIs(s: string, i: nat)
    requires i < |s| && AllSpace(s[..i]) && !IsSpace(s[i])
    ensures LeadingSpace(s) == i
  {
    if i > 0 {
      assert s[..i][0] == s[0];
      assert s[1..][..i - 1] == s[..i][1..];
      LeadingSpaceIs(s[1..], i - 1);
    }
  }

  /** Only one cut leaves whitespace after it and none right before it. */
  lemma {:induction false} StripRightUnique(s: string, n: nat)
    requires 0 < n <= |s| && AllSpace(s[n..]) && !IsSpace(s[n - 1])
    ensures StripRight(s) == s[..n]
  {
    BeforeTrailingSpaceIs(s, n);
  }

  lemma {:induction false} BeforeTrailingSpaceIs(s: string, n: nat)
    requires 0 < n <= |s| && AllSpace(s[n..]) && !IsSpace(s[n - 1])
    ensures BeforeTrailingSpace(s) == n
  {
    if n < |s| {
      var init := s[..|s| - 1];
      assert s[n..][|s| - 1 - n] == s[|s| - 1];
      assert init[n..] == s[n..][..|s| - 1 - n];
      BeforeTrailingSpaceIs(init, n);
    }
  }

  /** A slice with only whitespace around it and none at its ends is what `strip` keeps. */
  lemma StripUnique(s: string, i: nat, j: nat)
    requires i < j <= |s|
    requires AllSpace(s[..i]) && AllSpace(s[j..])
    requires !IsSpace(s[i]) && !IsSpace(s[j - 1])
    ensures Strip(s) == s[i..j]
  {
    StripLeftUnique(s, i);
    var left := s[i..];
    assert AllSpace(left[j - i..]) by {
      assert left[j - i..] == s[j..];
    }
    assert left[j - i - 1] == s[j - 1];
    StripRightUnique(left, j - i);
    assert left[..j - i] == s[i..j];
  }

  /** ASCII upper-case letters to lower case; every other character is kept. */
  function LowerChar(c: char): char {
    if 'A' <= c <= 'Z' then (c as int - 'A' as int + 'a' as int) as char else c
  }

  /** `s.lower()`, for the ASCII letters. */
  function Lower(s: string): (r: string)
    ensures |r| == |s|
  {
    seq(|s|, i requires 0 <= i < |s| => LowerChar(s[i]))
  }

  /** The three ways a y/n prompt can be answered. */
  datatype Answer = Yes | No | Other

  const YesWords: set<string> := {"y", "yes"}
  const NoWords: set<string> := {"n", "no"}

  /** The answer a typed line gives. */
  function Classify(reply: string): Answer {
    var word := Lower(Strip(reply));
    if word in YesWords then Yes
    else if word in NoWords then No
    else Other
  }

  /** `reply` is one of `words`, in any letter case, with any whitespace around it. */
  ghost predicate Says(reply: string, words: set<string>) {
    exists i, j | 0 <= i <= j <= |reply| ::
      AllSpace(reply[..i]) && AllSpace(reply[j..]) && Lower(reply[i..j]) in words
  }

  predicate IsLetter(c: char) {
    'a' <= c <= 'z' || 'A' <= c <= 'Z'
  }

  /** A text that lower-cases to one of the answer words starts and ends with a letter,
      so with no whitespace at either end. */
  lemma WordEnds(t: string)
    requires Lower(t) in YesWords + NoWords
    ensures t != [] && IsLetter(t[0]) && IsLetter(t[|t| - 1])
    ensures !IsSpace(t[0]) && !IsSpace(t[|t| - 1])
  {
    assert Lower(t) == "y" || Lower(t) == "yes" || Lower(t) == "n" || Lower(t) == "no";
    assert Lower(t)[0] == LowerChar(t[0]);
    assert Lower(t)[|t| - 1] == LowerChar(t[|t| - 1]);
  }

  lemma SaysMeansStripped(reply: string, words: set<string>)
    requires words <= YesWords + NoWords
    ensures Says(reply, words) <==> Lower(Strip(reply)) in words
  {
    if Says(reply, words) {
      var i, j :| 0 <= i <= j <= |reply| &&
        AllSpace(reply[..i]) && AllSpace(reply[j..]) && Lower(reply[i..j]) in words;
      var t := reply[i..j];
      WordEnds(t);
      assert t[0] == reply[i] && t[|t| - 1] == reply[j - 1];
      StripUnique(reply, i, j);
    }
    if Lower(Strip(reply)) in words {
      var i, j := StripShape(reply);
      assert Lower(reply[i..j]) in words;
    }
  }

  /** A reply confirms exactly when, trimmed of surrounding whitespace and read without
      regard to case, it is `y` or `yes`; it declines exactly when it is `n` or `no`;
      everything else, the empty line included, is neither. */
  lemma ClassifyMeaning(reply: string)
    ensures Classify(reply) == Yes <==> Says(reply, YesWords)
    ensures Classify(reply) == No <==> Says(reply, NoWords)
    ensures Classify(reply) == Other <==> !Says(reply, YesWords) && !Says(reply, NoWords)
  {
    SaysMeansStripped(reply, YesWords);
    SaysMeansStripped(reply, NoWords);
  }
}
