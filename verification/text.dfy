/**
 String primitives the skill analyser builds on, written out over `seq<char>`:
 Python's `str.strip()` and ASCII `str.lower()`, substring containment
 (`p in s` on strings), `" ".join(tokens)`, and the facts about them that the
 extraction and vocabulary proofs need.
 */
module Text {

  /** Python's `str.isspace()` for one character: the Unicode White_Space
      characters plus the ASCII separators U+001C..U+001F. */
  predicate IsSpace(c: char) {
    || ('\t' <= c <= '\r')
    || ('\U{1C}' <= c <= '\U{1F}')
    || c == ' '
    || c == '\U{85}' || c == '\U{A0}' || c == '\U{1680}'
    || ('\U{2000}' <= c <= '\U{200A}')
    || c == '\U{2028}' || c == '\U{2029}' || c == '\U{202F}' || c == '\U{205F}' || c == '\U{3000}'
  }

  predicate AllSpace(s: string) {
    forall i :: 0 <= i < |s| ==> IsSpace(s[i])
  }

  /** True when `s` neither starts nor ends with whitespace. */
  predicate Trimmed(s: string) {
    s == [] || (!IsSpace(s[0]) && !IsSpace(s[|s| - 1]))
  }

  /** The index of the first non-whitespace character of `s` at or after
      `i`, or |s| when there is none. */
  function SkipSpace(s: string, i: nat): (j: nat)
    requires i <= |s|
    ensures i <= j <= |s|
    ensures forall k :: i <= k < j ==> IsSpace(s[k])
    ensures j == |s| || !IsSpace(s[j])
    decreases |s| - i
  {
    if i < |s| && IsSpace(s[i]) then SkipSpace(s, i + 1) else i
  }

  /** The index just past the last non-whitespace character of `s` before
      `j`, or `i` when `s[i..j]` is all whitespace. */
  function SkipSpaceBack(s: string, i: nat, j: nat): (k: nat)
    requires i <= j <= |s|
    ensures i <= k <= j
    ensures forall m :: k <= m < j ==> IsSpace(s[m])
    ensures k == i || !IsSpace(s[k - 1])
    decreases j
  {
    if i < j && IsSpace(s[j - 1]) then SkipSpaceBack(s, i, j - 1) else j
  }

  /** Python's `s.strip()`: the result carries no outer whitespace and is no
      longer than `s` (StripParts says what was removed). */
  function Strip(s: string): (r: string)
    ensures Trimmed(r)
    ensures |r| <= |s|
  {
    var start := SkipSpace(s, 0);
    s[start..SkipSpaceBack(s, start, |s|)]
  }

  /** What `s.strip()` removes is whitespace only: `s` is the stripped text
      with a whitespace run on either side. */
  lemma StripParts(s: string) returns (lead: string, trail: string)
    ensures s == lead + Strip(s) + trail
    ensures AllSpace(lead) && AllSpace(trail)
  {
    var start := SkipSpace(s, 0);
    var end := SkipSpaceBack(s, start, |s|);
    lead, trail := s[..start], s[end..];
    assert s == s[..start] + s[start..end] + s[end..];
  }

  /** `s.strip()` is empty exactly when `s` is blank. */
  lemma StripBlank(s: string)
    ensures Strip(s) == [] <==> AllSpace(s)
  {
    var start := SkipSpace(s, 0);
    var end := SkipSpaceBack(s, start, |s|);
    if Strip(s) == [] {
      assert start == end;
    }
  }

  /** A string without outer whitespace is its own strip. */
  lemma StripTrimmed(s: string)
    requires Trimmed(s)
    ensures Strip(s) == s
  {
    var start := SkipSpace(s, 0);
    assert start == 0;
    var end := SkipSpaceBack(s, start, |s|);
    assert end == |s|;
  }

  predicate IsUpper(c: char) {
    'A' <= c <= 'Z'
  }

  predicate NoUpper(s: string) {
    forall i :: 0 <= i < |s| ==> !IsUpper(s[i])
  }

  function LowerChar(c: char): char {
    if IsUpper(c) then (c as int + 32) as char else c
  }

  /** `str.lower()` restricted to ASCII: upper-case letters become lower-case,
      every other character is kept, and the length does not change. */
  function ToLower(s: string): (r: string)
    ensures |r| == |s|
    ensures NoUpper(r)
    ensures forall i :: 0 <= i < |r| ==> (IsSpace(r[i]) <==> IsSpace(s[i]))
    ensures forall i :: 0 <= i < |r| && !IsUpper(s[i]) ==> r[i] == s[i]
    ensures forall i :: 0 <= i < |r| && IsUpper(s[i]) ==> r[i] as int - s[i] as int == 'a' as int - 'A' as int
  {
    if s == [] then [] else [LowerChar(s[0])] + ToLower(s[1..])
  }

  /** Lower-casing a string that has no upper-case letter changes nothing. */
  lemma ToLowerNoUpper(s: string)
    requires NoUpper(s)
    ensures ToLower(s) == s
  {
  }

  /** `p` occurs in `s` starting at index `i`. */
  predicate OccursAt(p: string, s: string, i: int) {
    0 <= i && i + |p| <= |s| && s[i..i + |p|] == p
  }

  /** Python's `p in s` for two strings. */
  predicate IsSubstring(p: string, s: string) {
    exists i :: 0 <= i <= |s| - |p| && OccursAt(p, s, i)
  }

  /** A left-to-right search that answers the same as Python's `p in s`. */
  method Contains(p: string, s: string) returns (b: bool)
    ensures b <==> IsSubstring(p, s)
  {
    var i := 0;
    while i <= |s| - |p|
      invariant 0 <= i
      invariant forall k :: 0 <= k < i ==> !OccursAt(p, s, k)
      decreases |s| - |p| - i
    {
      if s[i..i + |p|] == p {
        assert OccursAt(p, s, i);
        return true;
      }
      i := i + 1;
    }
    return false;
  }

  lemma SubstringOfLeft(x: string, y: string)
    ensures IsSubstring(x, x + y)
  {
    assert (x + y)[0..|x|] == x;
    assert OccursAt(x, x + y, 0);
  }

  lemma SubstringOfRight(x: string, y: string)
    ensures IsSubstring(y, x + y)
  {
    assert (x + y)[|x|..|x| + |y|] == y;
    assert OccursAt(y, x + y, |x|);
  }

  /** Containment of strings is transitive. */
  lemma SubstringTransitive(p: string, q: string, s: string)
    requires IsSubstring(p, q) && IsSubstring(q, s)
    ensures IsSubstring(p, s)
  {
    var i :| 0 <= i <= |q| - |p| && OccursAt(p, q, i);
    var j :| 0 <= j <= |s| - |q| && OccursAt(q, s, j);
    forall k | 0 <= k < |p|
      ensures s[j + i + k] == p[k]
    {
      assert q[i + k] == p[k];
      assert s[j + (i + k)] == q[i + k];
    }
    assert OccursAt(p, s, j + i);
  }

  lemma SplitAt<T>(s: seq<T>, k: int)
    requires 0 <= k <= |s|
    ensures s == s[..k] + s[k..]
  {
  }

  /** Python's `" ".join(tokens)`. */
  function Join(tokens: seq<string>): string {
    if |tokens| == 0 then ""
    else if |tokens| == 1 then tokens[0]
    else tokens[0] + " " + Join(tokens[1..])
  }

  /** Joining two non-empty token runs puts exactly one space between them. */
  lemma {:induction false} JoinAppend(a: seq<string>, b: seq<string>)
    requires a != [] && b != []
    ensures Join(a + b) == Join(a) + " " + Join(b)
  {
    if |a| == 1 {
      assert (a + b)[1..] == b;
    } else {
      assert (a + b)[1..] == a[1..] + b;
      JoinAppend(a[1..], b);
    }
  }

  /** The text joined from a non-empty run of leading tokens occurs in the
      text joined from all of them. */
  lemma JoinPrefix(tokens: seq<string>, j: int)
    requires 0 < j <= |tokens|
    ensures IsSubstring(Join(tokens[..j]), Join(tokens))
  {
    if j < |tokens| {
      var rest := " " + Join(tokens[j..]);
      assert Join(tokens) == Join(tokens[..j]) + rest by {
        SplitAt(tokens, j);
        JoinAppend(tokens[..j], tokens[j..]);
      }
      SubstringOfLeft(Join(tokens[..j]), rest);
    } else {
      assert tokens[..j] == tokens;
      SubstringOfLeft(Join(tokens), "");
      assert Join(tokens) + "" == Join(tokens);
    }
  }

  /** The text joined from a non-empty run of trailing tokens occurs in the
      text joined from all of them. */
  lemma JoinSuffix(tokens: seq<string>, i: int)
    requires 0 <= i < |tokens|
    ensures IsSubstring(Join(tokens[i..]), Join(tokens))
  {
    if 0 < i {
      var before := Join(tokens[..i]) + " ";
      assert Join(tokens) == before + Join(tokens[i..]) by {
        SplitAt(tokens, i);
        JoinAppend(tokens[..i], tokens[i..]);
      }
      SubstringOfRight(before, Join(tokens[i..]));
    } else {
      assert tokens[i..] == tokens;
      SubstringOfRight("", Join(tokens));
      assert "" + Join(tokens) == Join(tokens);
    }
  }

  /** The text joined from any contiguous window of the tokens occurs in the
      text joined from all of them. */
  lemma JoinWindow(tokens: seq<string>, i: int, j: int)
    requires 0 <= i < j <= |tokens|
    ensures IsSubstring(Join(tokens[i..j]), Join(tokens))
  {
    var right := tokens[i..];
    assert right[..j - i] == tokens[i..j];
    JoinPrefix(right, j - i);
    JoinSuffix(tokens, i);
    SubstringTransitive(Join(tokens[i..j]), Join(right), Join(tokens));
  }

  /** Anything found in the text of a window of tokens is found in the text of
      all the tokens. */
  lemma SubstringOfWindow(p: string, tokens: seq<string>, i: int, j: int)
    requires 0 <= i <= j <= |tokens|
    requires IsSubstring(p, Join(tokens[i..j]))
    ensures IsSubstring(p, Join(tokens))
  {
    if i == j {
      assert Join(tokens[i..j]) == "";
      assert |p| == 0;
      assert OccursAt(p, Join(tokens), 0);
    } else {
      JoinWindow(tokens, i, j);
      SubstringTransitive(p, Join(tokens[i..j]), Join(tokens));
    }
  }
}
