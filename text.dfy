/**
 * The string operations the anomaly classifier relies on: `str.lower`
 * (restricted to ASCII letters) and the substring test `needle in hay`.
 */
module Text {

  predicate IsUpper(c: char)
  {
    'A' <= c <= 'Z'
  }

  /** Case folding of one character: ASCII capitals map to small letters. */
  function LowerChar(c: char): char
  {
    if IsUpper(c) then (c as int + 32) as char else c
  }

  /** Two characters are the same letter up to ASCII case: equal, or a capital and its small letter. */
  predicate SameUpToCase(a: char, b: char)
  {
    || a == b
    || (IsUpper(a) && b as int == a as int + 32)
    || (IsUpper(b) && a as int == b as int + 32)
  }

  /** Two strings are equal up to ASCII case, position by position. */
  ghost predicate EqualIgnoringCase(s: string, t: string)
  {
    |s| == |t| && forall i :: 0 <= i < |s| ==> SameUpToCase(s[i], t[i])
  }

  /**
   * `s.lower()` for ASCII text: the result has no capital letter and is the
   * input up to case, so capitals become small letters and every other
   * character is kept.
   */
  function Lower(s: string): (t: string)
    ensures |t| == |s|
    ensures forall i :: 0 <= i < |t| ==> !IsUpper(t[i])
    ensures EqualIgnoringCase(s, t)
  {
    seq(|s|, i requires 0 <= i < |s| => LowerChar(s[i]))
  }

  /** Folding twice changes nothing. */
  lemma LowerIsFolded(s: string)
    ensures Lower(Lower(s)) == Lower(s)
  {
  }

  lemma FoldSameUpToCase(a: char, b: char)
    ensures LowerChar(a) == LowerChar(b) <==> SameUpToCase(a, b)
  {
  }

  /** Folding identifies exactly the strings that differ only in case. */
  lemma LowerIdentifiesCase(s: string, t: string)
    ensures Lower(s) == Lower(t) <==> EqualIgnoringCase(s, t)
  {
    if Lower(s) == Lower(t) {
      forall i | 0 <= i < |s|
        ensures SameUpToCase(s[i], t[i])
      {
        assert Lower(s)[i] == Lower(t)[i];
        FoldSameUpToCase(s[i], t[i]);
      }
    }
    if EqualIgnoringCase(s, t) {
      forall i | 0 <= i < |s|
        ensures Lower(s)[i] == Lower(t)[i]
      {
        FoldSameUpToCase(s[i], t[i]);
      }
    }
  }

  /** The window of `hay` starting at `i` is `needle`. */
  ghost predicate MatchesAt(needle: string, hay: string, i: int)
  {
    0 <= i && i + |needle| <= |hay| && hay[i..i + |needle|] == needle
  }

  /** Reference meaning of `needle in hay`: some window of `hay` equals `needle`. */
  ghost predicate Occurs(needle: string, hay: string)
  {
    exists i :: MatchesAt(needle, hay, i)
  }

  lemma SliceOfTail(s: string, i: int, j: int)
    requires 0 <= i <= j && j + 1 <= |s|
    ensures s[1..][i..j] == s[i + 1..j + 1]
  {
    assert forall k :: 0 <= k < j - i ==> s[1..][i..j][k] == s[i + 1..j + 1][k];
  }

  /** When the first window does not match, the search may drop the first character. */
  lemma ShiftOccurs(hay: string, needle: string)
    requires |needle| <= |hay| && hay[..|needle|] != needle
    ensures Occurs(needle, hay) <==> Occurs(needle, hay[1..])
  {
    var n := |needle|;
    if Occurs(needle, hay) {
      var i :| MatchesAt(needle, hay, i);
      assert i != 0;
      SliceOfTail(hay, i - 1, i - 1 + n);
      assert MatchesAt(needle, hay[1..], i - 1);
    }
    if Occurs(needle, hay[1..]) {
      var i :| MatchesAt(needle, hay[1..], i);
      SliceOfTail(hay, i, i + n);
      assert MatchesAt(needle, hay, i + 1);
    }
  }

  /** `needle in hay`, as a left-to-right search over the windows of `hay`. */
  function Contains(hay: string, needle: string): (b: bool)
    ensures b <==> Occurs(needle, hay)
    decreases |hay|
  {
    if |needle| > |hay| then false
    else if hay[..|needle|] == needle then assert MatchesAt(needle, hay, 0); true
    else ShiftOccurs(hay, needle); Contains(hay[1..], needle)
  }

  /** `any(term in hay for term in needles)`: true exactly when one of the terms occurs. */
  function ContainsAny(hay: string, needles: seq<string>): (b: bool)
    ensures b <==> exists k :: 0 <= k < |needles| && Occurs(needles[k], hay)
  {
    if needles == [] then false
    else
      var rest := ContainsAny(hay, needles[1..]);
      assert rest <==> exists k :: 1 <= k < |needles| && Occurs(needles[k], hay) by {
        if rest {
          var k :| 0 <= k < |needles[1..]| && Occurs(needles[1..][k], hay);
          assert needles[k + 1] == needles[1..][k];
        }
        if exists k :: 1 <= k < |needles| && Occurs(needles[k], hay) {
          var k :| 1 <= k < |needles| && Occurs(needles[k], hay);
          assert needles[1..][k - 1] == needles[k];
        }
      }
      Contains(hay, needles[0]) || rest
  }
}
