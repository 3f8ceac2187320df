/** The string operations the cleaning code applies to a cell: Python's
    str.strip(), str.lower() and the substring test, together with the
    digit and whitespace classes of the regular expressions. */
module Text {

  /** A decimal digit, as the regex digit class matches it (restricted to
      ASCII). */
  predicate IsDigit(c: char) {
    '0' <= c <= '9'
  }

  /** Python's notion of whitespace (str.isspace), which is what both
      str.strip() without arguments and the regex whitespace class use. */
  predicate IsSpace(c: char) {
    || c == ' '
    || '\t' <= c <= '\r'
    || '\U{1C}' <= c <= '\U{1F}'
    || c == '\U{85}' || c == '\U{A0}' || c == '\U{1680}'
    || '\U{2000}' <= c <= '\U{200A}'
    || c == '\U{2028}' || c == '\U{2029}' || c == '\U{202F}'
    || c == '\U{205F}' || c == '\U{3000}'
  }

  /** Every character of s from index a up to b is whitespace. */
  ghost predicate SpaceIn(s: string, a: int, b: int)
    requires 0 <= a <= b <= |s|
  {
    forall t :: a <= t < b ==> IsSpace(s[t])
  }

  /** The start of the run of whitespace that ends just before k. */
  function SpaceBefore(s: string, k: nat): (m: nat)
    requires k <= |s|
    ensures m <= k && SpaceIn(s, m, k)
    ensures m == 0 || !IsSpace(s[m - 1])
  {
    if k > 0 && IsSpace(s[k - 1]) then
      SpaceBefore(s, k - 1)
    else
      k
  }

  /** The end of the run of whitespace that starts at k. */
  function SpaceAfter(s: string, k: nat): (m: nat)
    requires k <= |s|
    ensures k <= m <= |s| && SpaceIn(s, k, m)
    ensures m == |s| || !IsSpace(s[m])
    decreases |s| - k
  {
    if k < |s| && IsSpace(s[k]) then
      SpaceAfter(s, k + 1)
    else
      k
  }

  /** Where str.strip() starts its result: past the leading whitespace. */
  function StripStart(s: string): (i: nat)
    ensures i <= |s| && SpaceIn(s, 0, i)
    ensures i == |s| || !IsSpace(s[i])
  {
    SpaceAfter(s, 0)
  }

  /** Where str.strip() ends its result: before the trailing whitespace,
      and never before its start. */
  function StripEnd(s: string): (j: nat)
    ensures StripStart(s) <= j <= |s| && SpaceIn(s, j, |s|)
    ensures j == StripStart(s) || !IsSpace(s[j - 1])
  {
    if StripStart(s) == |s| then |s| else SpaceBefore(s, |s|)
  }

  /** Python's str.strip(): the slice of s left once whitespace is removed
      at both ends. */
  function Strip(s: string): (r: string)
    ensures exists i, j :: 0 <= i <= j <= |s| && r == s[i..j] && SpaceIn(s, 0, i) && SpaceIn(s, j, |s|)
    ensures r == [] || (!IsSpace(r[0]) && !IsSpace(r[|r| - 1]))
  {
    s[StripStart(s)..StripEnd(s)]
  }

  function LowerChar(c: char): char {
    if 'A' <= c <= 'Z' then (c as int - 'A' as int + 'a' as int) as char else c
  }

  /** Python's str.lower(), on the ASCII letters (see README for why the
      other letters cannot matter to the tests made on its result). */
  function Lower(s: string): (r: string)
    ensures |r| == |s|
    ensures forall i :: 0 <= i < |s| ==> r[i] == LowerChar(s[i])
  {
    seq(|s|, i requires 0 <= i < |s| => LowerChar(s[i]))
  }

  /** t occurs in s at position i. */
  ghost predicate OccursAt(t: string, s: string, i: int) {
    0 <= i && i + |t| <= |s| && s[i..i + |t|] == t
  }

  /** An occurrence of t in s is at the front of s or in its tail. */
  lemma OccursFrontOrTail(t: string, s: string)
    requires |s| > 0
    ensures (exists i :: OccursAt(t, s, i)) <==> (OccursAt(t, s, 0) || exists i :: OccursAt(t, s[1..], i))
  {
    if i :| OccursAt(t, s[1..], i) {
      assert s[1..][i..i + |t|] == s[i + 1..i + 1 + |t|];
      assert OccursAt(t, s, i + 1);
    }
    if i :| OccursAt(t, s, i) && i > 0 {
      assert s[1..][i - 1..i - 1 + |t|] == s[i..i + |t|];
      assert OccursAt(t, s[1..], i - 1);
    }
  }

  /** Python's substring test: t is a contiguous part of s. */
  function Contains(s: string, t: string): (b: bool)
    ensures b <==> exists i :: OccursAt(t, s, i)
  {
    if |t| <= |s| && s[..|t|] == t then
      assert OccursAt(t, s, 0);
      true
    else if |s| == 0 then
      assert forall i :: !OccursAt(t, s, i);
      false
    else
      OccursFrontOrTail(t, s);
      Contains(s[1..], t)
  }

  /** An occurrence in a slice is an occurrence in the whole. */
  lemma OccursInSlice(t: string, s: string, i: int, j: int, k: int)
    requires 0 <= i <= j <= |s| && OccursAt(t, s[i..j], k)
    ensures OccursAt(t, s, i + k)
  {
    forall m | 0 <= m < |t| ensures s[i + k..i + k + |t|][m] == t[m] {
      assert s[i..j][k..k + |t|][m] == t[m];
    }
  }

  /** A whitespace-free occurrence in Lower(s) lies between any whitespace
      prefix and whitespace suffix of s. */
  lemma OccursBetweenSpace(t: string, s: string, i: int, j: int, k: int)
    requires |t| > 0 && forall m :: 0 <= m < |t| ==> !IsSpace(t[m])
    requires 0 <= i <= j <= |s| && SpaceIn(s, 0, i) && SpaceIn(s, j, |s|)
    requires OccursAt(t, Lower(s), k)
    ensures i <= k && k + |t| <= j
    ensures OccursAt(t, Lower(s)[i..j], k - i)
  {
    var ls := Lower(s);
    var e := k + |t| - 1;
    assert ls[k..k + |t|][0] == ls[k] && ls[k..k + |t|][|t| - 1] == ls[e];
    assert !IsSpace(s[k]) && !IsSpace(s[e]);
    assert i <= k && e < j;
    assert forall m :: k <= m < k + |t| ==> ls[i..j][m - i] == ls[m];
  }

  lemma ContainsSliceBetweenSpace(t: string, s: string, i: int, j: int)
    requires |t| > 0 && forall m :: 0 <= m < |t| ==> !IsSpace(t[m])
    requires 0 <= i <= j <= |s| && SpaceIn(s, 0, i) && SpaceIn(s, j, |s|)
    ensures Contains(Lower(s)[i..j], t) <==> Contains(Lower(s), t)
  {
    var ls := Lower(s);
    if k :| OccursAt(t, ls[i..j], k) {
      OccursInSlice(t, ls, i, j, k);
    }
    if k :| OccursAt(t, ls, k) {
      OccursBetweenSpace(t, s, i, j, k);
    }
  }

  /** Lower-casing commutes with taking a slice. */
  lemma LowerSlice(s: string, i: int, j: int)
    requires 0 <= i <= j <= |s|
    ensures Lower(s[i..j]) == Lower(s)[i..j]
  {
    forall m | 0 <= m < j - i ensures Lower(s[i..j])[m] == Lower(s)[i..j][m] {
      assert s[i..j][m] == s[i + m];
    }
  }

  /** Removing surrounding whitespace does not change whether a word that
      has no whitespace in it occurs in the lower-cased text: the stripping
      before lower-casing is irrelevant to the substring tests. */
  lemma ContainsLowerStrip(s: string, t: string)
    requires |t| > 0
    requires forall k :: 0 <= k < |t| ==> !IsSpace(t[k])
    ensures Contains(Lower(Strip(s)), t) <==> Contains(Lower(s), t)
  {
    var i, j := StripStart(s), StripEnd(s);
    LowerSlice(s, i, j);
    ContainsSliceBetweenSpace(t, s, i, j);
  }
}
