/** The two cell normalisers of the cleaning step: `normalize_pathway`, which
    classifies the pathway answer, and `parse_num`, which reads a number out
    of a free-text answer (used for daily study hours and for stress level). */
module Normalize {
  import opened Wrappers
  import opened Text

  /** The respondent's educational track. */
  datatype Pathway = JC | Poly

  /** One cell of the raw survey table; None stands for a missing value. */
  type Cell = Option<string>

  // ---------------------------------------------------------------------
  // normalize_pathway
  // ---------------------------------------------------------------------

  /** Strips and lower-cases the answer, then tests for "jc" before "poly";
      anything else, and a missing cell, is missing. */
  function NormalizePathway(x: Cell): (p: Option<Pathway>)
    ensures x == None ==> p == None
  {
    match x
    case None => None
    case Some(raw) =>
      var s := Lower(Strip(raw));
      if Contains(s, "jc") then Some(JC)
      else if Contains(s, "poly") then Some(Poly)
      else None
  }

  /** The answer is JC exactly when "jc" occurs in it, ignoring case; this
      includes answers that also mention "poly". */
  lemma PathwayIsJC(raw: string)
    ensures NormalizePathway(Some(raw)) == Some(JC) <==> Contains(Lower(raw), "jc")
  {
    ContainsLowerStrip(raw, "jc");
  }

  /** The answer is Poly exactly when "poly" occurs in it, ignoring case,
      and "jc" does not. */
  lemma PathwayIsPoly(raw: string)
    ensures NormalizePathway(Some(raw)) == Some(Poly)
        <==> !Contains(Lower(raw), "jc") && Contains(Lower(raw), "poly")
  {
    ContainsLowerStrip(raw, "jc");
    ContainsLowerStrip(raw, "poly");
  }

  /** The pathway is missing exactly when the cell is missing or mentions
      neither word. */
  lemma PathwayIsMissing(x: Cell)
    ensures NormalizePathway(x) == None
        <==> x == None || (!Contains(Lower(x.value), "jc") && !Contains(Lower(x.value), "poly"))
  {
    if x.Some? {
      ContainsLowerStrip(x.value, "jc");
      ContainsLowerStrip(x.value, "poly");
    }
  }

  /** Two answers that agree up to letter case get the same pathway. */
  lemma PathwayIgnoresCase(a: string, b: string)
    requires Lower(a) == Lower(b)
    ensures NormalizePathway(Some(a)) == NormalizePathway(Some(b))
  {
    PathwayIsMissing(Some(a));
    PathwayIsMissing(Some(b));
    PathwayIsJC(a);
    PathwayIsJC(b);
  }

  // ---------------------------------------------------------------------
  // parse_num: the guard against numeric ranges
  // ---------------------------------------------------------------------

  /** The text has a digit at i, a '-' at k and a digit at j, with only
      whitespace in between: where the range pattern (digit run, optional
      whitespace, hyphen, optional whitespace, digit run) can match, since a
      digit run may always be cut down to the digit next to the hyphen. */
  ghost predicate RangeAt(s: string, i: int, k: int, j: int) {
    && 0 <= i < k < j < |s|
    && IsDigit(s[i]) && s[k] == '-' && IsDigit(s[j])
    && SpaceIn(s, i + 1, k) && SpaceIn(s, k + 1, j)
  }

  /** The range pattern matches somewhere in s. */
  ghost predicate HasRangePattern(s: string) {
    exists i, k, j :: RangeAt(s, i, k, j)
  }

  /** The '-' at k has a digit on each side, past any whitespace. */
  predicate RangeAtDash(s: string, k: nat)
    requires k < |s|
  {
    && s[k] == '-'
    && (var m := SpaceBefore(s, k); m > 0 && IsDigit(s[m - 1]))
    && (var n := SpaceAfter(s, k + 1); n < |s| && IsDigit(s[n]))
  }

  lemma RangeAtDashIff(s: string, k: nat)
    requires k < |s|
    ensures RangeAtDash(s, k) <==> exists i, j :: RangeAt(s, i, k, j)
  {
    var m, n := SpaceBefore(s, k), SpaceAfter(s, k + 1);
    if RangeAtDash(s, k) {
      assert RangeAt(s, m - 1, k, n);
    }
    if i, j :| RangeAt(s, i, k, j) {
      assert m == i + 1;
      assert n == j;
    }
  }

  /** Scans the dashes from position k on. */
  function HasRangeFrom(s: string, k: nat): (b: bool)
    requires k <= |s|
    ensures b <==> exists i, k', j :: k <= k' && RangeAt(s, i, k', j)
    decreases |s| - k
  {
    if k == |s| then
      false
    else
      RangeAtDashIff(s, k);
      var b := RangeAtDash(s, k) || HasRangeFrom(s, k + 1);
      assert b <== exists i, k', j :: k <= k' && RangeAt(s, i, k', j) by {
        if i, k', j :| k <= k' && RangeAt(s, i, k', j) {
          if k' == k {
            assert RangeAtDash(s, k);
          }
        }
      }
      b
  }

  /** The range guard of parse_num. */
  function HasRange(s: string): (b: bool)
    ensures b <==> HasRangePattern(s)
  {
    HasRangeFrom(s, 0)
  }

  // ---------------------------------------------------------------------
  // parse_num: the number token (digits, optionally '.' and digits) and its value
  // ---------------------------------------------------------------------

  predicate AllDigits(s: string) {
    forall m :: 0 <= m < |s| ==> IsDigit(s[m])
  }

  function DigitValue(c: char): (d: nat)
    requires IsDigit(c)
    ensures d < 10
  {
    c as int - '0' as int
  }

  /** The natural number a string of decimal digits denotes. */
  function DigitsValue(ds: string): nat
    requires AllDigits(ds)
  {
    if ds == [] then 0 else DigitsValue(ds[..|ds| - 1]) * 10 + DigitValue(ds[|ds| - 1])
  }

  function Pow10(n: nat): (r: nat)
    ensures r >= 1
  {
    if n == 0 then 1 else 10 * Pow10(n - 1)
  }

  /** The exact value of the decimal numeral `whole.frac` (just `whole`
      when frac is empty), which is what float() reads it as, rounding
      apart. */
  function DecimalValue(whole: string, frac: string): (v: real)
    requires AllDigits(whole) && AllDigits(frac)
    ensures v >= 0.0
  {
    DigitsValue(whole) as real + DigitsValue(frac) as real / Pow10(|frac|) as real
  }

  /** The first digit at or after k (|s| when there is none). */
  function FirstDigit(s: string, k: nat): (p: nat)
    requires k <= |s|
    ensures k <= p <= |s|
    ensures p < |s| ==> IsDigit(s[p])
    ensures forall m :: k <= m < p ==> !IsDigit(s[m])
    decreases |s| - k
  {
    if k == |s| || IsDigit(s[k]) then k else FirstDigit(s, k + 1)
  }

  /** The end of the maximal run of digits that starts at k. */
  function DigitRunEnd(s: string, k: nat): (q: nat)
    requires k <= |s|
    ensures k <= q <= |s|
    ensures AllDigits(s[k..q]) && forall m :: k <= m < q ==> IsDigit(s[m])
    ensures q == |s| || !IsDigit(s[q])
    decreases |s| - k
  {
    if k < |s| && IsDigit(s[k]) then
      var q := DigitRunEnd(s, k + 1);
      assert s[k..q] == [s[k]] + s[k + 1..q];
      q
    else
      k
  }

  /** What the optional fraction part of the number pattern takes when the
      digit run ends at q: '.' and all of the following run `frac` when a
      digit follows the dot; otherwise nothing, and frac is empty. */
  ghost predicate FracAfter(s: string, q: int, frac: string)
    requires 0 <= q <= |s|
  {
    if frac == [] then
      !(q + 1 < |s| && s[q] == '.' && IsDigit(s[q + 1]))
    else
      var e := q + 1 + |frac|;
      && e <= |s| && s[q] == '.' && s[q + 1..e] == frac
      && (e == |s| || !IsDigit(s[e]))
  }

  /** What the leftmost match of the number pattern is: the leftmost digit
      is at p, the greedy digit run takes all of `whole` from there, and the
      optional fraction `frac` follows it as FracAfter says. */
  ghost predicate NumberToken(s: string, p: int, whole: string, frac: string) {
    var q := p + |whole|;
    && 0 <= p && q <= |s|
    && (forall m :: 0 <= m < p ==> !IsDigit(s[m]))
    && whole != [] && AllDigits(whole) && s[p..q] == whole
    && (q == |s| || !IsDigit(s[q]))
    && AllDigits(frac) && FracAfter(s, q, frac)
  }

  /** The value of the leftmost number token, or None when s has no digit. */
  function ExtractNumber(s: string): (r: Option<real>)
    ensures r == None <==> forall m :: 0 <= m < |s| ==> !IsDigit(s[m])
    ensures r.Some? ==> r.value >= 0.0
  {
    var p := FirstDigit(s, 0);
    if p == |s| then
      None
    else
      var q := DigitRunEnd(s, p);
      if q + 1 < |s| && s[q] == '.' && IsDigit(s[q + 1]) then
        var e := DigitRunEnd(s, q + 1);
        Some(DecimalValue(s[p..q], s[q + 1..e]))
      else
        Some(DecimalValue(s[p..q], []))
  }

  /** A digit run of s that starts at k and ends before a non-digit is the
      one DigitRunEnd finds. */
  lemma DigitRunEndIs(s: string, k: nat, ds: string)
    requires k + |ds| <= |s| && AllDigits(ds) && s[k..k + |ds|] == ds
    requires k + |ds| == |s| || !IsDigit(s[k + |ds|])
    ensures DigitRunEnd(s, k) == k + |ds|
  {
    assert forall m :: k <= m < k + |ds| ==> s[m] == ds[m - k];
  }

  /** ExtractNumber returns the value of the token the regex matches. */
  lemma ExtractNumberToken(s: string, p: int, whole: string, frac: string)
    requires NumberToken(s, p, whole, frac)
    ensures ExtractNumber(s) == Some(DecimalValue(whole, frac))
  {
    var p' := FirstDigit(s, 0);
    assert s[p..p + |whole|][0] == s[p];
    assert p' == p;
    var q := p + |whole|;
    DigitRunEndIs(s, p, whole);
    if frac != [] {
      assert s[q + 1..q + 1 + |frac|][0] == s[q + 1];
      DigitRunEndIs(s, q + 1, frac);
    }
  }

  /** Whenever ExtractNumber finds a value, it is that of a regex token. */
  lemma ExtractNumberHasToken(s: string)
    requires ExtractNumber(s).Some?
    ensures exists p, whole, frac ::
              NumberToken(s, p, whole, frac) && ExtractNumber(s) == Some(DecimalValue(whole, frac))
  {
    var p := FirstDigit(s, 0);
    var q := DigitRunEnd(s, p);
    assert s[p..q][0] == s[p];
    if q + 1 < |s| && s[q] == '.' && IsDigit(s[q + 1]) {
      var e := DigitRunEnd(s, q + 1);
      assert s[q + 1..e][0] == s[q + 1];
      assert NumberToken(s, p, s[p..q], s[q + 1..e]);
    } else {
      assert NumberToken(s, p, s[p..q], []);
    }
  }

  // ---------------------------------------------------------------------
  // parse_num
  // ---------------------------------------------------------------------

  /** Missing stays missing; the stripped text is rejected when it holds a
      numeric range; otherwise the leftmost number token is read. */
  function ParseNum(x: Cell): (r: Option<real>)
    ensures x == None ==> r == None
    ensures r.Some? ==> r.value >= 0.0
  {
    match x
    case None => None
    case Some(raw) =>
      var s := Strip(raw);
      if HasRange(s) then None else ExtractNumber(s)
  }

  /** A character that is not whitespace lies between a whitespace prefix
      and a whitespace suffix. */
  lemma NonSpaceInside(s: string, i: int, j: int, m: int)
    requires 0 <= i <= j <= |s| && SpaceIn(s, 0, i) && SpaceIn(s, j, |s|)
    requires 0 <= m < |s| && !IsSpace(s[m])
    ensures i <= m < j
  {
  }

  lemma SliceOfSlice(s: string, i: int, j: int, a: int, b: int)
    requires 0 <= i <= j <= |s| && 0 <= a <= b <= j - i
    ensures s[i..j][a..b] == s[i + a..i + b]
  {
    assert forall m :: 0 <= m < b - a ==> s[i..j][a..b][m] == s[i + a + m];
  }

  /** A range inside the slice s[i..j] is a range of s, shifted by i. */
  lemma RangeShifted(s: string, i: int, j: int, a: int, k: int, b: int)
    requires 0 <= i <= a <= b < j <= |s|
    ensures RangeAt(s[i..j], a - i, k - i, b - i) <==> RangeAt(s, a, k, b)
  {
    assert forall m :: i <= m < j ==> s[i..j][m - i] == s[m];
  }

  /** A range of the stripped text is a range of the text. */
  lemma RangeFromStrip(s: string, a: int, k: int, b: int)
    requires RangeAt(Strip(s), a, k, b)
    ensures HasRangePattern(s)
  {
    var i, j := StripStart(s), StripEnd(s);
    RangeShifted(s, i, j, a + i, k + i, b + i);
  }

  /** A range of the text survives stripping, since its two digits are not
      whitespace. */
  lemma RangeIntoStrip(s: string, a: int, k: int, b: int)
    requires RangeAt(s, a, k, b)
    ensures HasRangePattern(Strip(s))
  {
    var i, j := StripStart(s), StripEnd(s);
    NonSpaceInside(s, i, j, a);
    NonSpaceInside(s, i, j, b);
    RangeShifted(s, i, j, a, k, b);
    assert RangeAt(Strip(s), a - i, k - i, b - i);
  }

  /** Stripping does not change whether the range guard fires. */
  lemma RangeUnderStrip(s: string)
    ensures HasRangePattern(Strip(s)) <==> HasRangePattern(s)
  {
    if a, k, b :| RangeAt(Strip(s), a, k, b) {
      RangeFromStrip(s, a, k, b);
    }
    if a, k, b :| RangeAt(s, a, k, b) {
      RangeIntoStrip(s, a, k, b);
    }
  }

  /** A run of digits of s lies inside any slice that only cuts whitespace
      off, at the shifted position. */
  lemma DigitsInSlice(s: string, i: int, j: int, a: int, ds: string)
    requires 0 <= i <= j <= |s| && SpaceIn(s, 0, i) && SpaceIn(s, j, |s|)
    requires 0 <= a && a + |ds| <= |s| && ds != [] && AllDigits(ds) && s[a..a + |ds|] == ds
    ensures i <= a && a + |ds| <= j
    ensures s[i..j][a - i..a - i + |ds|] == ds
  {
    var b := a + |ds|;
    assert s[a..b][0] == s[a] && s[a..b][|ds| - 1] == s[b - 1];
    NonSpaceInside(s, i, j, a);
    NonSpaceInside(s, i, j, b - 1);
    SliceOfSlice(s, i, j, a - i, b - i);
  }

  /** The fraction after a digit run that ends inside the slice is the
      same in the slice. */
  lemma FracInSlice(s: string, i: int, j: int, q: int, frac: string)
    requires 0 <= i <= j <= |s| && SpaceIn(s, 0, i) && SpaceIn(s, j, |s|)
    requires i <= q <= j && AllDigits(frac) && FracAfter(s, q, frac)
    ensures FracAfter(s[i..j], q - i, frac)
  {
    var t := s[i..j];
    if frac != [] {
      var e := q + 1 + |frac|;
      DigitsInSlice(s, i, j, q + 1, frac);
      assert t[q - i] == s[q];
      if e < j {
        assert t[e - i] == s[e];
      }
    } else if q + 1 < j {
      assert t[q - i] == s[q] && t[q - i + 1] == s[q + 1];
    }
  }

  /** A number token of s lies inside any slice that only cuts whitespace
      off, and is a token of that slice too. */
  lemma TokenInSlice(s: string, i: int, j: int, p: int, whole: string, frac: string)
    requires 0 <= i <= j <= |s| && SpaceIn(s, 0, i) && SpaceIn(s, j, |s|)
    requires NumberToken(s, p, whole, frac)
    ensures NumberToken(s[i..j], p - i, whole, frac)
  {
    var t := s[i..j];
    var q := p + |whole|;
    DigitsInSlice(s, i, j, p, whole);
    forall m | 0 <= m < p - i ensures !IsDigit(t[m]) {
      assert t[m] == s[i + m];
    }
    if q < j {
      assert t[q - i] == s[q];
    }
    FracInSlice(s, i, j, q, frac);
  }

  /** A slice of a text without digits has none either. */
  lemma NoDigitInSlice(s: string, i: int, j: int)
    requires 0 <= i <= j <= |s| && forall m :: 0 <= m < |s| ==> !IsDigit(s[m])
    ensures forall m :: 0 <= m < j - i ==> !IsDigit(s[i..j][m])
  {
    forall m | 0 <= m < j - i ensures !IsDigit(s[i..j][m]) {
      assert s[i..j][m] == s[i + m];
    }
  }

  /** The token read from a text is the one read from any slice that only
      cuts whitespace off it. */
  lemma ExtractInSlice(s: string, i: int, j: int)
    requires 0 <= i <= j <= |s| && SpaceIn(s, 0, i) && SpaceIn(s, j, |s|)
    requires ExtractNumber(s).Some?
    ensures ExtractNumber(s[i..j]) == ExtractNumber(s)
  {
    ExtractNumberHasToken(s);
    var p, whole, frac :| NumberToken(s, p, whole, frac) && ExtractNumber(s) == Some(DecimalValue(whole, frac));
    TokenInSlice(s, i, j, p, whole, frac);
    ExtractNumberToken(s[i..j], p - i, whole, frac);
  }

  /** Stripping does not change the number token that is read. */
  lemma ExtractUnderStrip(s: string)
    ensures ExtractNumber(Strip(s)) == ExtractNumber(s)
  {
    var i, j := StripStart(s), StripEnd(s);
    assert Strip(s) == s[i..j];
    if ExtractNumber(s).None? {
      NoDigitInSlice(s, i, j);
    } else {
      ExtractInSlice(s, i, j);
    }
  }

  /** parse_num as if the text were not stripped: the strip() call makes no
      difference to the result. */
  lemma ParseNumIgnoresStrip(raw: string)
    ensures ParseNum(Some(raw)) == if HasRangePattern(raw) then None else ExtractNumber(raw)
  {
    RangeUnderStrip(raw);
    ExtractUnderStrip(raw);
  }

  /** Any text with a digit, optional whitespace, '-', optional whitespace
      and a digit somewhere in it is rejected ("6-7", "2.5 - 3"). */
  lemma ParseNumRejectsRange(raw: string, i: int, k: int, j: int)
    requires RangeAt(raw, i, k, j)
    ensures ParseNum(Some(raw)) == None
  {
    ParseNumIgnoresStrip(raw);
  }

  /** parse_num gives no value exactly when the cell is missing, the text
      holds a range, or the text has no digit at all. */
  lemma ParseNumIsMissing(x: Cell)
    ensures ParseNum(x) == None
        <==> x == None || HasRangePattern(x.value) || forall m :: 0 <= m < |x.value| ==> !IsDigit(x.value[m])
  {
    if x.Some? {
      ParseNumIgnoresStrip(x.value);
    }
  }

  /** When parse_num gives a value, it is that of the leftmost number
      token of the text. */
  lemma ParseNumIsLeftmostToken(raw: string, v: real)
    requires ParseNum(Some(raw)) == Some(v)
    ensures !HasRangePattern(raw)
    ensures exists p, whole, frac :: NumberToken(raw, p, whole, frac) && v == DecimalValue(whole, frac)
  {
    ParseNumIgnoresStrip(raw);
    ExtractNumberHasToken(raw);
  }

  /** The numeral `whole` or `whole.frac`. */
  function Numeral(whole: string, frac: string): string {
    if frac == [] then whole else whole + "." + frac
  }

  /** A numeral holds digits and at most a dot, never a hyphen. */
  lemma NumeralHasNoHyphen(whole: string, frac: string)
    requires AllDigits(whole) && AllDigits(frac)
    ensures forall m :: 0 <= m < |Numeral(whole, frac)| ==> Numeral(whole, frac)[m] != '-'
  {
    var tok := Numeral(whole, frac);
    forall m | 0 <= m < |tok| ensures tok[m] != '-' {
      if m < |whole| {
        assert tok[m] == whole[m];
      } else if m > |whole| {
        assert tok[m] == frac[m - |whole| - 1];
      }
    }
  }

  /** No range can be found in pre + tok + post when pre and post hold no
      digit and tok no hyphen. */
  lemma EmbeddedNoRange(pre: string, tok: string, post: string)
    requires forall m :: 0 <= m < |pre| ==> !IsDigit(pre[m])
    requires forall m :: 0 <= m < |post| ==> !IsDigit(post[m])
    requires forall m :: 0 <= m < |tok| ==> tok[m] != '-'
    ensures !HasRangePattern(pre + tok + post)
  {
    var s := pre + tok + post;
    var p, e := |pre|, |pre| + |tok|;
    forall m | 0 <= m < p ensures !IsDigit(s[m]) {
      assert s[m] == pre[m];
    }
    forall m | e <= m < |s| ensures !IsDigit(s[m]) {
      assert s[m] == post[m - e];
    }
    forall m | p <= m < e ensures s[m] != '-' {
      assert s[m] == tok[m - p];
    }
  }

  /** The numeral is the leftmost token of pre + numeral + post, and no
      range can be found there, when pre and post hold no digit. */
  lemma EmbeddedNumeral(pre: string, whole: string, frac: string, post: string)
    requires whole != [] && AllDigits(whole) && AllDigits(frac)
    requires forall m :: 0 <= m < |pre| ==> !IsDigit(pre[m])
    requires forall m :: 0 <= m < |post| ==> !IsDigit(post[m])
    ensures NumberToken(pre + Numeral(whole, frac) + post, |pre|, whole, frac)
    ensures !HasRangePattern(pre + Numeral(whole, frac) + post)
  {
    var tok := Numeral(whole, frac);
    var s := pre + tok + post;
    var p, q, e := |pre|, |pre| + |whole|, |pre| + |tok|;
    forall m | 0 <= m < p ensures !IsDigit(s[m]) {
      assert s[m] == pre[m];
    }
    assert s[p..q] == whole by {
      forall m | 0 <= m < |whole| ensures s[p..q][m] == whole[m] {
        assert s[p + m] == tok[m];
      }
    }
    if e < |s| {
      assert s[e] == post[0];
    }
    if frac != [] {
      assert s[q] == tok[|whole|] == '.';
      assert s[q + 1..e] == frac by {
        forall m | 0 <= m < |frac| ensures s[q + 1..e][m] == frac[m] {
          assert s[q + 1 + m] == tok[|whole| + 1 + m];
        }
      }
    } else if q + 1 < |s| {
      assert s[q + 1] == post[1];
    }
    NumeralHasNoHyphen(whole, frac);
    EmbeddedNoRange(pre, tok, post);
  }

  /** A numeral that is the only digits in the text is read exactly,
      whatever text surrounds it ("3 hours" gives 3, "about 2.5h" 2.5). */
  lemma ParseNumEmbedded(pre: string, whole: string, frac: string, post: string)
    requires whole != [] && AllDigits(whole) && AllDigits(frac)
    requires forall m :: 0 <= m < |pre| ==> !IsDigit(pre[m])
    requires forall m :: 0 <= m < |post| ==> !IsDigit(post[m])
    ensures ParseNum(Some(pre + Numeral(whole, frac) + post)) == Some(DecimalValue(whole, frac))
  {
    var s := pre + Numeral(whole, frac) + post;
    EmbeddedNumeral(pre, whole, frac, post);
    ExtractNumberToken(s, |pre|, whole, frac);
    ParseNumIgnoresStrip(s);
  }

  /** The decimal rendering of a natural number. */
  function DecimalString(n: nat): (ds: string)
    ensures ds != [] && AllDigits(ds)
  {
    var d := ('0' as int + n % 10) as char;
    if n < 10 then [d] else DecimalString(n / 10) + [d]
  }

  lemma {:induction false} DigitsValueOfDecimalString(n: nat)
    ensures DigitsValue(DecimalString(n)) == n
  {
    var ds := DecimalString(n);
    if n >= 10 {
      assert ds[..|ds| - 1] == DecimalString(n / 10);
      DigitsValueOfDecimalString(n / 10);
    }
  }

  /** Reading back a rendered natural number gives that number. */
  lemma ParseNumOfDecimalString(n: nat)
    ensures ParseNum(Some(DecimalString(n))) == Some(n as real)
  {
    var ds := DecimalString(n);
    DigitsValueOfDecimalString(n);
    ParseNumTrailingWords(ds, []);
    assert ds + [] == ds;
  }

  // ---------------------------------------------------------------------
  // Worked cases
  // ---------------------------------------------------------------------

  /** A word with a letter that the text lacks does not occur in it. */
  lemma LetterMissing(s: string, t: string)
    requires |t| > 0 && t[0] !in s
    ensures !Contains(s, t)
  {
  }

  /** A two-letter word whose letters are never adjacent in the text does
      not occur in it. */
  lemma PairMissing(s: string, a: char, b: char)
    requires forall i :: 0 <= i < |s| - 1 ==> !(s[i] == a && s[i + 1] == b)
    ensures !Contains(s, [a, b])
  {
    if i :| OccursAt([a, b], s, i) {
      assert s[i..i + 2][0] == s[i] && s[i..i + 2][1] == s[i + 1];
    }
  }

  /** "JC" in any letter case gives JC. */
  lemma PathwayExampleJC()
    ensures NormalizePathway(Some("JC")) == Some(JC)
    ensures NormalizePathway(Some("jC")) == Some(JC)
  {
    assert OccursAt("jc", Lower("JC"), 0);
    PathwayIsJC("JC");
    assert OccursAt("jc", Lower("jC"), 0);
    PathwayIsJC("jC");
  }

  /** An answer naming both tracks is JC, because "jc" is tested first. */
  lemma PathwayExampleBoth()
    ensures NormalizePathway(Some(" Poly / JC ")) == Some(JC)
  {
    var l := Lower(" Poly / JC ");
    assert l[8] == 'j' && l[9] == 'c';
    assert OccursAt("jc", l, 8);
    PathwayIsJC(" Poly / JC ");
  }

  lemma PathwayExamplePoly()
    ensures NormalizePathway(Some("I'm from POLY")) == Some(Poly)
  {
    var l := Lower("I'm from POLY");
    assert l == "i'm from poly";
    assert OccursAt("poly", l, 9);
    assert 'j' !in l;
    LetterMissing(l, "jc");
    PathwayIsPoly("I'm from POLY");
  }

  /** There is no match on "junior". */
  lemma PathwayExampleJunior()
    ensures NormalizePathway(Some("Junior College")) == None
  {
    var l := Lower("Junior College");
    assert l == "junior college";
    forall i | 0 <= i < |l| - 1 ensures !(l[i] == 'j' && l[i + 1] == 'c') {
      if l[i] == 'j' {
        assert i == 0;
      }
    }
    PairMissing(l, 'j', 'c');
    assert 'p' !in l;
    LetterMissing(l, "poly");
    PathwayIsMissing(Some("Junior College"));
  }

  lemma ParseNumExamplesRange()
    ensures ParseNum(Some("6-7")) == None
    ensures ParseNum(Some("2.5 - 3")) == None
  {
    assert RangeAt("6-7", 0, 1, 2);
    ParseNumRejectsRange("6-7", 0, 1, 2);
    assert RangeAt("2.5 - 3", 2, 4, 6);
    ParseNumRejectsRange("2.5 - 3", 2, 4, 6);
  }

  /** A numeral without a fraction has the value of its digits. */
  lemma WholeValue(whole: string)
    requires AllDigits(whole)
    ensures DecimalValue(whole, []) == DigitsValue(whole) as real
  {
    assert DigitsValue([]) == 0 && Pow10(0) == 1;
  }

  /** A number followed by words reads as the number. */
  lemma ParseNumTrailingWords(whole: string, post: string)
    requires whole != [] && AllDigits(whole)
    requires forall m :: 0 <= m < |post| ==> !IsDigit(post[m])
    ensures ParseNum(Some(whole + post)) == Some(DigitsValue(whole) as real)
  {
    var s := [] + Numeral(whole, []) + post;
    assert s == whole + post;
    ParseNumEmbedded([], whole, [], post);
    WholeValue(whole);
  }

  /** Trailing words are ignored. */
  lemma ParseNumExampleHours()
    ensures ParseNum(Some("3 hours")) == Some(3.0)
  {
    ParseNumTrailingWords("3", " hours");
    assert "3" + " hours" == "3 hours";
  }

  /** The exact value of the numeral 2.5. */
  lemma DecimalValueExample()
    ensures DecimalValue("2", "5") == 2.5
  {
    assert DigitsValue("2") == 2 by {
      assert "2"[..0] == [];
    }
    assert DigitsValue("5") == 5 by {
      assert "5"[..0] == [];
    }
    assert Pow10(1) == 10;
  }

  lemma ParseNumExampleDecimal()
    ensures ParseNum(Some("2.5")) == Some(2.5)
  {
    assert "" + Numeral("2", "5") + "" == "2.5";
    ParseNumEmbedded("", "2", "5", "");
    DecimalValueExample();
  }

  /** No sign is read: a leading minus is ignored. */
  lemma ParseNumExampleMinus()
    ensures ParseNum(Some("-3")) == Some(3.0)
  {
    assert DecimalValue("3", "") == 3.0;
    ParseNumEmbedded("-", "3", "", "");
    assert "-" + Numeral("3", "") + "" == "-3";
  }

  lemma ParseNumExampleEmpty()
    ensures ParseNum(Some("")) == None
  {
  }
}
