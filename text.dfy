/**
 * Whole-word, case-insensitive phrase search: the behaviour of
 * `re.search(r'\b' + re.escape(phrase) + r'\b', text, re.IGNORECASE)`.
 *
 * Word characters are ASCII letters, digits and underscore, and case folding
 * is ASCII lowercasing. `re.escape` makes every character of the phrase stand
 * for itself, so the phrase is compared character by character.
 */
module Text {
  import opened Wrappers

  predicate IsLetter(c: char) {
    ('a' <= c <= 'z') || ('A' <= c <= 'Z')
  }

  /** The regular-expression word class `\w`. */
  predicate IsWordChar(c: char) {
    IsLetter(c) || ('0' <= c <= '9') || c == '_'
  }

  /** ASCII lowercasing, the case folding used by `re.IGNORECASE`. */
  function Lower(c: char): (r: char)
    ensures IsLetter(c) ==> 'a' <= r <= 'z'
    ensures 'A' <= c <= 'Z' ==> r as int == c as int - 'A' as int + 'a' as int
    ensures !IsLetter(c) ==> r == c
    ensures IsWordChar(r) == IsWordChar(c)
    ensures 'a' <= c <= 'z' ==> r == c
  {
    if 'A' <= c <= 'Z' then (c as int - 'A' as int + 'a' as int) as char else c
  }

  function LowerString(s: string): (r: string)
    ensures |r| == |s|
    ensures forall k :: 0 <= k < |s| ==> r[k] == Lower(s[k])
  {
    seq(|s|, k requires 0 <= k < |s| => Lower(s[k]))
  }

  function UpperString(s: string): (r: string)
    ensures |r| == |s|
    ensures forall k :: 0 <= k < |s| ==> Lower(r[k]) == Lower(s[k])
    ensures forall k :: 0 <= k < |s| ==> !('a' <= r[k] <= 'z')
  {
    seq(|s|, k requires 0 <= k < |s| =>
      if 'a' <= s[k] <= 'z' then (s[k] as int - 'a' as int + 'A' as int) as char else s[k])
  }

  /** `a` and `b` are the same string up to letter case. */
  predicate FoldEqual(a: string, b: string) {
    |a| == |b| && forall k :: 0 <= k < |a| ==> Lower(a[k]) == Lower(b[k])
  }

  /**
   * `\b` at position `j` of `t`: exactly one of the characters on either
   * side of `j` is a word character, a position outside `t` counting as a
   * non-word character.
   */
  predicate IsBoundary(t: string, j: int) {
    var before := 0 < j <= |t| && IsWordChar(t[j - 1]);
    var after := 0 <= j < |t| && IsWordChar(t[j]);
    before != after
  }

  /** The pattern `\b p \b` matches `t` at position `i`, ignoring case. */
  predicate MatchAt(t: string, p: string, i: nat) {
    i + |p| <= |t| && IsBoundary(t, i) && FoldEqual(t[i..i + |p|], p) && IsBoundary(t, i + |p|)
  }

  /** Reference definition: `p` occurs in `t` as a whole word, ignoring case. */
  ghost predicate Occurs(t: string, p: string) {
    exists i: nat :: MatchAt(t, p, i)
  }

  /** The scan of `re.search` from position `from` on: the leftmost match, if any. */
  function SearchFrom(t: string, p: string, from: nat): (r: Option<nat>)
    ensures r.Some? ==> from <= r.value && MatchAt(t, p, r.value)
    ensures r.Some? ==> forall i: nat :: from <= i < r.value ==> !MatchAt(t, p, i)
    ensures r.None? ==> forall i: nat :: from <= i ==> !MatchAt(t, p, i)
    decreases |t| - from
  {
    if from + |p| > |t| then None
    else if MatchAt(t, p, from) then Some(from)
    else SearchFrom(t, p, from + 1)
  }

  /** `re.search`: the start of the leftmost whole-word match of `p` in `t`. */
  function Search(t: string, p: string): (r: Option<nat>)
    ensures r.Some? <==> Occurs(t, p)
    ensures r.Some? ==> MatchAt(t, p, r.value) && forall i: nat :: i < r.value ==> !MatchAt(t, p, i)
  {
    SearchFrom(t, p, 0)
  }

  /** Python's `s.startswith(prefix)`. */
  predicate StartsWith(s: string, prefix: string) {
    |prefix| <= |s| && s[..|prefix|] == prefix
  }

  /** `sub` stands in `s` at position `i`, compared exactly. */
  predicate FactorAt(s: string, sub: string, i: nat) {
    i + |sub| <= |s| && s[i..i + |sub|] == sub
  }

  /** Python's `sub in s`. */
  predicate Contains(s: string, sub: string) {
    exists i: nat | i <= |s| :: FactorAt(s, sub, i)
  }

  // ---------------------------------------------------------------------
  // Case insensitivity

  lemma {:induction false} BoundaryIgnoresCase(t: string, t': string, j: int)
    requires FoldEqual(t, t')
    ensures IsBoundary(t, j) == IsBoundary(t', j)
  {
    if 0 < j <= |t| {
      assert Lower(t[j - 1]) == Lower(t'[j - 1]);
    }
    if 0 <= j < |t| {
      assert Lower(t[j]) == Lower(t'[j]);
    }
  }

  lemma {:induction false} MatchAtIgnoresCase(t: string, t': string, p: string, p': string, i: nat)
    requires FoldEqual(t, t') && FoldEqual(p, p')
    ensures MatchAt(t, p, i) == MatchAt(t', p', i)
  {
    BoundaryIgnoresCase(t, t', i);
    BoundaryIgnoresCase(t, t', i + |p|);
    if i + |p| <= |t| {
      var w, w' := t[i..i + |p|], t'[i..i + |p|];
      forall k | 0 <= k < |p| ensures Lower(w[k]) == Lower(w'[k]) {
        assert w[k] == t[i + k] && w'[k] == t'[i + k];
      }
      assert FoldEqual(w, p) == FoldEqual(w', p');
    }
  }

  /** Changing the letter case of the text or of the phrase changes nothing. */
  lemma {:induction false} OccursIgnoresCase(t: string, t': string, p: string, p': string)
    requires FoldEqual(t, t') && FoldEqual(p, p')
    ensures Occurs(t, p) <==> Occurs(t', p')
  {
    if Occurs(t, p) {
      var i: nat :| MatchAt(t, p, i);
      MatchAtIgnoresCase(t, t', p, p', i);
    }
    if Occurs(t', p') {
      var i: nat :| MatchAt(t', p', i);
      MatchAtIgnoresCase(t, t', p, p', i);
    }
  }

  /**
   * IGNORECASE as folding: searching the lower-cased phrase in the lower-cased
   * text, or the phrase in the upper-cased text, finds the same.
   */
  lemma {:induction false} OccursFolded(t: string, p: string)
    ensures Occurs(t, p) <==> Occurs(LowerString(t), LowerString(p))
    ensures Occurs(t, p) <==> Occurs(UpperString(t), p)
  {
    assert FoldEqual(t, LowerString(t));
    assert FoldEqual(p, LowerString(p));
    assert FoldEqual(t, UpperString(t));
    assert FoldEqual(p, p);
    OccursIgnoresCase(t, LowerString(t), p, LowerString(p));
    OccursIgnoresCase(t, UpperString(t), p, p);
  }

  // ---------------------------------------------------------------------
  // What a match looks like

  /** Characters other than letters match only themselves (`re.escape`). */
  lemma {:induction false} MatchedNonLettersAreLiteral(t: string, p: string, i: nat, k: nat)
    requires MatchAt(t, p, i) && k < |p| && !IsLetter(p[k])
    ensures t[i + k] == p[k]
  {
    assert t[i..i + |p|][k] == t[i + k];
  }

  /** Letters match the same letter in either case, and nothing else. */
  lemma {:induction false} MatchedLettersAgreeUpToCase(t: string, p: string, i: nat, k: nat)
    requires MatchAt(t, p, i) && k < |p| && IsLetter(p[k])
    ensures IsLetter(t[i + k]) && Lower(t[i + k]) == Lower(p[k])
  {
    assert t[i..i + |p|][k] == t[i + k];
  }

  /** A phrase that starts with a word character never matches right after a word character. */
  lemma {:induction false} NoMatchAfterWordChar(t: string, p: string, i: nat)
    requires 0 < i <= |t| && IsWordChar(t[i - 1])
    requires |p| > 0 && IsWordChar(p[0])
    ensures !MatchAt(t, p, i)
  {
    if i + |p| <= |t| {
      assert t[i..i + |p|][0] == t[i];
    }
  }

  /** A phrase ending in a word character never matches when a word character follows. */
  lemma {:induction false} NoMatchBeforeWordChar(t: string, p: string, i: nat)
    requires i + |p| < |t| && IsWordChar(t[i + |p|])
    requires |p| > 0 && IsWordChar(p[|p| - 1])
    ensures !MatchAt(t, p, i)
  {
    assert t[i..i + |p|][|p| - 1] == t[i + |p| - 1];
  }

  /**
   * The `\b` rule, not "not next to a word character": a phrase that ends in
   * a non-word character matches only where a WORD character follows it.
   */
  lemma {:induction false} TrailingPunctuationNeedsWordAfter(t: string, p: string, i: nat)
    requires |p| > 0 && !IsWordChar(p[|p| - 1])
    requires MatchAt(t, p, i)
    ensures i + |p| < |t| && IsWordChar(t[i + |p|])
  {
    assert t[i..i + |p|][|p| - 1] == t[i + |p| - 1];
    assert Lower(t[i + |p| - 1]) == Lower(p[|p| - 1]);
  }

  /** Likewise at the front: a phrase that starts with a non-word character needs a word character before it. */
  lemma {:induction false} LeadingPunctuationNeedsWordBefore(t: string, p: string, i: nat)
    requires |p| > 0 && !IsWordChar(p[0])
    requires MatchAt(t, p, i)
    ensures 0 < i && IsWordChar(t[i - 1])
  {
    assert t[i..i + |p|][0] == t[i];
    assert Lower(t[i]) == Lower(p[0]);
  }

  /**
   * A phrase that starts and ends with word characters is found, in any
   * letter case, wherever it stands between non-word characters or the ends
   * of the text.
   */
  lemma {:induction false} OccursWhenDelimited(a: string, w: string, b: string, p: string)
    requires |p| > 0 && IsWordChar(p[0]) && IsWordChar(p[|p| - 1])
    requires FoldEqual(w, p)
    requires a == [] || !IsWordChar(a[|a| - 1])
    requires b == [] || !IsWordChar(b[0])
    ensures Occurs(a + w + b, p)
  {
    var t := a + w + b;
    var i, e := |a|, |a| + |p|;
    assert t[i..e] == w;
    assert IsWordChar(w[0]) && IsWordChar(w[|p| - 1]) by {
      assert Lower(w[0]) == Lower(p[0]) && Lower(w[|p| - 1]) == Lower(p[|p| - 1]);
    }
    assert IsBoundary(t, i) by {
      assert t[i] == w[0];
      if i > 0 {
        assert t[i - 1] == a[|a| - 1];
      }
    }
    assert IsBoundary(t, e) by {
      assert t[e - 1] == w[|p| - 1];
      if e < |t| {
        assert t[e] == b[0];
      }
    }
    assert MatchAt(t, p, i);
  }

  /** There is no `\b` in the empty string, so nothing at all occurs in it. */
  lemma {:induction false} NothingOccursInEmptyText(p: string)
    ensures !Occurs("", p)
  {
    forall i: nat ensures !MatchAt("", p, i) {
      assert !IsBoundary("", i);
    }
  }

  /** A phrase with a character that the text lacks, in either case, does not occur. */
  lemma {:induction false} MissingCharBlocks(t: string, p: string, k: nat)
    requires k < |p|
    requires forall j :: 0 <= j < |t| ==> Lower(t[j]) != Lower(p[k])
    ensures !Occurs(t, p)
  {
    forall i: nat ensures !MatchAt(t, p, i) {
      if i + |p| <= |t| {
        assert t[i..i + |p|][k] == t[i + k];
      }
    }
  }

  // ---------------------------------------------------------------------
  // Extending the text around a match

  /** A match stays a match when a non-word character and more text are appended. */
  lemma {:induction false} OccursBeforeSpace(s: string, p: string, b: string)
    requires Occurs(s, p)
    ensures Occurs(s + " " + b, p)
  {
    var i: nat :| MatchAt(s, p, i);
    var t := s + " " + b;
    assert t[..|s|] == s;
    assert t[i..i + |p|] == s[i..i + |p|];
    assert t[|s|] == ' ';
    assert IsBoundary(t, i) == IsBoundary(s, i);
    assert IsBoundary(t, i + |p|) == IsBoundary(s, i + |p|);
    assert MatchAt(t, p, i);
  }

  /** A match stays a match when more text and a non-word character are prepended. */
  lemma {:induction false} OccursAfterSpace(a: string, s: string, p: string)
    requires Occurs(s, p)
    ensures Occurs(a + " " + s, p)
  {
    var i: nat :| MatchAt(s, p, i);
    var t := a + " " + s;
    var d := |a| + 1;
    assert t[d..] == s;
    assert t[d + i..d + i + |p|] == s[i..i + |p|];
    assert t[|a|] == ' ';
    assert forall j :: 0 <= j < |s| ==> t[d + j] == s[j];
    assert IsBoundary(t, d + i) == IsBoundary(s, i);
    assert IsBoundary(t, d + i + |p|) == IsBoundary(s, i + |p|);
    assert MatchAt(t, p, d + i);
  }
}
