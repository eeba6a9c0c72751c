/**
 * The two string operations of the JavaScript runtime that the bot relies on:
 * `String.prototype.trim` (reading the cursor file) and
 * `String.prototype.replace` with a string pattern (building the reply text).
 */
module Text {
  import opened Wrappers

  /** The WhiteSpace and LineTerminator code points that ECMAScript's `trim` removes. */
  predicate IsJsWhitespace(c: char) {
    || c == '\t' || c == '\U{000B}' || c == '\U{000C}' || c == ' ' || c == '\U{00A0}' || c == '\U{FEFF}'
    || c == '\n' || c == '\r' || c == '\U{2028}' || c == '\U{2029}'
    || c == '\U{1680}' || ('\U{2000}' <= c <= '\U{200A}') || c == '\U{202F}' || c == '\U{205F}' || c == '\U{3000}'
  }

  predicate AllWhitespace(s: string) {
    forall i :: 0 <= i < |s| ==> IsJsWhitespace(s[i])
  }

  /** The index of the first non-blank at or after `from`, or `|s|` when there is none. */
  function SkipLeading(s: string, from: nat): (k: nat)
    requires from <= |s|
    decreases |s| - from
    ensures from <= k <= |s|
    ensures forall i :: from <= i < k ==> IsJsWhitespace(s[i])
    ensures k < |s| ==> !IsJsWhitespace(s[k])
  {
    if from < |s| && IsJsWhitespace(s[from]) then SkipLeading(s, from + 1) else from
  }

  /** The index just past the last non-blank in `s[lo..hi]`, or `lo` when there is none. */
  function SkipTrailing(s: string, lo: nat, hi: nat): (k: nat)
    requires lo <= hi <= |s|
    decreases hi
    ensures lo <= k <= hi
    ensures forall i :: k <= i < hi ==> IsJsWhitespace(s[i])
    ensures lo < k ==> !IsJsWhitespace(s[k - 1])
  {
    if lo < hi && IsJsWhitespace(s[hi - 1]) then SkipTrailing(s, lo, hi - 1) else hi
  }

  /**
   * `String.prototype.trim`: the result is the slice of `s` left once the
   * whitespace at both ends is removed, and it neither starts nor ends with whitespace.
   */
  function Trim(s: string): (r: string)
    ensures exists lead, trail :: s == lead + r + trail && AllWhitespace(lead) && AllWhitespace(trail)
    ensures r != [] ==> !IsJsWhitespace(r[0]) && !IsJsWhitespace(r[|r| - 1])
    ensures r == [] <==> AllWhitespace(s)
  {
    var i := SkipLeading(s, 0);
    var j := SkipTrailing(s, i, |s|);
    TrimSlice(s, i, j);
    s[i..j]
  }

  /** Cutting a string where its leading and trailing whitespace ends keeps whitespace at both ends only. */
  lemma TrimSlice(s: string, i: nat, j: nat)
    requires i <= j <= |s|
    requires forall k :: 0 <= k < i ==> IsJsWhitespace(s[k])
    requires forall k :: j <= k < |s| ==> IsJsWhitespace(s[k])
    requires i < |s| ==> !IsJsWhitespace(s[i])
    requires i < j ==> !IsJsWhitespace(s[j - 1])
    ensures var r := s[i..j];
      && (exists lead, trail :: s == lead + r + trail && AllWhitespace(lead) && AllWhitespace(trail))
      && (r != [] ==> !IsJsWhitespace(r[0]) && !IsJsWhitespace(r[|r| - 1]))
      && (r == [] <==> AllWhitespace(s))
  {
    assert s == s[..i] + s[i..j] + s[j..];
    assert AllWhitespace(s[..i]) && AllWhitespace(s[j..]);
  }

  /** A string with no whitespace at either end is left as it is by `trim`. */
  lemma TrimKeepsUnpadded(s: string)
    requires s != [] ==> !IsJsWhitespace(s[0]) && !IsJsWhitespace(s[|s| - 1])
    ensures Trim(s) == s
  {
  }

  predicate OccursAt(s: string, pat: string, i: int) {
    0 <= i && i + |pat| <= |s| && s[i..i + |pat|] == pat
  }

  /** ECMAScript's StringIndexOf: the first position at or after `from` where `pat` occurs. */
  function IndexOfFrom(s: string, pat: string, from: nat): (r: Option<nat>)
    decreases |s| - from
    ensures r.Some? ==> from <= r.value && OccursAt(s, pat, r.value)
    ensures r.Some? ==> forall j :: from <= j < r.value ==> !OccursAt(s, pat, j)
    ensures r.None? ==> forall j :: from <= j ==> !OccursAt(s, pat, j)
  {
    if from + |pat| > |s| then None
    else if s[from..from + |pat|] == pat then Some(from)
    else IndexOfFrom(s, pat, from + 1)
  }

  /** Conversely, a position where `pat` occurs with no earlier occurrence from `from` on is what the search finds. */
  lemma {:induction false} IndexOfFromFinds(s: string, pat: string, from: nat, i: nat)
    requires from <= i && OccursAt(s, pat, i)
    requires forall j :: from <= j < i ==> !OccursAt(s, pat, j)
    ensures IndexOfFrom(s, pat, from) == Some(i)
    decreases i - from
  {
    if from < i {
      assert !OccursAt(s, pat, from);
      IndexOfFromFinds(s, pat, from + 1, i);
    }
  }

  /**
   * ECMAScript's GetSubstitution for a string pattern. A string pattern has no
   * capture groups, so only `$$`, `$&`, `` $` `` and `$'` are expanded;
   * every other `$` (including `$1` and `$<`) is copied literally.
   */
  function Substitution(replacement: string, matched: string, before: string, after: string): string
    decreases |replacement|
  {
    if replacement == [] then []
    else if |replacement| >= 2 && replacement[0] == '$' && replacement[1] == '$' then
      "$" + Substitution(replacement[2..], matched, before, after)
    else if |replacement| >= 2 && replacement[0] == '$' && replacement[1] == '&' then
      matched + Substitution(replacement[2..], matched, before, after)
    else if |replacement| >= 2 && replacement[0] == '$' && replacement[1] == '`' then
      before + Substitution(replacement[2..], matched, before, after)
    else if |replacement| >= 2 && replacement[0] == '$' && replacement[1] == '\'' then
      after + Substitution(replacement[2..], matched, before, after)
    else
      [replacement[0]] + Substitution(replacement[1..], matched, before, after)
  }

  /** `s.replace(pat, replacement)` for a string `pat`: only the first occurrence is replaced. */
  function ReplaceFirst(s: string, pat: string, replacement: string): string {
    match IndexOfFrom(s, pat, 0)
    case None => s
    case Some(i) =>
      var tail := s[i + |pat|..];
      s[..i] + Substitution(replacement, pat, s[..i], tail) + tail
  }

  /** A replacement without `$` is inserted verbatim. */
  lemma {:induction false} SubstitutionOfPlainText(replacement: string, matched: string, before: string, after: string)
    requires '$' !in replacement
    ensures Substitution(replacement, matched, before, after) == replacement
  {
    if replacement != [] {
      assert replacement[0] != '$';
      assert '$' !in replacement[1..] by {
        assert forall k :: 0 <= k < |replacement[1..]| ==> replacement[1..][k] == replacement[k + 1];
      }
      SubstitutionOfPlainText(replacement[1..], matched, before, after);
      assert replacement == [replacement[0]] + replacement[1..];
    }
  }

  /** With no occurrence of `pat`, `replace` returns the string as it is. */
  lemma ReplaceAbsent(s: string, pat: string, replacement: string)
    requires IndexOfFrom(s, pat, 0).None?
    ensures ReplaceFirst(s, pat, replacement) == s
    ensures forall j :: !OccursAt(s, pat, j)
  {
  }

  /**
   * Replacing with a `$`-free text at the first occurrence `i` of `pat`:
   * `s` splits as `s[..i] + pat + s[i + |pat|..]`, `pat` occurs nowhere
   * before `i`, and the result is `s[..i] + replacement + s[i + |pat|..]`.
   */
  lemma ReplaceAtFirst(s: string, pat: string, replacement: string, i: nat)
    requires '$' !in replacement && IndexOfFrom(s, pat, 0) == Some(i)
    ensures OccursAt(s, pat, i) && s == s[..i] + pat + s[i + |pat|..]
    ensures forall j :: 0 <= j < |s[..i]| ==> !OccursAt(s, pat, j)
    ensures ReplaceFirst(s, pat, replacement) == s[..i] + replacement + s[i + |pat|..]
  {
    var before, after := s[..i], s[i + |pat|..];
    ReplaceAt(s, pat, replacement, i);
    SubstitutionOfPlainText(replacement, pat, before, after);
    SplitAt(s, pat, i);
  }

  /**
   * `replace` at the first occurrence `i`: the text before it, the
   * substitution, the text after it; one unfolding of `ReplaceFirst`, used by
   * `ReplaceAtFirst`.
   */
  lemma ReplaceAt(s: string, pat: string, replacement: string, i: nat)
    requires IndexOfFrom(s, pat, 0) == Some(i)
    ensures i + |pat| <= |s|
    ensures ReplaceFirst(s, pat, replacement)
      == s[..i] + Substitution(replacement, pat, s[..i], s[i + |pat|..]) + s[i + |pat|..]
  {
  }

  /**
   * `$&` stands for the matched text, so replacing a pattern with `"$&"`
   * leaves every string as it was, whether the pattern occurs or not.
   */
  lemma ReplaceWithMatch(s: string, pat: string)
    ensures ReplaceFirst(s, pat, "$&") == s
  {
    match IndexOfFrom(s, pat, 0)
    case None =>
    case Some(i) =>
      ReplaceAt(s, pat, "$&", i);
      var before, after := s[..i], s[i + |pat|..];
      assert Substitution("$&", pat, before, after) == pat by {
        assert "$&"[2..] == [];
      }
      SplitAt(s, pat, i);
  }

  lemma SplitAt(s: string, pat: string, i: nat)
    requires OccursAt(s, pat, i)
    ensures s == s[..i] + pat + s[i + |pat|..]
  {
    assert s == s[..i] + s[i..i + |pat|] + s[i + |pat|..];
  }
}
