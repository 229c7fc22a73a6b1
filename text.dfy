/**
 * Characters, case folding and the scanning combinators shared by every
 * pattern of the extraction engine.
 *
 * Python's `re` works on Unicode code points; this model agrees with CPython on
 * the Latin-1 range (U+0000 to U+00FF): `\d`, `\s`, `str.lower()` and
 * `re.IGNORECASE` are defined exactly there and leave every other character alone.
 */
module Text {
  import opened Wrappers

  /** `\d`: inside Latin-1 the only decimal digits are the ASCII ones. */
  predicate IsDigit(c: char) {
    '0' <= c <= '9'
  }

  /** `\s`: the characters CPython counts as whitespace, inside Latin-1. */
  predicate IsSpace(c: char) {
    ('\U{9}' <= c <= '\U{D}') || ('\U{1C}' <= c <= '\U{1F}') || c == ' ' || c == '\U{85}' || c == '\U{A0}'
  }

  /** `str.lower()` on one character: A-Z and the Latin-1 capitals U+00C0-U+00DE (but not U+00D7, the
      multiplication sign) move 32 code points down; everything else is kept. */
  function Lower(c: char): (l: char)
    ensures IsDigit(l) <==> IsDigit(c)
    ensures IsSpace(l) <==> IsSpace(c)
    ensures l in ".,:+" <==> c in ".,:+"
    ensures IsDigit(c) || IsSpace(c) || c in ".,:+" ==> l == c
  {
    if 'A' <= c <= 'Z' || ('\U{C0}' <= c <= '\U{DE}' && c != '\U{D7}') then (c as int + 32) as char else c
  }

  /** Every character of `s` is its own lower case. */
  predicate IsLowerText(s: string) {
    forall k :: 0 <= k < |s| ==> Lower(s[k]) == s[k]
  }

  /** `str.lower()` on a whole text. */
  function LowerText(s: string): (r: string)
    ensures |r| == |s|
    ensures forall k :: 0 <= k < |s| ==> r[k] == Lower(s[k])
    ensures IsLowerText(r)
  {
    seq(|s|, k requires 0 <= k < |s| => Lower(s[k]))
  }

  /** Lowering twice is lowering once. */
  lemma LowerTextIdempotent(s: string)
    ensures LowerText(LowerText(s)) == LowerText(s)
  {
  }

  /** `w` occurs at `i` in the lowered text exactly when the word `w` stands at `i` in the text. */
  lemma OccursLowerAt(t: string, w: string, i: nat)
    ensures OccursAt(LowerText(t), w, i) <==> WordAt(t, i, w)
  {
    var s := LowerText(t);
    if OccursAt(s, w, i) {
      forall k | 0 <= k < |w|
        ensures Lower(t[i + k]) == w[k]
      {
        assert s[i..i + |w|][k] == s[i + k];
      }
    }
    if WordAt(t, i, w) {
      forall k | 0 <= k < |w|
        ensures s[i..i + |w|][k] == w[k]
      {
        WordAtChar(t, i, w, k);
      }
    }
  }

  /** `in` on a lowered text is a case-insensitive search of the original text. */
  lemma ContainsLower(t: string, w: string)
    ensures Contains(LowerText(t), w) <==> exists i: nat :: WordAt(t, i, w)
  {
    if Contains(LowerText(t), w) {
      var i :| OccursAt(LowerText(t), w, i);
      OccursLowerAt(t, w, i);
    }
    if i: nat :| WordAt(t, i, w) {
      OccursLowerAt(t, w, i);
    }
  }

  /** `u` is `t` lowered, checked character by character from `i` on. */
  predicate LowersTo(t: string, u: string, i: nat)
    decreases |t| - i
  {
    |t| == |u| && (i < |t| ==> Lower(t[i]) == u[i] && LowersTo(t, u, i + 1))
  }

  /** The character-by-character check is enough to know the lowered text. */
  lemma {:induction false} LowersToText(t: string, u: string, i: nat)
    requires i <= |t| && LowersTo(t, u, i)
    ensures forall k :: i <= k < |t| ==> Lower(t[k]) == u[k]
    ensures i == 0 ==> LowerText(t) == u
    decreases |t| - i
  {
    if i < |t| {
      LowersToText(t, u, i + 1);
    }
  }

  /** One character that does not fit is enough for the word not to stand at `i`. */
  lemma NotWordAt(s: string, i: nat, w: string, k: nat)
    requires k < |w| && i + k < |s| && Lower(s[i + k]) != w[k]
    ensures !WordAt(s, i, w)
  {
  }

  /** The lower-case word `w` stands at position `i` of `s`, compared ignoring case
      (`re.IGNORECASE` against a pattern literal written in lower case). */
  predicate WordAt(s: string, i: nat, w: string) {
    i + |w| <= |s| && forall k :: 0 <= k < |w| ==> Lower(s[i + k]) == w[k]
  }

  lemma WordAtChar(s: string, i: nat, w: string, k: nat)
    requires WordAt(s, i, w) && k < |w|
    ensures Lower(s[i + k]) == w[k]
  {
  }

  /** `n` occurs verbatim in `h` at position `i`. */
  predicate OccursAt(h: string, n: string, i: nat) {
    i + |n| <= |h| && h[i..i + |n|] == n
  }

  /** Python's `n in h`: a case-sensitive substring test. */
  function Contains(h: string, n: string): (b: bool)
    ensures b <==> exists i :: OccursAt(h, n, i)
  {
    ContainsFrom(h, n, 0)
  }

  function ContainsFrom(h: string, n: string, i: nat): (b: bool)
    ensures b <==> exists q :: i <= q && OccursAt(h, n, q)
    decreases |h| - i
  {
    if i + |n| > |h| then false
    else if h[i..i + |n|] == n then assert OccursAt(h, n, i); true
    else ContainsFrom(h, n, i + 1)
  }

  /** Every character of `s[a..b]` satisfies `p`. */
  predicate AllIn(s: string, a: nat, b: nat, p: char -> bool) {
    a <= b <= |s| && forall t :: a <= t < b ==> p(s[t])
  }

  /** A greedy `p*` started at `i`: the end of the longest run of characters satisfying `p`. */
  function RunEnd(s: string, i: nat, p: char -> bool): (j: nat)
    requires i <= |s|
    ensures i <= j <= |s|
    ensures AllIn(s, i, j, p)
    ensures j == |s| || !p(s[j])
    decreases |s| - i
  {
    if i < |s| && p(s[i]) then RunEnd(s, i + 1, p) else i
  }

  /** A run of `p` that cannot be extended is the one `RunEnd` finds: a greedy star has no
      shorter alternative that ends in front of a character outside `p`. */
  lemma RunEndUnique(s: string, i: nat, j: nat, p: char -> bool)
    requires AllIn(s, i, j, p)
    requires j == |s| || !p(s[j])
    ensures RunEnd(s, i, p) == j
  {
  }

  /** `re.search`: try the start positions `from`, `from + 1`, ..., `last` in order and return the
      first one at which `at` matches, with what it matched. */
  function Leftmost<T>(from: nat, last: nat, at: nat -> Option<T>): (r: Option<(nat, T)>)
    ensures r.Some? ==> from <= r.value.0 <= last && at(r.value.0) == Some(r.value.1)
    ensures r.Some? ==> forall q :: from <= q < r.value.0 ==> at(q).None?
    ensures r.None? ==> forall q :: from <= q <= last ==> at(q).None?
    decreases last + 1 - from
  {
    if from > last then None
    else match at(from)
      case Some(v) => Some((from, v))
      case None => Leftmost(from + 1, last, at)
  }

  /** The leftmost match is determined by where `at` first succeeds. */
  lemma LeftmostAt<T>(from: nat, last: nat, at: nat -> Option<T>, p: nat, v: T)
    requires from <= p <= last && at(p) == Some(v)
    requires forall q :: from <= q < p ==> at(q).None?
    ensures Leftmost(from, last, at) == Some((p, v))
  {
  }
}
