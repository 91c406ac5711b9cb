/** The positional (Hamming-style) similarity test shared by both
    `IsFuzzyMatch` implementations: trim both words, require their lengths to
    differ by at most two, count the equal characters at equal indices and
    compare that count with the target's length times the threshold. */
module Similarity {
  import opened Text

  function Min(a: int, b: int): int { if a < b then a else b }

  function Max(a: int, b: int): int { if a < b then b else a }

  /** The number of indices below `n` at which `t` and `s` hold the same character. */
  function MatchCount(t: string, s: string, n: nat): (r: nat)
    requires n <= |t| && n <= |s|
    ensures r <= n
  {
    if n == 0 then 0
    else MatchCount(t, s, n - 1) + (if t[n - 1] == s[n - 1] then 1 else 0)
  }

  /** The indices below `n` at which `t` and `s` agree. */
  function EqualIndices(t: string, s: string, n: nat): set<nat>
    requires n <= |t| && n <= |s|
  {
    set i: nat | i < n && t[i] == s[i]
  }

  /** The match count is the number of agreeing indices, so it never exceeds
      the shorter of the two words. */
  lemma {:induction false} MatchCountCountsEqualIndices(t: string, s: string, n: nat)
    requires n <= |t| && n <= |s|
    ensures MatchCount(t, s, n) == |EqualIndices(t, s, n)|
    ensures MatchCount(t, s, n) <= Min(|t|, |s|)
  {
    if n > 0 {
      MatchCountCountsEqualIndices(t, s, n - 1);
      var before, after := EqualIndices(t, s, n - 1), EqualIndices(t, s, n);
      if t[n - 1] == s[n - 1] {
        assert n - 1 !in before;
        assert after == before + {n - 1} by {
          forall i | i in after ensures i in before + {n - 1} {
            if i != n - 1 { assert i < n - 1; }
          }
        }
        assert |after| == |before| + 1;
      } else {
        assert after == before by {
          forall i | i in after ensures i in before {
            assert i != n - 1;
          }
        }
      }
    }
  }

  /** The length window: equal lengths, or lengths at most two apart. */
  predicate LengthsClose(a: nat, b: nat) {
    a == b || Max(a, b) - Min(a, b) <= 2
  }

  /** `target.Length * autocompleteThreshold`: how many positions must agree. */
  function RequiredMatches(targetLength: nat, threshold: real): real {
    targetLength as real * threshold
  }

  /** The similarity test of `IsFuzzyMatch` on two non-null strings. */
  predicate Similar(target: string, sample: string, threshold: real) {
    var t, s := Trim(target), Trim(sample);
    LengthsClose(|t|, |s|) && MatchCount(t, s, Min(|t|, |s|)) as real >= RequiredMatches(|t|, threshold)
  }

  /** Trimmed lengths more than two apart never pass, whatever the threshold. */
  lemma {:induction false} FarLengthsNeverSimilar(target: string, sample: string, threshold: real)
    requires |Trim(target)| > |Trim(sample)| + 2 || |Trim(sample)| > |Trim(target)| + 2
    ensures !Similar(target, sample, threshold)
  {
  }

  /** Lowering the threshold never turns a pass into a fail. */
  lemma {:induction false} SimilarMonotoneInThreshold(target: string, sample: string, lower: real, higher: real)
    requires lower <= higher && Similar(target, sample, higher)
    ensures Similar(target, sample, lower)
  {
    RequiredMatchesMonotone(|Trim(target)|, lower, higher);
  }

  lemma RequiredMatchesMonotone(len: nat, lower: real, higher: real)
    requires lower <= higher
    ensures RequiredMatches(len, lower) <= RequiredMatches(len, higher)
  {
    var x := len as real;
    assert x * higher - x * lower == x * (higher - lower);
  }

  lemma {:induction false} MatchCountSelf(t: string, n: nat)
    requires n <= |t|
    ensures MatchCount(t, t, n) == n
  {
    if n > 0 {
      MatchCountSelf(t, n - 1);
    }
  }

  /** A word is similar to itself for every threshold up to 1. */
  lemma {:induction false} SimilarReflexive(word: string, threshold: real)
    requires threshold <= 1.0
    ensures Similar(word, word, threshold)
  {
    var t := Trim(word);
    MatchCountSelf(t, |t|);
    RequiredMatchesMonotone(|t|, threshold, 1.0);
  }

  /** The test is positional, not an edit distance: dropping one letter of
      "player" shifts every later letter out of place, two of six positions
      still agree, and 2 < 6 * 0.7. */
  lemma {:induction false} DroppedLetterIsNotSimilar()
    ensures !Similar("player", "plyer", 0.7)
  {
    assert Trim("player") == "player";
    assert Trim("plyer") == "plyer";
    assert MatchCount("player", "plyer", 5) == 2;
  }
}
