/** The shared helpers of the refactored pipeline: the null-aware
    `IsFuzzyMatch` and `ReplacePlaceholder`, which substitutes the nearest
    player's name for every word that trims to the placeholder. */
module Utils {
  import opened Outcomes
  import opened Text
  import opened Similarity

  /** `IsFuzzyMatch(target, sample, autocompleteThreshold)`: equal arguments
      (both null included) pass, exactly one null fails, and two distinct
      strings pass exactly when they are similar. */
  method IsFuzzyMatch(target: Option<string>, sample: Option<string>, autocompleteThreshold: real) returns (b: bool)
    ensures target == sample ==> b
    ensures target != sample && (target.None? || sample.None?) ==> !b
    ensures target != sample && target.Some? && sample.Some? ==>
              (b <==> Similar(target.value, sample.value, autocompleteThreshold))
  {
    if target == sample {
      return true;
    }
    if target.None? || sample.None? {
      return false;
    }
    var s := Trim(sample.value);
    var t := Trim(target.value);
    if |t| == |s| || Max(|t|, |s|) - Min(|t|, |s|) <= 2 {
      var matches := 0;
      var i := 0;
      while i < Min(|t|, |s|)
        invariant 0 <= i <= Min(|t|, |s|)
        invariant matches == MatchCount(t, s, i)
      {
        if t[i] == s[i] {
          matches := matches + 1;
        }
        i := i + 1;
      }
      b := matches as real >= RequiredMatches(|t|, autocompleteThreshold);
    } else {
      b := false;
    }
  }

  /** Some word of `words` trims to the placeholder. */
  predicate HasPlaceholder(words: seq<string>, placeholder: string) {
    exists i :: 0 <= i < |words| && Trim(words[i]) == placeholder
  }

  /** `words` with every word that trims to the placeholder replaced by `name`. */
  function Substitute(words: seq<string>, placeholder: string, name: string): (r: seq<string>)
    ensures |r| == |words|
    ensures forall i :: 0 <= i < |words| ==> r[i] == if Trim(words[i]) == placeholder then name else words[i]
  {
    seq(|words|, i requires 0 <= i < |words| => if Trim(words[i]) == placeholder then name else words[i])
  }

  /** `ReplacePlaceholder(message, placeholder, nearestPlayer)`: with a nearest
      player, the words that trim to the placeholder become that player's name;
      without one, a placeholder raises NoPlayerNearby and a message without
      one comes back character for character. */
  method ReplacePlaceholder(message: string, placeholder: string, nearestPlayer: Option<string>) returns (r: Outcome<string>)
    ensures nearestPlayer.Some? ==> r == Ok(Join(Substitute(Split(message), placeholder, nearestPlayer.value)))
    ensures nearestPlayer.None? ==>
              r == if HasPlaceholder(Split(message), placeholder) then Fail(NoPlayerNearby) else Ok(message)
  {
    var parts := Split(message);
    var words := new string[|parts|](i requires 0 <= i < |parts| => parts[i]);
    ghost var expected := if nearestPlayer.Some? then Substitute(parts, placeholder, nearestPlayer.value) else parts;
    var i := 0;
    while i < words.Length
      invariant 0 <= i <= words.Length == |parts|
      invariant forall j :: i <= j < |parts| ==> words[j] == parts[j]
      invariant forall j :: 0 <= j < i ==> words[j] == expected[j]
      invariant nearestPlayer.None? ==> !HasPlaceholder(parts[..i], placeholder)
    {
      var word := words[i];
      assert word == parts[i];
      if Trim(word) == placeholder {
        if nearestPlayer.Some? {
          words[i] := nearestPlayer.value;
        } else {
          return Fail(NoPlayerNearby);
        }
      } else if nearestPlayer.None? {
        assert parts[..i + 1] == parts[..i] + [parts[i]];
      }
      i := i + 1;
    }
    assert words[..] == expected;
    if nearestPlayer.None? {
      assert parts[..i] == parts;
      JoinSplit(message);
    }
    r := Ok(Join(words[..]));
  }

  /** When the nearest player's name holds no space, the substituted message
      has as many words as the original; each word that trimmed to the
      placeholder is now the name and every other word is unchanged. */
  lemma {:induction false} ReplacedWords(message: string, placeholder: string, name: string)
    requires ' ' !in name
    ensures var before, after := Split(message), Split(Join(Substitute(Split(message), placeholder, name)));
            |after| == |before| &&
            forall i :: 0 <= i < |before| ==> after[i] == if Trim(before[i]) == placeholder then name else before[i]
  {
    var before := Split(message);
    var words := Substitute(before, placeholder, name);
    forall i | 0 <= i < |words| ensures ' ' !in words[i] {
      assert words[i] == name || words[i] == before[i];
    }
    SplitJoin(words);
  }

  /** A message with no placeholder survives substitution character for
      character, empty words between consecutive spaces included. */
  lemma {:induction false} NoPlaceholderRoundTrip(message: string, placeholder: string, name: string)
    requires !HasPlaceholder(Split(message), placeholder)
    ensures Join(Substitute(Split(message), placeholder, name)) == message
  {
    assert Substitute(Split(message), placeholder, name) == Split(message);
    JoinSplit(message);
  }
}
