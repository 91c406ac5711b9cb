/** The inline pipeline of the mod class: `IsFuzzyMatch`, the per-word
    `AutocompleteOrAutocorrect` with the placeholder "@p" written into it, and
    the per-phrase `AutocompleteOrAutocorrectPhrase`, which catches every
    exception and then hands back the phrase it was given. */
module ModClass {
  import opened Outcomes
  import opened Text
  import opened Similarity
  import opened Roster
  import opened Configuration

  /** `IsFuzzyMatch(config, target, sample)`: trims both words and counts the
      positions at which they agree. */
  method IsFuzzyMatch(config: CandidEmotionsConfig, target: string, sample: string) returns (b: bool)
    ensures b == Similar(target, sample, config.autocompleteThreshold)
  {
    var s := Trim(sample);
    var t := Trim(target);
    if |t| == |s| || Max(|t|, |s|) - Min(|t|, |s|) <= 2 {
      var matches := 0;
      var i := 0;
      while i < Min(|t|, |s|)
        invariant 0 <= i <= Min(|t|, |s|)
        invariant matches == MatchCount(t, s, i)
      {
        if t[i] == s[i] {
          matches := matches + 1;
        }
        i := i + 1;
      }
      b := matches as real >= RequiredMatches(|t|, config.autocompleteThreshold);
    } else {
      b := false;
    }
  }

  /** `AutocompleteOrAutocorrect`: both searches run first (fuzzy, then
      prefix), then "@p" takes the nearest player's name, else the prefix
      candidate wins, else the fuzzy candidate, else the word is kept. An
      exception is rethrown when `throwExceptions` holds; otherwise the word
      is returned as it came in. */
  function AutocompleteOrAutocorrect(config: CandidEmotionsConfig, nearestPlayer: Option<string>,
                                     allPlayers: seq<Entry>, word: string, throwExceptions: bool): (r: Outcome<string>)
    ensures r.Ok? ==> r.value == word || Some(r.value) == nearestPlayer || Player(r.value) in allPlayers
    ensures r.Fail? ==> throwExceptions
    ensures !config.autocomplete && !config.autocorrect && word != "@p" ==> r == Ok(word)
  {
    var approxPlayerMatch :=
      if config.autocorrect then FirstOrDefault(allPlayers, Fuzzy(word, config.autocompleteThreshold)) else NotFound;
    var playerMatch :=
      if config.autocomplete then FirstOrDefault(allPlayers, Prefix(word, config.minimumCompleteLength)) else NotFound;
    var outcome :=
      if approxPlayerMatch.Threw? || playerMatch.Threw? then Fail(NullReference)
      else if word == "@p" then
        (if nearestPlayer.None? then Fail(NoPlayerNearby) else Ok(nearestPlayer.value))
      else if config.autocomplete && playerMatch.Found? then Ok(playerMatch.name)
      else if config.autocorrect && approxPlayerMatch.Found? then Ok(approxPlayerMatch.name)
      else Ok(word);
    if outcome.Fail? && !throwExceptions then Ok(word) else outcome
  }

  /** With `throwExceptions` off the word function never raises: where the
      rethrowing call raises, the word comes back as it came in, and
      elsewhere both calls agree. */
  lemma SwallowedWordIsKept(config: CandidEmotionsConfig, nearestPlayer: Option<string>,
                            allPlayers: seq<Entry>, word: string)
    ensures var thrown := AutocompleteOrAutocorrect(config, nearestPlayer, allPlayers, word, true);
            AutocompleteOrAutocorrect(config, nearestPlayer, allPlayers, word, false)
              == if thrown.Fail? then Ok(word) else thrown
  {
  }

  /** The word function as the phrase loop calls it (exceptions rethrown). */
  function InlineStep(config: CandidEmotionsConfig, nearestPlayer: Option<string>, allPlayers: seq<Entry>):
    string -> Outcome<string>
  {
    word => AutocompleteOrAutocorrect(config, nearestPlayer, allPlayers, word, true)
  }

  /** What `AutocompleteOrAutocorrectPhrase` returns: the resolved words
      joined with " " when every word resolves, the phrase itself otherwise. */
  function ResolvedPhrase(config: CandidEmotionsConfig, nearestPlayer: Option<string>,
                          allPlayers: seq<Entry>, fullPhrase: string): string
  {
    match Traverse(Split(fullPhrase), InlineStep(config, nearestPlayer, allPlayers))
    case Ok(words) => Join(words)
    case Fail(_) => fullPhrase
  }

  /** `AutocompleteOrAutocorrectPhrase`: splits on ' ', overwrites each word
      with its resolution, joins with " "; any exception makes it return the
      phrase it was given. */
  method AutocompleteOrAutocorrectPhrase(config: CandidEmotionsConfig, nearestPlayer: Option<string>,
                                         allPlayers: seq<Entry>, fullPhrase: string) returns (r: string)
    ensures r == ResolvedPhrase(config, nearestPlayer, allPlayers, fullPhrase)
  {
    var parts := Split(fullPhrase);
    var words := new string[|parts|](i requires 0 <= i < |parts| => parts[i]);
    assert words[..] == parts;
    ghost var step := InlineStep(config, nearestPlayer, allPlayers);
    var i := 0;
    while i < words.Length
      invariant 0 <= i <= words.Length == |parts|
      invariant forall j :: i <= j < |parts| ==> words[j] == parts[j]
      invariant Traverse(parts[..i], step) == Ok(words[..i])
    {
      assert words[i] == parts[i];
      var w := AutocompleteOrAutocorrect(config, nearestPlayer, allPlayers, words[i], true);
      assert step(parts[i]) == w;
      if w.Fail? {
        TraverseStopsAt(parts, step, i, words[..i]);
        return fullPhrase;
      }
      ghost var done := words[..i];
      TraverseExtends(parts, step, i, done, w.value);
      words[i] := w.value;
      assert words[..i + 1] == done + [w.value];
      i := i + 1;
    }
    assert parts[..i] == parts && words[..i] == words[..];
    assert Traverse(parts, step) == Ok(words[..]);
    r := Join(words[..]);
  }

  /** "@p" overrides both searches: when neither enabled search throws, it
      becomes the nearest player's name, or raises NoPlayerNearby when there
      is none, whatever candidates the searches found. */
  lemma PlaceholderOverrides(config: CandidEmotionsConfig, nearestPlayer: Option<string>, allPlayers: seq<Entry>)
    requires !config.autocorrect || FirstOrDefault(allPlayers, Fuzzy("@p", config.autocompleteThreshold)) != Threw
    requires !config.autocomplete || FirstOrDefault(allPlayers, Prefix("@p", config.minimumCompleteLength)) != Threw
    ensures AutocompleteOrAutocorrect(config, nearestPlayer, allPlayers, "@p", true)
            == if nearestPlayer.Some? then Ok(nearestPlayer.value) else Fail(NoPlayerNearby)
  {
  }

  /** With autocomplete on, the first player in roster order whose name the
      word is a prefix of wins over any fuzzy candidate, as long as the fuzzy
      search (which runs first) does not throw. */
  lemma PrefixBeatsFuzzy(config: CandidEmotionsConfig, nearestPlayer: Option<string>,
                         allPlayers: seq<Entry>, word: string, k: nat)
    requires word != "@p" && config.autocomplete
    requires !config.autocorrect || FirstOrDefault(allPlayers, Fuzzy(word, config.autocompleteThreshold)) != Threw
    requires k < |allPlayers| && RejectedBefore(allPlayers, Prefix(word, config.minimumCompleteLength), k)
    requires allPlayers[k].Player? && Accepts(Prefix(word, config.minimumCompleteLength), allPlayers[k].name)
    ensures AutocompleteOrAutocorrect(config, nearestPlayer, allPlayers, word, true) == Ok(allPlayers[k].name)
  {
    FoundAtFirstAccepted(allPlayers, Prefix(word, config.minimumCompleteLength), k);
  }

  /** With no prefix candidate (or autocomplete off) and autocorrect on, the
      first player in roster order that passes the fuzzy test is used. */
  lemma FuzzyWhenNoPrefix(config: CandidEmotionsConfig, nearestPlayer: Option<string>,
                          allPlayers: seq<Entry>, word: string, k: nat)
    requires word != "@p" && config.autocorrect
    requires !config.autocomplete ||
             RejectedBefore(allPlayers, Prefix(word, config.minimumCompleteLength), |allPlayers|)
    requires k < |allPlayers| && RejectedBefore(allPlayers, Fuzzy(word, config.autocompleteThreshold), k)
    requires allPlayers[k].Player? && Accepts(Fuzzy(word, config.autocompleteThreshold), allPlayers[k].name)
    ensures AutocompleteOrAutocorrect(config, nearestPlayer, allPlayers, word, true) == Ok(allPlayers[k].name)
  {
    FoundAtFirstAccepted(allPlayers, Fuzzy(word, config.autocompleteThreshold), k);
    NotFoundIffAllRejected(allPlayers, Prefix(word, config.minimumCompleteLength));
  }

  /** A word other than "@p" with no candidate from any enabled search is
      kept; with both searches off this holds for every roster. */
  lemma NoCandidateKeepsWord(config: CandidEmotionsConfig, nearestPlayer: Option<string>,
                             allPlayers: seq<Entry>, word: string)
    requires word != "@p"
    requires !config.autocomplete ||
             RejectedBefore(allPlayers, Prefix(word, config.minimumCompleteLength), |allPlayers|)
    requires !config.autocorrect ||
             RejectedBefore(allPlayers, Fuzzy(word, config.autocompleteThreshold), |allPlayers|)
    ensures AutocompleteOrAutocorrect(config, nearestPlayer, allPlayers, word, true) == Ok(word)
  {
    NotFoundIffAllRejected(allPlayers, Prefix(word, config.minimumCompleteLength));
    NotFoundIffAllRejected(allPlayers, Fuzzy(word, config.autocompleteThreshold));
  }

  /** A null entry (or nameless player) reached by the fuzzy search before any
      match makes the word raise, even when the word is "@p". */
  lemma MalformedEntryRaises(config: CandidEmotionsConfig, nearestPlayer: Option<string>,
                             allPlayers: seq<Entry>, word: string, k: nat)
    requires config.autocorrect
    requires k < |allPlayers| && !allPlayers[k].Player?
    requires RejectedBefore(allPlayers, Fuzzy(word, config.autocompleteThreshold), k)
    ensures AutocompleteOrAutocorrect(config, nearestPlayer, allPlayers, word, true) == Fail(NullReference)
  {
    ThrowsAtFirstMalformed(allPlayers, Fuzzy(word, config.autocompleteThreshold), k);
  }

  /** When every word resolves, the phrase keeps its number and order of
      words and word i of the result is the resolution of word i. */
  lemma {:induction false} PhraseTokenwise(config: CandidEmotionsConfig, nearestPlayer: Option<string>,
                                           allPlayers: seq<Entry>, fullPhrase: string)
    requires SpaceFreeNames(allPlayers) && (nearestPlayer.Some? ==> ' ' !in nearestPlayer.value)
    requires forall i :: 0 <= i < |Split(fullPhrase)| ==>
               AutocompleteOrAutocorrect(config, nearestPlayer, allPlayers, Split(fullPhrase)[i], true).Ok?
    ensures var tokens, resolved := Split(fullPhrase), Split(ResolvedPhrase(config, nearestPlayer, allPlayers, fullPhrase));
            |resolved| == |tokens| &&
            forall i :: 0 <= i < |tokens| ==>
              resolved[i] == AutocompleteOrAutocorrect(config, nearestPlayer, allPlayers, tokens[i], true).value
  {
    var tokens := Split(fullPhrase);
    var step := InlineStep(config, nearestPlayer, allPlayers);
    TraverseOk(tokens, step);
    var words := Traverse(tokens, step).value;
    forall i | 0 <= i < |words| ensures ' ' !in words[i] {
      var o := AutocompleteOrAutocorrect(config, nearestPlayer, allPlayers, tokens[i], true);
      assert words[i] == o.value;
      if Player(o.value) in allPlayers {
        assert Player(o.value).Player?;
      }
    }
    SplitJoin(words);
  }

  /** If any word raises, the phrase comes back exactly as it was given: no
      partial substitution. */
  lemma {:induction false} PhraseAllOrNothing(config: CandidEmotionsConfig, nearestPlayer: Option<string>,
                                              allPlayers: seq<Entry>, fullPhrase: string, k: nat)
    requires k < |Split(fullPhrase)|
    requires AutocompleteOrAutocorrect(config, nearestPlayer, allPlayers, Split(fullPhrase)[k], true).Fail?
    ensures ResolvedPhrase(config, nearestPlayer, allPlayers, fullPhrase) == fullPhrase
  {
    TraverseOk(Split(fullPhrase), InlineStep(config, nearestPlayer, allPlayers));
  }

  /** As written: "@p" with nobody nearby does not reach the callers as
      NoPlayerNearby; the phrase is handed back unchanged as if it had resolved. */
  lemma {:induction false} SwallowsNoPlayerNearby(config: CandidEmotionsConfig, allPlayers: seq<Entry>,
                                                  fullPhrase: string, k: nat)
    requires k < |Split(fullPhrase)| && Split(fullPhrase)[k] == "@p"
    ensures ResolvedPhrase(config, None, allPlayers, fullPhrase) == fullPhrase
  {
    PhraseAllOrNothing(config, None, allPlayers, fullPhrase, k);
  }

  /** The phrase resolution the callers are written against: NoPlayerNearby
      propagates, every other exception still yields the phrase unchanged. */
  function CorrectedPhrase(config: CandidEmotionsConfig, nearestPlayer: Option<string>,
                           allPlayers: seq<Entry>, fullPhrase: string): (r: Outcome<string>)
    ensures r.Ok? ==> r.value == ResolvedPhrase(config, nearestPlayer, allPlayers, fullPhrase)
    ensures r.Fail? ==> r.error == NoPlayerNearby
  {
    match Traverse(Split(fullPhrase), InlineStep(config, nearestPlayer, allPlayers))
    case Ok(words) => Ok(Join(words))
    case Fail(NoPlayerNearby) => Fail(NoPlayerNearby)
    case Fail(_) => Ok(fullPhrase)
  }

  /** With the fix, a phrase holding "@p" with nobody nearby raises
      NoPlayerNearby (on a roster of named players). */
  lemma {:induction false} CorrectedPhraseReportsNoPlayer(config: CandidEmotionsConfig, allPlayers: seq<Entry>,
                                                          fullPhrase: string, k: nat)
    requires WellFormed(allPlayers)
    requires k < |Split(fullPhrase)| && Split(fullPhrase)[k] == "@p"
    requires forall j :: 0 <= j < k ==> Split(fullPhrase)[j] != "@p"
    ensures CorrectedPhrase(config, None, allPlayers, fullPhrase) == Fail(NoPlayerNearby)
  {
    var tokens := Split(fullPhrase);
    var step := InlineStep(config, None, allPlayers);
    forall j | 0 <= j < |tokens| ensures step(tokens[j]).Ok? || tokens[j] == "@p" {
      WellFormedNeverThrows(allPlayers, Fuzzy(tokens[j], config.autocompleteThreshold));
      WellFormedNeverThrows(allPlayers, Prefix(tokens[j], config.minimumCompleteLength));
    }
    WellFormedNeverThrows(allPlayers, Fuzzy("@p", config.autocompleteThreshold));
    WellFormedNeverThrows(allPlayers, Prefix("@p", config.minimumCompleteLength));
    PlaceholderOverrides(config, None, allPlayers);
    TraverseFailsAt(tokens, step, k);
  }
}
