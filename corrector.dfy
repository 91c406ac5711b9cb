/** The refactored pipeline's `AutoCorrector`: it keeps the configuration and
    the last roster it was refreshed with, drops null players from that roster,
    completes or corrects each word of a phrase, and turns any exception into
    a wrapped failure instead of handing the phrase back. */
module Corrector {
  import opened Outcomes
  import opened Text
  import opened Roster
  import opened Configuration
  import opened Similarity
  import ModClass

  /** The roster after `playerList.Where(p => p != null)`; a missing roster stays missing. */
  function Filtered(playerList: Option<seq<Entry>>): Option<seq<Entry>> {
    match playerList
    case None => None
    case Some(players) => Some(NonNull(players))
  }

  /** What `ProcessWord` returns for `word` when the roster field holds
      `playerList`: the word itself before any refresh; otherwise the prefix
      candidate, else the fuzzy candidate, else the word, searching the roster
      without its null players. */
  function CorrectWord(config: CandidEmotionsConfig, playerList: Option<seq<Entry>>, word: string): (r: Outcome<string>)
    ensures playerList.None? ==> r == Ok(word)
    ensures r.Ok? ==> r.value == word || (playerList.Some? && Player(r.value) in playerList.value)
    ensures r.Fail? ==> r.error == NullReference
    ensures !config.autocomplete && !config.autocorrect ==> r == Ok(word)
  {
    match playerList
    case None => Ok(word)
    case Some(list) =>
      var players := NonNull(list);
      var playerMatch :=
        if config.autocomplete then FirstOrDefault(players, Prefix(word, config.minimumCompleteLength)) else NotFound;
      var approxPlayerMatch :=
        if config.autocorrect then FirstOrDefault(players, Fuzzy(word, config.autocompleteThreshold)) else NotFound;
      if playerMatch.Threw? || approxPlayerMatch.Threw? then Fail(NullReference)
      else if config.autocomplete && playerMatch.Found? then Ok(playerMatch.name)
      else if config.autocorrect && approxPlayerMatch.Found? then Ok(approxPlayerMatch.name)
      else Ok(word)
  }

  /** The word function as `Process` calls it. */
  function CorrectStep(config: CandidEmotionsConfig, playerList: Option<seq<Entry>>): string -> Outcome<string> {
    word => CorrectWord(config, playerList, word)
  }

  /** What `Process` returns: the corrected words joined with " ", or the
      failure of the first word that raised, NoPlayerNearby as it is and any
      other exception wrapped. */
  function ProcessedPhrase(config: CandidEmotionsConfig, playerList: Option<seq<Entry>>, fullPhrase: string): Outcome<string> {
    match Traverse(Split(fullPhrase), CorrectStep(config, playerList))
    case Ok(words) => Ok(Join(words))
    case Fail(NoPlayerNearby) => Fail(NoPlayerNearby)
    case Fail(e) => Fail(Wrapped(e))
  }

  class AutoCorrector {
    const config: CandidEmotionsConfig
    var playerList: Option<seq<Entry>>

    constructor (config: CandidEmotionsConfig)
      ensures this.config == config && playerList == None
    {
      this.config := config;
      playerList := None;
    }

    /** `Refresh`: takes the host's current player array as the roster. */
    method Refresh(allPlayers: seq<Entry>)
      modifies this
      ensures playerList == Some(allPlayers)
    {
      playerList := Some(allPlayers);
    }

    /** `ProcessWord`: replaces the roster by its non-null players, then
      runs the prefix search and the fuzzy search and picks a candidate.
      `nearestPlayer` and `throwExceptions` are accepted and not used. */
    method ProcessWord(word: string, nearestPlayer: Option<string>, throwExceptions: bool) returns (r: Outcome<string>)
      modifies this
      ensures playerList == Filtered(old(playerList))
      ensures r == CorrectWord(config, old(playerList), word)
    {
      if playerList.None? {
        return Ok(word);
      }
      playerList := Some(NonNull(playerList.value));
      var players := playerList.value;
      var playerMatch := NotFound;
      var approxPlayerMatch := NotFound;
      if config.autocomplete {
        playerMatch := FirstOrDefault(players, Prefix(word, config.minimumCompleteLength));
        if playerMatch.Threw? {
          return Fail(NullReference);
        }
      }
      if config.autocorrect {
        approxPlayerMatch := FirstOrDefault(players, Fuzzy(word, config.autocompleteThreshold));
        if approxPlayerMatch.Threw? {
          return Fail(NullReference);
        }
      }
      var result := word;
      if config.autocomplete && playerMatch.Found? {
        result := playerMatch.name;
      } else if config.autocorrect && approxPlayerMatch.Found? {
        result := approxPlayerMatch.name;
      }
      r := Ok(result);
    }

    /** `Process`: splits on ' ', overwrites each word with `ProcessWord`'s
      result, joins with " "; NoPlayerNearby is rethrown and any other
      exception is wrapped. */
    method Process(fullPhrase: string, nearestPlayer: Option<string>) returns (r: Outcome<string>)
      modifies this
      ensures playerList == Filtered(old(playerList))
      ensures r == ProcessedPhrase(config, old(playerList), fullPhrase)
    {
      var parts := Split(fullPhrase);
      var words := new string[|parts|](i requires 0 <= i < |parts| => parts[i]);
      ghost var step := CorrectStep(config, old(playerList));
      var i := 0;
      while i < words.Length
        invariant 0 <= i <= words.Length == |parts|
        invariant playerList == if i == 0 then old(playerList) else Filtered(old(playerList))
        invariant forall j :: i <= j < |parts| ==> words[j] == parts[j]
        invariant Traverse(parts[..i], step) == Ok(words[..i])
      {
        assert words[i] == parts[i];
        FilteredIdempotent(old(playerList));
        CorrectWordIgnoresFilter(config, old(playerList), parts[i]);
        var w := ProcessWord(words[i], nearestPlayer, true);
        assert step(parts[i]) == w;
        if w.Fail? {
          TraverseStopsAt(parts, step, i, words[..i]);
          r := Fail(if w.error == NoPlayerNearby then NoPlayerNearby else Wrapped(w.error));
          return;
        }
        ghost var done := words[..i];
        TraverseExtends(parts, step, i, done, w.value);
        words[i] := w.value;
        assert words[..i + 1] == done + [w.value];
        i := i + 1;
      }
      assert parts[..i] == parts && words[..i] == words[..];
      r := Ok(Join(words[..]));
    }
  }

  /** Filtering an already filtered roster changes nothing. */
  lemma FilteredIdempotent(playerList: Option<seq<Entry>>)
    ensures Filtered(Filtered(playerList)) == Filtered(playerList)
  {
    if playerList.Some? {
      NonNullKeepsNonNull(NonNull(playerList.value));
    }
  }

  /** Null players never influence a word: the roster with or without them gives the same result. */
  lemma CorrectWordIgnoresFilter(config: CandidEmotionsConfig, playerList: Option<seq<Entry>>, word: string)
    ensures CorrectWord(config, Filtered(playerList), word) == CorrectWord(config, playerList, word)
  {
    FilteredIdempotent(playerList);
  }

  /** On every word other than "@p", `ProcessWord` on a refreshed roster is the
      inline word function applied to that roster without its null players:
      the same first-in-roster-order prefix and fuzzy searches, the prefix
      candidate first, the same exceptions. */
  lemma AgreesWithInline(config: CandidEmotionsConfig, nearestPlayer: Option<string>, allPlayers: seq<Entry>, word: string)
    requires word != "@p"
    ensures CorrectWord(config, Some(allPlayers), word)
            == ModClass.AutocompleteOrAutocorrect(config, nearestPlayer, NonNull(allPlayers), word, true)
  {
  }

  /** Null players cannot make a word fail here (they do in the inline
      version); only a player without a name can. */
  lemma {:induction false} OnlyNamelessPlayersFail(config: CandidEmotionsConfig, allPlayers: seq<Entry>, word: string)
    requires NamelessPlayer !in allPlayers
    ensures CorrectWord(config, Some(allPlayers), word).Ok?
  {
    var players := NonNull(allPlayers);
    assert WellFormed(players) by {
      forall j | 0 <= j < |players| ensures players[j].Player? {
        assert players[j] in players;
      }
    }
    WellFormedNeverThrows(players, Prefix(word, config.minimumCompleteLength));
    WellFormedNeverThrows(players, Fuzzy(word, config.autocompleteThreshold));
    var playerMatch :=
      if config.autocomplete then FirstOrDefault(players, Prefix(word, config.minimumCompleteLength)) else NotFound;
    var approxPlayerMatch :=
      if config.autocorrect then FirstOrDefault(players, Fuzzy(word, config.autocompleteThreshold)) else NotFound;
    assert !playerMatch.Threw? && !approxPlayerMatch.Threw?;
  }

  /** A word no longer than `minimumCompleteLength` is only ever prefix-completed
      to a name shorter than `minimumCompleteLength`. */
  lemma {:induction false} ShortWordCompletesShortName(config: CandidEmotionsConfig, allPlayers: seq<Entry>, word: string)
    requires config.autocomplete && |word| <= config.minimumCompleteLength && NamelessPlayer !in allPlayers
    requires FirstOrDefault(NonNull(allPlayers), Prefix(word, config.minimumCompleteLength)).Found?
    ensures CorrectWord(config, Some(allPlayers), word).Ok?
    ensures |CorrectWord(config, Some(allPlayers), word).value| < config.minimumCompleteLength
  {
    OnlyNamelessPlayersFail(config, allPlayers, word);
    var found := FirstOrDefault(NonNull(allPlayers), Prefix(word, config.minimumCompleteLength));
    assert Accepts(Prefix(word, config.minimumCompleteLength), found.name);
    assert CorrectWord(config, Some(allPlayers), word) == Ok(found.name);
  }

  /** With the default settings and a single player "Helloworld", the query
      "hel" is left alone: a word as long as `minimumCompleteLength` still
      counts as too short to complete a long name, and it is too far in length
      to correct to it. */
  lemma {:induction false} ShortQueryIsKept(players: seq<Entry>, word: string)
    requires players == [Player("Helloworld")] && word == "hel"
    ensures CorrectWord(Defaults, Some(players), word) == Ok(word)
  {
    NonNullKeepsNonNull(players);
    var name := "Helloworld";
    assert players[0].name == name && players[1..] == [];
    assert !Accepts(Prefix(word, 3), name);
    assert FirstOrDefault(players, Prefix(word, 3)) == NotFound;
    var target, sample := ToLower(name), ToLower(word);
    assert |target| == 10 && target[0] == 'h' && target[9] == 'd';
    assert |Trim(target)| > |Trim(sample)| + 2 by {
      TrimProperties(target);
      TrimProperties(sample);
    }
    FarLengthsNeverSimilar(target, sample, 0.7);
    assert target != sample;
    assert !Accepts(Fuzzy(word, 0.7), name);
    assert FirstOrDefault(players, Fuzzy(word, 0.7)) == NotFound;
  }

  /** With the default settings and a single player "Helloworld", the query
      "hell", one character past the minimum, is completed to the player's
      name in its own casing. */
  lemma {:induction false} LongerQueryIsCompleted(players: seq<Entry>, word: string)
    requires players == [Player("Helloworld")] && word == "hell"
    ensures CorrectWord(Defaults, Some(players), word) == Ok("Helloworld")
  {
    NonNullKeepsNonNull(players);
    assert ToLower("Helloworld") == "helloworld" && ToLower("hell") == "hell";
    assert "helloworld"[..4] == "hell";
    assert Accepts(Prefix("hell", 3), "Helloworld");
    assert FirstOrDefault(players, Prefix("hell", 3)) == Found("Helloworld");
    WellFormedNeverThrows(players, Fuzzy("hell", 0.7));
  }

  /** An empty word (two spaces in a row) is completed to the first roster
      name shorter than `minimumCompleteLength`, because every name starts
      with the empty string. */
  lemma {:induction false} EmptyWordCompletesToShortName(config: CandidEmotionsConfig, allPlayers: seq<Entry>, k: nat)
    requires config.autocomplete && NamelessPlayer !in allPlayers
    requires k < |NonNull(allPlayers)| && |NonNull(allPlayers)[k].name| < config.minimumCompleteLength
    requires forall j :: 0 <= j < k ==> |NonNull(allPlayers)[j].name| >= config.minimumCompleteLength
    ensures CorrectWord(config, Some(allPlayers), "") == Ok(NonNull(allPlayers)[k].name)
  {
    var players := NonNull(allPlayers);
    var c := Prefix("", config.minimumCompleteLength);
    assert WellFormed(players) by {
      forall j | 0 <= j < |players| ensures players[j].Player? {
        assert players[j] in players;
      }
    }
    assert players[k].Player?;
    assert ToLower("") == "";
    assert Accepts(c, players[k].name);
    FoundAtFirstAccepted(players, c, k);
    OnlyNamelessPlayersFail(config, allPlayers, "");
  }

  /** A single lower-case letter other than 'a' does not start "Al". */
  lemma LetterIsNoPrefixOfAl(w: string)
    requires |w| == 1 && 'b' <= w[0] <= 'z'
    ensures !Accepts(Prefix(w, 3), "Al")
  {
    var target, sample := ToLower("Al"), ToLower(w);
    assert target[0] == 'a' && sample[0] == w[0];
    assert !StartsWith(target, sample);
  }

  /** A single lower-case letter other than 'a' is not similar to "Al". */
  lemma LetterIsNotSimilarToAl(w: string)
    requires |w| == 1 && 'b' <= w[0] <= 'z'
    ensures !Accepts(Fuzzy(w, 0.7), "Al")
  {
    var target, sample := ToLower("Al"), ToLower(w);
    assert |target| == 2 && target[0] == 'a' && target[1] == 'l';
    assert |sample| == 1 && sample[0] == w[0];
    assert Trim(target) == target && Trim(sample) == sample by {
      TrimProperties(target);
      TrimProperties(sample);
    }
    assert MatchCount(target, sample, 1) == 0;
    assert !Similar(target, sample, 0.7);
  }

  /** With the defaults and a single player "Al", a single lower-case letter
      other than 'a' neither completes nor is corrected, so it stays. */
  lemma {:induction false} SingleLettersStayAgainstAl(players: seq<Entry>, w: string)
    requires players == [Player("Al")] && |w| == 1 && 'b' <= w[0] <= 'z'
    ensures CorrectWord(Defaults, Some(players), w) == Ok(w)
  {
    NonNullKeepsNonNull(players);
    LetterIsNoPrefixOfAl(w);
    LetterIsNotSimilarToAl(w);
    assert players[0] == Player("Al") && players[1..] == [];
    assert FirstOrDefault(players, Prefix(w, 3)) == NotFound;
    assert FirstOrDefault(players, Fuzzy(w, 0.7)) == NotFound;
  }

  /** The empty word completes to "Al" with the defaults. */
  lemma {:induction false} EmptyWordBecomesAl(players: seq<Entry>, w: string)
    requires players == [Player("Al")] && w == ""
    ensures CorrectWord(Defaults, Some(players), w) == Ok("Al")
  {
    NonNullKeepsNonNull(players);
    assert ToLower("Al") == "al" && ToLower("") == "" && StartsWith("al", "");
    assert FirstOrDefault(players, Prefix("", 3)) == Found("Al");
    WellFormedNeverThrows(players, Fuzzy("", 0.7));
  }

  /** The three words of "x  y" resolve to "x", "Al" and "y" with the
      defaults and a single player "Al". */
  lemma {:induction false} TokensOfDoubleSpaceResolve(players: seq<Entry>, tokens: seq<string>)
    requires players == [Player("Al")] && tokens == ["x", "", "y"]
    ensures Traverse(tokens, CorrectStep(Defaults, Some(players))) == Ok(["x", "Al", "y"])
  {
    var step := CorrectStep(Defaults, Some(players));
    SingleLettersStayAgainstAl(players, tokens[0]);
    SingleLettersStayAgainstAl(players, tokens[2]);
    EmptyWordBecomesAl(players, tokens[1]);
    assert step(tokens[0]) == Ok("x") && step(tokens[1]) == Ok("Al") && step(tokens[2]) == Ok("y");
    TraverseOk(tokens, step);
    var words := Traverse(tokens, step).value;
    assert words == ["x", "Al", "y"] by {
      assert |words| == 3 && words[0] == "x" && words[1] == "Al" && words[2] == "y";
    }
  }

  /** Two spaces in a row do not survive `Process`: with the defaults and a
      single player "Al", the empty word between them completes to "Al". */
  lemma {:induction false} DoubleSpaceGainsAName(players: seq<Entry>, phrase: string)
    requires players == [Player("Al")] && phrase == "x  y"
    ensures ProcessedPhrase(Defaults, Some(players), phrase) == Ok("x Al y")
  {
    SplitOfDoubleSpace();
    TokensOfDoubleSpaceResolve(players, Split(phrase));
    JoinOfThree(["x", "Al", "y"]);
  }

  /** When every word resolves, `Process` keeps the number and order of the
      words and word i of the result is `ProcessWord`'s result for word i. */
  lemma {:induction false} ProcessTokenwise(config: CandidEmotionsConfig, playerList: Option<seq<Entry>>, fullPhrase: string)
    requires playerList.Some? ==> SpaceFreeNames(playerList.value)
    requires ProcessedPhrase(config, playerList, fullPhrase).Ok?
    ensures var tokens, corrected := Split(fullPhrase), Split(ProcessedPhrase(config, playerList, fullPhrase).value);
            |corrected| == |tokens| &&
            forall i :: 0 <= i < |tokens| ==>
              CorrectWord(config, playerList, tokens[i]).Ok? && corrected[i] == CorrectWord(config, playerList, tokens[i]).value
  {
    var tokens := Split(fullPhrase);
    var step := CorrectStep(config, playerList);
    TraverseOk(tokens, step);
    var words := Traverse(tokens, step).value;
    forall i | 0 <= i < |words| ensures ' ' !in words[i] {
      var o := CorrectWord(config, playerList, tokens[i]);
      assert words[i] == o.value;
      if playerList.Some? && Player(o.value) in playerList.value {
        assert Player(o.value).Player?;
      }
    }
    SplitJoin(words);
  }

  /** `Process` never hands the phrase back on failure, despite its doc
      comment: every failure is the wrapped NullReference of some word. */
  lemma {:induction false} ProcessFailureIsWrapped(config: CandidEmotionsConfig, playerList: Option<seq<Entry>>, fullPhrase: string)
    requires ProcessedPhrase(config, playerList, fullPhrase).Fail?
    ensures ProcessedPhrase(config, playerList, fullPhrase) == Fail(Wrapped(NullReference))
    ensures exists k :: 0 <= k < |Split(fullPhrase)| && CorrectWord(config, playerList, Split(fullPhrase)[k]).Fail?
  {
    var tokens := Split(fullPhrase);
    var step := CorrectStep(config, playerList);
    TraverseFailureFromStep(tokens, step);
    var k :| 0 <= k < |tokens| && step(tokens[k]) == Fail(Traverse(tokens, step).error);
    assert CorrectWord(config, playerList, tokens[k]).Fail?;
  }

  /** On a phrase without "@p", `Process` and the inline phrase function agree
      whenever `Process` succeeds, and where `Process` fails the inline one
      hands back the phrase unchanged. */
  lemma {:induction false} ProcessAgreesWithInline(config: CandidEmotionsConfig, nearestPlayer: Option<string>,
                                                   allPlayers: seq<Entry>, fullPhrase: string)
    requires forall i :: 0 <= i < |Split(fullPhrase)| ==> Split(fullPhrase)[i] != "@p"
    ensures var processed := ProcessedPhrase(config, Some(allPlayers), fullPhrase);
            var inline := ModClass.ResolvedPhrase(config, nearestPlayer, NonNull(allPlayers), fullPhrase);
            (processed.Ok? ==> processed.value == inline) && (processed.Fail? ==> inline == fullPhrase)
  {
    var tokens := Split(fullPhrase);
    var f := CorrectStep(config, Some(allPlayers));
    var g := ModClass.InlineStep(config, nearestPlayer, NonNull(allPlayers));
    forall i | 0 <= i < |tokens| ensures f(tokens[i]) == g(tokens[i]) {
      AgreesWithInline(config, nearestPlayer, allPlayers, tokens[i]);
    }
    TraverseCongruent(tokens, f, g);
  }
}
