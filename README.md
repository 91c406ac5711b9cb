# CandidEmotions name resolution, modelled in Dafny

CandidEmotions is a chat-emote mod. Its `/me` and emote commands take a phrase, split it on single spaces, resolve each word against the roster of online players, and join the words again with `" "`. Each word is resolved by one of three rules:

- **Placeholder.** The word `@p` becomes the name of the nearest player.
- **Prefix completion.** The word becomes the first player, in roster order, whose lower-cased name starts with the lower-cased word. A word no longer than `minimumCompleteLength` never completes a name of at least that length.
- **Positional fuzzy correction.** The word becomes the first player whose lower-cased name equals the lower-cased word or is *similar* to it. After trimming, the lengths may differ by at most 2. The number of indices where both strings hold the same character must reach `target.Length * autocompleteThreshold`.

The repository holds two versions of this pipeline, and the model has both side by side:

- **Inline version** (`ModClass.cs`). `AutocompleteOrAutocorrect` has the placeholder written into it. `AutocompleteOrAutocorrectPhrase` catches every exception and then returns the phrase unchanged.
- **Refactored version** (`Utils.cs` and `AutoCorrector.cs`).
  - `Utils.ReplacePlaceholder` substitutes the placeholder and raises `NoPlayerNearbyException` when nobody is near.
  - `AutoCorrector` keeps the roster in a field, drops null players from it, and runs the prefix and fuzzy searches.
  - `AutoCorrector.Process` rethrows `NoPlayerNearbyException` and wraps every other exception.

## How the model is organised

- **`Outcomes`**: `Option`, the exceptions as a `Failure` datatype, `Outcome` (a value or a failure), and `Traverse`.
  - `Traverse` is the left-to-right "overwrite `words[i]`, stop at the first exception" loop, written as a function.
  - Its lemmas give its meaning in terms of the individual steps.
- **`Text`**: the string operations.
  - `Trim` uses the exact .NET `char.IsWhiteSpace` set.
  - `ToLower` lowers ASCII letters only, and `StartsWith` is ordinal.
  - `Split(' ')` keeps empty pieces, and `Join(" ")` is its inverse in both directions.
- **`Configuration`**: the four settings of `CandidEmotionsConfig` that the pipeline reads (the two toggles, `minimumCompleteLength` and `autocompleteThreshold`), and their defaults.
- **`Similarity`**: the positional match count and the similarity test shared by both `IsFuzzyMatch` methods, with their properties.
- **`Roster`**: roster entries and `FirstOrDefault`.
  - An entry is a named player, a null element, or a player whose name is null.
  - `FirstOrDefault` evaluates its predicate in roster order, so it throws when it reaches a malformed entry before a match.
  - The module also has the null filter `Where(p => p != null)`.
- **`ModClass`**: the inline pipeline.
  - `IsFuzzyMatch` and `AutocompleteOrAutocorrectPhrase` are methods with the source's loops.
  - `AutocompleteOrAutocorrect` is a function.
- **`Utils`**: the null-aware `IsFuzzyMatch` and `ReplacePlaceholder`, as methods with the source's loops over an array of words.
- **`Corrector`**: the `AutoCorrector` class.
  - Its fields are `config` and `playerList`.
  - Its methods are `Refresh`, `ProcessWord` and `Process`.
  - Each method is proved against a specification function (`CorrectWord`, `ProcessedPhrase`). The lemmas about those functions state what the source promises.

Three behaviours of the code are worth knowing:

- **`@p` with nobody nearby.** The callers at `ModClass.cs:82-86` and `122-126` expect `AutocompleteOrAutocorrectPhrase` to raise `NoPlayerNearbyException`. It never does: the catch at `ModClass.cs:154-158` takes that exception too and returns the phrase unchanged (see Findings).
- **Other exceptions.** The two versions treat an exception from a word differently, and neither skips the word and resolves the rest:
  - in the inline version a null player or a player without a name raises, and the whole phrase comes back untouched;
  - `AutoCorrector` drops null players first (`AutoCorrector.cs:65`), so there only a player without a name raises (`Corrector.OnlyNamelessPlayersFail`), and `Process` raises a wrapped exception.
- **Repeated spaces.** `Split(' ')` keeps the empty piece between two consecutive spaces, and `Join(" ")` puts every piece back (`Text.JoinSplit`). But that empty piece is resolved like any other word. With autocomplete on, the short-query guard (`AutoCorrector.cs:74-76`) only stops names of at least `minimumCompleteLength` characters, and every name starts with the empty word. So the empty piece completes to the first roster name shorter than `minimumCompleteLength`, if there is one and no player without a name makes a search throw (`Corrector.EmptyWordCompletesToShortName`). For example, with the defaults and the roster `[Player("Al")]`, the phrase `"x  y"` comes back as `"x Al y"` (`Corrector.DoubleSpaceGainsAName`). The inline word function has the same guard (`ModClass.cs:193-195`).

## Model

| member | source | states |
|---|---|---|
| Text.TrimProperties | CandidEmotions/Utils.cs:59-60 | Trimming returns a middle slice of the string, and every character it drops is white space. Neither end of the result is white space. A string whose ends are not white space is unchanged. |
| Text.Split | CandidEmotions/Utils.cs:91 | `Split(' ')` yields at least one piece, and no piece holds a space. |
| Text.JoinSplit | CandidEmotions/Utils.cs:91-104 | Joining the pieces of `Split(' ')` with `" "` gives back the string character for character, empty pieces included. |
| Text.SplitOfDoubleSpace | CandidEmotions/AutoCorrector.cs:34 | `Split(' ')` of "x  y" is "x", an empty piece, and "y". |
| Text.SplitJoin | CandidEmotions/ModClass.cs:147-152 | Splitting a join of one or more space-free words gives back exactly those words. |
| Outcomes.TraverseOk | CandidEmotions/ModClass.cs:147-152 | The word loop completes iff every word resolves. Then position i holds word i's resolution. |
| Outcomes.TraverseFailsAt | CandidEmotions/ModClass.cs:147-158 | The loop raises the exception of the first word that raises. |
| Outcomes.TraverseFailureFromStep | CandidEmotions/AutoCorrector.cs:34-45 | Every exception of the loop is the exception of one of its words. |
| Similarity.MatchCountCountsEqualIndices | CandidEmotions/Utils.cs:68-73 | The match count is the number of indices below the shorter length where the characters are equal, so it never exceeds either length. |
| Similarity.FarLengthsNeverSimilar | CandidEmotions/Utils.cs:59-63 | Trimmed lengths that differ by more than 2 are never similar. |
| Similarity.SimilarMonotoneInThreshold | CandidEmotions/Utils.cs:75 | Lowering the threshold never turns a pass into a fail. |
| Similarity.SimilarReflexive | CandidEmotions/ModClass.cs:234-250 | With a threshold of at most 1, every word is similar to itself. |
| Similarity.DroppedLetterIsNotSimilar | CandidEmotions/ModClass.cs:238-250 | "plyer" is not similar to "player" at 0.7: a dropped letter shifts every later position. |
| Roster.FirstOrDefault | CandidEmotions/ModClass.cs:182-198 | A found name belongs to a named player of the roster, and the predicate accepts it. |
| Roster.FoundAtFirstAccepted | CandidEmotions/AutoCorrector.cs:72-88 | The search returns the first player in roster order that the predicate accepts. |
| Roster.ThrowsAtFirstMalformed | CandidEmotions/ModClass.cs:182-198 | A null entry or nameless player reached before any match makes the search throw. |
| Roster.NotFoundIffAllRejected | CandidEmotions/AutoCorrector.cs:72-88 | The search yields null iff every entry is a named player the predicate rejects. |
| Roster.WellFormedNeverThrows | CandidEmotions/ModClass.cs:182-198 | A roster of named players never makes a search throw. |
| Roster.NonNull | CandidEmotions/AutoCorrector.cs:65 | The filtered roster holds no null element and holds exactly the non-null entries of the roster. |
| Roster.NonNullDistributes | CandidEmotions/AutoCorrector.cs:65 | The filter works piece by piece, so it keeps roster order. |
| Roster.NonNullKeepsNonNull | CandidEmotions/AutoCorrector.cs:65 | A roster without null elements passes the filter unchanged. |
| ModClass.IsFuzzyMatch | CandidEmotions/ModClass.cs:232-256 | The counting loop returns exactly the similarity test on the trimmed words. |
| ModClass.AutocompleteOrAutocorrect | CandidEmotions/ModClass.cs:170-223 | The result is the word, the nearest player's name or a roster name. An exception escapes only when `throwExceptions` holds. With both toggles off, a word other than "@p" is unchanged. |
| ModClass.SwallowedWordIsKept | CandidEmotions/ModClass.cs:172-222 | With `throwExceptions` off, a word that would raise comes back as it came in. Otherwise both modes agree. |
| ModClass.PlaceholderOverrides | CandidEmotions/ModClass.cs:201-206 | When neither enabled search throws, "@p" becomes the nearest player's name or raises NoPlayerNearby. This overrides both searches. |
| ModClass.PrefixBeatsFuzzy | CandidEmotions/ModClass.cs:180-210 | With autocomplete on, the first roster player the prefix rule accepts wins over any fuzzy candidate, when the fuzzy search (run first) does not throw. |
| ModClass.FuzzyWhenNoPrefix | CandidEmotions/ModClass.cs:180-214 | Without a prefix candidate and with autocorrect on, the first player the fuzzy rule accepts is used. |
| ModClass.NoCandidateKeepsWord | CandidEmotions/ModClass.cs:180-214 | A word other than "@p" with no candidate from any enabled search is unchanged. |
| ModClass.MalformedEntryRaises | CandidEmotions/ModClass.cs:180-186 | The fuzzy search raises NullReference when it reaches a malformed entry before any match, even for "@p". |
| ModClass.AutocompleteOrAutocorrectPhrase | CandidEmotions/ModClass.cs:143-159 | The loop over the word array returns the words resolved and joined when every word resolves, and otherwise the phrase it was given. |
| ModClass.PhraseTokenwise | CandidEmotions/ModClass.cs:147-152 | When every word resolves and names hold no space, the number and order of words are kept. Output word i is the resolution of input word i. |
| ModClass.PhraseAllOrNothing | CandidEmotions/ModClass.cs:154-158 | If any word raises, the phrase comes back exactly as given, with no partial substitution. |
| ModClass.SwallowsNoPlayerNearby | CandidEmotions/ModClass.cs:154-158 | As written: a phrase holding "@p" with nobody nearby comes back unchanged instead of raising. |
| ModClass.CorrectedPhrase | CandidEmotions/ModClass.cs:78-86 | Corrected: a successful result equals the as-written resolution, and the only exception that escapes is NoPlayerNearby. |
| ModClass.CorrectedPhraseReportsNoPlayer | CandidEmotions/ModClass.cs:201-204 | Corrected: on a roster of named players, "@p" with nobody nearby raises NoPlayerNearby for the whole phrase. |
| Utils.IsFuzzyMatch | CandidEmotions/Utils.cs:51-81 | Equal arguments pass (two nulls included), and exactly one null fails. Two distinct strings pass iff they are similar. |
| Utils.ReplacePlaceholder | CandidEmotions/Utils.cs:89-105 | With a nearest player, each word that trims to the placeholder becomes the player's name. Without one, a placeholder raises NoPlayerNearby, and a message without one comes back unchanged. |
| Utils.ReplacedWords | CandidEmotions/Utils.cs:91-104 | For a name without spaces, the word count is kept. Each placeholder word becomes the name, and every other word is unchanged. |
| Utils.NoPlaceholderRoundTrip | CandidEmotions/Utils.cs:91-104 | A message with no placeholder word survives substitution character for character. |
| Corrector.CorrectWord | CandidEmotions/AutoCorrector.cs:58-101 | Before a refresh the word is unchanged. Otherwise the result is the word or the name of a player on the roster. The only exception is NullReference. With both toggles off the word is unchanged. |
| Corrector.AutoCorrector.constructor | CandidEmotions/AutoCorrector.cs:14-17 | Stores the configuration and starts with no roster. |
| Corrector.AutoCorrector.Refresh | CandidEmotions/AutoCorrector.cs:19-22 | Replaces the roster field by the host's players. |
| Corrector.AutoCorrector.ProcessWord | CandidEmotions/AutoCorrector.cs:58-101 | Leaves the roster filtered of nulls and returns `CorrectWord` on the roster it found. |
| Corrector.AutoCorrector.Process | CandidEmotions/AutoCorrector.cs:30-50 | The loop returns the corrected words joined, or the first exception: NoPlayerNearby as is, anything else wrapped. The roster ends filtered. |
| Corrector.FilteredIdempotent | CandidEmotions/AutoCorrector.cs:65 | Filtering the roster a second time changes nothing. |
| Corrector.CorrectWordIgnoresFilter | CandidEmotions/AutoCorrector.cs:62-65 | Null players never influence a word, so later calls on the filtered roster agree with the first. |
| Corrector.AgreesWithInline | CandidEmotions/AutoCorrector.cs:67-100 | For every word other than "@p", `ProcessWord` equals the inline word function run on the roster without null players. |
| Corrector.OnlyNamelessPlayersFail | CandidEmotions/AutoCorrector.cs:65-89 | Without nameless players no word raises. Null players alone cannot make a word fail. |
| Corrector.ShortWordCompletesShortName | CandidEmotions/AutoCorrector.cs:72-78 | A word no longer than `minimumCompleteLength` is only ever prefix-completed to a shorter name. |
| Corrector.ShortQueryIsKept | CandidEmotions/AutoCorrector.cs:74-77 | With the defaults and a single player "Helloworld", "hel" (length 3, the boundary) is kept. |
| Corrector.LongerQueryIsCompleted | CandidEmotions/AutoCorrector.cs:72-78 | With the defaults and a single player "Helloworld", "hell" completes to "Helloworld". |
| Corrector.EmptyWordCompletesToShortName | CandidEmotions/AutoCorrector.cs:72-78 | With autocomplete on and no nameless player on the roster, an empty word, from two spaces in a row, completes to the first name shorter than `minimumCompleteLength`. |
| Corrector.LetterIsNoPrefixOfAl | CandidEmotions/AutoCorrector.cs:72-78 | A single lower-case letter other than 'a' is not a prefix of "Al" after lower-casing. |
| Corrector.LetterIsNotSimilarToAl | CandidEmotions/AutoCorrector.cs:84-88 | A single lower-case letter other than 'a' neither equals "Al" nor is similar to it at 0.7. |
| Corrector.SingleLettersStayAgainstAl | CandidEmotions/AutoCorrector.cs:72-100 | With the defaults and a single player "Al", a single lower-case letter other than 'a' is kept. |
| Corrector.EmptyWordBecomesAl | CandidEmotions/AutoCorrector.cs:72-94 | With the defaults and a single player "Al", the empty word completes to "Al". |
| Corrector.TokensOfDoubleSpaceResolve | CandidEmotions/AutoCorrector.cs:35-38 | With the defaults and a single player "Al", the word loop turns "x", "" and "y" into "x", "Al" and "y". |
| Corrector.DoubleSpaceGainsAName | CandidEmotions/AutoCorrector.cs:34-39 | With the defaults and a single player "Al", `Process` turns "x  y" into "x Al y": the empty word between the two spaces becomes a name. |
| Corrector.ProcessTokenwise | CandidEmotions/AutoCorrector.cs:34-39 | On success the number and order of words are kept. Word i of the result is `ProcessWord`'s result for word i. |
| Corrector.ProcessFailureIsWrapped | CandidEmotions/AutoCorrector.cs:41-49 | Every failure of `Process` is a wrapped NullReference of some word, never the phrase "as-is" that its doc comment promises. |
| Corrector.ProcessAgreesWithInline | CandidEmotions/AutoCorrector.cs:30-50 | On phrases without "@p", `Process` agrees with the inline phrase function when it succeeds. Where it fails, the inline function returns the phrase unchanged. |

## Left out

- **Host and command code.** Command registration, the chat handlers, message formatting and sending are host-API I/O and are not modelled. So are `FindNearestPlayer` (a spatial query on the game world) and `GetConfig` (file loading). The nearest player is an `Option<string>` parameter, and the roster is a parameter of `Refresh`.
- **Logging.** The calls to `api.Logger.Error` in the catch blocks are output only.
- **Exception text.** `Wrapped` records the kind of the inner exception, not the message text.
- **Configuration.** Settings that the pipeline does not read are not modelled: hugs, the placeholder toggle, announcing, custom actions and the search radius. The `placeholder` string is read only by the command handlers (`ModClass.cs:51`). The inline word function has `"@p"` written into it, and `ReplacePlaceholder` takes the placeholder as a parameter.
- Similarity.Similar: lengths are counted in Unicode scalar values, where .NET's `Length` counts UTF-16 code units. So a word holding characters outside the Basic Multilingual Plane (e.g. emoji) falls in a different length window. For example, with the defaults, the roster `[Player("Bob")]` and the word "Bob😀😀", the source sees lengths 7 and 3 and keeps the word. The model sees lengths 5 and 3, finds 3 ≥ 2.1 matching positions and corrects the word to "Bob". The same count also changes the positional match count and the bar `target.Length * threshold`. For example, "a😀b" against "a😀c": .NET finds 3 of 4 UTF-16 positions equal, and 3 ≥ 2.8, so the pair is similar. The model finds 2 of 3 positions equal, and 2 < 2.1, so it is not. The same difference reaches `Roster.Accepts` (the short-word guard of the prefix rule) and both `IsFuzzyMatch` methods.
- **Lower-casing.** `ToLower` lowers ASCII letters only. The source's culture-sensitive lower-casing of other letters is not modelled.
- **Prefix test.** `StartsWith(..., CurrentCulture)` is modelled as an ordinal prefix test. Culture-specific collation is not captured.
- **Threshold rounding.** The threshold is a `real`, so `target.Length * autocompleteThreshold` is exact. IEEE double rounding at the boundary is not modelled.
- **Null strings.** Phrases, words, messages, the placeholder and the nearest player's name are never null here. A null phrase would throw in `Split` before any logic runs.
- **Null word in `ProcessWord`.** The null-word check at `AutoCorrector.cs:62` cannot be reached from `Process`, because `Split` never yields null. Only the null-roster half of that check is modelled.
- **Null-conditional trim.** The null-conditional `words[i]?.Trim()` in `ReplacePlaceholder` is modelled as a plain `Trim`, for the same reason.
- **Lazy `Where`.** The filter is applied eagerly. The source instead stacks one more lazy `Where` on the field at each call, which yields the same players in the same order.
- Corrector.AutoCorrector.ProcessWord: the `nearestPlayer` and `throwExceptions` parameters are accepted and ignored, as in the source.
- **Search order in the inline version.** The inline word function runs the fuzzy search before the prefix search. When both would throw, the model records one NullReference without saying which search raised it.

## Findings

| source | as written | input that shows it | evidently intended | confidence | as-written member | corrected member |
|---|---|---|---|---|---|---|
| CandidEmotions/ModClass.cs:154-158 | `AutocompleteOrAutocorrectPhrase` catches every exception, including `NoPlayerNearbyException`, and returns the phrase. The callers' `catch (NoPlayerNearbyException)` at ModClass.cs:82-86 and 122-126 can therefore never run. | `/me hugs @p` with no other player nearby: the phrase resolves to "hugs @p" and is announced with the placeholder left in it. | `NoPlayerNearbyException` reaches the caller, which replies "There is no one here right now". Every other exception still gives back the phrase. | high (not executed) | ModClass.SwallowsNoPlayerNearby | ModClass.CorrectedPhrase |
