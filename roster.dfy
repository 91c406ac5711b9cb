/** The roster of online players and the two `FirstOrDefault` searches both
    pipelines run over it: the prefix (autocomplete) search and the fuzzy
    (autocorrect) search. */
module Roster {
  import opened Text
  import opened Similarity

  /** One element of the host's player array. A null element, or a player
      whose PlayerName is null, makes any search predicate that reaches it
      throw a NullReferenceException. */
  datatype Entry = NullEntry | NamelessPlayer | Player(name: string)

  /** The outcome of `FirstOrDefault`: the first accepted player's name, no
      match (the default, null), or an exception from the predicate. */
  datatype Search = Found(name: string) | NotFound | Threw

  /** The predicate handed to `FirstOrDefault`, together with what it closes over. */
  datatype Criterion =
    | Prefix(word: string, minimumCompleteLength: int)
    | Fuzzy(word: string, threshold: real)

  /** Whether the search predicate accepts a player called `name`.
      Prefix: short words (length at most the minimum) are not completed to
      names whose length reaches the minimum; otherwise the lower-cased name
      must start with the lower-cased word.
      Fuzzy: the lower-cased name equals the lower-cased word or is similar to it. */
  predicate Accepts(c: Criterion, name: string) {
    match c
    case Prefix(word, minimum) =>
      !(|word| <= minimum && |name| >= minimum) && StartsWith(ToLower(name), ToLower(word))
    case Fuzzy(word, threshold) =>
      ToLower(name) == ToLower(word) || Similar(ToLower(name), ToLower(word), threshold)
  }

  /** `players.FirstOrDefault(predicate)`: the predicate is evaluated on the
      entries in roster order until it accepts one; reaching a null entry or
      a nameless player first throws. */
  function FirstOrDefault(players: seq<Entry>, c: Criterion): (r: Search)
    ensures r.Found? ==> Player(r.name) in players && Accepts(c, r.name)
  {
    if |players| == 0 then NotFound
    else
      match players[0]
      case Player(n) => if Accepts(c, n) then Found(n) else FirstOrDefault(players[1..], c)
      case _ => Threw
  }

  /** Every entry before index `k` is a named player the criterion rejects. */
  ghost predicate RejectedBefore(players: seq<Entry>, c: Criterion, k: nat)
    requires k <= |players|
  {
    forall j :: 0 <= j < k ==> players[j].Player? && !Accepts(c, players[j].name)
  }

  /** Every entry is a named player. */
  ghost predicate WellFormed(players: seq<Entry>) {
    forall j :: 0 <= j < |players| ==> players[j].Player?
  }

  /** No player in the roster has a space in the name. */
  ghost predicate SpaceFreeNames(players: seq<Entry>) {
    forall e :: e in players && e.Player? ==> ' ' !in e.name
  }

  lemma {:induction false} FirstOrDefaultSkips(players: seq<Entry>, c: Criterion, k: nat)
    requires k <= |players| && RejectedBefore(players, c, k)
    ensures FirstOrDefault(players, c) == FirstOrDefault(players[k..], c)
  {
    if k > 0 {
      assert players[0].Player? && !Accepts(c, players[0].name);
      var rest := players[1..];
      assert RejectedBefore(rest, c, k - 1) by {
        forall j | 0 <= j < k - 1
          ensures rest[j].Player? && !Accepts(c, rest[j].name)
        {
          assert rest[j] == players[j + 1];
        }
      }
      FirstOrDefaultSkips(rest, c, k - 1);
      assert rest[k - 1..] == players[k..];
    }
  }

  /** The search returns the first player, in roster order, that the
      criterion accepts, when every entry before it is a rejected player. */
  lemma {:induction false} FoundAtFirstAccepted(players: seq<Entry>, c: Criterion, k: nat)
    requires k < |players| && RejectedBefore(players, c, k)
    requires players[k].Player? && Accepts(c, players[k].name)
    ensures FirstOrDefault(players, c) == Found(players[k].name)
  {
    FirstOrDefaultSkips(players, c, k);
  }

  /** The search throws when it reaches a malformed entry before any accepted player. */
  lemma {:induction false} ThrowsAtFirstMalformed(players: seq<Entry>, c: Criterion, k: nat)
    requires k < |players| && RejectedBefore(players, c, k)
    requires !players[k].Player?
    ensures FirstOrDefault(players, c) == Threw
  {
    FirstOrDefaultSkips(players, c, k);
  }

  /** The search finds nothing exactly when every entry is a rejected player. */
  lemma {:induction false} NotFoundIffAllRejected(players: seq<Entry>, c: Criterion)
    ensures FirstOrDefault(players, c) == NotFound <==> RejectedBefore(players, c, |players|)
  {
    if |players| > 0 {
      var rest := players[1..];
      NotFoundIffAllRejected(rest, c);
      if players[0].Player? && !Accepts(c, players[0].name) {
        if RejectedBefore(rest, c, |rest|) {
          forall j | 0 <= j < |players|
            ensures players[j].Player? && !Accepts(c, players[j].name)
          {
            if j > 0 { assert players[j] == rest[j - 1]; }
          }
        } else {
          var j :| 0 <= j < |rest| && !(rest[j].Player? && !Accepts(c, rest[j].name));
          assert players[j + 1] == rest[j];
        }
      }
    }
  }

  /** A roster of named players never makes the search throw. */
  lemma {:induction false} WellFormedNeverThrows(players: seq<Entry>, c: Criterion)
    requires WellFormed(players)
    ensures FirstOrDefault(players, c) != Threw
  {
    if |players| > 0 {
      var rest := players[1..];
      assert WellFormed(rest) by {
        forall j | 0 <= j < |rest| ensures rest[j].Player? {
          assert rest[j] == players[j + 1];
        }
      }
      WellFormedNeverThrows(rest, c);
    }
  }

  /** `players.Where(p => p != null)`: the roster without its null elements,
      in the same order. */
  function NonNull(players: seq<Entry>): (r: seq<Entry>)
    ensures NullEntry !in r
    ensures forall e :: e in r <==> e in players && e != NullEntry
  {
    if |players| == 0 then []
    else (if players[0] == NullEntry then [] else [players[0]]) + NonNull(players[1..])
  }

  /** Dropping null elements works piece by piece, so it keeps roster order. */
  lemma {:induction false} NonNullDistributes(a: seq<Entry>, b: seq<Entry>)
    ensures NonNull(a + b) == NonNull(a) + NonNull(b)
  {
    if |a| > 0 {
      assert (a + b)[0] == a[0] && (a + b)[1..] == a[1..] + b;
      NonNullDistributes(a[1..], b);
    } else {
      assert a + b == b;
    }
  }

  /** A roster without null elements is left as it is, so filtering twice is filtering once. */
  lemma {:induction false} NonNullKeepsNonNull(players: seq<Entry>)
    requires NullEntry !in players
    ensures NonNull(players) == players
  {
    if |players| > 0 {
      assert players[0] in players;
      NonNullKeepsNonNull(players[1..]);
      assert [players[0]] + players[1..] == players;
    }
  }
}
