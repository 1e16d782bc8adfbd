/**
 * The process-wide store `highScores` of server.js and the operations the
 * request handlers run on it. Query strings arrive already decoded, as a
 * map from parameter name to value; the clock and the calendar are
 * parameters.
 */
module Server {

  import opened Wrappers
  import opened Strings
  import opened Entries
  import opened Ranking
  import opened Merging
  import opened Expiry

  /** The parameters a submission stores under their own fields. */
  const FieldNames: set<string> := {"name", "score", "game", "submitTime", "daily"}

  /** The gate of `handlePut`: `game`, `score` and `name` are present and the
      name is not empty; an empty game or score is accepted. */
  predicate ValidSubmission(params: map<string, string>) {
    "game" in params && "score" in params && "name" in params && |params["name"]| > 0
  }

  /** The object `handlePut` builds from the parameters, before it is stamped. */
  function EntryOf(params: map<string, string>): (e: Entry)
    requires ValidSubmission(params)
    ensures e.name == params["name"] && e.score == params["score"] && e.game == params["game"]
    ensures e.daily == if "daily" in params then Some(params["daily"]) else None
    ensures forall k | k in params && k !in FieldNames :: k in e.extra && e.extra[k] == params[k]
    ensures forall k | k in e.extra :: k in params && k !in FieldNames
  {
    Entry(
      params["name"],
      params["score"],
      params["game"],
      if "submitTime" in params then params["submitTime"] else "",
      if "daily" in params then Some(params["daily"]) else None,
      map k | k in params && k !in FieldNames :: params[k])
  }

  /** The key `params.get("game")` looks up: a missing parameter is `null`,
      which JavaScript turns into the property name "null". */
  function GameKey(params: map<string, string>): (g: string)
    ensures "game" in params ==> g == params["game"]
    ensures "game" !in params ==> g == "null"
  {
    if "game" in params then params["game"] else "null"
  }

  class HighScores {

    /** `highScores`: game name to its leaderboard. */
    var highScores: map<string, seq<Entry>>

    /** What every operation here keeps: each leaderboard holds at most
        NUM_HIGH_SCORES entries, in ranked order. */
    ghost predicate Ranked()
      reads this
    {
      forall g | g in highScores :: |highScores[g]| <= NumHighScores && SortedByRank(highScores[g])
    }

    /** The empty store the server has before a snapshot is loaded. */
    constructor ()
      ensures highScores == map[]
      ensures Ranked()
    {
      highScores := map[];
    }

    /** `highScores[game] || []`. */
    function Leaderboard(game: string): (lb: seq<Entry>)
      reads this
      ensures game in highScores ==> lb == highScores[game]
      ensures game !in highScores ==> lb == []
    {
      if game in highScores then highScores[game] else []
    }

    /** `updateHighScores(obj)`, with `now` the value of
        `(new Date()).getTime().toString()`. */
    method UpdateHighScores(obj: Entry, now: string)
      modifies this
      ensures obj.game in highScores
      ensures highScores == old(highScores)[obj.game := highScores[obj.game]]
      ensures IsRankedTop(highScores[obj.game], Merge(old(Leaderboard(obj.game)), obj, now))
      ensures |highScores[obj.game]| <= NumHighScores && SortedByRank(highScores[obj.game])
      ensures old(Ranked()) ==> Ranked()
      ensures DistinctNames(old(Leaderboard(obj.game))) && |obj.name| <= MaxNameLength ==>
        DistinctNames(highScores[obj.game])
    {
      var stamped := obj.(submitTime := now);
      var leaderboard := Leaderboard(obj.game);
      ghost var original := leaderboard;
      var name := obj.name;
      if |name| > MaxNameLength {
        name := name[..MaxNameLength];
      }
      ghost var key := MatchKey(obj.name);
      assert Lower(name) == key;
      var alreadyOnLeaderboard := false;
      var i := 0;
      while i < |leaderboard|
        invariant 0 <= i <= |leaderboard|
        invariant leaderboard == original && !alreadyOnLeaderboard
        invariant forall j | 0 <= j < i :: !SameName(original[j], key)
      {
        var entry := leaderboard[i];
        if Lower(entry.name) == Lower(name) {
          var higherScore := if LexLess(entry.score, obj.score) then obj.score else entry.score;
          assert IsFirstMatch(original, key, i);
          alreadyOnLeaderboard := true;
          stamped := stamped.(score := higherScore);
          leaderboard := leaderboard[i := stamped];
          break;
        }
        i := i + 1;
      }
      if !alreadyOnLeaderboard {
        leaderboard := leaderboard + [stamped];
      }
      assert leaderboard == Merge(original, obj, now);
      var sorted := Sort(leaderboard);
      SortedPrefixIsRankedTop(sorted, leaderboard);
      highScores := highScores[obj.game := Top(sorted)];
      if DistinctNames(original) && |obj.name| <= MaxNameLength {
        MergeKeepsNamesDistinct(original, obj, now);
        SubMultisetKeepsNamesDistinct(Top(sorted), leaderboard);
      }
    }

    /** `handlePut`: stores the submission when it passes the gate and answers
        whether it did (200) or not (400); a rejected request changes nothing. */
    method HandlePut(params: map<string, string>, now: string) returns (accepted: bool)
      modifies this
      ensures accepted == ValidSubmission(params)
      ensures !accepted ==> highScores == old(highScores)
      ensures accepted ==> (
        && params["game"] in highScores
        && highScores == old(highScores)[params["game"] := highScores[params["game"]]]
        && IsRankedTop(highScores[params["game"]], Merge(old(Leaderboard(params["game"])), EntryOf(params), now)))
      ensures old(Ranked()) ==> Ranked()
    {
      accepted := ValidSubmission(params);
      if accepted {
        UpdateHighScores(EntryOf(params), now);
      }
    }

    /** `handleGet`: the leaderboard of the requested game, empty for a game
        that has none. */
    function HandleGet(params: map<string, string>): (lb: seq<Entry>)
      reads this
      ensures GameKey(params) in highScores ==> lb == highScores[GameKey(params)]
      ensures GameKey(params) !in highScores ==> lb == []
      ensures Ranked() ==> |lb| <= NumHighScores && SortedByRank(lb)
    {
      Leaderboard(GameKey(params))
    }

    /** `handleDelete`: removes the game's key; an unknown game is a no-op. */
    method HandleDelete(params: map<string, string>)
      modifies this
      ensures highScores == old(highScores) - {GameKey(params)}
      ensures GameKey(params) !in old(highScores) ==> highScores == old(highScores)
      ensures old(Ranked()) ==> Ranked()
    {
      highScores := highScores - {GameKey(params)};
    }

    /** `deleteExpiredDailyScores`: filters every game's leaderboard, one key
        at a time; no key is added or removed. */
    method DeleteExpiredDailyScores(today: ValidDate, dateOf: string -> CalendarDate)
      modifies this
      ensures highScores.Keys == old(highScores).Keys
      ensures forall g | g in highScores :: highScores[g] == KeepCurrent(old(highScores)[g], today, dateOf)
      ensures old(Ranked()) ==> Ranked()
    {
      var pending := highScores.Keys;
      while pending != {}
        invariant pending <= highScores.Keys
        invariant highScores.Keys == old(highScores).Keys
        invariant forall g | g in highScores && g !in pending ::
          highScores[g] == KeepCurrent(old(highScores)[g], today, dateOf)
        invariant forall g | g in pending :: highScores[g] == old(highScores)[g]
        decreases pending
      {
        var game :| game in pending;
        highScores := highScores[game := KeepCurrent(highScores[game], today, dateOf)];
        pending := pending - {game};
      }
      if old(Ranked()) {
        forall g | g in highScores
          ensures |highScores[g]| <= NumHighScores && SortedByRank(highScores[g])
        {
          KeepCurrentKeepsRanking(old(highScores)[g], today, dateOf);
        }
      }
    }
  }
}
