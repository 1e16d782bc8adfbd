/**
 * Concrete submissions that show how the leaderboard behaves where its
 * behaviour is easy to misread: scores are strings, the gate only checks
 * presence, `daily` is a truthiness test, and a merge keeps the new casing.
 */
module Scenarios {

  import opened Wrappers
  import opened Strings
  import opened Entries
  import opened Ranking
  import opened Merging
  import opened Expiry
  import opened Server

  function Player(name: string, score: string, time: string): Entry {
    Entry(name, score, "pong", time, None, map[])
  }

  /** Scores compare as strings: "9" ranks above "10". */
  lemma NineOutranksTen(a: Entry, b: Entry)
    requires a.score == "9" && b.score == "10"
    ensures Outranks(a, b) && !Outranks(b, a)
  {
    assert LexLess("10", "9");
    LexLessAsymmetric("10", "9");
  }

  /** So resubmitting "10" over a stored "9" keeps "9". */
  lemma TenOverNineKeepsNine(lb: seq<Entry>, obj: Entry, now: string)
    requires lb == [Player("ann", "9", "1")] && obj == Player("Ann", "10", "")
    ensures Merge(lb, obj, now) == [Player("Ann", "9", now)]
  {
    assert LexLess("10", "9");
    LexLessAsymmetric("10", "9");
    assert IsFirstMatch(lb, MatchKey(obj.name), 0);
  }

  /** "Ann" with 5 then "ann" with 3: one entry, score 5, and the stored name
      now spelled "ann", since the whole entry is overwritten. */
  lemma SameNameLowerScore(lb: seq<Entry>, obj: Entry, now: string)
    requires lb == [Player("Ann", "5", "1")] && obj == Player("ann", "3", "")
    ensures Merge(lb, obj, now) == [Player("ann", "5", now)]
  {
    assert LexLess("3", "5");
    LexLessAsymmetric("3", "5");
    assert IsFirstMatch(lb, MatchKey(obj.name), 0);
  }

  /** A long name never matches its own stored entry, but it does match, and
      overwrite, another player stored under its first 12 characters (the
      key of "abcdefghijklmn" is "abcdefghijkl"). */
  lemma LongNameOverwritesPrefixPlayer(own: Entry, other: Entry, obj: Entry, now: string)
    requires |obj.name| > MaxNameLength && own.name == obj.name
    requires other.name == obj.name[..MaxNameLength]
    ensures Merge([own, other], obj, now) ==
      [own, obj.(submitTime := now, score := MaxScore(obj.score, other.score))]
  {
    var key := MatchKey(obj.name);
    LongNameNeverMatches(own, obj.name);
    assert SameName(other, key);
    assert IsFirstMatch([own, other], key, 1);
  }

  /** A match also replaces the `daily` flag: a permanent entry becomes daily. */
  lemma MergeOverwritesDaily(lb: seq<Entry>, obj: Entry, now: string)
    requires lb == [Player("ann", "5", "1")]
    requires obj == Player("ann", "5", "").(daily := Some("true"))
    ensures IsDaily(Merge(lb, obj, now)[0])
  {
    assert IsFirstMatch(lb, MatchKey(obj.name), 0);
  }

  /** The gate accepts an empty game and an empty score, and rejects an empty
      name or a missing score. */
  lemma GateChecksPresence()
    ensures ValidSubmission(map["game" := "", "score" := "", "name" := "a"])
    ensures !ValidSubmission(map["game" := "pong", "score" := "5", "name" := ""])
    ensures !ValidSubmission(map["game" := "pong", "name" := "a"])
  {
  }

  /** `daily=false` is a non-empty string, so the entry is daily. */
  lemma DailyFalseIsDaily(e: Entry)
    requires e.daily == Some("false")
    ensures IsDaily(e)
  {
  }
}
