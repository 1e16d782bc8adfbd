/**
 * How `updateHighScores` folds one submission into a leaderboard before the
 * list is sorted: the player is found by lower-cased name, with the
 * submitted name cut to MAX_NAME_LENGTH characters; the first entry found is
 * replaced by the submission with the higher of the two scores; with no
 * such entry the submission is appended.
 */
module Merging {

  import opened Wrappers
  import opened Strings
  import opened Entries
  import opened Ranking

  /** The submitted name as it is compared: cut, then lower-cased. Only this
      comparison key is cut; the stored name keeps its full length. */
  function MatchKey(name: string): (k: string)
    ensures |k| <= MaxNameLength
    ensures |name| <= MaxNameLength ==> k == Lower(name)
    ensures |name| > MaxNameLength ==> k == Lower(name[..MaxNameLength])
  {
    Lower(Truncate(name, MaxNameLength))
  }

  /** `entry.name.toLowerCase() === name.toLowerCase()`. */
  predicate SameName(e: Entry, key: string) {
    Lower(e.name) == key
  }

  ghost predicate NoMatch(lb: seq<Entry>, key: string) {
    forall j | 0 <= j < |lb| :: !SameName(lb[j], key)
  }

  ghost predicate IsFirstMatch(lb: seq<Entry>, key: string, i: int) {
    0 <= i < |lb| && SameName(lb[i], key) && forall j | 0 <= j < i :: !SameName(lb[j], key)
  }

  /** The index at which the source's loop stops, if it stops early. */
  function FirstMatch(lb: seq<Entry>, key: string): (r: Option<nat>)
    ensures r.Some? ==> IsFirstMatch(lb, key, r.value)
    ensures r.None? ==> NoMatch(lb, key)
  {
    if lb == [] then None
    else if SameName(lb[0], key) then Some(0)
    else match FirstMatch(lb[1..], key)
      case None => None
      case Some(i) => Some(i + 1)
  }

  /** `score > entry.score ? score : entry.score`, a maximum in the string
      order: never below either score, and one of the two. */
  function MaxScore(score: string, stored: string): (r: string)
    ensures r == score || r == stored
    ensures LexLeq(score, r) && LexLeq(stored, r)
  {
    LexLessTotal(score, stored);
    if LexLess(stored, score) then score else stored
  }

  /**
   * The leaderboard just before the sort. With no matching player the
   * stamped submission is appended; otherwise the first matching entry is
   * replaced, as a whole, by the stamped submission carrying the higher
   * score, and every other entry stays where it was.
   */
  function Merge(lb: seq<Entry>, obj: Entry, now: string): (m: seq<Entry>)
    ensures NoMatch(lb, MatchKey(obj.name)) ==> m == lb + [obj.(submitTime := now)]
    ensures forall i | IsFirstMatch(lb, MatchKey(obj.name), i) ::
      m == lb[i := obj.(submitTime := now, score := MaxScore(obj.score, lb[i].score))]
  {
    var key := MatchKey(obj.name);
    var stamped := obj.(submitTime := now);
    match FirstMatch(lb, key)
    case None => lb + [stamped]
    case Some(i) =>
      FirstMatchUnique(lb, key, i);
      lb[i := stamped.(score := MaxScore(obj.score, lb[i].score))]
  }

  lemma FirstMatchUnique(lb: seq<Entry>, key: string, i: int)
    requires IsFirstMatch(lb, key, i)
    ensures forall k | IsFirstMatch(lb, key, k) :: k == i
    ensures !NoMatch(lb, key)
  {
  }

  /** A merge keeps the length, or grows it by the one appended entry. */
  lemma MergeLength(lb: seq<Entry>, obj: Entry, now: string)
    ensures |Merge(lb, obj, now)| == if NoMatch(lb, MatchKey(obj.name)) then |lb| + 1 else |lb|
  {
    var key := MatchKey(obj.name);
    if !NoMatch(lb, key) {
      var i :| 0 <= i < |lb| && SameName(lb[i], key);
      MinimalMatch(lb, key, i);
    }
  }

  lemma {:induction false} MinimalMatch(lb: seq<Entry>, key: string, i: int)
    requires 0 <= i < |lb| && SameName(lb[i], key)
    ensures exists k :: IsFirstMatch(lb, key, k)
    decreases i
  {
    if forall j | 0 <= j < i :: !SameName(lb[j], key) {
      assert IsFirstMatch(lb, key, i);
    } else {
      var j :| 0 <= j < i && SameName(lb[j], key);
      MinimalMatch(lb, key, j);
    }
  }

  /** The max-merge: a match never lowers the matched entry's score. */
  lemma MergeNeverLowersScore(lb: seq<Entry>, obj: Entry, now: string, i: int)
    requires IsFirstMatch(lb, MatchKey(obj.name), i)
    ensures LexLeq(lb[i].score, Merge(lb, obj, now)[i].score)
    ensures LexLeq(obj.score, Merge(lb, obj, now)[i].score)
  {
  }

  /** No two entries of `s` carry the same lower-cased name. */
  ghost predicate DistinctNames(s: seq<Entry>) {
    forall i, j | 0 <= i < j < |s| :: Lower(s[i].name) != Lower(s[j].name)
  }

  /** A name of at most MAX_NAME_LENGTH characters is matched in full, so a
      merge does not duplicate a player. */
  lemma MergeKeepsNamesDistinct(lb: seq<Entry>, obj: Entry, now: string)
    requires DistinctNames(lb) && |obj.name| <= MaxNameLength
    ensures DistinctNames(Merge(lb, obj, now))
  {
    var key := MatchKey(obj.name);
    assert key == Lower(obj.name);
    var m := Merge(lb, obj, now);
    match FirstMatch(lb, key)
    case None =>
    case Some(i) =>
      forall p, q | 0 <= p < q < |m| ensures Lower(m[p].name) != Lower(m[q].name) {
        assert Lower(m[i].name) == Lower(lb[i].name);
        assert Lower(m[p].name) == Lower(lb[p].name) && Lower(m[q].name) == Lower(lb[q].name);
      }
  }

  lemma {:induction false} TwoOccurrences(m: seq<Entry>, x: Entry)
    requires multiset(m)[x] >= 2
    ensures exists p, q :: 0 <= p < q < |m| && m[p] == x && m[q] == x
  {
    assert m == [m[0]] + m[1..];
    if m[0] == x {
      assert x in multiset(m[1..]);
      var q :| 0 <= q < |m[1..]| && m[1..][q] == x;
      assert m[0] == x && m[q + 1] == x;
    } else {
      TwoOccurrences(m[1..], x);
      var p, q :| 0 <= p < q < |m[1..]| && m[1..][p] == x && m[1..][q] == x;
      assert m[p + 1] == x && m[q + 1] == x;
    }
  }

  /** Keeping some of the entries (as sort and cut do) keeps names distinct. */
  lemma SubMultisetKeepsNamesDistinct(n: seq<Entry>, m: seq<Entry>)
    requires DistinctNames(m) && multiset(n) <= multiset(m)
    ensures DistinctNames(n)
  {
    forall i, j | 0 <= i < j < |n| ensures Lower(n[i].name) != Lower(n[j].name) {
      if n[i] == n[j] {
        assert n == n[..i] + [n[i]] + n[i + 1..j] + [n[j]] + n[j + 1..];
        assert multiset(n)[n[i]] >= 2;
        TwoOccurrences(m, n[i]);
      } else {
        assert n[i] in multiset(m) && n[j] in multiset(m);
        var p :| 0 <= p < |m| && m[p] == n[i];
        var q :| 0 <= q < |m| && m[q] == n[j];
        assert p != q;
      }
    }
  }

  /** A stored name longer than MAX_NAME_LENGTH is never found again: the
      comparison key is cut, the stored name is not. */
  lemma LongNameNeverMatches(e: Entry, name: string)
    requires |e.name| > MaxNameLength
    ensures !SameName(e, MatchKey(name))
  {
  }

  /** So submitting the same long name twice leaves the player on the board
      twice, whatever order the sort picks. */
  lemma LongNameIsStoredTwice(obj: Entry, t1: string, t2: string, n: seq<Entry>)
    requires |obj.name| > MaxNameLength
    requires IsRankedTop(n, Merge(Merge([], obj, t1), obj, t2))
    ensures |n| == 2 && !DistinctNames(n)
  {
    var first := Merge([], obj, t1);
    LongNameNeverMatches(first[0], obj.name);
    var m := Merge(first, obj, t2);
    assert m == [obj.(submitTime := t1), obj.(submitTime := t2)];
    assert n[0] in multiset(m) && n[1] in multiset(m);
  }
}
