/**
 * The filter of `deleteExpiredDailyScores`: a daily entry survives only on the
 * calendar day it was submitted; every other entry survives.
 */
module Expiry {

  import opened Wrappers
  import opened Entries
  import opened Ranking

  /** A local-time calendar date, or the invalid date that `new Date(NaN)`
      gives when `parseInt` cannot read a submit time. */
  datatype CalendarDate = Date(day: int, month: int, year: int) | InvalidDate

  /** The date of `new Date()`, which is never invalid. */
  type ValidDate = d: CalendarDate | d.Date? witness Date(1, 0, 1970)

  /** `getDate`, `getMonth` and `getFullYear` all compare equal; on an invalid
      date each of them is NaN, which equals nothing. */
  predicate SameCalendarDay(a: CalendarDate, b: CalendarDate) {
    a.Date? && b.Date? && a.day == b.day && a.month == b.month && a.year == b.year
  }

  /** `if (score.daily)`: a present, non-empty string is truthy, so
      `daily=false` marks an entry daily too. */
  predicate IsDaily(e: Entry) {
    e.daily.Some? && |e.daily.value| > 0
  }

  /** The filter's predicate. `today` is the date of `new Date()`; `dateOf`
      turns a submit time into its local date (`new Date(parseInt(t))`). */
  predicate ShouldKeep(e: Entry, today: ValidDate, dateOf: string -> CalendarDate) {
    !IsDaily(e) || SameCalendarDay(today, dateOf(e.submitTime))
  }

  /** `r` is `s` with some entries left out and the rest in their order. */
  ghost predicate IsSubsequence(r: seq<Entry>, s: seq<Entry>)
    decreases |s|
  {
    if r == [] then true
    else if s == [] then false
    else (r[0] == s[0] && IsSubsequence(r[1..], s[1..])) || IsSubsequence(r, s[1..])
  }

  /** `highScores[game].filter(...)`: exactly the entries that should be kept,
      each as often as before, in their old order. */
  function KeepCurrent(lb: seq<Entry>, today: ValidDate, dateOf: string -> CalendarDate): (r: seq<Entry>)
    ensures forall e | e in multiset(lb) ::
      multiset(r)[e] == if ShouldKeep(e, today, dateOf) then multiset(lb)[e] else 0
    ensures multiset(r) <= multiset(lb)
    ensures forall e | e in r :: ShouldKeep(e, today, dateOf)
    ensures IsSubsequence(r, lb)
  {
    if lb == [] then []
    else
      assert lb == [lb[0]] + lb[1..];
      var rest := KeepCurrent(lb[1..], today, dateOf);
      if ShouldKeep(lb[0], today, dateOf) then [lb[0]] + rest else rest
  }

  /** Entries that are not daily are never removed. */
  lemma PermanentEntriesSurvive(lb: seq<Entry>, today: ValidDate, dateOf: string -> CalendarDate, e: Entry)
    requires e in lb && !IsDaily(e)
    ensures e in KeepCurrent(lb, today, dateOf)
  {
    assert e in multiset(lb);
    assert multiset(KeepCurrent(lb, today, dateOf))[e] == multiset(lb)[e];
  }

  /** A daily entry stays exactly when it was submitted on today's date. */
  lemma DailyEntrySurvivesIffToday(lb: seq<Entry>, today: ValidDate, dateOf: string -> CalendarDate, e: Entry)
    requires e in lb && IsDaily(e)
    ensures e in KeepCurrent(lb, today, dateOf) <==> SameCalendarDay(today, dateOf(e.submitTime))
  {
    assert e in multiset(lb);
    if SameCalendarDay(today, dateOf(e.submitTime)) {
      assert multiset(KeepCurrent(lb, today, dateOf))[e] == multiset(lb)[e];
    }
  }

  lemma {:induction false} SubsequenceMembers(r: seq<Entry>, s: seq<Entry>)
    requires IsSubsequence(r, s)
    ensures forall x | x in r :: x in s
    decreases |s|
  {
    if r != [] {
      if r[0] == s[0] && IsSubsequence(r[1..], s[1..]) {
        SubsequenceMembers(r[1..], s[1..]);
        assert r == [r[0]] + r[1..];
      } else {
        SubsequenceMembers(r, s[1..]);
      }
    }
  }

  /** Leaving entries out of a ranked list keeps it ranked and no longer. */
  lemma {:induction false} SubsequenceKeepsRanking(r: seq<Entry>, s: seq<Entry>)
    requires IsSubsequence(r, s) && SortedByRank(s)
    ensures SortedByRank(r) && |r| <= |s|
    decreases |s|
  {
    if r != [] {
      SortedTail(s);
      if r[0] == s[0] && IsSubsequence(r[1..], s[1..]) {
        SubsequenceKeepsRanking(r[1..], s[1..]);
        SubsequenceMembers(r[1..], s[1..]);
        assert r == [r[0]] + r[1..];
        SortedCons(r[0], r[1..]);
      } else {
        SubsequenceKeepsRanking(r, s[1..]);
      }
    }
  }

  /** The sweep keeps a leaderboard within bounds and in ranked order. */
  lemma KeepCurrentKeepsRanking(lb: seq<Entry>, today: ValidDate, dateOf: string -> CalendarDate)
    requires SortedByRank(lb)
    ensures SortedByRank(KeepCurrent(lb, today, dateOf))
    ensures |KeepCurrent(lb, today, dateOf)| <= |lb|
  {
    SubsequenceKeepsRanking(KeepCurrent(lb, today, dateOf), lb);
  }
}
