/**
 * The order a leaderboard is kept in: `sortFunc` of `updateHighScores`, a
 * sort that respects it, and the cut to the first NUM_HIGH_SCORES entries.
 */
module Ranking {

  import opened Strings
  import opened Entries

  /** `x` belongs strictly before `y`: its score is the greater string, or the
      scores are equal and its submit time is the greater string. */
  predicate Outranks(x: Entry, y: Entry) {
    LexLess(y.score, x.score) || (x.score == y.score && LexLess(y.submitTime, x.submitTime))
  }

  /** `x` may stand before `y`: `y` does not outrank it. */
  predicate RanksAtLeast(x: Entry, y: Entry) {
    !Outranks(y, x)
  }

  /** `sortFunc(a, b)`: 1 puts `b` before `a`, -1 puts `a` before `b`. It
      never answers 0, so of two entries with the same score and the same
      submit time each is placed before the other. */
  function SortFunc(a: Entry, b: Entry): (r: int)
    ensures r == 1 || r == -1
    ensures r == 1 <==> Outranks(b, a)
  {
    LexLessIrreflexive(a.score);
    if b.score == a.score then
      (if LexLess(a.submitTime, b.submitTime) then 1 else -1)
    else
      (if LexLess(a.score, b.score) then 1 else -1)
  }

  /** The comparator is antisymmetric except on a full tie, where it is
      inconsistent: it answers -1 both ways, putting each of the two entries
      before the other. */
  lemma SortFuncConsistency(a: Entry, b: Entry)
    ensures (a.score == b.score && a.submitTime == b.submitTime) <==> SortFunc(a, b) == SortFunc(b, a)
    ensures SortFunc(a, b) == SortFunc(b, a) ==> SortFunc(a, b) == -1
  {
    LexLessIrreflexive(a.score);
    LexLessIrreflexive(a.submitTime);
    LexLessTotal(a.score, b.score);
    LexLessTotal(a.submitTime, b.submitTime);
    if LexLess(a.score, b.score) {
      LexLessAsymmetric(a.score, b.score);
    }
    if LexLess(b.score, a.score) {
      LexLessAsymmetric(b.score, a.score);
    }
    if LexLess(a.submitTime, b.submitTime) {
      LexLessAsymmetric(a.submitTime, b.submitTime);
    }
    if LexLess(b.submitTime, a.submitTime) {
      LexLessAsymmetric(b.submitTime, a.submitTime);
    }
  }

  /** RanksAtLeast in the terms of the comparator's two keys: the score does
      not go down, and on an equal score the submit time does not go down. */
  lemma RanksAtLeastByKeys(x: Entry, y: Entry)
    ensures RanksAtLeast(x, y) <==>
      LexLeq(y.score, x.score) && (x.score == y.score ==> LexLeq(y.submitTime, x.submitTime))
  {
    LexLeqIsNotGreater(y.score, x.score);
    LexLeqIsNotGreater(y.submitTime, x.submitTime);
    LexLessIrreflexive(x.score);
  }

  lemma RanksAtLeastTotal(x: Entry, y: Entry)
    ensures RanksAtLeast(x, y) || RanksAtLeast(y, x)
  {
    if LexLess(y.score, x.score) {
      LexLessAsymmetric(y.score, x.score);
    } else if x.score == y.score && LexLess(y.submitTime, x.submitTime) {
      LexLessAsymmetric(y.submitTime, x.submitTime);
      LexLessIrreflexive(x.score);
    }
  }

  lemma RanksAtLeastTransitive(x: Entry, y: Entry, z: Entry)
    requires RanksAtLeast(x, y) && RanksAtLeast(y, z)
    ensures RanksAtLeast(x, z)
  {
    RanksAtLeastByKeys(x, y);
    RanksAtLeastByKeys(y, z);
    RanksAtLeastByKeys(x, z);
    LexLeqTransitive(z.score, y.score, x.score);
    if x.score == z.score {
      LexLeqAntisymmetric(z.score, y.score);
      LexLeqTransitive(z.submitTime, y.submitTime, x.submitTime);
    }
  }

  /** Ordered as `sortFunc` asks: no entry outranks one placed before it. */
  ghost predicate SortedByRank(s: seq<Entry>) {
    forall i, j | 0 <= i < j < |s| :: RanksAtLeast(s[i], s[j])
  }

  /** A sorted list read pair by pair: each score is at least the next one,
      and on equal scores each submit time is at least the next one. */
  lemma {:induction false} SortedByKeys(s: seq<Entry>, i: nat)
    requires SortedByRank(s) && i + 1 < |s|
    ensures LexLeq(s[i + 1].score, s[i].score)
    ensures s[i].score == s[i + 1].score ==> LexLeq(s[i + 1].submitTime, s[i].submitTime)
  {
    RanksAtLeastByKeys(s[i], s[i + 1]);
  }

  lemma SortedTail(s: seq<Entry>)
    requires SortedByRank(s) && |s| > 0
    ensures SortedByRank(s[1..])
    ensures forall y | y in s[1..] :: RanksAtLeast(s[0], y)
  {
    forall y | y in s[1..] ensures RanksAtLeast(s[0], y) {
      var j :| 0 <= j < |s[1..]| && s[1..][j] == y;
      assert s[j + 1] == y;
    }
  }

  lemma SortedCons(x: Entry, s: seq<Entry>)
    requires SortedByRank(s)
    requires forall y | y in s :: RanksAtLeast(x, y)
    ensures SortedByRank([x] + s)
  {
    var r := [x] + s;
    forall i, j | 0 <= i < j < |r| ensures RanksAtLeast(r[i], r[j]) {
      if i == 0 {
        assert r[j] == s[j - 1];
        assert r[j] in s;
      } else {
        assert r[i] == s[i - 1] && r[j] == s[j - 1];
      }
    }
  }

  /** Inserts `x` into a sorted list before the first entry it ranks at least as
      high as. */
  function Insert(x: Entry, s: seq<Entry>): (r: seq<Entry>)
    requires SortedByRank(s)
    ensures multiset(r) == multiset(s) + multiset{x}
    ensures SortedByRank(r)
  {
    if s == [] then
      [x]
    else if RanksAtLeast(x, s[0]) then
      SortedTail(s);
      InsertFront(x, s);
      [x] + s
    else
      SortedTail(s);
      RanksAtLeastTotal(x, s[0]);
      var t := Insert(x, s[1..]);
      InsertBehind(s[0], x, s[1..], t);
      assert s == [s[0]] + s[1..];
      [s[0]] + t
  }

  lemma InsertBehind(h: Entry, x: Entry, s: seq<Entry>, t: seq<Entry>)
    requires SortedByRank(t) && multiset(t) == multiset(s) + multiset{x}
    requires RanksAtLeast(h, x) && forall y | y in s :: RanksAtLeast(h, y)
    ensures SortedByRank([h] + t)
  {
    forall y | y in t ensures RanksAtLeast(h, y) {
      assert y in multiset(t);
    }
    SortedCons(h, t);
  }

  lemma InsertFront(x: Entry, s: seq<Entry>)
    requires SortedByRank(s) && |s| > 0 && RanksAtLeast(x, s[0])
    requires forall y | y in s[1..] :: RanksAtLeast(s[0], y)
    ensures SortedByRank([x] + s)
  {
    forall y | y in s ensures RanksAtLeast(x, y) {
      if y != s[0] {
        assert s == [s[0]] + s[1..];
        RanksAtLeastTransitive(x, s[0], y);
      }
    }
    SortedCons(x, s);
  }

  /** A sort by `sortFunc`: a permutation of `s` in which no entry outranks one
      before it. Entries that tie on both keys may come in either order in
      the source; this sort is one of the admissible results. */
  function Sort(s: seq<Entry>): (r: seq<Entry>)
    ensures multiset(r) == multiset(s)
    ensures SortedByRank(r)
  {
    if s == [] then [] else
      assert s == [s[0]] + s[1..];
      Insert(s[0], Sort(s[1..]))
  }

  function Min(a: nat, b: nat): nat {
    if a < b then a else b
  }

  /** `.slice(0, NUM_HIGH_SCORES)`. */
  function Top(s: seq<Entry>): (r: seq<Entry>)
    ensures |r| == Min(|s|, NumHighScores) && r == s[..|r|]
  {
    s[..Min(|s|, NumHighScores)]
  }

  /**
   * `n` is what `sort(sortFunc).slice(0, NUM_HIGH_SCORES)` may leave of `m`:
   * NUM_HIGH_SCORES entries of `m` (or all of them), nothing invented, in
   * ranked order, and every entry of `m` that was dropped ranks no higher than
   * each one that was kept.
   */
  ghost predicate IsRankedTop(n: seq<Entry>, m: seq<Entry>) {
    && |n| == Min(|m|, NumHighScores)
    && multiset(n) <= multiset(m)
    && SortedByRank(n)
    && forall k, d | k in n && d in multiset(m) - multiset(n) :: RanksAtLeast(k, d)
  }

  /** Cutting any sorted permutation of `m` gives a ranked top of `m`. */
  lemma SortedPrefixIsRankedTop(r: seq<Entry>, m: seq<Entry>)
    requires multiset(r) == multiset(m) && SortedByRank(r)
    ensures IsRankedTop(Top(r), m)
  {
    assert |r| == |multiset(r)| == |multiset(m)| == |m|;
    var t := Min(|r|, NumHighScores);
    SplitMultiset(r, t);
    SortedSplit(r, t);
  }

  lemma SplitMultiset(r: seq<Entry>, t: nat)
    requires t <= |r|
    ensures multiset(r) - multiset(r[..t]) == multiset(r[t..])
    ensures multiset(r[..t]) <= multiset(r)
  {
    assert r == r[..t] + r[t..];
  }

  lemma SortedSplit(r: seq<Entry>, t: nat)
    requires t <= |r| && SortedByRank(r)
    ensures SortedByRank(r[..t])
    ensures forall k, d | k in r[..t] && d in multiset(r[t..]) :: RanksAtLeast(k, d)
  {
    forall k, d | k in r[..t] && d in multiset(r[t..]) ensures RanksAtLeast(k, d) {
      var i :| 0 <= i < t && r[..t][i] == k;
      var j :| 0 <= j < |r[t..]| && r[t..][j] == d;
      assert r[i] == k && r[t + j] == d;
    }
  }

  /** What the source stores is one such top: the sort's result, cut. */
  lemma TopOfSortIsRankedTop(m: seq<Entry>)
    ensures IsRankedTop(Top(Sort(m)), m)
  {
    SortedPrefixIsRankedTop(Sort(m), m);
  }

  /** When the merged list fits, nothing is dropped: the top holds every entry. */
  lemma {:induction false} RankedTopKeepsAllWhenItFits(n: seq<Entry>, m: seq<Entry>)
    requires IsRankedTop(n, m) && |m| <= NumHighScores
    ensures multiset(n) == multiset(m)
  {
    var d := multiset(m) - multiset(n);
    assert multiset(m) == multiset(n) + d;
    assert |multiset(m)| == |multiset(n)| + |d|;
    assert |d| == 0;
  }
}
