# simple-highscores leaderboard, modelled in Dafny

A model of the leaderboard logic of `server.js` from simple-highscores: one
process-wide store `highScores`, mapping a game name to its ranked list of
score entries, and the operations the HTTP handlers run on it.

- **Submit** (`updateHighScores`): the submission is stamped with the server
  time; the player is found by lower-cased name, the submitted name cut to 12
  characters for that comparison only; the first matching entry is replaced
  by the whole submission carrying the higher of the two scores, otherwise the
  submission is appended; the list is sorted by score, then submit time, both
  descending, and cut to 10 entries.
- **Daily sweep** (`deleteExpiredDailyScores`): every game's list is filtered;
  a daily entry survives only on the calendar day it was submitted.
- **Gate, lookup, delete** (`handlePut`, `handleGet`, `handleDelete`).

Layout, one module per file:

| file | module | contents |
|---|---|---|
| wrappers.dfy | Wrappers | `Option` |
| strings.dfy | Strings | JavaScript string order (`LexLess`), ASCII `Lower`, `Truncate`, order lemmas |
| entries.dfy | Entries | `Entry`, `MaxNameLength` = 12, `NumHighScores` = 10 |
| ranking.dfy | Ranking | `sortFunc`, the ranked order, a sort, the cut to 10 (`IsRankedTop`) |
| merging.dfy | Merging | match key, first match, max-merge, `Merge`, distinct-name lemmas |
| expiry.dfy | Expiry | calendar dates, `daily` truthiness, the sweep filter `KeepCurrent` |
| server.dfy | Server | the gate, `EntryOf`, `GameKey`, class `HighScores` with the store and its methods |
| scenarios.dfy | Scenarios | concrete submissions showing the quirks below |

The store is a class `HighScores` whose field `highScores: map<string, seq<Entry>>`
the methods reassign. Its ghost predicate `Ranked()` (every list has at most
10 entries, in ranked order) holds of the empty store and is preserved by
submit, delete and the sweep.

Scores and submit times are strings, as in the source: a score is a query
string value and the submit time is `getTime().toString()`. Every `>` on them
is JavaScript's string comparison, modelled as `Strings.LexLess` and proved a
strict total order. The sort is specified as "some permutation in which no
entry outranks an earlier one", because `sortFunc` never returns 0. On two
entries with equal score and equal submit time it answers -1 both ways, so it
puts each before the other,
so the source leaves their order open. The stored list is "a ranked top 10"
(`Ranking.IsRankedTop`): at most 10 entries, all taken from the merged list, in
ranked order, and every dropped entry ranks no higher than every kept one.

Inputs that are not data: the clock value `now` (the stamp string), the date
`today` of `new Date()` (always a valid date), and `dateOf`, which maps a submit time string to its
local calendar date (`new Date(parseInt(t))`). `dateOf` may give `InvalidDate`,
the NaN date, which matches no day.

### Behaviour that is easy to misread

- Scores are strings, so "9" ranks above "10" (`Scenarios.NineOutranksTen`),
  and resubmitting "10" over a stored "9" keeps "9"
  (`Scenarios.TenOverNineKeepsNine`).
- Only the comparison key is cut to 12 characters; the stored name keeps its
  full length. Under ASCII lower-casing a stored name longer than 12
  characters therefore never matches again (`Merging.LongNameNeverMatches`).
  Submitting such a name a second time appends a second entry for the same
  player instead of replacing the first, unless some stored name equals its
  cut key: that other player's entry is then overwritten
  (`Scenarios.LongNameOverwritesPrefixPlayer`). `Merging.LongNameIsStoredTwice`
  shows that, starting from an empty board, both entries stay on it; on a
  full board a low score may already be cut the first time.
  Names stay distinct for submitted names of at most 12 characters
  (`Merging.MergeKeepsNamesDistinct`).
- The gate checks only that `game` and `score` are present, so an empty game
  or an empty score is accepted; only the name must be non-empty
  (`Scenarios.GateChecksPresence`).
- `daily` is tested by the truthiness of a string, so `daily=false` marks an
  entry daily (`Scenarios.DailyFalseIsDaily`).

## Model

| member | source | states |
|---|---|---|
| Strings.LexLessIrreflexive | server.js:28-31 | no string is `>` itself |
| Strings.LexLessAsymmetric | server.js:28-31 | `a < b` excludes `b < a` |
| Strings.LexLessTransitive | server.js:28-31 | string `<` is transitive |
| Strings.LexLessTotal | server.js:28-31 | two different strings are ordered one way or the other |
| Strings.LexLeqIsNotGreater | server.js:57 | `a <= b` holds exactly when `b < a` does not, so the ternary's "not greater" branch is "at most" |
| Strings.LexLeqTransitive | server.js:28-31 | `<=` on strings is transitive |
| Strings.LexLeqAntisymmetric | server.js:27-31 | `a <= b` and `b <= a` give `a === b` |
| Strings.LexLess | server.js:28-31 | JavaScript's string `<`: character codes compared left to right, a proper prefix first (also the `>` at server.js:57) |
| Strings.Lower | server.js:56 | lower-casing keeps the length and maps each character on its own (ASCII) |
| Strings.Truncate | server.js:46-49 | the result is a prefix of at most 12 characters, the whole name if it is no longer |
| Ranking.Outranks | server.js:26-33 | `x` goes strictly before `y`: greater score string, or equal score and greater submit time string |
| Ranking.RanksAtLeast | server.js:26-33 | `x` may stand before `y`: `y` does not outrank `x` |
| Ranking.SortFunc | server.js:26-33 | the comparator answers 1 or -1, never 0, and 1 exactly when `b` outranks `a` |
| Ranking.SortFuncConsistency | server.js:26-33 | the comparator answers the same both ways exactly on a full tie of score and submit time, and then answers -1 |
| Ranking.RanksAtLeastByKeys | server.js:26-33 | "may stand before" means: score not lower, and on equal score submit time not lower |
| Ranking.RanksAtLeastTotal | server.js:26-33 | of any two entries one may stand before the other |
| Ranking.RanksAtLeastTransitive | server.js:26-33 | the ranking is transitive |
| Ranking.SortedByKeys | server.js:70 | in a sorted list each score is at least the next, and on equal scores each submit time is at least the next |
| Ranking.Insert | server.js:70 | inserting into a sorted list keeps it sorted and adds exactly that entry |
| Ranking.Sort | server.js:70 | the sort returns a permutation of its input in ranked order |
| Ranking.Top | server.js:70 | `slice(0, NUM_HIGH_SCORES)` keeps the first min(10, n) entries |
| Ranking.IsRankedTop | server.js:70 | what the cut of a sort may leave: min(10, n) entries, none invented, ranked, no dropped entry above a kept one |
| Ranking.SortedPrefixIsRankedTop | server.js:70 | cutting any sorted permutation gives at most 10 entries, none invented, ranked, no dropped entry above a kept one |
| Ranking.TopOfSortIsRankedTop | server.js:70 | the sort then the cut is such a ranked top |
| Ranking.RankedTopKeepsAllWhenItFits | server.js:70 | a merged list of at most 10 entries loses none |
| Merging.MatchKey | server.js:46-49 | the comparison key is the cut name lower-cased: at most 12 characters, the whole lower-cased name when it is no longer |
| Merging.SameName | server.js:56 | an entry matches when its lower-cased name equals the key |
| Merging.FirstMatch | server.js:51-64 | the loop stops at the first entry whose lower-cased name equals the key, or finds none |
| Merging.MaxScore | server.js:57 | the higher score is one of the two and at least both, in string order |
| Merging.Merge | server.js:35-68 | with no match the stamped submission is appended; otherwise the first match is replaced by the stamped submission with the max score, and nothing else changes |
| Merging.MergeLength | server.js:53-68 | the merge keeps the length on a match, and adds one entry otherwise |
| Merging.MergeNeverLowersScore | server.js:57-61 | the merged entry's score is at least the old and the submitted score |
| Merging.MergeKeepsNamesDistinct | server.js:46-68 | with distinct names before and a name of at most 12 characters, names stay distinct |
| Merging.SubMultisetKeepsNamesDistinct | server.js:70 | sorting and cutting keep names distinct |
| Merging.LongNameNeverMatches | server.js:46-56 | a stored name over 12 characters never equals a cut comparison key |
| Merging.LongNameIsStoredTwice | server.js:46-70 | submitted twice to an empty board, a long name is on it twice |
| Expiry.KeepCurrent | server.js:127-146 | the filter keeps exactly the entries that should stay, each as often as before, in their order |
| Expiry.SameCalendarDay | server.js:133-135 | day, month and year all equal; an invalid (NaN) date equals nothing |
| Expiry.IsDaily | server.js:130 | `daily` is present and non-empty |
| Expiry.ShouldKeep | server.js:128-137 | an entry is kept when it is not daily or was submitted on today's date |
| Expiry.PermanentEntriesSurvive | server.js:128-130 | an entry whose `daily` is absent or empty always survives |
| Expiry.DailyEntrySurvivesIffToday | server.js:130-137 | a daily entry survives exactly when its day, month and year equal today's |
| Expiry.SubsequenceKeepsRanking | server.js:127 | leaving entries out keeps a list ranked and no longer |
| Expiry.KeepCurrentKeepsRanking | server.js:125-147 | the sweep leaves each list ranked and no longer than before |
| Server.ValidSubmission | server.js:98 | `game`, `score` and `name` are present and the name is non-empty |
| Server.EntryOf | server.js:92-96 | the submission carries the request's name, score, game and daily parameters and every other parameter |
| Server.GameKey | server.js:82 | the requested game, or "null" when the parameter is missing |
| Server.HighScores.constructor | server.js:11 | the store starts empty and ranked |
| Server.HighScores.Leaderboard | server.js:40 | `highScores[game] \|\| []`: the stored list, or empty for an unknown game |
| Server.HighScores.UpdateHighScores | server.js:25-74 | only key `game` changes; its new list is a ranked top 10 of the merge; `Ranked()` is kept; distinct names survive short-name submissions |
| Server.HighScores.HandlePut | server.js:91-118 | the store is updated by a submit exactly when game, score and name are present and the name is non-empty, and then as a submit |
| Server.HighScores.HandleGet | server.js:81-88 | the lookup returns the stored list, or empty for an unknown game |
| Server.HighScores.HandleDelete | server.js:120-123 | exactly the key `game` is removed; an absent key is a no-op |
| Server.HighScores.DeleteExpiredDailyScores | server.js:125-148 | the key set is unchanged and every list becomes its filtered version; `Ranked()` is kept |
| Scenarios.NineOutranksTen | server.js:31 | score "9" outranks score "10" |
| Scenarios.TenOverNineKeepsNine | server.js:57-61 | resubmitting "10" over "9" stores "9" |
| Scenarios.SameNameLowerScore | server.js:53-68 | "Ann" 5 then "ann" 3 leaves one entry, score 5, spelled "ann" |
| Scenarios.LongNameOverwritesPrefixPlayer | server.js:46-61 | a long name never matches its own entry but replaces the entry stored under its first 12 characters, with the max score |
| Scenarios.MergeOverwritesDaily | server.js:60-61 | a match takes the submission's `daily` flag |
| Scenarios.GateChecksPresence | server.js:98 | empty game and score pass the gate; an empty name or a missing score does not |
| Scenarios.DailyFalseIsDaily | server.js:130 | `daily=false` counts as daily |

## Left out

- The HTTP server is not modelled: method dispatch, HEAD and OPTIONS, status codes, headers and response bodies (server.js:76-88, 100-117, 151-186). It is I/O plumbing.
- The dispatch also runs the sweep before every request. The model offers the sweep and the handlers as separate operations and leaves their order to the caller.
- Query-string decoding by `URLSearchParams` is not modelled. Parameters arrive as a decoded map. A parameter given twice is therefore not modelled: `params.get` takes the first value, the `entries()` loop keeps the last.
- Loading and saving `highScores.json`, and its JSON form, are not modelled. This is asynchronous file I/O. A loaded snapshot need not satisfy `Ranked()`, and its fields need not be strings.
- `console.log` calls are left out, because they are logging only.
- The clock and the local-time calendar are parameters (`now`, `today`, `dateOf`), not modelled. The source calls `new Date()` once per daily entry, so a sweep running across midnight can use two dates. The model uses one.
- `toLowerCase` is modelled for ASCII letters only.
- Strings are sequences of Dafny characters (Unicode scalar values). JavaScript compares, measures and cuts UTF-16 code units, and the two differ outside the Basic Multilingual Plane.
- Server.HighScores.UpdateHighScores: says only that the new list is some ranked top 10, not which order tied entries take. ECMAScript leaves the result of a sort with an inconsistent comparator implementation-defined, and the model assumes the engine's sort respects the order wherever the comparator is consistent.
- Game names that are properties of `Object.prototype` (`"constructor"`, `"__proto__"`) are not modelled. In the source they read as non-arrays.
- The source merges into the stored array in place before it writes the key back. The model works on a copy of the list and writes it back, which gives the same result.
