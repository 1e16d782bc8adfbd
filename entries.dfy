/** The entity stored on a leaderboard, and the leaderboard's constants. */
module Entries {

  import opened Wrappers

  /** MAX_NAME_LENGTH: the number of characters of a name used to find a player. */
  const MaxNameLength: nat := 12

  /** NUM_HIGH_SCORES: the number of entries a leaderboard keeps. */
  const NumHighScores: nat := 10

  /**
   * One submission as stored: the query parameters of the PUT request that
   * produced it, plus the server's time stamp. `score` and `submitTime` are
   * strings (a query-string value and `getTime().toString()`); `daily` is the
   * `daily` parameter if it was given; `extra` holds every other parameter.
   */
  datatype Entry = Entry(
    name: string,
    score: string,
    game: string,
    submitTime: string,
    daily: Option<string>,
    extra: map<string, string>)
}
