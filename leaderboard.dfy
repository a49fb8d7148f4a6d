/**
 * The leaderboard: the stored list of finished games, appended to after a
 * game and ranked by duration for one difficulty.
 *
 * Storage is a value: what the store holds before a call is a parameter,
 * and a write is a new stored value, or the old one when the write fails.
 */
module Leaderboard {
  import opened Types
  import opened Collections
  import opened Sorting
  import opened TimeFormat

  /** A finished game as the leaderboard keeps it. */
  datatype LeaderboardItem = LeaderboardItem(
    boardConfiguration: BoardConfiguration,
    revealedCells: int,
    startDate: string,
    startTime: int,
    finishTime: int)

  /**
   * What the store holds under the leaderboard key: nothing (or an empty
   * string), text that does not parse, or a parsed list.
   */
  datatype StoredValue = Missing | Corrupt | Items(items: seq<LeaderboardItem>)

  /** `getLeaderboard`: anything but a parsed list reads as the empty list. */
  function ReadLeaderboard(stored: StoredValue): (r: seq<LeaderboardItem>)
    ensures stored.Items? ==> r == stored.items
    ensures !stored.Items? ==> r == []
  {
    if stored.Items? then stored.items else []
  }

  /** `setLeaderboard`: a failed write is swallowed and the store keeps its old value. */
  function WriteLeaderboard(stored: StoredValue, items: seq<LeaderboardItem>, writeSucceeds: bool): (r: StoredValue)
    ensures writeSucceeds ==> r == Items(items)
    ensures !writeSucceeds ==> r == stored
  {
    if writeSucceeds then Items(items) else stored
  }

  /** `addToLeaderboard`: the stored list with the item appended. */
  function AddToLeaderboard(stored: StoredValue, item: LeaderboardItem, writeSucceeds: bool): StoredValue
  {
    WriteLeaderboard(stored, ReadLeaderboard(stored) + [item], writeSucceeds)
  }

  /** A written item is read back last, after the old list (empty when the store held none). */
  lemma AddAppends(stored: StoredValue, item: LeaderboardItem)
    ensures ReadLeaderboard(AddToLeaderboard(stored, item, true)) == ReadLeaderboard(stored) + [item]
    ensures !stored.Items? ==> ReadLeaderboard(AddToLeaderboard(stored, item, true)) == [item]
    ensures AddToLeaderboard(stored, item, false) == stored
  {
  }

  /** The results of at most 3 games are listed when no limit is given. */
  const DefaultLimit: int := 3

  function OfDifficulty(difficulty: Difficulty): LeaderboardItem -> bool
  {
    (item: LeaderboardItem) => item.boardConfiguration.id == difficulty
  }

  function Duration(item: LeaderboardItem): int
  {
    item.finishTime - item.startTime
  }

  /** The comparator `a - b`, as "comes no later than". */
  function NumberLe(a: int, b: int): bool
  {
    a <= b
  }

  lemma NumberLeTotal()
    ensures TotalPreorder(NumberLe)
  {
  }

  /** `filter((_, index) => index < limit)`: the first `limit` elements. */
  function TakeFirst<T>(s: seq<T>, limit: int): (r: seq<T>)
    ensures |r| == if limit <= 0 then 0 else if limit < |s| then limit else |s|
    ensures r == s[..|r|]
  {
    if limit <= 0 then [] else if limit < |s| then s[..limit] else s
  }

  /** The durations of one difficulty's games, fastest first, at most `limit` of them. */
  function FastestDurations(stored: StoredValue, difficulty: Difficulty, limit: int): seq<int>
  {
    var durations := Map(Filter(ReadLeaderboard(stored), OfDifficulty(difficulty)), Duration);
    TakeFirst(SortBy(durations, NumberLe), limit)
  }

  /** The `MM:SS` text of a duration. */
  function MinutesSeconds(ms: int): string
  {
    MinutesField(ms) + ":" + SecondsField(ms)
  }

  /** `getFastestTimes`. */
  function GetFastestTimes(stored: StoredValue, difficulty: Difficulty, limit: int): (r: seq<string>)
    ensures |r| == |FastestDurations(stored, difficulty, limit)|
    ensures forall k :: 0 <= k < |r| ==> r[k] == MinutesSeconds(FastestDurations(stored, difficulty, limit)[k])
  {
    Map(FastestDurations(stored, difficulty, limit), MinutesSeconds)
  }

  /** `getFastestTimes(difficulty)` with the default limit. */
  function GetFastestTimesDefault(stored: StoredValue, difficulty: Difficulty): seq<string>
  {
    GetFastestTimes(stored, difficulty, DefaultLimit)
  }

  /** A prefix of a sorted list holds its smallest elements. */
  lemma PrefixSmallest(sorted: seq<int>, n: nat)
    requires SortedBy(sorted, NumberLe) && n <= |sorted|
    ensures var r := sorted[..n];
      && Ascending(r)
      && multiset(r) <= multiset(sorted)
      && forall x, y :: x in r && y in multiset(sorted) - multiset(r) ==> x <= y
  {
    var r := sorted[..n];
    assert sorted == r + sorted[n..];
    assert multiset(sorted) == multiset(r) + multiset(sorted[n..]);
    forall x, y | x in r && y in multiset(sorted) - multiset(r)
      ensures x <= y
    {
      var i :| 0 <= i < n && r[i] == x;
      assert y in sorted[n..];
      var j :| 0 <= j < |sorted| - n && sorted[n..][j] == y;
      assert NumberLe(sorted[i], sorted[n + j]);
    }
  }

  /** `d` is the duration of a stored game of the difficulty. */
  ghost predicate StoredDuration(stored: StoredValue, difficulty: Difficulty, d: int)
  {
    exists g ::
      && g in ReadLeaderboard(stored)
      && g.boardConfiguration.id == difficulty && d == g.finishTime - g.startTime
  }

  /** Every duration of the difficulty's games is the duration of a stored game of that difficulty. */
  lemma DurationsOfDifficulty(stored: StoredValue, difficulty: Difficulty, d: int)
    requires d in multiset(Map(Filter(ReadLeaderboard(stored), OfDifficulty(difficulty)), Duration))
    ensures StoredDuration(stored, difficulty, d)
  {
    var games := Filter(ReadLeaderboard(stored), OfDifficulty(difficulty));
    var all := Map(games, Duration);
    var j :| 0 <= j < |all| && all[j] == d;
    assert games[j] in ReadLeaderboard(stored) && OfDifficulty(difficulty)(games[j]);
  }

  /**
   * The ranking: ascending durations, as many as the smaller of `limit` and
   * the number of the difficulty's games (none for a limit of 0 or less),
   * each the duration of a stored game of that difficulty, and no
   * duration left out is smaller than one listed.
   */
  lemma FastestDurationsRanked(stored: StoredValue, difficulty: Difficulty, limit: int)
    ensures var r := FastestDurations(stored, difficulty, limit);
      var games := Filter(ReadLeaderboard(stored), OfDifficulty(difficulty));
      var all := Map(games, Duration);
      && Ascending(r)
      && |r| == (if limit <= 0 then 0 else if limit < |games| then limit else |games|)
      && (forall k :: 0 <= k < |r| ==> StoredDuration(stored, difficulty, r[k]))
      && multiset(r) <= multiset(all)
      && (forall x, y :: x in r && y in multiset(all) - multiset(r) ==> x <= y)
  {
    var games := Filter(ReadLeaderboard(stored), OfDifficulty(difficulty));
    var all := Map(games, Duration);
    var sorted := SortBy(all, NumberLe);
    var r := FastestDurations(stored, difficulty, limit);
    NumberLeTotal();
    SortBySorted(all, NumberLe);
    assert r == sorted[..|r|];
    PrefixSmallest(sorted, |r|);
    RankedFromStored(stored, difficulty, r);
  }

  /** Durations drawn from the difficulty's durations are durations of stored games of that difficulty. */
  lemma RankedFromStored(stored: StoredValue, difficulty: Difficulty, r: seq<int>)
    requires multiset(r) <= multiset(Map(Filter(ReadLeaderboard(stored), OfDifficulty(difficulty)), Duration))
    ensures forall k :: 0 <= k < |r| ==> StoredDuration(stored, difficulty, r[k])
  {
    forall k | 0 <= k < |r|
      ensures StoredDuration(stored, difficulty, r[k])
    {
      var all := Map(Filter(ReadLeaderboard(stored), OfDifficulty(difficulty)), Duration);
      assert r[k] in multiset(r);
      assert multiset(all)[r[k]] >= multiset(r)[r[k]] > 0;
      DurationsOfDifficulty(stored, difficulty, r[k]);
    }
  }

  /**
   * Each listed time is `MM:SS`: the whole minutes in at least two digits,
   * a colon, and the seconds past the minute in exactly two digits.
   */
  lemma MinutesSecondsShape(ms: nat)
    ensures var t := MinutesSeconds(ms); var m := MinutesField(ms);
      && |t| == |m| + 3 && t[..|m|] == m && t[|m|] == ':'
      && |m| >= 2 && AllDigits(m) && ParseNat(m) == ms / 60000
      && AllDigits(t[|m| + 1..]) && ParseNat(t[|m| + 1..]) == (ms / 1000) % 60
  {
    var m, sec := MinutesField(ms), SecondsField(ms);
    TimeFields(ms);
    ColonParts(MinutesSeconds(ms), m, sec);
  }

  /** The two fields of `m ":" sec` sit on either side of the colon. */
  lemma ColonParts(t: string, m: string, sec: string)
    requires t == m + ":" + sec
    ensures |t| == |m| + 1 + |sec| && t[..|m|] == m && t[|m|] == ':' && t[|m| + 1..] == sec
  {
  }
}
