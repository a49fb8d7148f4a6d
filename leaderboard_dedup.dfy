/**
 * The deduplicating insert of a finished game into the stored leaderboard:
 * old entries that share the new game's difficulty, seed or type are
 * dropped, the game is appended, and the list is sorted by start date.
 *
 * Start dates are compared by code point, standing for `localeCompare` on
 * the ISO date strings the game writes.
 */
module LeaderboardDedup {
  import opened Types
  import opened Collections
  import opened Sorting
  import opened Leaderboard

  /** Code-point lexicographic order on strings: `a` comes no later than `b`. */
  predicate LexLe(a: string, b: string)
  {
    a == [] || (b != [] && (a[0] < b[0] || (a[0] == b[0] && LexLe(a[1..], b[1..]))))
  }

  lemma {:induction false} LexLeTotal(a: string, b: string)
    ensures LexLe(a, b) || LexLe(b, a)
  {
    if a != [] && b != [] && a[0] == b[0] {
      LexLeTotal(a[1..], b[1..]);
    }
  }

  lemma {:induction false} LexLeTransitive(a: string, b: string, c: string)
    requires LexLe(a, b) && LexLe(b, c)
    ensures LexLe(a, c)
  {
    if a != [] && b != [] && c != [] && a[0] == b[0] && b[0] == c[0] {
      LexLeTransitive(a[1..], b[1..], c[1..]);
    }
  }

  /** The comparator `a.startDate.localeCompare(b.startDate)`, as "comes no later than". */
  function ByStartDate(a: LeaderboardItem, b: LeaderboardItem): bool
  {
    LexLe(a.startDate, b.startDate)
  }

  lemma ByStartDateTotal()
    ensures TotalPreorder(ByStartDate)
  {
    forall a: LeaderboardItem, b: LeaderboardItem
      ensures ByStartDate(a, b) || ByStartDate(b, a)
    {
      LexLeTotal(a.startDate, b.startDate);
    }
    forall a: LeaderboardItem, b: LeaderboardItem, c: LeaderboardItem | ByStartDate(a, b) && ByStartDate(b, c)
      ensures ByStartDate(a, c)
    {
      LexLeTransitive(a.startDate, b.startDate, c.startDate);
    }
  }

  /** An old entry is kept when its difficulty, its seed and its type all differ from the new game's. */
  function KeptBeside(item: LeaderboardItem): LeaderboardItem -> bool
  {
    (entry: LeaderboardItem) =>
      && entry.boardConfiguration.id != item.boardConfiguration.id
      && entry.boardConfiguration.seed != item.boardConfiguration.seed
      && entry.boardConfiguration.kind != item.boardConfiguration.kind
  }

  /** The list `addToLeaderboard` writes, from the list it read. */
  function NextLeaderboard(items: seq<LeaderboardItem>, item: LeaderboardItem): seq<LeaderboardItem>
  {
    SortBy(Filter(items, KeptBeside(item)) + [item], ByStartDate)
  }

  /** `addToLeaderboard`. */
  function AddToLeaderboard(stored: StoredValue, item: LeaderboardItem, writeSucceeds: bool): StoredValue
  {
    WriteLeaderboard(stored, NextLeaderboard(ReadLeaderboard(stored), item), writeSucceeds)
  }

  /**
   * The written list is the kept entries plus the new game, rearranged: the
   * game is in it, an old entry is in it only when it differs from the game
   * in difficulty, seed and type (or is equal to the game itself), it is
   * sorted by start date and one longer than the kept entries at most.
   */
  lemma NextLeaderboardSpec(items: seq<LeaderboardItem>, item: LeaderboardItem)
    ensures var r := NextLeaderboard(items, item);
      && multiset(r) == multiset(Filter(items, KeptBeside(item))) + multiset{item}
      && item in r
      && (forall e :: e in r && e != item ==> e in items && KeptBeside(item)(e))
      && (forall k :: 0 <= k < |items| && KeptBeside(item)(items[k]) ==> items[k] in r)
      && SortedBy(r, ByStartDate)
      && |r| <= |items| + 1
  {
    var kept := Filter(items, KeptBeside(item));
    var r := NextLeaderboard(items, item);
    assert multiset(kept + [item]) == multiset(kept) + multiset{item};
    SameMembers(kept + [item], r);
    FilterAppendMembers(items, KeptBeside(item), item);
    ByStartDateTotal();
    SortBySorted(kept + [item], ByStartDate);
  }

  /**
   * Entries with the same start date keep their order: the list written
   * lists the entries tied with any `x` as the kept entries followed by the
   * game list them.
   */
  lemma NextLeaderboardStable(items: seq<LeaderboardItem>, item: LeaderboardItem, x: LeaderboardItem)
    ensures Filter(NextLeaderboard(items, item), Tied(ByStartDate, x)) ==
      Filter(Filter(items, KeptBeside(item)) + [item], Tied(ByStartDate, x))
  {
    ByStartDateTotal();
    SortByStable(Filter(items, KeptBeside(item)) + [item], ByStartDate, x);
  }

  /** An entry sharing any one of difficulty, seed or type with the new game is dropped. */
  lemma SharedFieldDropped(items: seq<LeaderboardItem>, item: LeaderboardItem, e: LeaderboardItem)
    requires e != item
    requires e.boardConfiguration.id == item.boardConfiguration.id
      || e.boardConfiguration.seed == item.boardConfiguration.seed
      || e.boardConfiguration.kind == item.boardConfiguration.kind
    ensures e !in NextLeaderboard(items, item)
  {
    NextLeaderboardSpec(items, item);
  }

  /**
   * The store, once written, reads back as the deduplicated list of what
   * it held (nothing, when it held no parsed list); a failed write leaves
   * it as it was.
   */
  lemma AddToLeaderboardStored(stored: StoredValue, item: LeaderboardItem)
    ensures ReadLeaderboard(AddToLeaderboard(stored, item, true)) == NextLeaderboard(ReadLeaderboard(stored), item)
    ensures !stored.Items? ==> ReadLeaderboard(AddToLeaderboard(stored, item, true)) == [item]
    ensures AddToLeaderboard(stored, item, false) == stored
  {
    if !stored.Items? {
      assert Filter([], KeptBeside(item)) == [];
      assert SortBy([item], ByStartDate) == Insert(item, [], ByStartDate);
    }
  }
}
