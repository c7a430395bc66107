/**
 * The logic of the list screen (EarthQuake/ContentView.swift): the rows
 * it shows, newest first; the title it derives from their count; and its
 * two ways of deleting rows.
 */
module ContentView {
  import opened QuakeModel
  import opened Store

  // ---------------------------------------------------------------------
  // `@Query(sort: \Quake.timestamp, order: .reverse)`
  // ---------------------------------------------------------------------

  /** Every row is at least as recent as every row after it. */
  predicate NewestFirst(s: seq<Quake>) {
    forall i, j :: 0 <= i < j < |s| ==> NotOlder(s[i].timestamp, s[j].timestamp)
  }

  /** Puts `q` into a list just ahead of the first row no more recent than it. */
  function InsertByTime(q: Quake, sorted: seq<Quake>): (r: seq<Quake>)
    ensures |r| == |sorted| + 1 && multiset(r) == multiset(sorted) + multiset{q}
    ensures forall x :: x in r <==> x == q || x in sorted
  {
    if sorted == [] || NotOlder(q.timestamp, sorted[0].timestamp) then
      [q] + sorted
    else
      assert sorted == [sorted[0]] + sorted[1..];
      [sorted[0]] + InsertByTime(q, sorted[1..])
  }

  /** Inserting into a newest-first list keeps it newest-first. */
  lemma {:induction false} InsertByTimeKeepsOrder(q: Quake, sorted: seq<Quake>)
    requires NewestFirst(sorted)
    ensures NewestFirst(InsertByTime(q, sorted))
  {
    if sorted != [] && !NotOlder(q.timestamp, sorted[0].timestamp) {
      var head, tail := sorted[0], sorted[1..];
      InsertByTimeKeepsOrder(q, tail);
      var rest := InsertByTime(q, tail);
      forall j | 0 <= j < |rest| ensures NotOlder(head.timestamp, rest[j].timestamp) {
        assert rest[j] in rest;
        if rest[j] != q {
          var k :| 0 <= k < |tail| && tail[k] == rest[j];
          assert sorted[k + 1] == rest[j];
        }
      }
      assert InsertByTime(q, sorted) == [head] + rest;
    }
  }

  /** Inserting a row with a fresh code keeps the codes unique. */
  lemma {:induction false} InsertByTimeKeepsCodesUnique(q: Quake, sorted: seq<Quake>)
    requires UniqueCodes(sorted) && q.code !in Codes(sorted)
    ensures UniqueCodes(InsertByTime(q, sorted))
  {
    if sorted == [] || NotOlder(q.timestamp, sorted[0].timestamp) {
      UniqueCodesCons(q, sorted);
    } else {
      var rest := InsertByTime(q, sorted[1..]);
      assert forall x :: x in sorted[1..] ==> x in sorted;
      InsertByTimeKeepsCodesUnique(q, sorted[1..]);
      HeadCodeNotInTail(sorted);
      assert sorted[0].code !in Codes(rest);
      UniqueCodesCons(sorted[0], rest);
    }
  }

  /**
   * The displayed order: newest first, and among rows with the same
   * timestamp the one inserted first comes first.
   */
  function SortNewestFirst(rows: seq<Quake>): (items: seq<Quake>)
    ensures NewestFirst(items)
    ensures |items| == |rows| && multiset(items) == multiset(rows)
    ensures forall x :: x in items <==> x in rows
  {
    if rows == [] then []
    else
      assert rows == [rows[0]] + rows[1..];
      InsertByTimeKeepsOrder(rows[0], SortNewestFirst(rows[1..]));
      InsertByTime(rows[0], SortNewestFirst(rows[1..]))
  }

  /** The sorted list has the same codes as the rows, each still once. */
  lemma {:induction false} SortKeepsCodesUnique(rows: seq<Quake>)
    requires UniqueCodes(rows)
    ensures UniqueCodes(SortNewestFirst(rows))
  {
    if rows != [] {
      assert forall x :: x in rows[1..] ==> x in rows;
      SortKeepsCodesUnique(rows[1..]);
      HeadCodeNotInTail(rows);
      var tail := SortNewestFirst(rows[1..]);
      assert Codes(tail) == Codes(rows[1..]);
      InsertByTimeKeepsCodesUnique(rows[0], tail);
    }
  }

  /** The list the screen shows. */
  function Items(store: QuakeStore): (items: seq<Quake>)
    reads store
    ensures NewestFirst(items)
    ensures multiset(items) == multiset(store.rows)
  {
    SortNewestFirst(store.rows)
  }

  // ---------------------------------------------------------------------
  // `pluralizedTitle`
  // ---------------------------------------------------------------------

  function DigitChar(d: nat): char
    requires d < 10
  {
    "0123456789"[d]
  }

  predicate IsDigit(c: char) {
    '0' <= c <= '9'
  }

  /** `"\(n)"`: the decimal numeral of `n`, without leading zeros. */
  function DecimalString(n: nat): (s: string)
    ensures |s| >= 1 && (forall i :: 0 <= i < |s| ==> IsDigit(s[i]))
    ensures |s| > 1 ==> s[0] != '0'
  {
    if n < 10 then [DigitChar(n)] else DecimalString(n / 10) + [DigitChar(n % 10)]
  }

  /** Reads a string of decimal digits back as a number. */
  function DecimalValue(s: string): nat
    requires forall i :: 0 <= i < |s| ==> IsDigit(s[i])
  {
    if s == [] then 0
    else
      var last := s[|s| - 1];
      assert IsDigit(last);
      DecimalValue(s[..|s| - 1]) * 10 + (last as int - '0' as int)
  }

  /** The numeral denotes the number it was made from. */
  lemma {:induction false} DecimalRoundTrip(n: nat)
    ensures DecimalValue(DecimalString(n)) == n
  {
    var s := DecimalString(n);
    if n >= 10 {
      DecimalRoundTrip(n / 10);
      assert s[..|s| - 1] == DecimalString(n / 10);
    }
  }

  /** The title above the list for `count` items. */
  function PluralizedTitle(count: nat): (title: string)
    ensures count == 0 ==> title == "No quakes"
    ensures count == 1 ==> title == "One quake"
    ensures count >= 2 ==> title == DecimalString(count) + " quakes"
  {
    if count == 0 then "No quakes"
    else if count == 1 then "One quake"
    else DecimalString(count) + " quakes"
  }

  /** Only a title for two or more items starts with a digit. */
  lemma TitleStartsWithDigit(count: nat)
    ensures |PluralizedTitle(count)| > 0
    ensures IsDigit(PluralizedTitle(count)[0]) <==> count >= 2
  {
  }

  /** Different counts get different titles: the title always tells the count. */
  lemma TitleDeterminesCount(a: nat, b: nat)
    requires PluralizedTitle(a) == PluralizedTitle(b)
    ensures a == b
  {
    var ta, tb := PluralizedTitle(a), PluralizedTitle(b);
    TitleStartsWithDigit(a);
    TitleStartsWithDigit(b);
    if a >= 2 && b >= 2 {
      var da, db := DecimalString(a), DecimalString(b);
      assert |da| == |db|;
      assert da == ta[..|da|] == tb[..|db|] == db;
      DecimalRoundTrip(a);
      DecimalRoundTrip(b);
    }
  }

  // ---------------------------------------------------------------------
  // Deleting
  // ---------------------------------------------------------------------

  /** The items found at `offsets` in a list; offsets past its end find nothing. */
  function ItemsAt(items: seq<Quake>, offsets: set<nat>): set<Quake>
  {
    set i | i in offsets && i < |items| :: items[i]
  }

  lemma ItemsAtAdd(items: seq<Quake>, offsets: set<nat>, k: nat)
    requires k < |items|
    ensures ItemsAt(items, offsets + {k}) == ItemsAt(items, offsets) + {items[k]}
  {
  }

  lemma ItemsAtNone(items: seq<Quake>)
    ensures ItemsAt(items, {}) == {}
  {
  }

  /**
   * `deleteItems(offsets:)`: deletes the rows found at `offsets` in the list
   * as shown when the gesture fired, and no other row; the remaining rows
   * keep their order. The offsets come from the list itself; an offset past
   * its end would trap.
   */
  method DeleteItems(store: QuakeStore, offsets: set<nat>)
    requires store.Valid()
    requires forall i :: i in offsets ==> i < |store.rows|
    modifies store
    ensures store.Valid()
    ensures store.rows == RemoveAll(old(store.rows), ItemsAt(SortNewestFirst(old(store.rows)), offsets))
    ensures var items := SortNewestFirst(old(store.rows));
      forall i :: 0 <= i < |items| ==> (items[i] in store.rows <==> i !in offsets)
  {
    var items := Items(store);
    SortKeepsCodesUnique(store.rows);
    RemovedExactlyAtOffsets(store.rows, items, offsets);
    DeleteEach(store, items, offsets);
  }

  /** Deletes the items at `offsets`, one offset at a time. */
  method DeleteEach(store: QuakeStore, items: seq<Quake>, offsets: set<nat>)
    requires store.Valid()
    requires forall i :: i in offsets ==> i < |items|
    modifies store
    ensures store.Valid()
    ensures store.rows == RemoveAll(old(store.rows), ItemsAt(items, offsets))
  {
    RemoveNothing(store.rows);
    ItemsAtNone(items);
    var remaining, done := offsets, {};
    while remaining != {}
      invariant remaining <= offsets && done == offsets - remaining
      invariant store.Valid()
      invariant store.rows == RemoveAll(old(store.rows), ItemsAt(items, done))
      decreases remaining
    {
      var index :| index in remaining;
      WithoutAfterRemoveAll(old(store.rows), ItemsAt(items, done), items[index]);
      store.Delete(items[index]);
      ItemsAtAdd(items, done, index);
      remaining, done := remaining - {index}, done + {index};
    }
    assert done == offsets;
  }

  /** With unique codes, removing the items at `offsets` removes no item at any other offset. */
  lemma RemovedExactlyAtOffsets(rows: seq<Quake>, items: seq<Quake>, offsets: set<nat>)
    requires UniqueCodes(items) && forall x :: x in items <==> x in rows
    ensures forall i :: 0 <= i < |items| ==>
      (items[i] in RemoveAll(rows, ItemsAt(items, offsets)) <==> i !in offsets)
  {
    forall i | 0 <= i < |items|
      ensures items[i] in RemoveAll(rows, ItemsAt(items, offsets)) <==> i !in offsets
    {
      assert items[i] in rows;
      if items[i] in ItemsAt(items, offsets) {
        var j :| j in offsets && j < |items| && items[j] == items[i];
        assert i == j;
      }
    }
  }
}
