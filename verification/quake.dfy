/**
 * The app's stored entity, `Quake`, and the facts about its unique key
 * `code` that the store relies on (EarthQuake/Model/Quake.swift).
 */
module QuakeModel {

  /** A point in time, as milliseconds since 1 January 1970 (UTC). */
  datatype Date = FromMillis(millisSince1970: real)

  /**
   * Foundation's `Date.distantPast` (1 January of year 1), which is
   * -63114076800 seconds from the 2001 reference date.
   */
  const DistantPast: Date := FromMillis(-62135769600000.0)

  /** `a` is at least as recent as `b`. */
  predicate NotOlder(a: Date, b: Date) {
    a.millisSince1970 >= b.millisSince1970
  }

  /**
   * One stored earthquake. Float magnitudes are kept as exact values:
   * the core only copies them.
   */
  datatype Quake = Quake(magnitude: real, place: string, timestamp: Date, code: string)

  /** `Quake.init(magnitude:place:timestamp:code:)`: total, stores every argument. */
  function NewQuake(magnitude: real, place: string, timestamp: Date, code: string): (q: Quake)
    ensures q.magnitude == magnitude && q.place == place
    ensures q.timestamp == timestamp && q.code == code
  {
    Quake(magnitude, place, timestamp, code)
  }

  /** The set of keys held by a sequence of rows. */
  function Codes(rows: seq<Quake>): set<string> {
    set q | q in rows :: q.code
  }

  /** The `@Attribute(.unique)` invariant: no two rows share a code. */
  predicate UniqueCodes(rows: seq<Quake>) {
    forall i, j :: 0 <= i < j < |rows| ==> rows[i].code != rows[j].code
  }

  /** With unique codes, there are exactly as many distinct codes as rows. */
  lemma {:induction false} UniqueCodesCount(rows: seq<Quake>)
    requires UniqueCodes(rows)
    ensures |Codes(rows)| == |rows|
  {
    if rows != [] {
      var init, last := rows[..|rows| - 1], rows[|rows| - 1];
      assert rows == init + [last];
      assert UniqueCodes(init);
      UniqueCodesCount(init);
      assert last.code !in Codes(init);
      assert Codes(rows) == Codes(init) + {last.code};
    }
  }

  /** The first row's code occurs nowhere else. */
  lemma HeadCodeNotInTail(rows: seq<Quake>)
    requires rows != [] && UniqueCodes(rows)
    ensures rows[0].code !in Codes(rows[1..])
  {
  }

  /** Putting a row with a fresh code in front keeps the codes unique. */
  lemma UniqueCodesCons(q: Quake, rows: seq<Quake>)
    requires UniqueCodes(rows) && q.code !in Codes(rows)
    ensures UniqueCodes([q] + rows)
  {
  }
}
