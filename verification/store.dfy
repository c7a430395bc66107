/**
 * The persistent store of `Quake` rows keyed by the unique `code`
 * (EarthQuake/Model/Quake.swift:24), and the private context that stages
 * a batch of inserts until one `save()` commits it
 * (EarthQuake/Model/DataTransferModel.swift:61-77).
 */
module Store {
  import opened QuakeModel

  /**
   * One insert into a uniquely keyed store. The store keeps the row it
   * already has for a code (insert-if-absent, first write wins); which
   * row survives a duplicate is a policy of the storage engine that the
   * app itself does not state.
   */
  function InsertIfAbsent(rows: seq<Quake>, q: Quake): (r: seq<Quake>)
    ensures q.code in Codes(rows) ==> r == rows
    ensures q.code !in Codes(rows) ==> r == rows + [q]
    ensures Codes(r) == Codes(rows) + {q.code}
  {
    if q.code in Codes(rows) then rows else rows + [q]
  }

  /** The rows visible after a staged batch is committed, in insertion order. */
  function Commit(rows: seq<Quake>, batch: seq<Quake>): (r: seq<Quake>)
    ensures |rows| <= |r| <= |rows| + |batch|
    decreases |batch|
  {
    if batch == [] then rows else Commit(InsertIfAbsent(rows, batch[0]), batch[1..])
  }

  /** A commit never produces two rows with the same code. */
  lemma {:induction false} CommitKeepsCodesUnique(rows: seq<Quake>, batch: seq<Quake>)
    requires UniqueCodes(rows)
    ensures UniqueCodes(Commit(rows, batch))
    decreases |batch|
  {
    if batch != [] {
      var next := InsertIfAbsent(rows, batch[0]);
      assert UniqueCodes(next) by {
        if batch[0].code !in Codes(rows) {
          forall i | 0 <= i < |rows| ensures rows[i].code != batch[0].code {
            assert rows[i] in rows;
          }
        }
      }
      CommitKeepsCodesUnique(next, batch[1..]);
    }
  }

  /** After a commit the store holds exactly the old codes and the batch's codes. */
  lemma {:induction false} CommitCodes(rows: seq<Quake>, batch: seq<Quake>)
    ensures Codes(Commit(rows, batch)) == Codes(rows) + Codes(batch)
    decreases |batch|
  {
    if batch != [] {
      var next := InsertIfAbsent(rows, batch[0]);
      assert Codes(next) == Codes(rows) + {batch[0].code};
      CommitCodes(next, batch[1..]);
      assert batch == [batch[0]] + batch[1..];
      assert Codes(batch) == {batch[0].code} + Codes(batch[1..]);
    }
  }

  /** Rows already stored are kept as they are and in place; new rows come only from the batch. */
  lemma {:induction false} CommitExtends(rows: seq<Quake>, batch: seq<Quake>)
    ensures |rows| <= |Commit(rows, batch)|
    ensures Commit(rows, batch)[..|rows|] == rows
    ensures forall k :: |rows| <= k < |Commit(rows, batch)| ==> Commit(rows, batch)[k] in batch
    decreases |batch|
  {
    if batch != [] {
      var next := InsertIfAbsent(rows, batch[0]);
      CommitExtends(next, batch[1..]);
      var r := Commit(rows, batch);
      assert r == Commit(next, batch[1..]);
      assert r[..|rows|] == r[..|next|][..|rows|];
      forall k | |rows| <= k < |r| ensures r[k] in batch {
        if k < |next| {
          assert r[k] == next[k] == batch[0];
        } else {
          assert r[k] in batch[1..];
        }
      }
    }
  }

  /** A batch whose codes are all stored already changes nothing. */
  lemma {:induction false} CommitOfKnownCodes(rows: seq<Quake>, batch: seq<Quake>)
    requires Codes(batch) <= Codes(rows)
    ensures Commit(rows, batch) == rows
    decreases |batch|
  {
    if batch != [] {
      assert batch[0] in batch;
      assert InsertIfAbsent(rows, batch[0]) == rows;
      assert Codes(batch[1..]) <= Codes(batch) by {
        forall c | c in Codes(batch[1..]) ensures c in Codes(batch) {
          var q :| q in batch[1..] && q.code == c;
          assert q in batch;
        }
      }
      CommitOfKnownCodes(rows, batch[1..]);
    }
  }

  /** Importing the same batch twice leaves the store as the first import left it. */
  lemma CommitIdempotent(rows: seq<Quake>, batch: seq<Quake>)
    ensures Commit(Commit(rows, batch), batch) == Commit(rows, batch)
  {
    CommitCodes(rows, batch);
    CommitOfKnownCodes(Commit(rows, batch), batch);
  }

  /** The store grows by one row per code of the batch that it did not hold yet. */
  lemma CommitSize(rows: seq<Quake>, batch: seq<Quake>)
    requires UniqueCodes(rows)
    ensures |Commit(rows, batch)| == |rows| + |Codes(batch) - Codes(rows)|
  {
    var r := Commit(rows, batch);
    CommitKeepsCodesUnique(rows, batch);
    CommitCodes(rows, batch);
    UniqueCodesCount(rows);
    UniqueCodesCount(r);
    assert Codes(r) == Codes(rows) + (Codes(batch) - Codes(rows));
    assert Codes(rows) !! (Codes(batch) - Codes(rows));
  }

  /** The visible store: the rows every query of the main context reads. */
  class QuakeStore {
    var rows: seq<Quake>

    ghost predicate Valid()
      reads this
    {
      UniqueCodes(rows)
    }

    constructor ()
      ensures Valid() && rows == []
    {
      rows := [];
    }

    /** `modelContext.delete(item)`: removes that row, keeps every other row in order. */
    method Delete(q: Quake)
      requires Valid()
      modifies this
      ensures Valid()
      ensures rows == Without(old(rows), q)
    {
      rows := Without(rows, q);
    }

    /** `modelContext.delete(model: Quake.self)`: removes every row. */
    method DeleteAll()
      modifies this
      ensures Valid() && rows == []
    {
      rows := [];
    }
  }

  /** `rows` with every occurrence of `q` removed, the rest in order. */
  function Without(rows: seq<Quake>, q: Quake): (r: seq<Quake>)
    ensures forall x :: x in r <==> x in rows && x != q
    ensures Codes(r) <= Codes(rows)
    ensures UniqueCodes(rows) ==> UniqueCodes(r)
    ensures |r| <= |rows|
  {
    if rows == [] then []
    else
      var rest := Without(rows[1..], q);
      assert forall x :: x in rows[1..] ==> x in rows;
      if rows[0] == q then rest
      else
        assert UniqueCodes(rows) ==> UniqueCodes([rows[0]] + rest) by {
          if UniqueCodes(rows) {
            HeadCodeNotInTail(rows);
            UniqueCodesCons(rows[0], rest);
          }
        }
        [rows[0]] + rest
  }

  /** `rows` without the rows in `gone`, the rest in their order. */
  function RemoveAll(rows: seq<Quake>, gone: set<Quake>): (r: seq<Quake>)
    ensures forall x :: x in r <==> x in rows && x !in gone
    ensures |r| <= |rows|
  {
    if rows == [] then []
    else if rows[0] in gone then RemoveAll(rows[1..], gone)
    else [rows[0]] + RemoveAll(rows[1..], gone)
  }

  /** `s` can be had from `t` by dropping elements, without reordering any. */
  predicate IsSubsequence(s: seq<Quake>, t: seq<Quake>)
    decreases |t|
  {
    if s == [] then true
    else if t == [] then false
    else if s[0] == t[0] then IsSubsequence(s[1..], t[1..])
    else IsSubsequence(s, t[1..])
  }

  /** The rows that survive a removal keep their relative order. */
  lemma {:induction false} RemoveAllIsSubsequence(rows: seq<Quake>, gone: set<Quake>)
    ensures IsSubsequence(RemoveAll(rows, gone), rows)
  {
    if rows != [] {
      RemoveAllIsSubsequence(rows[1..], gone);
      var r := RemoveAll(rows, gone);
      if rows[0] !in gone {
        assert r[0] == rows[0] && r[1..] == RemoveAll(rows[1..], gone);
      } else if r != [] {
        assert r[0] in r;
      }
    }
  }

  /** Deleting rows one by one is removing them all at once, order kept. */
  lemma {:induction false} WithoutAfterRemoveAll(rows: seq<Quake>, gone: set<Quake>, q: Quake)
    ensures Without(RemoveAll(rows, gone), q) == RemoveAll(rows, gone + {q})
  {
    if rows != [] {
      WithoutAfterRemoveAll(rows[1..], gone, q);
      if rows[0] !in gone {
        var kept := RemoveAll(rows, gone);
        assert kept[0] == rows[0] && kept[1..] == RemoveAll(rows[1..], gone);
      }
    }
  }

  /** Removing nothing keeps every row in place. */
  lemma {:induction false} RemoveNothing(rows: seq<Quake>)
    ensures RemoveAll(rows, {}) == rows
  {
    if rows != [] {
      RemoveNothing(rows[1..]);
      assert rows == [rows[0]] + rows[1..];
    }
  }

  /** A context with autosave off: inserts stay staged until `Save`. */
  class ModelContext {
    const store: QuakeStore
    var staged: seq<Quake>

    constructor (store: QuakeStore)
      ensures this.store == store && staged == []
    {
      this.store := store;
      staged := [];
    }

    method Insert(q: Quake)
      modifies this
      ensures staged == old(staged) + [q]
    {
      staged := staged + [q];
    }

    /** `hasChanges`: something has been staged since the last save. */
    predicate HasChanges(): (changed: bool)
      reads this
      ensures changed <==> |staged| > 0
    {
      staged != []
    }

    /** Commits the whole staged batch in one step: readers never see part of it. */
    method Save()
      requires store.Valid()
      modifies this, store
      ensures store.Valid()
      ensures store.rows == Commit(old(store.rows), old(staged))
      ensures staged == []
    {
      CommitKeepsCodesUnique(store.rows, staged);
      store.rows := Commit(store.rows, staged);
      staged := [];
    }
  }
}
