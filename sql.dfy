/** What the SQL engines under both servers and the local database
    guarantee and the handlers rely on: the rows an `ORDER BY created_at
    DESC` query returns, and the rowid a new row receives. */
module Sql {

  /** A non-empty set has an element; calling this names one, so that a
      method can then pick an element with `:|`. */
  lemma SomeElement<T>(s: set<T>) returns (x: T)
    requires s != {}
    ensures x in s
  {
    if forall y :: y !in s {
      assert false;
    }
    x :| x in s;
  }

  /** Newest first: no row is older than a row after it. Rows with equal
      timestamps may come in any order, as SQL leaves ties unordered. */
  ghost predicate NewestFirst(ids: seq<int>, stamp: int -> int) {
    forall i, j :: 0 <= i < j < |ids| ==> stamp(ids[i]) >= stamp(ids[j])
  }

  predicate Distinct(ids: seq<int>) {
    forall i, j :: 0 <= i < j < |ids| ==> ids[i] != ids[j]
  }

  /** Where a row stamped `stamp(x)` goes in a newest-first list: after
      every strictly newer row and before the first row that is not. */
  function InsertionPoint(x: int, ids: seq<int>, stamp: int -> int): (k: nat)
    ensures k <= |ids|
    ensures forall j :: 0 <= j < k ==> stamp(ids[j]) > stamp(x)
    ensures k < |ids| ==> stamp(ids[k]) <= stamp(x)
  {
    if |ids| == 0 || stamp(ids[0]) <= stamp(x) then 0
    else 1 + InsertionPoint(x, ids[1..], stamp)
  }

  /** Inserting at the insertion point keeps a newest-first list newest first. */
  lemma InsertKeepsOrder(x: int, ids: seq<int>, stamp: int -> int)
    requires NewestFirst(ids, stamp)
    ensures NewestFirst(ids[..InsertionPoint(x, ids, stamp)] + [x] + ids[InsertionPoint(x, ids, stamp)..], stamp)
  {
    var k := InsertionPoint(x, ids, stamp);
    var r := ids[..k] + [x] + ids[k..];
    forall i, j | 0 <= i < j < |r| ensures stamp(r[i]) >= stamp(r[j]) {
      if i < k && j == k {
      } else if i < k && j > k {
        assert r[i] == ids[i] && r[j] == ids[j - 1];
      } else if i == k {
        assert r[j] == ids[j - 1];
        assert stamp(ids[k]) >= stamp(ids[j - 1]);
      } else if j < k {
        assert r[i] == ids[i] && r[j] == ids[j];
      } else {
        assert r[i] == ids[i - 1] && r[j] == ids[j - 1];
      }
    }
  }

  /** Inserting an id not yet listed keeps the ids distinct, and adds
      exactly that id. */
  lemma InsertKeepsDistinct(x: int, ids: seq<int>, k: nat)
    requires Distinct(ids) && x !in ids && k <= |ids|
    ensures Distinct(ids[..k] + [x] + ids[k..])
    ensures forall id :: id in ids[..k] + [x] + ids[k..] <==> id in ids || id == x
  {
    var next := ids[..k] + [x] + ids[k..];
    forall i, j | 0 <= i < j < |next| ensures next[i] != next[j] {
      if i < k && j == k {
        assert next[i] == ids[i];
      } else if i < k && j > k {
        assert next[i] == ids[i] && next[j] == ids[j - 1];
      } else if i == k {
        assert next[j] == ids[j - 1];
      } else if j < k {
        assert next[i] == ids[i] && next[j] == ids[j];
      } else {
        assert next[i] == ids[i - 1] && next[j] == ids[j - 1];
      }
    }
    assert ids == ids[..k] + ids[k..];
  }

  /** The ids of `rows`, each exactly once, newest first: the row order an
      `ORDER BY created_at DESC` query may return. */
  method OrderNewestFirst(rows: set<int>, stamp: int -> int) returns (ids: seq<int>)
    ensures NewestFirst(ids, stamp)
    ensures Distinct(ids)
    ensures forall id :: id in ids <==> id in rows
    ensures |ids| == |rows|
  {
    ids := [];
    var left := rows;
    while left != {}
      invariant left <= rows
      invariant NewestFirst(ids, stamp) && Distinct(ids)
      invariant forall id :: id in ids <==> id in rows - left
      invariant |ids| == |rows - left|
      decreases |left|
    {
      ghost var some := SomeElement(left);
      var x :| x in left;
      var k := InsertionPoint(x, ids, stamp);
      InsertKeepsOrder(x, ids, stamp);
      InsertKeepsDistinct(x, ids, k);
      var next := ids[..k] + [x] + ids[k..];
      assert rows - (left - {x}) == (rows - left) + {x};
      ids := next;
      left := left - {x};
    }
  }

  /** The rowid SQLite gives a new row of a table declared without
      AUTOINCREMENT: one more than the largest rowid in the table, or 1
      when the table is empty. */
  method NextRowId(used: set<int>) returns (id: int)
    ensures id !in used
    ensures forall k :: k in used ==> k < id
    ensures used == {} ==> id == 1
    ensures used != {} ==> id - 1 in used
  {
    id := 1;
    var left := used;
    while left != {}
      invariant left <= used
      invariant forall k :: k in used - left ==> k < id
      invariant used - left != {} ==> id - 1 in used - left
      invariant used - left == {} ==> id == 1
      decreases |left|
    {
      ghost var some := SomeElement(left);
      var k :| k in left;
      assert used - (left - {k}) == (used - left) + {k};
      if used - left == {} || k >= id {
        id := k + 1;
      }
      left := left - {k};
    }
    assert used - left == used;
  }
}
