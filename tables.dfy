/**
 * Row-level operations shared by the Room tables of the model. A table is the
 * sequence of its rows in the order a plain SELECT returns them; `key` reads
 * a row's primary key.
 */
module Tables {
  import opened Wrappers

  /** `s.filter(p)`, also the row set a `WHERE` clause selects. */
  function Filter<T(==,!new)>(s: seq<T>, p: T -> bool): (r: seq<T>)
    ensures |r| <= |s|
    ensures forall x :: x in r <==> x in s && p(x)
  {
    if |s| == 0 then []
    else if p(s[0]) then [s[0]] + Filter(s[1..], p)
    else Filter(s[1..], p)
  }

  /** Filtering with a predicate and with its negation splits the rows between the two results. */
  lemma {:induction false} FilterPartition<T(!new)>(s: seq<T>, p: T -> bool, q: T -> bool)
    requires forall x :: q(x) == !p(x)
    ensures multiset(Filter(s, p)) + multiset(Filter(s, q)) == multiset(s)
    decreases |s|
  {
    if |s| > 0 {
      FilterPartition(s[1..], p, q);
      assert s == [s[0]] + s[1..];
    }
  }

  /**
   * Every row carries a key and no two rows share one (the primary-key
   * constraint), stated row by row from the front.
   */
  ghost predicate KeyedRows<R(!new)>(rows: seq<R>, key: R -> Option<int>) {
    |rows| == 0 ||
    (key(rows[0]).Some? &&
     (forall x :: x in rows[1..] ==> key(x) != key(rows[0])) &&
     KeyedRows(rows[1..], key))
  }

  /** The primary-key constraint, stated over pairs of positions. */
  lemma {:induction false} KeyedRowsDistinct<R(!new)>(rows: seq<R>, key: R -> Option<int>)
    requires KeyedRows(rows, key)
    ensures forall i :: 0 <= i < |rows| ==> key(rows[i]).Some?
    ensures forall i, j :: 0 <= i < j < |rows| ==> key(rows[i]) != key(rows[j])
    decreases |rows|
  {
    if |rows| > 0 {
      KeyedRowsDistinct(rows[1..], key);
      forall i, j | 0 <= i < j < |rows|
        ensures key(rows[i]) != key(rows[j])
      {
        if i == 0 {
          assert rows[j] in rows[1..];
        } else {
          assert rows[i] == rows[1..][i - 1] && rows[j] == rows[1..][j - 1];
        }
      }
      forall i | 0 <= i < |rows|
        ensures key(rows[i]).Some?
      {
        if i > 0 {
          assert rows[i] == rows[1..][i - 1];
        }
      }
    }
  }

  /** `SELECT * WHERE key = id`: the first row with that key, if any. */
  function FindBy<R(==,!new)>(rows: seq<R>, key: R -> Option<int>, id: int): (r: Option<R>)
    ensures r.Some? ==> r.value in rows && key(r.value) == Some(id)
    ensures r.None? <==> forall x :: x in rows ==> key(x) != Some(id)
  {
    if |rows| == 0 then None
    else if key(rows[0]) == Some(id) then Some(rows[0])
    else FindBy(rows[1..], key, id)
  }

  /**
   * `@Upsert` of a row that carries a key: it replaces the row stored under
   * that key in place, or is appended when there is none.
   */
  function UpsertBy<R(==,!new)>(rows: seq<R>, key: R -> Option<int>, row: R): (r: seq<R>)
    ensures row in r
    ensures forall x :: x in r ==> x == row || x in rows
  {
    if |rows| == 0 then [row]
    else if key(rows[0]) == key(row) then [row] + rows[1..]
    else [rows[0]] + UpsertBy(rows[1..], key, row)
  }

  /** After an upsert, a lookup of the row's key finds that row. */
  lemma {:induction false} UpsertThenFind<R(!new)>(rows: seq<R>, key: R -> Option<int>, row: R, id: int)
    requires key(row) == Some(id)
    ensures FindBy(UpsertBy(rows, key, row), key, id) == Some(row)
    decreases |rows|
  {
    if |rows| > 0 && key(rows[0]) != key(row) {
      UpsertThenFind(rows[1..], key, row, id);
    }
  }

  /** An upsert leaves the lookup of every other key as it was. */
  lemma {:induction false} UpsertKeepsOthers<R(!new)>(rows: seq<R>, key: R -> Option<int>, row: R, id: int)
    requires KeyedRows(rows, key)
    requires key(row) != Some(id)
    ensures FindBy(UpsertBy(rows, key, row), key, id) == FindBy(rows, key, id)
    decreases |rows|
  {
    if |rows| > 0 {
      if key(rows[0]) == key(row) {
        assert key(rows[0]) != Some(id);
        assert ([row] + rows[1..])[1..] == rows[1..];
      } else {
        UpsertKeepsOthers(rows[1..], key, row, id);
      }
    }
  }

  /** An upsert of a keyed row keeps the primary-key constraint. */
  lemma {:induction false} UpsertKeyed<R(!new)>(rows: seq<R>, key: R -> Option<int>, row: R)
    requires KeyedRows(rows, key) && key(row).Some?
    ensures KeyedRows(UpsertBy(rows, key, row), key)
    decreases |rows|
  {
    if |rows| > 0 {
      if key(rows[0]) == key(row) {
        assert ([row] + rows[1..])[1..] == rows[1..];
      } else {
        var rest := UpsertBy(rows[1..], key, row);
        UpsertKeyed(rows[1..], key, row);
        assert ([rows[0]] + rest)[1..] == rest;
        forall x | x in rest
          ensures key(x) != key(rows[0])
        {
          assert x == row || x in rows[1..];
        }
      }
    }
  }

  /** Upserting a row whose key no stored row has appends it as a new last row. */
  lemma {:induction false} UpsertFreshKeyAppends<R(!new)>(rows: seq<R>, key: R -> Option<int>, row: R)
    requires forall x :: x in rows ==> key(x) != key(row)
    ensures UpsertBy(rows, key, row) == rows + [row]
    decreases |rows|
  {
    if |rows| > 0 {
      UpsertFreshKeyAppends(rows[1..], key, row);
      assert rows == [rows[0]] + rows[1..];
    }
  }

  /** Deleting rows keeps the primary-key constraint. */
  lemma {:induction false} FilterKeyed<R(!new)>(rows: seq<R>, key: R -> Option<int>, p: R -> bool)
    requires KeyedRows(rows, key)
    ensures KeyedRows(Filter(rows, p), key)
    decreases |rows|
  {
    if |rows| > 0 {
      FilterKeyed(rows[1..], key, p);
      if p(rows[0]) {
        var rest := Filter(rows[1..], p);
        assert ([rows[0]] + rest)[1..] == rest;
      }
    }
  }

  /** Deleting rows that do not have key `id` leaves the lookup of `id` as it was. */
  lemma {:induction false} FindByAfterFilter<R(!new)>(rows: seq<R>, key: R -> Option<int>, p: R -> bool, id: int)
    requires forall x :: x in rows && key(x) == Some(id) ==> p(x)
    ensures FindBy(Filter(rows, p), key, id) == FindBy(rows, key, id)
    decreases |rows|
  {
    if |rows| > 0 {
      FindByAfterFilter(rows[1..], key, p, id);
      if p(rows[0]) {
        var rest := Filter(rows[1..], p);
        assert ([rows[0]] + rest)[1..] == rest;
      }
    }
  }
}
