/** Row-level building blocks for the workout store: SQL NULL as Option,
    and the effect of a WHERE-filtered COUNT, SELECT and UPDATE on a table
    held as a sequence of rows (insertion order). */
module Tables {

  /** A nullable column value: None is SQL NULL. */
  datatype Option<+T> = None | Some(value: T)

  /** SELECT COUNT(*) FROM rows WHERE p. */
  function Count<T>(rows: seq<T>, p: T -> bool): (n: nat)
    ensures n <= |rows|
  {
    if rows == [] then 0
    else Count(rows[..|rows| - 1], p) + (if p(rows[|rows| - 1]) then 1 else 0)
  }

  /** The COUNT is positive exactly when some row satisfies the predicate. */
  lemma {:induction false} CountPositive<T>(rows: seq<T>, p: T -> bool)
    ensures Count(rows, p) > 0 <==> exists i :: 0 <= i < |rows| && p(rows[i])
  {
    if rows != [] {
      var init := rows[..|rows| - 1];
      CountPositive(init, p);
      if exists i :: 0 <= i < |init| && p(init[i]) {
        var i :| 0 <= i < |init| && p(init[i]);
        assert rows[i] == init[i];
      }
      if exists i :: 0 <= i < |rows| && p(rows[i]) {
        var i :| 0 <= i < |rows| && p(rows[i]);
        if i < |init| { assert init[i] == rows[i]; }
      }
    }
  }

  /** Appending one row (an INSERT) adds one to the COUNT exactly when the new row matches. */
  lemma CountAppend<T>(rows: seq<T>, x: T, p: T -> bool)
    ensures Count(rows + [x], p) == Count(rows, p) + (if p(x) then 1 else 0)
  {
    assert (rows + [x])[..|rows + [x]| - 1] == rows;
  }

  /** SELECT * FROM rows WHERE p, in row order. */
  function Filter<T>(rows: seq<T>, p: T -> bool): (r: seq<T>)
    ensures |r| == Count(rows, p)
    ensures forall k :: 0 <= k < |r| ==> p(r[k]) && r[k] in rows
  {
    if rows == [] then []
    else
      var init := Filter(rows[..|rows| - 1], p);
      if p(rows[|rows| - 1]) then init + [rows[|rows| - 1]] else init
  }

  /** Every matching row is selected, as often as it occurs. */
  lemma {:induction false} FilterComplete<T>(rows: seq<T>, p: T -> bool)
    ensures forall x :: p(x) ==> multiset(Filter(rows, p))[x] == multiset(rows)[x]
    ensures forall x :: !p(x) ==> multiset(Filter(rows, p))[x] == 0
  {
    if rows != [] {
      var init := rows[..|rows| - 1];
      FilterComplete(init, p);
      assert rows == init + [rows[|rows| - 1]];
    }
  }

  /** UPDATE rows SET ... = upd(row) WHERE hit(row): every row keeps its place. */
  function MaskedUpdate<T>(rows: seq<T>, hit: T -> bool, upd: T -> T): (r: seq<T>)
    ensures |r| == |rows|
  {
    if rows == [] then []
    else
      var last := rows[|rows| - 1];
      MaskedUpdate(rows[..|rows| - 1], hit, upd) + [if hit(last) then upd(last) else last]
  }

  /** Row i is rewritten exactly when it matched the WHERE clause. */
  lemma {:induction false} MaskedUpdateAt<T>(rows: seq<T>, hit: T -> bool, upd: T -> T, i: int)
    requires 0 <= i < |rows|
    ensures MaskedUpdate(rows, hit, upd)[i] == if hit(rows[i]) then upd(rows[i]) else rows[i]
  {
    if i < |rows| - 1 {
      MaskedUpdateAt(rows[..|rows| - 1], hit, upd, i);
    }
  }

  /** When the update makes a row stop matching (it fills the NULL column the
      WHERE clause tests), running the statement again, with any value, changes nothing. */
  lemma {:induction false} MaskedUpdateIdempotent<T>(rows: seq<T>, hit: T -> bool, upd1: T -> T, upd2: T -> T)
    requires forall x :: hit(x) ==> !hit(upd1(x))
    ensures MaskedUpdate(MaskedUpdate(rows, hit, upd1), hit, upd2) == MaskedUpdate(rows, hit, upd1)
  {
    var once := MaskedUpdate(rows, hit, upd1);
    var twice := MaskedUpdate(once, hit, upd2);
    forall i | 0 <= i < |rows|
      ensures twice[i] == once[i]
    {
      MaskedUpdateAt(rows, hit, upd1, i);
      MaskedUpdateAt(once, hit, upd2, i);
    }
  }
}
