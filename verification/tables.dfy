/**
 Definitions shared by every table: whether some row carries a key, whether a column is
 unique, and the rows a `filter_by(id=...)` lookup returns. Each is written once over a
 key projection and instantiated per table.
 */
module Tables {

  /** Whether some row's key is `id` (the `filter_by(id=...).exists()` checks). */
  predicate HasKey<T>(rows: seq<T>, key: T -> int, id: int)
  {
    exists i :: 0 <= i < |rows| && key(rows[i]) == id
  }

  /** No two rows share a key (a primary key or a `unique=True` column). */
  ghost predicate UniqueBy<T, K>(rows: seq<T>, key: T -> K)
  {
    forall i, j :: 0 <= i < j < |rows| ==> key(rows[i]) != key(rows[j])
  }

  /** The rows whose key is `id`, in table order; at most one when the key is unique. */
  function WithKey<T(==,!new)>(rows: seq<T>, key: T -> int, id: int): (r: seq<T>)
    ensures forall x :: x in r <==> x in rows && key(x) == id
    ensures UniqueBy(rows, key) ==> |r| <= 1
  {
    if |rows| == 0 then []
    else
      assert rows == [rows[0]] + rows[1..];
      var rest := WithKey(rows[1..], key, id);
      if key(rows[0]) == id then
        assert UniqueBy(rows, key) ==> forall x :: x in rows[1..] ==> key(x) != id by {
          if UniqueBy(rows, key) {
            forall x | x in rows[1..]
              ensures key(x) != id
            {
              var k :| 0 <= k < |rows[1..]| && rows[1..][k] == x;
              assert rows[k + 1] == x;
            }
          }
        }
        assert rest != [] ==> rest[0] in rest;
        [rows[0]] + rest
      else rest
  }

  /** A row found by `WithKey` witnesses `HasKey`, and conversely. */
  lemma WithKeyNonEmptyIffHasKey<T(!new)>(rows: seq<T>, key: T -> int, id: int)
    ensures |WithKey(rows, key, id)| > 0 <==> HasKey(rows, key, id)
  {
    var r := WithKey(rows, key, id);
    if |r| > 0 {
      assert r[0] in r;
      var i :| 0 <= i < |rows| && rows[i] == r[0];
    }
    if HasKey(rows, key, id) {
      var i :| 0 <= i < |rows| && key(rows[i]) == id;
      assert rows[i] in r;
    }
  }
}
