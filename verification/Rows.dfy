/** Sums and look-ups over the rows of a table. */
module Rows {

  function Sum<T>(rows: seq<T>, weight: T -> int): int {
    if rows == [] then 0 else Sum(rows[..|rows| - 1], weight) + weight(rows[|rows| - 1])
  }

  lemma SumAppend<T>(rows: seq<T>, row: T, weight: T -> int)
    ensures Sum(rows + [row], weight) == Sum(rows, weight) + weight(row)
  {
    assert (rows + [row])[..|rows|] == rows;
  }

  lemma {:induction false} SumUpdate<T>(rows: seq<T>, i: nat, row: T, weight: T -> int)
    requires i < |rows|
    ensures Sum(rows[i := row], weight) == Sum(rows, weight) - weight(rows[i]) + weight(row)
    decreases rows
  {
    var n := |rows| - 1;
    if i == n {
      assert rows[i := row][..n] == rows[..n];
    } else {
      assert rows[i := row][..n] == rows[..n][i := row];
      SumUpdate(rows[..n], i, row, weight);
    }
  }

  lemma {:induction false} SumAtLeast<T>(rows: seq<T>, i: nat, weight: T -> int)
    requires i < |rows| && forall j :: 0 <= j < |rows| ==> weight(rows[j]) >= 0
    ensures 0 <= weight(rows[i]) <= Sum(rows, weight)
    decreases rows
  {
    var n := |rows| - 1;
    SumNonNegative(rows[..n], weight);
    if i < n {
      SumAtLeast(rows[..n], i, weight);
    }
  }

  lemma {:induction false} SumNonNegative<T>(rows: seq<T>, weight: T -> int)
    requires forall j :: 0 <= j < |rows| ==> weight(rows[j]) >= 0
    ensures Sum(rows, weight) >= 0
    decreases rows
  {
    if rows != [] {
      SumNonNegative(rows[..|rows| - 1], weight);
    }
  }

  // The first row with the given key, or -1.
  function Find<T>(rows: seq<T>, key: T -> string, id: string): (k: int)
    ensures -1 <= k < |rows|
    ensures k >= 0 ==> key(rows[k]) == id && forall j :: 0 <= j < k ==> key(rows[j]) != id
    ensures k < 0 ==> forall j :: 0 <= j < |rows| ==> key(rows[j]) != id
  {
    if rows == [] then -1
    else
      var n := |rows| - 1;
      var k := Find(rows[..n], key, id);
      if k >= 0 then k else if key(rows[n]) == id then n else -1
  }

  // The unique constraint on a key.
  ghost predicate Unique<T>(rows: seq<T>, key: T -> string) {
    forall i, j :: 0 <= i < j < |rows| ==> key(rows[i]) != key(rows[j])
  }

  lemma FindUpdate<T>(rows: seq<T>, i: nat, row: T, key: T -> string, id: string)
    requires i < |rows| && key(row) == key(rows[i])
    ensures Find(rows[i := row], key, id) == Find(rows, key, id)
  {
    var a, b := Find(rows[i := row], key, id), Find(rows, key, id);
    if 0 <= a {
      assert key(rows[a]) == id;
    }
    if 0 <= b {
      assert key(rows[i := row][b]) == id;
    }
  }

  lemma FindAppend<T>(rows: seq<T>, row: T, key: T -> string, id: string)
    ensures Find(rows + [row], key, id) ==
            if Find(rows, key, id) >= 0 then Find(rows, key, id) else if key(row) == id then |rows| else -1
  {
    assert (rows + [row])[..|rows|] == rows;
  }

  lemma UniqueUpdate<T>(rows: seq<T>, i: nat, row: T, key: T -> string)
    requires Unique(rows, key) && i < |rows| && key(row) == key(rows[i])
    ensures Unique(rows[i := row], key)
  {
  }

  lemma UniqueAppend<T>(rows: seq<T>, row: T, key: T -> string)
    requires Unique(rows, key) && Find(rows, key, key(row)) < 0
    ensures Unique(rows + [row], key)
  {
  }

  lemma UniqueFind<T>(rows: seq<T>, key: T -> string, i: nat)
    requires Unique(rows, key) && i < |rows|
    ensures Find(rows, key, key(rows[i])) == i
  {
  }
}
