/**
 Aggregates over table rows: the `Sum('amount')` of a filtered queryset is the sum, over every
 row, of a weight that is zero on the rows the filter rejects.
 */
module Sums {

  function SumBy<T>(rows: seq<T>, weight: T -> int): int {
    if rows == [] then 0 else SumBy(rows[..|rows| - 1], weight) + weight(rows[|rows| - 1])
  }

  /** Sum of f(0) .. f(n - 1): an aggregate over the primary keys of a table with n rows. */
  function SumTo(n: nat, f: nat -> int): int {
    if n == 0 then 0 else SumTo(n - 1, f) + f(n - 1)
  }

  lemma SumAppend<T>(rows: seq<T>, x: T, weight: T -> int)
    ensures SumBy(rows + [x], weight) == SumBy(rows, weight) + weight(x)
  {
    assert (rows + [x])[..|rows|] == rows;
  }

  lemma {:induction false} SumUpdate<T>(rows: seq<T>, i: nat, x: T, weight: T -> int)
    requires i < |rows|
    ensures SumBy(rows[i := x], weight) == SumBy(rows, weight) - weight(rows[i]) + weight(x)
  {
    var last := |rows| - 1;
    if i == last {
      assert rows[i := x][..last] == rows[..last];
    } else {
      assert rows[i := x][..last] == rows[..last][i := x];
      SumUpdate(rows[..last], i, x, weight);
    }
  }

  lemma {:induction false} SumMonotone<T>(rows: seq<T>, low: T -> int, high: T -> int)
    requires forall i :: 0 <= i < |rows| ==> low(rows[i]) <= high(rows[i])
    ensures SumBy(rows, low) <= SumBy(rows, high)
  {
    if rows != [] {
      SumMonotone(rows[..|rows| - 1], low, high);
    }
  }

  lemma SumEqual<T>(rows: seq<T>, left: T -> int, right: T -> int)
    requires forall i :: 0 <= i < |rows| ==> left(rows[i]) == right(rows[i])
    ensures SumBy(rows, left) == SumBy(rows, right)
  {
    SumMonotone(rows, left, right);
    SumMonotone(rows, right, left);
  }

  lemma {:induction false} SumNonNegative<T>(rows: seq<T>, weight: T -> int)
    requires forall i :: 0 <= i < |rows| ==> 0 <= weight(rows[i])
    ensures 0 <= SumBy(rows, weight)
  {
    if rows != [] {
      SumNonNegative(rows[..|rows| - 1], weight);
    }
  }

  lemma {:induction false} SumMember<T>(rows: seq<T>, i: nat, weight: T -> int)
    requires i < |rows|
    requires forall k :: 0 <= k < |rows| ==> 0 <= weight(rows[k])
    ensures weight(rows[i]) <= SumBy(rows, weight)
  {
    var last := |rows| - 1;
    SumNonNegative(rows[..last], weight);
    if i < last {
      SumMember(rows[..last], i, weight);
    }
  }

  lemma {:induction false} SumPair<T>(rows: seq<T>, i: nat, j: nat, weight: T -> int)
    requires i < j < |rows|
    requires forall k :: 0 <= k < |rows| ==> 0 <= weight(rows[k])
    ensures weight(rows[i]) + weight(rows[j]) <= SumBy(rows, weight)
  {
    var init := rows[..|rows| - 1];
    if j == |init| {
      SumMember(init, i, weight);
    } else {
      SumPair(init, i, j, weight);
    }
  }

  lemma {:induction false} SumToMonotone(n: nat, low: nat -> int, high: nat -> int)
    requires forall k: nat :: k < n ==> low(k) <= high(k)
    ensures SumTo(n, low) <= SumTo(n, high)
  {
    if n > 0 {
      SumToMonotone(n - 1, low, high);
    }
  }

  lemma SumToEqual(n: nat, left: nat -> int, right: nat -> int)
    requires forall k: nat :: k < n ==> left(k) == right(k)
    ensures SumTo(n, left) == SumTo(n, right)
  {
    SumToMonotone(n, left, right);
    SumToMonotone(n, right, left);
  }

  lemma {:induction false} SumToZeroExact(n: nat, f: nat -> int)
    requires forall k: nat :: k < n ==> 0 <= f(k)
    ensures 0 <= SumTo(n, f)
    ensures SumTo(n, f) == 0 <==> forall k: nat :: k < n ==> f(k) == 0
  {
    if n > 0 {
      SumToZeroExact(n - 1, f);
    }
  }

  // ---- GROUP BY -------------------------------------------------------------------------

  /** The weight of the rows in group k only. */
  function InGroup<T>(key: T -> nat, weight: T -> int, k: nat): T -> int {
    x => if key(x) == k then weight(x) else 0
  }

  /** Total of each group, as a function of the group's key. */
  function GroupTotal<T>(rows: seq<T>, key: T -> nat, weight: T -> int): nat -> int {
    (k: nat) => SumBy(rows, InGroup(key, weight, k))
  }

  lemma {:induction false} SumToBump(n: nat, f: nat -> int, g: nat -> int, k: nat, delta: int)
    requires forall j: nat :: j < n ==> g(j) == f(j) + if j == k then delta else 0
    ensures SumTo(n, g) == SumTo(n, f) + if k < n then delta else 0
  {
    if n > 0 {
      SumToBump(n - 1, f, g, k, delta);
    }
  }

  lemma {:induction false} SumToZero(n: nat, f: nat -> int)
    requires forall k: nat :: k < n ==> f(k) == 0
    ensures SumTo(n, f) == 0
  {
    if n > 0 {
      SumToZero(n - 1, f);
    }
  }

  /** Grouping loses nothing: when every row has a key below n, the group totals add up to the total. */
  lemma {:induction false} GroupBy<T>(rows: seq<T>, key: T -> nat, weight: T -> int, n: nat)
    requires forall i :: 0 <= i < |rows| ==> key(rows[i]) < n
    ensures SumTo(n, GroupTotal(rows, key, weight)) == SumBy(rows, weight)
  {
    if rows == [] {
      SumToZero(n, GroupTotal(rows, key, weight));
    } else {
      var init, last := rows[..|rows| - 1], rows[|rows| - 1];
      GroupBy(init, key, weight, n);
      SumToBump(n, GroupTotal(init, key, weight), GroupTotal(rows, key, weight), key(last), weight(last));
    }
  }

  // ---- exclude(pk=...) ------------------------------------------------------------------

  /** The rows other than the one with primary key pk. */
  function Without<T>(rows: seq<T>, pk: nat): seq<T> {
    if pk < |rows| then rows[..pk] + rows[pk + 1..] else rows
  }

  lemma {:induction false} SumWithout<T>(rows: seq<T>, pk: nat, weight: T -> int)
    requires pk < |rows|
    ensures SumBy(Without(rows, pk), weight) == SumBy(rows, weight) - weight(rows[pk])
  {
    var init, last := rows[..|rows| - 1], rows[|rows| - 1];
    if pk == |init| {
      assert Without(rows, pk) == init;
    } else {
      assert Without(rows, pk) == Without(init, pk) + [last];
      SumAppend(Without(init, pk), last, weight);
      SumWithout(init, pk, weight);
    }
  }
}
