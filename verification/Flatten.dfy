/** Rows grouped by the item they come from. */
module Flatten {
  function Concat<T, U>(rows: T -> seq<U>, items: seq<T>): seq<U> {
    if items == [] then [] else Concat(rows, items[..|items| - 1]) + rows(items[|items| - 1])
  }

  lemma ConcatStep<T, U>(rows: T -> seq<U>, items: seq<T>, i: nat)
    requires i < |items|
    ensures Concat(rows, items[..i + 1]) == Concat(rows, items[..i]) + rows(items[i])
  {
    assert items[..i + 1][..i] == items[..i];
  }

  /** The rows of the first items come first. */
  lemma {:induction false} ConcatGrows<T, U>(rows: T -> seq<U>, items: seq<T>, i: nat, j: nat)
    requires i <= j <= |items|
    ensures Concat(rows, items[..i]) <= Concat(rows, items[..j])
  {
    if i < j {
      ConcatGrows(rows, items, i, j - 1);
      ConcatStep(rows, items, j - 1);
    }
  }

  lemma {:induction false} ConcatMembers<T, U>(rows: T -> seq<U>, items: seq<T>, row: U)
    ensures row in Concat(rows, items) <==> exists i :: 0 <= i < |items| && row in rows(items[i])
  {
    if items != [] {
      var n := |items| - 1;
      ConcatMembers(rows, items[..n], row);
      assert row in Concat(rows, items) <==> row in Concat(rows, items[..n]) || row in rows(items[n]);
      if i :| 0 <= i < n && row in rows(items[..n][i]) {
        assert row in rows(items[i]);
      }
      if i :| 0 <= i < n && row in rows(items[i]) {
        assert row in rows(items[..n][i]);
      }
    }
  }

  /** Row `r` is one of item `i`. */
  predicate From<T, U>(rows: T -> seq<U>, items: seq<T>, r: nat, i: nat) {
    i < |items| && |Concat(rows, items[..i])| <= r < |Concat(rows, items[..i])| + |rows(items[i])|
  }

  lemma {:induction false} EachRowHasSource<T, U>(rows: T -> seq<U>, items: seq<T>, r: nat) returns (i: nat)
    requires r < |Concat(rows, items)|
    ensures From(rows, items, r, i)
    ensures Concat(rows, items)[r] == rows(items[i])[r - |Concat(rows, items[..i])|]
  {
    var n := |items| - 1;
    if r < |Concat(rows, items[..n])| {
      i := EachRowHasSource(rows, items[..n], r);
      assert items[..n][..i] == items[..i] && items[..n][i] == items[i];
    } else {
      i := n;
    }
  }

  /** Earlier rows come from the same or earlier items, and rows of one item lie close together. */
  lemma SourcesInOrder<T, U>(rows: T -> seq<U>, items: seq<T>, r: nat, i: nat, s: nat, j: nat)
    requires r < s && From(rows, items, r, i) && From(rows, items, s, j)
    ensures i <= j
    ensures i == j ==> s - r < |rows(items[i])|
  {
    if j < i {
      ConcatStep(rows, items, j);
      ConcatGrows(rows, items, j + 1, i);
    }
  }

  lemma {:induction false} SameConcat<T, U>(f: T -> seq<U>, g: T -> seq<U>, items: seq<T>)
    requires forall i :: 0 <= i < |items| ==> f(items[i]) == g(items[i])
    ensures Concat(f, items) == Concat(g, items)
  {
    if items != [] {
      SameConcat(f, g, items[..|items| - 1]);
    }
  }
}
