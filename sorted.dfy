/** isSorted from src/utils/sorted.ts: checks that an array of records is
    ordered by one key, descending unless told otherwise, by comparing each
    element with the one before it. Key values are modelled as integers
    (numbers, and timestamps in their fixed ISO form, which compare in time
    order). */
module Sorted {

  /** The strict comparison that makes isSorted answer false: in descending
      mode a smaller value before a larger one, in ascending mode the reverse. */
  predicate OutOfOrder(prev: int, next: int, descending: bool) {
    if descending then prev < next else prev > next
  }

  /** No adjacent pair is out of order. */
  predicate AdjacentOrdered(s: seq<int>, descending: bool) {
    forall i :: 1 <= i < |s| ==> !OutOfOrder(s[i - 1], s[i], descending)
  }

  /** Every earlier value is >= every later one (descending), or <= (ascending). */
  predicate Ordered(s: seq<int>, descending: bool) {
    forall i, j :: 0 <= i < j < |s| ==> if descending then s[i] >= s[j] else s[i] <= s[j]
  }

  /** The key column of a sequence of records. */
  function Column<T>(a: seq<T>, key: T -> int): seq<int> {
    seq(|a|, i requires 0 <= i < |a| => key(a[i]))
  }

  /** Adjacent ordering is global ordering: the fact the tests rely on when
      they take a true answer to mean "the whole list is sorted". */
  lemma {:induction false} AdjacentOrderedIsOrdered(s: seq<int>, descending: bool)
    ensures AdjacentOrdered(s, descending) <==> Ordered(s, descending)
  {
    if AdjacentOrdered(s, descending) && |s| > 1 {
      var t := s[..|s| - 1];
      assert AdjacentOrdered(t, descending) by {
        forall i | 1 <= i < |t| ensures !OutOfOrder(t[i - 1], t[i], descending) {
          assert t[i - 1] == s[i - 1] && t[i] == s[i];
        }
      }
      AdjacentOrderedIsOrdered(t, descending);
      forall i, j | 0 <= i < j < |s| ensures if descending then s[i] >= s[j] else s[i] <= s[j] {
        if j < |s| - 1 {
          assert s[i] == t[i] && s[j] == t[j];
        } else if i < j - 1 {
          assert s[i] == t[i] && s[j - 1] == t[j - 1];
          assert !OutOfOrder(s[j - 1], s[j], descending);
        } else {
          assert !OutOfOrder(s[j - 1], s[j], descending);
        }
      }
    }
    if Ordered(s, descending) {
      forall i | 1 <= i < |s| ensures !OutOfOrder(s[i - 1], s[i], descending) {
        assert i - 1 < i;
      }
    }
  }

  /** Because the comparisons are strict, equal neighbours never make the
      answer false: a sequence passes in both directions exactly when all its
      values are equal. */
  lemma BothDirectionsIffConstant(s: seq<int>)
    ensures AdjacentOrdered(s, true) && AdjacentOrdered(s, false)
            <==> forall i, j :: 0 <= i < |s| && 0 <= j < |s| ==> s[i] == s[j]
  {
    AdjacentOrderedIsOrdered(s, true);
    AdjacentOrderedIsOrdered(s, false);
    if Ordered(s, true) && Ordered(s, false) {
      forall i, j | 0 <= i < |s| && 0 <= j < |s| ensures s[i] == s[j] {
        if i < j {
          assert s[i] >= s[j] && s[i] <= s[j];
        } else if j < i {
          assert s[j] >= s[i] && s[j] <= s[i];
        }
      }
    }
  }

  /** isSorted(array, key, descending = true). The array is only read. */
  method IsSorted<T>(rows: array<T>, key: T -> int, descending: bool := true) returns (r: bool)
    ensures rows.Length <= 1 ==> r
    ensures r <==> AdjacentOrdered(Column(rows[..], key), descending)
    ensures r <==> Ordered(Column(rows[..], key), descending)
  {
    AdjacentOrderedIsOrdered(Column(rows[..], key), descending);
    if rows.Length <= 1 {
      return true;
    }
    var i := 1;
    while i < rows.Length
      invariant 1 <= i <= rows.Length
      invariant forall j :: 1 <= j < i ==> !OutOfOrder(key(rows[j - 1]), key(rows[j]), descending)
    {
      if OutOfOrder(key(rows[i - 1]), key(rows[i]), descending) {
        assert OutOfOrder(Column(rows[..], key)[i - 1], Column(rows[..], key)[i], descending);
        return false;
      }
      i := i + 1;
    }
    return true;
  }
}
