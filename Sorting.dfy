/**
  A reference implementation of the `ORDER BY` step: insertion sort under `RowLe`.
  The store may use any algorithm; what is fixed is that the result is sorted,
  is a permutation of the joined rows, and (as proved below) that every sorted
  permutation has the same key at every position.
 */
module Sorting {
  import opened Tables
  import opened Ordering

  /** Places `r` before the first row it may precede. */
  function Insert(r: EngagementRow, rows: seq<EngagementRow>): seq<EngagementRow>
  {
    if |rows| == 0 then [r]
    else if RowLe(r, rows[0]) then [r] + rows
    else [rows[0]] + Insert(r, rows[1..])
  }

  function SortRows(rows: seq<EngagementRow>): seq<EngagementRow>
  {
    if |rows| == 0 then [] else Insert(rows[0], SortRows(rows[1..]))
  }

  lemma {:induction false} InsertPermutation(r: EngagementRow, rows: seq<EngagementRow>)
    ensures multiset(Insert(r, rows)) == multiset(rows) + multiset{r}
  {
    if |rows| > 0 && !RowLe(r, rows[0]) {
      InsertPermutation(r, rows[1..]);
      assert rows == [rows[0]] + rows[1..];
    }
  }

  /** Prepending a row that may precede every row of a sorted sequence keeps it sorted. */
  lemma SortedCons(r: EngagementRow, rows: seq<EngagementRow>)
    requires Sorted(rows)
    requires forall x | x in rows :: RowLe(r, x)
    ensures Sorted([r] + rows)
  {
    forall i, j | 0 <= i < j < |[r] + rows|
      ensures RowLe(([r] + rows)[i], ([r] + rows)[j])
    {
      if i > 0 {
        assert ([r] + rows)[i] == rows[i - 1];
      }
      assert ([r] + rows)[j] == rows[j - 1];
    }
  }

  lemma {:induction false} InsertSorted(r: EngagementRow, rows: seq<EngagementRow>)
    requires Sorted(rows)
    ensures Sorted(Insert(r, rows))
  {
    if |rows| == 0 {
    } else if RowLe(r, rows[0]) {
      forall x | x in rows
        ensures RowLe(r, x)
      {
        var j :| 0 <= j < |rows| && rows[j] == x;
        if j > 0 {
          KeyLeTransitive(KeyOf(r), KeyOf(rows[0]), KeyOf(x));
        }
      }
      SortedCons(r, rows);
    } else {
      KeyLeTotal(KeyOf(r), KeyOf(rows[0]));
      var tail := Insert(r, rows[1..]);
      InsertSorted(r, rows[1..]);
      InsertPermutation(r, rows[1..]);
      forall x | x in tail
        ensures RowLe(rows[0], x)
      {
        assert x in multiset(tail);
        if x != r {
          assert x in multiset(rows[1..]);
          var j :| 0 <= j < |rows[1..]| && rows[1..][j] == x;
          assert rows[j + 1] == x;
        }
      }
      SortedCons(rows[0], tail);
    }
  }

  /** Sorting only rearranges the rows. */
  lemma {:induction false} SortRowsPermutation(rows: seq<EngagementRow>)
    ensures multiset(SortRows(rows)) == multiset(rows)
  {
    if |rows| > 0 {
      SortRowsPermutation(rows[1..]);
      InsertPermutation(rows[0], SortRows(rows[1..]));
      assert rows == [rows[0]] + rows[1..];
    }
  }

  /** The sorted rows satisfy the `ORDER BY` rule. */
  lemma {:induction false} SortRowsSorted(rows: seq<EngagementRow>)
    ensures Sorted(SortRows(rows))
  {
    if |rows| > 0 {
      SortRowsSorted(rows[1..]);
      InsertSorted(rows[0], SortRows(rows[1..]));
    }
  }

  /** An element of the multiset of a sequence sits at some position of it. */
  lemma IndexOf<T>(t: seq<T>, x: T) returns (j: int)
    requires x in multiset(t)
    ensures 0 <= j < |t| && t[j] == x
  {
    assert x in t;
    j :| 0 <= j < |t| && t[j] == x;
  }

  /** Taking `s[0]` out of `s`, and the same value out of `t` at position `j`, leaves equal multisets. */
  lemma RemoveMatching<T>(s: seq<T>, t: seq<T>, j: int)
    requires multiset(s) == multiset(t)
    requires 0 < |s| && 0 <= j < |t| && t[j] == s[0]
    ensures multiset(t[..j] + t[j + 1..]) == multiset(s[1..])
  {
    assert t == t[..j] + [t[j]] + t[j + 1..];
    assert s == [s[0]] + s[1..];
    assert multiset(t[..j] + t[j + 1..]) == multiset(t) - multiset{t[j]};
    assert multiset(s[1..]) == multiset(s) - multiset{s[0]};
  }

  lemma SortedRemoveAt(t: seq<EngagementRow>, j: int)
    requires Sorted(t) && 0 <= j < |t|
    ensures Sorted(t[..j] + t[j + 1..])
  {
    var rest := t[..j] + t[j + 1..];
    forall p, q | 0 <= p < q < |rest|
      ensures RowLe(rest[p], rest[q])
    {
      var p' := if p < j then p else p + 1;
      var q' := if q < j then q else q + 1;
      assert rest[p] == t[p'] && rest[q] == t[q'];
    }
  }

  lemma SortedTail(s: seq<EngagementRow>)
    requires Sorted(s) && |s| > 0
    ensures Sorted(s[1..])
  {
    forall p, q | 0 <= p < q < |s[1..]|
      ensures RowLe(s[1..][p], s[1..][q])
    {
      assert s[1..][p] == s[p + 1] && s[1..][q] == s[q + 1];
    }
  }

  /** The first row of a sorted sequence may precede every row in it. */
  lemma FirstIsLeast(s: seq<EngagementRow>, x: EngagementRow)
    requires Sorted(s) && x in multiset(s)
    ensures RowLe(s[0], x)
  {
    var i := IndexOf(s, x);
    if i == 0 {
      KeyLeReflexive(KeyOf(x));
    }
  }

  /**
    In a sorted `t` whose row at `j` has the least key `k` of the whole sequence,
    every row up to `j` has key `k`.
   */
  lemma LeastKeyPrefix(t: seq<EngagementRow>, j: int, k: SortKey)
    requires Sorted(t) && 0 <= j < |t|
    requires KeyOf(t[j]) == k && KeyLe(k, KeyOf(t[0]))
    ensures forall p | 0 <= p <= j :: KeyOf(t[p]) == k
  {
    forall p | 0 <= p <= j
      ensures KeyOf(t[p]) == k
    {
      if p < j {
        assert RowLe(t[p], t[j]);
        if 0 < p {
          assert RowLe(t[0], t[p]);
          KeyLeTransitive(k, KeyOf(t[0]), KeyOf(t[p]));
        }
        KeyLeAntisymmetric(KeyOf(t[p]), k);
      }
    }
  }

  /**
    The sort is determined up to ties: any two sorted permutations of the same
    rows hold rows with the same artist name, score and timestamp at every position.
    Nothing is promised about the order of rows equal on all three keys.
   */
  lemma {:induction false} SortedPermutationsAgreeOnKeys(s: seq<EngagementRow>, t: seq<EngagementRow>)
    requires Sorted(s) && Sorted(t)
    requires multiset(s) == multiset(t)
    ensures |s| == |t|
    ensures forall i | 0 <= i < |s| :: KeyOf(s[i]) == KeyOf(t[i])
    decreases |s|
  {
    assert |s| == |multiset(s)| == |t|;
    if |s| > 0 {
      assert s[0] in multiset(s) && t[0] in multiset(t);
      var j := IndexOf(t, s[0]);
      var rest := t[..j] + t[j + 1..];
      RemoveMatching(s, t, j);
      SortedRemoveAt(t, j);
      SortedTail(s);
      SortedPermutationsAgreeOnKeys(s[1..], rest);
      var k := KeyOf(s[0]);
      FirstIsLeast(s, t[0]);
      LeastKeyPrefix(t, j, k);
      forall i | 0 <= i < |s|
        ensures KeyOf(s[i]) == KeyOf(t[i])
      {
        if i > 0 {
          assert s[i] == s[1..][i - 1];
          if i - 1 < j {
            assert rest[i - 1] == t[i - 1];
          } else {
            assert rest[i - 1] == t[i];
          }
        }
      }
    }
  }
}
