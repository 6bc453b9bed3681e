/**
  `ORDER BY artist_name ASC, engagement_score DESC, created_at DESC`.
  Names compare character by character (binary collation); a proper prefix
  comes first. Rows equal on all three keys are not ordered among themselves.
 */
module Ordering {
  import opened Tables

  /** `x` sorts no later than `y` in lexicographic character order. */
  predicate NameLe(x: string, y: string)
  {
    if |x| == 0 then true
    else if |y| == 0 then false
    else if x[0] != y[0] then x[0] < y[0]
    else NameLe(x[1..], y[1..])
  }

  lemma {:induction false} NameLeReflexive(x: string)
    ensures NameLe(x, x)
  {
    if |x| > 0 {
      NameLeReflexive(x[1..]);
    }
  }

  lemma {:induction false} NameLeTransitive(x: string, y: string, z: string)
    requires NameLe(x, y) && NameLe(y, z)
    ensures NameLe(x, z)
  {
    if |x| > 0 && x[0] == y[0] && y[0] == z[0] {
      NameLeTransitive(x[1..], y[1..], z[1..]);
    }
  }

  lemma {:induction false} NameLeTotal(x: string, y: string)
    ensures NameLe(x, y) || NameLe(y, x)
  {
    if |x| > 0 && |y| > 0 && x[0] == y[0] {
      NameLeTotal(x[1..], y[1..]);
    }
  }

  lemma {:induction false} NameLeAntisymmetric(x: string, y: string)
    requires NameLe(x, y) && NameLe(y, x)
    ensures x == y
  {
    if |x| > 0 {
      NameLeAntisymmetric(x[1..], y[1..]);
      assert x == [x[0]] + x[1..];
      assert y == [y[0]] + y[1..];
    }
  }

  /** The three sort keys of a row, in precedence order. */
  datatype SortKey = SortKey(artistName: string, engagementScore: int, createdAt: Timestamp)

  function KeyOf(r: EngagementRow): SortKey
  {
    SortKey(r.artistName, r.engagementScore, r.createdAt)
  }

  /** `a` may come before `b`: the first key that differs decides, in its own direction. */
  predicate KeyLe(a: SortKey, b: SortKey)
  {
    if a.artistName != b.artistName then NameLe(a.artistName, b.artistName)
    else if a.engagementScore != b.engagementScore then a.engagementScore > b.engagementScore
    else a.createdAt >= b.createdAt
  }

  /** Row `a` may come before row `b` in the result. */
  predicate RowLe(a: EngagementRow, b: EngagementRow)
  {
    KeyLe(KeyOf(a), KeyOf(b))
  }

  lemma KeyLeReflexive(a: SortKey)
    ensures KeyLe(a, a)
  {
  }

  lemma KeyLeTransitive(a: SortKey, b: SortKey, c: SortKey)
    requires KeyLe(a, b) && KeyLe(b, c)
    ensures KeyLe(a, c)
  {
    if a.artistName != b.artistName && b.artistName != c.artistName {
      NameLeTransitive(a.artistName, b.artistName, c.artistName);
      if a.artistName == c.artistName {
        NameLeAntisymmetric(a.artistName, b.artistName);
      }
    }
  }

  lemma KeyLeTotal(a: SortKey, b: SortKey)
    ensures KeyLe(a, b) || KeyLe(b, a)
  {
    NameLeTotal(a.artistName, b.artistName);
  }

  /** Two keys that may each precede the other are equal: the order on keys is total. */
  lemma KeyLeAntisymmetric(a: SortKey, b: SortKey)
    requires KeyLe(a, b) && KeyLe(b, a)
    ensures a == b
  {
    if a.artistName != b.artistName {
      NameLeAntisymmetric(a.artistName, b.artistName);
    }
  }

  /** Every row may come before every later row. */
  predicate Sorted(rows: seq<EngagementRow>)
  {
    forall i, j | 0 <= i < j < |rows| :: RowLe(rows[i], rows[j])
  }

  /**
    Reading of a sorted result: a row whose key strictly precedes another's
    (smaller name; or same name and higher score; or same name and score and
    later timestamp) appears before it.
   */
  lemma SortedPrecedes(rows: seq<EngagementRow>, i: int, j: int)
    requires Sorted(rows)
    requires 0 <= i < |rows| && 0 <= j < |rows|
    requires !RowLe(rows[j], rows[i])
    ensures i < j
  {
    KeyLeReflexive(KeyOf(rows[i]));
  }

  /** Adjacent rows of a sorted result satisfy the three-key rule of `ORDER BY`. */
  lemma SortedAdjacent(rows: seq<EngagementRow>, i: int)
    requires Sorted(rows)
    requires 0 <= i && i + 1 < |rows|
    ensures NameLe(rows[i].artistName, rows[i + 1].artistName)
    ensures rows[i].artistName == rows[i + 1].artistName ==> rows[i].engagementScore >= rows[i + 1].engagementScore
    ensures rows[i].artistName == rows[i + 1].artistName && rows[i].engagementScore == rows[i + 1].engagementScore
      ==> rows[i].createdAt >= rows[i + 1].createdAt
  {
    assert RowLe(rows[i], rows[i + 1]);
    NameLeReflexive(rows[i].artistName);
  }
}
