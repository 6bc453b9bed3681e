# Engagement report query

A model of the one piece of logic in the `task-2` page of this SvelteKit
application: the SQL query that its `load` handler runs
(`src/routes/task-2/+page.server.ts`). The query reads three tables,
`users`, `artists` and `user_events`. It joins every event to its user and
its artist. For each match it projects `artist_name, event_type,
engagement_score, created_at, timezone`, where `engagement_score` comes from a
`CASE` over the event tag. It then orders the rows by `artist_name ASC,
engagement_score DESC, created_at DESC`. The handler returns the rows
unchanged under `data`.

The model is purely functional. The query has no loops and no mutable state.

- `Tables.dfy`: the three tables as sequences of records, the output row and the store.
- `Scoring.dfy`: the `CASE` expression (`Score`) and the same table as a lookup map (`ScoreTable`).
- `Join.dfy`: the two inner joins as a nested enumeration of (event, user, artist) triples, with the projection.
- `Ordering.dfy`: the three-key order on rows and what "sorted" means.
- `Sorting.dfy`: an insertion sort as a reference for `ORDER BY`, plus a proof that the sorted result is unique up to fully tied rows.
- `Report.dfy`: `Query` (join, then sort), `Load` (the handler), and the end-to-end properties.

Modelling choices:

- `event_type` is `Option<string>`, with `None` standing for SQL `NULL`.
  `NULL = 'play_track'` is not true, so a NULL tag falls through to `ELSE 0`.
  It is passed through to the output as it is.
- `artist_name` is ordered character by character, and a proper prefix comes
  first. This is a binary collation.
- `created_at` is an `int`. It stands for any totally ordered timestamp.
- The join keeps SQL's multiplicities. An event produces one row for every
  user row with a matching id times every artist row with a matching id. The
  model does not assume that `id` is a key. When both `id` columns are keys,
  a lemma shows that each resolvable event produces exactly one row.
- Rows equal on all three sort keys have no defined order. `Query` happens
  to return them in one particular order, but nothing is stated about that
  order. What is stated is `QueryDeterminedUpToTies`: every correctly sorted
  permutation of the joined rows agrees with `Query` on the three keys at
  every position.

## Model

| member | source | states |
|---|---|---|
| `Scoring.Score` | src/routes/task-2/+page.server.ts:10-18 | a tag in the scoring table gets its tabulated value; a NULL tag or any other tag gets 0 |
| `Scoring.ScoreOfKnownTags` | src/routes/task-2/+page.server.ts:11-16 | play_track 1, add_track_to_playlist 2, share_track 3, like_track 2, follow_artist 3, share_artist 4 |
| `Scoring.ScoreBounds` | src/routes/task-2/+page.server.ts:10-18 | the score is total and lies in 0..4, and it is 0 exactly for NULL and for tags outside the table |
| `Join.JoinedMembership` | src/routes/task-2/+page.server.ts:7-26 | a row is in the join iff some event, user and artist satisfy `e.user_id = u.id` and `e.artist_id = a.id` and the row is their projection (name from the artist, timezone from the user, tag and timestamp from the event, score of the tag) |
| `Join.JoinUsersCardinality` | src/routes/task-2/+page.server.ts:21-26 | an event yields (number of users with its user_id) x (number of artists with its artist_id) rows |
| `Join.EventRowCount` | src/routes/task-2/+page.server.ts:21-26 | an event yields no row iff its user or artist reference dangles; with key `id` columns a resolvable event yields exactly one row |
| `Join.DanglingEventsDropped` | src/routes/task-2/+page.server.ts:21-26 | the join over all events equals the join over only the events whose references resolve, so dangling events are dropped silently |
| `Join.OneRowPerResolvedEvent` | src/routes/task-2/+page.server.ts:21-26 | when both `id` columns are keys, the number of joined rows equals the number of resolvable events |
| `Join.JoinedEmptyIff` | src/routes/task-2/+page.server.ts:21-26 | the join is empty iff no event resolves both references |
| `Join.JoinedRowsScored` | src/routes/task-2/+page.server.ts:10-18 | every joined row's engagement_score is the score of its own event_type and lies in 0..4 |
| `Ordering.NameLeReflexive` | src/routes/task-2/+page.server.ts:28 | a name may precede itself |
| `Ordering.NameLeTransitive` | src/routes/task-2/+page.server.ts:28 | the name order is transitive |
| `Ordering.NameLeTotal` | src/routes/task-2/+page.server.ts:28 | any two names are comparable |
| `Ordering.NameLeAntisymmetric` | src/routes/task-2/+page.server.ts:28 | names that may each precede the other are equal |
| `Ordering.KeyLeReflexive` | src/routes/task-2/+page.server.ts:27-28 | a key may precede itself |
| `Ordering.KeyLeTransitive` | src/routes/task-2/+page.server.ts:27-28 | the three-key order is transitive |
| `Ordering.KeyLeTotal` | src/routes/task-2/+page.server.ts:27-28 | any two keys are comparable |
| `Ordering.KeyLeAntisymmetric` | src/routes/task-2/+page.server.ts:27-28 | keys that may each precede the other are equal, so the order on keys is total |
| `Ordering.SortedPrecedes` | src/routes/task-2/+page.server.ts:27-28 | in a sorted result, a row whose key strictly precedes another's (smaller name; or equal name and higher score; or equal name and score and later created_at) comes first |
| `Ordering.SortedAdjacent` | src/routes/task-2/+page.server.ts:27-28 | adjacent rows of a sorted result have ascending names, descending scores within a name, and descending created_at within equal name and score |
| `Sorting.InsertPermutation` | src/routes/task-2/+page.server.ts:27-28 | inserting a row adds exactly that row to the multiset |
| `Sorting.InsertSorted` | src/routes/task-2/+page.server.ts:27-28 | inserting into a sorted sequence keeps it sorted |
| `Sorting.SortRowsPermutation` | src/routes/task-2/+page.server.ts:27-28 | sorting only rearranges: same multiset of rows |
| `Sorting.SortRowsSorted` | src/routes/task-2/+page.server.ts:27-28 | the sorted rows satisfy the three-key order pairwise |
| `Sorting.SortedPermutationsAgreeOnKeys` | src/routes/task-2/+page.server.ts:27-28 | two sorted permutations of the same rows have the same length and the same three keys at every position |
| `Report.QuerySortedPermutation` | src/routes/task-2/+page.server.ts:21-28 | the query result is sorted by the three keys and is a permutation of the joined rows |
| `Report.QueryMembership` | src/routes/task-2/+page.server.ts:7-28 | a row is in the result iff it is the projection of an event with matching user and artist |
| `Report.QueryRowsScored` | src/routes/task-2/+page.server.ts:10-18 | every result row's engagement_score is the `CASE` value of its event_type, in 0..4 |
| `Report.QueryEmpty` | src/routes/task-2/+page.server.ts:21-26 | the result is empty iff no event resolves, and an empty `user_events` gives an empty result |
| `Report.QueryDeterminedUpToTies` | src/routes/task-2/+page.server.ts:27-28 | any sorted permutation of the joined rows agrees with the query result on all three keys at every position; only fully tied rows may appear in another order |
| `Report.Load` | src/routes/task-2/+page.server.ts:31-35 | the handler's `data` is sorted and is exactly the multiset of joined rows |
| `Report.TwoEventsOneArtist` | src/routes/task-2/+page.server.ts:6-29 | one user, one artist, events play_track and share_artist and one event of a missing user: the result is the share_artist row (score 4) then the play_track row (score 1); the dangling event is absent |

## Left out

- The database handle `locals.db` and the driver call `db.prepare(query).all()` (lines 4 and 31) belong to a foreign database library. The query's result is modelled as the pure function `Query` of the three tables.
- `async`/`await`, the `PageServerLoad` typing and routing (lines 1-3) are framework plumbing with no logic of their own.
- Driver and schema errors (missing tables, lost connection) are not modelled. The handler has no error handling of its own.
- Collations other than binary are not modelled. Names are compared character by character.
- The concrete format of `created_at` is not modelled. It is an `int`, and only its order matters.
- Timezone conversion is not modelled. `timezone` is only passed through and is never applied to `created_at`.
- NULL in columns other than `event_type` is not modelled: NULL ids, NULL artist names, NULL timezones and NULL timestamps. A NULL id would never satisfy an `ON` condition. A NULL name or timestamp would be ordered by the store's NULL rules.
- The order in which the store enumerates join results before sorting is not modelled. After `ORDER BY` it only affects rows tied on all three keys, and the model makes no promise about those.
