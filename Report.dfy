/**
  The page's `load` handler: run the query and hand the rows back as `data`.
  The database handle and the driver call are not modelled; the query's result
  is the function `Query` of the three tables.
 */
module Report {
  import opened Wrappers
  import opened Tables
  import opened Scoring
  import opened Join
  import opened Ordering
  import opened Sorting

  /** The whole query: join, project, then order. */
  function Query(users: seq<User>, artists: seq<Artist>, events: seq<UserEvent>): seq<EngagementRow>
  {
    SortRows(Joined(users, artists, events))
  }

  /** What the handler returns to the page. */
  datatype PageData = PageData(data: seq<EngagementRow>)

  /** `load`: the rows reach the page unchanged, sorted, and exactly the joined rows. */
  function Load(db: Store): (page: PageData)
    ensures Sorted(page.data)
    ensures multiset(page.data) == multiset(Joined(db.users, db.artists, db.userEvents))
  {
    SortRowsSorted(Joined(db.users, db.artists, db.userEvents));
    SortRowsPermutation(Joined(db.users, db.artists, db.userEvents));
    PageData(Query(db.users, db.artists, db.userEvents))
  }

  /** The result is sorted by the three keys and holds each joined row as often as the join does. */
  lemma QuerySortedPermutation(users: seq<User>, artists: seq<Artist>, events: seq<UserEvent>)
    ensures Sorted(Query(users, artists, events))
    ensures multiset(Query(users, artists, events)) == multiset(Joined(users, artists, events))
  {
    SortRowsSorted(Joined(users, artists, events));
    SortRowsPermutation(Joined(users, artists, events));
  }

  /**
    A row is in the result exactly when some event, user and artist satisfy both
    `ON` conditions and the row is their projection: name from the artist,
    timezone from the user, tag and timestamp from the event, score from the tag.
   */
  lemma QueryMembership(r: EngagementRow, users: seq<User>, artists: seq<Artist>, events: seq<UserEvent>)
    ensures r in Query(users, artists, events) <==> Derivable(r, users, artists, events)
  {
    QuerySortedPermutation(users, artists, events);
    JoinedMembership(r, users, artists, events);
    assert r in Query(users, artists, events) <==> r in multiset(Query(users, artists, events));
  }

  /** Every result row's score is the `CASE` value of its own tag, in 0..4. */
  lemma QueryRowsScored(users: seq<User>, artists: seq<Artist>, events: seq<UserEvent>)
    ensures forall r | r in Query(users, artists, events) ::
      r.engagementScore == Score(r.eventType) && 0 <= r.engagementScore <= 4
  {
    forall r | r in Query(users, artists, events)
      ensures r.engagementScore == Score(r.eventType) && 0 <= r.engagementScore <= 4
    {
      QueryMembership(r, users, artists, events);
      ScoreBounds(r.eventType);
    }
  }

  /** The result is empty exactly when no event resolves, in particular when `user_events` is empty. */
  lemma QueryEmpty(users: seq<User>, artists: seq<Artist>, events: seq<UserEvent>)
    ensures Query(users, artists, events) == [] <==> ResolvedEvents(users, artists, events) == []
    ensures events == [] ==> Query(users, artists, events) == []
  {
    QuerySortedPermutation(users, artists, events);
    JoinedEmptyIff(users, artists, events);
    assert |Query(users, artists, events)| == |multiset(Query(users, artists, events))|;
    assert |Joined(users, artists, events)| == |multiset(Joined(users, artists, events))|;
  }

  /**
    Any store that returns the joined rows in an order satisfying `ORDER BY`
    returns rows with the same three keys at every position as `Query`;
    only the order of rows equal on all three keys may differ.
   */
  lemma QueryDeterminedUpToTies(users: seq<User>, artists: seq<Artist>, events: seq<UserEvent>, result: seq<EngagementRow>)
    requires Sorted(result)
    requires multiset(result) == multiset(Joined(users, artists, events))
    ensures |result| == |Query(users, artists, events)|
    ensures forall i | 0 <= i < |result| :: KeyOf(result[i]) == KeyOf(Query(users, artists, events)[i])
  {
    QuerySortedPermutation(users, artists, events);
    SortedPermutationsAgreeOnKeys(result, Query(users, artists, events));
  }

  /**
    One user, one artist, two events of that pair and one event of a missing user:
    the dangling event is dropped and the two others come out by descending score.
   */
  lemma TwoEventsOneArtist()
    ensures Query(
      [User(1, "UTC")],
      [Artist(10, "Aurora")],
      [UserEvent(1, 1, 10, Some("play_track"), 20240101),
       UserEvent(2, 2, 10, Some("like_track"), 20240103),
       UserEvent(3, 1, 10, Some("share_artist"), 20240102)])
      == [EngagementRow("Aurora", Some("share_artist"), 4, 20240102, "UTC"),
          EngagementRow("Aurora", Some("play_track"), 1, 20240101, "UTC")]
  {
    var rowPlay := EngagementRow("Aurora", Some("play_track"), 1, 20240101, "UTC");
    var rowShare := EngagementRow("Aurora", Some("share_artist"), 4, 20240102, "UTC");
    assert Joined([User(1, "UTC")], [Artist(10, "Aurora")],
      [UserEvent(1, 1, 10, Some("play_track"), 20240101),
       UserEvent(2, 2, 10, Some("like_track"), 20240103),
       UserEvent(3, 1, 10, Some("share_artist"), 20240102)])
      == [rowPlay, rowShare];
    assert RowLe(rowShare, rowPlay);
  }
}
