/**
  `FROM user_events e JOIN users u ON e.user_id = u.id JOIN artists a ON e.artist_id = a.id`
  with the `SELECT` list. An inner join yields one row for every (event, user, artist)
  triple whose ids match; rows are enumerated event by event, then user by user, then
  artist by artist (the ordering step that follows makes this order irrelevant except
  among rows tied on all three sort keys).
 */
module Join {
  import opened Wrappers
  import opened Tables
  import opened Scoring

  /** The `SELECT` list applied to one matching triple. */
  function Project(e: UserEvent, u: User, a: Artist): EngagementRow
  {
    EngagementRow(a.name, e.eventType, Score(e.eventType), e.createdAt, u.timezone)
  }

  /** The rows for event `e` and user `u`: one per artist whose id is `e.artistId`. */
  function JoinArtists(e: UserEvent, u: User, artists: seq<Artist>): seq<EngagementRow>
  {
    if |artists| == 0 then []
    else
      (if artists[0].id == e.artistId then [Project(e, u, artists[0])] else [])
      + JoinArtists(e, u, artists[1..])
  }

  /** The rows for event `e`: one per matching user and matching artist. */
  function JoinUsers(e: UserEvent, users: seq<User>, artists: seq<Artist>): seq<EngagementRow>
  {
    if |users| == 0 then []
    else
      (if users[0].id == e.userId then JoinArtists(e, users[0], artists) else [])
      + JoinUsers(e, users[1..], artists)
  }

  /** The unsorted result of the two joins. */
  function Joined(users: seq<User>, artists: seq<Artist>, events: seq<UserEvent>): seq<EngagementRow>
  {
    if |events| == 0 then []
    else JoinUsers(events[0], users, artists) + Joined(users, artists, events[1..])
  }

  /** `r` is the projection of some event, user and artist that satisfy both `ON` conditions. */
  ghost predicate Derivable(r: EngagementRow, users: seq<User>, artists: seq<Artist>, events: seq<UserEvent>)
  {
    exists i, j, k | 0 <= i < |events| && 0 <= j < |users| && 0 <= k < |artists| ::
      users[j].id == events[i].userId && artists[k].id == events[i].artistId
      && r == Project(events[i], users[j], artists[k])
  }

  lemma {:induction false} JoinArtistsMembership(r: EngagementRow, e: UserEvent, u: User, artists: seq<Artist>)
    ensures r in JoinArtists(e, u, artists) <==>
      exists k | 0 <= k < |artists| :: artists[k].id == e.artistId && r == Project(e, u, artists[k])
  {
    if |artists| > 0 {
      JoinArtistsMembership(r, e, u, artists[1..]);
      if r in JoinArtists(e, u, artists[1..]) {
        var k :| 0 <= k < |artists[1..]| && artists[1..][k].id == e.artistId && r == Project(e, u, artists[1..][k]);
        assert artists[k + 1] == artists[1..][k];
      }
      if exists k | 0 <= k < |artists| :: artists[k].id == e.artistId && r == Project(e, u, artists[k]) {
        var k :| 0 <= k < |artists| && artists[k].id == e.artistId && r == Project(e, u, artists[k]);
        if k > 0 {
          assert artists[1..][k - 1] == artists[k];
        }
      }
    }
  }

  lemma {:induction false} JoinUsersMembership(r: EngagementRow, e: UserEvent, users: seq<User>, artists: seq<Artist>)
    ensures r in JoinUsers(e, users, artists) <==>
      exists j, k | 0 <= j < |users| && 0 <= k < |artists| ::
        users[j].id == e.userId && artists[k].id == e.artistId && r == Project(e, users[j], artists[k])
  {
    if |users| > 0 {
      JoinUsersMembership(r, e, users[1..], artists);
      JoinArtistsMembership(r, e, users[0], artists);
      if r in JoinUsers(e, users[1..], artists) {
        var j, k :| 0 <= j < |users[1..]| && 0 <= k < |artists| && users[1..][j].id == e.userId
          && artists[k].id == e.artistId && r == Project(e, users[1..][j], artists[k]);
        assert users[j + 1] == users[1..][j];
      }
      if exists j, k | 0 <= j < |users| && 0 <= k < |artists| ::
        users[j].id == e.userId && artists[k].id == e.artistId && r == Project(e, users[j], artists[k])
      {
        var j, k :| 0 <= j < |users| && 0 <= k < |artists| && users[j].id == e.userId
          && artists[k].id == e.artistId && r == Project(e, users[j], artists[k]);
        if j > 0 {
          assert users[1..][j - 1] == users[j];
        }
      }
    }
  }

  /** A row is in the join exactly when it is the projection of a triple satisfying both `ON` conditions. */
  lemma {:induction false} JoinedMembership(r: EngagementRow, users: seq<User>, artists: seq<Artist>, events: seq<UserEvent>)
    ensures r in Joined(users, artists, events) <==> Derivable(r, users, artists, events)
  {
    if |events| > 0 {
      JoinedMembership(r, users, artists, events[1..]);
      JoinUsersMembership(r, events[0], users, artists);
      if r in Joined(users, artists, events[1..]) {
        var i, j, k :| 0 <= i < |events[1..]| && 0 <= j < |users| && 0 <= k < |artists|
          && users[j].id == events[1..][i].userId && artists[k].id == events[1..][i].artistId
          && r == Project(events[1..][i], users[j], artists[k]);
        assert events[i + 1] == events[1..][i];
      }
      if Derivable(r, users, artists, events) {
        var i, j, k :| 0 <= i < |events| && 0 <= j < |users| && 0 <= k < |artists|
          && users[j].id == events[i].userId && artists[k].id == events[i].artistId
          && r == Project(events[i], users[j], artists[k]);
        if i > 0 {
          assert events[1..][i - 1] == events[i];
        }
      }
    }
  }

  /** The `id` column of `users`. */
  function UserIds(users: seq<User>): seq<int>
  {
    if |users| == 0 then [] else [users[0].id] + UserIds(users[1..])
  }

  /** The `id` column of `artists`. */
  function ArtistIds(artists: seq<Artist>): seq<int>
  {
    if |artists| == 0 then [] else [artists[0].id] + ArtistIds(artists[1..])
  }

  /** How many times `x` occurs in a column. */
  function Occurrences(ids: seq<int>, x: int): nat
  {
    if |ids| == 0 then 0 else (if ids[0] == x then 1 else 0) + Occurrences(ids[1..], x)
  }

  /** No value occurs twice in the column (the column is a key). */
  predicate IsKey(ids: seq<int>)
  {
    forall i, j | 0 <= i < j < |ids| :: ids[i] != ids[j]
  }

  lemma {:induction false} OccurrencesZero(ids: seq<int>, x: int)
    ensures Occurrences(ids, x) == 0 <==> x !in ids
  {
    if |ids| > 0 {
      OccurrencesZero(ids[1..], x);
      assert ids == [ids[0]] + ids[1..];
    }
  }

  /** In a key column every value occurs at most once. */
  lemma {:induction false} OccurrencesInKey(ids: seq<int>, x: int)
    requires IsKey(ids)
    ensures Occurrences(ids, x) <= 1
  {
    if |ids| > 0 {
      assert IsKey(ids[1..]) by {
        forall i, j | 0 <= i < j < |ids[1..]| ensures ids[1..][i] != ids[1..][j] {
          assert ids[1..][i] == ids[i + 1] && ids[1..][j] == ids[j + 1];
        }
      }
      OccurrencesInKey(ids[1..], x);
      if ids[0] == x {
        OccurrencesZero(ids[1..], x);
      }
    }
  }

  /** Both references of `e` name an existing row. */
  predicate Resolves(users: seq<User>, artists: seq<Artist>, e: UserEvent)
  {
    e.userId in UserIds(users) && e.artistId in ArtistIds(artists)
  }

  /** The events whose `user_id` and `artist_id` both name an existing row. */
  function ResolvedEvents(users: seq<User>, artists: seq<Artist>, events: seq<UserEvent>): seq<UserEvent>
  {
    if |events| == 0 then []
    else
      (if Resolves(users, artists, events[0]) then [events[0]] else [])
      + ResolvedEvents(users, artists, events[1..])
  }

  lemma {:induction false} JoinArtistsCardinality(e: UserEvent, u: User, artists: seq<Artist>)
    ensures |JoinArtists(e, u, artists)| == Occurrences(ArtistIds(artists), e.artistId)
  {
    if |artists| > 0 {
      JoinArtistsCardinality(e, u, artists[1..]);
      assert ArtistIds(artists)[1..] == ArtistIds(artists[1..]);
    }
  }

  lemma SuccTimes(m: nat, n: nat)
    ensures (m + 1) * n == n + m * n
  {
  }

  lemma ProductOfCounts(m: nat, n: nat)
    ensures m * n == 0 <==> m == 0 || n == 0
    ensures m == 1 && n == 1 ==> m * n == 1
  {
  }

  /** Inner-join cardinality: an event yields (matching users) x (matching artists) rows. */
  lemma {:induction false} JoinUsersCardinality(e: UserEvent, users: seq<User>, artists: seq<Artist>)
    ensures |JoinUsers(e, users, artists)|
      == Occurrences(UserIds(users), e.userId) * Occurrences(ArtistIds(artists), e.artistId)
  {
    if |users| > 0 {
      JoinUsersCardinality(e, users[1..], artists);
      JoinArtistsCardinality(e, users[0], artists);
      assert UserIds(users)[1..] == UserIds(users[1..]);
      var m := Occurrences(UserIds(users[1..]), e.userId);
      var n := Occurrences(ArtistIds(artists), e.artistId);
      if users[0].id == e.userId {
        assert Occurrences(UserIds(users), e.userId) == m + 1;
        SuccTimes(m, n);
      } else {
        assert Occurrences(UserIds(users), e.userId) == m;
      }
    }
  }

  /** An event yields no row exactly when one of its references dangles, and one row when both ids are keys. */
  lemma EventRowCount(users: seq<User>, artists: seq<Artist>, e: UserEvent)
    ensures |JoinUsers(e, users, artists)| == 0 <==> !Resolves(users, artists, e)
    ensures IsKey(UserIds(users)) && IsKey(ArtistIds(artists)) && Resolves(users, artists, e)
      ==> |JoinUsers(e, users, artists)| == 1
  {
    JoinUsersCardinality(e, users, artists);
    var m := Occurrences(UserIds(users), e.userId);
    var n := Occurrences(ArtistIds(artists), e.artistId);
    ProductOfCounts(m, n);
    OccurrencesZero(UserIds(users), e.userId);
    OccurrencesZero(ArtistIds(artists), e.artistId);
    if IsKey(UserIds(users)) && IsKey(ArtistIds(artists)) {
      OccurrencesInKey(UserIds(users), e.userId);
      OccurrencesInKey(ArtistIds(artists), e.artistId);
    }
  }

  /** Events with a dangling user or artist reference contribute no row and raise no error. */
  lemma {:induction false} DanglingEventsDropped(users: seq<User>, artists: seq<Artist>, events: seq<UserEvent>)
    ensures Joined(users, artists, events) == Joined(users, artists, ResolvedEvents(users, artists, events))
  {
    if |events| > 0 {
      var e := events[0];
      var rest := ResolvedEvents(users, artists, events[1..]);
      DanglingEventsDropped(users, artists, events[1..]);
      EventRowCount(users, artists, e);
      if Resolves(users, artists, e) {
        assert ResolvedEvents(users, artists, events) == [e] + rest;
        assert ([e] + rest)[1..] == rest;
      } else {
        assert ResolvedEvents(users, artists, events) == rest;
      }
    }
  }

  /** The join is empty exactly when no event resolves both references. */
  lemma {:induction false} JoinedEmptyIff(users: seq<User>, artists: seq<Artist>, events: seq<UserEvent>)
    ensures Joined(users, artists, events) == [] <==> ResolvedEvents(users, artists, events) == []
  {
    if |events| > 0 {
      JoinedEmptyIff(users, artists, events[1..]);
      EventRowCount(users, artists, events[0]);
    }
  }

  /** When both `id` columns are keys, each resolvable event yields exactly one row. */
  lemma {:induction false} OneRowPerResolvedEvent(users: seq<User>, artists: seq<Artist>, events: seq<UserEvent>)
    requires IsKey(UserIds(users)) && IsKey(ArtistIds(artists))
    ensures |Joined(users, artists, events)| == |ResolvedEvents(users, artists, events)|
  {
    if |events| > 0 {
      OneRowPerResolvedEvent(users, artists, events[1..]);
      EventRowCount(users, artists, events[0]);
    }
  }

  /** Every joined row carries the score of its own tag, which lies in 0..4. */
  lemma JoinedRowsScored(users: seq<User>, artists: seq<Artist>, events: seq<UserEvent>)
    ensures forall r | r in Joined(users, artists, events) ::
      r.engagementScore == Score(r.eventType) && 0 <= r.engagementScore <= 4
  {
    forall r | r in Joined(users, artists, events)
      ensures r.engagementScore == Score(r.eventType) && 0 <= r.engagementScore <= 4
    {
      JoinedMembership(r, users, artists, events);
      ScoreBounds(r.eventType);
    }
  }
}
