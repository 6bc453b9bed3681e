/**
  The three tables the engagement report reads, and the row shape it produces.
  Every table is a sequence of records; the order of a table carries no meaning.
 */
module Tables {
  import opened Wrappers

  /** `created_at` is compared but never inspected, so any totally ordered value will do. */
  type Timestamp = int

  /** A row of `users`. */
  datatype User = User(id: int, timezone: string)

  /** A row of `artists`. */
  datatype Artist = Artist(id: int, name: string)

  /** A row of `user_events`; `eventType` is `None` when the column is NULL. */
  datatype UserEvent = UserEvent(
    id: int,
    userId: int,
    artistId: int,
    eventType: Option<string>,
    createdAt: Timestamp)

  /** One output row: `artist_name, event_type, engagement_score, created_at, timezone`. */
  datatype EngagementRow = EngagementRow(
    artistName: string,
    eventType: Option<string>,
    engagementScore: int,
    createdAt: Timestamp,
    timezone: string)

  /** The store as far as the query can see it. */
  datatype Store = Store(users: seq<User>, artists: seq<Artist>, userEvents: seq<UserEvent>)
}
