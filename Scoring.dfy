/** The `CASE` expression that turns an event tag into an engagement score. */
module Scoring {
  import opened Wrappers

  /** The scoring table as a lookup; a tag absent from it scores 0. */
  const ScoreTable: map<string, int> := map[
    "play_track" := 1,
    "add_track_to_playlist" := 2,
    "share_track" := 3,
    "like_track" := 2,
    "follow_artist" := 3,
    "share_artist" := 4]

  /**
    The `CASE` branches in their written order. A NULL tag makes every
    `WHEN e.event_type = ...` test unknown, so it reaches `ELSE 0`.
   */
  function Score(eventType: Option<string>): (score: int)
    ensures eventType.Some? && eventType.value in ScoreTable ==> score == ScoreTable[eventType.value]
    ensures eventType.None? || eventType.value !in ScoreTable ==> score == 0
  {
    match eventType
    case None => 0
    case Some(tag) =>
      if tag == "play_track" then 1
      else if tag == "add_track_to_playlist" then 2
      else if tag == "share_track" then 3
      else if tag == "like_track" then 2
      else if tag == "follow_artist" then 3
      else if tag == "share_artist" then 4
      else 0
  }

  /** Each of the six known tags gets its tabulated score. */
  lemma ScoreOfKnownTags()
    ensures Score(Some("play_track")) == 1
    ensures Score(Some("add_track_to_playlist")) == 2
    ensures Score(Some("share_track")) == 3
    ensures Score(Some("like_track")) == 2
    ensures Score(Some("follow_artist")) == 3
    ensures Score(Some("share_artist")) == 4
  {
  }

  /** The score is total, lies in 0..4, and is 0 exactly for NULL and unknown tags. */
  lemma ScoreBounds(eventType: Option<string>)
    ensures 0 <= Score(eventType) <= 4
    ensures Score(eventType) == 0 <==> eventType.None? || eventType.value !in ScoreTable
  {
  }
}
