/**
 * The stored records (model.go) and the time units of Go's `time` package.
 * Times are integers of nanoseconds since the Unix epoch and durations are
 * integers of nanoseconds, as `time.Time` and `time.Duration` count them.
 */
module Model {

  const Second: int := 1_000_000_000
  const Minute: int := 60 * Second
  const Hour: int := 60 * Minute
  const Day: int := 24 * Hour

  /** `time.Time{}`: January 1 of year 1, 00:00:00 UTC, 62135596800 s before the epoch. */
  const ZeroTime: int := -62_135_596_800 * Second

  /** A clip of the corpus (videoInfo); `number` is its position in publish order. */
  datatype VideoInfo = VideoInfo(id: string, title: string, publishedAt: int, duration: int, number: int)

  /** A clip as listed by the upload playlist, before its duration is known (videoInfoPart). */
  datatype VideoInfoPart = VideoInfoPart(id: string, title: string, publishedAt: int)

  /** The single statistics document (videoStatistics). */
  datatype VideoStatistics = VideoStatistics(latestVideoId: string, latestVideoPublishedAt: int, videoCount: int)

  function NumberOf(v: VideoInfo): int { v.number }

  /** The clip numbers present in a list of records. */
  function Numbers(videos: seq<VideoInfo>): set<int>
  {
    set v | v in videos :: v.number
  }

  /** The IDs present in a list of records. */
  function Ids(videos: seq<VideoInfo>): set<string>
  {
    set v | v in videos :: v.id
  }

  /** No ID occurs twice. */
  predicate DistinctIds(videos: seq<VideoInfo>)
  {
    forall i, j :: 0 <= i < j < |videos| ==> videos[i].id != videos[j].id
  }

  /** With distinct IDs there are as many IDs as records. */
  lemma {:induction false} DistinctIdsCard(videos: seq<VideoInfo>)
    requires DistinctIds(videos)
    ensures |Ids(videos)| == |videos|
  {
    if videos != [] {
      var init := videos[..|videos| - 1];
      var last := videos[|videos| - 1];
      assert videos == init + [last];
      DistinctIdsCard(init);
      assert Ids(videos) == Ids(init) + {last.id};
      assert last.id !in Ids(init);
    }
  }
}
