/**
 * The bookkeeping of exporter.go that decides which clips are new and what
 * numbers they get: digVideoInfoPart, which walks the pages of the upload
 * playlist, keeps one part per clip and drops what the store already has,
 * and exportVideo, which sorts the new parts by publish time, looks up
 * their durations in batches of 50 and numbers them after the stored count.
 *
 * The playlist pages and the durations the video API knows are parameters;
 * the store writes become the returned records and statistics.
 */
module Exporter {
  import opened Common
  import opened Model

  // ---------------------------------------------------------------------------
  // digVideoInfoPart
  // ---------------------------------------------------------------------------

  /** A part the store already has: the latest exported clip, or one published before it. */
  predicate IsOld(p: VideoInfoPart, latestId: string, latestAt: int)
  {
    latestId == p.id || p.publishedAt < latestAt
  }

  function PartIds(s: seq<VideoInfoPart>): set<string>
  {
    set p | p in s :: p.id
  }

  predicate DistinctPartIds(s: seq<VideoInfoPart>)
  {
    forall i, j :: 0 <= i < j < |s| ==> s[i].id != s[j].id
  }

  /** The items of the pages, page after page. */
  function Flatten(pages: seq<seq<VideoInfoPart>>): seq<VideoInfoPart>
  {
    if pages == [] then [] else Flatten(pages[..|pages| - 1]) + pages[|pages| - 1]
  }

  /**
   * The first part listed under each ID, in the order the IDs were first
   * listed: what videoMap holds, in the order it gained its keys.
   */
  function FirstListed(s: seq<VideoInfoPart>): (r: seq<VideoInfoPart>)
    ensures DistinctPartIds(r)
    ensures PartIds(r) == PartIds(s)
  {
    if s == [] then []
    else
      var init := FirstListed(s[..|s| - 1]);
      var last := s[|s| - 1];
      assert s == s[..|s| - 1] + [last];
      assert PartIds(s) == PartIds(s[..|s| - 1]) + {last.id};
      if last.id in PartIds(init) then init
      else
        assert PartIds(init + [last]) == PartIds(init) + {last.id};
        init + [last]
  }

  /** How many of the parts are old. */
  function OldCount(s: seq<VideoInfoPart>, latestId: string, latestAt: int): nat
  {
    if s == [] then 0
    else OldCount(s[..|s| - 1], latestId, latestAt) + (if IsOld(s[|s| - 1], latestId, latestAt) then 1 else 0)
  }

  /**
   * The number of pages read when i have been read already: reading stops
   * after the first page that brings the count of old parts above 10, or
   * after the last page.
   */
  function PagesRead(pages: seq<seq<VideoInfoPart>>, latestId: string, latestAt: int, i: nat): (n: nat)
    requires i <= |pages|
    ensures i <= n <= |pages|
    decreases |pages| - i
  {
    if i == |pages| then i
    else if OldCount(FirstListed(Flatten(pages[..i + 1])), latestId, latestAt) > 10 then i + 1
    else PagesRead(pages, latestId, latestAt, i + 1)
  }

  /** The parts that are not old, in order. */
  function Fresh(s: seq<VideoInfoPart>, latestId: string, latestAt: int): (r: seq<VideoInfoPart>)
    ensures forall p :: p in r <==> p in s && !IsOld(p, latestId, latestAt)
  {
    if s == [] then []
    else
      var init := Fresh(s[..|s| - 1], latestId, latestAt);
      var last := s[|s| - 1];
      assert s == s[..|s| - 1] + [last];
      if IsOld(last, latestId, latestAt) then init else init + [last]
  }

  /** A subsequence of a list with distinct IDs has distinct IDs. */
  lemma {:induction false} FreshDistinct(s: seq<VideoInfoPart>, latestId: string, latestAt: int)
    requires DistinctPartIds(s)
    ensures DistinctPartIds(Fresh(s, latestId, latestAt))
  {
    if s != [] {
      var init := s[..|s| - 1];
      FreshDistinct(init, latestId, latestAt);
      var r := Fresh(init, latestId, latestAt);
      forall p | p in r ensures p.id != s[|s| - 1].id {
        var k :| 0 <= k < |init| && init[k] == p;
      }
    }
  }

  /**
   * Every ID listed has a part kept, and it is the first part listed under
   * that ID: j is where it was listed.
   */
  lemma {:induction false} FirstListedKeepsFirst(s: seq<VideoInfoPart>, id: string) returns (j: nat)
    requires id in PartIds(s)
    ensures j < |s| && s[j].id == id && s[j] in FirstListed(s)
    ensures forall i :: 0 <= i < j ==> s[i].id != id
  {
    var init := s[..|s| - 1];
    var last := s[|s| - 1];
    assert s == init + [last];
    assert PartIds(s) == PartIds(init) + {last.id};
    if id in PartIds(init) {
      j := FirstListedKeepsFirst(init, id);
      assert s[j] == init[j];
      assert FirstListed(init) <= FirstListed(s);
    } else {
      j := |s| - 1;
      forall i | 0 <= i < j ensures s[i].id != id {
        assert init[i] in init;
      }
      assert FirstListed(s) == FirstListed(init) + [last];
    }
  }

  /** What a walk of the playlist finds: the fresh parts among the first listed of the pages read. */
  function DigResult(pages: seq<seq<VideoInfoPart>>, latestId: string, latestAt: int): seq<VideoInfoPart>
  {
    Fresh(FirstListed(Flatten(pages[..PagesRead(pages, latestId, latestAt, 0)])), latestId, latestAt)
  }

  /** digVideoInfoPart's result has one part per clip and only clips the store does not have. */
  lemma DigResultFresh(pages: seq<seq<VideoInfoPart>>, latestId: string, latestAt: int)
    ensures DistinctPartIds(DigResult(pages, latestId, latestAt))
    ensures forall p :: p in DigResult(pages, latestId, latestAt) ==>
              !IsOld(p, latestId, latestAt) && p in Flatten(pages)
  {
    var n := PagesRead(pages, latestId, latestAt, 0);
    var read := Flatten(pages[..n]);
    FreshDistinct(FirstListed(read), latestId, latestAt);
    FlattenPrefix(pages, n);
    forall p | p in DigResult(pages, latestId, latestAt) ensures p in Flatten(pages) {
      FirstListedSub(read, p);
    }
  }

  /** The items of the first n pages come first among the items of all. */
  lemma {:induction false} FlattenPrefix(pages: seq<seq<VideoInfoPart>>, n: nat)
    requires n <= |pages|
    ensures Flatten(pages[..n]) <= Flatten(pages)
    decreases |pages| - n
  {
    if n < |pages| {
      FlattenPrefix(pages, n + 1);
      assert pages[..n + 1][..n] == pages[..n];
    } else {
      assert pages[..n] == pages;
    }
  }

  lemma {:induction false} FirstListedSub(s: seq<VideoInfoPart>, p: VideoInfoPart)
    requires p in FirstListed(s)
    ensures p in s
  {
    var init := s[..|s| - 1];
    assert s == init + [s[|s| - 1]];
    if p in FirstListed(init) {
      FirstListedSub(init, p);
    }
  }

  /** videoMap and its key order agree with the parts first listed so far; oldCount counts the old ones. */
  ghost predicate Tracks(listed: seq<VideoInfoPart>, videoMap: map<string, VideoInfoPart>, order: seq<string>,
                         oldCount: int, latestId: string, latestAt: int)
  {
    && |order| == |listed|
    && (forall k :: 0 <= k < |order| ==> order[k] == listed[k].id && order[k] in videoMap && videoMap[order[k]] == listed[k])
    && videoMap.Keys == PartIds(listed)
    && oldCount == OldCount(listed, latestId, latestAt)
  }

  /**
   * digVideoInfoPart on the pages the upload playlist returns, in order: the
   * parts published after the latest exported clip, one per ID. The keys of
   * videoMap are visited in the order they were added.
   */
  method DigVideoInfoPart(pages: seq<seq<VideoInfoPart>>, latestId: string, latestAt: int)
    returns (result: seq<VideoInfoPart>)
    ensures result == DigResult(pages, latestId, latestAt)
  {
    var videoMap: map<string, VideoInfoPart> := map[];
    var order: seq<string> := [];
    var oldCount := 0;
    ghost var listed: seq<VideoInfoPart> := [];
    var i := 0;
    while i < |pages|
      invariant 0 <= i <= |pages|
      invariant PagesRead(pages, latestId, latestAt, i) == PagesRead(pages, latestId, latestAt, 0)
      invariant listed == FirstListed(Flatten(pages[..i]))
      invariant Tracks(listed, videoMap, order, oldCount, latestId, latestAt)
    {
      videoMap, order, oldCount, listed :=
        ReadPage(pages[i], latestId, latestAt, Flatten(pages[..i]), videoMap, order, oldCount, listed);
      NextPage(pages, i);
      i := i + 1;
      if oldCount > 10 {
        assert PagesRead(pages, latestId, latestAt, 0) == i;
        break;
      }
    }
    result := Collect(videoMap, order, oldCount, listed, latestId, latestAt);
  }

  /**
   * The item loop over one page: a part whose ID is already in videoMap is
   * skipped; otherwise it is stored, and counted when it is old.
   */
  method ReadPage(page: seq<VideoInfoPart>, latestId: string, latestAt: int, ghost before: seq<VideoInfoPart>,
                  videoMap: map<string, VideoInfoPart>, order: seq<string>, oldCount: int,
                  ghost listed: seq<VideoInfoPart>)
    returns (videoMap': map<string, VideoInfoPart>, order': seq<string>, oldCount': int,
             ghost listed': seq<VideoInfoPart>)
    requires listed == FirstListed(before)
    requires Tracks(listed, videoMap, order, oldCount, latestId, latestAt)
    ensures listed' == FirstListed(before + page)
    ensures Tracks(listed', videoMap', order', oldCount', latestId, latestAt)
  {
    videoMap', order', oldCount', listed' := videoMap, order, oldCount, listed;
    ghost var seen := before;
    var j := 0;
    while j < |page|
      invariant 0 <= j <= |page|
      invariant seen == before + page[..j]
      invariant listed' == FirstListed(seen)
      invariant Tracks(listed', videoMap', order', oldCount', latestId, latestAt)
    {
      Extend(before, page, j);
      videoMap', order', oldCount', listed' :=
        Visit(page[j], latestId, latestAt, seen, videoMap', order', oldCount', listed');
      seen := seen + [page[j]];
      j := j + 1;
    }
    assert page[..|page|] == page;
  }

  /** One playlist item: skipped when its ID is already stored, otherwise stored and counted when old. */
  method Visit(part: VideoInfoPart, latestId: string, latestAt: int, ghost seen: seq<VideoInfoPart>,
               videoMap: map<string, VideoInfoPart>, order: seq<string>, oldCount: int,
               ghost listed: seq<VideoInfoPart>)
    returns (videoMap': map<string, VideoInfoPart>, order': seq<string>, oldCount': int,
             ghost listed': seq<VideoInfoPart>)
    requires listed == FirstListed(seen)
    requires Tracks(listed, videoMap, order, oldCount, latestId, latestAt)
    ensures listed' == FirstListed(seen + [part])
    ensures Tracks(listed', videoMap', order', oldCount', latestId, latestAt)
  {
    Listing(seen, part);
    if part.id in videoMap {
      return videoMap, order, oldCount, listed;
    }
    Track(listed, videoMap, order, oldCount, latestId, latestAt, part);
    oldCount' := oldCount;
    if latestId == part.id || part.publishedAt < latestAt {
      oldCount' := oldCount + 1;
    }
    videoMap' := videoMap[part.id := part];
    order' := order + [part.id];
    listed' := listed + [part];
  }

  /** The result loop: visit videoMap's keys in the order they were added, keeping the parts that are not old. */
  method Collect(videoMap: map<string, VideoInfoPart>, order: seq<string>, oldCount: int,
                 ghost listed: seq<VideoInfoPart>, latestId: string, latestAt: int)
    returns (result: seq<VideoInfoPart>)
    requires Tracks(listed, videoMap, order, oldCount, latestId, latestAt)
    ensures result == Fresh(listed, latestId, latestAt)
  {
    result := [];
    for k := 0 to |order|
      invariant result == Fresh(listed[..k], latestId, latestAt)
    {
      var part := videoMap[order[k]];
      assert part == listed[k];
      FreshStep(listed, k, latestId, latestAt);
      if latestId == part.id || part.publishedAt < latestAt {
        continue;
      }
      result := result + [part];
    }
    assert listed[..|order|] == listed;
  }

  lemma FreshStep(s: seq<VideoInfoPart>, k: nat, latestId: string, latestAt: int)
    requires k < |s|
    ensures Fresh(s[..k + 1], latestId, latestAt) ==
            if IsOld(s[k], latestId, latestAt) then Fresh(s[..k], latestId, latestAt)
            else Fresh(s[..k], latestId, latestAt) + [s[k]]
  {
    assert s[..k + 1][..k] == s[..k];
  }

  /** Listing one more part adds it when its ID is new. */
  lemma Listing(seen: seq<VideoInfoPart>, part: VideoInfoPart)
    ensures FirstListed(seen + [part]) ==
            if part.id in PartIds(FirstListed(seen)) then FirstListed(seen) else FirstListed(seen) + [part]
  {
    assert (seen + [part])[..|seen|] == seen;
  }

  lemma Extend(before: seq<VideoInfoPart>, page: seq<VideoInfoPart>, j: nat)
    requires j < |page|
    ensures before + page[..j + 1] == (before + page[..j]) + [page[j]]
  {
    assert page[..j + 1] == page[..j] + [page[j]];
  }

  /** After page i come the items of page i. */
  lemma NextPage(pages: seq<seq<VideoInfoPart>>, i: nat)
    requires i < |pages|
    ensures Flatten(pages[..i + 1]) == Flatten(pages[..i]) + pages[i]
  {
    assert pages[..i + 1][..i] == pages[..i];
    assert pages[i][..|pages[i]|] == pages[i];
  }

  /** Storing a part under a new ID keeps videoMap, its key order and oldCount in step. */
  lemma Track(listed: seq<VideoInfoPart>, videoMap: map<string, VideoInfoPart>, order: seq<string>,
              oldCount: int, latestId: string, latestAt: int, part: VideoInfoPart)
    requires Tracks(listed, videoMap, order, oldCount, latestId, latestAt)
    requires part.id !in videoMap
    ensures Tracks(listed + [part], videoMap[part.id := part], order + [part.id],
                   oldCount + (if IsOld(part, latestId, latestAt) then 1 else 0), latestId, latestAt)
  {
    var listed' := listed + [part];
    assert listed'[..|listed|] == listed;
    assert PartIds(listed') == PartIds(listed) + {part.id};
    forall k | 0 <= k < |listed| ensures listed[k].id in videoMap && listed[k].id != part.id {
      assert order[k] in videoMap;
    }
  }

  // ---------------------------------------------------------------------------
  // exportVideo
  // ---------------------------------------------------------------------------

  /** Parts go to the store in batches of this many. */
  const BatchSize: nat := 50

  function PublishedAt(p: VideoInfoPart): int { p.publishedAt }

  /** The record of a part whose duration is known, numbered n. */
  function Record(p: VideoInfoPart, durations: map<string, int>, n: int): (v: VideoInfo)
    requires p.id in durations
    ensures v.id == p.id && v.title == p.title && v.publishedAt == p.publishedAt
    ensures v.duration == durations[p.id] && v.number == n
  {
    VideoInfo(p.id, p.title, p.publishedAt, durations[p.id], n)
  }

  /**
   * The records written for the first |videos| parts, numbered from base in
   * that order, with their durations from durations.
   */
  ghost predicate Numbered(videos: seq<VideoInfo>, parts: seq<VideoInfoPart>, durations: map<string, int>, base: int)
  {
    && |videos| <= |parts|
    && forall k :: 0 <= k < |videos| ==> parts[k].id in durations && videos[k] == Record(parts[k], durations, base + k)
  }

  /**
   * The export closure on one batch: write the records of its parts in
   * order, numbered from base, up to the first part whose duration the
   * video API did not return, whose ID is the error.
   */
  method ExportBatch(batch: seq<VideoInfoPart>, durations: map<string, int>, base: int)
    returns (written: seq<VideoInfo>, missing: Option<string>)
    ensures Numbered(written, batch, durations, base)
    ensures missing.None? <==> |written| == |batch|
    ensures missing.Some? ==> missing.value == batch[|written|].id && missing.value !in durations
  {
    written := [];
    missing := None;
    for k := 0 to |batch|
      invariant Numbered(written, batch, durations, base) && |written| == k
    {
      var part := batch[k];
      if part.id !in durations {
        missing := Some(part.id);
        return;
      }
      written := written + [Record(part, durations, base + k)];
    }
  }

  /**
   * exportVideo after the playlist walk: the new parts sorted by publish
   * time and exported until a duration is missing; the statistics are
   * rewritten when anything was exported, and the missing ID is the error.
   */
  method ExportVideo(parts: seq<VideoInfoPart>, durations: map<string, int>, statistics: VideoStatistics)
    returns (videos: seq<VideoInfo>, newStatistics: Option<VideoStatistics>, error: Option<string>)
    ensures var sorted := SortBy(parts, PublishedAt);
            && Numbered(videos, sorted, durations, statistics.videoCount)
            && (error.None? <==> |videos| == |sorted|)
            && (error.Some? ==> error.value == sorted[|videos|].id && error.value !in durations)
    ensures SortedBy(videos, (v: VideoInfo) => v.publishedAt)
    ensures newStatistics.Some? <==> videos != []
    ensures newStatistics.Some? ==>
              newStatistics.value == VideoStatistics(videos[|videos| - 1].id, videos[|videos| - 1].publishedAt,
                                                     statistics.videoCount + |videos|)
  {
    var sorted := SortBy(parts, PublishedAt);
    var latestVideo;
    videos, latestVideo, error := ExportSorted(sorted, durations, statistics.videoCount);
    ExportedInOrder(videos, sorted, durations, statistics.videoCount);
    var exportCount := |videos|;
    newStatistics := None;
    if exportCount > 0 {
      newStatistics := Some(VideoStatistics(latestVideo.id, latestVideo.publishedAt, statistics.videoCount + exportCount));
    }
  }

  /**
   * The export loop of exportVideo over the sorted parts: parts gather in
   * tempParts and go out 50 at a time, the rest at the end, until a batch
   * stops at a missing duration. Batching does not show in the outcome: the
   * records are those of the longest prefix of the parts whose durations
   * are known, numbered on from base; latestVideo is the last of them.
   */
  method ExportSorted(sorted: seq<VideoInfoPart>, durations: map<string, int>, base: int)
    returns (videos: seq<VideoInfo>, latestVideo: VideoInfo, error: Option<string>)
    ensures Numbered(videos, sorted, durations, base)
    ensures error.None? <==> |videos| == |sorted|
    ensures error.Some? ==> error.value == sorted[|videos|].id && error.value !in durations
    ensures videos != [] ==> latestVideo == videos[|videos| - 1]
  {
    var tempParts: seq<VideoInfoPart> := [];
    latestVideo := VideoInfo("", "", ZeroTime, 0, 0);
    var exportCount := 0;
    videos := [];
    error := None;
    for i := 0 to |sorted|
      invariant exportCount == |videos| == i - |tempParts|
      invariant tempParts == sorted[exportCount..i] && |tempParts| < BatchSize
      invariant Numbered(videos, sorted, durations, base)
      invariant exportCount > 0 ==> latestVideo == videos[exportCount - 1]
    {
      assert sorted[exportCount..i + 1] == sorted[exportCount..i] + [sorted[i]];
      tempParts := tempParts + [sorted[i]];
      if |tempParts| >= BatchSize {
        var missing;
        videos, latestVideo, missing := Flush(sorted, durations, base, videos, latestVideo, tempParts);
        exportCount := |videos|;
        if missing.Some? {
          error := missing;
          return;
        }
        tempParts := [];
      }
    }
    videos, latestVideo, error := Flush(sorted, durations, base, videos, latestVideo, tempParts);
  }

  /**
   * One call of the export closure: the gathered parts `batch`, which follow
   * the parts already exported, are written and numbered on, and the latest
   * video becomes the last record written.
   */
  method Flush(sorted: seq<VideoInfoPart>, durations: map<string, int>, base: int,
               videos: seq<VideoInfo>, latestVideo: VideoInfo, batch: seq<VideoInfoPart>)
    returns (videos': seq<VideoInfo>, latestVideo': VideoInfo, missing: Option<string>)
    requires Numbered(videos, sorted, durations, base)
    requires |videos| + |batch| <= |sorted| && batch == sorted[|videos|..|videos| + |batch|]
    requires videos != [] ==> latestVideo == videos[|videos| - 1]
    ensures Numbered(videos', sorted, durations, base) && |videos| <= |videos'| <= |videos| + |batch|
    ensures missing.None? <==> |videos'| == |videos| + |batch|
    ensures missing.Some? ==> missing.value == sorted[|videos'|].id && missing.value !in durations
    ensures videos' != [] ==> latestVideo' == videos'[|videos'| - 1]
  {
    var written;
    written, missing := ExportBatch(batch, durations, base + |videos|);
    Continues(videos, written, sorted, batch, durations, base);
    videos' := videos + written;
    latestVideo' := if |written| > 0 then written[|written| - 1] else latestVideo;
  }

  /** The records of a batch continue the records already written. */
  lemma Continues(videos: seq<VideoInfo>, written: seq<VideoInfo>, sorted: seq<VideoInfoPart>,
                  batch: seq<VideoInfoPart>, durations: map<string, int>, base: int)
    requires Numbered(videos, sorted, durations, base)
    requires |videos| + |batch| <= |sorted| && batch == sorted[|videos|..|videos| + |batch|]
    requires Numbered(written, batch, durations, base + |videos|)
    ensures Numbered(videos + written, sorted, durations, base)
    ensures |written| < |batch| ==> sorted[|videos| + |written|] == batch[|written|]
  {
    var all := videos + written;
    forall k | |videos| <= k < |all|
      ensures sorted[k].id in durations && all[k] == Record(sorted[k], durations, base + k)
    {
      assert sorted[k] == batch[k - |videos|];
    }
  }

  /** Records of sorted parts come in publish order. */
  lemma ExportedInOrder(videos: seq<VideoInfo>, sorted: seq<VideoInfoPart>, durations: map<string, int>, base: int)
    requires Numbered(videos, sorted, durations, base)
    requires SortedBy(sorted, PublishedAt)
    ensures SortedBy(videos, (v: VideoInfo) => v.publishedAt)
  {
    forall i, j | 0 <= i < j < |videos| ensures videos[i].publishedAt <= videos[j].publishedAt {
      assert PublishedAt(sorted[i]) <= PublishedAt(sorted[j]);
    }
  }

  /** The exported records carry consecutive numbers after the stored count, one per clip. */
  lemma ExportNumbers(videos: seq<VideoInfo>, sorted: seq<VideoInfoPart>, durations: map<string, int>, base: int)
    requires Numbered(videos, sorted, durations, base)
    requires DistinctPartIds(sorted)
    ensures forall n :: n in Numbers(videos) <==> base <= n < base + |videos|
    ensures DistinctIds(videos)
  {
    forall n | base <= n < base + |videos| ensures n in Numbers(videos) {
      assert videos[n - base].number == n;
    }
  }
}
