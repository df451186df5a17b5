/**
 * The clip sampler of scheduler.go (videoSource): a pool of records loaded
 * from the store, grown window by window by Fetch and drawn from by GetVideo.
 *
 * The store's ordered range query (`OrderBy("number").StartAt(s).Limit(l)`)
 * is the function `store`, and the random source is the stream `random`
 * together with the number of values `drawn` from it so far.
 */
module Sampler {
  import opened Common
  import opened Model
  import opened Blocks

  /**
   * What the range query promises: at most `limit` records, each numbered
   * `start` or more, in ascending order of number.
   */
  ghost predicate RangeQuery(store: (int, int) -> seq<VideoInfo>)
  {
    forall start, limit :: limit >= 0 ==>
      && |store(start, limit)| <= limit
      && (forall i :: 0 <= i < |store(start, limit)| ==> store(start, limit)[i].number >= start)
      && (forall i, j :: 0 <= i < j < |store(start, limit)| ==>
            store(start, limit)[i].number <= store(start, limit)[j].number)
  }

  /**
   * The random stream never stops producing any value: whatever has been
   * drawn so far (d values), every index i of every range [0, n) is drawn
   * again later, at position recur(d, n, i). This is what makes GetVideo's
   * rejection loop end.
   */
  ghost predicate Fair(random: nat -> nat, recur: (nat, nat, nat) -> nat)
  {
    forall d: nat, n: nat, i: nat :: i < n ==> recur(d, n, i) >= d && random(recur(d, n, i)) % n == i
  }

  /**
   * The position of the first document with the given ID, or |docs| when
   * no document has it.
   */
  function FirstWith(docs: seq<VideoInfo>, id: string): (i: nat)
    ensures i <= |docs|
    ensures i < |docs| ==> docs[i].id == id
    ensures forall k :: 0 <= k < i && k < |docs| ==> docs[k].id != id
    decreases |docs|
  {
    if docs == [] then 0
    else
      var f := FirstWith(docs[..|docs| - 1], id);
      if f < |docs| - 1 then f
      else if docs[|docs| - 1].id == id then |docs| - 1
      else |docs|
  }

  /**
   * The records of docs that are kept when they are appended in order to a
   * pool whose IDs are `known`: a record is skipped when its ID is known or
   * was kept earlier.
   */
  function NewRecords(known: set<string>, docs: seq<VideoInfo>): (r: seq<VideoInfo>)
    ensures |r| <= |docs|
    ensures forall v :: v in r ==> v in docs && v.id !in known
    ensures DistinctIds(r)
    ensures forall v :: v in docs ==> v.id in known || v.id in Ids(r)
    decreases |docs|
  {
    if docs == [] then []
    else
      var rest := NewRecords(known, docs[..|docs| - 1]);
      var last := docs[|docs| - 1];
      assert forall v :: v in docs ==> v in docs[..|docs| - 1] || v == last;
      if last.id in known || last.id in Ids(rest) then rest
      else
        assert forall v :: v in rest ==> v.id != last.id;
        rest + [last]
  }

  /** FirstWith over docs, by its last document. */
  lemma FirstWithLast(docs: seq<VideoInfo>, id: string)
    requires docs != []
    ensures var f := FirstWith(docs[..|docs| - 1], id);
      && (f < |docs| - 1 ==> FirstWith(docs, id) == f)
      && (f == |docs| - 1 && docs[|docs| - 1].id == id ==> FirstWith(docs, id) == |docs| - 1)
  {
  }

  /**
   * Each record of r is the first document with its ID, and r keeps the
   * order of the documents.
   */
  ghost predicate FirstInOrder(docs: seq<VideoInfo>, r: seq<VideoInfo>)
  {
    && (forall i :: 0 <= i < |r| ==> FirstWith(docs, r[i].id) < |docs| && docs[FirstWith(docs, r[i].id)] == r[i])
    && (forall i, j :: 0 <= i < j < |r| ==> FirstWith(docs, r[i].id) < FirstWith(docs, r[j].id))
  }

  /** A record sequence in first-document order keeps it when one more document follows. */
  lemma FirstInOrderStep(docs: seq<VideoInfo>, r: seq<VideoInfo>)
    requires docs != [] && FirstInOrder(docs[..|docs| - 1], r)
    ensures FirstInOrder(docs, r)
    ensures forall i :: 0 <= i < |r| ==> FirstWith(docs, r[i].id) < |docs| - 1
  {
    var init := docs[..|docs| - 1];
    forall i | 0 <= i < |r|
      ensures FirstWith(docs, r[i].id) == FirstWith(init, r[i].id) < |init|
      ensures docs[FirstWith(docs, r[i].id)] == r[i]
    {
      FirstWithLast(docs, r[i].id);
      var f := FirstWith(init, r[i].id);
      assert docs[f] == init[f];
    }
  }

  /** ... and keeps it when that document, the first with its ID, is appended. */
  lemma FirstInOrderAppend(docs: seq<VideoInfo>, r: seq<VideoInfo>)
    requires docs != [] && FirstInOrder(docs[..|docs| - 1], r)
    requires FirstWith(docs[..|docs| - 1], docs[|docs| - 1].id) == |docs| - 1
    ensures FirstInOrder(docs, r + [docs[|docs| - 1]])
  {
    var last := docs[|docs| - 1];
    FirstInOrderStep(docs, r);
    FirstWithLast(docs, last.id);
    var r' := r + [last];
    forall i | 0 <= i < |r'|
      ensures FirstWith(docs, r'[i].id) < |docs| && docs[FirstWith(docs, r'[i].id)] == r'[i]
    {
      if i < |r| { assert r'[i] == r[i]; }
    }
    forall i, j | 0 <= i < j < |r'| ensures FirstWith(docs, r'[i].id) < FirstWith(docs, r'[j].id) {
      assert r'[i] == r[i];
      if j < |r| { assert r'[j] == r[j]; }
    }
  }

  /** The kept records are the first documents of their IDs, in the order of the documents. */
  lemma {:induction false} NewRecordsFirst(known: set<string>, docs: seq<VideoInfo>)
    ensures FirstInOrder(docs, NewRecords(known, docs))
    decreases |docs|
  {
    if docs != [] {
      var init := docs[..|docs| - 1];
      var rest := NewRecords(known, init);
      var last := docs[|docs| - 1];
      NewRecordsFirst(known, init);
      if last.id in known || last.id in Ids(rest) {
        assert NewRecords(known, docs) == rest;
        FirstInOrderStep(docs, rest);
      } else {
        assert FirstWith(init, last.id) == |init|;
        assert NewRecords(known, docs) == rest + [last];
        FirstInOrderAppend(docs, rest);
      }
    }
  }

  /** One more document: its record is new exactly when its ID is neither known nor kept already. */
  lemma AbsorbStep(pool: seq<VideoInfo>, loaded: set<string>, docs: seq<VideoInfo>, i: nat)
    requires loaded == Ids(pool) && i < |docs|
    ensures var kept := NewRecords(loaded, docs[..i]);
      && (docs[i].id in Ids(pool + kept) <==> docs[i].id in loaded || docs[i].id in Ids(kept))
      && NewRecords(loaded, docs[..i + 1])
         == if docs[i].id in loaded || docs[i].id in Ids(kept) then kept else kept + [docs[i]]
  {
    assert docs[..i + 1][..i] == docs[..i];
    var kept := NewRecords(loaded, docs[..i]);
    assert Ids(pool + kept) == Ids(pool) + Ids(kept) by {
      forall x | x in Ids(pool + kept) ensures x in Ids(pool) + Ids(kept) {
        var v :| v in pool + kept && v.id == x;
      }
      forall x | x in Ids(pool) + Ids(kept) ensures x in Ids(pool + kept) {
        if x in Ids(pool) {
          var v :| v in pool && v.id == x;
          assert v in pool + kept;
        } else {
          var v :| v in kept && v.id == x;
          assert v in pool + kept;
        }
      }
    }
  }

  lemma IdsAppend(pool: seq<VideoInfo>, v: VideoInfo)
    ensures Ids(pool + [v]) == Ids(pool) + {v.id}
  {
    forall x | x in Ids(pool + [v]) ensures x in Ids(pool) + {v.id} {
      var u :| u in pool + [v] && u.id == x;
    }
    forall x | x in Ids(pool) ensures x in Ids(pool + [v]) {
      var u :| u in pool && u.id == x;
      assert u in pool + [v];
    }
    assert v in pool + [v];
  }

  lemma DistinctAppend(a: seq<VideoInfo>, b: seq<VideoInfo>)
    requires DistinctIds(a) && DistinctIds(b)
    requires forall v :: v in b ==> v.id !in Ids(a)
    ensures DistinctIds(a + b)
  {
    var c := a + b;
    forall i, j | 0 <= i < j < |c| ensures c[i].id != c[j].id {
      if i < |a| && j >= |a| {
        assert c[j] == b[j - |a|] && c[j] in b;
        assert c[i] in a;
      } else if i >= |a| {
        assert c[i] == b[i - |a|] && c[j] == b[j - |a|];
      }
    }
  }

  /** The total of the counts of some windows. */
  function Total(ws: seq<Block>): int
  {
    if ws == [] then 0 else Total(ws[..|ws| - 1]) + ws[|ws| - 1].count
  }

  /**
   * Records whose numbers are distinct and lie in [0, max): the shape under
   * which the blocks built from them are sorted, apart and inside [0, max).
   */
  predicate Shaped(videos: seq<VideoInfo>, max: int)
  {
    DistinctBy(videos, NumberOf) && forall v :: v in videos ==> 0 <= v.number < max
  }

  /** Every window holds only numbers outside `known` and outside every earlier window. */
  ghost predicate FreshWindows(ws: seq<Block>, known: set<int>)
  {
    forall j, n :: 0 <= j < |ws| && InBlock(ws[j], n) ==> n !in known && !Covers(ws[..j], n)
  }

  lemma FreshAppend(ws: seq<Block>, known: set<int>, w: Block)
    requires FreshWindows(ws, known)
    requires forall n :: InBlock(w, n) ==> n !in known && !Covers(ws, n)
    ensures FreshWindows(ws + [w], known)
  {
    var ws' := ws + [w];
    assert ws'[..|ws|] == ws;
    forall j, n | 0 <= j < |ws'| && InBlock(ws'[j], n) ensures n !in known && !Covers(ws'[..j], n) {
      if j < |ws| {
        assert ws'[j] == ws[j] && ws'[..j] == ws[..j];
      }
    }
  }

  /** Blocks whose every number lies in [0, max) lie inside [0, max). */
  lemma WithinFromCovers(bs: seq<Block>, max: int)
    requires Positive(bs)
    requires forall n :: Covers(bs, n) ==> 0 <= n < max
    ensures Within(bs, max)
  {
    forall b | b in bs ensures 0 <= b.start && b.start + b.count <= max {
      assert InBlock(b, b.start) && InBlock(b, b.start + b.count - 1);
      assert Covers(bs, b.start) && Covers(bs, b.start + b.count - 1);
    }
  }

  /** A window that hits no block shares no number with the blocks. */
  lemma MissedUncovered(bs: seq<Block>, w: Block, n: int)
    requires forall b :: b in bs ==> !Hits(w, b)
    requires InBlock(w, n)
    ensures !Covers(bs, n)
  {
    forall b | b in bs ensures !InBlock(b, n) {
      assert !Hits(w, b);
    }
  }

  /** The blocks of records in the sampler's shape are sorted, apart and inside [0, max). */
  lemma ShapedBlocks(videos: seq<VideoInfo>, max: int, bs: seq<Block>)
    requires Shaped(videos, max)
    requires forall n :: Covers(bs, n) <==> n in Numbers(videos)
    requires DistinctBy(videos, NumberOf) ==> Separated(bs)
    ensures Separated(bs) && Within(bs, max)
  {
    forall n | Covers(bs, n) ensures 0 <= n < max {
      var v :| v in videos && v.number == n;
    }
    WithinFromCovers(bs, max);
  }

  /** Merging a window that lies inside [0, max) keeps the blocks inside [0, max). */
  lemma MergedWithin(bs: seq<Block>, w: Block, max: int, r: seq<Block>)
    requires Within(bs, max) && 0 <= w.start && w.start + w.count <= max
    requires Separated(r)
    requires forall n :: Covers(r, n) <==> Covers(bs, n) || InBlock(w, n)
    ensures Within(r, max)
  {
    forall n | Covers(r, n) ensures 0 <= n < max {
      if Covers(bs, n) {
        var b :| b in bs && InBlock(b, n);
      }
    }
    WithinFromCovers(r, max);
  }

  /**
   * The window one round of Fetch plans from the blocks bs for a corpus of
   * `all` clips when the random stream stands at d, and where the stream
   * stands afterwards: a start drawn from [0, all - 100), then the coin when
   * getNextBlock needs one.
   */
  function Plan(random: nat -> nat, all: int, bs: seq<Block>, d: nat): (Block, nat)
    requires all > 100
  {
    var index := random(d) % (all - 100);
    if CoinNeeded(bs, index, 100, all)
    then (GetNextBlock(random(d + 1) % 2 == 0, bs, index, 100, all), d + 2)
    else (GetNextBlock(true, bs, index, 100, all), d + 1)
  }

  /**
   * A planned window asks for at most 100 numbers; over blocks in the
   * sampler's shape a non-empty one lies inside the corpus and meets no
   * block.
   */
  lemma PlanSound(random: nat -> nat, all: int, bs: seq<Block>, d: nat)
    requires all > 100
    ensures var w := Plan(random, all, bs, d).0;
      && w.count <= 100
      && (Separated(bs) && Within(bs, all) && w.count >= 1 ==>
            && 0 <= w.start && w.start + w.count <= all
            && forall b :: b in bs ==> !Hits(w, b))
  {
    var index := random(d) % (all - 100);
    var front := if CoinNeeded(bs, index, 100, all) then random(d + 1) % 2 == 0 else true;
    assert Plan(random, all, bs, d).0 == GetNextBlock(front, bs, index, 100, all);
    GetNextBlockAtMost(front, bs, index, 100, all);
    if Separated(bs) && Within(bs, all) {
      GetNextBlockSound(front, bs, index, 100, all);
    }
  }

  /**
   * What Fetch keeps about its blocks when the loaded records are in the
   * sampler's shape: the blocks are sorted, apart and inside the corpus,
   * they cover the numbers loaded at the start (`known`) and the windows
   * planned so far, each window was fresh when it was planned, and every
   * window lies inside the corpus.
   */
  ghost predicate Planned(blocks: seq<Block>, windows: seq<Block>, known: set<int>, max: int)
  {
    && Separated(blocks) && Within(blocks, max)
    && (forall n :: Covers(blocks, n) <==> n in known || Covers(windows, n))
    && FreshWindows(windows, known)
    && (forall w :: w in windows ==> 0 <= w.start && w.start + w.count <= max)
  }

  /** A fresh window merged into the blocks keeps Planned. */
  lemma PlannedStep(blocks: seq<Block>, windows: seq<Block>, known: set<int>, max: int, w: Block, merged: seq<Block>)
    requires Planned(blocks, windows, known, max)
    requires w.count >= 1 && 0 <= w.start && w.start + w.count <= max
    requires forall b :: b in blocks ==> !Hits(w, b)
    requires Separated(merged)
    requires forall n :: Covers(merged, n) <==> Covers(blocks, n) || InBlock(w, n)
    ensures Planned(merged, windows + [w], known, max)
  {
    forall n | InBlock(w, n) ensures n !in known && !Covers(windows, n) {
      MissedUncovered(blocks, w, n);
    }
    FreshAppend(windows, known, w);
    MergedWithin(blocks, w, max, merged);
    forall n ensures Covers(merged, n) <==> n in known || Covers(windows + [w], n) {
      CoversConcat(windows, [w], n);
      if InBlock(w, n) { assert w in [w]; }
    }
  }

  /**
   * What Fetch keeps about its blocks whatever the loaded records: every
   * block is non-empty, and the blocks cover exactly the numbers loaded at
   * the start (`known`) and those of the windows planned so far.
   */
  ghost predicate Tracks(blocks: seq<Block>, windows: seq<Block>, known: set<int>)
  {
    Positive(blocks) && forall n :: Covers(blocks, n) <==> n in known || Covers(windows, n)
  }

  /** Merge a fresh window into the blocks (`blocks = mergeBlock(blocks, fetchBlock)`), keeping Tracks and Planned. */
  method MergeWindow(blocks: seq<Block>, w: Block, ghost windows: seq<Block>, ghost known: set<int>,
                     ghost shaped: bool, max: int) returns (merged: seq<Block>)
    requires w.count >= 1
    requires shaped ==> Planned(blocks, windows, known, max)
    requires shaped ==> 0 <= w.start && w.start + w.count <= max && forall b :: b in blocks ==> !Hits(w, b)
    ensures Tracks(blocks, windows, known) ==> Tracks(merged, windows + [w], known)
    ensures shaped ==> Planned(merged, windows + [w], known, max)
  {
    merged := MergeBlock(blocks, w);
    if Tracks(blocks, windows, known) {
      forall n ensures Covers(merged, n) <==> n in known || Covers(windows + [w], n) {
        CoversConcat(windows, [w], n);
        if InBlock(w, n) { assert w in [w]; }
      }
    }
    if shaped {
      PlannedStep(blocks, windows, known, max, w, merged);
    }
  }

  /** The budget of Fetch: windows of 1 to 100 numbers, each planned while the total was below 3000. */
  predicate Budget(windows: seq<Block>)
  {
    && (forall w :: w in windows ==> 1 <= w.count <= 100)
    && (forall j :: 0 <= j < |windows| ==> Total(windows[..j]) < 3000)
  }

  lemma BudgetStep(windows: seq<Block>, w: Block)
    requires Budget(windows) && Total(windows) < 3000 && 1 <= w.count <= 100
    ensures Budget(windows + [w]) && Total(windows + [w]) == Total(windows) + w.count
  {
    var ws := windows + [w];
    assert ws[..|windows|] == windows;
    forall j | 0 <= j < |ws| ensures Total(ws[..j]) < 3000 {
      if j < |windows| { assert ws[..j] == windows[..j]; }
    }
  }

  /** Every record appended since `start` came from the query of one of the windows. */
  ghost predicate FromWindows(store: (int, int) -> seq<VideoInfo>, videos: seq<VideoInfo>, start: nat, windows: seq<Block>)
    requires start <= |videos|
  {
    forall v :: v in videos[start..] ==> exists w :: w in windows && v in store(w.start, w.count)
  }

  lemma FromWindowsStep(store: (int, int) -> seq<VideoInfo>, videos: seq<VideoInfo>, start: nat,
                        windows: seq<Block>, w: Block, added: seq<VideoInfo>)
    requires start <= |videos| && FromWindows(store, videos, start, windows)
    requires forall v :: v in added ==> v in store(w.start, w.count)
    ensures FromWindows(store, videos + added, start, windows + [w])
  {
    assert (videos + added)[start..] == videos[start..] + added;
    forall v | v in (videos + added)[start..] ensures exists x :: x in windows + [w] && v in store(x.start, x.count) {
      if v in added {
        assert w in windows + [w];
      } else {
        var x :| x in windows && v in store(x.start, x.count);
        assert x in windows + [w];
      }
    }
  }

  class VideoSource {
    /** The store's range query: records numbered `start` or more, ascending, at most `limit`. */
    const store: (int, int) -> seq<VideoInfo>
    /** The values the random source yields, in order. */
    const random: nat -> nat
    /** For the proof only: where in the stream each index of each range recurs. */
    ghost const recur: (nat, nat, nat) -> nat
    /** The clip count of the statistics document. */
    const allVideoCount: int
    /** How many values have been drawn from `random`. */
    var drawn: nat
    /** The loaded records, in loading order. */
    var videos: seq<VideoInfo>

    /**
     * The store behaves as a range query, the random stream is fair, the
     * corpus is large enough for `rand.Intn(allVideoCount - 100)` (a source
     * exists only after its constructor's Fetch(800) succeeded), no ID is
     * loaded twice, and the pool never outgrows the corpus by a full window.
     */
    ghost predicate Valid()
      reads this
    {
      && Collaborators() && allVideoCount > 100
      && DistinctIds(videos) && |videos| < allVideoCount + 100
    }

    /** The store behaves as a range query and the random stream is fair. */
    ghost predicate Collaborators()
    {
      RangeQuery(store) && Fair(random, recur)
    }

    constructor (store: (int, int) -> seq<VideoInfo>, random: nat -> nat, ghost recur: (nat, nat, nat) -> nat,
                 allVideoCount: int)
      requires RangeQuery(store) && Fair(random, recur) && allVideoCount > 100
      ensures Valid()
      ensures this.store == store && this.random == random && this.allVideoCount == allVideoCount
      ensures drawn == 0 && videos == []
    {
      this.store := store;
      this.random := random;
      this.recur := recur;
      this.allVideoCount := allVideoCount;
      drawn := 0;
      videos := [];
    }

    /** `r.Intn(n)`: the next value of the stream, reduced to [0, n). */
    method Intn(n: int) returns (x: int)
      requires n > 0
      modifies this`drawn
      ensures x == random(old(drawn)) % n && 0 <= x < n
      ensures drawn == old(drawn) + 1
    {
      x := random(drawn) % n;
      drawn := drawn + 1;
    }

    /** Draw the start index and, when needed, the coin, and plan the next window. */
    method PlanWindow(bs: seq<Block>) returns (w: Block)
      requires allVideoCount > 100
      modifies this`drawn
      ensures (w, drawn) == Plan(random, allVideoCount, bs, old(drawn))
    {
      var startIndex := Intn(allVideoCount - 100);
      var front := true;
      if CoinNeeded(bs, startIndex, 100, allVideoCount) {
        var coin := Intn(2);
        front := coin == 0;
      }
      w := GetNextBlock(front, bs, startIndex, 100, allVideoCount);
    }

    /**
     * The inner loop of Fetch over the documents of one query: append every
     * record whose ID is not loaded yet, and keep the ID set `loaded` (the
     * map `exists`) equal to the loaded IDs.
     */
    method Absorb(docs: seq<VideoInfo>, loaded: set<string>) returns (loaded': set<string>, added: nat)
      requires DistinctIds(videos) && loaded == Ids(videos)
      modifies this`videos
      ensures videos == old(videos) + NewRecords(loaded, docs)
      ensures DistinctIds(videos) && loaded' == Ids(videos)
      ensures added == |videos| - |old(videos)|
    {
      loaded' := loaded;
      added := 0;
      for i := 0 to |docs|
        invariant videos == old(videos) + NewRecords(loaded, docs[..i])
        invariant loaded' == Ids(videos) && DistinctIds(videos)
        invariant added == |videos| - |old(videos)|
      {
        var v := docs[i];
        AbsorbStep(old(videos), loaded, docs, i);
        if v.id in loaded' {
          continue;
        }
        DistinctAppend(videos, [v]);
        IdsAppend(videos, v);
        videos := videos + [v];
        loaded' := loaded' + {v.id};
        added := added + 1;
      }
      assert docs[..|docs|] == docs;
    }

    /**
     * Fetch: load at least `count` records not loaded yet, window by window.
     *
     * It fails before changing anything when `count` more records would
     * exceed the corpus; it fails later only when the windows planned so far
     * already total 3000 numbers, or when the window planned from the final
     * blocks `finalBlocks` is empty (`emptyWindow`). In every
     * case it only appends, never an ID already loaded, and every appended
     * record comes from the query of one of the planned windows `windows`.
     * When the loaded records have distinct numbers inside the corpus, every
     * window lies inside the corpus and holds no number already loaded or
     * planned earlier.
     */
    method Fetch(count: int)
      returns (ok: bool, ghost windows: seq<Block>, ghost finalBlocks: seq<Block>, ghost emptyWindow: bool)
      requires Valid()
      modifies this`videos, this`drawn
      ensures Valid()
      ensures |old(videos)| + count > allVideoCount ==>
        !ok && videos == old(videos) && drawn == old(drawn) && windows == []
      ensures |old(videos)| <= |videos| && videos[..|old(videos)|] == old(videos)
      ensures ok ==> |videos| >= |old(videos)| + count
      ensures ok && count > 0 ==> |videos| < |old(videos)| + count + 100
      ensures !ok && |old(videos)| + count <= allVideoCount ==> |videos| < |old(videos)| + count
      ensures !ok && |old(videos)| + count <= allVideoCount ==> Total(windows) >= 3000 || emptyWindow
      ensures emptyWindow ==>
        && !ok && Total(windows) < 3000
        && exists d: nat :: Plan(random, allVideoCount, finalBlocks, d).1 == drawn
                            && Plan(random, allVideoCount, finalBlocks, d).0.count <= 0
      ensures Budget(windows)
      ensures FromWindows(store, videos, |old(videos)|, windows)
      ensures Shaped(old(videos), allVideoCount) ==>
        && (forall w :: w in windows ==> 0 <= w.start && w.start + w.count <= allVideoCount)
        && FreshWindows(windows, Numbers(old(videos)))
      ensures |old(videos)| + count <= allVideoCount ==> Tracks(finalBlocks, windows, Numbers(old(videos)))
      ensures Shaped(old(videos), allVideoCount) && |old(videos)| + count <= allVideoCount ==>
        Planned(finalBlocks, windows, Numbers(old(videos)), allVideoCount)
    {
      windows, finalBlocks, emptyWindow := [], [], false;
      var c := 0;
      if |videos| + count > allVideoCount {
        return false, windows, finalBlocks, false;
      }
      var loaded := Ids(videos);
      var blocks := CreateBlocks(videos);
      ghost var known := Numbers(videos);
      ghost var shaped := Shaped(videos, allVideoCount);
      forall n ensures Covers(blocks, n) <==> n in known || Covers(windows, n) {
        assert !Covers([], n);
      }
      if shaped {
        ShapedBlocks(videos, allVideoCount, blocks);
      }
      ghost var start := videos;
      var totalFetch := 0;
      while c < count
        invariant Valid() && loaded == Ids(videos)
        invariant |start| <= |videos| && videos[..|start|] == start
        invariant c == |videos| - |start| && (count > 0 ==> c < count + 100)
        invariant totalFetch == Total(windows) && Budget(windows)
        invariant FromWindows(store, videos, |start|, windows)
        invariant Tracks(blocks, windows, known)
        invariant shaped ==> Planned(blocks, windows, known, allVideoCount)
        decreases 3000 - totalFetch
      {
        if totalFetch >= 3000 {
          return false, windows, blocks, false;
        }
        ghost var d := drawn;
        var planned, fetchBlock, merged, added;
        planned, fetchBlock, merged, loaded, added := FetchWindow(blocks, loaded, windows, start, known, shaped);
        if !planned {
          assert Plan(random, allVideoCount, blocks, d).1 == drawn;
          return false, windows, blocks, true;
        }
        c := c + added;
        totalFetch := totalFetch + fetchBlock.count;
        blocks := merged;
        windows := windows + [fetchBlock];
      }
      return true, windows, blocks, false;
    }

    /**
     * One round of Fetch's loop: plan a window; when it is not empty, query
     * it, append the new records and merge the window into the blocks.
     */
    method FetchWindow(blocks: seq<Block>, loaded: set<string>, ghost windows: seq<Block>,
                       ghost start: seq<VideoInfo>, ghost known: set<int>, ghost shaped: bool)
      returns (planned: bool, w: Block, merged: seq<Block>, loaded': set<string>, added: nat)
      requires Collaborators() && allVideoCount > 100 && DistinctIds(videos) && loaded == Ids(videos)
      requires |start| <= |videos| && videos[..|start|] == start
      requires Budget(windows) && Total(windows) < 3000
      requires FromWindows(store, videos, |start|, windows)
      requires shaped ==> Planned(blocks, windows, known, allVideoCount)
      modifies this`videos, this`drawn
      ensures (w, drawn) == Plan(random, allVideoCount, blocks, old(drawn))
      ensures planned <==> w.count >= 1
      ensures DistinctIds(videos) && loaded' == Ids(videos)
      ensures |start| <= |videos| && videos[..|start|] == start
      ensures !planned ==> videos == old(videos) && merged == blocks
      ensures planned ==>
        && videos == old(videos) + NewRecords(loaded, store(w.start, w.count))
        && |videos| == |old(videos)| + added && added <= 100
        && Budget(windows + [w]) && Total(windows + [w]) == Total(windows) + w.count
        && FromWindows(store, videos, |start|, windows + [w])
        && (Tracks(blocks, windows, known) ==> Tracks(merged, windows + [w], known))
        && (shaped ==> Planned(merged, windows + [w], known, allVideoCount))
    {
      ghost var d := drawn;
      w := PlanWindow(blocks);
      merged, loaded', added := blocks, loaded, 0;
      if w.count <= 0 {
        return false, w, merged, loaded', added;
      }
      PlanSound(random, allVideoCount, blocks, d);
      if shaped {
        assert Separated(blocks) && Within(blocks, allVideoCount);
      }
      BudgetStep(windows, w);
      loaded', added := LoadWindow(w, loaded, windows, start);
      merged := MergeWindow(blocks, w, windows, known, shaped, allVideoCount);
      planned := true;
    }

    /** Query the window and append the records whose IDs are not loaded yet. */
    method LoadWindow(w: Block, loaded: set<string>, ghost windows: seq<Block>, ghost start: seq<VideoInfo>)
      returns (loaded': set<string>, added: nat)
      requires RangeQuery(store) && DistinctIds(videos) && loaded == Ids(videos)
      requires 1 <= w.count <= 100
      requires |start| <= |videos| && videos[..|start|] == start
      requires FromWindows(store, videos, |start|, windows)
      modifies this`videos
      ensures DistinctIds(videos) && loaded' == Ids(videos)
      ensures |start| <= |videos| && videos[..|start|] == start
      ensures videos == old(videos) + NewRecords(loaded, store(w.start, w.count))
      ensures |videos| == |old(videos)| + added && added <= 100
      ensures FromWindows(store, videos, |start|, windows + [w])
    {
      var docs := store(w.start, w.count);
      assert |docs| <= w.count;
      ghost var before := videos;
      loaded', added := Absorb(docs, loaded);
      FromWindowsStep(store, before, |start|, windows, w, NewRecords(Ids(before), docs));
      assert videos[..|start|] == before[..|start|];
    }

    /**
     * GetVideo: grow the pool by Fetch(100) until it holds more records than
     * there are excluded IDs (failing with Fetch), then draw records until one
     * is not excluded. The draw cannot fail: the IDs of the pool are distinct,
     * so some record of the pool is not excluded, and the fair random stream
     * draws its index eventually.
     */
    method GetVideo(exclude: set<string>) returns (r: Option<VideoInfo>)
      requires Valid()
      modifies this`videos, this`drawn
      ensures Valid()
      ensures |old(videos)| <= |videos| && videos[..|old(videos)|] == old(videos)
      ensures r.Some? ==> r.value in videos && r.value.id !in exclude && |exclude| < |videos|
      ensures r.None? ==> |videos| < |exclude| + 100
      ensures |old(videos)| > |exclude| ==> r.Some? && videos == old(videos)
    {
      while |videos| <= |exclude|
        invariant |old(videos)| > |exclude| ==> videos == old(videos)
        invariant Valid()
        invariant |old(videos)| <= |videos| && videos[..|old(videos)|] == old(videos)
        decreases allVideoCount + 100 - |videos|
      {
        ghost var before := videos;
        var ok;
        ghost var windows, finalBlocks, emptyWindow;
        ok, windows, finalBlocks, emptyWindow := Fetch(100);
        if !ok {
          return None;
        }
        assert videos[..|old(videos)|] == before[..|old(videos)|];
      }
      var l := |videos|;
      ghost var i := FreeIndex(videos, exclude);
      ghost var k := recur(drawn, l, i);
      ghost var pool := videos;
      while true
        invariant Valid() && videos == pool && |pool| == l && drawn <= k
        invariant |old(videos)| <= |videos| && videos[..|old(videos)|] == old(videos)
        decreases k - drawn
      {
        ghost var d := drawn;
        var x := Intn(l);
        var v := videos[x];
        if v.id in exclude {
          assert x != i && d != k;
          continue;
        }
        return Some(v);
      }
    }
  }

  /**
   * Pigeonhole: a pool of records with distinct IDs that outnumbers a set of
   * IDs holds a record whose ID is not in the set.
   */
  lemma FreeIndex(videos: seq<VideoInfo>, exclude: set<string>) returns (i: nat)
    requires DistinctIds(videos) && |videos| > |exclude|
    ensures i < |videos| && videos[i].id !in exclude
  {
    if forall j :: 0 <= j < |videos| ==> videos[j].id in exclude {
      assert Ids(videos) <= exclude;
      SubsetCard(Ids(videos), exclude);
      DistinctIdsCard(videos);
      assert false;
    }
    i :| 0 <= i < |videos| && videos[i].id !in exclude;
  }
}
