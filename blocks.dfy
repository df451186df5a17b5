/**
 * Block bookkeeping of the sampler (scheduler.go): the ranges of clip numbers
 * already loaded, how a fetch window is moved off them, and how a fetched
 * window is merged back in.
 */
module Blocks {
  import opened Common
  import opened Model

  /** The clip numbers start, start + 1, ..., start + count - 1 (videoSourceBlock). */
  datatype Block = Block(start: int, count: int)

  function StartOf(b: Block): int { b.start }

  predicate InBlock(b: Block, n: int) { b.start <= n < b.start + b.count }

  /** Some block of bs holds the number n. */
  predicate Covers(bs: seq<Block>, n: int)
  {
    exists b :: b in bs && InBlock(b, n)
  }

  /** Sorted by start, and between any two blocks lies at least one number neither holds. */
  predicate Ordered(bs: seq<Block>)
  {
    forall i, j :: 0 <= i < j < |bs| ==> bs[i].start + bs[i].count < bs[j].start
  }

  predicate NonNegative(bs: seq<Block>) { forall b :: b in bs ==> b.count >= 0 }

  predicate Positive(bs: seq<Block>) { forall b :: b in bs ==> b.count >= 1 }

  /** The shape the sampler keeps its blocks in: sorted, non-empty, disjoint and non-adjacent. */
  predicate Separated(bs: seq<Block>) { Ordered(bs) && Positive(bs) }

  /** Every block lies inside [0, max). */
  predicate Within(bs: seq<Block>, max: int)
  {
    forall b :: b in bs ==> 0 <= b.start && b.start + b.count <= max
  }

  /**
   * The test of getNextBlock's scan: the window w, read as the numbers
   * w.start .. w.start + w.count - 1, meets block b.
   */
  predicate Hits(w: Block, b: Block)
  {
    w.start + w.count - 1 >= b.start && w.start <= b.start + b.count - 1
  }

  lemma CoversConcat(a: seq<Block>, b: seq<Block>, n: int)
    ensures Covers(a + b, n) <==> Covers(a, n) || Covers(b, n)
  {
    if Covers(a + b, n) {
      var x :| x in a + b && InBlock(x, n);
      assert x in a || x in b;
    }
    if Covers(a, n) {
      var x :| x in a && InBlock(x, n);
      assert x in a + b;
    }
    if Covers(b, n) {
      var x :| x in b && InBlock(x, n);
      assert x in a + b;
    }
  }

  lemma CoversSame(a: seq<Block>, b: seq<Block>, n: int)
    requires multiset(a) == multiset(b)
    ensures Covers(a, n) <==> Covers(b, n)
  {
    if Covers(a, n) {
      var x :| x in a && InBlock(x, n);
      SameElement(a, b, x);
    }
    if Covers(b, n) {
      var x :| x in b && InBlock(x, n);
      SameElement(a, b, x);
    }
  }

  // ---------------------------------------------------------------------------
  // createBlocks
  // ---------------------------------------------------------------------------

  /** Some record among the first k of sorted has number n. */
  predicate NumberedBefore(sorted: seq<VideoInfo>, k: nat, n: int)
    requires k <= |sorted|
  {
    exists i :: 0 <= i < k && sorted[i].number == n
  }

  /** One round of createBlocks' loop on record v; a count of 0 marks "no run yet". */
  function CreateStep(blocks: seq<Block>, block: Block, v: VideoInfo): (seq<Block>, Block)
  {
    if block.count == 0 then (blocks, Block(v.number, 1))
    else if block.start + block.count == v.number then (blocks, block.(count := block.count + 1))
    else (blocks + [block], Block(v.number, 1))
  }

  /**
   * What createBlocks' loop keeps after k records of sorted: the finished runs
   * and the one being built cover exactly the numbers seen, the run being
   * built ends at the last number seen, and with distinct numbers the runs
   * are ordered and end before the one being built.
   */
  ghost predicate CreateState(sorted: seq<VideoInfo>, k: nat, blocks: seq<Block>, block: Block)
    requires k <= |sorted|
  {
    && (k == 0 ==> block.count == 0 && blocks == [])
    && (k > 0 ==> block.count >= 1 && block.start + block.count - 1 == sorted[k - 1].number)
    && Positive(blocks)
    && (forall i, j :: 0 <= i < j < |blocks| ==> blocks[i].start <= blocks[j].start)
    && (forall b :: b in blocks ==> b.start <= block.start)
    && (DistinctBy(sorted, NumberOf) ==>
          Ordered(blocks) && forall b :: b in blocks ==> b.start + b.count < block.start)
    && (forall n :: Covers(blocks, n) || InBlock(block, n) <==> NumberedBefore(sorted, k, n))
  }

  lemma CreateStepKeeps(sorted: seq<VideoInfo>, k: nat, blocks: seq<Block>, block: Block)
    requires SortedBy(sorted, NumberOf) && k < |sorted|
    requires CreateState(sorted, k, blocks, block)
    ensures CreateState(sorted, k + 1, CreateStep(blocks, block, sorted[k]).0, CreateStep(blocks, block, sorted[k]).1)
  {
    var v := sorted[k];
    var (blocks', block') := CreateStep(blocks, block, v);
    assert k > 0 ==> NumberOf(sorted[k - 1]) <= NumberOf(v);
    assert DistinctBy(sorted, NumberOf) && k > 0 ==> NumberOf(sorted[k - 1]) != NumberOf(v);
    forall n ensures NumberedBefore(sorted, k + 1, n) <==> NumberedBefore(sorted, k, n) || n == v.number {
      if NumberedBefore(sorted, k + 1, n) && n != v.number {
        var i :| 0 <= i < k + 1 && sorted[i].number == n;
        assert i < k;
      }
    }
    forall n ensures Covers(blocks', n) || InBlock(block', n) <==> Covers(blocks, n) || InBlock(block, n) || n == v.number {
      if blocks' != blocks {
        CoversConcat(blocks, [block], n);
        if InBlock(block, n) { assert block in [block]; }
      }
    }
  }

  /** The numbers of the sorted copy are those of the records. */
  lemma SortedNumbers(videos: seq<VideoInfo>, sorted: seq<VideoInfo>, n: int)
    requires sorted == SortBy(videos, NumberOf)
    ensures NumberedBefore(sorted, |sorted|, n) <==> n in Numbers(videos)
  {
    if i :| 0 <= i < |sorted| && sorted[i].number == n {
      SameElement(sorted, videos, sorted[i]);
    }
    if n in Numbers(videos) {
      var v :| v in videos && v.number == n;
      SameElement(sorted, videos, v);
      var i :| 0 <= i < |sorted| && sorted[i] == v;
    }
  }

  /** The runs createBlocks returns cover exactly the numbers of the records. */
  lemma CreateDoneCovers(videos: seq<VideoInfo>, sorted: seq<VideoInfo>, blocks: seq<Block>, block: Block, n: int)
    requires sorted == SortBy(videos, NumberOf)
    requires CreateState(sorted, |sorted|, blocks, block)
    ensures Covers(if block.count > 0 then blocks + [block] else blocks, n) <==> n in Numbers(videos)
  {
    SortedNumbers(videos, sorted, n);
    if block.count > 0 {
      CoversConcat(blocks, [block], n);
      if InBlock(block, n) { assert block in [block]; }
    } else {
      assert !InBlock(block, n);
    }
  }

  /** A block that starts after every block of bs ends can be appended to ordered blocks. */
  lemma OrderedAppend(bs: seq<Block>, b: Block)
    requires Ordered(bs) && forall c :: c in bs ==> c.start + c.count < b.start
    ensures Ordered(bs + [b])
  {
    var r := bs + [b];
    forall i, j | 0 <= i < j < |r| ensures r[i].start + r[i].count < r[j].start {
      if j == |bs| { assert r[i] in bs; } else { assert r[i] == bs[i] && r[j] == bs[j]; }
    }
  }

  /** The last run appended to the finished ones keeps their shape. */
  lemma CreateDoneShape(videos: seq<VideoInfo>, sorted: seq<VideoInfo>, blocks: seq<Block>, block: Block)
    requires sorted == SortBy(videos, NumberOf)
    requires CreateState(sorted, |sorted|, blocks, block)
    requires block.count > 0
    ensures var r := blocks + [block];
      && Positive(r)
      && (forall i, j :: 0 <= i < j < |r| ==> r[i].start <= r[j].start)
      && (DistinctBy(videos, NumberOf) ==> Ordered(r))
  {
    var r := blocks + [block];
    forall c | c in r ensures c.count >= 1 {
      assert c in blocks || c == block;
    }
    forall i, j | 0 <= i < j < |r| ensures r[i].start <= r[j].start {
      if j == |blocks| { assert r[i] in blocks; } else { assert r[i] == blocks[i] && r[j] == blocks[j]; }
    }
    if DistinctBy(videos, NumberOf) {
      SortDistinct(videos, NumberOf);
      OrderedAppend(blocks, block);
    }
  }

  /** With no run being built, no record was seen. */
  lemma CreateDoneEmpty(videos: seq<VideoInfo>, sorted: seq<VideoInfo>, blocks: seq<Block>, block: Block)
    requires sorted == SortBy(videos, NumberOf)
    requires CreateState(sorted, |sorted|, blocks, block)
    ensures block.count <= 0 <==> videos == []
    ensures block.count <= 0 ==> blocks == []
  {
    if videos == [] {
      assert sorted == [];
    } else {
      assert |multiset(sorted)| == |multiset(videos)|;
    }
  }

  /** The loop of createBlocks over the sorted records. */
  method CreateLoop(sorted: seq<VideoInfo>) returns (blocks: seq<Block>, block: Block)
    requires SortedBy(sorted, NumberOf)
    ensures CreateState(sorted, |sorted|, blocks, block)
  {
    blocks := [];
    block := Block(0, 0);
    for k := 0 to |sorted|
      invariant CreateState(sorted, k, blocks, block)
    {
      CreateStepKeeps(sorted, k, blocks, block);
      var v := sorted[k];
      if block.count == 0 {
        block := Block(v.number, 1);
      } else {
        var expected := block.start + block.count;
        if expected == v.number {
          block := block.(count := block.count + 1);
        } else {
          blocks := blocks + [block];
          block := Block(v.number, 1);
        }
      }
    }
  }

  /**
   * createBlocks: sort a copy of the loaded records by number and cut it into
   * runs of consecutive numbers.
   */
  method CreateBlocks(videos: seq<VideoInfo>) returns (blocks: seq<Block>)
    ensures forall n :: Covers(blocks, n) <==> n in Numbers(videos)
    ensures Positive(blocks)
    ensures forall i, j :: 0 <= i < j < |blocks| ==> blocks[i].start <= blocks[j].start
    ensures DistinctBy(videos, NumberOf) ==> Separated(blocks)
    ensures videos == [] ==> blocks == []
  {
    var sorted := SortBy(videos, NumberOf);
    var block;
    blocks, block := CreateLoop(sorted);
    CreateDoneEmpty(videos, sorted, blocks, block);
    if block.count > 0 {
      CreateDoneShape(videos, sorted, blocks, block);
    }
    forall n ensures Covers(if block.count > 0 then blocks + [block] else blocks, n) <==> n in Numbers(videos) {
      CreateDoneCovers(videos, sorted, blocks, block, n);
    }
    if block.count > 0 {
      blocks := blocks + [block];
    }
  }

  // ---------------------------------------------------------------------------
  // getNextBlock
  // ---------------------------------------------------------------------------

  /** The requested window, cut back so that it ends at max. */
  function Clip(index: int, count: int, max: int): Block
  {
    if index + count > max then Block(index, max - index) else Block(index, count)
  }

  /**
   * The scan of getNextBlock from block i on: the index of the block the
   * window hits, or None once a block starts after the window's end or the
   * blocks run out.
   */
  function FirstHit(bs: seq<Block>, w: Block, i: nat): (r: Option<nat>)
    ensures r.Some? ==> i <= r.value < |bs|
    decreases |bs| - i
  {
    if i >= |bs| then None
    else if w.start + w.count - 1 < bs[i].start then None
    else if w.start > bs[i].start + bs[i].count - 1 then FirstHit(bs, w, i + 1)
    else Some(i)
  }

  /**
   * Whether the window moves in front of block b: never when b starts at 0,
   * always when b reaches max, otherwise as the coin `front` says.
   */
  function SlidesToFront(front: bool, b: Block, max: int): bool
  {
    if b.start == 0 then false else if b.start + b.count - 1 + 1 >= max then true else front
  }

  /**
   * The window of `count` numbers moved off block bs[i]: in front of it
   * (never before the end of the previous block) or behind it (never past
   * the start of the next block or the last number).
   */
  function Slide(front: bool, bs: seq<Block>, i: nat, count: int, max: int): Block
    requires i < |bs|
  {
    var b := bs[i];
    var end := b.start + b.count - 1;
    if SlidesToFront(front, b, max) then
      var newEnd := b.start - 1;
      var startLimit := if i == 0 then 0 else bs[i - 1].start + bs[i - 1].count;
      var newStart := if newEnd - count + 1 < startLimit then startLimit else newEnd - count + 1;
      Block(newStart, newEnd - newStart + 1)
    else
      var newStart := end + 1;
      var endLimit := if i + 1 == |bs| then max - 1 else bs[i + 1].start - 1;
      var newEnd := if newStart + count - 1 > endLimit then endLimit else newStart + count - 1;
      Block(newStart, newEnd - newStart + 1)
  }

  /** getNextBlock; `front` is the coin `r.Intn(2) == 0`, used only when neither side is forced. */
  function GetNextBlock(front: bool, bs: seq<Block>, index: int, count: int, max: int): Block
  {
    var w := Clip(index, count, max);
    match FirstHit(bs, w, 0)
    case None => w
    case Some(i) => Slide(front, bs, i, count, max)
  }

  /**
   * Whether getNextBlock draws its coin: only when the window hits a block
   * that neither starts at 0 nor reaches max. Otherwise the coin does not
   * matter.
   */
  function CoinNeeded(bs: seq<Block>, index: int, count: int, max: int): (r: bool)
    ensures !r ==> GetNextBlock(true, bs, index, count, max) == GetNextBlock(false, bs, index, count, max)
  {
    match FirstHit(bs, Clip(index, count, max), 0)
    case None => false
    case Some(i) => !(bs[i].start == 0) && !(bs[i].start + bs[i].count - 1 + 1 >= max)
  }

  lemma {:induction false} FirstHitSome(bs: seq<Block>, w: Block, i: nat)
    requires FirstHit(bs, w, i).Some?
    ensures var h := FirstHit(bs, w, i).value;
      Hits(w, bs[h]) && forall j :: i <= j < h ==> !Hits(w, bs[j])
    decreases |bs| - i
  {
    if i < |bs| && w.start + w.count - 1 >= bs[i].start && w.start > bs[i].start + bs[i].count - 1 {
      FirstHitSome(bs, w, i + 1);
    }
  }

  lemma {:induction false} FirstHitNone(bs: seq<Block>, w: Block, i: nat)
    requires Separated(bs)
    requires FirstHit(bs, w, i).None?
    ensures forall j :: i <= j < |bs| ==> !Hits(w, bs[j])
    decreases |bs| - i
  {
    if i < |bs| {
      if w.start + w.count - 1 < bs[i].start {
        forall j | i < j < |bs| ensures !Hits(w, bs[j]) {
          assert bs[i].start + bs[i].count < bs[j].start;
          assert bs[i] in bs;
        }
      } else {
        FirstHitNone(bs, w, i + 1);
      }
    }
  }

  /** The blocks before bs[i] end by the end of bs[i - 1]; the blocks after it start at bs[i + 1] or later. */
  lemma Neighbours(bs: seq<Block>, i: nat, j: nat)
    requires Separated(bs) && i < |bs| && j < |bs|
    ensures j < i ==> bs[j].start + bs[j].count <= bs[i - 1].start + bs[i - 1].count
    ensures j < i ==> bs[j].start + bs[j].count < bs[i].start
    ensures i < j ==> bs[i + 1].start <= bs[j].start
    ensures i < j ==> bs[i].start + bs[i].count < bs[j].start
  {
    if j < i - 1 {
      assert bs[j].start + bs[j].count < bs[i - 1].start;
      assert bs[i - 1] in bs;
    }
    if i + 1 < j {
      assert bs[i + 1].start + bs[i + 1].count < bs[j].start;
      assert bs[i + 1] in bs;
    }
  }

  lemma SlideSound(front: bool, bs: seq<Block>, i: nat, count: int, max: int)
    requires Separated(bs) && Within(bs, max) && i < |bs|
    ensures var r := Slide(front, bs, i, count, max);
      && r.count <= count
      && (r.count >= 1 ==> 0 <= r.start && r.start + r.count <= max)
      && (r.count >= 1 ==> forall c :: c in bs ==> !Hits(r, c))
  {
    var r := Slide(front, bs, i, count, max);
    var b := bs[i];
    assert b in bs;
    assert i > 0 ==> bs[i - 1] in bs;
    assert i + 1 < |bs| ==> bs[i + 1] in bs;
    if r.count >= 1 {
      forall c | c in bs ensures !Hits(r, c) {
        var j :| 0 <= j < |bs| && bs[j] == c;
        Neighbours(bs, i, j);
      }
    }
  }

  /**
   * For blocks in the sampler's shape inside [0, max) and a start drawn from
   * [0, max): the planned window never asks for more than `count` numbers, and
   * when it is not empty it lies inside [0, max) and meets no block.
   */
  lemma GetNextBlockSound(front: bool, bs: seq<Block>, index: int, count: int, max: int)
    requires Separated(bs) && Within(bs, max) && 0 <= index
    ensures var r := GetNextBlock(front, bs, index, count, max);
      && r.count <= count
      && (r.count >= 1 ==> 0 <= r.start && r.start + r.count <= max)
      && (r.count >= 1 ==> forall b :: b in bs ==> !Hits(r, b))
  {
    var w := Clip(index, count, max);
    match FirstHit(bs, w, 0)
    case None =>
      FirstHitNone(bs, w, 0);
      forall b | b in bs ensures !Hits(w, b) {
        var j :| 0 <= j < |bs| && bs[j] == b;
      }
    case Some(i) =>
      SlideSound(front, bs, i, count, max);
  }

  /** Whatever the blocks, the planned window never asks for more than `count` numbers. */
  lemma GetNextBlockAtMost(front: bool, bs: seq<Block>, index: int, count: int, max: int)
    ensures GetNextBlock(front, bs, index, count, max).count <= count
  {
    var w := Clip(index, count, max);
    match FirstHit(bs, w, 0)
    case None =>
    case Some(i) =>
  }

  /** A window that meets no block comes back as asked, only cut back to end at max. */
  lemma GetNextBlockMiss(front: bool, bs: seq<Block>, index: int, count: int, max: int)
    requires forall b :: b in bs ==> !Hits(Clip(index, count, max), b)
    ensures var r := GetNextBlock(front, bs, index, count, max);
      && r.start == index
      && r.count == (if index + count > max then max - index else count)
  {
    var w := Clip(index, count, max);
    if FirstHit(bs, w, 0).Some? {
      FirstHitSome(bs, w, 0);
      assert false;
    }
  }

  /**
   * A window whose first hit is block bs[i] is moved behind it when bs[i]
   * starts at 0, in front of it when bs[i] reaches max, and otherwise to the
   * side the coin picks.
   */
  lemma GetNextBlockHit(front: bool, bs: seq<Block>, index: int, count: int, max: int, i: nat)
    requires Separated(bs)
    requires i < |bs| && Hits(Clip(index, count, max), bs[i])
    requires forall j :: 0 <= j < i ==> !Hits(Clip(index, count, max), bs[j])
    ensures var r := GetNextBlock(front, bs, index, count, max);
      var b := bs[i];
      && (b.start == 0 ==> r.start == b.start + b.count)
      && (b.start != 0 && b.start + b.count >= max ==> r.start + r.count == b.start)
      && (b.start != 0 && b.start + b.count < max ==>
            if front then r.start + r.count == b.start else r.start == b.start + b.count)
  {
    var w := Clip(index, count, max);
    if FirstHit(bs, w, 0).None? {
      FirstHitNone(bs, w, 0);
      assert false;
    }
    FirstHitSome(bs, w, 0);
  }

  // ---------------------------------------------------------------------------
  // mergeBlock
  // ---------------------------------------------------------------------------

  /**
   * What mergeBlock's loop keeps, once it has seen the blocks `seen`: the
   * finished blocks `result` are ordered and end before the block `acc` being
   * built, and together with it they cover exactly what `seen` covers.
   */
  ghost predicate MergeInv(result: seq<Block>, acc: Block, seen: seq<Block>)
  {
    && Ordered(result) && NonNegative(result) && acc.count >= 0
    && (forall b :: b in result ==> b.start + b.count < acc.start)
    && (forall n :: Covers(result, n) || InBlock(acc, n) <==> Covers(seen, n))
  }

  lemma MergeFirst(b: Block)
    requires b.count >= 0
    ensures MergeInv([], b, [b])
  {
    forall n ensures Covers([b], n) <==> InBlock(b, n) {
      if InBlock(b, n) { assert b in [b]; }
    }
  }

  /** A block starting after the end of `acc` closes `acc` and starts a new one. */
  lemma MergePush(result: seq<Block>, acc: Block, seen: seq<Block>, b: Block)
    requires MergeInv(result, acc, seen)
    requires b.count >= 0 && acc.start + acc.count < b.start
    ensures MergeInv(result + [acc], b, seen + [b])
  {
    forall n ensures Covers(result + [acc], n) || InBlock(b, n) <==> Covers(seen + [b], n) {
      CoversConcat(result, [acc], n);
      CoversConcat(seen, [b], n);
      if InBlock(acc, n) { assert acc in [acc]; }
      if InBlock(b, n) { assert b in [b]; }
    }
  }

  /** A block starting inside or right at the end of `acc` is fused into it. */
  lemma MergeFuse(result: seq<Block>, acc: Block, seen: seq<Block>, b: Block)
    requires MergeInv(result, acc, seen)
    requires b.count >= 0 && acc.start <= b.start <= acc.start + acc.count
    ensures var acc' := if b.start + b.count > acc.start + acc.count
                        then acc.(count := b.start + b.count - acc.start) else acc;
      MergeInv(result, acc', seen + [b])
  {
    forall n ensures Covers(seen + [b], n) <==> Covers(seen, n) || InBlock(b, n) {
      CoversConcat(seen, [b], n);
      if InBlock(b, n) { assert b in [b]; }
    }
  }

  /** What the sorted copy of mergeBlock shares with its input. */
  lemma MergeTemp(bs: seq<Block>, block: Block, temp: seq<Block>)
    requires temp == SortBy(bs + [block], StartOf)
    ensures forall b :: b in temp ==> b in bs || b == block
    ensures NonNegative(bs) && block.count >= 0 ==> NonNegative(temp)
    ensures Positive(bs) && block.count >= 1 ==> Positive(temp)
    ensures forall n :: Covers(temp, n) <==> Covers(bs, n) || InBlock(block, n)
    ensures bs == [] ==> temp == [block]
  {
    forall b | b in temp ensures b in bs || b == block {
      SameElement(temp, bs + [block], b);
    }
    forall b | b in bs || b == block ensures b in temp {
      SameElement(temp, bs + [block], b);
    }
    forall n ensures Covers(temp, n) <==> Covers(bs, n) || InBlock(block, n) {
      CoversSame(temp, bs + [block], n);
      CoversConcat(bs, [block], n);
      if InBlock(block, n) { assert block in [block]; }
    }
    if bs == [] {
      assert bs + [block] == [block];
      assert [block][1..] == [];
      assert SortBy([block], StartOf) == Insert(block, [], StartOf);
    }
  }

  /** One round of mergeBlock's loop on block b; a count of -1 marks "no block yet". */
  function MergeStep(result: seq<Block>, acc: Block, b: Block): (seq<Block>, Block)
  {
    if acc.count == -1 then (result, b)
    else if acc.start + acc.count < b.start then (result + [acc], b)
    else if b.start + b.count > acc.start + acc.count then (result, acc.(count := b.start + b.count - acc.start))
    else (result, acc)
  }

  /** Everything mergeBlock's loop keeps after k rounds over the sorted blocks temp. */
  ghost predicate MergeState(temp: seq<Block>, k: nat, result: seq<Block>, acc: Block)
    requires k <= |temp|
  {
    && (k == 0 ==> result == [] && acc == Block(0, -1))
    && (NonNegative(temp) && k > 0 ==>
          && MergeInv(result, acc, temp[..k])
          && acc.start <= temp[k - 1].start
          && (acc.count == 0 ==> acc in temp))
    && (Positive(temp) && k > 0 ==> Positive(result) && acc.count >= 1)
    && (NonNegative(temp) ==> forall b :: b in result && b.count == 0 ==> b in temp)
    && (|temp| == 1 ==> result == [] && (k == 1 ==> acc == temp[0]))
  }

  lemma MergeStepKeeps(temp: seq<Block>, k: nat, result: seq<Block>, acc: Block)
    requires SortedBy(temp, StartOf) && k < |temp|
    requires MergeState(temp, k, result, acc)
    ensures MergeState(temp, k + 1, MergeStep(result, acc, temp[k]).0, MergeStep(result, acc, temp[k]).1)
  {
    var b := temp[k];
    assert b in temp;
    assert temp[..k + 1] == temp[..k] + [b];
    assert k > 0 ==> StartOf(temp[k - 1]) <= StartOf(b);
    var ok := NonNegative(temp);
    if acc.count == -1 {
      if ok {
        assert k == 0;
        MergeFirst(b);
      }
    } else if acc.start + acc.count < b.start {
      if ok { MergePush(result, acc, temp[..k], b); }
    } else {
      if ok { MergeFuse(result, acc, temp[..k], b); }
    }
  }

  /** The loop of mergeBlock over the sorted blocks. */
  method MergeLoop(temp: seq<Block>) returns (result: seq<Block>, acc: Block)
    requires SortedBy(temp, StartOf)
    ensures MergeState(temp, |temp|, result, acc)
  {
    result := [];
    acc := Block(0, -1);
    for k := 0 to |temp|
      invariant MergeState(temp, k, result, acc)
    {
      MergeStepKeeps(temp, k, result, acc);
      var b := temp[k];
      if acc.count == -1 {
        acc := b;
      } else {
        var end := acc.start + acc.count;
        if end < b.start {
          result := result + [acc];
          acc := b;
        } else {
          var currentBlockEnd := b.start + b.count;
          if currentBlockEnd > end {
            acc := acc.(count := currentBlockEnd - acc.start);
          }
        }
      }
    }
  }

  /**
   * mergeBlock: sort the blocks together with the new one by start and fuse
   * every block that starts at or before the end of the block being built.
   * The block still being built at the end is kept only if its count is
   * positive; an empty block met earlier is kept as it is.
   */
  method MergeBlock(bs: seq<Block>, block: Block) returns (result: seq<Block>)
    ensures NonNegative(bs) && block.count >= 0 ==> Ordered(result) && NonNegative(result)
    ensures NonNegative(bs) && block.count >= 0 ==>
      forall b :: b in result && b.count == 0 ==> b in bs || b == block
    ensures bs == [] ==> result == (if block.count > 0 then [block] else [])
    ensures NonNegative(bs) && block.count >= 0 ==>
      forall n :: Covers(result, n) <==> Covers(bs, n) || InBlock(block, n)
    ensures Positive(bs) && block.count >= 1 ==> Separated(result)
  {
    var temp := SortBy(bs + [block], StartOf);
    var acc;
    result, acc := MergeLoop(temp);
    MergeDone(bs, block, temp, result, acc);
    if acc.count > 0 {
      result := result + [acc];
    }
  }

  /** What the loop's final state gives once the last block is appended. */
  lemma MergeDone(bs: seq<Block>, block: Block, temp: seq<Block>, result: seq<Block>, acc: Block)
    requires temp == SortBy(bs + [block], StartOf)
    requires MergeState(temp, |temp|, result, acc)
    ensures var r := if acc.count > 0 then result + [acc] else result;
      && (NonNegative(bs) && block.count >= 0 ==> Ordered(r) && NonNegative(r))
      && (NonNegative(bs) && block.count >= 0 ==>
            forall b :: b in r && b.count == 0 ==> b in bs || b == block)
      && (bs == [] ==> r == (if block.count > 0 then [block] else []))
      && (NonNegative(bs) && block.count >= 0 ==>
            forall n :: Covers(r, n) <==> Covers(bs, n) || InBlock(block, n))
      && (Positive(bs) && block.count >= 1 ==> Separated(r))
  {
    assert temp[..|temp|] == temp;
    MergeTemp(bs, block, temp);
    assert |temp| > 0;
    if acc.count > 0 {
      forall n ensures Covers(result + [acc], n) <==> Covers(result, n) || InBlock(acc, n) {
        CoversConcat(result, [acc], n);
        if InBlock(acc, n) { assert acc in [acc]; }
      }
    }
  }
}
