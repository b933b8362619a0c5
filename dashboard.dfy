/**
 * The pull side of components/dashboard.tsx: how a page of blocks from
 * `GET /blocks` is folded into the raw block list. A head poll after the first
 * merges by slot and never deletes; a "load more" page appends the blocks whose
 * slots are not stored yet. The class in explorer.dfy applies these to the
 * shared state; this module holds the list logic and what is proved about it.
 */
module Dashboard {
  import opened Types
  import opened SlotMap
  import opened SlotOrder
  import opened Atoms

  /** The `limit` the dashboard passes to `api.getBlocks`. */
  const PageLimit: nat := 20

  /** The outcome of `api.getBlocks`: the page of blocks, or a thrown error. */
  datatype FetchResult = Fetched(blocks: seq<Block>) | FetchFailed

  /** `hasMore` as lib/api.ts derives it: a full page means there may be more. */
  function PageHasMore(page: seq<Block>): (r: bool)
    ensures r ==> page != [] && |page| == PageLimit
    ensures |page| == PageLimit ==> r
    ensures |page| < PageLimit ==> !r
  {
    |page| == PageLimit
  }

  // ---------------------------------------------------------------------------
  // Head merge (a poll at offset 0 after the first load)
  // ---------------------------------------------------------------------------

  /** The `blockMap` and the latest-producer cell, as the head merge's `forEach` threads them. */
  datatype MergeState = MergeState(entries: seq<Block>, producer: Option<int>)

  /**
   * `prev[0]?.slot || 0`: a newly inserted block must lie above the raw list's
   * first slot. On a raw list ordered by slot that is its highest slot.
   */
  function ProducerFloor(prev: seq<Block>): (r: int)
    ensures prev == [] ==> r == 0
    ensures prev != [] ==> r == prev[0].slot
    ensures Descending(prev) ==> forall b :: b in prev ==> b.slot <= r
  {
    if prev == [] then 0
    else if Descending(prev) then
      DescendingHead(prev);
      prev[0].slot
    else
      prev[0].slot
  }

  /** The stored block is replaced only when its status or its type differs. */
  predicate Differs(stored: Block, b: Block)
  {
    stored.status != b.status || stored.kind != b.kind
  }

  /** `b` would be inserted into `entries` and would set the latest producer. */
  predicate NewLatest(entries: seq<Block>, b: Block, floor: int)
  {
    b.slot !in Slots(entries) && b.slot > floor && b.kind == Produced && b.producer.Some?
  }

  /** One iteration of the `forEach` over the page. */
  function MergeStep(st: MergeState, b: Block, floor: int): (r: MergeState)
    requires DistinctSlots(st.entries)
    ensures DistinctSlots(r.entries)
  {
    match Get(st.entries, b.slot)
    case None =>
      MergeState(Set(st.entries, b), if NewLatest(st.entries, b, floor) then b.producer else st.producer)
    case Some(stored) =>
      if Differs(stored, b) then MergeState(Set(st.entries, b), st.producer) else st
  }

  /** The whole `forEach`, page element by page element from the front. */
  function MergeFold(st: MergeState, page: seq<Block>, floor: int): (r: MergeState)
    requires DistinctSlots(st.entries)
    ensures DistinctSlots(r.entries)
  {
    if page == [] then st
    else MergeStep(MergeFold(st, page[..|page| - 1], floor), page[|page| - 1], floor)
  }

  /** The value the head-merge updater returns, and the latest producer it leaves. */
  function HeadMergeResult(prev: seq<Block>, page: seq<Block>, producer: Option<int>): MergeState
  {
    var st := MergeFold(MergeState(FromList(prev), producer), page, ProducerFloor(prev));
    MergeState(SortDesc(st.entries), st.producer)
  }

  /**
   * The head-merge updater of `fetchBlocks`: build a `Map` from the raw list,
   * fold the page into it in place, and return its values sorted by slot.
   */
  method HeadMerge(prev: seq<Block>, page: seq<Block>, producer: Option<int>)
    returns (merged: seq<Block>, latestProducer: Option<int>)
    ensures MergeState(merged, latestProducer) == HeadMergeResult(prev, page, producer)
    ensures StrictlyDescending(merged)
    ensures Slots(merged) == Slots(prev) + Slots(page)
  {
    var blockMap := FromList(prev);
    var floor := ProducerFloor(prev);
    ghost var start := MergeState(blockMap, producer);
    latestProducer := producer;
    var i := 0;
    while i < |page|
      invariant 0 <= i <= |page|
      invariant DistinctSlots(blockMap)
      invariant MergeState(blockMap, latestProducer) == MergeFold(start, page[..i], floor)
    {
      MergeFoldPrefix(start, page, i, floor);
      blockMap, latestProducer := MergeBlock(blockMap, latestProducer, page[i], floor);
      i := i + 1;
    }
    assert page[..i] == page;
    merged := SortDesc(blockMap);
    HeadMergeShape(prev, page, producer);
  }

  /**
   * The `forEach` callback of the head merge: insert a block of a new slot
   * (and, above the floor, take its producer as the latest), or overwrite a
   * stored block whose status or type differs. The callback works on the
   * map variable in place; `MergeStep` is the value it must compute, which
   * the lemmas about the fold use, so the two are kept apart.
   */
  method MergeBlock(blockMap: seq<Block>, latestProducer: Option<int>, newBlock: Block, floor: int)
    returns (nextMap: seq<Block>, nextProducer: Option<int>)
    requires DistinctSlots(blockMap)
    ensures MergeState(nextMap, nextProducer) == MergeStep(MergeState(blockMap, latestProducer), newBlock, floor)
    ensures DistinctSlots(nextMap)
  {
    nextMap, nextProducer := blockMap, latestProducer;
    var existing := Get(blockMap, newBlock.slot);
    if existing.None? {
      nextMap := Set(blockMap, newBlock);
      if newBlock.slot > floor && newBlock.kind == Produced && newBlock.producer.Some? {
        nextProducer := newBlock.producer;
      }
    } else if Differs(existing.value, newBlock) {
      nextMap := Set(blockMap, newBlock);
    }
  }

  /** The merged list is strictly ordered by slot and holds the stored slots and the page's. */
  lemma HeadMergeShape(prev: seq<Block>, page: seq<Block>, producer: Option<int>)
    ensures StrictlyDescending(HeadMergeResult(prev, page, producer).entries)
    ensures Slots(HeadMergeResult(prev, page, producer).entries) == Slots(prev) + Slots(page)
  {
    var start := MergeState(FromList(prev), producer);
    var st := MergeFold(start, page, ProducerFloor(prev));
    SortDescStrict(st.entries);
    MergeFoldSlots(start, page, ProducerFloor(prev));
    assert Slots(SortDesc(st.entries)) == Slots(st.entries);
  }

  /** The fold over a longer prefix of the page is one more step over the shorter one. */
  lemma MergeFoldPrefix(st: MergeState, page: seq<Block>, i: int, floor: int)
    requires DistinctSlots(st.entries) && 0 <= i < |page|
    ensures MergeFold(st, page[..i + 1], floor) == MergeStep(MergeFold(st, page[..i], floor), page[i], floor)
  {
    assert page[..i + 1][..i] == page[..i];
  }

  /** One merge step leaves every other slot as it was. */
  lemma MergeStepOtherSlot(st: MergeState, b: Block, floor: int, s: int)
    requires DistinctSlots(st.entries) && s != b.slot
    ensures Get(MergeStep(st, b, floor).entries, s) == Get(st.entries, s)
  {
    var r := MergeStep(st, b, floor).entries;
    if Get(st.entries, s).Some? {
      assert Get(st.entries, s).value in r;
    }
  }

  /** One merge step adds the block's slot and drops none. */
  lemma MergeStepSlots(st: MergeState, b: Block, floor: int)
    requires DistinctSlots(st.entries)
    ensures Slots(MergeStep(st, b, floor).entries) == Slots(st.entries) + {b.slot}
  {
  }

  /** The merge never deletes: its slots are the stored slots and the page's slots. */
  lemma {:induction false} MergeFoldSlots(st: MergeState, page: seq<Block>, floor: int)
    requires DistinctSlots(st.entries)
    ensures Slots(MergeFold(st, page, floor).entries) == Slots(st.entries) + Slots(page)
  {
    if page != [] {
      var init, x := page[..|page| - 1], page[|page| - 1];
      var mid := MergeFold(st, init, floor);
      MergeFoldSlots(st, init, floor);
      assert MergeFold(st, page, floor) == MergeStep(mid, x, floor);
      MergeStepSlots(mid, x, floor);
      SlotsDropLast(page);
      SlotsChain(Slots(MergeStep(mid, x, floor).entries), Slots(mid.entries), Slots(st.entries), Slots(init), Slots(page), x.slot);
    }
  }

  /** Set bookkeeping for one step of MergeFoldSlots. */
  lemma SlotsChain(after: set<int>, mid: set<int>, start: set<int>, init: set<int>, page: set<int>, s: int)
    requires after == mid + {s} && mid == start + init && page == init + {s}
    ensures after == start + page
  {
  }

  /** A slot the page does not mention keeps its stored block. */
  lemma {:induction false} MergeFoldUntouched(st: MergeState, page: seq<Block>, floor: int, s: int)
    requires DistinctSlots(st.entries) && s !in Slots(page)
    ensures Get(MergeFold(st, page, floor).entries, s) == Get(st.entries, s)
  {
    if page != [] {
      var init, x := page[..|page| - 1], page[|page| - 1];
      assert page == init + [x];
      assert s !in Slots(init) && s != x.slot;
      MergeFoldUntouched(st, init, floor, s);
      MergeStepOtherSlot(MergeFold(st, init, floor), x, floor, s);
    }
  }

  /** What a merge leaves at a slot the page mentions once: the stored block if it agrees in status and type, else the page's block. */
  function MergedAt(stored: Option<Block>, b: Block): Option<Block>
  {
    match stored
    case Some(e) => if Differs(e, b) then Some(b) else Some(e)
    case None => Some(b)
  }

  /**
   * On a page with one block per slot, the stored block at a page slot is
   * replaced by the page's block exactly when its status or type differs.
   */
  lemma {:induction false} MergeFoldAtPageSlot(st: MergeState, page: seq<Block>, floor: int, k: int)
    requires DistinctSlots(st.entries) && DistinctSlots(page) && 0 <= k < |page|
    ensures Get(MergeFold(st, page, floor).entries, page[k].slot) == MergedAt(Get(st.entries, page[k].slot), page[k])
  {
    var n := |page| - 1;
    var init, x := page[..n], page[n];
    var mid := MergeFold(st, init, floor);
    DistinctDropLast(page);
    MergeFoldSnoc(st, page, floor);
    if k == n {
      MergeFoldUntouched(st, init, floor, x.slot);
    } else {
      assert init[k] == page[k];
      assert page[k].slot != x.slot;
      MergeFoldAtPageSlot(st, init, floor, k);
      MergeStepOtherSlot(mid, x, floor, page[k].slot);
    }
  }

  /** One merge step moves the latest producer exactly when the block is new, above the floor, produced and attributed. */
  lemma MergeStepProducer(st: MergeState, b: Block, floor: int)
    requires DistinctSlots(st.entries)
    ensures MergeStep(st, b, floor).producer == if NewLatest(st.entries, b, floor) then b.producer else st.producer
  {
  }

  /** The fold over a non-empty page is one step after the fold over all but its last block. */
  lemma MergeFoldSnoc(st: MergeState, page: seq<Block>, floor: int)
    requires DistinctSlots(st.entries) && page != []
    ensures MergeFold(st, page, floor) == MergeStep(MergeFold(st, page[..|page| - 1], floor), page[|page| - 1], floor)
  {
  }

  /** The latest producer changes only to the producer of a page block that the merge inserts above the floor. */
  lemma {:induction false} MergeFoldProducerSource(st: MergeState, page: seq<Block>, floor: int)
    requires DistinctSlots(st.entries)
    ensures var r := MergeFold(st, page, floor);
      r.producer == st.producer ||
      exists k :: 0 <= k < |page| && NewLatest(st.entries, page[k], floor) && r.producer == page[k].producer
  {
    if page != [] {
      var n := |page| - 1;
      var init, x := page[..n], page[n];
      var mid := MergeFold(st, init, floor);
      MergeFoldProducerSource(st, init, floor);
      MergeFoldSlots(st, init, floor);
      MergeFoldSnoc(st, page, floor);
      MergeStepProducer(mid, x, floor);
      if NewLatest(mid.entries, x, floor) {
        assert NewLatest(st.entries, page[n], floor);
      } else if mid.producer != st.producer {
        var k :| 0 <= k < |init| && NewLatest(st.entries, init[k], floor) && mid.producer == init[k].producer;
        assert page[k] == init[k];
      }
    }
  }

  /** A last page block that the merge inserts above the floor sets the latest producer. */
  lemma MergeFoldProducerAtEnd(st: MergeState, page: seq<Block>, floor: int)
    requires DistinctSlots(st.entries) && DistinctSlots(page) && page != []
    requires NewLatest(st.entries, page[|page| - 1], floor)
    ensures MergeFold(st, page, floor).producer == page[|page| - 1].producer
  {
    var n := |page| - 1;
    var mid := MergeFold(st, page[..n], floor);
    DistinctDropLast(page);
    MergeFoldSlots(st, page[..n], floor);
    MergeFoldSnoc(st, page, floor);
    MergeStepProducer(mid, page[n], floor);
    assert NewLatest(mid.entries, page[n], floor);
  }

  /** A last page block that the merge does not insert above the floor leaves the latest producer as it was. */
  lemma MergeFoldProducerKeptAtEnd(st: MergeState, page: seq<Block>, floor: int)
    requires DistinctSlots(st.entries) && page != []
    requires !NewLatest(st.entries, page[|page| - 1], floor)
    ensures MergeFold(st, page, floor).producer == MergeFold(st, page[..|page| - 1], floor).producer
  {
    var n := |page| - 1;
    var mid := MergeFold(st, page[..n], floor);
    MergeFoldSlots(st, page[..n], floor);
    MergeFoldSnoc(st, page, floor);
    MergeStepProducer(mid, page[n], floor);
    assert !NewLatest(mid.entries, page[n], floor);
  }

  /**
   * On a page with one block per slot, the latest producer ends as the producer
   * of the last page block that is inserted above the floor.
   */
  lemma {:induction false} MergeFoldProducerLast(st: MergeState, page: seq<Block>, floor: int, k: int)
    requires DistinctSlots(st.entries) && DistinctSlots(page)
    requires 0 <= k < |page| && NewLatest(st.entries, page[k], floor)
    requires forall j :: k < j < |page| ==> !NewLatest(st.entries, page[j], floor)
    ensures MergeFold(st, page, floor).producer == page[k].producer
  {
    var n := |page| - 1;
    if k == n {
      MergeFoldProducerAtEnd(st, page, floor);
    } else {
      var init := page[..n];
      DistinctDropLast(page);
      assert init[k] == page[k];
      forall j | k < j < n ensures !NewLatest(st.entries, init[j], floor) {
        assert init[j] == page[j];
      }
      MergeFoldProducerLast(st, init, floor, k);
      MergeFoldProducerKeptAtEnd(st, page, floor);
    }
  }

  /** A page with no block that the merge inserts above the floor leaves the latest producer alone. */
  lemma MergeFoldProducerUnchanged(st: MergeState, page: seq<Block>, floor: int)
    requires DistinctSlots(st.entries)
    requires forall j :: 0 <= j < |page| ==> !NewLatest(st.entries, page[j], floor)
    ensures MergeFold(st, page, floor).producer == st.producer
  {
    MergeFoldProducerSource(st, page, floor);
  }

  /** Two lists with one block per slot and the same blocks give the same `get` answers. */
  lemma GetSameMembers(a: seq<Block>, b: seq<Block>, s: int)
    requires DistinctSlots(a) && DistinctSlots(b)
    requires forall x :: x in a <==> x in b
    ensures Get(a, s) == Get(b, s)
  {
    if Get(a, s).Some? {
      assert Get(a, s).value in b;
    }
    if Get(b, s).Some? {
      assert Get(b, s).value in a;
    }
  }

  /**
   * The head merge measured against the view readers saw before it: a view
   * block whose slot the page does not mention survives, and at each page slot
   * the view's block survives exactly when it agrees in status and type.
   */
  lemma HeadMergeAgainstView(prev: seq<Block>, page: seq<Block>, producer: Option<int>)
    requires DistinctSlots(page)
    ensures var r := HeadMergeResult(prev, page, producer);
      && (forall b :: b in View(prev) && b.slot !in Slots(page) ==> b in r.entries)
      && (forall k :: 0 <= k < |page| ==> Get(r.entries, page[k].slot) == MergedAt(Get(View(prev), page[k].slot), page[k]))
  {
    var st0 := MergeState(FromList(prev), producer);
    var floor := ProducerFloor(prev);
    var st := MergeFold(st0, page, floor);
    var r := HeadMergeResult(prev, page, producer);
    assert forall x :: x in r.entries <==> x in st.entries;
    SortDescStrict(st.entries);
    forall b | b in View(prev) && b.slot !in Slots(page)
      ensures b in r.entries
    {
      GetSameMembers(FromList(prev), View(prev), b.slot);
      MergeFoldUntouched(st0, page, floor, b.slot);
    }
    forall k | 0 <= k < |page|
      ensures Get(r.entries, page[k].slot) == MergedAt(Get(View(prev), page[k].slot), page[k])
    {
      GetSameMembers(FromList(prev), View(prev), page[k].slot);
      MergeFoldAtPageSlot(st0, page, floor, k);
      GetSameMembers(st.entries, r.entries, page[k].slot);
    }
  }

  /** `MergedAt` applied in page order to the page blocks with slot `s`: what the merge leaves at `s`. */
  function FoldAt(c: Option<Block>, page: seq<Block>, s: int): Option<Block>
  {
    if page == [] then c
    else
      var prior := FoldAt(c, page[..|page| - 1], s);
      if page[|page| - 1].slot == s then MergedAt(prior, page[|page| - 1]) else prior
  }

  /** One merge step at the block's own slot leaves `MergedAt` of the stored entry. */
  lemma MergeStepAt(st: MergeState, b: Block, floor: int)
    requires DistinctSlots(st.entries)
    ensures Get(MergeStep(st, b, floor).entries, b.slot) == MergedAt(Get(st.entries, b.slot), b)
  {
    var r := MergeStep(st, b, floor).entries;
    if Get(st.entries, b.slot).Some? && !Differs(Get(st.entries, b.slot).value, b) {
      assert r == st.entries;
    } else {
      assert b in r;
    }
  }

  /** Whatever the page's slots, the merge leaves at each slot the per-slot fold of the stored entry. */
  lemma {:induction false} GetFold(st: MergeState, page: seq<Block>, floor: int, s: int)
    requires DistinctSlots(st.entries)
    ensures Get(MergeFold(st, page, floor).entries, s) == FoldAt(Get(st.entries, s), page, s)
  {
    if page != [] {
      var init, x := page[..|page| - 1], page[|page| - 1];
      MergeFoldSnoc(st, page, floor);
      GetFold(st, init, floor, s);
      var mid := MergeFold(st, init, floor);
      if x.slot == s {
        MergeStepAt(mid, x, floor);
      } else {
        MergeStepOtherSlot(mid, x, floor, s);
      }
    }
  }

  /** A merge at a page block's slot always ends with a block of that block's status and type. */
  lemma MergedAtClass(stored: Option<Block>, b: Block)
    ensures MergedAt(stored, b).Some? && !Differs(MergedAt(stored, b).value, b)
  {
  }

  /** A slot no page block has keeps its entry. */
  lemma {:induction false} FoldAtUntouched(c: Option<Block>, page: seq<Block>, s: int)
    requires s !in Slots(page)
    ensures FoldAt(c, page, s) == c
  {
    if page != [] {
      SlotsDropLast(page);
      FoldAtUntouched(c, page[..|page| - 1], s);
    }
  }

  /** At a slot the page has, the outcome's status and type do not depend on the entry the merge started from. */
  lemma {:induction false} FoldAtClass(c1: Option<Block>, c2: Option<Block>, page: seq<Block>, s: int)
    requires s in Slots(page)
    ensures FoldAt(c1, page, s).Some? && FoldAt(c2, page, s).Some?
    ensures !Differs(FoldAt(c1, page, s).value, FoldAt(c2, page, s).value)
  {
    var init, x := page[..|page| - 1], page[|page| - 1];
    SlotsDropLast(page);
    if x.slot == s {
      MergedAtClass(FoldAt(c1, init, s), x);
      MergedAtClass(FoldAt(c2, init, s), x);
    } else {
      FoldAtClass(c1, c2, init, s);
    }
  }

  /** Folding the same page blocks at a slot a second time leaves the first outcome. */
  lemma {:induction false} FoldAtIdem(c: Option<Block>, page: seq<Block>, s: int)
    ensures FoldAt(FoldAt(c, page, s), page, s) == FoldAt(c, page, s)
  {
    if page != [] {
      var init, x := page[..|page| - 1], page[|page| - 1];
      var d := FoldAt(c, page, s);
      FoldAtIdem(c, init, s);
      if x.slot == s {
        var p1, p2 := FoldAt(c, init, s), FoldAt(d, init, s);
        MergedAtClass(p1, x);
        if s in Slots(init) {
          FoldAtClass(c, d, init, s);
          if d != p1 {
            assert d == Some(x);
          } else {
            assert p2 == p1;
          }
        } else {
          FoldAtUntouched(c, init, s);
          FoldAtUntouched(d, init, s);
        }
      }
    }
  }

  /**
   * Polling the head again with the same page changes nothing: neither the
   * stored list nor the latest producer. This holds for every page, also one
   * that repeats a slot.
   */
  lemma HeadMergeIdempotent(prev: seq<Block>, page: seq<Block>, producer: Option<int>)
    ensures var r := HeadMergeResult(prev, page, producer);
      HeadMergeResult(r.entries, page, r.producer) == r
  {
    var st0 := MergeState(FromList(prev), producer);
    var st := MergeFold(st0, page, ProducerFloor(prev));
    var r := HeadMergeResult(prev, page, producer);
    SortDescStrict(st.entries);
    FromListOfDistinct(r.entries);
    var again := MergeState(r.entries, r.producer);
    var floor2 := ProducerFloor(r.entries);
    var st2 := MergeFold(again, page, floor2);
    MergeFoldSlots(st0, page, ProducerFloor(prev));
    assert Slots(r.entries) == Slots(st.entries);
    // No page block is new the second time, so the producer stays.
    forall j | 0 <= j < |page|
      ensures !NewLatest(r.entries, page[j], floor2)
    {
      assert page[j] in page;
    }
    MergeFoldProducerUnchanged(again, page, floor2);
    // Every slot keeps the block the first merge left.
    forall s
      ensures Get(st2.entries, s) == Get(r.entries, s)
    {
      GetSameMembers(st.entries, r.entries, s);
      GetFold(st0, page, ProducerFloor(prev), s);
      GetFold(again, page, floor2, s);
      FoldAtIdem(Get(st0.entries, s), page, s);
    }
    forall x
      ensures x in SortDesc(st2.entries) <==> x in r.entries
    {
      assert Get(st2.entries, x.slot) == Get(r.entries, x.slot);
    }
    SortDescStrict(st2.entries);
    StrictlyDescendingUnique(SortDesc(st2.entries), r.entries);
  }


  // ---------------------------------------------------------------------------
  // Append ("load more" at a non-zero offset)
  // ---------------------------------------------------------------------------

  /** `page.filter(b => !existingSlots.has(b.slot))`. */
  function UniqueNewBlocks(prev: seq<Block>, page: seq<Block>): (r: seq<Block>)
    ensures forall b :: b in r <==> b in page && b.slot !in Slots(prev)
    ensures |r| <= |page|
  {
    if page == [] then []
    else
      assert page == [page[0]] + page[1..];
      (if page[0].slot in Slots(prev) then [] else [page[0]]) + UniqueNewBlocks(prev, page[1..])
  }

  /** A page none of whose slots is stored is appended whole, in its own order. */
  lemma {:induction false} UniqueNewBlocksAllNew(prev: seq<Block>, page: seq<Block>)
    requires Slots(page) !! Slots(prev)
    ensures UniqueNewBlocks(prev, page) == page
  {
    if page != [] {
      assert page[0].slot in Slots(page);
      assert Slots(page[1..]) <= Slots(page) by {
        forall s | s in Slots(page[1..]) ensures s in Slots(page) {
          var b :| b in page[1..] && b.slot == s;
          assert b in page;
        }
      }
      UniqueNewBlocksAllNew(prev, page[1..]);
      assert page == [page[0]] + page[1..];
    }
  }

  /** The filter keeps page order: filtering two parts of a page one after the other is filtering the whole. */
  lemma {:induction false} UniqueNewBlocksConcat(prev: seq<Block>, p: seq<Block>, q: seq<Block>)
    ensures UniqueNewBlocks(prev, p + q) == UniqueNewBlocks(prev, p) + UniqueNewBlocks(prev, q)
  {
    if p == [] {
      assert p + q == q;
    } else {
      assert (p + q)[0] == p[0];
      assert (p + q)[1..] == p[1..] + q;
      UniqueNewBlocksConcat(prev, p[1..], q);
    }
  }

  /** The last element of a non-empty list. */
  function Last(s: seq<Block>): Block
    requires s != []
  {
    s[|s| - 1]
  }

  /** `page[k]` has an unseen slot and every page block after it has a stored one. */
  predicate LastUnseenAt(prev: seq<Block>, page: seq<Block>, k: int)
  {
    0 <= k < |page| && page[k].slot !in Slots(prev) &&
    forall j :: k < j < |page| ==> page[j].slot in Slots(prev)
  }

  /** A single block is kept exactly when its slot is not stored. */
  lemma UniqueNewBlocksSingle(prev: seq<Block>, b: Block)
    ensures UniqueNewBlocks(prev, [b]) == if b.slot in Slots(prev) then [] else [b]
  {
    assert [b][1..] == [];
  }

  /**
   * The last block kept from a page is the last page block whose slot is not
   * stored. This is the block whose slot the low-water mark reads.
   */
  lemma {:induction false} UniqueNewBlocksLast(prev: seq<Block>, page: seq<Block>)
    requires UniqueNewBlocks(prev, page) != []
    ensures exists k :: LastUnseenAt(prev, page, k) && page[k] == Last(UniqueNewBlocks(prev, page))
  {
    assert page != [];
    var init, last := page[..|page| - 1], page[|page| - 1];
    assert page == init + [last];
    UniqueNewBlocksConcat(prev, init, [last]);
    UniqueNewBlocksSingle(prev, last);
    var r := UniqueNewBlocks(prev, page);
    if last.slot !in Slots(prev) {
      assert r == UniqueNewBlocks(prev, init) + [last];
      assert LastUnseenAt(prev, page, |page| - 1);
    } else {
      assert r == UniqueNewBlocks(prev, init);
      UniqueNewBlocksLast(prev, init);
      var k :| LastUnseenAt(prev, init, k) && init[k] == Last(r);
      LastUnseenSnoc(prev, init, last, k);
    }
  }

  /** Appending a block of a stored slot keeps the last unseen position. */
  lemma LastUnseenSnoc(prev: seq<Block>, init: seq<Block>, last: Block, k: int)
    requires LastUnseenAt(prev, init, k) && last.slot in Slots(prev)
    ensures LastUnseenAt(prev, init + [last], k) && (init + [last])[k] == init[k]
  {
    var page := init + [last];
    forall j | k < j < |page| ensures page[j].slot in Slots(prev) {
      if j < |init| {
        assert page[j] == init[j];
      }
    }
  }

  /** `[...prev, ...uniqueNewBlocks]`: the raw list after a "load more" page. */
  function AppendPage(prev: seq<Block>, page: seq<Block>): (r: seq<Block>)
    ensures |r| >= |prev| && r[..|prev|] == prev
    ensures r[|prev|..] == UniqueNewBlocks(prev, page)
    ensures forall b :: b in r[|prev|..] <==> b in page && b.slot !in Slots(prev)
    ensures Slots(r) == Slots(prev) + Slots(page)
  {
    var unique := UniqueNewBlocks(prev, page);
    var r := prev + unique;
    assert r[..|prev|] == prev && r[|prev|..] == unique;
    assert Slots(r) == Slots(prev) + Slots(page) by {
      forall s | s in Slots(page) ensures s in Slots(r) {
        var b :| b in page && b.slot == s;
        if s !in Slots(prev) {
          assert b in unique;
        }
      }
    }
    r
  }

  /** A page all of whose slots are stored contributes nothing new. */
  lemma {:induction false} UniqueNewBlocksNoneNew(prev: seq<Block>, page: seq<Block>)
    requires forall b :: b in page ==> b.slot in Slots(prev)
    ensures UniqueNewBlocks(prev, page) == []
  {
    if page != [] {
      assert page[0] in page;
      assert forall b :: b in page[1..] ==> b in page;
      UniqueNewBlocksNoneNew(prev, page[1..]);
    }
  }

  /** Loading the same older page again appends nothing. */
  lemma AppendPageIdempotent(prev: seq<Block>, page: seq<Block>)
    ensures AppendPage(AppendPage(prev, page), page) == AppendPage(prev, page)
  {
    var r := AppendPage(prev, page);
    assert forall b :: b in page ==> b.slot in Slots(r);
    UniqueNewBlocksNoneNew(r, page);
    assert AppendPage(r, page) == r + [];
  }

  /** An append keeps every block the view showed before it. */
  lemma AppendPageKeepsView(prev: seq<Block>, page: seq<Block>)
    ensures forall b :: b in View(prev) ==> b in View(AppendPage(prev, page))
  {
    var r := AppendPage(prev, page);
    ViewKeepsLast(prev);
    ViewKeepsLast(r);
    forall b | b in View(prev)
      ensures b in View(r)
    {
      var i :| 0 <= i < |prev| && prev[i] == b && LastOfSlot(prev, i);
      assert r[i] == b;
      forall j | i < j < |r| ensures r[j].slot != b.slot {
        if j >= |prev| {
          assert r[j] in r[|prev|..];
        } else {
          assert r[j] == prev[j];
        }
      }
      assert LastOfSlot(r, i);
    }
  }

  /** The low-water mark after an append: the last added block's slot, or the smaller of it and the current mark. */
  function LowestAfterAppend(current: Option<int>, added: seq<Block>): (r: Option<int>)
    ensures added == [] ==> r == current
    ensures added != [] ==> r.Some? && r.value <= added[|added| - 1].slot
    ensures added != [] && current.Some? ==> r.value <= current.value
    ensures r.Some? ==> (current.Some? && r.value == current.value) ||
                        (added != [] && r.value == added[|added| - 1].slot)
  {
    if added == [] then current
    else
      var newLowest := added[|added| - 1].slot;
      match current
      case None => Some(newLowest)
      case Some(c) => Some(Min(c, newLowest))
  }
}
