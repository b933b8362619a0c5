/**
 * The shared client state of the explorer: the cells of lib/atoms.ts together
 * with the refs that components/dashboard.tsx (`isFirstLoad`) and
 * components/block-list.tsx (`loadMoreTriggered`) keep across renders, and the
 * handlers that update them step by step. Each asynchronous handler is split at
 * its `await`: the network answer is a parameter of the second half.
 */
module Explorer {
  import opened Types
  import opened SlotMap
  import opened SlotOrder
  import opened Atoms
  import opened Dashboard
  import opened Websocket
  import opened BlockList

  class ExplorerState {
    // Cells of lib/atoms.ts.
    var rawBlocks: seq<Block>
    var blocksLoading: bool
    var latestProducer: Option<int>
    var currentOffset: int
    var hasMoreBlocks: bool
    var isLoadingMore: bool
    var initialLoadComplete: bool
    var showSkippedSlots: bool
    var displayCount: nat
    var lowestFetchedSlot: Option<int>
    var nonFinalizedSlots: set<int>
    // Refs of the dashboard and the block list.
    var isFirstLoad: bool
    var loadMoreTriggered: bool

    /** `displayCount` starts at 50 and only grows. */
    ghost predicate Valid()
      reads this`displayCount
    {
      displayCount >= InitialDisplayCount
    }

    /** What every reader of `blocksAtom` sees. */
    function Blocks(): seq<Block>
      reads this`rawBlocks
    {
      View(rawBlocks)
    }

    /** `filteredBlocks` of the block list. */
    function FilteredBlocks(): seq<Block>
      reads this`rawBlocks, this`showSkippedSlots
    {
      Filtered(Blocks(), showSkippedSlots)
    }

    /**
     * `displayBlocks`: the first `displayCount` filtered blocks, highest slot
     * first. As `displayCount` never drops below 50, the first 50 filtered
     * blocks, or all of them if fewer, are always among them.
     */
    function DisplayBlocks(): (r: seq<Block>)
      reads this`rawBlocks, this`showSkippedSlots, this`displayCount
      ensures Valid() ==> |r| >= Min(InitialDisplayCount, |FilteredBlocks()|)
      ensures StrictlyDescending(r)
      ensures |r| <= |FilteredBlocks()|
      ensures forall i :: 0 <= i < |r| ==> r[i] == FilteredBlocks()[i]
    {
      Displayed(FilteredBlocks(), displayCount)
    }

    /** The initial values of the cells and refs. */
    constructor ()
      ensures Valid()
      ensures rawBlocks == [] && Blocks() == []
      ensures displayCount == InitialDisplayCount && hasMoreBlocks && lowestFetchedSlot == None
      ensures blocksLoading && !isLoadingMore && !initialLoadComplete
      ensures latestProducer == None && currentOffset == 0 && !showSkippedSlots
      ensures nonFinalizedSlots == {} && isFirstLoad && !loadMoreTriggered
    {
      rawBlocks := [];
      blocksLoading := true;
      latestProducer := None;
      currentOffset := 0;
      hasMoreBlocks := true;
      isLoadingMore := false;
      initialLoadComplete := false;
      showSkippedSlots := false;
      displayCount := InitialDisplayCount;
      lowestFetchedSlot := None;
      nonFinalizedSlots := {};
      isFirstLoad := true;
      loadMoreTriggered := false;
    }

    /** `fetchBlocks` up to its `await`: raise the loading flag of the kind of fetch. */
    method BeginFetchBlocks(append: bool)
      requires Valid()
      modifies this`blocksLoading, this`isLoadingMore
      ensures Valid()
      ensures blocksLoading == (if append then old(blocksLoading) else true)
      ensures isLoadingMore == (if append then true else old(isLoadingMore))
    {
      if !append {
        blocksLoading := true;
      } else {
        isLoadingMore := true;
      }
    }

    /**
     * `fetchBlocks` after its `await`: fold the page in (first load, head
     * merge or append), record `hasMore`, and in every case clear both loading
     * flags and mark the initial load complete.
     */
    method SettleFetchBlocks(offset: int, append: bool, result: FetchResult)
      requires Valid()
      modifies this`rawBlocks, this`latestProducer, this`currentOffset, this`hasMoreBlocks
      modifies this`lowestFetchedSlot, this`isFirstLoad
      modifies this`blocksLoading, this`isLoadingMore, this`initialLoadComplete
      ensures Valid()
      ensures !blocksLoading && !isLoadingMore && initialLoadComplete
      // A failed fetch changes nothing but the flags.
      ensures result.FetchFailed? ==>
        && rawBlocks == old(rawBlocks) && hasMoreBlocks == old(hasMoreBlocks)
        && lowestFetchedSlot == old(lowestFetchedSlot) && latestProducer == old(latestProducer)
        && isFirstLoad == old(isFirstLoad) && currentOffset == old(currentOffset)
      ensures result.Fetched? ==> hasMoreBlocks == PageHasMore(result.blocks)
      // The first head load replaces the list wholesale.
      ensures result.Fetched? && offset == 0 && !append && old(isFirstLoad) ==>
        && rawBlocks == result.blocks && !isFirstLoad
        && lowestFetchedSlot == (if result.blocks == [] then old(lowestFetchedSlot)
                                 else Some(result.blocks[|result.blocks| - 1].slot))
        && latestProducer == old(latestProducer) && currentOffset == old(currentOffset)
      // Later head polls merge and never delete.
      ensures result.Fetched? && offset == 0 && !append && !old(isFirstLoad) ==>
        && MergeState(rawBlocks, latestProducer) == HeadMergeResult(old(rawBlocks), result.blocks, old(latestProducer))
        && isFirstLoad == old(isFirstLoad) && lowestFetchedSlot == old(lowestFetchedSlot)
        && currentOffset == old(currentOffset)
      // "Load more" appends the blocks of unseen slots.
      ensures result.Fetched? && append ==>
        && rawBlocks == AppendPage(old(rawBlocks), result.blocks)
        && lowestFetchedSlot == LowestAfterAppend(old(lowestFetchedSlot), UniqueNewBlocks(old(rawBlocks), result.blocks))
        && currentOffset == offset
        && latestProducer == old(latestProducer) && isFirstLoad == old(isFirstLoad)
      // A non-append fetch at another offset only records `hasMore`.
      ensures result.Fetched? && offset != 0 && !append ==>
        && rawBlocks == old(rawBlocks) && lowestFetchedSlot == old(lowestFetchedSlot)
        && latestProducer == old(latestProducer) && isFirstLoad == old(isFirstLoad)
        && currentOffset == old(currentOffset)
    {
      blocksLoading := false;
      isLoadingMore := false;
      initialLoadComplete := true;
      if result.Fetched? {
        var newBlocks := result.blocks;
        var hasMore := PageHasMore(newBlocks);
        if offset == 0 && !append {
          if isFirstLoad {
            LoadFirstPage(newBlocks);
          } else {
            MergeHeadPage(newBlocks);
          }
        } else if append {
          AppendOlderPage(offset, newBlocks);
        }
        hasMoreBlocks := hasMore;
      }
    }

    /** The first head page replaces the raw list and sets the low-water mark to its last slot. */
    method LoadFirstPage(page: seq<Block>)
      modifies this`rawBlocks, this`lowestFetchedSlot, this`isFirstLoad
      ensures rawBlocks == page && !isFirstLoad
      ensures lowestFetchedSlot == (if page == [] then old(lowestFetchedSlot) else Some(page[|page| - 1].slot))
    {
      rawBlocks := page;
      if |page| > 0 {
        lowestFetchedSlot := Some(page[|page| - 1].slot);
      }
      isFirstLoad := false;
    }

    /** A later head page goes through the merge updater, which also moves the latest producer. */
    method MergeHeadPage(page: seq<Block>)
      modifies this`rawBlocks, this`latestProducer
      ensures MergeState(rawBlocks, latestProducer) == HeadMergeResult(old(rawBlocks), page, old(latestProducer))
    {
      rawBlocks, latestProducer := HeadMerge(rawBlocks, page, latestProducer);
    }

    /** An older page is appended through the append updater, which also lowers the low-water mark. */
    method AppendOlderPage(offset: int, page: seq<Block>)
      modifies this`rawBlocks, this`lowestFetchedSlot, this`currentOffset
      ensures rawBlocks == AppendPage(old(rawBlocks), page)
      ensures lowestFetchedSlot == LowestAfterAppend(old(lowestFetchedSlot), UniqueNewBlocks(old(rawBlocks), page))
      ensures currentOffset == offset
    {
      var uniqueNewBlocks := UniqueNewBlocks(rawBlocks, page);
      lowestFetchedSlot := LowestAfterAppend(lowestFetchedSlot, uniqueNewBlocks);
      rawBlocks := AppendPage(rawBlocks, page);
      currentOffset := offset;
    }

    /**
     * The dashboard's `loadMoreBlocks` listener: start an append fetch at the
     * current view length, the offset that the second half must be given.
     */
    method HandleLoadMore() returns (offset: nat)
      requires Valid()
      modifies this`blocksLoading, this`isLoadingMore
      ensures Valid()
      ensures offset == |Blocks()|
      ensures isLoadingMore && blocksLoading == old(blocksLoading)
    {
      offset := |Blocks()|;
      BeginFetchBlocks(true);
    }

    /** `updateBlockStatus`: overwrite the update's slot in the raw list and drop it from the pending set if settled. */
    method UpdateBlockStatus(u: Block)
      requires Valid()
      modifies this`rawBlocks, this`nonFinalizedSlots
      ensures Valid()
      ensures rawBlocks == UpdateSlot(old(rawBlocks), u)
      ensures nonFinalizedSlots == AfterStatusUpdate(old(nonFinalizedSlots), u)
      ensures forall b :: b in Blocks() <==>
        (b == u && u.slot in Slots(old(rawBlocks))) || (b in old(Blocks()) && b.slot != u.slot)
    {
      var updated := UpdateSlot(rawBlocks, u);
      ViewAfterUpdate(rawBlocks, u);
      rawBlocks := updated;
      nonFinalizedSlots := AfterStatusUpdate(nonFinalizedSlots, u);
    }

    /** `ws.onmessage`: only an `update_slot` message with a payload reaches `updateBlockStatus`. */
    method OnMessage(msg: Message)
      requires Valid()
      modifies this`rawBlocks, this`nonFinalizedSlots
      ensures Valid()
      ensures SlotUpdateOf(msg).None? ==>
        rawBlocks == old(rawBlocks) && nonFinalizedSlots == old(nonFinalizedSlots)
      ensures SlotUpdateOf(msg).Some? ==>
        && rawBlocks == UpdateSlot(old(rawBlocks), SlotUpdateOf(msg).value)
        && nonFinalizedSlots == AfterStatusUpdate(old(nonFinalizedSlots), SlotUpdateOf(msg).value)
    {
      var update := SlotUpdateOf(msg);
      if update.Some? {
        UpdateBlockStatus(update.value);
      }
    }

    /** The effect that rebuilds `nonFinalizedSlots` from the view whenever the view changes. */
    method RecomputeNonFinalizedSlots()
      requires Valid()
      modifies this`nonFinalizedSlots
      ensures Valid()
      ensures forall s :: s in nonFinalizedSlots <==>
        exists b :: b in Blocks() && b.slot == s && !Settled(b)
    {
      nonFinalizedSlots := NonFinalizedSlots(Blocks());
    }

    /** The "Show skipped slots" switch. */
    method SetShowSkippedSlots(show: bool)
      requires Valid()
      modifies this`showSkippedSlots
      ensures Valid()
      ensures showSkippedSlots == show
    {
      showSkippedSlots := show;
    }

    /** The observer acts only on an intersecting sentinel while no fetch is in flight. */
    function Ready(isIntersecting: bool): (r: bool)
      reads this`isLoadingMore, this`blocksLoading
      ensures r ==> !isLoadingMore && !blocksLoading
      ensures r <==> isIntersecting && !(isLoadingMore || blocksLoading)
    {
      isIntersecting && !isLoadingMore && !blocksLoading
    }

    /**
     * `handleObserver`: when the sentinel intersects and nothing is loading,
     * reveal up to 20 more fetched blocks, or else ask once for more from the
     * API (the caller then runs `HandleLoadMore`, as the synchronous event
     * dispatch does, and the timer is scheduled).
     */
    method ObserverTrigger(isIntersecting: bool, filteredLength: nat) returns (loadMore: bool)
      requires Valid()
      requires filteredLength == |FilteredBlocks()|
      modifies this`displayCount, this`loadMoreTriggered
      ensures Valid()
      ensures loadMore <==>
        Ready(isIntersecting) && NeedsMoreFromApi(old(displayCount), filteredLength, hasMoreBlocks) && !old(loadMoreTriggered)
      ensures loadMore ==> loadMoreTriggered && displayCount == old(displayCount)
      ensures !loadMore ==> loadMoreTriggered == old(loadMoreTriggered)
      ensures Ready(isIntersecting) && CanShowMore(old(displayCount), filteredLength) ==>
        displayCount == Revealed(old(displayCount), filteredLength)
      ensures !(Ready(isIntersecting) && CanShowMore(old(displayCount), filteredLength)) ==>
        displayCount == old(displayCount)
      ensures old(displayCount) <= displayCount <= Max(old(displayCount), filteredLength)
    {
      loadMore := false;
      if Ready(isIntersecting) {
        if CanShowMore(displayCount, filteredLength) {
          displayCount := Revealed(displayCount, filteredLength);
        } else if NeedsMoreFromApi(displayCount, filteredLength, hasMoreBlocks) && !loadMoreTriggered {
          loadMoreTriggered := true;
          loadMore := true;
        }
      }
    }

    /** The timer scheduled with a load-more request fires: clear the ref and show 20 more. */
    method TimerFires()
      requires Valid()
      requires loadMoreTriggered
      modifies this`displayCount, this`loadMoreTriggered
      ensures Valid()
      ensures !loadMoreTriggered
      ensures displayCount == old(displayCount) + RevealStep
    {
      loadMoreTriggered := false;
      displayCount := displayCount + RevealStep;
    }
  }
}
