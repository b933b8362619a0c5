/**
 * The list logic of components/block-list.tsx: the skip filter, the displayed
 * prefix, the two mutually exclusive "more" decisions and the conditions for
 * the scroll sentinel and the end-of-list line. The observer callback and its
 * timer, which change state, are methods of the class in explorer.dfy.
 */
module BlockList {
  import opened Types
  import opened SlotOrder

  /** How far one reveal or one settled load-more moves `displayCount`. */
  const RevealStep: nat := 20

  /** `hash.slice(0, 6) + "..." + hash.slice(-4)`, with JavaScript's clamping of slice bounds. */
  function TruncateHash(hash: string): (r: string)
    ensures |r| == Min(6, |hash|) + 3 + Min(4, |hash|)
    ensures |hash| >= 10 ==> |r| == 13
    ensures r[..Min(6, |hash|)] == hash[..Min(6, |hash|)]
    ensures r[Min(6, |hash|)..Min(6, |hash|) + 3] == "..."
    ensures r[|r| - Min(4, |hash|)..] == hash[|hash| - Min(4, |hash|)..]
  {
    var head := hash[..Min(6, |hash|)];
    var tail := hash[Max(|hash| - 4, 0)..];
    head + "..." + tail
  }

  /** The non-skip blocks of a list, in their order. */
  function WithoutSkips(blocks: seq<Block>): (r: seq<Block>)
    ensures forall b :: b in r <==> b in blocks && b.kind != Skip
    ensures |r| <= |blocks|
    ensures StrictlyDescending(blocks) ==> StrictlyDescending(r)
  {
    if blocks == [] then []
    else
      var rest := WithoutSkips(blocks[1..]);
      assert forall b :: b in rest ==> b in blocks[1..];
      if blocks[0].kind == Skip then rest else [blocks[0]] + rest
  }

  /** `filteredBlocks`: the view itself, or its non-skip blocks when skipped slots are hidden. */
  function Filtered(view: seq<Block>, showSkipped: bool): (r: seq<Block>)
    ensures showSkipped ==> r == view
    ensures !showSkipped ==> forall b :: b in r <==> b in view && b.kind != Skip
    ensures StrictlyDescending(view) ==> StrictlyDescending(r)
    ensures |r| <= |view|
  {
    if showSkipped then view else WithoutSkips(view)
  }

  /** A list without skips loses nothing to the filter. */
  lemma {:induction false} WithoutSkipsOfNoSkips(blocks: seq<Block>)
    requires forall i :: 0 <= i < |blocks| ==> blocks[i].kind != Skip
    ensures WithoutSkips(blocks) == blocks
  {
    if blocks != [] {
      WithoutSkipsOfNoSkips(blocks[1..]);
      assert blocks == [blocks[0]] + blocks[1..];
    }
  }

  /** `filteredBlocks.slice(0, displayCount)`. */
  function Displayed(filtered: seq<Block>, displayCount: nat): (r: seq<Block>)
    ensures |r| == Min(displayCount, |filtered|)
    ensures forall i :: 0 <= i < |r| ==> r[i] == filtered[i]
  {
    filtered[..Min(displayCount, |filtered|)]
  }

  /** `canShowMore`: the displayed prefix leaves some filtered block out. */
  function CanShowMore(displayCount: nat, filteredLength: nat): (r: bool)
    ensures r <==> Min(displayCount, filteredLength) < filteredLength
    ensures !r ==> Min(displayCount, filteredLength) == filteredLength
  {
    displayCount < filteredLength
  }

  /** `needsMoreFromAPI`: everything fetched is shown and the API may have more. */
  function NeedsMoreFromApi(displayCount: nat, filteredLength: nat, hasMore: bool): (r: bool)
    ensures r ==> !CanShowMore(displayCount, filteredLength)
    ensures r <==> hasMore && !CanShowMore(displayCount, filteredLength)
  {
    displayCount >= filteredLength && hasMore
  }

  /** The new `displayCount` of a reveal: `Math.min(prev + 20, filteredBlocks.length)`. */
  function Revealed(displayCount: nat, filteredLength: nat): (r: nat)
    requires CanShowMore(displayCount, filteredLength)
    ensures displayCount < r <= filteredLength
    ensures r <= displayCount + RevealStep
    ensures r == displayCount + RevealStep || r == filteredLength
  {
    Min(displayCount + RevealStep, filteredLength)
  }

  /** The scroll sentinel is rendered: `canShowMore || (needsMoreFromAPI && hasMore)`. */
  function ShowsSentinel(displayCount: nat, filteredLength: nat, hasMore: bool): (r: bool)
    ensures r <==> CanShowMore(displayCount, filteredLength) || NeedsMoreFromApi(displayCount, filteredLength, hasMore)
  {
    CanShowMore(displayCount, filteredLength) || (NeedsMoreFromApi(displayCount, filteredLength, hasMore) && hasMore)
  }

  /** The "No more blocks to load" line is rendered. */
  function ShowsEndOfList(displayCount: nat, filteredLength: nat, hasMore: bool): (r: bool)
    ensures r ==> !ShowsSentinel(displayCount, filteredLength, hasMore)
    ensures r ==> displayCount >= filteredLength > 0
    ensures !ShowsSentinel(displayCount, filteredLength, hasMore) && Min(displayCount, filteredLength) > 0 ==> r
  {
    !hasMore && !CanShowMore(displayCount, filteredLength) && Min(displayCount, filteredLength) > 0
  }
}
