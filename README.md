# Block-list reconciliation of the TheBunkerCoin explorer

This project models how the explorer's web client keeps its list of recent
blocks. Blocks reach the client in two ways:

- **Pull.** `GET /blocks?offset&limit=20` is polled every second for the head of the chain. A "load more" request fetches older pages.
- **Push.** `update_slot` messages arrive over a WebSocket.

Both paths write one shared cell, the raw block list. Every reader sees that
list through a derived view: one block per slot, and where a slot repeats the
later block wins, sorted by slot from the highest down. The block list
component shows a prefix of that view. It can hide skipped slots. An
intersection observer either reveals more of the prefix or asks the dashboard
for an older page.

The modules follow the source files:

- `types.dfy` (`Types`): the `Block` record of `lib/types.ts`.
- `slot_map.dfy` (`SlotMap`): a JavaScript `Map` keyed by slot. It is a list with one block per slot, kept in insertion order. `set` overwrites in place or appends.
- `slot_order.dfy` (`SlotOrder`): `sort((a, b) => b.slot - a.slot)`, written as an insertion sort.
- `atoms.dfy` (`Atoms`): the read side of `blocksAtom`.
- `dashboard.dfy` (`Dashboard`):
  - the three ways `fetchBlocks` folds a page into the raw list (first load, head merge, append);
  - the head merge's `forEach` as a loop, proved against a fold;
  - the latest-producer rule;
  - the low-water mark.
- `websocket.dfy` (`Websocket`):
  - `onmessage` and `updateBlockStatus`;
  - the effect that recomputes the non-finalized slots, as a loop.
- `block_list.dfy` (`BlockList`): the skip filter, the displayed prefix, `canShowMore`, `needsMoreFromAPI`, the reveal step, the sentinel and end-of-list conditions, and `truncateHash`.
- `explorer.dfy` (`Explorer`): the class `ExplorerState`.
  - Its fields are the cells of `lib/atoms.ts` that the core writes, plus the refs `isFirstLoad` and `loadMoreTriggered`.
  - Its methods are the handlers that update them step by step.
  - `fetchBlocks` is split at its `await`. `BeginFetchBlocks` raises the loading flag. `SettleFetchBlocks` takes the API's answer, a page or a failure, as a parameter.

Points where the code may surprise a reader:

- A status update is never checked against the stored status. A WebSocket update overwrites the stored block whatever its status, so a finalized block can go back to `pending`.
- A WebSocket update for a slot that is not stored is dropped. It is never inserted.
- Nothing in these files writes `highestFinalizedSlotAtom` or `recentlyFinalizedBlocksAtom` (lib/atoms.ts:47, 53). Both are only read: for the LATEST badge (components/block-list.tsx:153) and for the producer flash (components/node-status.tsx:17). The model has neither.
- The head merge replaces a stored block only when its status or its type differs. A stored block that differs only in hash, producer or timestamps is kept.

## Model

| member | source | states |
|---|---|---|
| `SlotMap.Get` | components/dashboard.tsx:66 | `map.get(slot)`: it is absent exactly when no stored block has the slot. When present it is a stored block with that slot, and in a map it is the only one. |
| `SlotMap.Set` | components/dashboard.tsx:69 | `map.set(b.slot, b)` keeps one block per slot and adds `b`'s slot. Afterwards the map holds `b` and every stored block of another slot, and nothing else. A new slot is appended at the end. |
| `SlotMap.FromList` | lib/atoms.ts:9-13 | Building a `Map` from a list gives one block per slot, with the list's slots and no more entries than the list. |
| `SlotMap.FromListKeepsLast` | lib/atoms.ts:11-13 | The `Map` built from a list holds a block exactly when it is the last block of the list with its slot. |
| `SlotMap.FromListOfDistinct` | components/dashboard.tsx:63 | A list with one block per slot is its own `Map`, in the same order. |
| `SlotOrder.Insert` | lib/atoms.ts:15 | Inserting into a list ordered by descending slot keeps it ordered. The result holds the old blocks and the new one and is one longer. |
| `SlotOrder.InsertPermutation` | lib/atoms.ts:15 | Insertion adds exactly one copy of the block: as multisets, the result is the input plus the block. |
| `SlotOrder.SortDesc` | lib/atoms.ts:15 | The sort orders by descending slot and keeps the same members and the same length. |
| `SlotOrder.SortDescPermutation` | components/dashboard.tsx:82 | The sort is a permutation of its input. |
| `SlotOrder.InsertStrict` | lib/atoms.ts:15 | Inserting a block of a new slot into a strictly ordered list keeps it strictly ordered. |
| `SlotOrder.SortDescStrict` | lib/atoms.ts:15 | Sorting a list with one block per slot orders it strictly by slot. |
| `SlotOrder.SortDescOfSorted` | lib/atoms.ts:15 | Sorting a list that is already ordered returns it unchanged. |
| `SlotOrder.StrictlyDescendingUnique` | lib/atoms.ts:15 | Two strictly ordered lists with the same members are equal. |
| `Atoms.View` | lib/atoms.ts:7-16 | The view every reader sees is strictly ordered by slot. It has one block per slot, exactly the raw list's slots, and is no longer than the raw list. |
| `Atoms.ViewKeepsLast` | lib/atoms.ts:11-13 | A block is in the view exactly when it is the last raw block with its slot. |
| `Atoms.ViewOfStrictlyDescending` | lib/atoms.ts:7-16 | A raw list that is already strictly ordered by slot is its own view. |
| `Atoms.ViewIdempotent` | lib/atoms.ts:7-16 | Viewing the view gives the view again. |
| `Atoms.ViewDeterminedByMembers` | lib/atoms.ts:7-16 | Two raw lists whose views hold the same blocks have identical views, order included. |
| `Dashboard.PageHasMore` | lib/api.ts:11 | With the limit of 20 passed at components/dashboard.tsx:51, `hasMore` holds exactly for a full page of 20 blocks. A full page says there may be more. A short page, the empty page included, means the end. |
| `Dashboard.ProducerFloor` | components/dashboard.tsx:71 | The floor is 0 for an empty raw list, otherwise the first raw block's slot. On a raw list ordered by slot, no stored block lies above it. |
| `Dashboard.MergeStep` | components/dashboard.tsx:65-80 | One `forEach` iteration of the head merge keeps the map at one block per slot. |
| `Dashboard.MergeFold` | components/dashboard.tsx:65-80 | The whole `forEach` over the page keeps the map at one block per slot. |
| `Dashboard.MergeBlock` | components/dashboard.tsx:65-80 | The callback method follows the source's branches. A new slot is set, and its producer becomes the latest when the block lies above the floor, is a produced block and carries a producer. A stored slot is overwritten only when status or type differ. The new map and producer are exactly one fold step, and the map stays one block per slot. |
| `Dashboard.HeadMerge` | components/dashboard.tsx:62-83 | The head-merge updater, built from the raw list, looped over the page and sorted, returns the fold's result. That result is strictly ordered by slot and holds the stored slots and the page's slots. |
| `Dashboard.HeadMergeShape` | components/dashboard.tsx:82 | The merged list is strictly ordered by slot. Its slots are the previous slots plus the page's slots, so the merge never deletes. |
| `Dashboard.MergeStepOtherSlot` | components/dashboard.tsx:65-80 | One iteration leaves every other slot's entry as it was. |
| `Dashboard.MergeStepSlots` | components/dashboard.tsx:65-80 | One iteration adds the block's slot and drops none. |
| `Dashboard.MergeFoldSlots` | components/dashboard.tsx:65-80 | After the whole page the map's slots are the stored slots plus the page's slots. |
| `Dashboard.MergeFoldUntouched` | components/dashboard.tsx:65-80 | A slot the page does not mention keeps its stored entry. |
| `Dashboard.MergeFoldAtPageSlot` | components/dashboard.tsx:66-79 | On a page with one block per slot, each page slot ends with one of two blocks. A new slot ends with the page's block. A stored block that agrees in status and type is kept. Otherwise the page's block replaces it. |
| `Dashboard.MergeStepProducer` | components/dashboard.tsx:68-75 | One iteration moves the latest producer exactly when the block is new, above the raw list's first slot (0 for an empty list), of type block and attributed. |
| `Dashboard.MergeFoldProducerSource` | components/dashboard.tsx:71-75 | After the merge the latest producer is either unchanged or the producer of a page block that was new and above the floor. |
| `Dashboard.MergeFoldProducerLast` | components/dashboard.tsx:65-80 | On a page with one block per slot, the latest producer ends as the producer of the last page block that is new, above the floor, produced and attributed. |
| `Dashboard.MergeFoldProducerUnchanged` | components/dashboard.tsx:71-75 | A page with no such block leaves the latest producer as it was. |
| `Dashboard.HeadMergeAgainstView` | components/dashboard.tsx:62-83 | Measured against the view before the merge, on a page with one block per slot: every view block whose slot the page does not mention survives. At a page slot the view's block survives exactly when it agrees with the page's block in status and type. Otherwise the page's block takes its place. |
| `Dashboard.MergeStepAt` | components/dashboard.tsx:66-79 | One iteration leaves at its block's slot the page block, or the stored block when that agrees in status and type. |
| `Dashboard.GetFold` | components/dashboard.tsx:65-80 | For any page, repeated slots included, the merge leaves at each slot what folding that slot's page blocks, in page order, over the stored entry gives. |
| `Dashboard.MergedAtClass` | components/dashboard.tsx:76-79 | After an iteration, the entry at the block's slot always has the page block's status and type. |
| `Dashboard.FoldAtUntouched` | components/dashboard.tsx:65-80 | Folding over a page with no block at a slot leaves that slot's entry alone. |
| `Dashboard.FoldAtClass` | components/dashboard.tsx:65-80 | At a slot the page has, the merged entry's status and type do not depend on the stored entry the merge started from. |
| `Dashboard.FoldAtIdem` | components/dashboard.tsx:65-80 | Folding a slot's page blocks a second time over the first outcome gives that outcome again. |
| `Dashboard.HeadMergeIdempotent` | components/dashboard.tsx:62-83 | Merging the same head page a second time changes neither the list nor the latest producer. This holds for every page, including one that repeats a slot. |
| `Dashboard.UniqueNewBlocks` | components/dashboard.tsx:87-88 | The blocks kept from an older page are exactly the page blocks whose slot is not yet stored, and there are no more of them than the page holds. |
| `Dashboard.UniqueNewBlocksAllNew` | components/dashboard.tsx:87-88 | A page none of whose slots is stored is kept whole, in its own order. |
| `Dashboard.UniqueNewBlocksNoneNew` | components/dashboard.tsx:87-88 | A page all of whose slots are stored contributes nothing. |
| `Dashboard.UniqueNewBlocksSingle` | components/dashboard.tsx:88 | A single page block is kept exactly when its slot is not stored. |
| `Dashboard.UniqueNewBlocksConcat` | components/dashboard.tsx:88 | The filter keeps page order and multiplicity: filtering `p + q` is filtering `p` followed by filtering `q`. With the single-block case this fixes the result completely. |
| `Dashboard.UniqueNewBlocksLast` | components/dashboard.tsx:88-91 | When something is kept, the last kept block is the last page block of an unseen slot: every page block after it has a stored slot. Its slot is the one the low-water mark reads. |
| `Dashboard.AppendPage` | components/dashboard.tsx:86-98 | An append keeps the old raw list as a prefix. After it comes exactly the filtered page, in page order. The slots become the old slots plus the page's slots. |
| `Dashboard.AppendPageIdempotent` | components/dashboard.tsx:86-98 | Appending the same older page twice appends nothing the second time. |
| `Dashboard.AppendPageKeepsView` | components/dashboard.tsx:86-98 | An append removes no block from the view. |
| `Dashboard.LowestAfterAppend` | components/dashboard.tsx:90-95 | With nothing new the low-water mark is unchanged. Otherwise it is set, and it is no higher than the last new slot or the previous mark. It equals one of the two. |
| `Websocket.SlotUpdateOf` | lib/websocket.ts:49-59 | A message reaches `updateBlockStatus` exactly when it parsed, its type is `update_slot` and it carries a payload. The payload is passed on unchanged. |
| `Websocket.UpdateSlot` | lib/websocket.ts:16-23 | The update keeps the raw list's length. It replaces every block with the update's slot by the update and leaves every other block as it was. |
| `Websocket.AfterStatusUpdate` | lib/websocket.ts:25-31 | A finalized or skipped update removes its slot from the non-finalized set. Any other update leaves the set alone. No other slot changes. |
| `Websocket.NonFinalizedSlots` | lib/websocket.ts:97-105 | The recompute loop collects exactly the slots of view blocks that are neither finalized nor skipped. |
| `Websocket.UpdateSlotNoInsert` | lib/websocket.ts:16-23 | An update for a slot that is not stored changes nothing. WebSocket updates never insert. |
| `Websocket.UpdateSlotIdempotent` | lib/websocket.ts:16-23 | Applying the same update twice equals applying it once. |
| `Websocket.UpdateSlotKeepsSlots` | lib/websocket.ts:16-23 | An update keeps the set of stored slots. |
| `Websocket.UpdateSlotLastOfSlot` | lib/websocket.ts:17-22 | An update moves no block's last-of-its-slot position. |
| `Websocket.ViewAfterUpdate` | lib/websocket.ts:15-23 | After an update, whatever the stored status was: if the slot was stored, the view holds the update at that slot. Every other view block is unchanged. |
| `Websocket.NonFinalizedAfterUpdate` | lib/websocket.ts:97-105 | For a stored slot, the recompute that follows an update agrees with the targeted delete. The slot stays pending exactly when the update is not settled, and no other slot changes. |
| `BlockList.TruncateHash` | components/block-list.tsx:13-15 | The result is the first six characters, `...`, and the last four, with `slice`'s clamping. A hash of at least ten characters gives 13 characters. |
| `BlockList.WithoutSkips` | components/block-list.tsx:70 | The filter keeps exactly the non-skip blocks and keeps strict order by slot. |
| `BlockList.WithoutSkipsOfNoSkips` | components/block-list.tsx:70 | A list without skips passes the filter unchanged. |
| `BlockList.Filtered` | components/block-list.tsx:68-70 | With skips shown the filtered list is the view itself. Otherwise it is exactly the view's non-skip blocks, still strictly ordered. |
| `BlockList.Displayed` | components/block-list.tsx:72 | The displayed list is the prefix of the filtered list of length `min(displayCount, length)`. |
| `BlockList.CanShowMore` | components/block-list.tsx:76 | More can be shown exactly when the displayed prefix, of length `min(displayCount, length)`, leaves some filtered block out. Otherwise the whole filtered list is displayed. |
| `BlockList.NeedsMoreFromApi` | components/block-list.tsx:74-76 | More is needed from the API exactly when the API may have more and no fetched block is left to reveal. It therefore never holds together with `canShowMore`. |
| `BlockList.Revealed` | components/block-list.tsx:82 | A reveal grows `displayCount` by at most 20, reaching either 20 more or the filtered length, and never beyond the filtered length. |
| `BlockList.ShowsSentinel` | components/block-list.tsx:188-189 | The condition written at lines 188-189 holds exactly when a block is left to reveal or more is needed from the API. The skeleton gate of line 128 is outside this condition. |
| `BlockList.ShowsEndOfList` | components/block-list.tsx:201-203 | The end-of-list condition holds only when the sentinel condition does not and every filtered block, at least one, is shown. Conversely, on a non-empty displayed list without the sentinel it holds. So on a non-empty displayed list exactly one of the two conditions holds. |
| `Explorer.ExplorerState.DisplayBlocks` | components/block-list.tsx:72 | The displayed blocks are a prefix of the filtered view and strictly ordered by slot. Because `displayCount` never drops below 50, at least the first 50 filtered blocks are shown, or all of them if there are fewer. |
| `Explorer.ExplorerState.constructor` | lib/atoms.ts:4-51 | The cells and refs start at their initial values: no blocks, loading, 50 to display, more to fetch, first load pending. |
| `Explorer.ExplorerState.BeginFetchBlocks` | components/dashboard.tsx:45-49 | A head fetch raises `blocksLoading` and an append fetch raises `isLoadingMore`. Nothing else changes. |
| `Explorer.ExplorerState.SettleFetchBlocks` | components/dashboard.tsx:51-109 | Both loading flags are cleared and the initial load is marked complete, whether the fetch failed or not. A failure changes nothing else. A page sets `hasMore` to whether it is full. The first head page replaces the list and sets the low-water mark to its last slot. A later head page goes through the head merge. A load-more page is appended, with the low-water mark lowered and the offset recorded. A non-append fetch at another offset changes only `hasMore`. |
| `Explorer.ExplorerState.LoadFirstPage` | components/dashboard.tsx:54-60 | The first head page replaces the raw list and clears `isFirstLoad`. A non-empty page sets the low-water mark to its last slot. |
| `Explorer.ExplorerState.MergeHeadPage` | components/dashboard.tsx:62-83 | The raw list and the latest producer become the head merge's result. |
| `Explorer.ExplorerState.AppendOlderPage` | components/dashboard.tsx:85-99 | The raw list becomes the append's result and the low-water mark moves by the new blocks. `currentOffset` is set to the fetch's offset. |
| `Explorer.ExplorerState.HandleLoadMore` | components/dashboard.tsx:141-144 | A load-more request fetches at the view's length as offset and raises `isLoadingMore`. |
| `Explorer.ExplorerState.UpdateBlockStatus` | lib/websocket.ts:15-32 | The raw list gets the slot overwrite and the non-finalized set the targeted delete. The view afterwards holds the update at a stored slot and is otherwise unchanged. |
| `Explorer.ExplorerState.OnMessage` | lib/websocket.ts:49-59 | A message other than an `update_slot` with a payload changes nothing. An `update_slot` message applies `updateBlockStatus` to its payload. |
| `Explorer.ExplorerState.RecomputeNonFinalizedSlots` | lib/websocket.ts:97-105 | After the recompute, the non-finalized set holds exactly the slots of the view's blocks that are neither finalized nor skipped. |
| `Explorer.ExplorerState.SetShowSkippedSlots` | components/block-list.tsx:119-123 | The switch sets `showSkippedSlots`. |
| `Explorer.ExplorerState.Ready` | components/block-list.tsx:80 | The observer acts only when the sentinel intersects and neither a head fetch nor a load-more fetch is in flight. |
| `Explorer.ExplorerState.ObserverTrigger` | components/block-list.tsx:78-93 | The observer acts only on an intersecting sentinel while nothing is loading. It then either reveals up to 20 more fetched blocks, or requests more from the API. It requests more exactly when more is needed and no request is pending, and marks the request pending. `displayCount` never shrinks and a reveal never passes the filtered length. |
| `Explorer.ExplorerState.TimerFires` | components/block-list.tsx:87-90 | The timer scheduled with a request clears the pending mark and adds 20 to `displayCount`, without clamping. |

## Left out

- Rendering is not part of this model: JSX, styling, animation, date formatting, the skeleton placeholders and the block-details dialog.
- The HTTP calls of `lib/api.ts` are not modelled. The only part kept is the `hasMore` rule, which is `PageHasMore`. A page, or a thrown error, is a parameter of `SettleFetchBlocks`.
- `fetchNodes`, the node list, the network statistics and the node status panel are not part of the block list.
- `totalBlocksCount` is left out. It is written once and never read.
- The WebSocket connection is left out: connect, `onopen`, `onerror`, `onclose`, the 3-second reconnect timer, `wsConnectedAtom` and `JSON.parse` itself. A message arrives already parsed, or as unparseable.
- Time is not modelled: the one-second poll interval, the 500 ms observer timer and the initial fetch on mount. Each firing is a method call, and the caller picks the order of calls.
- The `IntersectionObserver` object is not modelled. Its callback is `ObserverTrigger`, and the `loadMoreBlocks` event it dispatches is the caller running `HandleLoadMore`.
- React's scheduling is not modelled: effect ordering and batching of state updates. Closures that capture values from an earlier render are not modelled either; each handler reads the current state. In the source, `handleObserver` sees the render-time `canShowMore`, `needsMoreFromAPI`, `isLoadingMore`, `loading` and filtered length (components/block-list.tsx:93), which the model takes to be current.
- Interleaving of two fetches that are both waiting on their `await` is not modelled. Its effect can be reproduced by calling `BeginFetchBlocks` twice and then `SettleFetchBlocks` in either order.
- `highestFinalizedSlotAtom`, `recentlyFinalizedBlocksAtom` and `radioStatsAtom` are left out. No code in the modelled files writes them.
- ObserverTrigger: takes the filtered length as a parameter, equal to the length of the current filtered view. It does not re-derive it from the blocks at the moment the callback fires.
- SettleFetchBlocks: takes the page or a failure. `hasMore` is derived from the page's length, as lib/api.ts does. Decoding the response body is not modelled.
- JavaScript numbers are modelled as unbounded integers. Slots and timestamps never come near 2^53 in practice.
- ShowsSentinel: the list, and with it the sentinel and the end-of-list line, is replaced by a skeleton while `loading && !initialLoadComplete` (components/block-list.tsx:128). `ShowsSentinel` and `ShowsEndOfList` state the conditions inside the list branch only.
- TruncateHash: a Dafny `string` counts Unicode scalar values, while JavaScript's `slice` counts UTF-16 code units. The two agree on the ASCII hex hashes the API sends, and differ on characters outside the Basic Multilingual Plane.
- `producer: null` in a JSON payload passes the source's `!== undefined` test (components/dashboard.tsx:73) and would set the latest producer to `null`. `Option<int>` cannot express a present null, so the model treats it as absent.
