/** The ledger entry of lib/types.ts: one slot's outcome, a produced block or a skip certificate. */
module Types {

  datatype Option<T> = None | Some(value: T)

  /** The `type` field: `'block'` (here `Produced`) or `'skip'`. */
  datatype Kind = Produced | Skip

  datatype Status = Pending | Proposed | Notarized | Finalized

  /** A block as the pull API and the push stream deliver it; `slot` is the key. */
  datatype Block = Block(
    kind: Kind,
    slot: int,
    hash: string,
    producer: Option<int>,
    timestamp: int,
    proposedTimestamp: Option<int>,
    finalizedTimestamp: Option<int>,
    parentSlot: Option<int>,
    parentHash: Option<string>,
    status: Status)

  /** `Math.min` on integers. */
  function Min(a: int, b: int): int
  {
    if a <= b then a else b
  }

  /** `Math.max` on integers. */
  function Max(a: int, b: int): int
  {
    if a <= b then b else a
  }
}
