/**
 * The shared block cell of lib/atoms.ts. The cell stores a raw list of blocks;
 * readers see it collapsed to one block per slot (a later block with the same
 * slot wins) and sorted by slot, highest first. Writers are handed the raw
 * list, not the collapsed one, and their result is stored as it is.
 */
module Atoms {
  import opened Types
  import opened SlotMap
  import opened SlotOrder

  /** Initial value of `displayCountAtom`. */
  const InitialDisplayCount: nat := 50

  /** The read side of `blocksAtom`: fold the raw list into a `Map` by slot, then sort. */
  function View(raw: seq<Block>): (v: seq<Block>)
    ensures StrictlyDescending(v)
    ensures DistinctSlots(v)
    ensures Slots(v) == Slots(raw)
    ensures |v| <= |raw|
  {
    var m := FromList(raw);
    SortDescStrict(m);
    assert Slots(SortDesc(m)) == Slots(m);
    SortDesc(m)
  }

  /** A block is in the view exactly when it is the last raw block with its slot. */
  lemma ViewKeepsLast(raw: seq<Block>)
    ensures forall b :: b in View(raw) <==> IsLastWithSlot(raw, b)
  {
    FromListKeepsLast(raw);
  }

  /** A list that is already strictly ordered by slot is its own view. */
  lemma ViewOfStrictlyDescending(s: seq<Block>)
    requires StrictlyDescending(s)
    ensures View(s) == s
  {
    FromListOfDistinct(s);
    SortDescOfSorted(s);
  }

  /** Reading the view of the view gives the view. */
  lemma ViewIdempotent(raw: seq<Block>)
    ensures View(View(raw)) == View(raw)
  {
    ViewOfStrictlyDescending(View(raw));
  }

  /** Two raw lists whose views hold the same blocks have the same view. */
  lemma ViewDeterminedByMembers(raw1: seq<Block>, raw2: seq<Block>)
    requires forall b :: b in View(raw1) <==> b in View(raw2)
    ensures View(raw1) == View(raw2)
  {
    StrictlyDescendingUnique(View(raw1), View(raw2));
  }
}
