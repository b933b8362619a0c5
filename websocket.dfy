/**
 * The push side of lib/websocket.ts: an `update_slot` message overwrites every
 * stored block with the message's slot (it never inserts and never compares
 * statuses), a settled update drops its slot from the non-finalized set, and
 * the non-finalized set is recomputed from the view whenever the view changes.
 * The socket itself, its reconnect timer and `JSON.parse` are not part of this model.
 */
module Websocket {
  import opened Types
  import opened SlotMap
  import opened Atoms

  /** A message as `JSON.parse` leaves it: unparseable, or an object with a `type` and maybe an `UpdateSlot` payload. */
  datatype Message = Unparseable | Parsed(msgType: string, updateSlot: Option<Block>)

  /** The block an incoming message carries, when `onmessage` acts on it. */
  function SlotUpdateOf(msg: Message): (r: Option<Block>)
    ensures r.Some? <==> msg.Parsed? && msg.msgType == "update_slot" && msg.updateSlot.Some?
    ensures r.Some? ==> msg.updateSlot == r
  {
    match msg
    case Parsed(t, Some(u)) => if t == "update_slot" then Some(u) else None
    case _ => None
  }

  /** The list change of `updateBlockStatus`: every block with the update's slot becomes the update. */
  function UpdateSlot(raw: seq<Block>, u: Block): (r: seq<Block>)
    ensures |r| == |raw|
    ensures forall i :: 0 <= i < |raw| && raw[i].slot == u.slot ==> r[i] == u
    ensures forall i :: 0 <= i < |raw| && raw[i].slot != u.slot ==> r[i] == raw[i]
  {
    if raw == [] then []
    else [if raw[0].slot == u.slot then u else raw[0]] + UpdateSlot(raw[1..], u)
  }

  /** A finalized or skipped block no longer counts as pending. */
  predicate Settled(b: Block)
  {
    b.status == Finalized || b.kind == Skip
  }

  /** The `nonFinalizedSlots` change of `updateBlockStatus`: copy the set and delete a settled update's slot. */
  function AfterStatusUpdate(nonFinalized: set<int>, u: Block): (r: set<int>)
    ensures Settled(u) ==> u.slot !in r
    ensures !Settled(u) ==> r == nonFinalized
    ensures forall s :: s != u.slot ==> (s in r <==> s in nonFinalized)
  {
    if Settled(u) then nonFinalized - {u.slot} else nonFinalized
  }

  /** The slots of the view's unsettled blocks: the value the recompute effect stores. */
  function NonFinalizedOf(view: seq<Block>): set<int>
  {
    set b | b in view && !Settled(b) :: b.slot
  }

  /** The recompute effect: walk the view and add each unsettled block's slot to a fresh set. */
  method NonFinalizedSlots(view: seq<Block>) returns (slots: set<int>)
    ensures forall s :: s in slots <==> exists b :: b in view && b.slot == s && !Settled(b)
    ensures slots == NonFinalizedOf(view)
  {
    slots := {};
    var i := 0;
    while i < |view|
      invariant 0 <= i <= |view|
      invariant slots == NonFinalizedOf(view[..i])
    {
      var b := view[i];
      if !Settled(b) {
        slots := slots + {b.slot};
      }
      assert view[..i + 1] == view[..i] + [b];
      i := i + 1;
    }
    assert view[..i] == view;
  }

  /** An update for a slot that is not stored changes nothing: there is no insertion. */
  lemma {:induction false} UpdateSlotNoInsert(raw: seq<Block>, u: Block)
    requires u.slot !in Slots(raw)
    ensures UpdateSlot(raw, u) == raw
  {
    if raw != [] {
      assert raw[0] in raw;
      assert u.slot !in Slots(raw[1..]) by {
        forall b | b in raw[1..] ensures b.slot != u.slot {
          assert b in raw;
        }
      }
      UpdateSlotNoInsert(raw[1..], u);
    }
  }

  /** Applying the same update twice is the same as applying it once. */
  lemma UpdateSlotIdempotent(raw: seq<Block>, u: Block)
    ensures UpdateSlot(UpdateSlot(raw, u), u) == UpdateSlot(raw, u)
  {
  }

  /** An update keeps the set of stored slots. */
  lemma UpdateSlotKeepsSlots(raw: seq<Block>, u: Block)
    ensures Slots(UpdateSlot(raw, u)) == Slots(raw)
  {
    var r := UpdateSlot(raw, u);
    forall s | s in Slots(raw) ensures s in Slots(r) {
      var b :| b in raw && b.slot == s;
      var i :| 0 <= i < |raw| && raw[i] == b;
      assert r[i].slot == s;
    }
    forall s | s in Slots(r) ensures s in Slots(raw) {
      var b :| b in r && b.slot == s;
      var i :| 0 <= i < |r| && r[i] == b;
      assert raw[i].slot == s;
    }
  }

  /** The last-of-slot positions of a list do not move when an update rewrites some of its blocks. */
  lemma UpdateSlotLastOfSlot(raw: seq<Block>, u: Block, i: int)
    requires 0 <= i < |raw|
    ensures LastOfSlot(UpdateSlot(raw, u), i) <==> LastOfSlot(raw, i)
  {
    var r := UpdateSlot(raw, u);
    assert forall j :: 0 <= j < |raw| ==> r[j].slot == raw[j].slot;
  }

  /**
   * After an update the view holds the update at its slot when that slot was
   * stored, whatever the stored status was, and every other view block is unchanged.
   */
  lemma ViewAfterUpdate(raw: seq<Block>, u: Block)
    ensures forall b :: b in View(UpdateSlot(raw, u)) <==>
      (b == u && u.slot in Slots(raw)) || (b in View(raw) && b.slot != u.slot)
  {
    var r := UpdateSlot(raw, u);
    ViewKeepsLast(raw);
    ViewKeepsLast(r);
    forall b | b in View(r)
      ensures (b == u && u.slot in Slots(raw)) || (b in View(raw) && b.slot != u.slot)
    {
      var i :| 0 <= i < |r| && r[i] == b && LastOfSlot(r, i);
      UpdateSlotLastOfSlot(raw, u, i);
      assert raw[i] in raw;
      if raw[i].slot != u.slot {
        assert IsLastWithSlot(raw, b);
      }
    }
    forall b | (b == u && u.slot in Slots(raw)) || (b in View(raw) && b.slot != u.slot)
      ensures b in View(r)
    {
      if b in View(raw) && b.slot != u.slot {
        var i :| 0 <= i < |raw| && raw[i] == b && LastOfSlot(raw, i);
        UpdateSlotLastOfSlot(raw, u, i);
        assert r[i] == b;
      } else {
        var c :| c in View(raw) && c.slot == u.slot;
        var i :| 0 <= i < |raw| && raw[i] == c && LastOfSlot(raw, i);
        UpdateSlotLastOfSlot(raw, u, i);
        assert r[i] == u;
      }
    }
  }

  /**
   * The recompute that follows an update of a stored slot agrees with the
   * targeted delete: the slot stays pending exactly when the update is not
   * settled, and no other slot changes.
   */
  lemma NonFinalizedAfterUpdate(raw: seq<Block>, u: Block)
    requires u.slot in Slots(raw)
    ensures u.slot in NonFinalizedOf(View(UpdateSlot(raw, u))) <==> !Settled(u)
    ensures forall s :: s != u.slot ==>
      (s in NonFinalizedOf(View(UpdateSlot(raw, u))) <==> s in NonFinalizedOf(View(raw)))
  {
    var r := UpdateSlot(raw, u);
    ViewAfterUpdate(raw, u);
    assert u in View(r);
    if u.slot in NonFinalizedOf(View(r)) {
      var b :| b in View(r) && !Settled(b) && b.slot == u.slot;
      assert b == u;
    }
    forall s | s != u.slot
      ensures s in NonFinalizedOf(View(r)) <==> s in NonFinalizedOf(View(raw))
    {
      if s in NonFinalizedOf(View(r)) {
        var b :| b in View(r) && !Settled(b) && b.slot == s;
        assert b in View(raw);
      }
      if s in NonFinalizedOf(View(raw)) {
        var b :| b in View(raw) && !Settled(b) && b.slot == s;
        assert b in View(r);
      }
    }
  }
}
