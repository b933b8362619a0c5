/**
 * A JavaScript `Map<number, Block>` keyed by slot, as the source uses it to
 * collapse a block list: a sequence of blocks with pairwise distinct slots in
 * insertion order. `set` on a present key overwrites the value in place,
 * `set` on a new key appends.
 */
module SlotMap {
  import opened Types

  /** The slots that occur in a list of blocks. */
  function Slots(s: seq<Block>): set<int>
  {
    set b | b in s :: b.slot
  }

  /** The slots of a non-empty list: those of all but its last block, and the last block's. */
  lemma SlotsDropLast(s: seq<Block>)
    requires s != []
    ensures Slots(s) == Slots(s[..|s| - 1]) + {s[|s| - 1].slot}
  {
    assert s == s[..|s| - 1] + [s[|s| - 1]];
    assert forall b :: b in s <==> b in s[..|s| - 1] || b == s[|s| - 1];
  }

  /** No slot occurs twice: the shape every `Map` keyed by slot has. */
  predicate DistinctSlots(s: seq<Block>)
  {
    forall i, j :: 0 <= i < j < |s| ==> s[i].slot != s[j].slot
  }

  /** `s[i]` is the last block of `s` with its slot. */
  ghost predicate LastOfSlot(s: seq<Block>, i: int)
    requires 0 <= i < |s|
  {
    forall j :: i < j < |s| ==> s[j].slot != s[i].slot
  }

  /** `b` is the last block of `s` that has `b.slot`. */
  ghost predicate IsLastWithSlot(s: seq<Block>, b: Block)
  {
    exists i :: 0 <= i < |s| && s[i] == b && LastOfSlot(s, i)
  }

  /** `map.get(slot)`. */
  function Get(m: seq<Block>, slot: int): (r: Option<Block>)
    ensures r.None? <==> slot !in Slots(m)
    ensures r.Some? ==> r.value in m && r.value.slot == slot
    ensures DistinctSlots(m) ==> forall b :: b in m && b.slot == slot ==> r == Some(b)
  {
    if m == [] then None
    else if m[0].slot == slot then Some(m[0])
    else Get(m[1..], slot)
  }

  /** The slots of a list with a block in front. */
  lemma SlotsCons(x: Block, s: seq<Block>)
    ensures Slots([x] + s) == {x.slot} + Slots(s)
  {
    assert forall b :: b in [x] + s <==> b == x || b in s;
  }

  /** A list with a block in front has distinct slots exactly when the rest does and lacks the front slot. */
  lemma DistinctCons(x: Block, s: seq<Block>)
    ensures DistinctSlots([x] + s) <==> DistinctSlots(s) && x.slot !in Slots(s)
  {
    var t := [x] + s;
    if DistinctSlots(t) {
      forall b | b in s ensures b.slot != x.slot {
        var j :| 0 <= j < |s| && s[j] == b;
        assert t[0] == x && t[j + 1] == b;
      }
      forall i, j | 0 <= i < j < |s| ensures s[i].slot != s[j].slot {
        assert t[i + 1] == s[i] && t[j + 1] == s[j];
      }
    }
    if DistinctSlots(s) && x.slot !in Slots(s) {
      forall i, j | 0 <= i < j < |t| ensures t[i].slot != t[j].slot {
        assert t[j] == s[j - 1];
        if i > 0 {
          assert t[i] == s[i - 1];
        } else {
          assert s[j - 1] in s;
        }
      }
    }
  }

  /** `map.set(b.slot, b)`. */
  function Set(m: seq<Block>, b: Block): (r: seq<Block>)
    requires DistinctSlots(m)
    ensures DistinctSlots(r)
    ensures Slots(r) == Slots(m) + {b.slot}
    ensures forall x :: x in r <==> x == b || (x in m && x.slot != b.slot)
    ensures b.slot !in Slots(m) ==> r == m + [b]
    ensures b.slot in Slots(m) ==> |r| == |m|
  {
    if m == [] then [b]
    else
      var head, tail := m[0], m[1..];
      assert m == [head] + tail;
      DistinctCons(head, tail);
      SlotsCons(head, tail);
      if head.slot == b.slot then
        DistinctCons(b, tail);
        SlotsCons(b, tail);
        [b] + tail
      else
        var rest := Set(tail, b);
        DistinctCons(head, rest);
        SlotsCons(head, rest);
        [head] + rest
  }

  /**
   * `new Map(s.map(b => [b.slot, b]))`, equivalently `s.forEach(b => map.set(b.slot, b))`
   * on an empty map: one entry per slot of `s`.
   */
  function FromList(s: seq<Block>): (r: seq<Block>)
    ensures DistinctSlots(r)
    ensures Slots(r) == Slots(s)
    ensures |r| <= |s|
  {
    if s == [] then []
    else
      var init := s[..|s| - 1];
      assert s == init + [s[|s| - 1]];
      Set(FromList(init), s[|s| - 1])
  }

  /** Appending a block with another slot keeps an earlier block the last of its slot, and only then. */
  lemma LastOfSlotSnoc(init: seq<Block>, x: Block, i: int)
    requires 0 <= i < |init|
    ensures LastOfSlot(init + [x], i) <==> LastOfSlot(init, i) && init[i].slot != x.slot
  {
    var s := init + [x];
    if LastOfSlot(s, i) {
      assert s[|init|].slot != s[i].slot;
      forall j | i < j < |init| ensures init[j].slot != init[i].slot {
        assert s[j] == init[j];
      }
    }
  }

  /** One step of `FromListKeepsLast`: setting `x` keeps exactly the last blocks of the longer list. */
  lemma KeepsLastSnoc(init: seq<Block>, x: Block, b: Block)
    requires b in FromList(init) <==> IsLastWithSlot(init, b)
    ensures b in Set(FromList(init), x) <==> IsLastWithSlot(init + [x], b)
  {
    var s, n := init + [x], |init|;
    if b in Set(FromList(init), x) {
      if b == x {
        assert s[n] == b && LastOfSlot(s, n);
      } else {
        var i :| 0 <= i < n && init[i] == b && LastOfSlot(init, i);
        LastOfSlotSnoc(init, x, i);
        assert s[i] == b;
      }
    }
    if IsLastWithSlot(s, b) {
      var i :| 0 <= i < |s| && s[i] == b && LastOfSlot(s, i);
      if i < n {
        LastOfSlotSnoc(init, x, i);
        assert init[i] == b;
        assert IsLastWithSlot(init, b);
      }
    }
  }

  /** Because `set` overwrites, the entry kept for each slot is the last block with that slot. */
  lemma {:induction false} FromListKeepsLast(s: seq<Block>)
    ensures forall b :: b in FromList(s) <==> IsLastWithSlot(s, b)
  {
    if s != [] {
      var init, x := s[..|s| - 1], s[|s| - 1];
      assert s == init + [x];
      FromListKeepsLast(init);
      FromListSnoc(init, x);
      forall b
        ensures b in FromList(s) <==> IsLastWithSlot(s, b)
      {
        KeepsLastSnoc(init, x, b);
      }
    }
  }

  /** A list with a block at the end has distinct slots exactly when the front does and lacks the last slot. */
  lemma DistinctSnoc(init: seq<Block>, x: Block)
    ensures DistinctSlots(init + [x]) <==> DistinctSlots(init) && x.slot !in Slots(init)
  {
    var t := init + [x];
    if DistinctSlots(t) {
      forall b | b in init ensures b.slot != x.slot {
        var i :| 0 <= i < |init| && init[i] == b;
        assert t[i] == b && t[|init|] == x;
      }
      forall i, j | 0 <= i < j < |init| ensures init[i].slot != init[j].slot {
        assert t[i] == init[i] && t[j] == init[j];
      }
    }
    if DistinctSlots(init) && x.slot !in Slots(init) {
      forall i, j | 0 <= i < j < |t| ensures t[i].slot != t[j].slot {
        assert t[i] == init[i];
        if j < |init| {
          assert t[j] == init[j];
        } else {
          assert init[i] in init;
        }
      }
    }
  }

  /** Dropping the last block of a list with distinct slots leaves distinct slots, none of them the dropped one's. */
  lemma DistinctDropLast(s: seq<Block>)
    requires DistinctSlots(s) && s != []
    ensures DistinctSlots(s[..|s| - 1]) && s[|s| - 1].slot !in Slots(s[..|s| - 1])
  {
    assert s == s[..|s| - 1] + [s[|s| - 1]];
    DistinctSnoc(s[..|s| - 1], s[|s| - 1]);
  }

  /** The map of a list with a block at the end is the map of the front with that block set. */
  lemma FromListSnoc(init: seq<Block>, x: Block)
    ensures FromList(init + [x]) == Set(FromList(init), x)
  {
    assert (init + [x])[..|init|] == init;
  }

  /** A list that already has one block per slot is its own map. */
  lemma {:induction false} FromListOfDistinct(s: seq<Block>)
    requires DistinctSlots(s)
    ensures FromList(s) == s
  {
    if s != [] {
      var init, x := s[..|s| - 1], s[|s| - 1];
      assert s == init + [x];
      DistinctSnoc(init, x);
      FromListOfDistinct(init);
      FromListSnoc(init, x);
    }
  }
}
