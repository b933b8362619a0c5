/**
 * `Array.prototype.sort((a, b) => b.slot - a.slot)`: ordering blocks by slot,
 * highest first. The sort is stable; on lists with distinct slots, which are
 * the only ones the source sorts, stability plays no part.
 */
module SlotOrder {
  import opened Types
  import opened SlotMap

  predicate Descending(s: seq<Block>)
  {
    forall i, j :: 0 <= i < j < |s| ==> s[i].slot >= s[j].slot
  }

  predicate StrictlyDescending(s: seq<Block>)
  {
    forall i, j :: 0 <= i < j < |s| ==> s[i].slot > s[j].slot
  }

  /** In an ordered list no block has a slot above the front block's. */
  lemma DescendingHead(s: seq<Block>)
    requires Descending(s) && s != []
    ensures forall y :: y in s ==> y.slot <= s[0].slot
  {
    forall y | y in s ensures y.slot <= s[0].slot {
      var i :| 0 <= i < |s| && s[i] == y;
    }
  }

  /** A block in front of an ordered list with no higher slot keeps the list ordered. */
  lemma DescendingCons(x: Block, s: seq<Block>)
    requires Descending(s)
    requires forall y :: y in s ==> y.slot <= x.slot
    ensures Descending([x] + s)
  {
    var t := [x] + s;
    forall i, j | 0 <= i < j < |t| ensures t[i].slot >= t[j].slot {
      assert t[j] == s[j - 1];
      if i > 0 {
        assert t[i] == s[i - 1];
      } else {
        assert s[j - 1] in s;
      }
    }
  }

  /** Places `b` in front of the first block whose slot is lower. */
  function Insert(sorted: seq<Block>, b: Block): (r: seq<Block>)
    requires Descending(sorted)
    ensures Descending(r)
    ensures forall x :: x in r <==> x in sorted || x == b
    ensures |r| == |sorted| + 1
  {
    if sorted == [] then
      [b]
    else
      var head, tail := sorted[0], sorted[1..];
      assert sorted == [head] + tail;
      DescendingHead(sorted);
      if b.slot >= head.slot then
        DescendingCons(b, sorted);
        [b] + sorted
      else
        var rest := Insert(tail, b);
        DescendingCons(head, rest);
        [head] + rest
  }

  /** Insertion sort, highest slot first. */
  function SortDesc(s: seq<Block>): (r: seq<Block>)
    ensures Descending(r)
    ensures forall x :: x in r <==> x in s
    ensures |r| == |s|
  {
    if s == [] then []
    else
      assert s == [s[0]] + s[1..];
      Insert(SortDesc(s[1..]), s[0])
  }

  /** Insertion adds exactly the one block: the result is a permutation of the list with `b`. */
  lemma {:induction false} InsertPermutation(sorted: seq<Block>, b: Block)
    requires Descending(sorted)
    ensures multiset(Insert(sorted, b)) == multiset(sorted) + multiset{b}
  {
    if sorted != [] && b.slot < sorted[0].slot {
      InsertPermutation(sorted[1..], b);
      assert sorted == [sorted[0]] + sorted[1..];
    }
  }

  /** The sort loses and duplicates nothing: its result is a permutation of its input. */
  lemma {:induction false} SortDescPermutation(s: seq<Block>)
    ensures multiset(SortDesc(s)) == multiset(s)
  {
    if s != [] {
      SortDescPermutation(s[1..]);
      InsertPermutation(SortDesc(s[1..]), s[0]);
      assert s == [s[0]] + s[1..];
    }
  }

  /** A block in front of a strictly ordered list whose slots are all lower keeps the list strictly ordered. */
  lemma StrictCons(x: Block, s: seq<Block>)
    requires StrictlyDescending(s)
    requires forall y :: y in s ==> y.slot < x.slot
    ensures StrictlyDescending([x] + s)
  {
    var t := [x] + s;
    forall i, j | 0 <= i < j < |t| ensures t[i].slot > t[j].slot {
      assert t[j] == s[j - 1];
      if i > 0 {
        assert t[i] == s[i - 1];
      } else {
        assert s[j - 1] in s;
      }
    }
  }

  /** Inserting a block with a new slot into a strictly ordered list keeps it strictly ordered. */
  lemma {:induction false} InsertStrict(sorted: seq<Block>, b: Block)
    requires StrictlyDescending(sorted) && b.slot !in Slots(sorted)
    ensures StrictlyDescending(Insert(sorted, b))
  {
    if sorted != [] {
      var head, tail := sorted[0], sorted[1..];
      StrictHead(sorted);
      assert head in sorted;
      if b.slot >= head.slot {
        StrictCons(b, sorted);
      } else {
        assert b.slot !in Slots(tail);
        InsertStrict(tail, b);
        StrictCons(head, Insert(tail, b));
      }
    }
  }

  /** Sorting a list with one block per slot orders it strictly. */
  lemma {:induction false} SortDescStrict(s: seq<Block>)
    requires DistinctSlots(s)
    ensures StrictlyDescending(SortDesc(s))
  {
    if s != [] {
      SortDescStrict(s[1..]);
      assert s[0].slot !in Slots(SortDesc(s[1..])) by {
        forall b | b in s[1..]
          ensures b.slot != s[0].slot
        {
          var k :| 0 <= k < |s[1..]| && s[1..][k] == b;
          assert s[k + 1] == b;
        }
      }
      InsertStrict(SortDesc(s[1..]), s[0]);
    }
  }

  /** A list already in order is left as it is. */
  lemma {:induction false} SortDescOfSorted(s: seq<Block>)
    requires Descending(s)
    ensures SortDesc(s) == s
  {
    if s != [] {
      SortDescOfSorted(s[1..]);
      assert s == [s[0]] + s[1..];
    }
  }

  /** In a strictly ordered list the front block has the top slot, and the rest holds exactly the lower ones. */
  lemma StrictHead(s: seq<Block>)
    requires StrictlyDescending(s) && s != []
    ensures forall x :: x in s ==> x == s[0] || x.slot < s[0].slot
    ensures forall x :: x in s[1..] <==> x in s && x.slot < s[0].slot
  {
    forall x | x in s ensures x == s[0] || x.slot < s[0].slot {
      var i :| 0 <= i < |s| && s[i] == x;
    }
    forall x | x in s[1..] ensures x in s && x.slot < s[0].slot {
      var k :| 0 <= k < |s| - 1 && s[1..][k] == x;
      assert s[k + 1] == x;
    }
    forall x | x in s && x.slot < s[0].slot ensures x in s[1..] {
      var i :| 0 <= i < |s| && s[i] == x;
      assert s[1..][i - 1] == x;
    }
  }

  /** Two lists with the same members are empty together. */
  lemma EmptyTogether(a: seq<Block>, b: seq<Block>)
    requires forall x :: x in a <==> x in b
    ensures a == [] <==> b == []
  {
    if a != [] {
      assert a[0] in b;
    }
    if b != [] {
      assert b[0] in a;
    }
  }

  /** Two strictly ordered lists holding the same blocks are the same list. */
  lemma {:induction false} StrictlyDescendingUnique(a: seq<Block>, b: seq<Block>)
    requires StrictlyDescending(a) && StrictlyDescending(b)
    requires forall x :: x in a <==> x in b
    ensures a == b
  {
    if a != [] && b != [] {
      StrictHead(a);
      StrictHead(b);
      assert a[0] in b && b[0] in a;
      assert a[0] == b[0];
      StrictlyDescendingUnique(a[1..], b[1..]);
      assert a == [a[0]] + a[1..] && b == [b[0]] + b[1..];
    } else {
      EmptyTogether(a, b);
    }
  }
}
