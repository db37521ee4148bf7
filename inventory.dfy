/**
 * The inventory: an ordered list of fixed per-type slots, each a block type
 * and a count. Breaking a block credits the first slot of its type; placing
 * a block spends one from the selected slot.
 */
module Inventory {
  import opened Blocks

  datatype Slot = Slot(kind: BlockType, count: int)

  /** The starter inventory the program is created with. */
  const Starter: seq<Slot> :=
    [Slot(Grass, 10), Slot(Dirt, 5), Slot(Stone, 8), Slot(Wood, 3), Slot(Water, 4), Slot(Sand, 6)]

  /** No slot holds a negative count. */
  predicate NonNegative(inv: seq<Slot>) {
    forall i :: 0 <= i < |inv| ==> inv[i].count >= 0
  }

  predicate HasSlot(inv: seq<Slot>, b: BlockType) {
    exists i :: 0 <= i < |inv| && inv[i].kind == b
  }

  /** Index of the first slot holding type b, or -1 when there is none. */
  function FirstSlotOf(inv: seq<Slot>, b: BlockType): (i: int)
    ensures -1 <= i < |inv|
    ensures 0 <= i ==> inv[i].kind == b && forall k :: 0 <= k < i ==> inv[k].kind != b
    ensures i == -1 <==> !HasSlot(inv, b)
  {
    if inv == [] then -1
    else if inv[0].kind == b then 0
    else
      var i := FirstSlotOf(inv[1..], b);
      assert forall k :: 1 <= k < |inv| ==> inv[k] == inv[1..][k - 1];
      if i == -1 then -1 else i + 1
  }

  /**
   * The inventory after a block of type b is broken: the first slot of that
   * type gains one; if no slot has that type the block is discarded.
   */
  function Credit(inv: seq<Slot>, b: BlockType): (r: seq<Slot>)
    ensures |r| == |inv|
    ensures forall k :: 0 <= k < |inv| ==> r[k].kind == inv[k].kind
    ensures forall k :: 0 <= k < |inv| && k != FirstSlotOf(inv, b) ==> r[k] == inv[k]
    ensures HasSlot(inv, b) ==> r[FirstSlotOf(inv, b)].count == inv[FirstSlotOf(inv, b)].count + 1
    ensures !HasSlot(inv, b) ==> r == inv
  {
    var i := FirstSlotOf(inv, b);
    if i < 0 then inv else inv[i := inv[i].(count := inv[i].count + 1)]
  }

  /** The inventory after one block is placed from slot i. */
  function Spend(inv: seq<Slot>, i: int): (r: seq<Slot>)
    requires 0 <= i < |inv|
    ensures |r| == |inv| && r[i].kind == inv[i].kind && r[i].count == inv[i].count - 1
    ensures forall k :: 0 <= k < |inv| && k != i ==> r[k] == inv[k]
  {
    inv[i := inv[i].(count := inv[i].count - 1)]
  }

  /** The number of blocks held over all slots. */
  function TotalCount(inv: seq<Slot>): int {
    if inv == [] then 0 else inv[0].count + TotalCount(inv[1..])
  }

  lemma {:induction false} TotalCountUpdate(inv: seq<Slot>, i: int, s: Slot)
    requires 0 <= i < |inv|
    ensures TotalCount(inv[i := s]) == TotalCount(inv) - inv[i].count + s.count
  {
    if i > 0 {
      assert inv[i := s][1..] == inv[1..][i - 1 := s];
      TotalCountUpdate(inv[1..], i - 1, s);
    } else {
      assert inv[i := s][1..] == inv[1..];
    }
  }

  /** Breaking a block adds exactly one to the total iff a slot of its type exists. */
  lemma CreditTotal(inv: seq<Slot>, b: BlockType)
    ensures TotalCount(Credit(inv, b)) == TotalCount(inv) + (if HasSlot(inv, b) then 1 else 0)
  {
    var i := FirstSlotOf(inv, b);
    if i >= 0 {
      TotalCountUpdate(inv, i, inv[i].(count := inv[i].count + 1));
    }
  }

  /** Placing a block removes exactly one from the total. */
  lemma SpendTotal(inv: seq<Slot>, i: int)
    requires 0 <= i < |inv|
    ensures TotalCount(Spend(inv, i)) == TotalCount(inv) - 1
  {
    TotalCountUpdate(inv, i, inv[i].(count := inv[i].count - 1));
  }

  /**
   * Every slot holds a solid type and every solid type has a slot: the shape
   * of the starter inventory, under which break and place conserve blocks.
   */
  predicate Stocked(inv: seq<Slot>) {
    && (forall i :: 0 <= i < |inv| ==> inv[i].kind != Air)
    && (forall b: BlockType :: b != Air ==> HasSlot(inv, b))
  }

  lemma StarterStocked()
    ensures Stocked(Starter) && NonNegative(Starter)
  {
    forall b: BlockType | b != Air
      ensures HasSlot(Starter, b)
    {
      var i := match b
        case Grass => 0 case Dirt => 1 case Stone => 2
        case Wood => 3 case Water => 4 case Sand => 5 case Air => 0;
      assert Starter[i].kind == b;
    }
  }
}
