/**
 The parking board: regular slots can be taken or released by a click; slots reserved for
 employees with disabilities cannot be toggled from the page.
 */
module Parking {
  import opened Wrappers
  import opened Seqs

  datatype Slot = Slot(id: int, slotNumber: string, occupied: bool, occupant: Option<string>, disabledOnly: bool)

  const InitialSlots := [
    Slot(1, "A1", false, None, false),
    Slot(2, "A2", true, Some("Ram Kumar"), false),
    Slot(3, "A3", false, None, false),
    Slot(4, "A4", false, None, false),
    Slot(5, "A5", true, Some("Sita Sharma"), false),
    Slot(6, "D1", false, None, true),
    Slot(7, "D2", true, Some("John Doe"), true),
    Slot(8, "D3", false, None, true)
  ]

  /** A slot names an occupant exactly when it is occupied. */
  predicate Consistent(s: Slot) {
    s.occupied <==> s.occupant.Some?
  }

  /** The change one toggle makes to a matching slot. */
  function Flip(s: Slot): (t: Slot)
    ensures s.disabledOnly ==> t == s
    ensures !s.disabledOnly ==> t.occupied == !s.occupied
    ensures !s.disabledOnly ==> t.occupant == (if t.occupied then Some("You") else None)
    ensures t.id == s.id && t.slotNumber == s.slotNumber && t.disabledOnly == s.disabledOnly
  {
    if s.disabledOnly then s
    else s.(occupied := !s.occupied, occupant := if s.occupied then None else Some("You"))
  }

  datatype Toggled = Toggled(slots: seq<Slot>, alerted: bool)

  /**
   `toggleOccupancy`: every slot with that id flips between free and taken by "You", unless it is
   reserved, in which case it is returned as is and the reservation alert is raised.
   */
  function ToggleOccupancy(slots: seq<Slot>, id: int): (r: Toggled)
    ensures |r.slots| == |slots|
    ensures forall i :: 0 <= i < |slots| && slots[i].id != id ==> r.slots[i] == slots[i]
    ensures forall i :: 0 <= i < |slots| && slots[i].id == id ==> r.slots[i] == Flip(slots[i])
    ensures r.alerted <==> exists i :: 0 <= i < |slots| && slots[i].id == id && slots[i].disabledOnly
  {
    Toggled(
      seq(|slots|, i requires 0 <= i < |slots| => if slots[i].id == id then Flip(slots[i]) else slots[i]),
      exists i :: 0 <= i < |slots| && slots[i].id == id && slots[i].disabledOnly)
  }

  /** Toggling never breaks the occupied/occupant agreement. */
  lemma ToggleKeepsConsistent(slots: seq<Slot>, id: int)
    requires forall i :: 0 <= i < |slots| ==> Consistent(slots[i])
    ensures var r := ToggleOccupancy(slots, id).slots;
            forall i :: 0 <= i < |r| ==> Consistent(r[i])
  {
  }

  /** A free regular slot toggled twice is back exactly as it was. */
  lemma FreeSlotToggledTwice(s: Slot)
    requires !s.disabledOnly && !s.occupied && Consistent(s)
    ensures Flip(Flip(s)) == s
  {
  }

  /** A reserved slot is never changed by a toggle. */
  lemma ReservedSlotUnchanged(slots: seq<Slot>, id: int, i: int)
    requires 0 <= i < |slots| && slots[i].disabledOnly
    ensures ToggleOccupancy(slots, id).slots[i] == slots[i]
  {
  }

  /** A click on a tile: reserved tiles do nothing, the others toggle their slot. */
  function Click(slots: seq<Slot>, tile: Slot): (r: seq<Slot>)
    ensures tile.disabledOnly ==> r == slots
    ensures !tile.disabledOnly ==> r == ToggleOccupancy(slots, tile.id).slots
  {
    if tile.disabledOnly then slots else ToggleOccupancy(slots, tile.id).slots
  }

  predicate IsRegular(s: Slot) {
    !s.disabledOnly
  }

  predicate IsReserved(s: Slot) {
    s.disabledOnly
  }

  function RegularSlots(slots: seq<Slot>): (r: seq<Slot>)
    ensures forall i :: 0 <= i < |r| ==> !r[i].disabledOnly
  {
    Filter(slots, IsRegular)
  }

  function DisabledSlots(slots: seq<Slot>): (r: seq<Slot>)
    ensures forall i :: 0 <= i < |r| ==> r[i].disabledOnly
  {
    Filter(slots, IsReserved)
  }

  /** The two panels partition the board: each slot is in exactly one, and the sizes add up. */
  lemma PanelsPartition(slots: seq<Slot>)
    ensures |RegularSlots(slots)| + |DisabledSlots(slots)| == |slots|
    ensures forall i :: 0 <= i < |slots| ==> (slots[i] in RegularSlots(slots) <==> slots[i] !in DisabledSlots(slots))
  {
    FilterPartition(slots, IsRegular, IsReserved);
  }

  /** The three tile colours. */
  datatype Background = Reserved | Taken | Free

  /** `getSlotBackground`: reservation wins over occupancy. */
  function SlotBackground(s: Slot): (b: Background)
    ensures b == Reserved <==> s.disabledOnly
    ensures b == Taken <==> !s.disabledOnly && s.occupied
    ensures b == Free <==> !s.disabledOnly && !s.occupied
  {
    if s.disabledOnly then Reserved else if s.occupied then Taken else Free
  }

  /** A toggle turns a regular tile from free to taken or back. */
  lemma ToggleSwapsBackground(s: Slot)
    requires !s.disabledOnly
    ensures SlotBackground(Flip(s)) == (if SlotBackground(s) == Free then Taken else Free)
  {
  }
}
