/**
 The onboarding checklist: items toggled, relabelled, deleted, added with a fresh id,
 and completed or reset in bulk. Each handler is a function from the old list to the new one.
 The optional `editing` flag is a plain boolean here (an absent flag reads as false);
 the item's `label` is called `text`, since `label` is a Dafny keyword.
 */
module Checklist {
  import opened Seqs
  import opened Text

  datatype Item = Item(id: int, text: string, completed: bool, editing: bool)

  /** What the page starts with. */
  const InitialChecklist := [
    Item(1, "Submit Identification Documents", false, false),
    Item(2, "Complete Tax Forms", false, false),
    Item(3, "Attend Orientation Session", false, false),
    Item(4, "Set Up Workstation", false, false),
    Item(5, "Complete Mandatory Trainings", false, false)
  ]

  ghost predicate DistinctIds(items: seq<Item>) {
    forall i, j :: 0 <= i < j < |items| ==> items[i].id != items[j].id
  }

  /** `toggleComplete`: flips `completed` on the items with that id; everything else stays. */
  function ToggleComplete(items: seq<Item>, id: int): (r: seq<Item>)
    ensures |r| == |items|
    ensures forall i :: 0 <= i < |r| ==>
      && r[i].id == items[i].id && r[i].text == items[i].text && r[i].editing == items[i].editing
      && (r[i].completed <==> (items[i].completed != (items[i].id == id)))
  {
    seq(|items|, i requires 0 <= i < |items| =>
      if items[i].id == id then items[i].(completed := !items[i].completed) else items[i])
  }

  /** Toggling the same id twice restores the list. */
  lemma ToggleTwice(items: seq<Item>, id: int)
    ensures ToggleComplete(ToggleComplete(items, id), id) == items
  {
  }

  /** Sets the `editing` flag of the items with that id, leaving every other field alone. */
  function SetEditing(items: seq<Item>, id: int, on: bool): (r: seq<Item>)
    ensures |r| == |items|
    ensures forall i :: 0 <= i < |r| ==>
      && r[i].id == items[i].id && r[i].text == items[i].text && r[i].completed == items[i].completed
      && r[i].editing == (if items[i].id == id then on else items[i].editing)
  {
    seq(|items|, i requires 0 <= i < |items| =>
      if items[i].id == id then items[i].(editing := on) else items[i])
  }

  /** `startEditing`. */
  function StartEditing(items: seq<Item>, id: int): (r: seq<Item>)
    ensures r == SetEditing(items, id, true)
  {
    SetEditing(items, id, true)
  }

  /** `cancelEditing`. */
  function CancelEditing(items: seq<Item>, id: int): (r: seq<Item>)
    ensures r == SetEditing(items, id, false)
  {
    SetEditing(items, id, false)
  }

  /** Cancelling an edit that was just started restores a list that was not being edited. */
  lemma CancelUndoesStart(items: seq<Item>, id: int)
    requires forall i :: 0 <= i < |items| ==> !items[i].editing
    ensures CancelEditing(StartEditing(items, id), id) == items
  {
  }

  /**
   `saveLabel`: a blank label is ignored; otherwise the matching items take the label as typed
   (untrimmed) and leave editing mode.
   */
  function SaveLabel(items: seq<Item>, id: int, newLabel: string): (r: seq<Item>)
    ensures IsBlank(newLabel) ==> r == items
    ensures |r| == |items|
    ensures !IsBlank(newLabel) ==> forall i :: 0 <= i < |r| ==>
      && r[i].id == items[i].id && r[i].completed == items[i].completed
      && (items[i].id == id ==> r[i].text == newLabel && !r[i].editing)
      && (items[i].id != id ==> r[i] == items[i])
  {
    TrimEmptyIffBlank(newLabel);
    if Trim(newLabel) == [] then items
    else
      seq(|items|, i requires 0 <= i < |items| =>
        if items[i].id == id then items[i].(text := newLabel, editing := false) else items[i])
  }

  /** `deleteTask`: drops exactly the items with that id, keeping the rest in order. */
  function DeleteTask(items: seq<Item>, id: int): (r: seq<Item>)
    ensures forall i :: 0 <= i < |r| ==> r[i].id != id
    ensures forall i :: 0 <= i < |items| && items[i].id != id ==> items[i] in r
    ensures forall i :: 0 <= i < |r| ==> r[i] in items
    ensures Subsequence(r, items)
  {
    Filter(items, (it: Item) => it.id != id)
  }

  /** The largest id of a non-empty list. */
  function MaxId(items: seq<Item>): (m: int)
    requires |items| > 0
    ensures forall i :: 0 <= i < |items| ==> items[i].id <= m
    ensures exists i :: 0 <= i < |items| && items[i].id == m
  {
    if |items| == 1 then items[0].id
    else
      var m := MaxId(items[1..]);
      assert forall i :: 1 <= i < |items| ==> items[i].id == items[1..][i - 1].id;
      if items[0].id >= m then items[0].id else m
  }

  /** The id `addTask` hands out: one more than the largest, or 1 for an empty list. */
  function NextId(items: seq<Item>): (n: int)
    ensures forall i :: 0 <= i < |items| ==> items[i].id < n
    ensures items == [] ==> n == 1
    ensures items != [] ==> exists i :: 0 <= i < |items| && items[i].id == n - 1
  {
    if |items| == 0 then 1 else MaxId(items) + 1
  }

  datatype Checklist = Checklist(items: seq<Item>, newTask: string)

  /**
   `addTask`: a blank input changes nothing; otherwise one open item with the trimmed text and
   the next id (largest plus one, so no item has it yet) is appended and the input is cleared.
   */
  function AddTask(c: Checklist): (r: Checklist)
    ensures IsBlank(c.newTask) ==> r == c
    ensures !IsBlank(c.newTask) ==>
      && r.newTask == []
      && |r.items| == |c.items| + 1
      && r.items[..|c.items|] == c.items
      && r.items[|c.items|].text == Trim(c.newTask)
      && !r.items[|c.items|].completed
      && r.items[|c.items|].id == NextId(c.items)
      && forall i :: 0 <= i < |c.items| ==> c.items[i].id != r.items[|c.items|].id
  {
    TrimEmptyIffBlank(c.newTask);
    if Trim(c.newTask) == [] then c
    else
      var item := Item(NextId(c.items), Trim(c.newTask), false, false);
      assert (c.items + [item])[..|c.items|] == c.items;
      Checklist(c.items + [item], [])
  }

  /** Adding keeps ids distinct. */
  lemma AddTaskKeepsIdsDistinct(c: Checklist)
    requires DistinctIds(c.items)
    ensures DistinctIds(AddTask(c).items)
  {
    var r := AddTask(c);
    if !IsBlank(c.newTask) {
      forall i, j | 0 <= i < j < |r.items| ensures r.items[i].id != r.items[j].id {
        if j < |c.items| {
          assert r.items[i] == c.items[i] && r.items[j] == c.items[j];
        } else {
          assert r.items[i] == c.items[i];
        }
      }
    }
  }

  predicate IsCompleted(it: Item) {
    it.completed
  }

  /** `completedCount`. */
  function CompletedCount(items: seq<Item>): (n: nat)
    ensures n <= |items|
  {
    Count(items, IsCompleted)
  }

  /** The count is the length exactly when every item is complete, and zero exactly when none is. */
  lemma CompletedCountBounds(items: seq<Item>)
    ensures CompletedCount(items) == |items| <==> forall i :: 0 <= i < |items| ==> items[i].completed
    ensures CompletedCount(items) == 0 <==> forall i :: 0 <= i < |items| ==> !items[i].completed
  {
    CountIsLengthIffAll(items, IsCompleted);
    CountIsZeroIffNone(items, IsCompleted);
  }

  /** Sets every item's `completed` flag, keeping ids, labels and editing flags. */
  function SetAllCompleted(items: seq<Item>, done: bool): (r: seq<Item>)
    ensures |r| == |items|
    ensures forall i :: 0 <= i < |r| ==> r[i] == items[i].(completed := done)
  {
    seq(|items|, i requires 0 <= i < |items| => items[i].(completed := done))
  }

  /** `markAllComplete`: afterwards every item counts as completed. */
  function MarkAllComplete(items: seq<Item>): (r: seq<Item>)
    ensures |r| == |items| && CompletedCount(r) == |items|
    ensures forall i :: 0 <= i < |r| ==> r[i].id == items[i].id && r[i].text == items[i].text
  {
    var r := SetAllCompleted(items, true);
    CompletedCountBounds(r);
    r
  }

  /** `resetAll`: afterwards nothing counts as completed. */
  function ResetAll(items: seq<Item>): (r: seq<Item>)
    ensures |r| == |items| && CompletedCount(r) == 0
    ensures forall i :: 0 <= i < |r| ==> r[i].id == items[i].id && r[i].text == items[i].text
  {
    var r := SetAllCompleted(items, false);
    CompletedCountBounds(r);
    r
  }

  lemma InitialIdsDistinct()
    ensures DistinctIds(InitialChecklist)
  {
  }
}
