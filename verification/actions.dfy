/** The state transitions of the bill splitter's screen, as pure functions
    from one `Bill` to the next. Identifiers the component draws from the
    clock are passed in as `freshId`, and the parsed item price as `price`. */
module Actions {
  import opened Lists
  import opened Text
  import opened Domain

  /** `addPerson`: unless the name field is blank, appends a participant named
      by the trimmed field text and clears the field. */
  function AddPerson(b: Bill, freshId: Id): (r: Bill)
    ensures |r.people| == |b.people| + 1 <==> !Blank(b.newPersonName)
    ensures Blank(b.newPersonName) ==> r == b
    ensures !Blank(b.newPersonName) ==>
      && r.people[..|b.people|] == b.people
      && r.people[|b.people|].id == freshId
      && r.people[|b.people|].name == Trim(b.newPersonName)
      && r == b.(people := r.people, newPersonName := [])
  {
    if Trim(b.newPersonName) != [] then
      var people := b.people + [Person(freshId, Trim(b.newPersonName))];
      assert people[..|b.people|] == b.people;
      b.(people := people, newPersonName := [])
    else
      b
  }

  /** The participants whose id differs from `id`, in their original order. */
  function DropPerson(people: seq<Person>, id: Id): (r: seq<Person>)
    ensures forall p :: p in r <==> p in people && p.id != id
    ensures (forall p :: p in people ==> p.id != id) ==> r == people
  {
    if |people| == 0 then []
    else if people[0].id == id then DropPerson(people[1..], id)
    else [people[0]] + DropPerson(people[1..], id)
  }

  /** The ids left after dropping a participant are the old ids without `id`. */
  lemma {:induction false} DropPersonIds(people: seq<Person>, id: Id)
    ensures Ids(DropPerson(people, id)) == Without(Ids(people), id)
  {
    if |people| > 0 {
      var rest := DropPerson(people[1..], id);
      DropPersonIds(people[1..], id);
      assert Ids(people) == [people[0].id] + Ids(people[1..]);
      if people[0].id != id {
        assert ([people[0]] + rest)[1..] == rest;
      }
    }
  }

  /** Dropping a participant distributes over concatenation, so the
      participants that stay keep their relative order. */
  lemma {:induction false} DropPersonAppend(a: seq<Person>, c: seq<Person>, id: Id)
    ensures DropPerson(a + c, id) == DropPerson(a, id) + DropPerson(c, id)
  {
    if |a| == 0 {
      assert a + c == c;
    } else {
      assert (a + c)[0] == a[0];
      assert (a + c)[1..] == a[1..] + c;
      DropPersonAppend(a[1..], c, id);
      if a[0].id != id {
        assert [a[0]] + (DropPerson(a[1..], id) + DropPerson(c, id))
          == ([a[0]] + DropPerson(a[1..], id)) + DropPerson(c, id);
      }
    }
  }

  /** Every item with `id` filtered out of its assignee list. */
  function PruneAssignments(items: seq<Item>, id: Id): (r: seq<Item>)
    ensures |r| == |items|
    ensures forall k :: 0 <= k < |r| ==>
      r[k] == items[k].(assignedTo := Without(items[k].assignedTo, id))
    ensures forall it :: it in r ==> id !in it.assignedTo
  {
    seq(|items|, k requires 0 <= k < |items| =>
      items[k].(assignedTo := Without(items[k].assignedTo, id)))
  }

  /** `removePerson` as the component writes it: the participants with that
      id disappear and the others stay in order, no item refers to `id` any
      more while item ids, names, prices and other assignees are kept, and
      nothing else changes: in particular the pending selection is left
      alone. */
  function RemovePersonAsWritten(b: Bill, id: Id): (r: Bill)
    ensures forall p :: p in r.people <==> p in b.people && p.id != id
    ensures id !in Ids(r.people)
    ensures forall it :: it in r.items ==> id !in it.assignedTo
    ensures |r.items| == |b.items|
    ensures forall k :: 0 <= k < |b.items| ==>
      && r.items[k].id == b.items[k].id
      && r.items[k].name == b.items[k].name
      && r.items[k].price == b.items[k].price
      && (forall y :: y in r.items[k].assignedTo <==> y in b.items[k].assignedTo && y != id)
    ensures r == b.(people := r.people, items := r.items)
  {
    b.(people := DropPerson(b.people, id), items := PruneAssignments(b.items, id))
  }

  /** `removePerson` with the pending selection pruned as well (see the
      Findings module for why): the same removal as written, and afterwards
      the selection no longer refers to `id` while the other selected ids
      stay. */
  function RemovePerson(b: Bill, id: Id): (r: Bill)
    ensures forall p :: p in r.people <==> p in b.people && p.id != id
    ensures id !in Ids(r.people) && id !in r.selected
    ensures forall it :: it in r.items ==> id !in it.assignedTo
    ensures |r.items| == |b.items|
    ensures forall k :: 0 <= k < |b.items| ==>
      && r.items[k].id == b.items[k].id
      && r.items[k].name == b.items[k].name
      && r.items[k].price == b.items[k].price
      && (forall y :: y in r.items[k].assignedTo <==> y in b.items[k].assignedTo && y != id)
    ensures forall y :: y in r.selected <==> y in b.selected && y != id
    ensures r == RemovePersonAsWritten(b, id).(selected := r.selected)
  {
    RemovePersonAsWritten(b, id).(selected := Without(b.selected, id))
  }

  /** Removing the same participant twice is the same as removing it once. */
  lemma RemovePersonIdempotent(b: Bill, id: Id)
    ensures RemovePerson(RemovePerson(b, id), id) == RemovePerson(b, id)
  {
    var r := RemovePerson(b, id);
    var pruned := PruneAssignments(r.items, id);
    assert pruned == r.items by {
      forall k | 0 <= k < |r.items| ensures pruned[k] == r.items[k] {
        assert r.items[k] in r.items;
        assert Without(r.items[k].assignedTo, id) == r.items[k].assignedTo;
      }
    }
    assert DropPerson(r.people, id) == r.people;
    assert Without(r.selected, id) == r.selected;
  }

  /** Removing an id that names no participant leaves the participants as
      they are; when no item and not the selection refer to it either,
      nothing changes at all. */
  lemma RemovePersonAbsent(b: Bill, id: Id)
    requires id !in Ids(b.people)
    ensures RemovePerson(b, id).people == b.people
    ensures (forall it :: it in b.items ==> id !in it.assignedTo) && id !in b.selected ==>
      RemovePerson(b, id) == b
  {
    var r := RemovePerson(b, id);
    if (forall it :: it in b.items ==> id !in it.assignedTo) && id !in b.selected {
      assert r.items == b.items by {
        forall k | 0 <= k < |b.items| ensures r.items[k] == b.items[k] {
          assert b.items[k] in b.items;
        }
      }
    }
  }

  /** Removing the same participant twice, as written, is the same as
      removing it once. */
  lemma RemovePersonAsWrittenIdempotent(b: Bill, id: Id)
    ensures RemovePersonAsWritten(RemovePersonAsWritten(b, id), id) == RemovePersonAsWritten(b, id)
  {
    RemovePersonIdempotent(b, id);
  }

  /** Removing, as written, an id that names no participant and that no
      item refers to changes nothing, whatever the selection holds. */
  lemma RemovePersonAsWrittenAbsent(b: Bill, id: Id)
    requires id !in Ids(b.people)
    requires forall it :: it in b.items ==> id !in it.assignedTo
    ensures RemovePersonAsWritten(b, id) == b
  {
    var r := RemovePersonAsWritten(b, id);
    assert r.items == b.items by {
      forall k | 0 <= k < |b.items| ensures r.items[k] == b.items[k] {
        assert b.items[k] in b.items;
      }
    }
  }

  /** The removal a participant's delete button performs, as written: the
      button is only offered while more than one participant is listed,
      next to an existing one, so with distinct ids exactly one participant
      goes and one at least stays; the pending selection is left alone. */
  function UiRemovePerson(b: Bill, id: Id): (r: Bill)
    requires 1 < |b.people| && id in Ids(b.people)
    ensures NoDup(Ids(b.people)) ==> |r.people| == |b.people| - 1 && r.people != []
    ensures id !in Ids(r.people)
    ensures r.selected == b.selected
  {
    DropPersonIds(b.people, id);
    RemovePersonAsWritten(b, id)
  }

  /** `togglePersonSelection`: an id already selected is removed (every
      occurrence of it), any other id is appended. */
  function ToggleSelection(b: Bill, personId: Id): (r: Bill)
    ensures personId in r.selected <==> personId !in b.selected
    ensures forall y :: y != personId ==> (y in r.selected <==> y in b.selected)
    ensures personId !in b.selected ==> r.selected == b.selected + [personId]
    ensures NoDup(b.selected) ==> NoDup(r.selected)
    ensures r == b.(selected := r.selected)
  {
    if personId in b.selected then b.(selected := Without(b.selected, personId))
    else b.(selected := b.selected + [personId])
  }

  /** Toggling twice restores which ids are selected, and restores the very
      list when the id was not selected to begin with. */
  lemma ToggleTwice(b: Bill, personId: Id)
    ensures forall y :: y in ToggleSelection(ToggleSelection(b, personId), personId).selected <==> y in b.selected
    ensures personId !in b.selected ==> ToggleSelection(ToggleSelection(b, personId), personId) == b
  {
    if personId !in b.selected {
      WithoutAppend(b.selected, [personId], personId);
      assert Without([personId], personId) == [];
    }
  }

  /** When the add-item button is enabled: the trimmed name is non-empty
      (the name is not all white space), the price text is non-empty and
      the selection is non-empty. */
  predicate CanAddItem(b: Bill): (r: bool)
    ensures r <==> Trim(b.itemName) != [] && b.itemPrice != [] && b.selected != []
  {
    !Blank(b.itemName) && b.itemPrice != [] && |b.selected| > 0
  }

  /** `addItem`: when the guard holds, appends an item whose assignees are the
      current selection and clears the form; otherwise changes nothing. The
      name is stored untrimmed, and the price is the already parsed value. */
  function AddItem(b: Bill, freshId: Id, price: real): (r: Bill)
    ensures |r.items| == |b.items| + 1 <==> CanAddItem(b)
    ensures |r.items| == |b.items| + 1 ==>
      && r.items[..|b.items|] == b.items
      && r.items[|b.items|] == Item(freshId, b.itemName, price, b.selected)
      && r == b.(items := r.items, itemName := [], itemPrice := [], selected := [])
    ensures |r.items| != |b.items| + 1 ==> r == b
  {
    if CanAddItem(b) then
      var items := b.items + [Item(freshId, b.itemName, price, b.selected)];
      assert items[..|b.items|] == b.items;
      b.(items := items, itemName := [], itemPrice := [], selected := [])
    else
      b
  }

  /** The items whose id differs from `id`, in their original order. */
  function KeepOtherItems(items: seq<Item>, id: Id): (r: seq<Item>)
    ensures forall it :: it in r <==> it in items && it.id != id
    ensures |r| <= |items|
    ensures (forall it :: it in items ==> it.id != id) ==> r == items
  {
    if |items| == 0 then []
    else if items[0].id == id then KeepOtherItems(items[1..], id)
    else [items[0]] + KeepOtherItems(items[1..], id)
  }

  /** Filtering items distributes over concatenation: order is kept. */
  lemma {:induction false} KeepOtherItemsAppend(a: seq<Item>, c: seq<Item>, id: Id)
    ensures KeepOtherItems(a + c, id) == KeepOtherItems(a, id) + KeepOtherItems(c, id)
  {
    if |a| == 0 {
      assert a + c == c;
    } else {
      assert (a + c)[1..] == a[1..] + c;
      KeepOtherItemsAppend(a[1..], c, id);
    }
  }

  /** `removeItem`: keeps exactly the items with a different id and touches
      nothing else; removing an absent id changes nothing. */
  function RemoveItem(b: Bill, id: Id): (r: Bill)
    ensures forall it :: it in r.items <==> it in b.items && it.id != id
    ensures |r.items| <= |b.items|
    ensures (forall it :: it in b.items ==> it.id != id) ==> r == b
    ensures r == b.(items := r.items)
  {
    b.(items := KeepOtherItems(b.items, id))
  }

  /** Removing the same item twice is the same as removing it once. */
  lemma RemoveItemIdempotent(b: Bill, id: Id)
    ensures RemoveItem(RemoveItem(b, id), id) == RemoveItem(b, id)
  {
  }

  /** The in-place rename of a participant's name field: every participant
      with that id takes the new name (any string, even an empty one); ids,
      order and everything else stay. */
  function RenamePerson(b: Bill, id: Id, name: string): (r: Bill)
    ensures |r.people| == |b.people|
    ensures Ids(r.people) == Ids(b.people)
    ensures forall k :: 0 <= k < |b.people| ==>
      r.people[k].name == (if b.people[k].id == id then name else b.people[k].name)
    ensures r == b.(people := r.people)
  {
    var people := seq(|b.people|, k requires 0 <= k < |b.people| =>
      if b.people[k].id == id then b.people[k].(name := name) else b.people[k]);
    assert Ids(people) == Ids(b.people);
    b.(people := people)
  }
}
