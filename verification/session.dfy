/** A session of the screen with the corrected participant removal (the one
    that also prunes the pending selection, see the Findings module): every
    user action as a value, the state it leads to, and the invariant
    (distinct participant ids; items and the selection refer, without
    repetition, only to listed participants) kept along every sequence of
    actions the screen offers. The summary the screen shows for any state
    reachable this way then splits everything except the unassigned items.
    With the removal as written these facts fail: `Findings.StaleSelectionAsWritten`
    reaches a state that breaks the invariant and owes 1155 to nobody. */
module Session {
  import opened Lists
  import Text
  import opened Domain
  import opened Actions
  import opened Engine
  import opened Conservation

  /** What the user can do. Field edits store the raw text (or the already
      parsed rate); identifiers for new records are supplied fresh. */
  datatype Action =
    | EditPersonName(text: string)
    | SubmitPerson(freshId: Id)
    | DeletePerson(id: Id)
    | Rename(id: Id, name: string)
    | ToggleAssignee(id: Id)
    | EditItemName(text: string)
    | EditItemPrice(text: string)
    | SubmitItem(freshId: Id, price: real)
    | DeleteItem(id: Id)
    | EditServiceCharge(rate: real)
    | EditTax(rate: real)

  /** When the screen offers an action: delete buttons, name fields and
      assignee buttons exist only next to listed participants, the delete
      button only while more than one is listed, and a new participant's id
      is one not yet in use. Field edits and the add buttons are always
      offered (the add buttons' own guards decide what they do). Item
      deletion is offered for any id: this over-approximates the per-item
      delete buttons, and deleting an id no item has changes nothing. */
  predicate Enabled(b: Bill, a: Action): (r: bool)
    ensures r && (a.DeletePerson? || a.Rename? || a.ToggleAssignee?) ==>
      exists p :: p in b.people && p.id == a.id
    ensures r && a.DeletePerson? ==> 2 <= |b.people|
    ensures r && a.SubmitPerson? ==> forall p :: p in b.people ==> p.id != a.freshId
    ensures !(a.DeletePerson? || a.Rename? || a.ToggleAssignee? || a.SubmitPerson?) ==> r
  {
    match a
    case SubmitPerson(freshId) => freshId !in Ids(b.people)
    case DeletePerson(id) => 1 < |b.people| && id in Ids(b.people)
    case Rename(id, _) => id in Ids(b.people)
    case ToggleAssignee(id) => id in Ids(b.people)
    case _ => true
  }

  /** The state after one action. Each action changes only the part of the
      state its control edits; deleting a participant is the screen's delete
      with the pending selection pruned as well. */
  function Apply(b: Bill, a: Action): (r: Bill)
    requires Enabled(b, a)
    ensures a.DeletePerson? ==> r == UiRemovePerson(b, a.id).(selected := Without(b.selected, a.id))
    ensures !(a.SubmitPerson? || a.DeletePerson? || a.Rename?) ==> r.people == b.people
    ensures a.Rename? ==> Ids(r.people) == Ids(b.people)
    ensures !(a.DeletePerson? || a.SubmitItem? || a.DeleteItem?) ==> r.items == b.items
    ensures !a.EditServiceCharge? ==> r.serviceCharge == b.serviceCharge
    ensures !a.EditTax? ==> r.tax == b.tax
    ensures !(a.ToggleAssignee? || a.DeletePerson? || a.SubmitItem?) ==> r.selected == b.selected
    ensures !(a.EditItemName? || a.SubmitItem?) ==> r.itemName == b.itemName
    ensures !(a.EditItemPrice? || a.SubmitItem?) ==> r.itemPrice == b.itemPrice
    ensures !(a.EditPersonName? || a.SubmitPerson?) ==> r.newPersonName == b.newPersonName
  {
    match a
    case EditPersonName(text) => b.(newPersonName := text)
    case SubmitPerson(freshId) => AddPerson(b, freshId)
    case DeletePerson(id) => RemovePerson(b, id)
    case Rename(id, name) => RenamePerson(b, id, name)
    case ToggleAssignee(id) => ToggleSelection(b, id)
    case EditItemName(text) => b.(itemName := text)
    case EditItemPrice(text) => b.(itemPrice := text)
    case SubmitItem(freshId, price) => AddItem(b, freshId, price)
    case DeleteItem(id) => RemoveItem(b, id)
    case EditServiceCharge(rate) => b.(serviceCharge := rate)
    case EditTax(rate) => b.(tax := rate)
  }

  /** Appending a participant appends its id. */
  lemma {:induction false} IdsSnoc(people: seq<Person>, p: Person)
    ensures Ids(people + [p]) == Ids(people) + [p.id]
  {
    if |people| > 0 {
      assert (people + [p])[1..] == people[1..] + [p];
      IdsSnoc(people[1..], p);
    }
  }

  /** Appending a participant under an unused id keeps the invariant. */
  lemma AppendPersonKeepsInv(b: Bill, p: Person)
    requires Inv(b) && p.id !in Ids(b.people)
    ensures Inv(b.(people := b.people + [p]))
  {
    var ids := Ids(b.people);
    IdsSnoc(b.people, p);
    assert NoDup(ids + [p.id]) by {
      forall i, j | 0 <= i < j < |ids| + 1 ensures (ids + [p.id])[i] != (ids + [p.id])[j] {
        if j == |ids| {
          assert ids[i] in ids;
        }
      }
    }
  }

  /** A participant added under an unused id keeps the invariant. */
  lemma AddPersonKeepsInv(b: Bill, freshId: Id)
    requires Inv(b) && freshId !in Ids(b.people)
    ensures Inv(AddPerson(b, freshId))
  {
    if !Text.Blank(b.newPersonName) {
      var p := Person(freshId, Text.Trim(b.newPersonName));
      AppendPersonKeepsInv(b, p);
      assert AddPerson(b, freshId) == b.(people := b.people + [p], newPersonName := []);
    }
  }

  /** Pruning an id from a well-formed assignee list leaves it well formed
      for the participant ids without that id. */
  lemma PruneKeepsAssignees(assignees: seq<Id>, ids: seq<Id>, id: Id)
    requires AssigneesOk(assignees, ids)
    ensures AssigneesOk(Without(assignees, id), Without(ids, id))
  {
  }

  /** Pruning an id from every item keeps the assignment well formed for
      the participant ids without that id. */
  lemma PruneKeepsAssignable(items: seq<Item>, ids: seq<Id>, id: Id)
    requires Assignable(items, ids)
    ensures Assignable(PruneAssignments(items, id), Without(ids, id))
  {
    var r := PruneAssignments(items, id);
    forall it | it in r ensures AssigneesOk(it.assignedTo, Without(ids, id)) {
      var k :| 0 <= k < |r| && r[k] == it;
      assert items[k] in items;
      PruneKeepsAssignees(items[k].assignedTo, ids, id);
    }
  }

  /** Removing a participant keeps the invariant: the id leaves the
      participant list, every item and the selection together. */
  lemma RemovePersonKeepsInv(b: Bill, id: Id)
    requires Inv(b)
    ensures Inv(RemovePerson(b, id))
  {
    DropPersonIds(b.people, id);
    PruneKeepsAssignable(b.items, Ids(b.people), id);
    PruneKeepsAssignees(b.selected, Ids(b.people), id);
    assert RemovePerson(b, id) == b.(people := DropPerson(b.people, id),
      items := PruneAssignments(b.items, id), selected := Without(b.selected, id));
  }

  /** Toggling a listed participant keeps the invariant. */
  lemma ToggleKeepsInv(b: Bill, id: Id)
    requires Inv(b) && id in Ids(b.people)
    ensures Inv(ToggleSelection(b, id))
  {
  }

  /** Adding an item keeps the invariant: its assignees are the selection,
      which the invariant already constrains. */
  lemma AddItemKeepsInv(b: Bill, freshId: Id, price: real)
    requires Inv(b)
    ensures Inv(AddItem(b, freshId, price))
  {
    var r := AddItem(b, freshId, price);
    if r != b {
      assert r.items == b.items + [Item(freshId, b.itemName, price, b.selected)];
    }
  }

  /** Every action the screen offers, with the corrected participant
      removal, keeps the invariant. */
  lemma ApplyKeepsInv(b: Bill, a: Action)
    requires Inv(b) && Enabled(b, a)
    ensures Inv(Apply(b, a))
  {
    match a
    case SubmitPerson(freshId) => AddPersonKeepsInv(b, freshId);
    case DeletePerson(id) => RemovePersonKeepsInv(b, id);
    case ToggleAssignee(id) => ToggleKeepsInv(b, id);
    case SubmitItem(freshId, price) => AddItemKeepsInv(b, freshId, price);
    case _ =>
  }

  /** Every action of `actions` is offered in the state it is taken in. */
  predicate Valid(b: Bill, actions: seq<Action>)
    decreases |actions|
  {
    actions == [] || (Enabled(b, actions[0]) && Valid(Apply(b, actions[0]), actions[1..]))
  }

  /** The state after a sequence of offered actions. */
  function Run(b: Bill, actions: seq<Action>): (r: Bill)
    requires Valid(b, actions)
    decreases |actions|
  {
    if actions == [] then b else Run(Apply(b, actions[0]), actions[1..])
  }

  /** Any sequence of offered actions, with the corrected participant
      removal, keeps the invariant. */
  lemma {:induction false} RunKeepsInv(b: Bill, actions: seq<Action>)
    requires Inv(b) && Valid(b, actions)
    ensures Inv(Run(b, actions))
    decreases |actions|
  {
    if actions != [] {
      ApplyKeepsInv(b, actions[0]);
      RunKeepsInv(Apply(b, actions[0]), actions[1..]);
    }
  }

  /** The participant totals of `b` add up to its bill total less the
      cascaded price of the items nobody is assigned to. */
  predicate Conserved(b: Bill) {
    PersonTotalsSum(b.items, Ids(b.people), b.serviceCharge, b.tax)
      == Cascade(SumPrices(b.items) - OrphanPrices(b.items), b.serviceCharge, b.tax)
  }

  /** Every well-formed state splits everything except the unassigned items. */
  lemma InvConserves(b: Bill)
    requires Inv(b)
    ensures Conserved(b)
  {
    PersonTotalsConserved(b.items, Ids(b.people), b.serviceCharge, b.tax);
  }

  /** From any well-formed state, every state a sequence of offered actions
      leads to splits everything except the unassigned items. */
  lemma RunConserves(b0: Bill, actions: seq<Action>)
    requires Inv(b0) && Valid(b0, actions)
    ensures Conserved(Run(b0, actions))
  {
    RunKeepsInv(b0, actions);
    InvConserves(Run(b0, actions));
  }

  /** In every state reachable from the initial screen, the participant
      totals add up to the bill total less the cascaded price of the items
      nobody is assigned to any more. */
  lemma ReachableConservation(actions: seq<Action>)
    requires Valid(Initial, actions)
    ensures Conserved(Run(Initial, actions))
  {
    InitialInv();
    RunConserves(Initial, actions);
  }

  /** Adding an item in a well-formed state raises the bill subtotal by its
      price and the participant totals, together, by its cascaded price:
      its k assignees' equal shares cover it exactly. */
  lemma AddItemSplitsFully(b: Bill, freshId: Id, price: real)
    requires Inv(b) && CanAddItem(b)
    ensures var r := AddItem(b, freshId, price);
      && SumPrices(r.items) == SumPrices(b.items) + price
      && PersonTotalsSum(r.items, Ids(r.people), r.serviceCharge, r.tax)
        == PersonTotalsSum(b.items, Ids(b.people), b.serviceCharge, b.tax)
          + Cascade(price, b.serviceCharge, b.tax)
  {
    var r := AddItem(b, freshId, price);
    var item := Item(freshId, b.itemName, price, b.selected);
    assert r == b.(items := b.items + [item], itemName := [], itemPrice := [], selected := []);
    AddItemKeepsInv(b, freshId, price);
    AppendAssignedItem(b.items, item, Ids(b.people), b.serviceCharge, b.tax);
  }

  /** Item prices, paired position by position, add up the same. */
  lemma {:induction false} SumPricesPointwise(xs: seq<Item>, ys: seq<Item>)
    requires |xs| == |ys|
    requires forall k :: 0 <= k < |xs| ==> xs[k].price == ys[k].price
    ensures SumPrices(xs) == SumPrices(ys)
  {
    if |xs| > 0 {
      SumPricesPointwise(xs[..|xs| - 1], ys[..|ys| - 1]);
    }
  }

  /** Removing a participant leaves the bill subtotal as it was: the prices
      of the items they shared stay on the bill. */
  lemma RemovePersonKeepsSubtotal(b: Bill, id: Id)
    ensures SumPrices(RemovePerson(b, id).items) == SumPrices(b.items)
  {
    SumPricesPointwise(RemovePerson(b, id).items, b.items);
  }
}
