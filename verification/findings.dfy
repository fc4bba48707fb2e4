/** `removePerson` prunes the removed id from the participants and from every
    item, but not from the pending assignee selection. A participant selected
    for the next item and then removed therefore stays selected, the add-item
    button stays enabled, and the new item is assigned to an id that names
    nobody: its price is on the bill but in no participant's total, although
    the item does not look unassigned. `RemovePersonAsWritten` is that
    behaviour; `Actions.RemovePerson`, which the rest of the model uses, also
    prunes the selection and keeps the invariant (`Session.RemovePersonKeepsInv`). */
module Findings {
  import opened Lists
  import opened Text
  import opened Domain
  import opened Actions
  import opened Engine
  import opened Conservation
  import Session

  /** The initial screen with "Tea" typed as item name and "1000" as price. */
  const TeaTyped: Bill := Initial.(itemName := "Tea", itemPrice := "1000")

  /** The bill the as-written steps below end in: the tea is assigned to
      "1", who is no longer listed. */
  const StaleBill: Bill :=
    Bill([Person("2", "Person 2")], [Item("i1", "Tea", 1000.0, ["1"])], "", "", [], "", 5.0, 10.0)

  /** Selecting "1" and then deleting "1" as written: "2" is the only
      participant left, but "1" is still selected. */
  lemma StaleRemoval()
    ensures var b1 := ToggleSelection(TeaTyped, "1");
      && Inv(TeaTyped) && Inv(b1) && 1 < |b1.people| && "1" in Ids(b1.people)
      && RemovePersonAsWritten(b1, "1")
        == Bill([Person("2", "Person 2")], [], "Tea", "1000", ["1"], "", 5.0, 10.0)
  {
    InitialInv();
    var b1 := ToggleSelection(TeaTyped, "1");
    assert b1.selected == ["1"];
    assert RemovePersonAsWritten(b1, "1").people == [Person("2", "Person 2")] by {
      assert Initial.people[1..] == [Person("2", "Person 2")];
      assert DropPerson([Person("2", "Person 2")], "1") == [Person("2", "Person 2")];
    }
  }

  /** Adding the tea with "1" still selected assigns it to "1". */
  lemma StaleAdd()
    ensures AddItem(Bill([Person("2", "Person 2")], [], "Tea", "1000", ["1"], "", 5.0, 10.0), "i1", 1000.0)
      == StaleBill
  {
    var b2 := Bill([Person("2", "Person 2")], [], "Tea", "1000", ["1"], "", 5.0, 10.0);
    assert !Blank(b2.itemName) by {
      assert !IsSpace(b2.itemName[0]);
    }
  }

  /** Selecting "1", deleting "1" as written and adding the tea leads to
      `StaleBill`; every step is one the screen offers. */
  lemma StaleSteps()
    ensures var b1 := ToggleSelection(TeaTyped, "1");
      && Inv(TeaTyped) && Inv(b1) && 1 < |b1.people| && "1" in Ids(b1.people)
      && AddItem(RemovePersonAsWritten(b1, "1"), "i1", 1000.0) == StaleBill
  {
    StaleRemoval();
    StaleAdd();
  }

  /** In `StaleBill` the tea names a participant who is not listed, so the
      invariant fails; it does not count as unassigned, yet nobody owes any
      of the 1155 the bill total charges for it, so the totals are not
      conserved. */
  lemma StaleBillFigures()
    ensures !Inv(StaleBill)
    ensures OrphanPrices(StaleBill.items) == 0.0
    ensures Cascade(SumPrices(StaleBill.items), 5.0, 10.0) == 1155.0
    ensures PersonTotalsSum(StaleBill.items, Ids(StaleBill.people), 5.0, 10.0) == 0.0
    ensures !Session.Conserved(StaleBill)
  {
    var items := StaleBill.items;
    assert Ids(StaleBill.people) == ["2"];
    assert !AssigneesOk(items[0].assignedTo, ["2"]) by {
      assert "1" in items[0].assignedTo;
    }
    assert items[0] in items;
    assert items[..0] == [];
    assert PersonSubtotal(items, "2") == 0.0;
    CascadeAdditive(0.0, 0.0, 5.0, 10.0);
  }

  /** Select participant "1", delete participant "1" (offered, as two are
      listed), then add the tea: as written, the tea is assigned to the
      deleted "1", the invariant is broken, and the 1155 the bill total
      charges for it is owed by nobody. */
  lemma StaleSelectionAsWritten()
    ensures var b1 := ToggleSelection(TeaTyped, "1");
      var b2 := RemovePersonAsWritten(b1, "1");
      var b3 := AddItem(b2, "i1", 1000.0);
      && Inv(TeaTyped) && Inv(b1) && 1 < |b1.people| && "1" in Ids(b1.people)
      && |b3.items| == 1 && b3.items[0].assignedTo == ["1"] && "1" !in Ids(b3.people)
      && !Inv(b3)
      && OrphanPrices(b3.items) == 0.0
      && Cascade(SumPrices(b3.items), b3.serviceCharge, b3.tax) == 1155.0
      && PersonTotalsSum(b3.items, Ids(b3.people), b3.serviceCharge, b3.tax) == 0.0
  {
    StaleSteps();
    StaleBillFigures();
    assert Ids(StaleBill.people) == ["2"];
  }

  /** The same steps with the selection pruned on removal: the selection is
      empty afterwards, so the add-item action is refused and nothing is owed
      to a deleted participant. */
  lemma StaleSelectionCorrected()
    ensures var b1 := ToggleSelection(TeaTyped, "1");
      var b2 := RemovePerson(b1, "1");
      var b3 := AddItem(b2, "i1", 1000.0);
      && b2.selected == []
      && b3 == b2
      && Inv(b3)
  {
    InitialInv();
    var b1 := ToggleSelection(TeaTyped, "1");
    assert b1.selected == ["1"];
    assert Without(["1"], "1") == [];
    Session.RemovePersonKeepsInv(b1, "1");
  }
}
