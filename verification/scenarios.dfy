/** Worked bills, computed with the engine's own methods: an even split
    with cascading surcharges, a three-way split without surcharges, an item
    left unassigned by a participant's removal, and an empty bill. */
module Scenarios {
  import opened Lists
  import opened Domain
  import opened Actions
  import opened Engine
  import opened Conservation

  /** Two participants share a 20000 coffee at 5% service and 10% tax: the
      service charge is 1000, the tax 2100 (charged on 21000), the total
      23100, and each participant owes half of it. */
  method SharedCoffee() returns (totals: Totals, a: real, b: real)
    ensures totals == Totals(20000.0, 1000.0, 2100.0, 23100.0)
    ensures a == 11550.0 && b == 11550.0
  {
    var items := [Item("c", "Coffee", 20000.0, ["A", "B"])];
    assert items[..0] == [];
    totals := ComputeTotals(items, 5.0, 10.0);
    a := CalculatePersonTotal(items, "A", 5.0, 10.0);
    b := CalculatePersonTotal(items, "B", 5.0, 10.0);
  }

  /** Three participants share a 90000 pizza with no surcharges: each owes
      30000 and the total is 90000. */
  method ThreeWayPizza() returns (totals: Totals, a: real, b: real, c: real)
    ensures totals.total == 90000.0
    ensures a == 30000.0 && b == 30000.0 && c == 30000.0
  {
    var items := [Item("p", "Pizza", 90000.0, ["A", "B", "C"])];
    assert items[..0] == [];
    totals := ComputeTotals(items, 0.0, 0.0);
    a := CalculatePersonTotal(items, "A", 0.0, 0.0);
    b := CalculatePersonTotal(items, "B", 0.0, 0.0);
    c := CalculatePersonTotal(items, "C", 0.0, 0.0);
  }

  /** With no items every figure is zero, whoever is listed. */
  method EmptyBill(personId: Id, serviceCharge: real, tax: real) returns (totals: Totals, owed: real)
    ensures totals == Totals(0.0, 0.0, 0.0, 0.0)
    ensures owed == 0.0
  {
    totals := ComputeTotals([], serviceCharge, tax);
    owed := CalculatePersonTotal([], personId, serviceCharge, tax);
  }

  /** The bill of `OrphanedByRemoval`: a 10000 tea for A alone and a 20000
      rice dish shared by A and B, at 5% service and 10% tax. */
  const TeaAndRice: Bill :=
    Bill([Person("A", "Ana"), Person("B", "Budi")],
         [Item("t", "Tea", 10000.0, ["A"]), Item("r", "Rice", 20000.0, ["A", "B"])],
         "", "", [], "", 5.0, 10.0)

  /** Removing A leaves the tea with nobody to pay for it: the subtotal still
      holds its 10000, B now owes the whole rice dish, and the participant
      totals fall short of the 34650 bill total by the tea's cascaded 11550. */
  lemma OrphanedByRemoval()
    ensures var r := RemovePerson(TeaAndRice, "A");
      && r.items[0].assignedTo == []
      && r.items[1].assignedTo == ["B"]
      && SumPrices(r.items) == 30000.0
      && Cascade(SumPrices(r.items), 5.0, 10.0) == 34650.0
      && PersonTotalsSum(r.items, Ids(r.people), 5.0, 10.0) == 23100.0
      && Cascade(SumPrices(r.items), 5.0, 10.0) - PersonTotalsSum(r.items, Ids(r.people), 5.0, 10.0)
        == 11550.0
  {
    var b := TeaAndRice;
    var r := RemovePerson(b, "A");
    assert Without(["A"], "A") == [];
    assert Without(["A", "B"], "A") == ["B"] by {
      assert ["A", "B"][1..] == ["B"];
      assert Without(["B"], "A") == ["B"];
    }
    assert r.items == [Item("t", "Tea", 10000.0, []), Item("r", "Rice", 20000.0, ["B"])];
    assert r.people == [Person("B", "Budi")];
    assert Ids(r.people) == ["B"];
    assert Assignable(r.items, Ids(r.people));
    assert r.items[..1][..0] == [];
    assert r.items[..1] == [Item("t", "Tea", 10000.0, [])];
    assert SumPrices(r.items) == 30000.0;
    assert OrphanPrices(r.items) == 10000.0;
    OrphanGap(r.items, Ids(r.people), 5.0, 10.0);
    PersonTotalsConserved(r.items, Ids(r.people), 5.0, 10.0);
  }
}
