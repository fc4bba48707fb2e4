/** The allocation engine: the bill-wide subtotal, service charge, cascading
    tax and total, and each participant's equal-split share with the same
    cascade applied. Sums over items run from the first item to the last, as
    the component's `reduce` and `forEach` do. */
module Engine {
  import opened Domain

  /** One participant's share of one item: the price divided equally among
      the item's assignees if the participant is one of them, else nothing.
      The division is only reached with at least one assignee. */
  function Share(item: Item, id: Id): (r: real)
    ensures id !in item.assignedTo ==> r == 0.0
    ensures id in item.assignedTo ==> r * (|item.assignedTo| as real) == item.price
    ensures item.price >= 0.0 ==> 0.0 <= r <= item.price
  {
    if id in item.assignedTo then item.price / (|item.assignedTo| as real) else 0.0
  }

  /** The sum of all item prices, whoever they are assigned to. */
  function SumPrices(items: seq<Item>): (r: real)
    ensures items == [] ==> r == 0.0
    ensures NonNegativePrices(items) ==> r >= 0.0
  {
    if |items| == 0 then 0.0
    else SumPrices(items[..|items| - 1]) + items[|items| - 1].price
  }

  /** The sum of the prices of the items nobody is assigned to. */
  function OrphanPrices(items: seq<Item>): (r: real)
    ensures (forall it :: it in items ==> it.assignedTo != []) ==> r == 0.0
    ensures NonNegativePrices(items) ==> 0.0 <= r <= SumPrices(items)
  {
    if |items| == 0 then 0.0
    else
      var last := items[|items| - 1];
      assert forall it :: it in items[..|items| - 1] ==> it in items;
      OrphanPrices(items[..|items| - 1]) + (if last.assignedTo == [] then last.price else 0.0)
  }

  /** A participant's subtotal: the sum of their shares over all items. It is
      zero when they are on no item, and never exceeds the bill subtotal when
      prices are non-negative. */
  function PersonSubtotal(items: seq<Item>, id: Id): (r: real)
    ensures (forall it :: it in items ==> id !in it.assignedTo) ==> r == 0.0
    ensures NonNegativePrices(items) ==> 0.0 <= r <= SumPrices(items)
  {
    if |items| == 0 then 0.0
    else
      assert forall it :: it in items[..|items| - 1] ==> it in items;
      PersonSubtotal(items[..|items| - 1], id) + Share(items[|items| - 1], id)
  }

  /** Extending the prefix by one item adds that item's share. */
  lemma PersonSubtotalStep(items: seq<Item>, i: nat, id: Id)
    requires i < |items|
    ensures PersonSubtotal(items[..i + 1], id) == PersonSubtotal(items[..i], id) + Share(items[i], id)
  {
    assert items[..i + 1][..i] == items[..i];
  }

  /** The growth factor of the cascade: service charge, then tax on top. */
  function Factor(serviceCharge: real, tax: real): (r: real) {
    (1.0 + serviceCharge / 100.0) * (1.0 + tax / 100.0)
  }

  /** An amount with the service charge added and then tax charged on the
      surcharged amount. Over exact reals the cascade factorises into the
      product of the two growth factors, and with non-negative rates it never
      lowers a non-negative amount. */
  function Cascade(amount: real, serviceCharge: real, tax: real): (r: real)
    ensures r == amount * Factor(serviceCharge, tax)
    ensures amount >= 0.0 && serviceCharge >= 0.0 && tax >= 0.0 ==> r >= amount
  {
    var service := amount * (serviceCharge / 100.0);
    var taxed := (amount + service) * (tax / 100.0);
    assert amount >= 0.0 && serviceCharge >= 0.0 && tax >= 0.0 ==> service >= 0.0 && taxed >= 0.0 by {
      if amount >= 0.0 && serviceCharge >= 0.0 && tax >= 0.0 {
        assert serviceCharge / 100.0 >= 0.0 && tax / 100.0 >= 0.0;
      }
    }
    amount + service + taxed
  }

  /** The cascade is additive: cascading two amounts separately and adding
      the results is the same as cascading their sum. */
  lemma CascadeAdditive(a: real, b: real, serviceCharge: real, tax: real)
    ensures Cascade(a, serviceCharge, tax) + Cascade(b, serviceCharge, tax)
      == Cascade(a + b, serviceCharge, tax)
    ensures Cascade(0.0, serviceCharge, tax) == 0.0
  {
    var f := Factor(serviceCharge, tax);
    assert a * f + b * f == (a + b) * f;
  }

  /** The bill-wide figures the summary panel shows. */
  datatype Totals = Totals(subtotal: real, serviceCharge: real, tax: real, total: real)

  /** The summary figures for a given subtotal: the service charge on the
      subtotal, tax on the surcharged amount, and their sum, which is the
      cascade of the subtotal; none is negative, and the total is not
      below the subtotal, for a non-negative subtotal and rates. */
  function Charges(subtotal: real, serviceCharge: real, tax: real): (r: Totals)
    ensures r.subtotal == subtotal
    ensures r.serviceCharge == subtotal * (serviceCharge / 100.0)
    ensures r.tax == (r.subtotal + r.serviceCharge) * (tax / 100.0)
    ensures r.total == r.subtotal + r.serviceCharge + r.tax
    ensures r.total == Cascade(subtotal, serviceCharge, tax)
    ensures subtotal >= 0.0 && serviceCharge >= 0.0 && tax >= 0.0 ==>
      0.0 <= r.subtotal <= r.total && r.serviceCharge >= 0.0 && r.tax >= 0.0
  {
    var service := subtotal * (serviceCharge / 100.0);
    var taxed := (subtotal + service) * (tax / 100.0);
    assert subtotal >= 0.0 && serviceCharge >= 0.0 && tax >= 0.0 ==> service >= 0.0 && taxed >= 0.0 by {
      if subtotal >= 0.0 && serviceCharge >= 0.0 && tax >= 0.0 {
        assert serviceCharge / 100.0 >= 0.0 && tax / 100.0 >= 0.0;
        assert subtotal + service >= 0.0;
      }
    }
    Totals(subtotal, service, taxed, subtotal + service + taxed)
  }

  /** The left fold of the `reduce` that sums the item prices. */
  method AddUpPrices(items: seq<Item>) returns (subtotal: real)
    ensures subtotal == SumPrices(items)
  {
    subtotal := 0.0;
    var i := 0;
    while i < |items|
      invariant 0 <= i <= |items|
      invariant subtotal == SumPrices(items[..i])
    {
      assert items[..i + 1][..i] == items[..i];
      subtotal := subtotal + items[i].price;
      i := i + 1;
    }
    assert items[..|items|] == items;
  }

  /** The bill-wide derivation: the subtotal is accumulated by a left fold
      over the items; service charge and tax are then charged in cascade. */
  method ComputeTotals(items: seq<Item>, serviceCharge: real, tax: real) returns (r: Totals)
    ensures r.subtotal == SumPrices(items)
    ensures r.serviceCharge == r.subtotal * (serviceCharge / 100.0)
    ensures r.total == r.subtotal + r.serviceCharge + r.tax
    ensures r.total == SumPrices(items) * Factor(serviceCharge, tax)
    ensures r.tax == (r.subtotal + r.serviceCharge) * (tax / 100.0)
    ensures items == [] ==> r == Totals(0.0, 0.0, 0.0, 0.0)
    ensures NonNegativePrices(items) && serviceCharge >= 0.0 && tax >= 0.0 ==>
      0.0 <= r.subtotal <= r.total && r.serviceCharge >= 0.0 && r.tax >= 0.0
  {
    var subtotal := AddUpPrices(items);
    r := Charges(subtotal, serviceCharge, tax);
  }

  /** The `forEach` loop of `calculatePersonTotal`: the participant's equal
      shares of the items they are on, accumulated in item order. */
  method AddUpShares(items: seq<Item>, personId: Id) returns (personSubtotal: real)
    ensures personSubtotal == PersonSubtotal(items, personId)
  {
    personSubtotal := 0.0;
    var i := 0;
    while i < |items|
      invariant 0 <= i <= |items|
      invariant personSubtotal == PersonSubtotal(items[..i], personId)
    {
      var item := items[i];
      PersonSubtotalStep(items, i, personId);
      if personId in item.assignedTo {
        personSubtotal := personSubtotal + item.price / (|item.assignedTo| as real);
      }
      i := i + 1;
    }
    assert items[..|items|] == items;
  }

  /** `calculatePersonTotal`: the participant's shares accumulated over the
      items, then service charge and tax charged in the same cascade as the
      bill-wide total. */
  method CalculatePersonTotal(items: seq<Item>, personId: Id, serviceCharge: real, tax: real)
    returns (total: real)
    ensures total == Cascade(PersonSubtotal(items, personId), serviceCharge, tax)
  {
    var personSubtotal := AddUpShares(items, personId);
    total := Cascade(personSubtotal, serviceCharge, tax);
  }
}
