/** What the equal split conserves. Each item's shares add up to its price
    when its assignees are distinct, listed participants; the participants'
    subtotals therefore add up to the bill subtotal less the items nobody is
    assigned to, and the same holds after the cascade. */
module Conservation {
  import opened Lists
  import opened Domain
  import opened Engine

  /** The shares of one item taken by the participants `ids`: nothing when
      none of them is on the item. */
  function ShareSum(item: Item, ids: seq<Id>): (r: real)
    ensures (forall k :: 0 <= k < |ids| ==> ids[k] !in item.assignedTo) ==> r == 0.0
  {
    if |ids| == 0 then 0.0 else Share(item, ids[0]) + ShareSum(item, ids[1..])
  }

  /** The participant subtotals of `ids`, added up. */
  function SubtotalSum(items: seq<Item>, ids: seq<Id>): (r: real) {
    if |ids| == 0 then 0.0 else PersonSubtotal(items, ids[0]) + SubtotalSum(items, ids[1..])
  }

  /** The participant totals of `ids` (what the per-person panel lists), added up. */
  function PersonTotalsSum(items: seq<Item>, ids: seq<Id>, serviceCharge: real, tax: real): (r: real) {
    if |ids| == 0 then 0.0
    else
      Cascade(PersonSubtotal(items, ids[0]), serviceCharge, tax)
        + PersonTotalsSum(items, ids[1..], serviceCharge, tax)
  }

  /** `k` copies of `c`, added up. */
  function Repeat(c: real, k: nat): (r: real) {
    if k == 0 then 0.0 else c + Repeat(c, k - 1)
  }

  /** Adding up `k` copies of `c` is multiplying `c` by `k`. */
  lemma {:induction false} RepeatIsProduct(c: real, k: nat)
    ensures Repeat(c, k) == c * (k as real)
  {
    if k > 0 {
      RepeatIsProduct(c, k - 1);
      assert c * (k as real) == c + c * ((k - 1) as real);
    }
  }

  /** Every participant in `ids` that is on the item takes the same share, so
      the shares add up to one share per such participant. */
  lemma {:induction false} ShareSumCounts(item: Item, ids: seq<Id>)
    requires item.assignedTo != []
    ensures ShareSum(item, ids)
      == Repeat(item.price / (|item.assignedTo| as real), CountIn(ids, item.assignedTo))
  {
    if |ids| > 0 {
      ShareSumCounts(item, ids[1..]);
    }
  }

  /** Equal-split conservation: when the participant ids are distinct and the
      item's assignees are distinct and all listed, the participants' shares
      of the item add up to its whole price, or to nothing if nobody is on it. */
  lemma EqualSplit(item: Item, ids: seq<Id>)
    requires NoDup(ids) && AssigneesOk(item.assignedTo, ids)
    ensures ShareSum(item, ids) == if item.assignedTo == [] then 0.0 else item.price
  {
    if item.assignedTo != [] {
      ShareSumCounts(item, ids);
      CountInCovers(ids, item.assignedTo);
      RepeatSplit(item.price, |item.assignedTo|);
    }
  }

  /** `k` equal parts of an amount add back up to the amount. */
  lemma RepeatSplit(amount: real, k: nat)
    requires k > 0
    ensures Repeat(amount / (k as real), k) == amount
  {
    RepeatIsProduct(amount / (k as real), k);
  }

  /** For an item shared by k distinct assignees, the k shares add up to the
      price. */
  lemma EqualSplitAmongAssignees(item: Item)
    requires NoDup(item.assignedTo) && item.assignedTo != []
    ensures ShareSum(item, item.assignedTo) == item.price
  {
    EqualSplit(item, item.assignedTo);
  }

  /** Appending an item adds its shares to the participants' subtotals. */
  lemma {:induction false} SubtotalSumSnoc(items: seq<Item>, item: Item, ids: seq<Id>)
    ensures SubtotalSum(items + [item], ids) == SubtotalSum(items, ids) + ShareSum(item, ids)
  {
    if |ids| > 0 {
      assert (items + [item])[..|items|] == items;
      SubtotalSumSnoc(items, item, ids[1..]);
    }
  }

  /** The participants' subtotals add up to the bill subtotal less the prices
      of the items nobody is assigned to. */
  lemma {:induction false} SubtotalsConserved(items: seq<Item>, ids: seq<Id>)
    requires Assignable(items, ids)
    ensures SubtotalSum(items, ids) == SumPrices(items) - OrphanPrices(items)
  {
    if |items| == 0 {
      SubtotalSumEmpty(ids);
    } else {
      var front, last := items[..|items| - 1], items[|items| - 1];
      assert items == front + [last];
      assert forall it :: it in front ==> it in items;
      SubtotalsConserved(front, ids);
      SubtotalSumSnoc(front, last, ids);
      assert last in items;
      EqualSplit(last, ids);
    }
  }

  /** With no items every participant subtotal is zero. */
  lemma {:induction false} SubtotalSumEmpty(ids: seq<Id>)
    ensures SubtotalSum([], ids) == 0.0
  {
    if |ids| > 0 {
      SubtotalSumEmpty(ids[1..]);
    }
  }

  /** The cascade is applied per participant, and since it is additive,
      adding up the participant totals is the same as cascading the sum of
      the participant subtotals. */
  lemma {:induction false} PersonTotalsCascade(items: seq<Item>, ids: seq<Id>, serviceCharge: real, tax: real)
    ensures PersonTotalsSum(items, ids, serviceCharge, tax)
      == Cascade(SubtotalSum(items, ids), serviceCharge, tax)
  {
    if |ids| == 0 {
      CascadeAdditive(0.0, 0.0, serviceCharge, tax);
    } else {
      PersonTotalsCascade(items, ids[1..], serviceCharge, tax);
      CascadeAdditive(PersonSubtotal(items, ids[0]), SubtotalSum(items, ids[1..]), serviceCharge, tax);
    }
  }

  /** The participant totals add up to the cascaded bill subtotal less the
      items nobody is assigned to. */
  lemma PersonTotalsConserved(items: seq<Item>, ids: seq<Id>, serviceCharge: real, tax: real)
    requires Assignable(items, ids)
    ensures PersonTotalsSum(items, ids, serviceCharge, tax)
      == Cascade(SumPrices(items) - OrphanPrices(items), serviceCharge, tax)
  {
    PersonTotalsCascade(items, ids, serviceCharge, tax);
    SubtotalsConserved(items, ids);
  }

  /** The gap between the bill total and the participant totals is exactly the
      cascaded price of the unassigned items; with non-negative prices and
      rates the participant totals never exceed the bill total, and fall
      strictly short of it once some unassigned item has a positive price. */
  lemma OrphanGap(items: seq<Item>, ids: seq<Id>, serviceCharge: real, tax: real)
    requires Assignable(items, ids)
    ensures Cascade(SumPrices(items), serviceCharge, tax) - PersonTotalsSum(items, ids, serviceCharge, tax)
      == Cascade(OrphanPrices(items), serviceCharge, tax)
    ensures NonNegativePrices(items) && serviceCharge >= 0.0 && tax >= 0.0 ==>
      PersonTotalsSum(items, ids, serviceCharge, tax) <= Cascade(SumPrices(items), serviceCharge, tax)
    ensures NonNegativePrices(items) && serviceCharge >= 0.0 && tax >= 0.0 && OrphanPrices(items) > 0.0 ==>
      PersonTotalsSum(items, ids, serviceCharge, tax) < Cascade(SumPrices(items), serviceCharge, tax)
  {
    PersonTotalsConserved(items, ids, serviceCharge, tax);
    var orphans := OrphanPrices(items);
    CascadeAdditive(SumPrices(items) - orphans, orphans, serviceCharge, tax);
    assert SumPrices(items) - orphans + orphans == SumPrices(items);
  }

  /** An item whose assignees are distinct, listed participants adds its
      price to the bill subtotal and its cascaded price to the participant
      totals taken together. */
  lemma AppendAssignedItem(items: seq<Item>, item: Item, ids: seq<Id>, serviceCharge: real, tax: real)
    requires NoDup(ids) && AssigneesOk(item.assignedTo, ids) && item.assignedTo != []
    ensures SumPrices(items + [item]) == SumPrices(items) + item.price
    ensures PersonTotalsSum(items + [item], ids, serviceCharge, tax)
      == PersonTotalsSum(items, ids, serviceCharge, tax) + Cascade(item.price, serviceCharge, tax)
  {
    assert (items + [item])[..|items|] == items;
    SubtotalSumSnoc(items, item, ids);
    EqualSplit(item, ids);
    PersonTotalsCascade(items, ids, serviceCharge, tax);
    PersonTotalsCascade(items + [item], ids, serviceCharge, tax);
    CascadeAdditive(SubtotalSum(items, ids), item.price, serviceCharge, tax);
  }

  /** An item nobody is assigned to adds its price to the bill subtotal and
      nothing to any participant. */
  lemma OrphanItem(items: seq<Item>, item: Item, ids: seq<Id>)
    requires item.assignedTo == []
    ensures SumPrices(items + [item]) == SumPrices(items) + item.price
    ensures forall id :: PersonSubtotal(items + [item], id) == PersonSubtotal(items, id)
    ensures SubtotalSum(items + [item], ids) == SubtotalSum(items, ids)
  {
    assert (items + [item])[..|items|] == items;
    SubtotalSumSnoc(items, item, ids);
  }

  /** With no items, the bill figures and every participant total are zero. */
  lemma NoItems(ids: seq<Id>, serviceCharge: real, tax: real)
    ensures SumPrices([]) == 0.0 && Cascade(SumPrices([]), serviceCharge, tax) == 0.0
    ensures forall id :: Cascade(PersonSubtotal([], id), serviceCharge, tax) == 0.0
    ensures PersonTotalsSum([], ids, serviceCharge, tax) == 0.0
  {
    PersonTotalsCascade([], ids, serviceCharge, tax);
    SubtotalSumEmpty(ids);
    CascadeAdditive(0.0, 0.0, serviceCharge, tax);
  }
}
