/** The records of the bill splitter and the state its screen keeps:
    participants, line items, the add-item and add-participant form fields,
    the current assignee selection and the two surcharge percentages. */
module Domain {
  import opened Lists

  /** Participant and item identifiers are opaque strings. */
  type Id = string

  /** A participant of the bill. */
  datatype Person = Person(id: Id, name: string)

  /** A line item; `assignedTo` lists the participants sharing its price. */
  datatype Item = Item(id: Id, name: string, price: real, assignedTo: seq<Id>)

  /** The whole state of the screen. `itemPrice` is the raw text of the price
      field; money and percentages are exact reals. */
  datatype Bill = Bill(
    people: seq<Person>,
    items: seq<Item>,
    itemName: string,
    itemPrice: string,
    selected: seq<Id>,
    newPersonName: string,
    serviceCharge: real,
    tax: real)

  /** The ids of `people`, in order. */
  function Ids(people: seq<Person>): (r: seq<Id>)
    ensures |r| == |people|
    ensures forall k :: 0 <= k < |people| ==> r[k] == people[k].id
    ensures forall p :: p in people ==> p.id in r
  {
    if |people| == 0 then [] else [people[0].id] + Ids(people[1..])
  }

  /** An assignee list is duplicate-free and names only ids from `ids`. */
  predicate AssigneesOk(assignees: seq<Id>, ids: seq<Id>) {
    NoDup(assignees) && forall x :: x in assignees ==> x in ids
  }

  /** The participant ids are distinct and every item's assignee list is
      well formed with respect to them. */
  predicate Assignable(items: seq<Item>, ids: seq<Id>) {
    NoDup(ids) && forall it :: it in items ==> AssigneesOk(it.assignedTo, ids)
  }

  /** The state invariant: distinct participant ids, no dangling or repeated
      assignee in any item, and the same for the pending selection. */
  predicate Inv(b: Bill) {
    Assignable(b.items, Ids(b.people)) && AssigneesOk(b.selected, Ids(b.people))
  }

  /** Every item price is non-negative. */
  predicate NonNegativePrices(items: seq<Item>) {
    forall it :: it in items ==> it.price >= 0.0
  }

  /** The state the screen starts in: two participants, no items, 5% service
      charge and 10% tax. */
  const Initial: Bill :=
    Bill([Person("1", "Person 1"), Person("2", "Person 2")], [], "", "", [], "", 5.0, 10.0)

  /** The initial state satisfies the invariant. */
  lemma InitialInv()
    ensures Inv(Initial)
    ensures |Initial.people| == 2 && Initial.items == []
  {
    assert Ids(Initial.people) == ["1", "2"];
  }
}
