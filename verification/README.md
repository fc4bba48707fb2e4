# Bill splitter: allocation model

A Dafny model of the bill-splitting logic in the `BillSplitter` screen
(`src/App.tsx`). A bill has participants (`Person`: id, name) and line items
(`Item`: id, name, price, the ids it is assigned to). It also has two
percentages: a service charge, and a tax that cascades on top of it.

The screen state is an immutable `Bill` record. Each user action is a pure
transition:
- adding a participant
- removing a participant, which also prunes their id from every item
- renaming a participant in place
- toggling an assignee in the pending selection
- adding an item behind its guard
- removing an item

The allocation engine computes the bill subtotal, service charge, tax and
total, and each participant's total. A participant's total is the sum of
their equal shares of the items they are on, with the same cascade applied.
The engine is a pair of loop methods, specified against recursive
definitions.

On top of these the model proves the algebra the screen relies on:
- The cascade factorises into `(1 + s/100)(1 + t/100)` and is additive.
- An item's equal shares add up to its price.
- The participant totals add up to the cascaded subtotal less the items
  nobody is assigned to. With the participant removal corrected to prune
  the pending selection too, this holds in every state reachable from the
  initial screen. With the removal as written it does not (see Findings).
- The structural facts about the removals, the toggle and the add-item guard.

Modules, in dependency order:
- `Lists`: duplicate-free sequences, removing an element, counting shared elements.
- `Text`: the whitespace trim that guards names.
- `Domain`: the records, the `Bill` state, its invariant and the initial state.
- `Actions`: the transitions.
- `Engine`: shares, sums, the cascade, and the two computing methods.
- `Conservation`: the equal-split and conservation lemmas.
- `Session`: actions as values, runs of actions, and the invariant along every
  run of the screen with the corrected removal.
- `Scenarios`: worked bills.
- `Findings`: the stale-selection discrepancy below.

Money and percentages are exact `real`s. Ids are strings. The identifiers the
component draws from the clock are passed in as fresh parameters. The item
price and the rates are passed in already parsed.

Behaviours of the component the model keeps, although a reader might expect
otherwise:
- `addItem` checks only that the price text is non-empty. It does not reject
  a negative or non-numeric price, so `AddItem` takes any parsed `real`.
- The item name is stored as typed, untrimmed. Only the participant name is
  trimmed.
- The rename stores any text, including an empty one.
- `removePerson` does not clear the pending selection. `RemovePersonAsWritten`
  and `UiRemovePerson` model it that way. `RemovePerson` is the corrected
  removal that also prunes the selection, and the `Session` module runs the
  screen with it (see Findings).

## Model

| member | source | states |
|---|---|---|
| Domain.InitialInv | src/App.tsx:26-35 | the screen starts with two participants ("1", "2"), no items, 5% service and 10% tax, and this state satisfies the invariant (distinct ids, no dangling or repeated assignee in items or selection) |
| Text.Trim | src/App.tsx:43 | the trimmed text is a slice of the text with only whitespace before and after it; it is empty exactly when the text is all whitespace, and otherwise neither starts nor ends with whitespace |
| Text.StripsBothEnds | src/App.tsx:43 | stripping leading and then trailing whitespace leaves a slice of the text with only whitespace on either side |
| Actions.AddPerson | src/App.tsx:42-51 | a participant is appended exactly when the name field is not blank; they get the fresh id and the trimmed name, earlier participants are kept in order, and only the name field is cleared; a blank field changes nothing |
| Actions.DropPerson | src/App.tsx:54 | the participants kept are exactly those with a different id; with no participant of that id the list is unchanged |
| Actions.DropPersonIds | src/App.tsx:54 | the ids left are the old ids with `id` removed |
| Actions.DropPersonAppend | src/App.tsx:54 | dropping distributes over concatenation, so the participants kept stay in their relative order |
| Actions.PruneAssignments | src/App.tsx:55-60 | every item is kept in place with `id` filtered out of its assignees; afterwards no item refers to `id` |
| Actions.RemovePersonAsWritten | src/App.tsx:53-61 | removal as written: exactly the participants with a different id stay; no item refers to `id`; item count, ids, names and prices are kept and the other assignees stay; nothing else changes, so the pending selection is left as it was |
| Actions.RemovePerson | src/App.tsx:53-61 | the corrected removal: the removal as written, and in addition the selection no longer holds `id` while the other selected ids stay |
| Actions.RemovePersonIdempotent | src/App.tsx:53-61 | with the corrected removal, removing the same participant twice equals removing it once |
| Actions.RemovePersonAbsent | src/App.tsx:53-61 | with the corrected removal, removing an id no participant has keeps the participants; when no item and not the selection refer to it, the whole state is unchanged |
| Actions.RemovePersonAsWrittenIdempotent | src/App.tsx:53-61 | removing the same participant twice, as written, equals removing it once |
| Actions.RemovePersonAsWrittenAbsent | src/App.tsx:53-61 | removing, as written, an id no participant has and no item refers to leaves the whole state unchanged, whatever the selection holds |
| Actions.UiRemovePerson | src/App.tsx:275-277 | the delete button, as written, is offered only next to a listed participant while more than one is listed; with distinct ids exactly one goes and at least one stays; the selection is left as it was |
| Actions.ToggleSelection | src/App.tsx:63-65 | the toggled id's membership flips and no other id's membership changes; an absent id is appended; a duplicate-free selection stays duplicate-free; nothing outside the selection changes |
| Actions.ToggleTwice | src/App.tsx:63-65 | toggling twice restores the set of selected ids, and the exact list when the id was not selected |
| Actions.CanAddItem | src/App.tsx:334 | the add-item button is enabled exactly when the trimmed name is non-empty, the price text is non-empty and the selection is non-empty |
| Actions.AddItem | src/App.tsx:67-80 | an item is appended exactly when the name is not blank, the price text is non-empty and the selection is non-empty; its assignees are the selection and earlier items are kept; the form and selection are cleared; otherwise nothing changes |
| Actions.KeepOtherItems | src/App.tsx:83 | the items kept are exactly those with a different id; with none of that id the list is unchanged |
| Actions.KeepOtherItemsAppend | src/App.tsx:83 | the item filter distributes over concatenation, so kept items stay in order |
| Actions.RemoveItem | src/App.tsx:82-84 | exactly the items with a different id are kept, an absent id changes nothing, and participants and everything else are untouched |
| Actions.RemoveItemIdempotent | src/App.tsx:82-84 | removing the same item twice equals removing it once |
| Actions.RenamePerson | src/App.tsx:270-272 | every participant with that id takes the new name and the others keep theirs; ids, order and the rest of the state are unchanged |
| Engine.Share | src/App.tsx:89-90 | a participant not on the item pays nothing; one on it pays a share that, multiplied by the assignee count, is the price; a non-negative price gives a share between 0 and the price |
| Engine.SumPrices | src/App.tsx:98 | the subtotal of no items is 0, and non-negative prices give a non-negative subtotal |
| Engine.OrphanPrices | src/App.tsx:88-98 | the price of the items nobody is on is 0 when every item is assigned, and lies between 0 and the subtotal for non-negative prices |
| Engine.PersonSubtotal | src/App.tsx:86-92 | a participant on no item has subtotal 0; with non-negative prices the subtotal lies between 0 and the bill subtotal |
| Engine.PersonSubtotalStep | src/App.tsx:88-92 | extending the prefix of items by one adds exactly that item's share |
| Engine.Cascade | src/App.tsx:93-95 | service charge then tax on the surcharged amount equals the amount times `(1 + s/100)(1 + t/100)`; with non-negative amount and rates it never lowers the amount |
| Engine.CascadeAdditive | src/App.tsx:99-101 | the cascade of a sum is the sum of the cascades, and the cascade of 0 is 0 |
| Engine.Charges | src/App.tsx:99-101 | for a given subtotal, the service charge is subtotal times s/100, the tax is (subtotal + service) times t/100, and their sum is the cascade of the subtotal; with non-negative subtotal and rates none is negative and the total is not below the subtotal |
| Engine.AddUpPrices | src/App.tsx:98 | the `reduce` over the items yields the sum of all their prices |
| Engine.ComputeTotals | src/App.tsx:98-101 | the subtotal is the sum of all prices whoever they are assigned to; the service charge is subtotal times s/100; the total is subtotal + service + tax and equals the subtotal times the cascade factor; tax is charged on subtotal + service; no items give all zeros; non-negative inputs give 0 <= subtotal <= total |
| Engine.AddUpShares | src/App.tsx:87-92 | the `forEach` loop yields the participant's equal-share subtotal over all items |
| Engine.CalculatePersonTotal | src/App.tsx:86-96 | the loop's total is the participant's equal-share subtotal with the cascade applied |
| Conservation.ShareSum | src/App.tsx:88-92 | participants none of whom is on the item take nothing of it |
| Conservation.ShareSumCounts | src/App.tsx:88-92 | the shares taken by a list of participants are one equal share per participant on the item |
| Conservation.EqualSplit | src/App.tsx:88-92 | with distinct participant ids and distinct, listed assignees, the participants' shares of an item add up to its price, or to 0 when nobody is on it |
| Conservation.RepeatSplit | src/App.tsx:90 | k equal parts of an amount add back up to the amount |
| Conservation.EqualSplitAmongAssignees | src/App.tsx:88-92 | the k shares of an item with k >= 1 distinct assignees add up to its price |
| Conservation.SubtotalSumSnoc | src/App.tsx:88-92 | appending an item adds its shares to the participants' subtotals |
| Conservation.SubtotalsConserved | src/App.tsx:86-98 | with a well-formed assignment, the participant subtotals add up to the bill subtotal less the prices of unassigned items |
| Conservation.SubtotalSumEmpty | src/App.tsx:86-92 | with no items every participant subtotal is 0 |
| Conservation.PersonTotalsCascade | src/App.tsx:93-95 | the participant totals add up to the cascade of the summed participant subtotals |
| Conservation.PersonTotalsConserved | src/App.tsx:86-101 | with a well-formed assignment, the participant totals add up to `(subtotal - unassigned prices)(1 + s/100)(1 + t/100)` |
| Conservation.OrphanGap | src/App.tsx:86-101 | bill total minus the participant totals is exactly the cascaded price of the unassigned items; with non-negative prices and rates it is >= 0, and > 0 once an unassigned item has a positive price |
| Conservation.AppendAssignedItem | src/App.tsx:67-80 | an item with distinct, listed assignees adds its price to the subtotal and its cascaded price to the participant totals together |
| Conservation.OrphanItem | src/App.tsx:88-98 | an item with no assignees adds its price to the subtotal and nothing to any participant |
| Conservation.NoItems | src/App.tsx:86-101 | with no items, the subtotal, the total, every participant total and their sum are 0 |
| Session.AppendPersonKeepsInv | src/App.tsx:48 | appending a participant whose id is unused keeps the invariant |
| Session.AddPersonKeepsInv | src/App.tsx:42-51 | adding a participant under an unused id keeps the invariant |
| Session.RemovePersonKeepsInv | src/App.tsx:53-61 | removing a participant, with the selection pruned too, keeps the invariant |
| Session.PruneKeepsAssignees | src/App.tsx:58 | an assignee list with the id filtered out is well formed for the participant ids without that id |
| Session.PruneKeepsAssignable | src/App.tsx:55-60 | pruning the id from every item keeps every assignee list well formed for the remaining participant ids |
| Session.ToggleKeepsInv | src/App.tsx:63-65 | toggling a listed participant keeps the invariant |
| Session.AddItemKeepsInv | src/App.tsx:67-80 | adding an item keeps the invariant, since its assignees are the selection |
| Session.Enabled | src/App.tsx:262-320 | the delete button, name field and assign button of a participant are offered only for a listed participant, the delete button only while at least two are listed; a new participant's id is unused; field edits and the add buttons are always offered, and item deletion is offered for any id, an over-approximation of the per-item delete buttons that is harmless since deleting an absent id changes nothing |
| Session.Apply | src/App.tsx:253-427 | each action changes only the part of the state its control edits: participants, items, selection, the three text fields and the two rates each stay unless the action edits them; deleting a participant is the screen's delete with the pending selection pruned too |
| Session.ApplyKeepsInv | src/App.tsx:42-84 | every action the screen offers keeps the invariant, with the corrected participant removal |
| Session.RunKeepsInv | src/App.tsx:42-84 | every sequence of offered actions keeps the invariant, with the corrected participant removal |
| Session.InvConserves | src/App.tsx:86-101 | in every state satisfying the invariant, the participant totals add up to the cascaded subtotal less the unassigned items |
| Session.RunConserves | src/App.tsx:42-101 | with the corrected participant removal, from any well-formed state, every state a sequence of offered actions leads to splits everything except the unassigned items |
| Session.ReachableConservation | src/App.tsx:86-101 | with the corrected participant removal, in every state reachable from the initial screen, the participant totals add up to the cascaded subtotal less the unassigned items |
| Session.AddItemSplitsFully | src/App.tsx:67-80 | in a well-formed state, a successful add raises the subtotal by the price and the participant totals together by the cascaded price |
| Session.RemovePersonKeepsSubtotal | src/App.tsx:53-61 | removing a participant leaves the bill subtotal as it was |
| Scenarios.SharedCoffee | src/App.tsx:86-101 | a 20000 item shared by two at 5% and 10% gives service 1000, tax 2100 and total 23100, and each participant owes 11550 |
| Scenarios.ThreeWayPizza | src/App.tsx:86-101 | a 90000 item shared by three with no surcharges gives a total of 90000, and each participant owes 30000 |
| Scenarios.EmptyBill | src/App.tsx:86-101 | with no items every figure and every participant total is 0 |
| Scenarios.OrphanedByRemoval | src/App.tsx:53-61 | removing the only assignee of a 10000 item leaves it unassigned, still in the 30000 subtotal; the participant totals fall short of the 34650 total by its cascaded 11550 |
| Findings.StaleSelectionAsWritten | src/App.tsx:53-80 | as written: select "1", remove "1", add an item; it is assigned to the removed id, the invariant fails, and its 1155 is owed by nobody although it is not unassigned |
| Findings.StaleRemoval | src/App.tsx:53-65 | selecting "1" and deleting "1" as written are offered steps; afterwards only "2" is listed but "1" is still selected |
| Findings.StaleAdd | src/App.tsx:67-80 | adding an item while the removed "1" is still selected assigns the item to "1" |
| Findings.StaleSteps | src/App.tsx:53-80 | selecting "1", deleting "1" as written and adding the tea are all offered steps and end in a bill whose only item is assigned to the deleted "1" |
| Findings.StaleBillFigures | src/App.tsx:86-101 | in that bill the invariant fails, the item does not count as unassigned, the bill total charges 1155 for it, the participant totals add up to 0, so conservation fails |
| Findings.StaleSelectionCorrected | src/App.tsx:53-80 | with the selection pruned on removal, the same steps leave the selection empty, refuse the item and keep the invariant |

## Left out

- Rendering, React state hooks and styling are not modelled. The state is the explicit `Bill` record, and each handler is a pure function of it.
- `generatePDF` (src/App.tsx:111-199) is not modelled. It builds HTML, opens a browser window, prints on a timer and reads the clock.
- `formatCurrency` (src/App.tsx:103-109) is not modelled. It calls the platform's locale-aware number formatter.
- `Number.parseFloat` on the price and rate fields (src/App.tsx:72, 414, 427) is not modelled. The parsed values are parameters, so the rate fields' `|| 0` fallback for unparsable text is not modelled either.
- `Date.now().toString()` ids (src/App.tsx:45, 70) come from the clock. They are parameters; a new participant's id must be unused.
- IEEE-754 floating point is not modelled. All arithmetic is exact over the reals, so rounding in the shares and totals is not represented.
- The intro animation (src/components/intro-animation.tsx) is not modelled. It is visual and timer-driven.
- The item list's display of assignee names (src/App.tsx:375) is not modelled. It is rendering only.
- Session.Apply: deleting a participant applies the corrected removal, not the screen's `removePerson` (src/App.tsx:277). The as-written delete is `Actions.UiRemovePerson`, and `Findings.StaleSelectionAsWritten` runs it.
- ApplyKeepsInv: holds only with the corrected removal. The screen's delete as written can break the invariant, as `Findings.StaleSelectionAsWritten` shows.
- RunKeepsInv: holds only with the corrected removal. As written, the run in `Findings.StaleSelectionAsWritten` (select "1", delete "1", add an item) ends in a state that breaks the invariant.
- RunConserves: holds only with the corrected removal. As written, `Findings.StaleSelectionAsWritten` reaches a bill that charges 1155 while the participant totals add up to 0 and nothing is unassigned.
- ReachableConservation: holds only with the corrected removal. As written, `Findings.StaleSelectionAsWritten` reaches `Findings.StaleBill` from the initial screen, where conservation fails.
- The `min="0"` on the number inputs (src/App.tsx:411, 424) is not modelled, because the browser does not enforce it. Actions therefore accept any rate and price, including negative ones.

## Findings

| source | as written | input that shows it | evidently intended | confidence | as-written member | corrected member |
|---|---|---|---|---|---|---|
| src/App.tsx:53-61 | `removePerson` prunes the id from participants and items but not from the pending selection, which `addItem` (src/App.tsx:73) copies into the new item | on the initial screen type "Tea" / "1000", select participant "1", delete "1", press Add Item | the selection loses the removed id as well, so no item can be assigned to a participant who no longer exists and every item's price is either split or visibly unassigned | high (not executed) | Findings.StaleSelectionAsWritten | Actions.RemovePerson |
