# Real-estate sales workflow and to-do list, modelled in Dafny

This project models two parts of a set of business-application modules.

The first is the sales workflow of the real-estate module. It covers the
property record (`estate.property`) and the offer record
(`estate.property.offer`), with their defaults, their database CHECK
constraints and their derived fields. The derived fields are the total
area, the best price and the offer deadline with its inverse. It also
covers the actions: cancel, sold, delete, create offer, accept and refuse.
The last part is the accounting extension of the sold action, which builds
a customer invoice for each sold property before marking it sold.

The second is the to-do list component of the playground page. It adds
items on Enter, toggles them and removes them.

Files:

- `estate_common.dfy` (`EstateCommon`): identifiers, cents, day numbers,
  `Option`, `Result` and the errors of the workflow.
- `estate_property.dfy` (`EstateProperty`): the property record, its
  creation defaults, the total area, the best price, the garden onchange
  and the per-record guards of cancel, sold and delete.
- `estate_property_offer.dfy` (`EstatePropertyOffer`): the offer record, the
  deadline and its inverse, and the 90% price check.
- `estate_records.dfy` (`EstateRecords`): the stored records (`Db`) and each
  action as a function over them. A `for record in self` loop is the fold
  `Run`, which stops at the first error so that the transaction commits
  completely or not at all. Consistency (the CHECK constraints plus "at
  most one accepted offer per property") is proved to be preserved.
- `estate_account.dfy` (`EstateAccount`): the sold action extended with
  invoicing.
- `estate_store.dfy` (`EstateStore`): class `Estate`, the records as mutable
  fields. Each action is a method that writes records in place and restores
  a savepoint on error. Each method is proved equal to the function of
  `EstateRecords` or `EstateAccount` that describes it, and proved to keep
  the records consistent.
- `todo_list.dfy` (`TodoListComponent`): class `TodoList` holding the items,
  and class `InputElement` for the text input that an add clears.

Representation choices:

- Money is kept in whole cents, so the two-decimal comparisons of the
  source become exact integer comparisons.
- Dates are day numbers, and "today" is a parameter.
- The current user is a parameter.
- Invoice unit prices are `real` numbers of cents, so 6% of a price is exact.
- An offer's id is its position in the offer sequence. The core never
  deletes offers.
- A record id that does not exist gives `Failure(MissingRecord)`, which
  aborts the action like any other error.

The module's own docstring presents the workflow as new → offer received
→ offer accepted → sold/canceled (`addons/state/models/estate_property.py:13-14`).
The code is less strict, and the model follows the code:

- Creating an offer moves its property to offer_received from any state,
  sold, canceled and offer_accepted included
  (`addons/state/models/estate_property_offer.py:177-190`). `AddOfferSpec`
  states this.
- Accepting an offer has no guard on the property's state, so accepting an
  offer of a sold or canceled property moves that property to
  offer_accepted (`addons/state/models/estate_property_offer.py:137-140`).
  `AcceptStepSpec` states this.
- The base sold action accepts any state except canceled, new and
  offer_received included (`addons/state/models/estate_property.py:237-243`).
- When invoicing is installed, a record without selling price or buyer is
  reported before a canceled record, wherever each of them is in the batch,
  because the invoicing loop runs over the whole batch before the base sold
  loop (`addons/estate_account/models/estate_property_inherited.py:14-48`).
  `SellWithInvoiceSpec` states this.

## Model

| member | source | states |
|---|---|---|
| EstateProperty.NewProperty | addons/state/models/estate_property.py:193-204 | creation fails with a required-field error without a name or an expected price, and with a constraint error unless the expected price is positive and the selling price is not negative; otherwise the name, the prices, bedrooms, living area, garden flag, garden area, garden orientation, state, buyer, salesperson, active flag and availability the caller gives are kept and every other field gets its default (bedrooms 2, selling price 0, state new, active, available in 90 days, the acting user as salesperson) |
| EstateProperty.NewPropertyDefaults | addons/state/models/estate_property.py:72-164 | a property created from a name and a positive expected price alone is new, active, unsold, without buyer, available in 90 days and assigned to the acting user |
| EstateStore.Estate.CreateProperty | addons/state/models/estate_property.py:72-97 | stores the record built by the defaults under a fresh id, or changes nothing and returns the constraint's error; keeps the records consistent |
| EstateProperty.BestPrice | addons/state/models/estate_property.py:212-218 | 0 when there is no price; otherwise at least every price and equal to one of them |
| EstateRecords.BestPriceOfSpec | addons/state/models/estate_property.py:212-218 | the best price of a property is at least every offer price of that property, is the price of one of its offers when it has any, and is 0 when it has none |
| EstateRecords.PricesOfSpec | addons/state/models/estate_property.py:216 | the collected prices are exactly the prices of the property's offers |
| EstateProperty.OnchangeGarden | addons/state/models/estate_property.py:220-227 | switching the garden on sets area 10 and orientation north; switching it off sets area 0 and no orientation; no other field changes |
| EstateProperty.TotalAreaAfterGardenToggle | addons/state/models/estate_property.py:206-210 | after the garden onchange the total area is the living area plus 10 with a garden, plus 0 without |
| EstateRecords.RunAbort | addons/state/models/estate_property.py:229-235 | once an iteration of an action's loop fails, the whole action fails with that error |
| EstateRecords.GuardedRun | addons/state/models/estate_property.py:229-243 | a loop that moves each record to a target state unless it is in a forbidden state succeeds iff every record exists and none is forbidden; it then changes exactly the states of the batch's records |
| EstateRecords.CancelBatch | addons/state/models/estate_property.py:229-235 | cancel succeeds iff every record exists and none is sold; a sold record gives the sold-cannot-be-canceled error; on success exactly the batch's records become canceled and nothing else changes |
| EstateRecords.SoldBatch | addons/state/models/estate_property.py:237-243 | sold succeeds iff every record exists and none is canceled; a canceled record gives the canceled-cannot-be-sold error; on success exactly the batch's records become sold and nothing else changes |
| EstateRecords.Consistent | addons/state/models/estate_property.py:193-204 | the invariant of the stored records: every property has a positive expected price and a non-negative selling price, every offer a positive price (the CHECK of `addons/state/models/estate_property_offer.py:94-100`), and no two offers of one property are accepted (the guard of `addons/state/models/estate_property_offer.py:131-136`); every modelled action is proved to keep it, given that a created offer carries no status of its own and always has a price (see the `EstateRecords.AddOffer` and `EstateRecords.AddOfferSpec` lines under "Left out") |
| EstateRecords.CancelAndSoldKeepConsistent | addons/state/models/estate_property.py:193-204 | the cancel and sold steps keep the price constraints and the one-accepted-offer rule |
| EstateStore.Estate.ActionCancel | addons/state/models/estate_property.py:229-235 | the in-place loop commits the result of the cancel fold, or restores the records and reports the error; keeps consistency |
| EstateStore.Estate.ActionSold | addons/state/models/estate_property.py:237-243 | the in-place loop commits the result of the sold fold, or restores the records and reports the error; keeps consistency |
| EstateRecords.DeleteCheckRun | addons/state/models/estate_property.py:246-251 | the delete guard loop passes iff every record exists and is new or canceled, and writes nothing |
| EstateRecords.UnlinkSpec | addons/state/models/estate_property.py:245-252 | delete succeeds iff every record exists and is new or canceled; then exactly the batch's records are removed, the rest is unchanged, and consistency is kept |
| EstateStore.Estate.Unlink | addons/state/models/estate_property.py:245-252 | checks the whole batch first, then removes it; the outcome is the one of the delete specification |
| EstatePropertyOffer.DeadlineFromValidity | addons/state/models/estate_property_offer.py:102-115 | the deadline is the creation date plus the validity, or today plus the validity while there is no creation date; the validity is unchanged |
| EstatePropertyOffer.ValidityRoundTrip | addons/state/models/estate_property_offer.py:102-123 | with a creation date, computing the deadline and then applying the inverse leaves the record unchanged |
| EstatePropertyOffer.DeadlineRoundTrip | addons/state/models/estate_property_offer.py:117-123 | writing the deadline sets the validity to the days since creation, and recomputing the deadline from it gives back the written deadline |
| EstatePropertyOffer.InverseWithoutDates | addons/state/models/estate_property_offer.py:120 | without a deadline or without a creation date the inverse changes nothing |
| EstatePropertyOffer.DeadlineExample | addons/state/models/estate_property_offer.py:102-123 | validity 10 gives a deadline 10 days after creation; a deadline moved to 5 days after creation gives validity 5 |
| EstatePropertyOffer.NinetyPercent | addons/state/models/estate_property_offer.py:158-162 | for a non-negative price, the result is 90% of it to the nearest cent |
| EstatePropertyOffer.CheckPrice | addons/state/models/estate_property_offer.py:147-168 | an expected price of 0 accepts every offer; for a positive expected price, an offer passes exactly when it is less than half a cent below 90% of the expected price, that is when it is not below 90% after both are rounded to the cent |
| EstatePropertyOffer.CheckPriceBoundary | addons/state/models/estate_property_offer.py:153-163 | at an expected price of 100,000.00, an offer of 89,999.99 is rejected and one of 90,000.00 passes; against 0.07, an offer of 0.06 passes and one of 0.05 is rejected |
| EstateRecords.AcceptStepSpec | addons/state/models/estate_property_offer.py:125-140 | accept succeeds iff the offer and its property exist and no other offer of that property is accepted; it then marks the offer accepted and copies its price and partner into the property, which becomes offer_accepted; nothing else changes |
| EstateRecords.AcceptStepKeepsConsistent | addons/state/models/estate_property_offer.py:130-136 | an accept keeps at most one accepted offer per property, and keeps the price constraints |
| EstateRecords.AcceptKeepsConsistent | addons/state/models/estate_property_offer.py:125-140 | every accept step keeps the records consistent |
| EstateRecords.AcceptTwoSiblingsFails | addons/state/models/estate_property_offer.py:130-136 | accepting two different offers of one property in one batch fails |
| EstateRecords.AcceptedPriceWithinBest | addons/state/models/estate_property_offer.py:137-140 | after an accept, the selling price is the accepted offer's price and at most the best price |
| EstateStore.Estate.ActionAccepted | addons/state/models/estate_property_offer.py:125-140 | the in-place loop commits the result of the accept fold, or restores offers and properties and reports the error; keeps consistency |
| EstateRecords.RefuseBatch | addons/state/models/estate_property_offer.py:142-145 | refuse succeeds iff every offer exists; exactly the batch's offers become refused, and properties are untouched |
| EstateRecords.RefuseKeepsConsistent | addons/state/models/estate_property_offer.py:142-145 | refusing keeps the records consistent |
| EstateStore.Estate.ActionRefused | addons/state/models/estate_property_offer.py:142-145 | the in-place loop commits the result of the refuse fold, or restores the offers and reports the error |
| EstateRecords.AddOfferSpec | addons/state/models/estate_property_offer.py:170-191 | creation succeeds iff the property exists, a partner and a positive price are given, no offer of the property is higher, and the price passes the 90% check; a higher existing offer gives the below-existing error; on success the property becomes offer_received and exactly the new offer is appended, with validity defaulting to 7 and its deadline computed; a create without a price, or with a status, is not modelled as the source handles it (see "Left out") |
| EstateRecords.AddOfferBecomesBest | addons/state/models/estate_property_offer.py:177-190 | a created offer's price is the new best price of its property |
| EstateRecords.AddOfferKeepsConsistent | addons/state/models/estate_property_offer.py:94-100 | creating an offer keeps the records consistent |
| EstateStore.Estate.CreateOffer | addons/state/models/estate_property_offer.py:170-191 | writes the property state before creating the record, and restores it if creation fails; the outcome is the create specification's |
| EstateAccount.InvoicesAbort | addons/estate_account/models/estate_property_inherited.py:14-20 | once one record fails the guard, the whole invoicing loop fails with that error |
| EstateAccount.InvoicesSpec | addons/estate_account/models/estate_property_inherited.py:14-40 | invoicing succeeds iff every record exists and has a selling price and a buyer; it then yields one invoice per record, in order, to the buyer, with a 6% commission line named after the property and a 100.00 "Administrative Fees" line |
| EstateAccount.SellWithInvoiceSpec | addons/estate_account/models/estate_property_inherited.py:10-48 | the extended sold action succeeds iff every record has a selling price and a buyer and none is canceled; missing data is reported before a canceled record; on success every record is sold, nothing else changes, and each record has its invoice |
| EstateAccount.CommissionExample | addons/estate_account/models/estate_property_inherited.py:27-38 | a sale at 100,000.00 is invoiced 6,000.00 of commission and 100.00 of fees |
| EstateStore.Estate.ActionSoldWithInvoice | addons/estate_account/models/estate_property_inherited.py:10-48 | builds the invoices in a loop, then runs the base sold action; the outcome and the new records are the extended sold specification's |
| TodoListComponent.TodoList.constructor | addons/awesome_owl/static/src/todo_list/todo_list.js:26-29 | the list starts empty |
| TodoListComponent.TodoList.AddTodo | addons/awesome_owl/static/src/todo_list/todo_list.js:40-49 | Enter on a non-empty input appends an open item with id one more than the length and clears the input; otherwise nothing changes |
| TodoListComponent.AddAfterTrashReusesId | addons/awesome_owl/static/src/todo_list/todo_list.js:43 | in a list built by adds, removing any item but the last and adding again gives two items the same id |
| TodoListComponent.IndexOf | addons/awesome_owl/static/src/todo_list/todo_list.js:69 | the position of the first item with the id, or -1 exactly when no item has it |
| TodoListComponent.TodoList.FindIndex | addons/awesome_owl/static/src/todo_list/todo_list.js:69 | the search loop returns the first index with the id, -1 when there is none |
| TodoListComponent.IndexOfSameIds | addons/awesome_owl/static/src/todo_list/todo_list.js:57 | lists with the same ids in the same order find the same item |
| TodoListComponent.ToggledSpec | addons/awesome_owl/static/src/todo_list/todo_list.js:56-61 | a toggle flips the flag of the first item with the id and changes nothing else; an unknown id changes nothing |
| TodoListComponent.ToggleTwice | addons/awesome_owl/static/src/todo_list/todo_list.js:56-61 | toggling the same id twice restores the list |
| TodoListComponent.TodoList.ToggleTodo | addons/awesome_owl/static/src/todo_list/todo_list.js:56-61 | the list after the method is the toggled list |
| TodoListComponent.TrashedSpec | addons/awesome_owl/static/src/todo_list/todo_list.js:68-73 | removing a present id drops exactly the first item with it: one item fewer, the others in order, the same multiset less that item; an unknown id changes nothing |
| TodoListComponent.TodoList.TrashTodo | addons/awesome_owl/static/src/todo_list/todo_list.js:68-73 | the list after the method is the trashed list |
| EstateProperty.TotalArea | addons/state/models/estate_property.py:206-210 | the total area, the living area plus the garden area; used by `TotalAreaAfterGardenToggle` |
| EstateProperty.Cancel | addons/state/models/estate_property.py:231-235 | one iteration of cancel: a sold record is refused, any other becomes canceled; stated over a batch by `CancelBatch` |
| EstateProperty.MarkSold | addons/state/models/estate_property.py:239-243 | one iteration of sold: a canceled record is refused, any other becomes sold; stated over a batch by `SoldBatch` |
| EstateProperty.Deletable | addons/state/models/estate_property.py:247 | the delete guard: new or canceled; stated over a batch by `DeleteCheckRun` |
| EstateRecords.Run | addons/state/models/estate_property.py:230 | the `for record in self` loop of an action: each iteration in batch order, the first error ending the action; its abort behaviour is `RunAbort` |
| EstateRecords.CancelStep | addons/state/models/estate_property.py:229-235 | one iteration of cancel over the stored records; stated by `CancelBatch` |
| EstateRecords.SoldStep | addons/state/models/estate_property.py:237-243 | one iteration of the base sold over the stored records; stated by `SoldBatch` |
| EstateRecords.DeleteCheckStep | addons/state/models/estate_property.py:246-251 | one iteration of the delete guard; writes nothing; stated by `DeleteCheckRun` |
| EstateRecords.Unlinked | addons/state/models/estate_property.py:245-252 | delete: the guard loop, then removal of the batch; stated by `UnlinkSpec` |
| EstateRecords.PricesOf | addons/state/models/estate_property.py:216 | the prices of a property's offers; stated by `PricesOfSpec` |
| EstateRecords.BestPriceOf | addons/state/models/estate_property.py:212-218 | the best price of a stored property; stated by `BestPriceOfSpec` |
| EstatePropertyOffer.ComputeDateDeadline | addons/state/models/estate_property_offer.py:102-115 | the computed deadline; stated by `DeadlineFromValidity` and the two round trips |
| EstatePropertyOffer.InverseDateDeadline | addons/state/models/estate_property_offer.py:117-123 | the inverse of the deadline; stated by `DeadlineRoundTrip` and `InverseWithoutDates` |
| EstateRecords.AcceptStep | addons/state/models/estate_property_offer.py:125-140 | one iteration of accept; stated by `AcceptStepSpec` |
| EstateRecords.RefuseStep | addons/state/models/estate_property_offer.py:142-145 | one iteration of refuse; stated by `RefuseBatch` |
| EstateRecords.AddOffer | addons/state/models/estate_property_offer.py:170-191 | creating an offer with the override's checks and the base create's; stated by `AddOfferSpec`; a create without a price, or with a status, is not modelled as the source handles it (see "Left out") |
| EstateAccount.InvoiceFor | addons/estate_account/models/estate_property_inherited.py:16-40 | the guard and the invoice of one record; stated by `InvoicesSpec` and `CommissionExample` |
| EstateAccount.Invoices | addons/estate_account/models/estate_property_inherited.py:14-40 | the invoicing loop over the batch; stated by `InvoicesSpec` |
| EstateAccount.SellWithInvoice | addons/estate_account/models/estate_property_inherited.py:10-48 | invoicing, then the base sold loop; stated by `SellWithInvoiceSpec` |
| TodoListComponent.Appended | addons/awesome_owl/static/src/todo_list/todo_list.js:42-46 | the list after an add; used by `AddTodo` and `AddAfterTrashReusesId` |
| TodoListComponent.Toggled | addons/awesome_owl/static/src/todo_list/todo_list.js:56-61 | the list after a toggle; stated by `ToggledSpec` and `ToggleTwice` |
| TodoListComponent.Trashed | addons/awesome_owl/static/src/todo_list/todo_list.js:68-73 | the list after a removal; stated by `TrashedSpec` |

## Left out

- The ORM, the database, the web client and the HTTP layer are not modelled. The model has no field metadata, no views, no access rights, no recompute scheduling and no record cache. The stored records are a value, or the fields of `Estate`.
- Floating point is not modelled. Prices are whole cents, which assumes that stored prices have at most two decimals. `NinetyPercent` rounds 90% of the expected price half away from zero, as the two-decimal comparison does, and takes the product 0.9 × price as exact.
- EstateAccount.InvoiceFor: the commission unit price is the exact 6% in `real` cents. Rounding to the currency's precision happens in the accounting module, and the accounting module is not part of this model.
- Creating the invoice record and writing the log line are left out. The invoices are returned as values instead.
- EstateRecords.UnlinkSpec: its "succeeds iff" covers only the state guard of delete. Deleting a property does not touch its offers in the model. An offer requires its property (`addons/state/models/estate_property_offer.py:67-71`), so the database's foreign-key rule may also refuse to delete a canceled property that still has offers, or may delete those offers with it. That rule is not modelled.
- Concurrent transactions are not modelled. Each action is atomic, by rollback to a savepoint.
- The property type and tag models, the user extension, the module manifests, the web controller and the other playground components are not modelled. The core does not depend on them.
- The fields description, postcode, facades, garage, property type, tags and the offer's related property type are left out. No logic of the core reads them.
- EstateProperty.NewProperty: a name given as an empty string, and a required field given explicitly as empty, are treated as given. The property type, tags, description, postcode, facades and garage of the create values are not modelled. The read-only flag of the selling price affects only the form, so the caller may supply a selling price, and the model accepts it subject to its CHECK constraint.
- EstateRecords.AddOffer: the create values carry no status, so a created offer is always unset. The source's create stores a status given in its values (`addons/state/models/estate_property_offer.py:52-59`, `:191`) without passing the accept guard, so a create with status accepted can give a property two accepted offers. The one-accepted-offer part of `Consistent`, and `AddOfferKeepsConsistent`, rely on this restriction of the model.
- EstateRecords.AddOfferSpec: a create without a price is rejected by the model with the CHECK's error. The source stores an empty price instead: a NULL value satisfies the CHECK (`addons/state/models/estate_property_offer.py:94-100`), the 90% check runs only when a price is written (`:147`), and the higher-offer test is skipped (`:180`). Such an offer reads as price 0, so the "every offer has a positive price" part of `Consistent` does not hold of those source records.
- A `date_deadline` supplied in the values of an offer's create is ignored. The model computes it from the validity.
- TodoListComponent.TodoList.ToggleTodo: the list holds item values, not shared item objects. Aliasing between the list and an item object held elsewhere is therefore not modelled.
- The autofocus hook, the template and the reactive rendering of the to-do list are not modelled.
