# Packing slips and stock: a Dafny model

This project models the order-fulfilment core of a small inventory system. It has three parts:

- **Backend.** An Express/MongoDB service that keeps items (stock, prices, purchase history, vendor) and packing slips (numbered orders with lines, customer details and a completion flag).
- **Slip editor.** The web client's editor, which builds a slip's lines before sending them.
- **Item form.** The client's form for adding and editing items.

The model covers the following:

- **Slip numbering.** A slip number is `PS` + year + month + day + a three-digit sequence. The sequence follows the lexicographically greatest existing number with today's prefix.
- **Slip create.** Each line takes `min(quantity, stock)` from its item, in order. An unknown item aborts the request without undoing earlier decrements. The submitted lines are stored verbatim with the backorder defaulted to 0, and the amount is Σ price × quantity.
- **Slip cancel.** Every line's quantity goes back to its item if the item still exists, and the slip is removed.
- **Slip update.** Either "mark completed" or a full replace of lines, customer and flag. Neither path touches stock.
- **Item handlers.** The stock receipt (`add-stock`), the POST upsert by name (merge into a same-name item or create one), the full-replace PUT and the delete.
- **Slip editor.** Adding an item (split into allocated and backordered), removing an item, changing a quantity (including the edit-mode branch), the submit guard and payload, the billed total, and the stock overview table.
- **Item form.** The body the add/edit form sends, and what the POST and PUT handlers make of it.

Modelling choices:

- **Values.** Quantities are `int`. Prices are integer cents, so every total is an exact sum. Dates are `(year, month, day)` with a one-based month, as the source writes `getMonth() + 1`.
- **Environment.** The clock (`new Date()`) and fresh MongoDB ids are parameters. A fresh id is required to be unused.
- **Store.** Each collection is a `map` from id to record, held in the class `Server.Store`. Each handler is a method on it that changes the maps step by step as the handler changes the documents. Each method's postcondition states the response and the whole new state. The slip handlers and the item updates are stated through functions of module `Fulfilment`, and the slip number through `SlipNumbers`. Deleting an item is stated as a key removed from the map. The upsert is stated as one of its two outcomes, chosen by whether an item of that name exists. The properties are proved about those functions.
- **Mongoose casting.** The item schema's `vendor` is a nested path without an `_id` of its own, so an id sent inside `vendor` is not stored. The stored vendor of a merged, created or replaced item therefore has no id.
- **Unique index.** A failure of the unique index on the slip number at save is modelled as the error `DuplicateSlipNumber`.
- **Client handlers.** The editor's handlers are pure functions from the old line list to the new one, as React state updates are. The overview's `slipMap` loop is a method with loops.

Modules:

| file | module | contents |
|---|---|---|
| records.dfy | Records | stored documents, request lines, result and error types, JavaScript `\|\| 0`, truthiness, `Array.find` |
| slip_numbers.dfy | SlipNumbers | `String`, `padStart`, `slice(-3)`, `parseInt`, the query for the last number, the numbering lemmas |
| fulfilment.dfy | Fulfilment | what each backend handler does to the records, as functions, with the lemmas about them |
| server.dfy | Server | the store class and one method per handler |
| slip_editor.dfy | SlipEditor | the slip editor, submit payload, totals and stock overview |
| item_form.dfy | ItemForm | the add/edit item form's payload |

## Model

| member | source | states |
|---|---|---|
| Records.FindFirst | frontend/src/App.js:1038 | `find` gives `None` exactly when no element matches; otherwise a matching element with no match before it |
| SlipNumbers.NatToString | backend/server.js:267 | `String(n)` is a non-empty digit string, one character long exactly when `n < 10` |
| SlipNumbers.IntToString | backend/server.js:266-267 | `String(n)` of a negative number is `-` followed by the digits of its magnitude, and `parseInt` reads `String(n)` back as `n` for every integer |
| SlipNumbers.PadStart | backend/server.js:256-257 | `padStart` gives length `max(width, \|s\|)`, ends in `s`, and has only fill characters before it |
| SlipNumbers.LeadingRun | backend/server.js:266 | the digit run `parseInt` reads: the longest prefix of accepted characters |
| SlipNumbers.ParseMagnitude | backend/server.js:266 | after any sign, a string without a decimal digit reads as NaN |
| SlipNumbers.ParseInt | backend/server.js:266 | `parseInt` of a string without a decimal digit is NaN |
| SlipNumbers.RunValueOfNatString | backend/server.js:266-267 | the decimal digits of `n`, read most significant first, are worth `n` |
| SlipNumbers.ParseMagnitudeOfNatString | backend/server.js:266-267 | the digit run of `String(n)` is the whole string, and it reads back as `n` |
| SlipNumbers.DatePrefix | backend/server.js:254-258 | the prefix is `PS` followed by digits only, six characters longer than the year when month and day have at most two digits |
| SlipNumbers.Pad2Digits | backend/server.js:256-257 | `String(n).padStart(2, '0')` is the tens digit then the units digit of `n`, for `n < 100` |
| SlipNumbers.DatePrefixDigits | backend/server.js:254-258 | for a month and day below 100 the prefix is `PS`, the decimal digits of the year, the two digits of the month and the two digits of the day |
| SlipNumbers.DatePrefixInjective | backend/server.js:254-258 | two dates with the same prefix are the same date, so the prefix tells the day a slip was numbered |
| SlipNumbers.DatePrefixExample | backend/server.js:254-258 | 5 January 2024 gives `PS20240105` |
| SlipNumbers.SliceLast3 | backend/server.js:266 | `slice(-3)` is a suffix of its input, three characters long, or the whole input when shorter |
| SlipNumbers.NextSequence | backend/server.js:264-268 | the sequence is `001` when no number has today's prefix, and at least three characters otherwise |
| SlipNumbers.NextSlipNumber | backend/server.js:253-271 | the generated number starts with `PS`+date prefix, is at least three characters longer, and ends in `001` when no number has today's prefix |
| SlipNumbers.SequenceAfter | backend/server.js:265-268 | the sequence after the last number is at least three characters, including the `NaN` case |
| SlipNumbers.LastWithPrefix | backend/server.js:260-262 | the query result is the greatest number with the prefix, or `None` when none has it |
| SlipNumbers.LastExists | backend/server.js:260-262 | every set of slip numbers has a greatest element with a given prefix, or none with it |
| SlipNumbers.LastUnique | backend/server.js:260-262 | that greatest element is unique, since the order is antisymmetric |
| SlipNumbers.LexLeAntisymmetric | backend/server.js:262 | the string order of the `sort` is antisymmetric |
| SlipNumbers.LexLeTransitive | backend/server.js:262 | the string order of the `sort` is transitive |
| SlipNumbers.LexLeTotal | backend/server.js:262 | the string order of the `sort` is total |
| SlipNumbers.LexLeCommonPrefix | backend/server.js:260-262 | a shared date prefix does not change how two numbers compare |
| SlipNumbers.Seq3Digits | backend/server.js:267 | `String(k).padStart(3, '0')` is the three digits of `k` for `k < 1000` |
| SlipNumbers.ParseSeq3 | backend/server.js:266 | `parseInt` of a three-digit sequence gives its value back |
| SlipNumbers.Seq3Increasing | backend/server.js:262 | a larger count has a strictly greater three-digit sequence in string order |
| SlipNumbers.SequenceAfterCount | backend/server.js:265-268 | after a number ending in count `k`, the sequence is `k + 1` zero-padded |
| SlipNumbers.CountIsLast | backend/server.js:260-262 | when today's numbers are exactly 001..k, the query returns the one ending in k |
| SlipNumbers.CountSuccessorIsFresh | backend/server.js:264-268 | with 001..k in use and k < 999, the next sequence is k+1 and that number is not in use |
| SlipNumbers.DailySequenceContinues | backend/server.js:253-271 | with k < 999 slips today numbered 001..k, the new number is today's prefix + k+1 and is fresh |
| SlipNumbers.RepeatAfter999 | backend/server.js:262-268 | once 999 is used, the greatest number stays "…999" (since "1000" sorts below it), so the next sequence is "1000" again |
| SlipNumbers.SequenceRepeatsAfter999 | backend/server.js:253-271 | after "…999" and "…1000" exist, the generated number is one already in use |
| Fulfilment.Allocated | backend/server.js:320 | `Math.min(quantity, stock)`: at most each, and equal to one of them |
| Fulfilment.Backordered | frontend/src/App.js:1035-1036 | `Math.max(0, q - stock)` is non-negative, adds up with the allocated part to `q`, and is 0 exactly when `q <= stock` |
| Fulfilment.TotalAmountNonNegative | backend/server.js:293 | `totalAmount` is never negative when no price or quantity is |
| Fulfilment.TotalAmountAppend | backend/server.js:293 | the amount of two line lists together is the sum of their amounts |
| Fulfilment.TotalAmountIgnoresBackorder | frontend/src/App.js:2166 | lines differing only in backorder have the same amount: the backorder is not billed |
| Fulfilment.StoreLines | backend/server.js:296-301 | the stored lines are the submitted ones, one for one, each with its backorder defaulted to 0 |
| Fulfilment.NewSlip | backend/server.js:290-311 | a new slip carries the generated number, today's date, the stored lines, Σ price × quantity, the customer and notes, and is not completed |
| Fulfilment.Take | backend/server.js:319-321 | one decrement lowers the stock by the request, or to 0 when the request is larger; nothing else about the item changes |
| Fulfilment.ApplyDecrements | backend/server.js:313-325 | the decrement loop keeps the set of items, and an abort names an item that does not exist |
| Fulfilment.ShippedNonNegative | backend/server.js:361-371 | an item's quantity over stored lines is never negative when no line quantity is |
| Fulfilment.ShippedAppend | backend/server.js:361-371 | the shipped quantity of two line lists together is the sum of their shipped quantities |
| Fulfilment.ShippedStoreLines | backend/server.js:296-301 | storing lines keeps each item's total quantity |
| Fulfilment.DecrementsKeepStockNonNegative | backend/server.js:320-321 | a non-negative stock never goes negative through a create |
| Fulfilment.DecrementsOnlyTouchNamedQuantities | backend/server.js:313-325 | a create changes only quantities, and only those of items some line names |
| Fulfilment.DecrementsDoneIffAllPresent | backend/server.js:313-318 | the create loop runs to the end exactly when every line's item exists |
| Fulfilment.AbortKeepsEarlierDecrements | backend/server.js:313-325 | an unknown item at line j aborts with the decrements of lines 0..j-1 kept: there is no rollback |
| Fulfilment.DistinctDecrements | backend/server.js:313-325 | with distinct, existing items, each item drops by exactly `min(line.quantity, stock)` |
| Fulfilment.NoClampCompletes | backend/server.js:313-325 | when no line asks for more than the stock left, the create loop completes |
| Fulfilment.NoClampSubtractsDemand | backend/server.js:313-325 | without clamping, each item loses exactly the sum of the quantities its lines ask for |
| Fulfilment.DistinctWithinStockNoClamp | backend/server.js:313-325 | distinct existing items each asked for within their stock are never clamped |
| Fulfilment.RestoreStock | backend/server.js:361-371 | the cancel loop keeps the set of items |
| Fulfilment.RestoreAddsShipped | backend/server.js:361-371 | cancel adds back to each existing item the sum of its stored line quantities and changes nothing else about it |
| Fulfilment.CreateThenCancelRestoresStock | backend/server.js:313-371 | when no line was clamped, create then cancel leaves every item exactly as it was |
| Fulfilment.ClampedCreateThenCancelYieldsRequest | backend/server.js:320-321 | a line asking for more than the stock leaves its item, after create and cancel, holding the requested quantity rather than its old stock |
| Fulfilment.UpdatedSlip | backend/server.js:393-431 | mark-completed sets the flag (whatever was sent) and nothing else; a full replace sets the lines, amount, customer, notes and flag; the number and date never change |
| Fulfilment.MarkCompletedIsIdempotent | backend/server.js:394-403 | the value sent is ignored, and marking twice is marking once |
| Fulfilment.ReplaceCanReopen | backend/server.js:428 | a full update can take a completed slip back to not completed |
| Fulfilment.Received | frontend/src/App.js:2995 | the received total of a history is never negative when no purchase quantity is |
| Fulfilment.ReceivedAppend | backend/server.js:630 | the received quantity of two histories together is the sum |
| Fulfilment.StockReceipt | backend/server.js:619-636 | a receipt adds the quantity, sets the latest price, appends exactly one purchase and changes nothing else |
| Fulfilment.ReceiptKeepsStockMinusReceived | backend/server.js:619-636 | a receipt raises stock and received quantity alike |
| Fulfilment.DefaultPurchase | backend/server.js:487-493 | the default purchase carries the body's price and quantity, today, and the sent vendor's id and name, or none without a vendor |
| Fulfilment.AppendedPurchases | backend/server.js:484-494 | a merge appends at least one purchase record |
| Fulfilment.MergedItem | backend/server.js:472-508 | a merge adds the quantity, takes the prices, keeps reorder level on 0/missing, appends the history, and replaces vendor (without its id) and image only when sent |
| Fulfilment.CreatedItem | backend/server.js:509-531 | a new item has the sent quantity, prices and image, reorder level defaulting to 0, the sent history or a one-entry default, and the sent vendor without its id, or `{}` when none is sent |
| Fulfilment.ReplacedItem | backend/server.js:564-598 | a PUT writes name, quantity, prices and reorder level (0 when missing) from the body; a sent vendor is stored without its id; a missing history, vendor or image keeps the stored one |
| Server.Store.LastSlipNumber | backend/server.js:260-262 | the search over stored numbers returns the query's result |
| Server.Store.GenerateSlipNumber | backend/server.js:253-271 | the number is the one built from the last number with today's prefix |
| Server.Store.TakeStock | backend/server.js:313-325 | the loop leaves the items as the decrement function says, and reports the missing item exactly when it aborts |
| Server.Store.CreateSlip | backend/server.js:285-331 | an unknown item gives an error after earlier decrements, with no slip saved; a number in use gives the unique-index error after all decrements; otherwise the new slip is saved and returned |
| Server.Store.CancelSlip | backend/server.js:348-381 | an unknown slip gives not found and changes nothing; otherwise stock is restored for existing items and the slip removed |
| Server.Store.UpdateSlip | backend/server.js:384-439 | an unknown slip gives not found; otherwise the slip is updated; items never change |
| Server.Store.AddStock | backend/server.js:601-644 | an unknown item, or an unknown vendor when a vendor id is sent, gives not found with nothing changed; otherwise the receipt is applied with the vendor's id and name |
| Server.Store.UpsertItem | backend/server.js:459-536 | with a same-name item, that item is merged into and no item is created; otherwise one item is created under a fresh id |
| Server.Store.ReplaceItem | backend/server.js:564-598 | an unknown item gives not found; otherwise the item is replaced |
| Server.Store.DeleteItem | backend/server.js:538-561 | an unknown item gives not found; otherwise exactly that item is removed, slips untouched |
| Server.CreateThenCancel | backend/server.js:285-381 | creating a slip whose lines all fit and cancelling it leaves both collections as they were; a create refused for its number keeps its decrements |
| SlipEditor.CountZero | frontend/src/App.js:1038 | no line names the item exactly when its count is 0 |
| SlipEditor.UpdateMatching | frontend/src/App.js:1039-1049 | `map` keeps the length, changes the lines of the item and leaves the others |
| SlipEditor.RequestedShift | frontend/src/App.js:1039-1049 | raising every line of the item by `delta` raises its requested total by `delta` per line |
| SlipEditor.UpdateMatchingKeepsOthers | frontend/src/App.js:1039-1049 | the `map` leaves every other item's totals alone |
| SlipEditor.RequestedSet | frontend/src/App.js:1087-1121 | setting every line of the item to ask `v` makes its total `v` per line |
| SlipEditor.RequestedAppend | frontend/src/App.js:1051-1057 | requested totals and counts add over concatenation |
| SlipEditor.ConfirmAddItem | frontend/src/App.js:1032-1061 | no selected item changes nothing; a new item appends one line split into `min` and `max(0, …)` parts; an item already present has each of its lines grow by the `min` part in quantity and the `max(0, …)` part in backorder, both taken against the listed stock alone, so the line asks for the whole quantity more and takes the new price; the other lines stay |
| SlipEditor.MergeCanShipAboveStock | frontend/src/App.js:1034-1049 | a line shipping 5 of a listed stock of 10, given 8 more, ships 13: more than the stock |
| SlipEditor.ConfirmAddRecordsRequest | frontend/src/App.js:1032-1061 | the whole quantity is recorded against the item, and no other item's total or count changes |
| SlipEditor.ConfirmAddKeepsItemsDistinct | frontend/src/App.js:1038-1058 | a list with one line per item keeps that shape |
| SlipEditor.ConfirmAddNewLine | frontend/src/App.js:1034-1057 | a new line ships no more than stock, backorders a non-negative rest (zero exactly when within stock), and raises the billed total by price × shipped |
| SlipEditor.RemoveLine | frontend/src/App.js:1064-1066 | `filter` drops exactly the lines of the item: the result has length minus their count and none of the item |
| SlipEditor.RemoveLineMembers | frontend/src/App.js:1064-1066 | the lines kept are exactly the lines of the other items |
| SlipEditor.RemoveKeepsOtherItems | frontend/src/App.js:1064-1066 | removing keeps every other item's totals and lowers the billed total by the removed lines' amount |
| SlipEditor.RemoveAbsentIsIdentity | frontend/src/App.js:1064-1066 | removing an item not on the list leaves it as it is |
| SlipEditor.RemoveAppend | frontend/src/App.js:1064-1066 | removing distributes over concatenation, so order is kept |
| SlipEditor.RemoveIsIdempotent | frontend/src/App.js:1064-1066 | removing twice is removing once |
| SlipEditor.RemoveUndoesAdd | frontend/src/App.js:1032-1066 | removing an item just added to a list without it gives the list back |
| SlipEditor.ResizedLine | frontend/src/App.js:1078-1121 | a resized line asks for exactly the new quantity and changes only quantity and backorder; outside edit mode it ships `min(new, stock)` and backorders `max(0, new − stock)`; in edit mode it ships the new quantity with backorder 0 when within stock, and above stock keeps its shipped part (the shadowed `item` is the line) |
| SlipEditor.UpdateQuantity | frontend/src/App.js:1069-1122 | a quantity below 1, an unlisted item or an item not on the slip change nothing; otherwise only the item's lines change, each to the resized line |
| SlipEditor.UpdateQuantityRequested | frontend/src/App.js:1069-1122 | after a change the item asks for the new quantity per line, and only quantities and backorders changed |
| SlipEditor.EditCanRecordNegativeBackorder | frontend/src/App.js:1096-1103 | edit mode, stock 0, a line shipping 10 set to 5: the line keeps 10 and records backorder −5 |
| SlipEditor.Sent | frontend/src/App.js:1128-1131 | each sent line is the line with its backorder defaulted to 0 |
| SlipEditor.SubmitPayload | frontend/src/App.js:1125-1140 | nothing is sent exactly when there are no lines or no customer name; otherwise the lines sent are the editor's lines with each backorder defaulted to 0, with the customer and notes, in a POST when creating and a full-replace PUT carrying the edited slip's flag when editing; they store as the editor's lines and carry the same amount |
| SlipEditor.EditSubmissionKeepsCompletion | frontend/src/App.js:1125-1150 | saving an edit keeps the stored completion flag and number, and stores the form's lines, amount, customer and notes |
| SlipEditor.ListedTotalOfStored | frontend/src/App.js:2439 | the slip list's amount of stored lines equals the amount of the submitted lines |
| SlipEditor.ListedTotalMatchesStored | frontend/src/App.js:2439 | each slip the handlers write shows in the list the amount stored on it |
| SlipEditor.OutQtyNonNegative | frontend/src/App.js:2987-2996 | an item's out quantity over all slips is never negative when no line quantity is |
| SlipEditor.ShippedPerItem | frontend/src/App.js:2987-2993 | the `slipMap` loop gives, for every item, the sum of its line quantities over all slips (0 when none) |
| SlipEditor.StockOverview | frontend/src/App.js:2984-3007 | no rows exactly when there are no items; otherwise one row per item with its name, received total, shipped total and stock |
| SlipEditor.OutQtyOfCreatedSlip | frontend/src/App.js:2987-2996 | a saved slip adds its submitted quantities of the item to the out column |
| SlipEditor.CreateKeepsStockPlusOut | frontend/src/App.js:2994-2997 | when every line fits in stock, create keeps stock plus out quantity for each item |
| SlipEditor.ShortStockScenario | frontend/src/App.js:1032-1061 | ten in stock and fifteen asked for at 2.00: the line ships 10 and backorders 5, the server takes the stock to 0, and 20.00 is billed |
| ItemForm.NewPurchase | frontend/src/components/AddItem.js:62-68 | the purchase carries the entered price and quantity, today, and the chosen vendor's id and name |
| ItemForm.VendorPayload | frontend/src/components/AddItem.js:70-87 | the vendor is `{}` when its id is not listed; otherwise it is the first listed vendor with that id, with its name, contact, phone, email, address and notes, and never an id |
| ItemForm.ItemPayload | frontend/src/components/AddItem.js:55-88 | nothing is sent exactly when no vendor is chosen; the cost price is sent as price and latest price; an edit sends the edited copy's stock and its history plus the new purchase; an add sends the typed quantity and the new purchase alone |
| ItemForm.EditRecordsPurchaseWithoutStock | frontend/src/components/AddItem.js:73-79 | saving an edit stores the edited copy's stock and its history plus one purchase, so received grows by the typed quantity while stock does not |
| ItemForm.AddCreatesItemWithOnePurchase | frontend/src/components/AddItem.js:73-78 | adding a new name stores the typed quantity and a one-purchase history, so stock equals received |
| ItemForm.AddMergesIntoExisting | frontend/src/components/AddItem.js:73-78 | adding under an existing name adds the typed quantity and one purchase, keeping stock minus received |

## Left out

- Express and MongoDB plumbing is not modelled: connection, middleware, logging, the GET and search routes, and `save`/`findById` as I/O. The collections are in-memory maps, and a fresh `_id` is a parameter.
- File uploads and static files are not modelled (multer, logo and item images); they are file I/O.
- Authentication is not modelled (register, login, tokens, password reset); it is foreign crypto plus UI.
- Customer and vendor CRUD are not modelled; they are plain record management. Vendors appear only as a map the stock receipt reads.
- Floating point is not modelled: prices are integer cents. The selling price `× 1.67` with `toFixed(2)`, the average cost, the vendor analysis and the `toFixed(2)` display of totals are left out.
- PDF export, printing and all JSX rendering are left out as presentation.
- Network retry and timeouts are left out, and so are the client's reloads after a request.
- Concurrency is left out: the model is sequential. This covers the race between two creates reading the same last number, and the lack of transactions.
- Malformed request bodies fall outside the model. Examples are a body without `items` (a TypeError, so a 500), `Number(...)` giving NaN, and a malformed id (a CastError, so a 500). Every numeric field is an integer.
- SlipNumbers.ParseInt does not treat Unicode white space as JavaScript does. Only ASCII white space, a sign, `0x` and digits are read. The input it gets here is always the last three characters of a slip number.
- Mongoose's handling of `undefined` in the item PUT is reduced to one rule: a missing history, vendor or image is not written.
- Fulfilment.UpdatedSlip: a full replace writes every field. The slip PUT (backend/server.js:406-431) leaves absent customer fields, notes and `isCompleted` unwritten, as Mongoose drops `undefined`. The model's replace body always carries them, as the client always sends them (frontend/src/App.js:1127-1140).
- Mongoose's cast of a `vendor` without fields to `{}` is not modelled.
- An item without `purchaseHistory` (the `if (!item.purchaseHistory)` guard in `add-stock`) cannot occur: a history is always a sequence.
- The item form's prefill from the edited item and the vendor drop-down (frontend/src/components/AddItem.js:23-35, 228-234) are not modelled. The form state is an input.
- The `isCompleted` a POST body carries is not modelled; the create handler ignores it.
- Server.Store.UpsertItem: does not fix which same-name item is merged into when several share a name, because the order `findOne` returns them in is not visible to the model.
- SlipEditor.FindListed: states only that a found entry has the id asked for; it is a lookup helper, and its first-match property comes from Records.FindFirst.
- SlipEditor.Count: states only the bound on its own; what a zero count means is stated by SlipEditor.CountZero.
