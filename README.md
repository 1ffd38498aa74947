# Agrowaste stock, password change and sensor status — a Dafny model

This project models three parts of the EcoVolt front end:

- **The Agrowaste page** (`src/components/Agrowaste.jsx`). The page listens to a query over the transaction log of added and consumed feedstock. The query orders the log by ascending timestamp and returns only its first 50 documents, however many exist. The page reverses the fetched array in place for its activity table. It folds the reversed array into a stock table keyed by material name. From that table it derives:
  - a restock suggestion: the positive-stock material with the least stock;
  - the bar chart's labels and data;
  - a coloured suggestion card.

  Submitting a transaction passes three guards before one document is written. Deleting a transaction removes one document.
- **The password form of the Settings page** (`src/components/Settings.jsx`). It checks the confirmation first, then the length. Only then does it set its busy flag and call the authentication service. The message it shows depends on the error code returned.
- **The sensor status badge of the Dashboard page** (`src/components/Dashboard.jsx`). A sensor is online when its last timestamp is non-zero and at most 90 s old.

Modules:

| module | file | models |
|---|---|---|
| `Js` | `js.dfy` | `String.prototype.trim` and a number that may be NaN |
| `Ledger` | `ledger.dfy` | transaction records; the stock table as a map plus its key insertion order; the reference totals (adds minus consumes); the `forEach` fold; `reverse`; deletion; the query window |
| `Restock` | `restock.dfy` | `getMaterialSuggestion`, the chart's labels and data, the card's banding |
| `AgrowastePanel` | `agrowaste.dfy` | the page as a class: the snapshot listener (in-place reverse of an `array`, then a loop), `handleSubmit`, `handleDeleteLog` |
| `PasswordChange` | `settings.dfy` | `handleChangePassword` as a class with the five form fields, split at its first `await` |
| `SensorStatus` | `dashboard.dfy` | the timestamp fallback and the `isOnline` test |

Consequences of the code as written:

- The log query orders by ascending timestamp and keeps the first 50. The table therefore reflects the 50 oldest transactions, not the most recent ones (`Ledger.LaterRecordsUnseen`).
- Deleting an id that is not in the store is not an error: it succeeds and changes nothing.
- The card's red "zero stock" branch can never show. A suggestion is either the sentinel or has positive stock (`Restock.CardBanding`).
- Because the fold walks the *reversed* array, the table's keys follow the most recent record of each material. A tie in the suggestion therefore goes to the material touched most recently, not to the one entered first.
- Once the collection holds 50 records, new records never reach the page, so the stock check for a consumption never sees earlier consumptions: the same shown stock can be consumed again and again, and the collection's own total can go below 0 (`AgrowastePanel.FullPageConsumeRepeats`).

## Model

| member | source | states |
|---|---|---|
| `Js.TrimStart` | src/components/Agrowaste.jsx:149 | the trimmed string is a suffix of the input, does not start with white space, and everything cut off is white space |
| `Js.TrimEnd` | src/components/Agrowaste.jsx:149 | the trimmed string is a prefix of the input, does not end with white space, and everything cut off is white space |
| `Js.Trim` | src/components/Agrowaste.jsx:149 | the result is the slice of the input that starts where the leading white space ends; everything outside that slice is white space, and a non-empty result neither starts nor ends with white space |
| `Js.TrimEmptyIffBlank` | src/components/Agrowaste.jsx:149 | `!name.trim()` holds exactly when the name consists of white space only (the empty name included) |
| `Ledger.MaterialsMembership` | src/components/Agrowaste.jsx:79-92 | a material is in the log's material set exactly when some record names it |
| `Ledger.SumAppend` | src/components/Agrowaste.jsx:79-92 | the summed quantity over a concatenation of logs is the sum over the parts |
| `Ledger.TotalSnoc` | src/components/Agrowaste.jsx:79-92 | appending one record changes a material's adds-minus-consumes total by exactly that record's contribution |
| `Ledger.TotalAppend` | src/components/Agrowaste.jsx:79-92 | totals over a concatenation of logs add up |
| `Ledger.TotalAbsent` | src/components/Agrowaste.jsx:79-92 | a material no record names has total 0 |
| `Ledger.ApplyKeys` | src/components/Agrowaste.jsx:84-85 | one `forEach` pass appends the material to the key order exactly when it had no key, and the key set grows by that material |
| `Ledger.ApplyStock` | src/components/Agrowaste.jsx:82-91 | one pass moves the material's stock (missing key read as 0) by `+qty` for Add, `-qty` for Consume and 0 for any other action, and leaves every other material alone |
| `Ledger.InventoryValue` | src/components/Agrowaste.jsx:79-92 | the folded table reads, for every material, its adds minus its consumes |
| `Ledger.InventoryDomain` | src/components/Agrowaste.jsx:79-92 | the folded table has a key for exactly the materials of the log (even those at 0 or below), each listed once in the key order |
| `Ledger.InventoryIsTotals` | src/components/Agrowaste.jsx:79-92 | the key set is the log's materials, the table is well formed, and each value is that material's total |
| `Ledger.KeyOrderStep` | src/components/Agrowaste.jsx:84-85 | one pass keeps the keys ordered by their materials' first record |
| `Ledger.InventoryKeyOrder` | src/components/Agrowaste.jsx:79-92 | the keys stand in the order in which their materials first occur in the walked log |
| `Ledger.TotalReverse` | src/components/Agrowaste.jsx:76-92 | walking the log reversed gives every material the same total |
| `Ledger.MaterialsReverse` | src/components/Agrowaste.jsx:76-92 | reversing the log keeps its set of materials |
| `Ledger.ReverseKeepsStock` | src/components/Agrowaste.jsx:76-92 | the in-place `reverse()` before the fold leaves the table's contents and key set unchanged |
| `Ledger.ShownStockIsTotal` | src/components/Agrowaste.jsx:76-94 | the table built from the reversed page has a key for a material iff the page names it, and reads that material's total |
| `Ledger.ReversedKeyOrder` | src/components/Agrowaste.jsx:76-92 | after `reverse()`, the keys stand in descending order of each material's latest record |
| `Ledger.FirstIndexReverse` | src/components/Agrowaste.jsx:76 | the first record of a material in the reversed log is its last record in the log, counted from the other end |
| `Ledger.ReverseCanReorderKeys` | src/components/Agrowaste.jsx:76-92 | for two different materials, the oldest-first fold gives keys `[a, b]` and the reversed fold gives `[b, a]` |
| `Ledger.RemoveId` | src/components/Agrowaste.jsx:52 | a deletion never makes the log longer |
| `Ledger.RemoveAbsentId` | src/components/Agrowaste.jsx:52 | deleting an id that no record carries leaves the log as it is |
| `Ledger.RemoveUniqueId` | src/components/Agrowaste.jsx:52 | with unique ids, deleting the id of record `i` removes exactly that record |
| `Ledger.DeleteRecomputes` | src/components/Agrowaste.jsx:49-62 | after a delete, every total recomputed from the log is the old total minus the deleted record's contribution |
| `Ledger.QueryPage` | src/components/Agrowaste.jsx:67 | the page is a prefix of the ascending collection: the whole collection when it has at most 50 records, and exactly its first 50 otherwise |
| `Ledger.DeleteShiftsPage` | src/components/Agrowaste.jsx:49-67 | deleting a record past the page leaves the page alone; deleting one on the page drops it, and in a collection of more than 50 the 51st record moves up, so each total the page yields loses the deleted record's contribution and gains the 51st's |
| `Ledger.LaterRecordsUnseen` | src/components/Agrowaste.jsx:67 | once 50 records exist, records written later never reach the page, so no total shown changes |
| `Restock.FilterThenReduce` | src/components/Agrowaste.jsx:32-43 | filtering to positive stock and then reducing equals reducing while skipping non-positive entries; the filter is empty iff no entry is positive |
| `Restock.LowestPositiveIsFirstMinimum` | src/components/Agrowaste.jsx:40-43 | the strict-`<` reduce ends on the first entry of least positive stock, and stays at its `Infinity` seed only when no entry is positive |
| `Restock.SuggestionIsLowestPositive` | src/components/Agrowaste.jsx:30-46 | the sentinel `No Stock/Logs` is returned iff no material has positive stock; otherwise the suggestion is an existing material with its positive stock, none lower, and every positive key before it in key order is strictly higher |
| `Restock.EntriesAt` | src/components/Agrowaste.jsx:32 | `Object.entries` lists each key with its value, in key order |
| `Restock.TieGoesToEarlierKey` | src/components/Agrowaste.jsx:40-43 | among materials at the suggested stock, the suggestion is the earliest key |
| `Restock.IndexIn` | src/components/Agrowaste.jsx:115 | the position found holds the element and no earlier position does |
| `Restock.PositiveKeys` | src/components/Agrowaste.jsx:115 | the filtered keys are drawn from the table's keys |
| `Restock.ChartLabels` | src/components/Agrowaste.jsx:115 | the labels are exactly the keys with stock > 0, each once, in key order |
| `Restock.PositiveKeysSpec` | src/components/Agrowaste.jsx:115 | `keys.filter(stock > 0)` keeps exactly the positive keys, without repeats, in their original order |
| `Restock.PositiveKeysMembers` | src/components/Agrowaste.jsx:115 | a key survives the filter iff it is a key with positive stock |
| `Restock.PositiveKeysOrder` | src/components/Agrowaste.jsx:115 | the filter keeps the original key order |
| `Restock.PositiveKeysAreFilteredEntries` | src/components/Agrowaste.jsx:115-116 | the filtered keys paired with their values are exactly the filtered entries |
| `Restock.ChartIsSuggestionDomain` | src/components/Agrowaste.jsx:115-116 | the chart's bars (label and value) are exactly the entries the suggestion ranges over, in the same order |
| `Restock.CardBanding` | src/components/Agrowaste.jsx:205-209 | the red branch never shows; with no positive stock the card asks for a first material in green with a plus icon; otherwise (no material named like the sentinel) it reads ADD NOW in orange below 50 kg and STABLE in green from 50 kg, with the warning icon |
| `Restock.SentinelNameShadowsMaterial` | src/components/Agrowaste.jsx:205-209 | a material literally named `No Stock/Logs` with 5 kg gets the sentinel's recommendation (add a first material) and icon, while its tone stays the orange of a low stock |
| `AgrowastePanel.SubmissionGuards` | src/components/Agrowaste.jsx:149-164 | a blank name is refused first; then a NaN or non-positive quantity; then a consumption exceeding the current stock (a missing key read as 0); everything else is accepted with the trimmed name and the parsed quantity |
| `AgrowastePanel.AcceptedRecordDelta` | src/components/Agrowaste.jsx:167-173 | the written record moves its own material's total by its signed quantity and no other material's |
| `AgrowastePanel.AcceptedConsumeKeepsStock` | src/components/Agrowaste.jsx:161-173 | an accepted consumption never takes the material's total below 0, counted over the page the listener walked with the written record appended (the next page while the collection has fewer than 50 records) |
| `AgrowastePanel.ConsumeAllLeavesZero` | src/components/Agrowaste.jsx:161-173 | with fewer than 50 records in the collection, consuming exactly the shown stock is accepted, the written record is on the next page, and that page shows the material at 0 |
| `AgrowastePanel.FullPageConsumeRepeats` | src/components/Agrowaste.jsx:67-173 | with 50 or more records, consuming the shown stock is accepted, the next page shows the same table, so the same consumption is accepted again, and the collection's total drops by the quantity each time; it goes below 0 when the page held all of the material's records |
| `AgrowastePanel.SuggestionTieGoesToLatest` | src/components/Agrowaste.jsx:76-92 | on the page's table, a material tied with the suggestion has an older latest record than the suggested one |
| `AgrowastePanel.AscendingTieGoesToEarliest` | src/components/Agrowaste.jsx:79-92 | without the reversal, the tie would go to the material whose first record is oldest |
| `AgrowastePanel.ReverseInPlace` | src/components/Agrowaste.jsx:76 | the array afterwards holds the old contents in reverse order |
| `AgrowastePanel.Tally` | src/components/Agrowaste.jsx:79-92 | the loop builds exactly the table the fold defines over the array |
| `AgrowastePanel.Page.constructor` | src/components/Agrowaste.jsx:18-27 | an empty, well-formed table and log, loading, no message, an empty form with action Add |
| `AgrowastePanel.Page.OnLogSnapshot` | src/components/Agrowaste.jsx:68-98 | the fetched array is reversed and becomes the activity log; the table is the fold of the reversed page; its values are the oldest-first fold's, its keys the page's materials, each value that material's total; loading ends |
| `AgrowastePanel.Page.ShownLabels` | src/components/Agrowaste.jsx:115 | for the table the page holds, the chart's labels are exactly its materials with positive stock, each once, in key order |
| `AgrowastePanel.Page.OnLogError` | src/components/Agrowaste.jsx:99-102 | the read failure is reported and loading ends |
| `AgrowastePanel.Page.HandleSubmit` | src/components/Agrowaste.jsx:146-182 | a refused submission writes nothing and keeps the form; an accepted one appends exactly one record and clears name and quantity when the store accepts it, and reports the failure otherwise |
| `AgrowastePanel.Page.HandleDeleteLog` | src/components/Agrowaste.jsx:49-62 | a successful delete removes the id from the collection and reports material and quantity; a failed one changes no data |
| `PasswordChange.Utf16LengthBounds` | src/components/Settings.jsx:123 | the JavaScript length lies between the character count and twice it, and equals the character count for text inside the Basic Multilingual Plane |
| `PasswordChange.PrecheckOutcomes` | src/components/Settings.jsx:119-126 | the guards pass iff the confirmation matches and the password has at least 6 code units; a mismatch is reported even when the password is also too short; a matching password that is too short gets the length message; any matching password of at least 6 characters passes |
| `PasswordChange.ShortAstralPasswordPasses` | src/components/Settings.jsx:123 | three emoji (three characters, six code units) pass the length check |
| `PasswordChange.FailureMessage` | src/components/Settings.jsx:149-153 | the message is "Current password is incorrect." iff the code is `auth/wrong-password`, and the generic message otherwise |
| `PasswordChange.PasswordForm.constructor` | src/components/Settings.jsx:41-45 | empty fields, not busy, no message |
| `PasswordChange.PasswordForm.Submit` | src/components/Settings.jsx:117-129 | a refused change shows the guard's message, sends nothing and leaves the busy flag and fields alone; a change that passes sets the busy flag, clears the message and sends the current and new passwords |
| `PasswordChange.PasswordForm.Settle` | src/components/Settings.jsx:131-156 | on success the message is the success text and the three fields are emptied; on a failure of either call the fields are kept and the failure's message shows; the busy flag ends unset |
| `PasswordChange.ChangePassword` | src/components/Settings.jsx:117-157 | the whole handler: nothing is sent iff a guard refuses; a refusal changes only the message; a started change ends not busy, shows the success text and empties the three fields iff both calls succeed, and otherwise keeps the fields and shows the failure's message |
| `SensorStatus.NowSeconds` | src/components/Dashboard.jsx:90 | `Math.floor(ms / 1000)`: the whole seconds `s` with `1000 s <= ms < 1000 s + 1000` |
| `SensorStatus.TimestampOrZero` | src/components/Dashboard.jsx:100 | `parseInt(..) \|\| 0` keeps every non-zero integer and gives 0 for NaN and for 0 |
| `SensorStatus.ZeroTimestampIsOffline` | src/components/Dashboard.jsx:84-100 | the initial timestamp 0 and an unparsable timestamp both mean offline at every time |
| `SensorStatus.OnlineWindow` | src/components/Dashboard.jsx:90-91 | a non-zero timestamp `ts` is online exactly while the clock reads below `(ts + 91) * 1000` ms |
| `SensorStatus.TimeoutBoundary` | src/components/Dashboard.jsx:91 | 90 whole seconds after the reading the sensor is online, 91 seconds after it is offline |
| `SensorStatus.FutureTimestampIsOnline` | src/components/Dashboard.jsx:91 | a reading stamped later than the clock counts as online |
| `Ledger.StockOr0` | src/components/Agrowaste.jsx:161 | `table[m] || 0`; no contract of its own, specified by `Ledger.ApplyStock` and `AgrowastePanel.SubmissionGuards` |
| `Ledger.Apply` | src/components/Agrowaste.jsx:82-91 | one pass of the `forEach` body; no contract of its own, specified by `Ledger.ApplyKeys` and `Ledger.ApplyStock` |
| `Ledger.Inventory` | src/components/Agrowaste.jsx:79-92 | the whole `forEach` from `{}`; no contract of its own, specified by `Ledger.InventoryIsTotals` and `Ledger.InventoryKeyOrder` |
| `Ledger.Reverse` | src/components/Agrowaste.jsx:76 | `reverse()`; no contract of its own, specified by `Ledger.TotalReverse`, `Ledger.ReverseKeepsStock` and `Ledger.FirstIndexReverse` |
| `Restock.Entries` | src/components/Agrowaste.jsx:32 | `Object.entries`; no contract of its own, specified by `Restock.EntriesAt` |
| `Restock.PositiveEntries` | src/components/Agrowaste.jsx:32 | the `filter` to positive stock; no contract of its own, specified by `Restock.FilterThenReduce` |
| `Restock.Step` | src/components/Agrowaste.jsx:40-43 | the reducer; no contract of its own, specified by `Restock.LowestPositiveIsFirstMinimum` |
| `Restock.ReduceLowest` | src/components/Agrowaste.jsx:40-43 | the `reduce`; no contract of its own, specified by `Restock.FilterThenReduce` and `Restock.LowestPositiveIsFirstMinimum` |
| `Restock.GetMaterialSuggestion` | src/components/Agrowaste.jsx:30-46 | no contract of its own, specified by `Restock.SuggestionIsLowestPositive` and `Restock.TieGoesToEarlierKey` |
| `Restock.ChartData` | src/components/Agrowaste.jsx:116 | `labels.map`; no contract of its own, specified by `Restock.ChartIsSuggestionDomain` |
| `Restock.Recommend` | src/components/Agrowaste.jsx:209 | no contract of its own, specified by `Restock.CardBanding` |
| `Restock.CardTone` | src/components/Agrowaste.jsx:205-207 | no contract of its own, specified by `Restock.CardBanding` |
| `Restock.CardIcon` | src/components/Agrowaste.jsx:206 | no contract of its own, specified by `Restock.CardBanding` |
| `AgrowastePanel.CheckSubmission` | src/components/Agrowaste.jsx:149-164 | no contract of its own, specified by `AgrowastePanel.SubmissionGuards` |
| `AgrowastePanel.NewRecord` | src/components/Agrowaste.jsx:167-173 | no contract of its own, specified by `AgrowastePanel.AcceptedRecordDelta` |
| `PasswordChange.Utf16Length` | src/components/Settings.jsx:123 | `.length`; no contract of its own, specified by `PasswordChange.Utf16LengthBounds` |
| `PasswordChange.Precheck` | src/components/Settings.jsx:119-126 | no contract of its own, specified by `PasswordChange.PrecheckOutcomes` |
| `SensorStatus.IsOnline` | src/components/Dashboard.jsx:91 | no contract of its own, specified by `SensorStatus.OnlineWindow`, `SensorStatus.TimeoutBoundary` and `SensorStatus.ZeroTimestampIsOffline` |

## Left out

- Firestore and the authentication service are not modelled. The snapshot's documents arrive as the `fetched` array. A write, a delete and the two authentication calls enter the model as a success flag or a result parameter. The store's own effect is modelled as the page's `collection` sequence. The server timestamp and the document id enter as parameters.
- The snapshot listener is not tied to the query in the model: `OnLogSnapshot` takes any array. That the array is `QueryPage` of the collection in timestamp order is what `Ledger.QueryPage` describes separately.
- `parseFloat` and `parseInt` are not modelled. Their results enter as a `Number` (NaN or a real) and a `ParsedInt` (NaN or an integer). The fold reads each stored quantity as a real, so a stored quantity that parses to NaN is not modelled. In the source, `calculatedInventory[type] || 0` reads a NaN stock as 0, so the next record of that material in the walk starts it afresh: the shown stock is then the sum over only the records walked after the NaN one, which are the older ones, and it stays NaN only when the NaN record is that material's oldest on the page.
- Numbers are exact reals and integers, not IEEE doubles. Rounding, `Infinity` arithmetic and `toFixed` formatting are not modelled. The reduce's `Infinity` seed is an explicit `Unbounded` value.
- JavaScript object key order: the model keeps keys in insertion order. Integer-like keys, which JavaScript lists first in ascending order, are not modelled. Neither are inherited properties such as `constructor`, for which `inventory[name] || 0` would read a function.
- The texts of the status messages on the Agrowaste page are modelled as a `Notice` datatype, not as strings. The texts built from `error.message` are left out. The password form keeps its exact texts.
- React rendering, the chart library, the colour list of the bars and the digester-level mock are left out.
- The Dashboard `setInterval` timer and the time before its first tick are left out. `IsOnline` is the test one tick applies.
- Concurrency is left out: snapshots arriving while a write or a password change is pending, and a handler running twice.
- `AgrowastePanel.Page.HandleSubmit` does not update the table, just as the source does not; the next snapshot rebuilds it.
- `AgrowastePanel.Page.HandleDeleteLog` has no `action` parameter: the source takes one but never reads it.
