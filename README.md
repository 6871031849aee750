# Salon agenda front end — verified model of its page logic

This project models, in Dafny, the computational core of a React front end for a
salon/service-business assistant: the four pages whose state changes can be stated
precisely.

- **Dashboard** (`dashboard.dfy`). Today's agenda. Each appointment's "HH:MM" time becomes
  minutes since midnight. The list is split into upcoming items (at or after the current
  minute) and past items. Each part is sorted by time with a stable sort, and the upcoming part
  comes first. Only the first five items show unless the list is expanded. One row can be
  flagged "next". The current minute is a parameter.
- **Schedule blocking** (`schedule_blocking.dfy`). A class holding the weekly opening-hours
  table, a 7-slot array with Monday first, plus the list of blocked dates, the "new block" form
  and the delete confirmation. It covers loading with defaults, toggling a day, editing its
  hours, adding a block, removing blocks by id, and the reversed display order. It also covers
  the Y-M-D to D/M/Y date display.
- **Services** (`services.dfy`). A class holding the service catalogue and the add/edit form.
  It covers trimming and validating the name, replacing by id on edit, appending on create,
  deleting by id, and the form defaults.
- **Profile** (`profile.dfy`). The phone-number field keeps only ASCII digits.

Shared layers:
- `seqs.dfy`: `Array.prototype.filter` and the stable `Array.prototype.sort`, as functions on
  sequences, plus their lemmas.
- `js_text.dfy`: the JavaScript string operations the pages rely on: `Number()` on digit
  strings, `split` on one character, and `trim`.
- `wrappers.dfy`: `Option`, which stands for `null`/`undefined`/NaN.

Server replies, the clock and random ids are method or function parameters.

## Model

| member | source | states |
|---|---|---|
| Dashboard.GetMinutes | pages/Dashboard.tsx:50-53 | `getMinutes`: a text without ':' is NaN, and a number of minutes is never negative; its value is stated by GetMinutesOfDigits and GetMinutesOfClock |
| Dashboard.GetMinutesOfDigits | pages/Dashboard.tsx:50-53 | "HH:MM" with digit parts is worth HH*60+MM |
| Dashboard.GetMinutesOfClock | pages/Dashboard.tsx:50-53 | every zero-padded clock time of a day gives its minute of the day |
| Dashboard.IsPast | pages/Dashboard.tsx:55-59 | `isTimePast`: past iff the time parses and the item is not upcoming (the two filters split the parsed items); ClockTimeIsPast gives the minute test |
| Dashboard.ClockTimeIsPast | pages/Dashboard.tsx:55-59 | a row is past iff its minute is before `now`, and upcoming iff not past |
| Dashboard.Order | pages/Dashboard.tsx:62-75 | `sortedAppointments`; its contract is the lemmas below: OrderKeepsParsed, OrderIsPermutation, OrderPartition, UpcomingBeforePast, OrderSegmentsSorted, OrderIsStable, OrderIdempotent |
| Dashboard.OrderKeepsParsed | pages/Dashboard.tsx:66-74 | the agenda holds every item whose time parses exactly as often as the input, and nothing else |
| Dashboard.OrderIsPermutation | pages/Dashboard.tsx:66-74 | with well-formed times the agenda is a permutation of the input (same multiset, same length) |
| Dashboard.UnparsedTimeIsDropped | pages/Dashboard.tsx:66-72 | an item whose time is NaN fails both filters and never appears |
| Dashboard.OrderPartition | pages/Dashboard.tsx:66-74 | the first \|upcoming\| items are upcoming and all later ones are past |
| Dashboard.UpcomingBeforePast | pages/Dashboard.tsx:66-74 | every upcoming item is placed before every past item |
| Dashboard.OrderSegmentsSorted | pages/Dashboard.tsx:66-72 | times never decrease within the upcoming part or within the past part |
| Dashboard.OrderIsStable | pages/Dashboard.tsx:68-72 | items with equal times keep their input order (stable sort) |
| Dashboard.OrderIdempotent | pages/Dashboard.tsx:62-75 | ordering the agenda again with the same `now` changes nothing |
| Dashboard.Displayed | pages/Dashboard.tsx:77 | the shown list is a prefix: everything when expanded, else the first min(5, n) |
| Dashboard.IsNext | pages/Dashboard.tsx:173 | the "next" flag of a row; stated by NextIsFirstUpcoming and AtMostOneNext |
| Dashboard.NextIsFirstUpcoming | pages/Dashboard.tsx:172-173 | a row is "next" iff it is row 0 and some appointment is upcoming |
| Dashboard.AtMostOneNext | pages/Dashboard.tsx:172-173 | no two rows are flagged "next" |
| JsText.NumberOf | pages/Dashboard.tsx:51 | `Number()`: "" is 0, a digit string is its decimal value, and every other text is NaN here (see Left out) |
| Seqs.Filter | pages/Dashboard.tsx:67 | `filter`: never longer than the input and every kept item passes; FilterMultiset, FilterAppend and FilterOne pin which items and in what order |
| Seqs.SortBy | pages/Dashboard.tsx:68-72 | the stable sort by a key: the same multiset, sorted by key; SortByIsStable keeps equal keys in input order, SortByOfSorted leaves a sorted list unchanged |
| JsText.Split | pages/Dashboard.tsx:51 | `split` on one character: at least one part and no part holds the separator; JoinOfSplit and SplitCount pin it |
| JsText.JoinOfSplit | pages/ScheduleBlockingPage.tsx:49 | joining the parts of a split with the separator gives back the text |
| JsText.SplitOfJoin | pages/ScheduleBlockingPage.tsx:49 | splitting a joined list of separator-free parts gives the parts back |
| JsText.SplitCount | pages/ScheduleBlockingPage.tsx:49-50 | `split` gives one more part than the separator occurs |
| JsText.Trim | pages/ServicesPage.tsx:95-96 | `trim`: empty iff the text is all whitespace; otherwise it neither starts nor ends with whitespace |
| JsText.TrimIdempotent | pages/ServicesPage.tsx:95-96 | trimming twice is trimming once |
| ScheduleBlocking.FormatDateSafely | pages/ScheduleBlockingPage.tsx:47-55 | "" stays ""; a text without exactly two '-' is returned unchanged; the length is kept |
| ScheduleBlocking.FormatIsoDate | pages/ScheduleBlockingPage.tsx:47-55 | "Y-M-D" is displayed "D/M/Y" |
| ScheduleBlocking.InitialTable | pages/ScheduleBlockingPage.tsx:65-72 | the initial table has the 7 weekdays in order, all closed, 09:00 to 18:00 |
| ScheduleBlocking.FindDayIndex | pages/ScheduleBlockingPage.tsx:102 | `find` picks the first saved entry with the weekday's key |
| ScheduleBlocking.LoadedTable | pages/ScheduleBlockingPage.tsx:101-104 | the loaded table always has the 7 weekdays in order, each slot carrying its own key |
| ScheduleBlocking.LoadedDayIsFirstSaved | pages/ScheduleBlockingPage.tsx:101-104 | a weekday gets the first saved entry with its key |
| ScheduleBlocking.LoadedDayIsDefault | pages/ScheduleBlockingPage.tsx:101-104 | a weekday with no saved entry gets the closed 09:00 to 18:00 default |
| ScheduleBlocking.LoadSavedTable | pages/ScheduleBlockingPage.tsx:101-104 | loading back a well-formed table gives the same table |
| ScheduleBlocking.Toggled | pages/ScheduleBlockingPage.tsx:124-128 | only `enabled` of entry i flips; its hours and all other days are unchanged |
| ScheduleBlocking.ToggleTwice | pages/ScheduleBlockingPage.tsx:124-128 | toggling a day twice restores the table |
| ScheduleBlocking.WithHour | pages/ScheduleBlockingPage.tsx:130-134 | only the chosen field of entry i is set; everything else is unchanged |
| ScheduleBlocking.Payload | pages/ScheduleBlockingPage.tsx:158-162 | the sent block has null times iff it is a full-day block, else the form's times |
| ScheduleBlocking.StoredBlock | pages/ScheduleBlockingPage.tsx:170-178 | the kept block is the server's record exactly when the request succeeded and the record has a non-empty id; otherwise it is the payload under the fresh id; with a non-empty fresh id it always has an id |
| ScheduleBlocking.RemoveById | pages/ScheduleBlockingPage.tsx:193 | no block with the removed id remains |
| ScheduleBlocking.RemoveKeepsOthers | pages/ScheduleBlockingPage.tsx:193 | every block with another id is kept as often as before |
| ScheduleBlocking.RemoveDistributes | pages/ScheduleBlockingPage.tsx:193 | removal distributes over concatenation |
| ScheduleBlocking.RemoveOneBlock | pages/ScheduleBlockingPage.tsx:193 | one block is kept iff it does not carry the id; with RemoveDistributes, the kept blocks keep their order |
| ScheduleBlocking.RemoveAbsentId | pages/ScheduleBlockingPage.tsx:193 | removing an id no block carries changes nothing |
| ScheduleBlocking.DisplayOrder | pages/ScheduleBlockingPage.tsx:436 | position k shows the block at position n-1-k (the list reversed) |
| ScheduleBlocking.NewBlockDisplayedLast | pages/ScheduleBlockingPage.tsx:436 | a prepended block is displayed after the older ones, which keep their order |
| ScheduleBlocking.SchedulePage.TableArray | pages/ScheduleBlockingPage.tsx:65-72 | a fresh 7-slot array holding the given table |
| ScheduleBlocking.SchedulePage.constructor | pages/ScheduleBlockingPage.tsx:63-83 | initial table, no blocks, the empty form, the modal closed |
| ScheduleBlocking.SchedulePage.Load | pages/ScheduleBlockingPage.tsx:90-118 | on success the table is the loaded table and blocks the payload (empty if not an array); on failure only the blocks are cleared |
| ScheduleBlocking.SchedulePage.ToggleDay | pages/ScheduleBlockingPage.tsx:124-128 | the array becomes `Toggled` of its old contents and stays a well-formed week |
| ScheduleBlocking.SchedulePage.UpdateHour | pages/ScheduleBlockingPage.tsx:130-134 | the array becomes `WithHour` of its old contents and stays a well-formed week |
| ScheduleBlocking.SchedulePage.SaveBusinessHours | pages/ScheduleBlockingPage.tsx:136-141 | the table sent is the current one, and it loads back unchanged |
| ScheduleBlocking.SchedulePage.EditDraft | pages/ScheduleBlockingPage.tsx:344-400 | each form control sets its own field or flips its own flag |
| ScheduleBlocking.SchedulePage.AddBlockedDate | pages/ScheduleBlockingPage.tsx:152-185 | without a date nothing changes; otherwise the payload is sent, the kept block is prepended on success and failure, and the form resets |
| ScheduleBlocking.SchedulePage.AskRemove | pages/ScheduleBlockingPage.tsx:453 | the confirmation opens only for a block with a non-empty id |
| ScheduleBlocking.SchedulePage.CancelRemove | pages/ScheduleBlockingPage.tsx:246 | the confirmation closes and forgets the id |
| ScheduleBlocking.SchedulePage.ConfirmRemove | pages/ScheduleBlockingPage.tsx:187-201 | with no id nothing changes; otherwise every block with that id goes and the modal closes |
| Services.EditForm | pages/ServicesPage.tsx:71-76 | the edit form takes the service's fields; a missing name, details or price becomes "", a missing or 0 duration becomes 30 |
| Services.ValidatedPayload | pages/ServicesPage.tsx:95-111 | nothing is sent iff the name is all whitespace; otherwise name and details are sent trimmed |
| Services.ValidatedPayloadIsStable | pages/ServicesPage.tsx:95-111 | putting a sent name and details back in the form and saving sends the same payload |
| Services.ReplaceById | pages/ServicesPage.tsx:116-118 | exactly the entries with the edited id become the returned record; length and all others unchanged |
| Services.ReplaceAbsentId | pages/ServicesPage.tsx:116-118 | editing an id that is not listed changes nothing |
| Services.ReplaceTwice | pages/ServicesPage.tsx:116-118 | applying the same edit twice is applying it once |
| Services.RemoveById | pages/ServicesPage.tsx:84 | no entry with the deleted id remains |
| Services.RemoveKeepsOthers | pages/ServicesPage.tsx:84 | every entry with another id is kept as often as before |
| Services.RemoveDistributes | pages/ServicesPage.tsx:84 | deletion distributes over concatenation |
| Services.RemoveOneService | pages/ServicesPage.tsx:84 | one entry is kept iff it has another id; with RemoveDistributes, the kept entries keep their order |
| Services.DeleteAfterCreate | pages/ServicesPage.tsx:84-121 | deleting a just-created service under a fresh id restores the old list |
| Services.DeleteAfterReplace | pages/ServicesPage.tsx:84-118 | deleting the edited id after an edit removes the same as deleting it before |
| Services.ServicesPage.constructor | pages/ServicesPage.tsx:28-41 | empty list, add mode, empty form with 30 minutes, modal closed |
| Services.ServicesPage.Load | pages/ServicesPage.tsx:43-56 | the loaded list replaces the old one; a failure keeps it |
| Services.ServicesPage.OpenAddModal | pages/ServicesPage.tsx:62-69 | add mode, form reset to "", "", 30, "", modal open |
| Services.ServicesPage.OpenEditModal | pages/ServicesPage.tsx:71-78 | edit mode for the service, form `EditForm` of it, modal open |
| Services.ServicesPage.CloseModal | pages/ServicesPage.tsx:232 | the modal closes |
| Services.ServicesPage.EditField | pages/ServicesPage.tsx:248-322 | each input sets its own form field |
| Services.ServicesPage.Delete | pages/ServicesPage.tsx:80-88 | after confirmation and success every entry with the id goes; otherwise nothing changes |
| Services.ServicesPage.Save | pages/ServicesPage.tsx:90-135 | sends the validated payload; edit replaces by id, create appends; invalid name or failure leaves the list |
| Profile.SanitisePhone | pages/ProfilePage.tsx:179 | the result holds only ASCII digits and is never longer than the input |
| Profile.SanitiseDistributes | pages/ProfilePage.tsx:179 | sanitising distributes over concatenation |
| Profile.SanitiseOneChar | pages/ProfilePage.tsx:179 | a single character is kept iff it is a digit |
| Profile.SanitiseCounts | pages/ProfilePage.tsx:179 | each digit occurs exactly as often as in the input; nothing else occurs |
| Profile.SanitiseIdempotent | pages/ProfilePage.tsx:179 | sanitising twice is sanitising once |
| Profile.SanitiseKeepsDigitsOnly | pages/ProfilePage.tsx:179 | the length (and the text) is kept iff the input is all digits |

## Left out

- HTTP requests (`api.get`/`post`/`put`/`delete`) are not modelled. Their outcomes are parameters: the load reply, the save reply with the returned record, and the delete success flag.
- Reading the clock (`new Date()`) is not modelled. `now` is a parameter, and the flag and the order use the same `now`. The page reads the clock separately for each and freezes the order when it mounts.
- JsText.NumberOf: `Number()` also accepts surrounding whitespace, signs, decimals, exponents and hex (" 9", "-1", "1.5", "1e2", "0x1A"). Those forms are NaN here; only "" and plain ASCII digit strings are numbers. `Number()` also yields a double: a digit string of more than about 15 digits loses precision and one of more than about 309 digits is `Infinity`, while the model's value is exact.
- Dashboard.GetMinutes: inherits the restriction above, so a time such as " 9:30" or "9.5:00" is NaN here.
- `Math.random` ids are not modelled; the made-up id is a parameter of `AddBlockedDate`.
- `JSON.parse` of string payloads is not modelled; the load reply carries the already-parsed lists. Weekly hours that cannot be parsed are the failed reply (the old table stays). Blocked dates that cannot be parsed are `Loaded(hours, None)`: that parse runs after the loaded table is installed, so the table is kept and the blocks are cleared.
- `undefined` and `null` are not distinguished; both are `None`.
- Services.ValidatedPayload: the price is sent as the form's text. The `parseFloat(price.replace(",", ".")) || 0` conversion is floating point and is left out.
- Services.EditForm: `valor.toFixed(2)` is floating point. A service's `valor` is kept as its already-formatted text. A duration that is NaN is folded into `None` (both give 30).
- Services.ServicesPage.EditField: `parseInt` of the duration input can give NaN. Durations here are integers.
- ScheduleBlocking.SchedulePage.ToggleDay: the source copies the array but mutates the shared element object. The aliasing with the previous React state is not modelled; the model updates the slot.
- ScheduleBlocking.SchedulePage.UpdateHour: the same shared element object is mutated in the source. That aliasing is not modelled either.
- ScheduleBlocking.SchedulePage.AddBlockedDate, ScheduleBlocking.SchedulePage.ConfirmRemove, Services.ServicesPage.Delete and Services.ServicesPage.Save are each one atomic step. In the source each awaits its request and then builds the new list from the list it captured before the request. A change made while the request is pending is overwritten, for example a removal confirmed while an add is in flight. Interleaved handlers are not modelled.
- Timers, toasts, loading/saving flags, alerts, the login redirect on 401, and the modal closing 1.5 s after a save are not modelled.
- `repeat_yearly` is only stored, toggled and displayed. No recurrence matching, slot generation or conflict check exists in these pages, and none is modelled.
- Rendering (JSX) is not modelled, nor are the other pages and components.
