# Restaurant booking backend — a Dafny model

This project models the core of a small restaurant booking and administration
backend written for Node.js (Express and Mongoose). It covers two server
variants: the MongoDB server (`server-mongodb.js`) and the older server
(`server.js`). It also covers the two Mongoose schemas they share
(`models/Booking.js`, `models/TimeSlotSettings.js`).

What is modelled:

- **Booking admission** (MongoDB server). A booking request goes through these steps:
  - Its time is normalized by `normalizeTime`, and its first five characters are checked against 13 fixed
    `HH:MM-HH:MM` ranges. The first range in list order that holds the time is used, compared in
    JavaScript string order.
  - The slot policy comes from the date's time-slot record, else from the global one. The booking is
    refused (400) only when that slot is exactly `false`.
  - It is refused (400) when a confirmed booking with the same date and time string exists.
  - The record is then cast through the booking schema (a cast failure is a 500).
  - Last, the customer is upserted by email.
  - A failed availability lookup or a failed conflict lookup lets the booking through. A failed customer
    write is a 500 after the booking was stored.
  - The tables are a class whose methods append and upsert in place. Every refusal leaves both tables
    unchanged.
- **Booking admission** (older server):
  - Its own time normalization, which zero-pads the hour.
  - Its own field derivation.
  - A customer upsert that runs before the booking is validated, and whose errors are swallowed.
  - No slot or conflict check.
- **The booking schema**. Required fields, trimming and lower-casing, guests within 1..20, the status enum
  with its `pending` default, and an empty default for special requests. Written as a cast from raw fields
  to `Option<Booking>`, with a validity predicate.
- **Time-slot settings**:
  - The record class with its pre-save hook, which seeds the 13 labels with `true` on the first save of a
    new, empty record.
  - The availability GET, with its date-then-global fallback, creating the global record when none exists.
  - The availability PUT, which replaces one key's whole map, with values coerced by `!!`.
- **Menu PDFs**: upload, list by title, get active, delete active, set-active, deactivate and delete by id.
  This includes the header-check order of the admin endpoints and the id-to-title mapping.
- **`GET /api/menu`**: the title-to-key index of active PDFs and the listing built from it.
- **The in-memory menu-item list of `server.js`**: POST, PUT and DELETE.
- **The restaurant settings**: get-or-create, and the field-by-field `??` merge of PUT.
- **The peak-hours part of `GET /api/analytics`**: counting confirmed times, a stable sort by descending
  count, the top three, and the 12-hour formatting, including both fallbacks.

A note on single-digit hours. `normalizeTime` (server-mongodb.js:69-77) does not zero-pad, so `9:30`
becomes `9:30:00`, whose prefix `9:30:` lies in no range. Such a time is never blocked by the slot policy.
This holds for hours 2 to 9 only. In string order `:` sorts after every digit:

- `0:MM:` sorts between `09:30` and `10:30`, so it is checked against the `09:30-10:30` slot.
- `1:MM:` sorts between `19:30` and `20:30`, so it is checked against the `19:30-20:30` slot.

The model follows the code here. The lemmas `Slots.UnpaddedHourZeroSlot`, `Slots.UnpaddedHourOneSlot`
and `Slots.UnpaddedLaterHourNoSlot` state all three cases.

Modules, one per file:

| file | module | contents |
|---|---|---|
| js_text.dfy | JsText | JavaScript string behaviour: `trim`, ASCII lower-casing, decimal digits, string order, `split` on a separator |
| js_values.dfy | JsValues | JSON values, `Number(...) \|\| d`, truthiness, property keys, `parseInt` |
| time_format.dfy | TimeFormat | both `normalizeTime` variants, `to12h` |
| slots.dfy | Slots | the 13 ranges and `findContainingSlot` |
| time_slot_settings.dfy | TimeSlotSettings | the time-slot record and its store |
| booking_schema.dfy | BookingSchema | the booking schema |
| payload.dfy | Payload | the request-field derivations of both servers |
| customers.dfy | Customers | the customer upserts |
| admission.dfy | Admission | `POST /api/bookings` of the MongoDB server |
| legacy_bookings.dfy | LegacyBookings | `POST /api/bookings` of `server.js` |
| menu_pdfs.dfy | MenuPdfs | the menu-PDF records and endpoints |
| menu_listing.dfy | MenuListing | `GET /api/menu` |
| menu_items.dfy | MenuItems | the menu-item list of `server.js` |
| settings.dfy | RestaurantSettings | the settings document |
| analytics.dfy | Analytics | peak hours |

## Model

| member | source | states |
|---|---|---|
| JsText.Trim | models/Booking.js:4-14 | `trim()` removes exactly the leading and the trailing whitespace: the result is the middle part of the input, everything before and after it is whitespace, and it starts and ends with non-whitespace |
| JsText.TrimStart | server-mongodb.js:314-315 | the leading part removed is all whitespace and the result is a suffix of the input |
| JsText.TrimEnd | server-mongodb.js:314-315 | the trailing part removed is all whitespace and the result is a prefix of the input |
| JsText.TrimIsTrimmed | models/Booking.js:4-14 | a trimmed value has no leading or trailing whitespace |
| JsText.TrimmedTrimIsIdentity | models/Booking.js:4-14 | trimming an already trimmed value changes nothing |
| JsText.ToLowerAscii | models/Booking.js:9-14 | lower-casing keeps the length and maps each character on its own |
| JsText.LowerKeepsTrimmed | models/Booking.js:9-14 | lower-casing a trimmed value leaves it trimmed, and it is then lower-case |
| JsText.NatToString | server.js:896-903 | a route id printed in decimal is a non-empty digit string, without a leading zero unless it is `0` |
| JsText.DigitsValueOfNatToString | server.js:206-216 | reading back the digits of a printed number gives that number |
| JsText.DigitRun | server.js:206-216 | the greedy `\d+` match at a position: a digit prefix followed by a non-digit or the end |
| JsText.Before | server-mongodb.js:72 | `split(sep)[0]`: the prefix up to the first separator, which it does not contain |
| JsText.After | server-mongodb.js:329 | the text after the first separator, so that `s == before + sep + after` |
| JsText.BeforeOfJoin | server-mongodb.js:72 | the start of a range `a-b` is `a` when `a` has no `-` |
| JsText.AfterOfJoin | server-mongodb.js:329 | the end of a range `a-b` is `b` |
| JsText.LexLessLeTrans | server-mongodb.js:330 | string order: `a < b <= c` implies `a < c` |
| JsValues.OrElse | server-mongodb.js:313-315 | `a \|\| b` on strings: `a` unless it is missing or empty |
| JsValues.NumberOr | server-mongodb.js:316 | `Number(x) \|\| d`: the number unless it is `NaN` or `0` |
| JsValues.PropertyKey | server.js:231 | a string id is its own property key |
| JsValues.ParseIntOfDigits | server.js:297 | `parseInt` of a decimal digit string is its value |
| TimeFormat.HmsOfHm | server-mongodb.js:74 | appending `:00` to an `H:MM` string gives an `H:MM:SS` string |
| TimeFormat.HmsIsNotHm | server-mongodb.js:74-75 | an `H:MM:SS` string is not `H:MM`, ends in a digit and holds no `-` |
| TimeFormat.StripMeridiem | server-mongodb.js:73 | `replace(/\s?(AM\|PM)$/i, '')`: a trailing marker is removed together with one preceding whitespace character; anything else is unchanged |
| TimeFormat.NormalizeTime | server-mongodb.js:69-77 | the result always matches `^\d{1,2}:\d{2}:\d{2}$` |
| TimeFormat.NormalizeTimeCases | server-mongodb.js:69-77 | for non-empty input: `H:MM` after cutting the range and the marker gains `:00`; `H:MM:SS` is kept; anything else becomes `19:30:00` |
| TimeFormat.NormalizeTimeOfMissing | server-mongodb.js:70 | a missing or empty time becomes `19:30:00` |
| TimeFormat.NormalizeTimeIdempotent | server-mongodb.js:69-77 | normalizing a normalized time changes nothing |
| TimeFormat.NormalizeTimeOfRange | server-mongodb.js:72 | a range `a-b` normalizes as its start `a` |
| TimeFormat.NormalizeTimeIgnoresMeridiem | server-mongodb.js:73-74 | `H:MM` followed by AM or PM gives `H:MM:00`, with no 12-to-24-hour conversion |
| TimeFormat.NormalizeTimeDoesNotPad | server-mongodb.js:74 | `9:30` becomes `9:30:00`, not `09:30:00` |
| TimeFormat.NormalizeTimeLegacy | server.js:444-461 | the step-by-step normalization of `server.js` gives an `H:MM:SS` string; an `H:MM` input gives the zero-padded `HH:MM:00` |
| TimeFormat.ClockTimeFields | server-mongodb.js:467-473 | splitting a stored `H:MM:SS` time at `:` gives one or two hour digits, and the minutes field is the two digits after them |
| TimeFormat.To12hOfClockTime | server-mongodb.js:467-473 | for a stored time, the hour is read as its digits' value, the minutes are kept, and the marker is PM exactly from hour 12 on |
| TimeFormat.ShowHourOfNat | server-mongodb.js:471 | hour 0 is shown as 12, hours 1 to 12 as themselves, later hours as hour minus 12 |
| Slots.BoundsAreClocks | server-mongodb.js:319-325 | every range bound is an `HH:MM` string |
| Slots.ClockLexLess | server-mongodb.js:330 | on `HH:MM` strings, JavaScript string order is time order |
| Slots.SlotBounds | server-mongodb.js:329 | splitting each range label at `-` gives its start and its end |
| Slots.InSlotCanonical | server-mongodb.js:329-330 | the containment test `start <= t && t < end` on a label is the test on its bounds |
| Slots.SlotIndexFromSpec | server-mongodb.js:327-333 | the search from a position returns the first label from there on that holds the time, or none of the rest hold it |
| Slots.SlotIndexFrom | server-mongodb.js:327-333 | a found index lies between the start position and the end of the list |
| Slots.FirstIndex | server-mongodb.js:328-331 | the search returns the first holding label after a run of labels that do not hold the time |
| Slots.ContainingSlot | server-mongodb.js:327-333 | a returned label holds the time; no result means none of the 13 ranges holds it |
| Slots.NoContainingSlot | server-mongodb.js:332 | a time no range holds gives `null` |
| Slots.FirstContainingSlot | server-mongodb.js:328-331 | the first range in list order that holds the time is the one returned |
| Slots.FindContainingSlot | server-mongodb.js:327-333 | the loop returns what `ContainingSlot` specifies |
| Slots.NoSlotBetween | server-mongodb.js:319-325 | a time between two clocks that no range straddles is in no slot |
| Slots.NoSlotBelow | server-mongodb.js:319-333 | a time below a clock that no range starts before is in no slot |
| Slots.NoSlotBeforeOpening | server-mongodb.js:319-325 | times before `07:30` are in no slot |
| Slots.NoSlotInMorningGap | server-mongodb.js:319-325 | times from `10:30` up to `12:00` are in no slot |
| Slots.NoSlotInAfternoonGap | server-mongodb.js:319-325 | times from `14:30` up to `15:30` are in no slot |
| Slots.NoSlotAfterClosing | server-mongodb.js:319-325 | times from `22:30` on are in no slot |
| Slots.StartKey | server-mongodb.js:319-325 | each start, read as the number `HHMM`, is the listed key |
| Slots.StartKeysDistinct | server-mongodb.js:319-325 | the start keys are pairwise distinct |
| Slots.StartsDistinct | server-mongodb.js:319-325 | no two ranges start at the same time |
| Slots.LabelsDistinct | server-mongodb.js:319-325 | the 13 labels are pairwise distinct |
| Slots.OverlappingSlotOnlyAfterTwo | server-mongodb.js:320-331 | `13:30-14:30` is only chosen for times from `14:00` up to `14:30`, because `13:00-14:00` comes first |
| Slots.UnpaddedVersusClock | server-mongodb.js:326-330 | an unpadded `d:` time is below an `HH:MM` bound exactly when `d` is below its first digit |
| Slots.UnpaddedInSlot | server-mongodb.js:326-330 | an unpadded `d:` time is in a range exactly when `d` lies between the first digits of its start and its end |
| Slots.UnpaddedHourZeroSlot | server-mongodb.js:326-333 | an unpadded hour `0` lands in `09:30-10:30` |
| Slots.UnpaddedHourOneSlot | server-mongodb.js:326-333 | an unpadded hour `1` lands in `19:30-20:30` |
| Slots.UnpaddedLaterHourNoSlot | server-mongodb.js:326-333 | unpadded hours `2` to `9` are in no slot |
| Slots.ClockSlot | server-mongodb.js:327-333 | for an `HH:MM` time, the first range whose bounds enclose it in time order is its slot |
| TimeSlotSettings.DateKeyOf | server-mongodb.js:170 | `(date \|\| '').trim() \|\| null`: a blank or missing date is the global key; a trimmed non-empty date is kept |
| TimeSlotSettings.AllAvailable | models/TimeSlotSettings.js:30-32 | setting each label to `true` gives a map with exactly those labels, all `true` |
| TimeSlotSettings.AllAvailableSnoc | models/TimeSlotSettings.js:30-32 | one more `set(slot, true)` adds that label as `true` |
| TimeSlotSettings.DefaultSlots | models/TimeSlotSettings.js:22-32 | the seeded map holds exactly the canonical labels, all `true` |
| TimeSlotSettings.DistinctCardinality | models/TimeSlotSettings.js:22-28 | a list without repeats has as many distinct elements as entries |
| TimeSlotSettings.DefaultSlotsSize | models/TimeSlotSettings.js:22-28 | the seeded map has 13 entries |
| TimeSlotSettings.Seeded | models/TimeSlotSettings.js:21-33 | a new record with an empty map gets the 13 labels as `true`; any other record keeps its map exactly |
| TimeSlotSettings.SeedOnlyFillsNewEmptyRecords | models/TimeSlotSettings.js:21 | the hook changes the map if and only if the record is new and its map is empty |
| TimeSlotSettings.SlotSettingsRecord.constructor | models/TimeSlotSettings.js:4-14 | a new record has the given date key, an empty map and is new |
| TimeSlotSettings.SlotSettingsRecord.PreSave | models/TimeSlotSettings.js:20-35 | the hook's loop leaves the map seeded as `Seeded` states and changes nothing else |
| TimeSlotSettings.SlotSettingsRecord.Save | models/TimeSlotSettings.js:20-35 | saving runs the hook, then the record is no longer new |
| TimeSlotSettings.PolicyFor | server-mongodb.js:338-340 | the date's own record when it has one, else the global record `records[None]`; none only when neither exists |
| TimeSlotSettings.DateRecordShadowsGlobal | server-mongodb.js:174-180 | a date with its own record reads that record |
| TimeSlotSettings.MissingDateFallsBack | server-mongodb.js:178-180 | a date without a record reads the global record `records[None]`, or nothing when there is no global record |
| TimeSlotSettings.Coerced | server-mongodb.js:204 | the coerced map has exactly the body's keys |
| TimeSlotSettings.CoercedLastWins | server-mongodb.js:204 | each key holds `!!v` of its last value in the body |
| TimeSlotSettings.CoerceEntries | server-mongodb.js:203-204 | the `forEach` of `map.set(k, !!v)` builds the `Coerced` map |
| TimeSlotSettings.TimeSlotStore.constructor | server-mongodb.js:168-216 | the store starts empty |
| TimeSlotSettings.TimeSlotStore.GetAvailability | server-mongodb.js:168-196 | for a date key, returns the date record, else the global record; when neither exists, a seeded global record is created and returned; other records are untouched |
| TimeSlotSettings.TimeSlotStore.CreateGlobal | server-mongodb.js:180-183 | the created global record holds the seeded map of the 13 labels, all `true`; no other key changes |
| TimeSlotSettings.TimeSlotStore.PutAvailability | server-mongodb.js:198-216 | replaces the whole map of the date key (derived by `DateKeyOf`, the global key for a blank date) with the coerced body, without seeding; other keys are unchanged |
| TimeSlotSettings.PutThenLookup | server-mongodb.js:198-216 | after a PUT the key reads back the written map, and other keys keep their maps |
| BookingSchema.ParseStatus | models/Booking.js:37-41 | a status string is accepted exactly when it names one of the four statuses |
| BookingSchema.ParseStatusName | models/Booking.js:37-41 | every status parses back from its name |
| BookingSchema.LowerTrim | models/Booking.js:9-14 | the stored email is trimmed and lower-case, and empty exactly when the input is blank |
| BookingSchema.Cast | models/Booking.js:1-55 | a cast booking satisfies the schema: required strings non-empty, names and phone trimmed, the email trimmed and lower-case, guests within 1..20 |
| BookingSchema.CastSpec | models/Booking.js:1-55 | validation succeeds exactly when the required fields are present, the names are not blank, guests are within 1..20, the table is given and the status is in the enum; the stored name is trimmed, the email trimmed and lower-cased, with `pending` and `''` as defaults |
| BookingSchema.CastAccepts | models/Booking.js:1-55 | for the fields the handlers always fill, acceptance is non-blank names and email, a valid date, a non-empty time, guests within 1..20 and a known status |
| BookingSchema.CastOfValid | models/Booking.js:1-55 | casting the fields of a valid booking gives that booking back |
| BookingSchema.LowerOfLower | models/Booking.js:9-14 | lower-casing a lower-case value changes nothing |
| Payload.Guests | server-mongodb.js:312 | `Number(guests ?? partysize ?? 1) \|\| 1`: never 0; the given count when it is a non-zero number; 1 when both are missing |
| Payload.GuestsIgnorePartySize | server-mongodb.js:312 | a present but zero or non-numeric `guests` gives 1, whatever `partysize` says |
| Payload.NameMongo | server-mongodb.js:313 | the given name when non-empty, otherwise the trimmed first and last name, otherwise `Guest` |
| Payload.NameLegacy | server.js:468-472 | never empty and trimmed; the trimmed given name when it is not blank |
| Payload.NameLegacyFallback | server.js:468-472 | a whitespace-only given name becomes `Guest`; without a name, the trimmed first and last name, else `Guest` |
| Payload.Email | server-mongodb.js:314 | the trimmed `customerEmail`, else the trimmed `email`, else `guest@example.com` |
| Payload.EmailFallback | server-mongodb.js:314 | without an email the customer is `guest@example.com` |
| Payload.Phone | server-mongodb.js:315 | the trimmed phone, or `null` exactly when it is blank |
| Payload.Table | server-mongodb.js:316 | the given table when a non-zero number, otherwise the fallback |
| Payload.StatusText | server-mongodb.js:369 | `status \|\| 'pending'` is never empty |
| Payload.LegacyFieldsAccepted | server.js:463-521 | the schema accepts the older server's record exactly when the date is valid, guests are within 1..20 and the status is in the enum |
| Payload.MongoFieldsAccepted | server-mongodb.js:361-371 | the schema accepts the MongoDB server's record exactly when the date is valid, the name is not blank, guests are within 1..20 and the status is in the enum; a whitespace-only name is refused |
| Payload.BlankNameDiffers | server-mongodb.js:313 | a whitespace-only name is kept by the MongoDB server (and then refused by the schema) but becomes `Guest` in the older server |
| Customers.FindByEmail | server-mongodb.js:374 | `findOne({ email })`: the first customer with the email, or none has it |
| Customers.UpsertedSpec | server-mongodb.js:373-383 | an existing customer gets `(visits or 0)+1`, the booking date, the new name, and the new phone only when one is given; otherwise one customer with 1 visit is appended; nobody else changes |
| Customers.UpsertedLegacySpec | server.js:490-517 | an existing customer gets `visits+1`, today's date and an unconditional name and phone overwrite; otherwise one customer with 1 visit and the booking date is appended; nobody else changes |
| Customers.UpsertFindsCustomer | server-mongodb.js:373-383 | after the upsert the email finds a customer with the new name and the booking date |
| Customers.FindByEmailStable | server-mongodb.js:374 | updates that keep every email keep every lookup |
| Customers.FirstWithEmail | server-mongodb.js:374 | the first customer with the email is the one `findOne` finds |
| Customers.TwoBookingsOneCustomer | server-mongodb.js:373-383 | two bookings by a new email create one customer, with 2 visits and the second date |
| Admission.Hhmm | server-mongodb.js:326 | `(time \|\| '').slice(0, 5)` is the prefix of the time of length at most five |
| Admission.AppendKeepsUnique | server-mongodb.js:351-359 | appending a booking that is not a confirmed duplicate keeps confirmed (date, time) pairs unique |
| Admission.NoRecordNoBlock | server-mongodb.js:340-346 | with no record, or no slot holding the time, nothing is blocked |
| Admission.DateRecordOverridesGlobal | server-mongodb.js:338-346 | a slot that the date's record allows is not blocked, whatever the global record says |
| Admission.UnpaddedTimesNeverBlocked | server-mongodb.js:326-346 | a time with an unpadded hour from 2 to 9 is never blocked |
| Admission.NineThirtyNeverBlocked | server-mongodb.js:311-346 | a booking at `9:30` is never blocked by the slot policy |
| Admission.HourZeroCheckedAgainstMorningSlot | server-mongodb.js:326-346 | a time with unpadded hour 0 is blocked exactly when `09:30-10:30` is `false` in the record used |
| Admission.ConflictNeedsExactConfirmed | server-mongodb.js:353 | only a confirmed booking with the same date and the same time string is a conflict |
| Admission.SameRangeOtherTimeAdmitted | server-mongodb.js:351-359 | a confirmed `19:30:00` booking does not conflict with `19:45:00`, though both are in the same range |
| Admission.Reservations.constructor | server-mongodb.js:308-390 | the tables start empty |
| Admission.Reservations.FindConfirmed | server-mongodb.js:353 | the scan finds a booking exactly when a confirmed one at that date and time exists |
| Admission.Reservations.PolicyRefuses | server-mongodb.js:335-349 | the check refuses exactly when the containing slot is `false` in the record used |
| Admission.Reservations.Store | server-mongodb.js:361-371 | appends the booking, and keeps confirmed pairs unique when it is not a confirmed duplicate |
| Admission.Reservations.RecordCustomer | server-mongodb.js:373-383 | the customer table becomes the upsert of the booking's customer |
| Admission.Reservations.Screen | server-mongodb.js:335-359 | the slot refusal when the policy blocks the time, else the conflict refusal when a confirmed booking is at that date and time, else none; a failed lookup skips its check |
| Admission.Reservations.Admit | server-mongodb.js:361-389 | a schema refusal changes nothing; otherwise the cast booking is appended, and the customer is upserted unless that write fails; confirmed pairs stay unique for a booking that is not a confirmed duplicate |
| Admission.Reservations.CreateBooking | server-mongodb.js:308-390 | slot refusal, conflict refusal, schema refusal, a failed customer write and success, each exactly in its case and in that order; a refusal leaves both tables unchanged; success appends the cast booking and upserts its customer; confirmed pairs stay unique while the conflict lookup works |
| LegacyBookings.LegacyPadsSingleDigitHour | server.js:444-461 | the older server stores `9:30` as `09:30:00`, where the MongoDB server stores `9:30:00` |
| LegacyBookings.LegacyReservations.constructor | server.js:427-535 | the tables start empty |
| LegacyBookings.LegacyReservations.RecordCustomer | server.js:490-517 | the customer table becomes the older server's upsert |
| LegacyBookings.LegacyReservations.SaveBooking | server.js:519-521 | a record the schema refuses changes nothing; an accepted one is appended as cast |
| LegacyBookings.LegacyReservations.CreateBooking | server.js:427-535 | the customer is upserted (unless that write fails) whether or not the booking is then saved; the booking is refused exactly when the date is invalid, guests are outside 1..20 or the status is unknown; a saved booking is the padded time's cast record and is appended |
| MenuPdfs.TitleForInjective | server-mongodb.js:557 | different route ids file their uploads under different titles |
| MenuPdfs.AuthFailure | server-mongodb.js:614-621 | 401 for a missing header or one without `Bearer `, 403 for another token, and no failure exactly for `Bearer admin-token` |
| MenuPdfs.FirstActive | server-mongodb.js:581 | `findOne({ menuTitle, isActive: true })`: the first active record with the title, or none |
| MenuPdfs.IndexOfId | server-mongodb.js:630 | `findById`: the record with the id, or none has it |
| MenuPdfs.IdIsUnique | server-mongodb.js:630 | with increasing ids, the record found is the only one with that id |
| MenuPdfs.NewestFirst | server-mongodb.js:497-500 | the listed records are exactly those with the title |
| MenuPdfs.NewestFirstFromOrder | server-mongodb.js:499 | the listing is ordered by strictly decreasing id, that is newest first |
| MenuPdfs.AfterSetActive | server-mongodb.js:634-645 | each record is the old one, deactivated when it has the title and is not the target, activated when it is the target |
| MenuPdfs.Deactivated | server-mongodb.js:638-642 | the `updateMany` switches a record off exactly when it has the title and is not the target, and changes nothing else about it |
| MenuPdfs.SetActiveServesTarget | server-mongodb.js:634-645 | after set-active the target is the only active record of its title and `GET /api/menu/:id/pdf` serves it |
| MenuPdfs.UploadKeepsServedVersion | server-mongodb.js:560-571 | an upload does not change which record `GET /api/menu/:id/pdf` serves when an active one exists, and is served otherwise |
| MenuPdfs.RemoveAt | server-mongodb.js:705 | removing one record keeps the others in order |
| MenuPdfs.RemoveAtDropsId | server-mongodb.js:705 | after removal the id is gone and ids stay increasing |
| MenuPdfs.PdfStore.constructor | server-mongodb.js:492-716 | the store starts empty |
| MenuPdfs.PdfStore.Upload | server-mongodb.js:548-575 | 400 exactly for a missing file, a non-PDF or one over 10 MiB, changing nothing; otherwise exactly one active record with the derived title and a fresh id is appended, and no other record changes |
| MenuPdfs.PdfStore.ListByTitle | server-mongodb.js:492-515 | 400 for a missing title, otherwise the records with the title, newest first |
| MenuPdfs.PdfStore.GetActive | server-mongodb.js:577-592 | serves the first active record of the derived title, or 404 when there is none |
| MenuPdfs.PdfStore.DeleteActive | server-mongodb.js:594-608 | removes the first active record of the title and its file, or 404 changing nothing |
| MenuPdfs.PdfStore.SetActive | server-mongodb.js:612-653 | 401, 403, 400, 404 in that order, each changing nothing; on success the records become `AfterSetActive` |
| MenuPdfs.PdfStore.DeactivateOthers | server-mongodb.js:638-642 | every record of the title other than the target is switched off, the rest are unchanged, and the files stay |
| MenuPdfs.PdfStore.Deactivate | server-mongodb.js:657-687 | after the header checks and a 404 for an unknown id, only the target becomes inactive |
| MenuPdfs.PdfStore.DeleteById | server-mongodb.js:691-716 | after the header checks and a 404 for an unknown id, only the target and its file are removed |
| MenuListing.MenuItemDigits | server.js:206-216 | `/Menu Item (\d+)/`: a non-empty digit string when it matches |
| MenuListing.MenuItemDigitsSpec | server.js:212-214 | `/Menu Item (\d+)/` fails exactly when no position holds `Menu Item ` followed by a digit; otherwise it yields the greedy digit run after the leftmost such position |
| MenuListing.DigitsAtLeftmostMatch | server.js:212-214 | the digits captured are the full digit run after the leftmost occurrence of `Menu Item ` followed by a digit |
| MenuListing.KeyOfTitle | server.js:202-217 | `Food Menu` and `Wine Menu` give their keys; any other key is a non-empty string |
| MenuListing.KeyOfTitleSpec | server.js:206-216 | any other title has no key when `Menu Item ` followed by a digit occurs nowhere in it; otherwise its key is the decimal value of the digit run after the leftmost occurrence |
| MenuListing.ItemTitleDigits | server.js:206-216 | `Menu Item ` followed by digits matches those digits |
| MenuListing.TitleKeyRoundTrip | server.js:896-903 | the title an upload derives from `food_menu`, `wine_menu` or a decimal id leads back to that id |
| MenuListing.LeadingZerosDoNotRoundTrip | server.js:896-903 | an id written `007` is listed under `7` |
| MenuListing.PdfIndex | server-mongodb.js:521-529 | every indexed record is active, present and keyed by its own title |
| MenuListing.IndexKeepsNewest | server-mongodb.js:521-529 | the record under a key is the newest active one with that key |
| MenuListing.IndexOnlyActive | server-mongodb.js:521-529 | a key no active record names is not indexed |
| MenuListing.ListingAndDownloadDisagree | server-mongodb.js:521-529 | with two active versions of a title, the listing shows the newer and the download serves the older |
| MenuListing.BuildPdfIndex | server-mongodb.js:520-529 | the `forEach` loop builds `PdfIndex` |
| MenuListing.Listing | server-mongodb.js:531-541 | every item in order, with the indexed PDF exactly when one is indexed under its id, with an inherited `Object.prototype` value (an empty `pdfFile`) exactly when its id names such a member and nothing is indexed under it, then the food and wine menu entries |
| MenuListing.KeyNotInherited | server-mongodb.js:522-528 | no key the index is built under names an `Object.prototype` member |
| MenuListing.InheritedIdListed | server-mongodb.js:531-534 | an item whose id is `constructor`, `toString`, `__proto__` or another `Object.prototype` member is listed with the inherited value, whatever PDFs exist |
| MenuListing.GetMenu | server-mongodb.js:518-546 | the listing over the indexed PDFs, or the bare items when the query fails |
| MenuListing.UploadListedWithItem | server-mongodb.js:518-541 | an upload for item `n`, as the newest active version, is listed with the item whose id is `n` |
| MenuItems.IndexOfItem | server.js:298 | `findIndex(item => item.id === id)`: the first item with the numeric id; `NaN` matches nothing |
| MenuItems.NewItem | server.js:288-291 | the new item has id `length + 1` unless the body gives one, and carries every body property |
| MenuItems.Merged | server.js:301 | `{ ...item, ...body }`: the body's properties win, the others stay |
| MenuItems.MergeIdempotent | server.js:301 | merging the same body twice is merging it once |
| MenuItems.MenuItemList.constructor | server.js:66-71 | the list starts with the given items |
| MenuItems.MenuItemList.FindIndex | server.js:298 | the scan returns `IndexOfItem` |
| MenuItems.MenuItemList.Post | server.js:287-294 | appends exactly the new item |
| MenuItems.MenuItemList.Put | server.js:296-306 | 404 leaving the list unchanged, or 200 with only the found item merged |
| MenuItems.MenuItemList.Delete | server.js:308-318 | 404 leaving the list unchanged, or 200 with only the found item removed and the others in order |
| MenuItems.PostAfterDeleteDuplicatesId | server.js:287-318 | after deleting item 1 of 1, 2, 3, a POST adds a second item with id 3 |
| MenuItems.PutKeepsItemFindable | server.js:296-306 | a PUT that does not change `id` leaves the item findable at the same index |
| RestaurantSettings.EmptyPatchKeepsSettings | server-mongodb.js:148-165 | an empty body changes nothing |
| RestaurantSettings.MergeIdempotent | server-mongodb.js:148-165 | sending the same body twice is sending it once |
| RestaurantSettings.MergeCompose | server-mongodb.js:148-165 | two PUTs are one PUT of the combined body, the later fields winning |
| RestaurantSettings.MergeTakesGivenFields | server-mongodb.js:152-158 | for each of the seven fields, a given value is stored even when falsy, and a field left out keeps its value |
| RestaurantSettings.PutOnEmptyStoresPatchedDefaults | server-mongodb.js:150-158 | a PUT with no document stores, for each of the seven fields, the body's value or else the schema default |
| RestaurantSettings.SettingsStore.constructor | server-mongodb.js:128-165 | no document at start |
| RestaurantSettings.SettingsStore.Get | server-mongodb.js:128-146 | returns the document, creating it with the defaults when there is none |
| RestaurantSettings.SettingsStore.Put | server-mongodb.js:148-165 | the document becomes the merge of the body into the old document (or the defaults), and the reply echoes the body |
| Analytics.BumpCounts | server-mongodb.js:461-465 | one increment keeps the times distinct, adds 1 to the entry of a seen time in place or appends a new time with 1, and changes no other entry |
| Analytics.BumpFound | server-mongodb.js:464 | counting a seen time adds one to its first entry and changes nothing else |
| Analytics.BumpAbsent | server-mongodb.js:464 | counting a new time appends it with count 1 |
| Analytics.TallyIncrement | server-mongodb.js:461-465 | adding one to an entry of a tally tallies one more sighting of its time |
| Analytics.TallyBumpSeen | server-mongodb.js:461-465 | counting a time seen before keeps the tally |
| Analytics.TallyBumpNew | server-mongodb.js:461-465 | counting a new time keeps the tally |
| Analytics.CountsOfCounts | server-mongodb.js:461-465 | the counts tally the times: each seen time appears once, with the number of times it was seen, and no other time appears |
| Analytics.CountTimes | server-mongodb.js:461-465 | the counting loop builds `CountsOf` |
| Analytics.Insert | server-mongodb.js:475-477 | one insertion step keeps every entry and adds one |
| Analytics.InsertSorted | server-mongodb.js:475-477 | inserting into a list sorted by descending count keeps it sorted |
| Analytics.SortByCount | server-mongodb.js:476 | the sort is a permutation of the entries |
| Analytics.SortByCountSorted | server-mongodb.js:476 | the sort orders by non-increasing count |
| Analytics.Top3 | server-mongodb.js:477 | at most three entries, fewer only when fewer times exist |
| Analytics.TopDominates | server-mongodb.js:475-478 | every time left out was seen at most as often as each time shown |
| Analytics.Shown | server-mongodb.js:478 | each shown entry is its time in 12-hour format |
| Analytics.PeakHours | server-mongodb.js:475-483 | one to three entries, and `No data available` exactly when no confirmed booking exists |
| Analytics.PeakHoursLegacy | server.js:609-634 | the older server gives `7:00 PM`, `8:00 PM`, `9:00 PM` without confirmed bookings, otherwise the same peaks |
| Analytics.To12hShape | server-mongodb.js:467-473 | a formatted time ends in ` AM` or ` PM` |
| Analytics.ConfirmedTimes | server-mongodb.js:456-465 | exactly the times of the confirmed bookings |
| Analytics.ComputePeakHours | server-mongodb.js:454-488 | the peaks of the counted confirmed times, for either server |
| Analytics.NoConfirmedBookings | server.js:609-634 | without confirmed bookings the two servers disagree: no data versus the evening default |

## Left out

- HTTP and Express wiring, CORS, JSON bodies and static files. Handlers are methods that return a status code and a result.
- Storage is in memory. The collections are sequences and maps in classes, and one request is handled at a time, so races between a check and an insert are not modelled.
- Multer's disk storage, file names built from `Date.now()` and `Math.random()`, and `fs` calls. A stored file is an element of a set of names, and removing it is a set removal.
- JavaScript `Date` parsing and `toISOString`. A date is an opaque key string, and an unparseable date is a missing one.
- The older server's fallback that stores the raw date string when the date does not parse.
- The older server's random table number is a parameter. Today's date is a parameter.
- Average party size and total bookings in `GET /api/analytics`. These are floating-point values; only the peak hours are modelled.
- E-mail sending with nodemailer and the confirmation template.
- The PDF endpoints of `server.js`. Their storage branch references an undeclared client, and their fallback compares numeric with string ids.
- The settings endpoints of `server.js` (server.js:99-130). They go through `findOneAndUpdate`, which treats `null` fields differently; only the MongoDB server's merge is modelled.
- The time-slot PUT of `server.js` (server.js:170-194). It stores the raw body values and leaves casting to Mongoose. Its GET behaves like the MongoDB server's and is modelled by `GetAvailability`.
- Login with hard-coded credentials, password hashing, the user model and page tracking.
- Authentication beyond the header checks of the admin PDF endpoints.
- The customer, booking-update, booking-delete and admin-clear endpoints, and the maintenance scripts.
- The customer schema is not part of this model. Customers are stored as the handlers give them.
- Errors from casting an invalid object id (a 500) and database failures other than the modelled faults.
- Admission.Reservations.CreateBooking: other failures of `Booking.create` are not modelled. Neither are the booking-lookup errors on a malformed id.
- Mongoose's casting of map values and of JSON types other than the ones the model carries.
- JSON values are booleans, integers, strings, `null` and objects. Floats and arrays are not modelled, and `Number()` of a string is left to the caller, which passes the coerced number.
- JsValues.ParseInt: reads only an optional sign and decimal digits after leading whitespace. Hexadecimal prefixes and precision beyond 2^53 are not modelled.
- MenuListing.KeyOfTitle: `parseInt` of the captured digits is exact here; the precision loss of numbers beyond 2^53 is not modelled.
- JsText.ToLowerAscii: lower-cases ASCII letters only. Strings are sequences of characters, not UTF-16 code units.
- The ordering of integer-like keys in `Object.entries`. A time stored without normalization (for instance by the booking-update endpoints) can be such a key and is then listed first; this only decides which of several equally counted times are shown, and the order among ties is not modelled: the counts keep insertion order.
- RestaurantSettings.SettingsStore.Put: a partial `operatingHours` object replaces the whole sub-document, as `??` does on the object.
- The menu items' seed data with decimal prices. The list constructor takes its initial items.
- Ties in `createdAt`. Records are kept in insertion order, and ids increase.
