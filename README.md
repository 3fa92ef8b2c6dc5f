# Property management client core, modelled in Dafny

This project models the browser side of a small property-management web application. The
application keeps rooms, tenants, a monthly rent ledger, tenants' payment proofs and maintenance
tickets in a hosted Postgres database, and keeps the uploaded proof files in an object-storage
bucket. The model covers six screens:

- **Tenant registry** (`Tenants`). It lists tenants sorted by room, with tenants who have no room
  last. It offers the vacant rooms in an add form, turns the form's text into an insert row, and
  deletes tenants.
- **Rent ledger** (`Payments`). It has a month picker. The month's payments are listed, with
  each tenant's uploaded proof attached by room. "Generate Payments" upserts one pending row of
  10000 per tenant. Each payment's status can be changed.
- **Payment proof form** (`ProofForm`). Picking a name fills in the tenant's room. Submitting
  uploads the file under `<room id>/<month>_<timestamp>.<ext>` and records the proof for the
  month as `YYYY-MM-01`.
- **Maintenance request form** (`RequestForm`). The same name picker as the proof form. It files
  an open ticket with the issue text trimmed.
- **Staff maintenance screen** (`Maintenance`). It lists tickets with a status select on each.
  An inline form files a ticket for a chosen room.
- **Vacant rooms** (`VacantRoomsScreen`). It shows the rooms that no tenant occupies.

Shared modules:

- `Text`: JavaScript's `trim`, `Number(string)`, `split(".").pop()` and `localeCompare` (the
  last as code-point order), and decimal rendering.
- `Months`: the month strings.
- `Vacancy`: the occupied-rooms filter used by two screens.
- `Ledger`: the payments table's upsert on the `(tenant_id, month)` conflict target, and the
  table invariant it keeps (one row per key, and every id below the next id).
- `Store`: the database and the bucket as a class (`Store.Database`). Its tables are sequence
  fields, and every write method takes the outcome the backend reports.

Modelling conventions:

- Each screen is a class whose fields are the component's state variables. Each handler is a
  method that is proved against functions of the old state.
- Backend reads are parameters of type `Response<T>` (`Data(rows)` or `Error`).
- The fire-and-forget refreshes that follow a write (for example `fetchTenants()` after an
  insert) are not inlined. The caller runs the corresponding `Fetch…` method with the new read.
- The clock (`Date.now()`, the current year) and the bucket's public-URL function are
  parameters.

Where the code behaves in a way a reader might not expect, the model follows the code:

- `Number("")` is 0, so the portal's blank "Select your name" option picks a tenant whose id is 0
  if there is one (`Portal.BlankOptionClears`, `Portal.BlankOptionReadsAsZero`).
- The room-number comparator is not transitive when numeric and non-numeric room numbers mix
  (`Tenants.CompareNotTransitive`). The sort is therefore modelled as one specific stable
  insertion sort that takes the comparator as a parameter (`Tenants.SortBy`). Its properties are
  proved for every input list, from two facts about the comparator that never rely on a total
  order (`Tenants.CompareOrdersRooms`).
- A refreshed payments list carries no proof links until the proofs are read again
  (`Payments.PaymentsTable.FetchPayments`).
- Generation overwrites a paid status with pending for existing rows of the month
  (`Payments.GenerateCovers`). Only the "has payments" guard on the button prevents this.
- The staff form stores the issue text untrimmed and accepts a white-space-only issue
  (`Maintenance.SpaceIssueFiled`). The portal form trims the issue and rejects a blank one.
- The proof form resets and reports success whatever the proof insert returns. Only an upload
  error stops it (`ProofForm.PaymentProofForm.HandleSubmit`).

## Model

| member | source | states |
|---|---|---|
| Text.TrimStartSpec | components/tenantPortal/maintenanceRequestForm.tsx:74 | what `trimStart` keeps is a suffix of the input, every dropped character is white space, and it does not start with white space |
| Text.TrimEndSpec | components/tenantPortal/maintenanceRequestForm.tsx:74 | what `trimEnd` keeps is a prefix of the input, every dropped character is white space, and it does not end with white space |
| Text.TrimStart | components/tenantPortal/maintenanceRequestForm.tsx:74 | `trimStart`; its contract is `TrimStartSpec` |
| Text.TrimEnd | components/tenantPortal/maintenanceRequestForm.tsx:74 | `trimEnd`; its contract is `TrimEndSpec` |
| Text.Trim | components/tenantPortal/maintenanceRequestForm.tsx:74 | `trim()`, `trimEnd` after `trimStart`; what it promises is in `TrimHasNoEdgeSpace`, `TrimOfUnpadded`, `TrimIdempotent` and `TrimEmptyIffBlank` |
| Text.WideSpacesTrimmed | components/tenantPortal/maintenanceRequestForm.tsx:74 | the ideographic space, the ogham space mark and the em space are white space to `trim`: "\u3000" trims to empty and "a\u3000" to "a" |
| Text.TrimHasNoEdgeSpace | components/tenantPortal/maintenanceRequestForm.tsx:82 | a trimmed string has no white space at either end |
| Text.TrimOfUnpadded | components/tenantPortal/maintenanceRequestForm.tsx:82 | trimming a string with no white space at its ends returns it unchanged |
| Text.TrimIdempotent | components/tenantPortal/maintenanceRequestForm.tsx:82 | trimming twice equals trimming once |
| Text.TrimEmptyIffBlank | components/tenantPortal/maintenanceRequestForm.tsx:74 | `trim()` is empty exactly when the string is empty or white space only |
| Text.DigitChar | components/tenantPortal/paymentProofForm.tsx:92 | the rendered digit is a digit character with the given value |
| Text.LeadingZero | components/payments/paymentsTable.tsx:36 | a leading zero does not change a numeral's value |
| Text.ToNumber | components/tenants/tenantsTable.tsx:155-158 | `Number(s)` is never negative on this domain, and a blank string reads as 0 |
| Text.NumberOfNumeral | components/tenants/tenantsTable.tsx:155-158 | a run of digits reads as its value |
| Text.NotANumber | components/tenants/tenantsTable.tsx:158 | a string with no white space at its ends that is not all digits reads as NaN |
| Text.TrimStartOfPadded | components/tenants/tenantsTable.tsx:155-158 | `trimStart` drops a white-space prefix entirely: it gives the same result with or without it |
| Text.TrimEndOfPadded | components/tenants/tenantsTable.tsx:155-158 | `trimEnd` drops a white-space suffix entirely: it gives the same result with or without it |
| Text.NumberOfPaddedNumeral | components/tenants/tenantsTable.tsx:155-158 | a run of digits with white space on either side reads as the run's value, as `Number(" 12 ")` is 12 |
| Text.NatToDecimal | components/tenantPortal/paymentProofForm.tsx:92 | the rendering is a numeral whose value is the number; it has one digit iff the number is below 10, and at most two below 100 |
| Text.NumberOfDecimal | components/tenantPortal/paymentProofForm.tsx:143 | `Number(String(n))` gives back every natural number |
| Text.TwoDigits | components/payments/paymentsTable.tsx:36 | `padStart(2, "0")` of a month gives exactly two digits with that value |
| Text.Split | components/tenantPortal/paymentProofForm.tsx:91 | `split` gives at least one piece, and no piece contains the separator |
| Text.JoinSplit | components/tenantPortal/paymentProofForm.tsx:91 | joining the pieces with the separator gives back the string |
| Text.JoinLast | components/tenantPortal/paymentProofForm.tsx:91 | a join is the join of all pieces but the last, then the separator, then the last piece |
| Text.SeparatorSplits | components/tenantPortal/paymentProofForm.tsx:91 | a string that contains the separator splits into at least two pieces |
| Text.SplitWithoutSeparator | components/tenantPortal/paymentProofForm.tsx:91 | a string without the separator is its own single piece |
| Text.SplitAfterPiece | components/tenantPortal/paymentProofForm.tsx:92 | splitting `a + sep + b`, where `a` has no separator, gives `a` followed by the pieces of `b` |
| Text.SplitLastPiece | components/tenantPortal/paymentProofForm.tsx:91 | the last piece of `a + sep + b`, where `b` has no separator, is `b` |
| Text.Extension | components/tenantPortal/paymentProofForm.tsx:91 | `split(".").pop()` contains no dot; it is the whole name when the name has no dot, and otherwise the text after the name's last dot |
| Text.ExtensionOfSuffix | components/tenantPortal/paymentProofForm.tsx:91-92 | the extension of `stem + "." + ext` is `ext` when `ext` has no dot |
| Text.CompareStrings | components/tenants/tenantsTable.tsx:159 | the string comparison returns -1, 0 or 1, and returns 0 exactly for equal strings |
| Text.CompareStringsAntisymmetric | components/tenants/tenantsTable.tsx:159 | swapping the operands negates the string comparison |
| Text.CompareStringsTransitive | components/tenants/tenantsTable.tsx:159 | the string comparison is transitive, so it orders strings totally |
| Months.LedgerMonths | components/payments/paymentsTable.tsx:33-41 | the ledger offers twelve month values |
| Months.PortalMonths | components/tenantPortal/paymentProofForm.tsx:172-179 | the proof form offers twelve month values |
| Months.LedgerMonthRoundTrip | components/payments/paymentsTable.tsx:36 | every ledger month value has the form `Y-MM-01` and reads back as its year and month |
| Months.LedgerMonthsDistinct | components/payments/paymentsTable.tsx:33-41 | the twelve values read back in order as months 1 to 12, and are pairwise distinct |
| Months.StoredMonthIsLedgerMonth | components/tenantPortal/paymentProofForm.tsx:109 | for every month the proof form offers, the `-01` value it stores equals the ledger's value for that month |
| Vacancy.OccupiedIds | components/rooms/vacantRooms.tsx:22-29 | an id is occupied iff some tenant's `room_id` equals it; the list is empty iff every `room_id` is null |
| Vacancy.ExcludeRooms | components/rooms/vacantRooms.tsx:38-40 | a room is kept iff it was read and its id is not in the list |
| Vacancy.ExcludeNothing | components/rooms/vacantRooms.tsx:38-40 | sending the query without a filter when nothing is occupied returns the same rooms the filter would |
| Vacancy.ExcludeKeepsOrder | components/rooms/vacantRooms.tsx:32-36 | filtering keeps whatever order the rooms query returned |
| Vacancy.VacantIff | components/rooms/vacantRooms.tsx:22-42 | a room is listed iff it exists and no tenant's `room_id` equals its id |
| Vacancy.NoTenantsAllVacant | components/rooms/vacantRooms.tsx:38-42 | when no tenant holds a room, every room is listed, in the query's order |
| Ledger.FindKey | components/payments/paymentsTable.tsx:119-121 | the conflict lookup finds a row with the key, or reports that no row has it |
| Ledger.UpsertOne | components/payments/paymentsTable.tsx:119-121 | one row of `ON CONFLICT DO UPDATE`: a row with the key takes the new amount and status in place, otherwise the row is appended under the next id; see `UpsertOneResult` and `UpsertOneValid` |
| Ledger.Upsert | components/payments/paymentsTable.tsx:119-121 | the batch applied in order; see `UpsertSpec`, `UpsertValid` and `UpsertIdempotent` |
| Ledger.UpsertOneValid | components/payments/paymentsTable.tsx:119-121 | one upserted row keeps the table invariant and the keys and ids of the existing rows |
| Ledger.UpsertValid | components/payments/paymentsTable.tsx:119-121 | an upsert keeps one row per `(tenant_id, month)` and every id below the next id; the counter advances by the number of appended rows; existing rows keep their key and id |
| Ledger.UpsertOneResult | components/payments/paymentsTable.tsx:119-121 | one uniform row updates the matching row in place or appends a new row with its key |
| Ledger.ComposeResults | components/payments/paymentsTable.tsx:119-121 | the described effects of upserting a first row and then the rest compose into the effect of the whole batch |
| Ledger.UpsertSpec | components/payments/paymentsTable.tsx:119-121 | a uniform batch updates in place the amount and status of rows whose key it carries, leaves other rows untouched, appends only keys the table lacked, and leaves every batch key present |
| Ledger.UpsertInPlace | components/payments/paymentsTable.tsx:119-121 | when every key of the batch is already in the table, the upsert appends nothing and uses no id |
| Ledger.UpsertIdempotent | components/payments/paymentsTable.tsx:119-121 | repeating an upsert of a uniform batch changes neither the table nor the id counter |
| Ledger.SetStatus | components/payments/paymentsTable.tsx:126-127 | the status update changes only the status, and only of rows with that id |
| Ledger.SetStatusValid | components/payments/paymentsTable.tsx:126-127 | a status update keeps the table invariant |
| Store.RemoveTenant | components/tenants/tenantsTable.tsx:105-106 | after the delete, a row remains iff it was there and has a different id |
| Store.RemoveTenantKeepsOrder | components/tenants/tenantsTable.tsx:105-106 | the rows that stay after a delete keep their relative order: deleting from a concatenation deletes from each part |
| Store.SetRequestStatus | components/maintenance/maintenanceTable.tsx:73-77 | the ticket status update changes only the status, and only of tickets with that id |
| Store.RequestStatusReachable | components/maintenance/maintenanceTable.tsx:158-166 | every status can be set on every ticket, whatever its current status, and the issue is kept |
| Store.Database.InsertTenant | components/tenants/tenantsTable.tsx:115-125 | a successful insert appends the row under the next id; a failed one changes nothing; the ledger invariant is kept |
| Store.Database.DeleteTenant | components/tenants/tenantsTable.tsx:106 | a successful delete removes exactly the rows with that id |
| Store.Database.UpsertPayments | components/payments/paymentsTable.tsx:119-121 | the payments table and the counter become the upsert's result, or stay unchanged when it fails; the invariant is kept |
| Store.Database.UpdatePaymentStatus | components/payments/paymentsTable.tsx:127 | the payments table becomes the status update's result, or stays unchanged when it fails; the invariant is kept |
| Store.Database.Upload | components/tenantPortal/paymentProofForm.tsx:94-96 | a successful upload stores the file at the path |
| Store.Database.InsertProof | components/tenantPortal/paymentProofForm.tsx:106-111 | a successful insert appends the proof row |
| Store.Database.InsertRequest | components/tenantPortal/maintenanceRequestForm.tsx:79-84 | a successful insert appends the ticket under the next id, stamped with the time, and advances the counter; a failed one changes nothing; the ledger invariant is kept |
| Store.Database.UpdateRequestStatus | components/maintenance/maintenanceTable.tsx:74-77 | the tickets become the status update's result, or stay unchanged when it fails |
| Tenants.CompareAntisymmetric | components/tenants/tenantsTable.tsx:150-160 | swapping two tenants flips the sign of the comparator, and keeps a tie a tie |
| Tenants.CompareRoomNumbers | components/tenants/tenantsTable.tsx:155-159 | two room numbers by value when both read as numbers, else by string order; its behaviour is stated by `CompareTwoBeforeTen`, `CompareTenBeforeOneA`, `CompareOneABeforeTwo` and `CompareOrdersRooms` |
| Tenants.Compare | components/tenants/tenantsTable.tsx:150-160 | the `sortedTenants` comparator; `CompareAntisymmetric`, `CompareNotTransitive` and `CompareOrdersRooms` state what it does |
| Tenants.CompareTwoBeforeTen | components/tenants/tenantsTable.tsx:158 | room "2" sorts before room "10", since both are numbers |
| Tenants.CompareTenBeforeOneA | components/tenants/tenantsTable.tsx:159 | room "10" sorts before room "1a", by string order |
| Tenants.CompareOneABeforeTwo | components/tenants/tenantsTable.tsx:159 | room "1a" sorts before room "2", by string order |
| Tenants.CompareNotTransitive | components/tenants/tenantsTable.tsx:150-160 | tenants in rooms "2", "10" and "1a" form a cycle under the comparator, so it is no total order |
| Tenants.Insert | components/tenants/tenantsTable.tsx:150 | under any comparator, one insertion step adds exactly the one tenant: the length grows by one and the multiset gains that tenant |
| Tenants.SortBy | components/tenants/tenantsTable.tsx:150 | `[...tenants].sort(cmp)`; `SortPermutation`, `SortVacantLast` and `SortNumericAscending` state what it returns |
| Tenants.Sort | components/tenants/tenantsTable.tsx:150-160 | the sort under the screen's comparator; `TenantsTable.SortedTenants` states what it returns |
| Tenants.SortPermutation | components/tenants/tenantsTable.tsx:150 | under any comparator, the sorted copy is a permutation of the tenants |
| Tenants.InsertVacantLast | components/tenants/tenantsTable.tsx:151-153 | under a comparator that puts vacant tenants last, inserting into a list with vacant tenants last keeps them last |
| Tenants.SortVacantLast | components/tenants/tenantsTable.tsx:151-153 | under a comparator that puts vacant tenants last, no tenant without a room comes before a tenant with one in the sorted list |
| Tenants.AscendingCons | components/tenants/tenantsTable.tsx:155-158 | putting a tenant whose room number is at most every later one in front keeps the list ascending |
| Tenants.CompareOrdersRooms | components/tenants/tenantsTable.tsx:150-160 | the screen's comparator never puts a tenant without a room before one with a room, and compares two numeric room numbers by their difference |
| Tenants.HeadBound | components/tenants/tenantsTable.tsx:155-158 | a tenant that sorts before the head of an ordered list has a room number no larger than any in the list |
| Tenants.InsertAscending | components/tenants/tenantsTable.tsx:155-158 | inserting a numeric tenant into an ascending list keeps it ascending |
| Tenants.InsertAscendingAfterHead | components/tenants/tenantsTable.tsx:155-158 | the same, when the tenant goes after the head |
| Tenants.AfterHeadBound | components/tenants/tenantsTable.tsx:155-158 | when a tenant goes after the head of an ascending list, the head's room number is at most every room number in the rest of the list after the insertion |
| Tenants.SortNumericAscending | components/tenants/tenantsTable.tsx:150-160 | under a comparator with both properties of `CompareOrdersRooms`, when every room number is numeric the sorted list is in ascending numeric order of room number |
| Tenants.CompareFallsBackToText | components/tenants/tenantsTable.tsx:155-159 | when either of two room numbers does not read as a number, the screen's comparator compares them as strings |
| Tenants.TextAscendingCons | components/tenants/tenantsTable.tsx:159 | putting a tenant whose room number is, as text, at most every later one in front keeps the list in ascending text order |
| Tenants.TextHeadBound | components/tenants/tenantsTable.tsx:159 | a non-numeric tenant that sorts before the head of a list in text order has a room number no larger, as text, than any in the list |
| Tenants.InsertTextAscending | components/tenants/tenantsTable.tsx:159 | inserting into a list in ascending text order, when no room number involved is numeric, keeps it in that order |
| Tenants.InsertTextAscendingAfterHead | components/tenants/tenantsTable.tsx:159 | the same, when the tenant goes after the head |
| Tenants.TextAfterHeadBound | components/tenants/tenantsTable.tsx:159 | when a non-numeric tenant goes after the head of a list in text order, the head's room number is, as text, at most every room number in the rest of the list after the insertion |
| Tenants.SortTextAscending | components/tenants/tenantsTable.tsx:150-160 | under a comparator that puts vacant tenants last and falls back to the string comparison, when no room number is numeric the sorted list is in ascending text order of room number |
| Tenants.InsertRow | components/tenants/tenantsTable.tsx:115-125 | empty phone, email and address become null, and others are kept as typed; room is null iff none is picked or the pick reads as NaN, else its number; deposit is 0 iff it reads as NaN or 0, else its number |
| Tenants.InsertRowOfFormFor | components/tenants/tenantsTable.tsx:115-125 | every row with non-empty text fields, a non-negative deposit and a non-negative room id is what the form produces from that row's own text |
| Tenants.DeleteFreesRoom | components/tenants/tenantsTable.tsx:105-109 | after a delete, a room is offered again iff no remaining tenant references it |
| Tenants.TenantsTable.constructor | components/tenants/tenantsTable.tsx:30-43 | the screen starts loading with no tenants, no rooms, the form closed and blank |
| Tenants.TenantsTable.SortedTenants | components/tenants/tenantsTable.tsx:150-160 | the list shown is a permutation of the tenants with vacant tenants last, in ascending numeric order when every room number is numeric, and in ascending text order when none is |
| Tenants.TenantsTable.FetchTenants | components/tenants/tenantsTable.tsx:52-79 | a successful read replaces the list, a failed one keeps it; loading ends |
| Tenants.TenantsTable.FetchAvailableRooms | components/tenants/tenantsTable.tsx:83-101 | the offered rooms become the vacant rooms of the read (no ids are occupied when that read fails), or stay when the rooms read fails |
| Tenants.TenantsTable.OpenForm | components/tenants/tenantsTable.tsx:224 | the form opens |
| Tenants.TenantsTable.CancelForm | components/tenants/tenantsTable.tsx:316 | the form closes and keeps its contents |
| Tenants.TenantsTable.EditForm | components/tenants/tenantsTable.tsx:240-302 | the inputs change every field except the address, which has no input |
| Tenants.TenantsTable.AddTenant | components/tenants/tenantsTable.tsx:111-142 | with no name nothing changes; otherwise the normalised row is inserted under the next id, the counter advancing only on success, and only a successful insert blanks and closes the form |
| Tenants.TenantsTable.DeleteTenant | components/tenants/tenantsTable.tsx:105-109 | the tenant's rows go when the delete succeeds |
| Tenants.TenantsTable.ShowsEmptyNotice | components/tenants/tenantsTable.tsx:144-215 | "No tenants found" shows exactly when loading is over and the sorted list renders no row |
| Payments.FindProof | components/payments/paymentsTable.tsx:92 | finds the first proof for the payment's room, or reports that there is none |
| Payments.Merge | components/payments/paymentsTable.tsx:91-98 | every payment row is kept; a payment gets the link of the first proof for its room, and none iff no proof is for its room |
| Payments.MergeIdempotent | components/payments/paymentsTable.tsx:88-101 | attaching the same proofs twice equals attaching them once |
| Payments.FindProofByRoom | components/payments/paymentsTable.tsx:92 | the proof found depends only on the tenant's room |
| Payments.GenerationBatch | components/payments/paymentsTable.tsx:112-117 | every row of the batch is pending at the fixed amount, and its conflict keys are exactly the tenant ids paired with the month |
| Payments.GenerateFresh | components/payments/paymentsTable.tsx:103-124 | generating a month no listed tenant has a row for appends exactly one pending row of 10000 per tenant, in order, under consecutive fresh ids, and leaves every existing row |
| Payments.GenerateCovers | components/payments/paymentsTable.tsx:103-124 | for any table, generation leaves every tenant with a row for the month; those tenants' existing rows for the month are reset to 10000 and pending; other rows are untouched; appended rows are pending rows of 10000 for those tenants; the invariant holds |
| Payments.GenerateTwice | components/payments/paymentsTable.tsx:103-124 | generating the same month twice leaves the table and the counter as the first generation did |
| Payments.PaymentsTable.constructor | components/payments/paymentsTable.tsx:21-30 | no month picked, no payments and no proofs, and "has payments" is false |
| Payments.PaymentsTable.MonthOptions | components/payments/paymentsTable.tsx:33-41 | twelve options, the i-th reading back as month i+1 of the current year |
| Payments.PaymentsTable.SelectMonth | components/payments/paymentsTable.tsx:51-59 | picking the blank option empties the list and clears "has payments"; picking a month leaves the list to the reads; the invariant `hasPayments` iff the list is non-empty holds |
| Payments.PaymentsTable.FetchPayments | components/payments/paymentsTable.tsx:61-86 | a successful read replaces the list with no proof attached, a failed read empties it; "has payments" follows the list |
| Payments.PaymentsTable.FetchProofs | components/payments/paymentsTable.tsx:88-101 | the proofs become the read's rows (none on failure); unless the list or the proofs are empty, the list becomes the merge |
| Payments.PaymentsTable.GeneratePayments | components/payments/paymentsTable.tsx:103-124 | nothing happens without a month, with payments listed, or when the tenant ids cannot be read; otherwise the upsert of the batch is applied, keeping the invariant |
| Payments.PaymentsTable.UpdateStatus | components/payments/paymentsTable.tsx:126-129 | the payment's status is set when the update succeeds; the invariant is kept |
| Payments.PaymentsTable.CanGenerate | components/payments/paymentsTable.tsx:104-155 | "Generate Payments" is enabled and acts exactly when a month is picked and no payment is listed; `GeneratePayments` states what follows |
| Payments.PaymentsTable.ShowsEmptyNotice | components/payments/paymentsTable.tsx:209-214 | "No payments for selected month" shows when a month is picked and no payment is listed |
| Portal.FindTenant | components/tenantPortal/paymentProofForm.tsx:70 | finds the first tenant whose id equals `Number(value)`, or reports that none does |
| Portal.AutoFill | components/tenantPortal/paymentProofForm.tsx:66-81 | for the first tenant whose id equals `Number(value)`, the fields become that tenant's name, room id and room number when it has a room and are cleared when it has none; with no matching tenant they are cleared |
| Portal.PickingOptionFillsTenant | components/tenantPortal/paymentProofForm.tsx:142-146 | picking a tenant's option fills in that tenant's name, room id and room number when the tenant has a room |
| Portal.PickingRoomlessTenantClears | components/tenantPortal/paymentProofForm.tsx:72-80 | picking a tenant without a room clears the fields |
| Portal.BlankOptionClears | components/tenantPortal/paymentProofForm.tsx:141 | the blank option clears the fields when no tenant has id 0 |
| Portal.BlankOptionReadsAsZero | components/tenantPortal/paymentProofForm.tsx:70 | the blank option picks the first tenant with id 0 when there is one |
| ProofForm.StoragePathKeepsExtension | components/tenantPortal/paymentProofForm.tsx:91-92 | the stored object keeps the uploaded file's extension |
| ProofForm.StoragePathInRoomFolder | components/tenantPortal/paymentProofForm.tsx:92 | the stored object lies in the folder named after the room id |
| ProofForm.StoragePath | components/tenantPortal/paymentProofForm.tsx:91-92 | the path `<room id>/<month>_<now>.<ext>`; `StoragePathKeepsExtension` and `StoragePathInRoomFolder` state what it promises |
| ProofForm.PaymentProofForm.constructor | components/tenantPortal/paymentProofForm.tsx:29-40 | the form starts empty: no tenants, no pick, cleared fields, no month, no file, not submitting, no success notice |
| ProofForm.PaymentProofForm.MonthOptions | components/tenantPortal/paymentProofForm.tsx:172-179 | twelve options, each storing as the ledger's value for the same month |
| ProofForm.PaymentProofForm.FetchTenants | components/tenantPortal/paymentProofForm.tsx:48-62 | a successful read replaces the tenant list |
| ProofForm.PaymentProofForm.HandleTenantChange | components/tenantPortal/paymentProofForm.tsx:66-81 | the pick is kept, the success notice is cleared, and the fields are filled in from the picked tenant |
| ProofForm.PaymentProofForm.SelectMonth | components/tenantPortal/paymentProofForm.tsx:168 | the month becomes the pick |
| ProofForm.PaymentProofForm.ChooseFile | components/tenantPortal/paymentProofForm.tsx:192 | the file becomes the chosen one, or none |
| ProofForm.PaymentProofForm.CanSubmit | components/tenantPortal/paymentProofForm.tsx:85 | the submit guard: a file, a non-zero room id, a month and a tenant name; `HandleSubmit` states what happens on each side of it |
| ProofForm.PaymentProofForm.HandleSubmit | components/tenantPortal/paymentProofForm.tsx:83-126 | without a file, a non-zero room id, a month and a name nothing happens; otherwise the file goes to the path; a failed upload stops there and keeps the form; after an upload the proof row is recorded (when the insert succeeds) with the month as `YYYY-MM-01` and the path's public URL, and the form resets and reports success; once past the guard, submitting ends whatever happens |
| RequestForm.FiledTicket | components/tenantPortal/maintenanceRequestForm.tsx:74-84 | every filed ticket is open, carries the tenant's name and room, and has a non-empty issue that is already trimmed |
| RequestForm.TicketFor | components/tenantPortal/maintenanceRequestForm.tsx:79-84 | the inserted row: the tenant's name and room, the trimmed issue, status open; `FiledTicket` states its properties |
| RequestForm.MaintenanceRequestForm.constructor | components/tenantPortal/maintenanceRequestForm.tsx:20-29 | the form starts empty: no tenants, no pick, cleared fields, no issue, not submitting, no success notice |
| RequestForm.MaintenanceRequestForm.FetchTenants | components/tenantPortal/maintenanceRequestForm.tsx:37-51 | a successful read replaces the tenant list |
| RequestForm.MaintenanceRequestForm.HandleTenantChange | components/tenantPortal/maintenanceRequestForm.tsx:55-70 | the pick is kept, the success notice is cleared, and the fields are filled in from the picked tenant |
| RequestForm.MaintenanceRequestForm.EditIssue | components/tenantPortal/maintenanceRequestForm.tsx:142 | the issue becomes the typed text |
| RequestForm.MaintenanceRequestForm.CanSubmit | components/tenantPortal/maintenanceRequestForm.tsx:74 | the submit guard: a tenant name, a non-zero room id and an issue that is not blank after `trim`; `HandleSubmit` states what happens on each side of it |
| RequestForm.MaintenanceRequestForm.HandleSubmit | components/tenantPortal/maintenanceRequestForm.tsx:72-98 | without a name, a non-zero room id and a non-blank issue nothing happens; otherwise the ticket is inserted under the next id (when that succeeds, the counter advancing by one) and the form resets, reports success and ends submitting; the ledger invariant is kept |
| Maintenance.PickedRoomRecorded | components/maintenance/maintenanceTable.tsx:57-65 | picking a room option files the ticket for that room with the issue exactly as typed; the guard then asks only for a non-empty issue |
| Maintenance.SpaceIssueFiled | components/maintenance/maintenanceTable.tsx:57-65 | a single-space issue passes the guard and is stored as typed, though it trims to empty |
| Maintenance.CanAdd | components/maintenance/maintenanceTable.tsx:57 | the guard that turns away an empty issue or an empty room pick; `PickedRoomRecorded` and `SpaceIssueFiled` state when it lets a ticket through |
| Maintenance.StaffTicket | components/maintenance/maintenanceTable.tsx:59-65 | the inserted row: the issue as typed, `Number(roomId)`, status open, no tenant name; `PickedRoomRecorded` states what is filed |
| Maintenance.MaintenanceTable.constructor | components/maintenance/maintenanceTable.tsx:16-20 | no tickets, no rooms, the form closed, no issue and no room picked |
| Maintenance.MaintenanceTable.FetchRequests | components/maintenance/maintenanceTable.tsx:27-43 | a successful read replaces the ticket list |
| Maintenance.MaintenanceTable.FetchRooms | components/maintenance/maintenanceTable.tsx:45-52 | a successful read replaces the room options |
| Maintenance.MaintenanceTable.OpenForm | components/maintenance/maintenanceTable.tsx:87 | the form opens |
| Maintenance.MaintenanceTable.CancelForm | components/maintenance/maintenanceTable.tsx:134 | the form closes and keeps its contents |
| Maintenance.MaintenanceTable.EditIssue | components/maintenance/maintenanceTable.tsx:120 | the issue becomes the typed text |
| Maintenance.MaintenanceTable.SelectRoom | components/maintenance/maintenanceTable.tsx:104 | the room becomes the picked value |
| Maintenance.MaintenanceTable.AddRequest | components/maintenance/maintenanceTable.tsx:54-71 | with an empty issue or room nothing happens; otherwise the ticket is inserted under the next id (when that succeeds, the counter advancing by one) and the form clears and closes; the ledger invariant is kept |
| Maintenance.MaintenanceTable.UpdateStatus | components/maintenance/maintenanceTable.tsx:73-80 | the ticket's status is set when the update succeeds |
| Maintenance.MaintenanceTable.ShowsEmptyNotice | components/maintenance/maintenanceTable.tsx:171-176 | "No maintenance requests" shows exactly when no ticket is listed |
| VacantRoomsScreen.VacantRoomsView.constructor | components/rooms/vacantRooms.tsx:14 | the list starts empty |
| VacantRoomsScreen.VacantRoomsView.FetchVacantRooms | components/rooms/vacantRooms.tsx:20-47 | a failed occupancy read or rooms read keeps the list; otherwise the list becomes the vacant rooms of the read |
| VacantRoomsScreen.VacantRoomsView.ShowsEmptyNotice | components/rooms/vacantRooms.tsx:51-52 | "No vacant rooms available." shows exactly when no room is listed |
| VacantRoomsScreen.ListedExactlyTheVacantRooms | components/rooms/vacantRooms.tsx:20-47 | a room is listed iff it exists and no tenant occupies it, and the list keeps the floor-then-room-number order |

## Left out

- Rendering (JSX, CSS, labels, `toLocaleString` of amounts and month names) is not modelled. The four empty-list notices ("No tenants found", "No payments for selected month", "No maintenance requests", "No vacant rooms available.") are modelled as `ShowsEmptyNotice` functions.
- Concurrency: reads and writes are awaited promises whose results can arrive in any order. The model runs handlers one at a time. A caller can put `FetchPayments` and `FetchProofs` in either order, which covers the race between the two month reads.
- The backend itself: joins, `order(...)` clauses and the `is null` filter run in the database. Reads arrive as parameters that already reflect them. The exception is the occupancy filter and its room filter, which are modelled in `Vacancy`.
- Ids: one counter serves every table, where Postgres keeps a sequence per table. Only the freshness of ids matters to the model. Postgres also draws a sequence value for every upserted row, even one that hits the conflict and updates in place; the model draws an id only for rows it appends. So the "uses no id" and "unchanged counter" parts of `Ledger.UpsertInPlace`, `Ledger.UpsertIdempotent` and `Payments.GenerateTwice` hold of the model's counter, not of the database sequence.
- `Text.ToNumber`: models `Number(string)` only for blank strings and runs of decimal digits. Signs, decimals, exponents, hexadecimal literals and `Infinity` read as NaN here, though JavaScript parses them. The select options hold integer ids, so they stay in the modelled domain. Two inputs leave it. A deposit typed as "2500.5" or "-500" in the number input is stored by JavaScript as 2500.5 or -500, but by the model as 0 (`Number(x) || 0`, components/tenants/tenantsTable.tsx:122). A free-text room number such as "-1" or "1e2" is compared by the sort as a number in JavaScript, but as text in the model (components/tenants/tenantsTable.tsx:155-158). White space around a number, and a blank string, are read as JavaScript reads them.
- `Text.NotANumber`: inherits the domain of `Text.ToNumber`. Strings such as "-1", "1.5" or "1e2" are claimed to read as NaN, though JavaScript reads them as numbers.
- `Tenants.InsertRow`: inherits the domain of `Text.ToNumber`. A deposit of "2500.5" or "-500" gives 0 in the model, where JavaScript stores 2500.5 or -500.
- `Tenants.CompareRoomNumbers`: inherits the domain of `Text.ToNumber`. Room numbers such as "-1" or "1e2" are compared as text in the model, where JavaScript compares them as numbers. `CompareOrdersRooms`, `CompareFallsBackToText`, `SortNumericAscending` and `SortTextAscending` divide room numbers the same way.
- `Tenants.SortBy`: the browser's sort algorithm is modelled as a stable insertion sort. Any stable sort gives the same order when the comparator is consistent, for example when every room number is numeric. When numeric and non-numeric room numbers mix, the browser's order can differ from the model's.
- `Text.CompareStrings`: `localeCompare` is modelled as code-point order. Locale collation is not modelled.
- `Ledger.Upsert`: a batch that repeats a key makes Postgres raise an error. The model applies such rows in order instead. Generation sends each tenant id once, since ids are primary keys.
- The payment's joined tenant is taken to be present. A payment whose tenant was deleted would make the component fail on `p.tenant.room_id`.
- Thrown exceptions other than the upload error are not modelled. The client library reports errors in its result and does not throw them.
- The bucket's public URL is the parameter `urlOf`. The clock (`Date.now()`, the current year) is a parameter too.
- `Store.Database`: models the rows' database-side defaults only where the code depends on them (`created_at` as a parameter). The staff form's missing `tenant_name` is modelled as null.
- The maintenance list's newest-first order is a backend ordering. Its rows carry no `created_at`, so it is not modelled.
