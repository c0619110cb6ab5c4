# Fee tracker model

A Dafny model of a single-page fee-collection tracker for a coaching
centre. An admin and a staff member log in with a shared password per
role. The admin adds, deletes and imports (CSV) student records, sets the
fee per category and one deadline, and sees per-category figures. The
staff member sees the pending counts and the days left, and marks records
as paid with a date and a remark.

The whole application state is one `GlobalState` snapshot: the students
in insertion order, the fee table, the due date and the active category.
The model has five layers:

- `types.dfy` (module `Types`): the records of `types.ts`, plus the record
  invariant "Unpaid carries no date or remark, Paid carries a date".
- `seqs.dfy` and `text.dfy` (modules `Seqs`, `Text`): the JavaScript
  library behaviour the source leans on. `Array.prototype.filter` is
  `Filter` and `Array.prototype.map` is `Map`. `String.prototype.split`
  with a one-character separator is `Split`, checked against `Join`. `trim` uses the ECMAScript whitespace
  set. `${n}` for whole numbers is `NatToString`, checked against
  `ParseNat`.
- `dashboard.dfy` (module `Dashboard`): the figures of
  `components/Dashboard.tsx`. These are the counts, the half-up
  percentage, the fee lookup, the three amounts and the deadline
  countdown.
- `store.dfy` (module `Store`): every state update of `App.tsx` as a pure
  snapshot-to-snapshot function. These are add, delete, pay, CSV import
  and the three setters. The module also holds the staff views and a
  replay of any sequence of updates (`Run`), with the invariants it keeps.
- `app.dfy` (module `Session`): the page itself as a class `App`. It holds
  the login cells (`role`, `password`, `error`, `isLoggedIn`), the state
  and the form inputs. Each method's postcondition is the matching
  `Store` function applied to the old state, and it states that the
  other fields do not change.

Fresh ids (`crypto.randomUUID`) come in as parameters: `id` for one record,
`newId(k)` for the k-th imported row. The clock comes in as the millisecond
difference between the due date and now. Today's date for a payment is a
parameter `today`. The two role passwords and the default fee table live in
a constants module that is not part of this model. They are given to
`App`'s constructor.

Two places where the model is exact and the source uses floating point:
the paid percentage is the exact half-up rounding of 100·paid/total, and
fees are whole numbers.

## Model

| member | source | states |
|---|---|---|
| Types.StatusIsPaidOrUnpaid | types.ts:2 | A fee status is exactly one of Paid and Unpaid. |
| Types.CategoryIsOneOfThree | types.ts:3 | A category is one of Registration, Admission and Monthly, and the category list names each of them once. |
| Seqs.Filter | App.tsx:52 | The result is never longer than the input, and every element it keeps comes from the input and satisfies the predicate. |
| Seqs.FilterKeepsSatisfying | App.tsx:52 | Every element that satisfies the predicate is kept. |
| Seqs.FilterDropsNothing | components/Dashboard.tsx:16 | The filter keeps the whole list exactly when every element satisfies the predicate. |
| Text.Split | App.tsx:71 | Splitting always gives at least one piece, and no piece contains the separator. |
| Text.JoinSplit | App.tsx:71 | Joining the pieces of a split with the separator gives back the original text. |
| Text.SplitJoin | App.tsx:73 | Splitting a join of separator-free pieces gives back those pieces. |
| Text.Trim | App.tsx:72 | A trimmed text starts and ends with non-whitespace, and it is empty exactly when the text is all whitespace. |
| Text.TrimRemovesOnlyWhitespace | App.tsx:72 | The trimmed text is a stretch of the original with only whitespace before and after it. |
| Text.TrimIdempotent | App.tsx:73 | Trimming twice is the same as trimming once. |
| Text.NatToString | App.tsx:42 | A rendered number is a non-empty string of digits with no leading zero. |
| Text.ParseNatToString | App.tsx:42 | Reading back a rendered number gives the number. |
| Text.NatToStringInjective | App.tsx:42 | Different numbers render as different strings. |
| Dashboard.CategoryStudents | components/Dashboard.tsx:16 | Every record of the view is in the category and comes from the list, and every record of the category is in the view. |
| Dashboard.Total | components/Dashboard.tsx:16-18 | The total of a category never exceeds the list length, and equals it exactly when every record is in the category. |
| Dashboard.PaidCount | components/Dashboard.tsx:19 | The paid count of a category never exceeds its total. |
| Dashboard.UnpaidCount | components/Dashboard.tsx:20 | `total - paidCount` is the number of Unpaid records in the category, so paid and unpaid add up to the total and neither is negative. |
| Dashboard.PaidPercentage | components/Dashboard.tsx:21 | Gives 0 for an empty category, otherwise the whole number nearest to 100·paid/total with halves rounded up. It lies in [0, 100], it is 0 with nothing paid and it is 100 with everything paid. |
| Dashboard.CategoryPercentage | components/Dashboard.tsx:21 | The shown percentage of a category lies in [0, 100], and it is 0 for an empty category. |
| Dashboard.PercentageExtremes | components/Dashboard.tsx:21 | A non-empty category with every record Paid shows 100, and one with no record Paid shows 0. |
| Dashboard.FeeAmount | components/Dashboard.tsx:40-44 | The fee is the table's registration, admission or monthly amount, matching the category; the lookup is defined for all three. |
| Dashboard.Collected | components/Dashboard.tsx:46 | The collected amount plus the remaining amount is the expected amount. With a non-negative fee it lies between 0 and the expected amount. |
| Dashboard.Remaining | components/Dashboard.tsx:47 | With a non-negative fee the remaining amount lies between 0 and the expected amount. |
| Dashboard.Expected | components/Dashboard.tsx:48 | The expected amount is 0 for an empty category, and never negative with a non-negative fee. |
| Dashboard.AmountsAddUp | components/Dashboard.tsx:46-48 | The collected and remaining amounts add up to the expected amount. With a non-negative fee, each lies between 0 and the expected amount. |
| Dashboard.OtherCategoriesIgnored | components/Dashboard.tsx:16 | Inserting records of other categories anywhere changes none of this category's counts, percentage or amounts. |
| Dashboard.CountsAround | components/Dashboard.tsx:16-19 | One record adds 1 to its own category's total, and 1 to the paid count when Paid; it adds nothing to other categories. |
| Dashboard.CeilDays | components/Dashboard.tsx:35 | The day count is the least whole number of days d with diff ≤ d days. |
| Dashboard.CalculateDaysLeft | components/Dashboard.tsx:30-37 | "Not set" exactly for an empty due date. "Overdue" exactly when the deadline passed a whole day ago or more. Otherwise the ceiling day count, which is 0 exactly for a deadline up to one day past. |
| Dashboard.CountdownLabel | components/Dashboard.tsx:31-36 | The card reads "Not set" exactly when no due date is set, "Overdue" exactly when overdue, and ends in " days left" exactly in the remaining case. |
| Dashboard.CountdownLabelInjective | components/Dashboard.tsx:31-36 | No two different countdowns read the same on the card. |
| Dashboard.CountdownRoundsUp | components/Dashboard.tsx:35 | A deadline 3.5 days ahead shows 4 days. |
| Store.Serial | App.tsx:42 | A serial is `SN-` followed by the number. |
| Store.SerialInjective | App.tsx:42 | Two serials are equal only for the same number. |
| Store.NewStudent | App.tsx:40-47 | A new record is Unpaid, has no payment date and no remark, and so satisfies the record invariant. |
| Store.DefaultState | App.tsx:14-19 | The unsaved state has no students, the default fees, no due date and Registration active. |
| Store.AddStudent | App.tsx:39-49 | Appends exactly one record and leaves the earlier records unchanged and in order. The new record is an Unpaid record of the active category with serial `SN-(n+1)`. The fees, due date and category do not change. |
| Store.DeleteStudent | App.tsx:51-53 | Every kept record comes from the old list and has a different id. Every record with a different id is kept. An absent id changes nothing. The other fields do not change. |
| Store.DeleteRemovesOne | App.tsx:52 | With unique ids, deleting a present id removes exactly that record and keeps the others in order. |
| Store.PaidRecord | App.tsx:59 | A paid record is Paid with the given date and remark, and its id, serial, name, phone and category are unchanged. |
| Store.MarkPaid | App.tsx:58-60 | Keeps the length and order. Records with the id become paid records, and every other record is unchanged. |
| Store.UpdateFeeStatus | App.tsx:55-62 | Only the student list changes, and it is updated as MarkPaid says. |
| Store.UpdateAbsentIsNoop | App.tsx:55-62 | Paying an absent id changes nothing. |
| Store.UpdateOverwrites | App.tsx:55-62 | Paying the same id twice equals paying once with the second date and remark. |
| Store.MarkPaidConcat | App.tsx:58-60 | Paying works record by record, so it distributes over concatenation. |
| Store.PayOne | App.tsx:56-61 | With unique ids, paying a present id replaces exactly that record with its paid version. |
| Store.PayMovesOneToPaid | App.tsx:55-62 | With unique ids, paying an Unpaid record of the active category raises the paid count by 1, lowers the unpaid count by 1 and keeps the total. |
| Store.NonBlank | App.tsx:72 | A line is kept exactly when it holds a character other than whitespace. |
| Store.DataLines | App.tsx:71-72 | The data lines are single lines, none of them blank. |
| Store.Field | App.tsx:73 | A field holds no comma and is already trimmed. |
| Store.OrDefault | App.tsx:77-78 | A non-empty text is kept as it is, and the empty text gives the default. |
| Store.ParseLine | App.tsx:73-78 | A parsed name and a parsed phone are never empty. Which text they hold is stated, for every shape of line, by ParseLineWithoutComma, ParseTwoFields and ParseLineIgnoresExtraFields. |
| Store.ParseLineClean | App.tsx:73-78 | The parsed fields hold no comma, and each is trimmed unless it was defaulted. |
| Store.ImportCsv | App.tsx:71-83 | One record per data line is appended after the existing records, which stay unchanged. Each new record is Unpaid, has no date or remark, is in the active category, and carries the serial of its position. The other fields do not change. |
| Store.ImportedRecord | App.tsx:72-82 | The record imported from data line k has id `newId(k)`, serial `SN-(n+k+1)` and the name and phone parsed from that line. |
| Store.ImportKeepsConsistent | App.tsx:71-83 | An import keeps the record invariant. |
| Store.ParseLineWithoutComma | App.tsx:73-78 | A line without a comma gives its trimmed self as the name ("Unknown" when that is empty) and "N/A" as the phone. |
| Store.ParseTwoFields | App.tsx:73-78 | For a line with one comma, the name is the trimmed text before it and the phone the trimmed text after it; an empty name becomes "Unknown" and an empty phone "N/A". |
| Store.ParseLineIgnoresExtraFields | App.tsx:73 | Fields after the second never affect the parsed row. |
| Store.ParseLineWithoutName | App.tsx:77 | A blank first field gives the name "Unknown", whatever follows it. |
| Store.ParseLineWithoutPhone | App.tsx:78 | A blank second field gives the phone "N/A", with or without further fields. |
| Store.ParseCleanLine | App.tsx:72-78 | A `name,phone` line of clean fields is not blank and reads back as exactly that row. |
| Store.ImportRoundTrip | App.tsx:71-82 | Importing a header followed by one clean `name,phone` line per row gives back exactly those rows, in order, whatever the header is. |
| Store.DataLinesOfJoin | App.tsx:71-72 | For a header line followed by further lines, the data lines are the further lines that are not blank. |
| Store.BlankLinesIgnored | App.tsx:72 | Removing a blank line after the header does not change what is imported. |
| Store.SetCategory | App.tsx:89-91 | Only the active category changes. |
| Store.SetFeeConfig | App.tsx:236 | Only the fee table changes. |
| Store.WithFee | App.tsx:343-361 | A fee input replaces its own category's amount and keeps the other two. |
| Store.SetDueDate | App.tsx:237 | Only the due date changes. |
| Store.AdminTable | App.tsx:303 | The admin's table lists exactly the records of the active category, all from the list, and as many as the dashboard's total. |
| Store.PendingCount | App.tsx:259-260 | The staff pending count for a category equals the dashboard's unpaid count for it. |
| Store.UnpaidQueue | App.tsx:468 | The staff queue is exactly the Unpaid records of the category, in list order, and its length is the pending count. |
| Store.StaffDaysLabel | App.tsx:262-269 | "N/A" exactly when no due date is set and "OVERDUE" exactly when overdue. Otherwise the digits of the non-negative day count. |
| Store.ApplyKeepsConsistent | App.tsx:39-91 | Every update keeps the record invariant. |
| Store.RunKeepsConsistent | App.tsx:39-91 | Any sequence of updates keeps the record invariant. |
| Store.ApplyNeverUnpays | App.tsx:39-91 | With fresh ids, every Unpaid record after an update is either an unchanged old record or a new one. Nothing goes from Paid back to Unpaid. |
| Store.ApplyKeepsUniqueIds | App.tsx:39-91 | With fresh, pairwise different ids, no update makes two records share an id. |
| Store.RunKeepsUniqueIds | App.tsx:39-91 | With fresh ids at every step, any sequence of updates keeps the ids unique. |
| Store.ImportKeepsUniqueIds | App.tsx:72-83 | An import whose drawn ids are new and pairwise different keeps the ids unique. |
| Store.FilterKeepsUniqueIds | App.tsx:52 | Deleting never makes two records share an id. |
| Store.ApplyKeepsSerials | App.tsx:42 | Updates other than deletion keep the k-th record at serial `SN-k`. |
| Store.SerialsDistinct | App.tsx:42 | Records numbered by position never share a serial. |
| Store.SerialsFollowInsertion | App.tsx:76 | Start from a list numbered by position and apply adds, imports, payments and setters without a deletion. The records are then numbered `SN-1`, `SN-2`, … in insertion order, and no two share a serial. |
| Store.DeleteThenAddRepeatsSerial | App.tsx:42 | Serials come from the current length, so an add after a deletion repeats a serial that is still in use. |
| Session.Authenticate | App.tsx:28-36 | Without a role nobody gets in. An admin gets in exactly with the admin secret, and staff exactly with the staff secret. |
| Session.PaymentDate | App.tsx:471 | The typed date when one was typed and is non-empty, otherwise today's date. |
| Session.PaymentRemark | App.tsx:472 | The typed remark, otherwise "". |
| Session.App.constructor | App.tsx:8-20 | The page starts with no role, nothing typed and logged out. The state is the saved snapshot when one exists, otherwise the default state. |
| Session.App.ChooseRole | App.tsx:106 | Sets the role and changes nothing else. |
| Session.App.TypePassword | App.tsx:136 | Sets the password and changes nothing else. |
| Session.App.HandleLogin | App.tsx:26-37 | With the right secret for the role, logs in and clears the error. Otherwise the session stays logged out with the fixed error message. Nothing else changes. It is called only with a non-empty password, as the input is `required`. |
| Session.App.Logout | App.tsx:189 | Logged out, no role, empty password and panel inputs discarded. The state and the error message are unchanged. |
| Session.App.SetCategory | App.tsx:89-91 | The state becomes `Store.SetCategory` of the old state, and the session is unchanged. |
| Session.App.TypeStudent | App.tsx:378-385 | Sets the name and phone inputs, and changes nothing else. |
| Session.App.SubmitStudent | App.tsx:389 | With both inputs filled, adds the record (`Store.AddStudent`) and clears the inputs. Otherwise nothing changes. The record invariant is kept. |
| Session.App.DeleteStudent | App.tsx:51-53 | The state becomes `Store.DeleteStudent` of the old state, and the record invariant is kept. |
| Session.App.HandleCsvUpload | App.tsx:64-87 | Without a file nothing changes. Otherwise the state becomes `Store.ImportCsv` of the old state, and the record invariant is kept. |
| Session.App.UpdateFee | App.tsx:343-361 | The fee table becomes the old one with this category's amount replaced. |
| Session.App.UpdateDueDate | App.tsx:237 | The state becomes `Store.SetDueDate` of the old state. |
| Session.App.TypePaymentDate | App.tsx:510 | Records the typed date for that record's id, and changes nothing else. |
| Session.App.TypeRemark | App.tsx:519 | Records the typed remark for that record's id, and changes nothing else. |
| Session.App.HandlePay | App.tsx:470-474 | The record is paid via `Store.UpdateFeeStatus`, with the typed date (today's when none) and the typed remark ("" when none). The record invariant is kept. |

## Left out

- Rendering: the JSX, the Tailwind classes, the pie chart and the tables are presentation only. The model covers the values they show.
- Persistence: the load from and save to `localStorage` with JSON. The constructor takes the saved snapshot as an optional parameter.
- File reading: `FileReader` and the reset of the file input. `HandleCsvUpload` takes the file's text, or nothing when no file is chosen.
- Session.App.HandleCsvUpload: the reader's callback computes serials from the state snapshot it captured but appends to the latest state. The model treats both as the same snapshot.
- Id generation: `crypto.randomUUID` is a foreign call. Ids are parameters, and their freshness (new and pairwise different) is a precondition (`FreshIds`, `AllFresh`) where a lemma needs it.
- Clock and locale: `new Date()`, date parsing, `toISOString` and `toLocaleDateString`. Days-left takes the millisecond difference as an integer, and a payment takes today's date as a string. An unparsable due date, which JavaScript turns into NaN, is not modelled.
- Dashboard.PaidPercentage: computed exactly, halves rounded up. Floating-point error in the source's division before `Math.round` is not modelled.
- Fees: whole numbers. `+e.target.value` can give NaN or a fraction; neither is modelled, and `Session.App.UpdateFee` takes an `int`.
- Currency formatting with `toLocaleString` is presentation only.
- The password and default-fee constants live in `./constants`, which is not part of this model. They are constructor parameters.
- Session screen guards: buttons exist only on their own screen, so each `App` method requires the login state and the role of the screen where it appears. The login form's password input is `required` (App.tsx:139), so the browser never submits it empty and `HandleLogin` requires a non-empty password.
- Session.App.Logout: the admin and staff panels unmount on logout, so their inputs reset. The model clears them on logout only, not on other remounts.
