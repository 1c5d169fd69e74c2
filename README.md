# Splitify core, modelled in Dafny

Splitify is a web application for sharing expenses within a group. Members record shared debts, which are split equally among participants, and direct transactions between two members. A ledger turns both into per-member balances. Recurring debts are templates that a daily sweep, or a manual "generate now", turns into shared debts on a schedule. Every handler first cleans and validates the user's input.

This project models that core and proves properties of it:

- **`Text`, `Common`.** Character classes (`is_whitespace` and `is_control` exactly; alphanumeric, alphabetic and lower-casing over ASCII) and UTF-8 byte lengths. Also a `Result` type whose errors carry the handler's message.
- **`Validation`, `Financial`, `Auth`.** String sanitising, name, description and amount validation, and the username, password and e-mail validators. The e-mail recogniser follows the "valid e-mail address" pattern of the WHATWG HTML Living Standard (section 4.10.5.1.5), behind a 254-byte cap.
- **`Invites`, `Shopping`, `Shares`.**
  - Invite expiry.
  - The shopping-list name check and the activity sentence.
  - The equal split with `round_dp(2)`.
- **`Dates`, `Decimals`.**
  - Proleptic-Gregorian `YYYY-MM-DD` dates with an ordinal day number as the reference. `Date::MAX` saturation is modelled.
  - Decimals as mantissa and scale, with banker's rounding to two places.
- **`RecurringModels`, `Schedule`.**
  - The `Frequency` enum and its strings.
  - `calculate_next_occurrence`, with day clamping.
  - `should_generate`.
- **`Store`.** The SQLite database as a class `Database`. Each table is a sequence of rows in rowid order with increasing ids. Each pivot table is a sequence of links.
- **`RecurringHandlers`, `RecurringQuery`, `Scheduler`.**
  - Create, update, pause/resume and generate-now of a recurring debt.
  - The Paused/Expired/Active status decision of the two queries.
  - The due-debt sweep.
- **`SharedHandlers`, `TransactionHandlers`.** The guard chains of creating and updating shared debts and transactions, and what each writes.
- **`Ledger`.** The debt matrix that `calculate_user_debts` fills in place from shared debts and transactions, and the fold into per-member balances.

Each handler is a method on the `Database`. Its guard chain is a pure function returning the handler's error message. The method's `ensures` ties the new tables to pure functions of the old ones, and lemmas state what the source promises about those functions. Some inputs are parameters instead of reads:

- the caller's user id;
- the group membership, a set of (group, user) pairs;
- the roster of members with their usernames;
- `today` and `now`.

The source's documentation and its code disagree in places. The model follows the code in each case:

- Equal splits are `(amount / n).round_dp(2)` for every participant. The quotient keeps the amount's scale, adding places only while a remainder is left, so "100" split four ways is 25 and "10" split four ways is 2.5; 100.00 split three ways is 33.33 each and 99.99 in all. No remainder cent is handed out, and the shares need not add up to the amount.
- The ledger divides the unrounded amount by the participant count.
- A participant list is not de-duplicated. One link is written per listed id.
- A shared debt need not include its creator.

## Model

`Validation.SanitizeString`, `Auth.IsValidEmail`, `Dates.Parse`, `Decimals.Parse` and `Decimals.ToString` are defining functions: what they promise is stated by the lemma rows below that cite the same source lines (`Validation.Sanitize…`, `Auth.EmailCharacterisation` and the other email lemmas, `Dates.ParseFormat`, `Decimals.ParseWhole`, `Decimals.ParseWithFraction`, `Decimals.ParseToString`).

| member | source | states |
|---|---|---|
| Validation.Scrub | src/validation/mod.rs:28-39 | the result holds no control characters: whitespace controls become spaces, the others are dropped |
| Validation.Words | src/validation/mod.rs:41 | `split_whitespace`: every piece is a non-empty run of non-whitespace characters, control-free when the input is |
| Validation.SanitizeSanitized | src/validation/mod.rs:24-44 | the output has no control characters, no leading or trailing whitespace, and whitespace only as single spaces between words |
| Validation.SanitizeFixpoint | src/validation/mod.rs:24-44 | text that already has that shape is returned unchanged |
| Validation.SanitizeIdempotent | src/validation/mod.rs:24-44 | sanitising twice is sanitising once |
| Validation.SanitizeKeepsVisible | src/validation/mod.rs:24-44 | the characters that are neither whitespace nor control characters are kept, in order |
| Validation.SanitizeTrimsWord | src/validation/mod.rs:25-26 | surrounding whitespace is removed from a single word ("  hello  " → "hello") |
| Validation.SanitizeJoinsWords | src/validation/mod.rs:41-43 | a run of whitespace between two words becomes one space ("hello\nworld" → "hello world") |
| Validation.SanitizeDropsControl | src/validation/mod.rs:29-39 | a non-whitespace control character is deleted ("test\x00string" → "teststring") |
| Validation.ValidateName | src/validation/mod.rs:55-80 | Ok iff the sanitised text is non-empty and its byte length is within [min, max]; the Ok value is the sanitised text; an empty or too short text gets "<field> must be at least N character(s)" and a too long one "<field> must be N characters or less" |
| Validation.ValidateNameTooShort | src/validation/mod.rs:63-69 | an empty or too-short name gets "<field> must be at least <min> character[s]", plural unless min is 1 |
| Validation.ValidateNameTrims | src/validation/mod.rs:61-79 | a word padded with whitespace is accepted as the bare word |
| Validation.ValidateNameBlank | src/validation/mod.rs:63 | an empty or all-whitespace name is refused whatever the bounds |
| Validation.ValidateDescription | src/validation/mod.rs:84-95 | Ok iff the sanitised text is at most max bytes, empty text included; the Ok value is the sanitised text; otherwise the "Description must be …" message |
| Financial.ValidateAmount | src/validation/financial.rs:29-60 | Ok iff the sanitised text parses to a positive decimal with at most two written places that is not above 999,999,999; the Ok value is that parse, with 0 < value ≤ 999,999,999; empty, unparsable, non-positive, more than two places and above the cap each get their own message, checked in that order |
| Financial.SanitizeDecimalText | src/validation/financial.rs:30 | sanitising a decimal's own text leaves it unchanged |
| Financial.ValidateAmountAccepts | src/validation/financial.rs:29-60 | every positive decimal with at most two places and at most 999,999,999 validates, written out, to itself, scale included |
| Financial.ValidateAmountScale | src/validation/financial.rs:46-50 | three written places are refused even when the last is zero ("10.500", "0.001") |
| Financial.ValidateAmountCapIsWhole | src/validation/financial.rs:53-57 | the cap is the whole 999,999,999: 999,999,999.50 is refused although the message names 999,999,999.99 |
| Financial.ValidateAmountNotPositive | src/validation/financial.rs:42-44 | zero and negative amounts get "Amount must be greater than zero" |
| Auth.ValidateUsername | src/validation/auth.rs:25-50 | Ok iff the sanitised name is 3 to 50 bytes of letters, digits, '_' and '-'; the Ok value is the sanitised name; the four failures get, in guard order, "Username is required", "… at least 3 characters", "… 50 characters or less" and "… can only contain letters, numbers, underscores, and hyphens" |
| Auth.UsernameRejectsSpace | src/validation/auth.rs:40-47 | two words separated by whitespace are refused ("user name"): sanitising keeps one space, which is not a username character |
| Auth.ValidatePassword | src/validation/auth.rs:54-76 | Ok iff the password, unsanitised, is 8 to 128 bytes and contains a letter; the four failures get, in guard order, "Password is required", "… at least 8 characters", "… 128 characters or less" and "… must contain at least one letter" |
| Auth.PasswordNeedsLetter | src/validation/auth.rs:69-73 | a password of digits only is refused at any length ("12345678") |
| Auth.SplitJoin | src/validation/auth.rs:105-106 | splitting on a separator and joining back with it gives the text back |
| Auth.JoinSplit | src/validation/auth.rs:105-106 | joining separator-free pieces and splitting again gives the pieces back |
| Auth.RecogniserMatchesPattern | src/validation/auth.rs:93-97 | the split-based recogniser accepts exactly the texts of the shape local-part '@' label ('.' label)* that the regular expression describes |
| Auth.EmailCharacterisation | src/validation/auth.rs:90-112 | an address is valid iff it is at most 254 bytes, has that shape, and its last label is at least two characters |
| Auth.DotlessDomainAccepted | src/validation/auth.rs:95-107 | a domain of one label of two or more characters is accepted: the regular expression does not require a dot |
| Auth.ShortTldRejected | src/validation/auth.rs:104-108 | a last label shorter than two characters is refused ("a@b.c") |
| Auth.ValidateEmail | src/validation/auth.rs:116-130 | Ok iff the lower-cased sanitised text is a valid address; the Ok value is that text, with no upper-case letters; empty text gets "Email is required", any other invalid text the invalid-format message |
| Auth.ToLowerIdempotent | src/validation/auth.rs:117 | lower-casing twice is lower-casing once |
| Auth.ValidateEmailIdempotent | src/validation/auth.rs:116-130 | validating an accepted address again accepts it unchanged |
| Invites.Expiration | src/features/invites/utils.rs:26-28 | the expiration is exactly the creation instant plus the duration in days |
| Invites.IsInviteValid | src/features/invites/utils.rs:15-22 | a non-positive duration is never valid; otherwise valid iff `now` is strictly less than creation plus the duration |
| Invites.ValidIffBeforeExpiration | src/features/invites/utils.rs:15-28 | for a positive duration, validity is `now < calculate_expiration(created_at, duration_days)` |
| Invites.ExpirationIsExclusive | src/features/invites/utils.rs:20-21 | at the expiration instant itself the invite is invalid (strict comparison) |
| Invites.ValidAtCreation | src/features/invites/utils.rs:16-21 | an invite with a positive duration is valid at its creation instant |
| Invites.ExpiredStaysExpired | src/features/invites/utils.rs:15-22 | once invalid, an invite stays invalid at every later instant |
| Shares.SharePerUser | src/features/shared_debts/utils.rs:12-13 | `amount / count` keeps the least scale, from the amount's own, at which it is exact, and is then that exact quotient; `round_dp(2)` leaves such a quotient of at most two places unchanged and otherwise gives two places |
| Shares.ShareRounding | src/features/shared_debts/utils.rs:13 | counted in cents, the share is the nearest cent to amount / count, a tie going to the even cent |
| Shares.ShareDetermined | src/features/shared_debts/utils.rs:12-13 | the scale rule, the exact quotient and the rounding together determine the share: any decimal keeping them is SharePerUser's result |
| Shares.CalculateShares | src/features/shared_debts/utils.rs:7-23 | one share per participant, in input order, carrying the participant's id and name and the same quotient, scale included; no participants give no shares |
| Shares.ShareWithinHalfCent | src/features/shared_debts/utils.rs:13 | each share is within half a cent of the exact quotient |
| Shares.SharesSumClose | src/features/shared_debts/utils.rs:12-22 | the shares add up to the amount within half a cent per participant |
| Shares.WholeSplit | src/features/shared_debts/utils.rs:12-13 | "100" split four ways is 25 with scale 0, not 25.00 |
| Shares.HalfSplit | src/features/shared_debts/utils.rs:12-13 | "10" split four ways is 2.5: the division adds one place because a remainder is left, and `round_dp(2)` keeps it |
| Shares.CentsSplit | src/features/shared_debts/utils.rs:12-13 | "100.00" split four ways keeps the amount's two places: 25.00 |
| Shares.SplitsShown | src/pages/recurring_debts/show.rs:211 | `to_string` shows those shares as "25" and "2.5" |
| Shares.ThreeWaySplit | src/features/shared_debts/utils.rs:13 | 100.00 split three ways is 33.33 each, 99.99 in all |
| Shares.TieToEven | src/features/shared_debts/utils.rs:13 | 0.05 split two ways is 0.02: the quotient 0.025 has three places and `round_dp` rounds the tie to even |
| Shopping.ValidateListName | src/features/shopping_lists/utils.rs:119-129 | Ok iff the trimmed name is non-empty and the untrimmed name is at most 255 bytes; emptiness is reported before length, each with its message |
| Shopping.ListNameCountsPadding | src/features/shopping_lists/utils.rs:120-127 | surrounding whitespace counts towards the byte limit: a 250-byte word passes, the same word padded with six spaces does not |
| Shopping.ActionDescription | src/features/shopping_lists/models.rs:63-71 | the four known actions give "<user> added/completed/uncompleted/deleted <item>", any other gives "<user> <action> <item>" |
| Shopping.DescriptionFrame | src/features/shopping_lists/models.rs:63-71 | every sentence starts with the username and a space and ends with a space and the item name |
| Shopping.DescriptionAmbiguous | src/features/shopping_lists/models.rs:65-69 | an unknown action "added" reads exactly like "added_item" |
| Dates.MonthLength | src/features/recurring_debts/utils.rs:23 | `Month::length`: every month of every year has 28 to 31 days |
| Dates.BeforeOrdinal | src/features/recurring_debts/utils.rs:52-58 | the calendar order of dates agrees with the order of their day numbers |
| Dates.OrdinalInjective | src/features/recurring_debts/utils.rs:52-58 | two valid dates with the same day number are the same date |
| Dates.NextDay | src/features/recurring_debts/utils.rs:8 | one day on from a valid date is a valid date |
| Dates.NextDayOrdinal | src/features/recurring_debts/utils.rs:8 | one day on moves the day number by one, except at 9999-12-31 where `saturating_add` stays put |
| Dates.MaxDateIsLast | src/features/recurring_debts/utils.rs:8-9 | 9999-12-31 has the largest day number of all valid dates |
| Dates.AddDays | src/features/recurring_debts/utils.rs:8-9 | adding days to a valid date gives a valid date |
| Dates.AddDaysOrdinal | src/features/recurring_debts/utils.rs:9 | adding n days moves the day number by n, capped at that of 9999-12-31 |
| Dates.Format | src/features/recurring_debts/handlers/scheduler.rs:210 | a date is stored as ten characters |
| Dates.FormatParts | src/features/recurring_debts/handlers/scheduler.rs:210 | the stored text is four-digit year, '-', two-digit month, '-', two-digit day |
| Dates.ParseFormat | src/features/recurring_debts/handlers/scheduler.rs:56-60 | a stored date parses back to the same date |
| Dates.FormatParse | src/features/recurring_debts/handlers/scheduler.rs:56-60 | every text that parses is a valid date whose stored form is that text |
| Dates.TextOrder | src/features/recurring_debts/handlers/scheduler.rs:31-34 | for the canonical `YYYY-MM-DD` text that `Display` writes, text order is date order, so on such columns the SQL filter on TEXT means the date comparison |
| Decimals.IsPositiveValue | src/validation/financial.rs:42 | `amount > Decimal::ZERO` holds iff the value is positive |
| Decimals.GreaterThanIntValue | src/validation/financial.rs:53 | `amount > Decimal::from(n)` holds iff the value exceeds n |
| Decimals.ParseWhole | src/validation/financial.rs:36 | a run of digits parses to that integer with scale 0 |
| Decimals.ParseWithFraction | src/validation/financial.rs:36 | "w.f" parses to the digits of w and f as mantissa with scale |f|, so the scale counts written fraction digits |
| Decimals.ParseToString | src/features/transactions/handlers/create.rs:87 | the text a decimal is stored as parses back to the same decimal, scale included |
| Decimals.RoundHalfEven | src/features/transactions/handlers/create.rs:87 | the quotient is within half a divisor of the exact one, and an exact tie goes to the even quotient |
| Decimals.RoundHalfEvenUnique | src/features/transactions/handlers/create.rs:87 | any quotient with those two properties is the one computed |
| Decimals.RoundDp2 | src/features/transactions/handlers/create.rs:87 | `round_dp(2)` leaves at most two fraction digits, never adds any, and leaves a value with two or fewer unchanged |
| Decimals.RoundDp2Close | src/features/transactions/handlers/create.rs:87 | the rounded value is within half a cent of the original |
| Decimals.RoundDp2Idempotent | src/features/transactions/handlers/create.rs:87 | rounding twice is rounding once |
| Decimals.RoundDp2CanReachZero | src/features/transactions/handlers/create.rs:38-41 | "0.001" parses to a positive amount, so it passes the positivity guard, and it rounds to 0.00 |
| RecurringModels.FromStr | src/features/recurring_debts/models.rs:40-47 | Ok iff the lower-cased input is one of the four stored names, and then the stored name of the result is that lower-cased input; otherwise Err("Invalid frequency: " + the input as given) |
| RecurringModels.AsStr | src/features/recurring_debts/models.rs:18-25 | each stored name is a non-empty word of lower-case ASCII letters |
| RecurringModels.Label | src/features/recurring_debts/models.rs:27-34 | each label is a non-empty word: an upper-case ASCII letter followed by lower-case ones |
| RecurringModels.Display | src/features/recurring_debts/models.rs:51-55 | the displayed text parses back to the same frequency |
| RecurringModels.FromStrAsStr | src/features/recurring_debts/models.rs:18-25 | every frequency parses back from its stored name and from its `Display` text |
| RecurringModels.AsStrInjective | src/features/recurring_debts/models.rs:18-25 | distinct frequencies have distinct stored names |
| RecurringModels.LabelCapitalises | src/features/recurring_debts/models.rs:27-34 | the label is the stored name with its first letter upper-cased |
| RecurringModels.FromStrIgnoresCase | src/features/recurring_debts/models.rs:41 | "Monthly" and "MONTHLY" parse to monthly, and "fortnightly" is refused with its own text in the message |
| Schedule.FollowingMonth | src/features/recurring_debts/utils.rs:16-20 | the month after a month is a month, December rolling over to January of the next year |
| Schedule.ClampedOr | src/features/recurring_debts/utils.rs:22-26 | the clamped date, or the fallback, is always a valid date |
| Schedule.NextOccurrence | src/features/recurring_debts/utils.rs:6-41 | every step from a valid date gives a valid date |
| Schedule.DailyStep | src/features/recurring_debts/utils.rs:8 | a daily step moves the day number by one, across month and year ends |
| Schedule.WeeklyStep | src/features/recurring_debts/utils.rs:9 | a weekly step moves the day number by seven, capped at 9999-12-31 |
| Schedule.MonthlyStep | src/features/recurring_debts/utils.rs:10-27 | a monthly step goes to the following month; a day that fits there is kept and the day number moves by the length of the month left; a day that does not fit becomes that month's last day |
| Schedule.YearlyStep | src/features/recurring_debts/utils.rs:28-39 | a yearly step keeps month and day in the next year, 29 February becoming 28 February, and moves by the length of the year crossed |
| Schedule.NextOccurrenceLater | src/features/recurring_debts/utils.rs:23-38 | every step is strictly later, except at the year-9999 horizon where the `unwrap_or(current_date)` fallback or the saturation leaves the date unchanged |
| Schedule.ClampingPersists | src/features/recurring_debts/utils.rs:14-24 | 2026-01-31 steps monthly to 2026-02-28 and then to 2026-03-28: clamping is not undone |
| Schedule.NextOccurrenceExamples | src/features/recurring_debts/utils.rs:70-110 | the four unit tests of the step: daily, weekly, monthly from the 31st, yearly from 29 February |
| Schedule.ShouldGenerate | src/features/recurring_debts/utils.rs:44-63 | true iff the record is active, today is not after the end date if there is one, and today is not before the next generation date |
| Schedule.EndDateInclusive | src/features/recurring_debts/utils.rs:51-55 | a record whose end date is today still generates |
| Schedule.EndBeforeNextNeverDue | src/features/recurring_debts/utils.rs:44-63 | a record whose end date is before its next generation date never generates |
| Store.OlderIdSmaller | src/features/recurring_debts/handlers/scheduler.rs:20-39 | in a table scanned in rowid order, the first row has the smallest id |
| Store.NextId | src/features/recurring_debts/handlers/create.rs:129-149 | `last_insert_rowid` after an insert is positive and larger than every id already in the table |
| Store.AppendNextId | src/features/recurring_debts/handlers/create.rs:129-149 | appending the row with that id keeps the table's ids increasing |
| Store.RecurringAppend | src/features/recurring_debts/handlers/create.rs:129-149 | inserting a recurring debt with the next rowid keeps the table's ids increasing |
| Store.RecurringRewrite | src/features/recurring_debts/handlers/update.rs:133-149 | an UPDATE of one row keeps the table's ids increasing |
| Store.SharedDebtAppend | src/features/shared_debts/handlers/create.rs:86-97 | inserting a shared debt with the next rowid keeps the table's ids increasing |
| Store.SharedDebtRewrite | src/features/shared_debts/handlers/update.rs:102-110 | an UPDATE of one shared debt keeps the table's ids increasing |
| Store.TransactionAppend | src/features/transactions/handlers/create.rs:90-105 | inserting a transaction with the next rowid keeps the table's ids increasing |
| Store.TransactionRewrite | src/features/transactions/handlers/update.rs:90-103 | an UPDATE of one transaction keeps the table's ids increasing |
| Store.Find | src/features/recurring_debts/handlers/toggle.rs:30-41 | `WHERE id = ?` finds a row with that id, or None exactly when no row has it |
| Store.FindUnique | src/features/recurring_debts/handlers/toggle.rs:30-41 | with increasing ids, the row found is the only one with that id |
| Store.UsersOf | src/features/shared_debts/handlers/query.rs:195-199 | the users read back for an owner are exactly the users linked to it |
| Store.LinksFor | src/features/recurring_debts/handlers/create.rs:152-161 | one pivot row per listed user, in the order listed |
| Store.WithoutOwner | src/features/recurring_debts/handlers/update.rs:152-158 | `DELETE … WHERE owner = ?` keeps exactly the other owners' rows |
| Store.UsersOfAppend | src/features/recurring_debts/handlers/create.rs:152-161 | reading back after appending rows reads the old rows then the new ones |
| Store.UsersOfLinksFor | src/features/recurring_debts/handlers/create.rs:152-161 | the users inserted for an owner are read back as the same list |
| Store.UsersOfOther | src/features/recurring_debts/handlers/create.rs:152-161 | rows inserted for one owner are not read back for another |
| Store.UsersOfWithout | src/features/recurring_debts/handlers/update.rs:152-158 | after the DELETE no user is read back for that owner |
| Store.UsersOfWithoutOther | src/features/recurring_debts/handlers/update.rs:152-158 | the DELETE does not change what other owners read back |
| Store.ReplaceLinks | src/features/recurring_debts/handlers/update.rs:152-170 | delete-then-insert makes the owner's users exactly the new list and leaves every other owner's users unchanged |
| Store.MemberPrefix | src/features/recurring_debts/handlers/create.rs:101-120 | the users up to the returned position are group members and the one there, if any, is not |
| Store.FirstNonMember | src/features/recurring_debts/handlers/create.rs:101-120 | None iff every listed user is a group member; otherwise a listed user who is not |
| Store.CheckMembers | src/features/recurring_debts/handlers/create.rs:101-120 | the membership loop returns the first listed user who is not a group member, or None |
| Store.Database.FindRecurring | src/features/recurring_debts/handlers/toggle.rs:30-41 | `SELECT … FROM recurring_debts WHERE id = ?`: a row with that id, or None exactly when there is none |
| Store.Database.FindSharedDebt | src/features/shared_debts/handlers/update.rs:61-68 | `SELECT … FROM shared_debts WHERE id = ?`: a row with that id, or None exactly when there is none |
| Store.Database.FindTransaction | src/features/transactions/handlers/update.rs:47-56 | `SELECT … FROM transactions WHERE id = ?`: a row with that id, or None exactly when there is none |
| Text.TrimEmptyIff | src/features/shopping_lists/utils.rs:120-122 | `trim().is_empty()` holds exactly when every character is whitespace |
| Store.Database.InsertRecurringDebtUsers | src/features/recurring_debts/handlers/create.rs:152-161 | appends one `recurring_debt_user` row per listed user, in order, and changes no other table |
| Store.Database.InsertSharedDebtUsers | src/features/shared_debts/handlers/create.rs:100-109 | appends one `shared_debt_user` row per listed user, in order, and changes no other table |
| RecurringHandlers.ParseOptionalDate | src/features/recurring_debts/handlers/scheduler.rs:70-83 | an absent end date reads as None; a present one reads as its date, or fails exactly when it does not parse |
| RecurringHandlers.ParseRow | src/features/recurring_debts/handlers/scheduler.rs:45-108 | a stored record reads back iff its amount, frequency and dates all parse; the parsed dates are valid and print back to the stored texts, and the other columns are carried over |
| RecurringHandlers.FieldCheck | src/features/recurring_debts/handlers/create.rs:42-54 | Ok iff the trimmed name is non-empty, the amount parses and is positive, and the frequency parses |
| RecurringHandlers.DateCheck | src/features/recurring_debts/handlers/create.rs:56-79 | Ok iff the start date parses and is not before today, and an end date, when given, parses and is after the start date |
| RecurringHandlers.MembersCheck | src/features/recurring_debts/handlers/create.rs:101-120 | Ok iff every listed user is a member of the group |
| RecurringHandlers.CreateCheck | src/features/recurring_debts/handlers/create.rs:42-120 | Ok iff the fields, the dates, a non-empty member list, the caller's membership and every listed member's membership all pass |
| RecurringHandlers.NewRecurringRow | src/features/recurring_debts/handlers/create.rs:129-145 | the inserted record is active, first due on its start date, with name, amount, frequency and dates stored as the texts given |
| RecurringHandlers.CreateRecurringDebt | src/features/recurring_debts/handlers/create.rs:20-169 | a failed guard returns its message and writes nothing; otherwise the record is appended with the next rowid, one member row per listed member follows, no other table changes, and the new id is returned |
| RecurringHandlers.CreatedRecordSchedule | src/features/recurring_debts/handlers/create.rs:62-79 | an admitted record reads back active and first due on its start date, which is today or later and before any end date, so it is generated on that date and on no earlier day |
| RecurringHandlers.UpdateInputCheck | src/features/recurring_debts/handlers/update.rs:47-71 | the checks made before any lookup: Ok iff the fields pass, an end date parses, and the member list is non-empty; the Ok value is the parsed end date |
| RecurringHandlers.UpdateRecordCheck | src/features/recurring_debts/handlers/update.rs:73-124 | Ok iff the record exists, the caller created it, a new end date is after the stored start date, and every listed member belongs to the record's group |
| RecurringHandlers.UpdateCheck | src/features/recurring_debts/handlers/update.rs:47-124 | Ok iff both the input checks and the record checks pass; the caller's own membership and today's date play no part |
| RecurringHandlers.UpdatedRow | src/features/recurring_debts/handlers/update.rs:133-149 | name, amount, frequency, end date and active flag are overwritten; id, group, creator, start date and next generation date are kept |
| RecurringHandlers.LocateForUpdate | src/features/recurring_debts/handlers/update.rs:73-124 | the lookups return exactly the record checks' verdict, and nothing is written |
| RecurringHandlers.UpdateRecurringDebt | src/features/recurring_debts/handlers/update.rs:47-175 | a failed guard returns its message and writes nothing; otherwise the record is rewritten in place and its member rows are replaced by the new list, with no other table changed |
| RecurringHandlers.RewriteRecurringDebt | src/features/recurring_debts/handlers/update.rs:133-170 | the UPDATE replaces exactly the one record, the DELETE and the INSERTs make the record's member rows the new list while other records keep theirs, the ids stay increasing and no other table changes |
| RecurringHandlers.UpdateCanEndSchedule | src/features/recurring_debts/handlers/update.rs:94-103 | an update keeps the start and next generation dates, so an end date between them is accepted and leaves a record that never generates again |
| RecurringHandlers.ToggleCheck | src/features/recurring_debts/handlers/toggle.rs:30-47 | Ok iff the record exists and the caller created it; a missing record gives "Recurring debt not found" |
| RecurringHandlers.Toggled | src/features/recurring_debts/handlers/toggle.rs:49-56 | the record's flag is negated and every other column and row is kept |
| RecurringHandlers.ToggleRecurringDebtActive | src/features/recurring_debts/handlers/toggle.rs:30-61 | a failed guard writes nothing; otherwise only the flag is negated, and the new flag is returned |
| RecurringHandlers.ToggleTwice | src/features/recurring_debts/handlers/toggle.rs:49-56 | toggling twice restores the table |
| RecurringHandlers.ResumeIsDueAtOnce | src/features/recurring_debts/handlers/toggle.rs:52-56 | resuming keeps the next generation date, so a paused record whose date has passed becomes due at once |
| RecurringHandlers.GenerateCheck | src/features/recurring_debts/handlers/instances.rs:111-177 | Ok iff the record exists, the caller created it, it is active, its frequency and next date parse, and it has members; neither today nor the end date is consulted |
| RecurringHandlers.GeneratedDebt | src/features/recurring_debts/handlers/instances.rs:186-200 | the generated shared debt copies group, creator, name and amount text and points back at its recurring debt |
| RecurringHandlers.Advanced | src/features/recurring_debts/handlers/instances.rs:214-223 | only the next generation date changes, and it reads back as one period on from the old one |
| RecurringHandlers.AdvancedIsLater | src/features/recurring_debts/handlers/instances.rs:156 | the stored date moves strictly later, except at the year-9999 horizon where it stays put |
| RecurringHandlers.GenerateNow | src/features/recurring_debts/handlers/instances.rs:111-231 | a failed guard writes nothing; otherwise exactly one shared debt is appended with the next rowid, its participants are the record's members, the record's date advances one period, and the new id is returned |
| RecurringQuery.StatusOf | src/features/recurring_debts/handlers/query.rs:123-134 | Paused iff inactive; Expired iff active with an end date before today; Active iff active with no end date or one not before today |
| RecurringQuery.ActiveStatusIsEligibility | src/features/recurring_debts/handlers/query.rs:123-134 | the scheduler generates a record today iff it shows as Active and its next generation date has come; a Paused or Expired record is never generated |
| RecurringQuery.DetailsOf | src/features/recurring_debts/handlers/query.rs:91-134 | a row reads back iff all its TEXT columns parse; the result carries the parsed record, whether the caller created it, and its status; an unparsable amount gives the "Invalid amount: " message |
| RecurringQuery.GetRecurringDebt | src/features/recurring_debts/handlers/query.rs:160-270 | a missing record, or one whose group the caller is not in, gives "Recurring debt not found or access denied"; otherwise the row's details |
| RecurringQuery.OutsiderSeesNothing | src/features/recurring_debts/handlers/query.rs:195-207 | for a caller outside the group the answer is the same as for an id that does not exist |
| RecurringQuery.NewestFirst | src/features/recurring_debts/handlers/query.rs:61-91 | a successful listing holds only records of the group, each from the table |
| RecurringQuery.ErrorPersists | src/features/recurring_debts/handlers/query.rs:91-121 | an unreadable newer record aborts the listing whatever older rows follow |
| RecurringQuery.ListingIsNewestFirst | src/features/recurring_debts/handlers/query.rs:81 | the listed ids strictly decrease: newest first |
| RecurringQuery.ListingIsComplete | src/features/recurring_debts/handlers/query.rs:78-80 | every record of the group is listed when the listing succeeds |
| RecurringQuery.GetRecurringDebts | src/features/recurring_debts/handlers/query.rs:27-157 | a caller outside the group gets "Not authorized"; a member gets the group's listing, newest first |
| Scheduler.SqlFilterAgrees | src/features/recurring_debts/handlers/scheduler.rs:31-34 | on a record whose date columns are canonical `YYYY-MM-DD` text (the only form the model's date parser accepts), the SQL filter's text comparisons select it iff `should_generate` admits it; such a record generates iff it is eligible and has members |
| Scheduler.Advance | src/features/recurring_debts/handlers/scheduler.rs:157 | only the next generation date changes |
| Scheduler.SweptRow | src/features/recurring_debts/handlers/scheduler.rs:44-231 | a record that does not generate is left unchanged; one that does has only its next generation date moved, to one period on |
| Scheduler.GeneratedFrom | src/features/recurring_debts/handlers/scheduler.rs:170-184 | at most one shared debt per record, numbered consecutively from the first free rowid |
| Scheduler.SweptAt | src/features/recurring_debts/handlers/scheduler.rs:44-237 | after the whole sweep each record is the record after its own step |
| Scheduler.Examine | src/features/recurring_debts/handlers/scheduler.rs:44-155 | a plan is returned iff the record generates, and it carries the parsed frequency and date and the record's members; a record that fails to parse or has no members is skipped |
| Scheduler.GeneratedStep | src/features/recurring_debts/handlers/scheduler.rs:170-184 | one more record adds one shared debt when it generates and none otherwise |
| Scheduler.LinksStep | src/features/recurring_debts/handlers/scheduler.rs:194-208 | one more record adds its members' participant rows when it generates and none otherwise |
| Scheduler.SweepOne | src/features/recurring_debts/handlers/scheduler.rs:44-231 | when the record generates, one shared debt copying group, creator, name and amount text with the record as source, its members as participants, and the record's date moved on; otherwise nothing changes |
| Scheduler.Generate | src/features/recurring_debts/handlers/scheduler.rs:157-222 | the three writes of one generation: a shared debt at the next rowid copying the record, one participant row per member, and the record's next generation date moved on one period; the ids stay increasing |
| Scheduler.MoveOn | src/features/recurring_debts/handlers/scheduler.rs:210-222 | the record's next generation date is rewritten to the next occurrence in place; the ids stay increasing and no other table changes |
| Scheduler.SweepStep | src/features/recurring_debts/handlers/scheduler.rs:44-231 | one turn of the loop keeps its invariant: after the record the tables are those of the sweep one record further, and the next rowid is one past the debts generated so far |
| Scheduler.SweepStart | src/features/recurring_debts/handlers/scheduler.rs:42 | before the loop nothing has been generated and no record has moved |
| Scheduler.SweepEnd | src/features/recurring_debts/handlers/scheduler.rs:231-240 | after the last record the tables are those of the sweep over the whole table |
| Scheduler.SweepAdvance | src/features/recurring_debts/handlers/scheduler.rs:42-231 | the loop's bookkeeping: after one more record the tables and the count are those of the sweep over one more record |
| Scheduler.ProcessDueRecurringDebts | src/features/recurring_debts/handlers/scheduler.rs:12-240 | one pass in rowid order: shared debts and participants are appended for exactly the records that generate, those records' dates move on one period, nothing else is written, and the count returned is the number of debts created |
| Scheduler.AtMostOncePerSweep | src/features/recurring_debts/handlers/scheduler.rs:44-231 | every generated debt points at a record of the sweep, and at strictly increasing ones, so no record generates twice in one sweep |
| Scheduler.CatchUpOnePerSweep | src/features/recurring_debts/handlers/scheduler.rs:157-216 | after generating, a record generates again the same day iff its advanced date has also come; a record behind by several periods catches up one period per sweep, and at the year-9999 horizon it generates on every sweep |
| SharedHandlers.ParticipantsCheck | src/features/shared_debts/handlers/create.rs:60-76 | Ok iff every selected participant belongs to the group; otherwise "Some selected members are not part of this group" |
| SharedHandlers.CreateCheck | src/features/shared_debts/handlers/create.rs:22-76 | Ok iff the name validates (1 to 255 bytes), the amount validates, the list is non-empty, and the caller and every participant belong to the group; the Ok value is the sanitised name and the amount; the first failing check's message otherwise |
| SharedHandlers.NewSharedRow | src/features/shared_debts/handlers/create.rs:84-95 | the inserted debt has the caller as creator, the given name, an amount text that parses back to the amount, and no recurring source |
| SharedHandlers.CreateSharedDebt | src/features/shared_debts/handlers/create.rs:14-114 | a failed guard writes nothing; otherwise one debt is appended with the next rowid, one participant row per selected id follows, no other table changes, and the new id is returned |
| SharedHandlers.InsertSharedDebt | src/features/shared_debts/handlers/create.rs:78-113 | the debt is appended with the next rowid and the validated name and amount, then one participant row per selected id; the ids stay increasing and no other table changes |
| SharedHandlers.CreatedDebtReadsBack | src/features/shared_debts/handlers/create.rs:22-109 | a created debt reads back with a sanitised name of 1 to 255 bytes, a positive amount of at most two places and at most the cap, and exactly the selected participants, who need not include the creator |
| SharedHandlers.UpdateAmountCheck | src/features/shared_debts/handlers/update.rs:36-42 | Ok iff the raw text parses to a positive decimal; an unparsable text gives "Invalid amount format" |
| SharedHandlers.UpdateInputCheck | src/features/shared_debts/handlers/update.rs:25-48 | Ok iff the raw name has a non-whitespace character and is at most 255 bytes, the amount passes, and the list is non-empty; an all-whitespace name gives "Debt name is required" |
| SharedHandlers.UpdateRecordCheck | src/features/shared_debts/handlers/update.rs:60-92 | Ok iff the debt exists, the caller created it, and every new participant belongs to the debt's group; a missing debt gives "Shared debt not found" |
| SharedHandlers.UpdateCheck | src/features/shared_debts/handlers/update.rs:25-92 | Ok iff both the input and the record checks pass; the caller's own membership is not checked |
| SharedHandlers.UpdatedSharedRow | src/features/shared_debts/handlers/update.rs:100-110 | name and amount are overwritten; id, group, creator and recurring source are kept |
| SharedHandlers.LocateSharedDebt | src/features/shared_debts/handlers/update.rs:60-92 | the lookups return exactly the record checks' verdict and write nothing |
| SharedHandlers.UpdateSharedDebt | src/features/shared_debts/handlers/update.rs:17-139 | a failed guard writes nothing; otherwise the debt is rewritten in place and its participant rows are replaced by the new list, with no other table changed |
| SharedHandlers.UpdateAmountLooserThanCreate | src/features/shared_debts/handlers/update.rs:36-42 | update accepts every positive decimal, create only those with at most two places and at most the cap; where create accepts, both agree |
| SharedHandlers.UpdateKeepsPadding | src/features/shared_debts/handlers/update.rs:26-30 | update stores a name padded with whitespace as typed, where create would store the bare word |
| TransactionHandlers.AmountCheck | src/features/transactions/handlers/create.rs:37-45 | Ok iff the raw text parses to a positive decimal, which is the Ok value; "Invalid amount format" or "Amount must be greater than 0" otherwise |
| TransactionHandlers.RecipientCheck | src/features/transactions/handlers/create.rs:63-84 | Ok iff the recipient belongs to the group and is not the caller; a non-member recipient is reported first |
| TransactionHandlers.CreateCheck | src/features/transactions/handlers/create.rs:37-84 | Ok iff the amount passes, the caller and the recipient belong to the group, and they differ; the amount is checked before any membership |
| TransactionHandlers.NewTransactionRow | src/features/transactions/handlers/create.rs:86-99 | the caller pays the recipient, and the stored amount text reads back as the amount rounded to two places |
| TransactionHandlers.CreateTransaction | src/features/transactions/handlers/create.rs:19-106 | a failed guard writes nothing; otherwise one row is appended with the next rowid, no other table changes, and its id is returned |
| TransactionHandlers.CreatedTransactionReadsBack | src/features/transactions/handlers/create.rs:37-99 | a stored payment is between two distinct group members, and its amount has at most two places and is within half a cent of the amount typed |
| TransactionHandlers.TinyAmountStoredAsZero | src/features/transactions/handlers/create.rs:38-87 | "0.001" passes the positivity check, which comes before rounding, and is stored as 0.00 |
| TransactionHandlers.LocateCheck | src/features/transactions/handlers/update.rs:46-61 | Ok iff the transaction exists in this group and the caller is its payer; a missing one or one of another group gives "Transaction not found" |
| TransactionHandlers.UpdateCheck | src/features/transactions/handlers/update.rs:38-84 | Ok iff the amount, the lookup and the recipient checks pass, in that order; the caller's own membership is not checked |
| TransactionHandlers.UpdatedTransaction | src/features/transactions/handlers/update.rs:86-103 | recipient, rounded amount and description are overwritten; id, group and payer are kept |
| TransactionHandlers.LocateTransaction | src/features/transactions/handlers/update.rs:46-61 | the lookups return exactly the lookup checks' verdict and write nothing |
| TransactionHandlers.UpdateTransaction | src/features/transactions/handlers/update.rs:19-106 | a failed guard writes nothing; otherwise only that row is rewritten |
| TransactionHandlers.CreateKeepsNoSelfPayments | src/features/transactions/handlers/create.rs:79-84 | a create never stores a payment from a user to themselves |
| TransactionHandlers.UpdateKeepsNoSelfPayments | src/features/transactions/handlers/update.rs:79-84 | an update keeps every stored payment between two different users |
| Ledger.Apply | src/features/transactions/handlers/calculations.rs:190-197 | an update keeps the set of member rows: a row that is not there is not created |
| Ledger.ApplyEntry | src/features/transactions/handlers/calculations.rs:190-197 | an update changes exactly one entry, by its delta, and only when the row exists |
| Ledger.ApplyAllAppend | src/features/transactions/handlers/calculations.rs:69-73 | running two update lists one after the other is running their concatenation |
| Ledger.ShareSteps | src/features/transactions/handlers/calculations.rs:183-198 | a debt produces at most two updates per participant |
| Ledger.EmptyRows | src/features/transactions/handlers/calculations.rs:63-67 | the starting matrix has one row per member id and every row is empty |
| Ledger.DebtMatrix.constructor | src/features/transactions/handlers/calculations.rs:63-67 | the matrix starts as one empty row per member |
| Ledger.DebtMatrix.Add | src/features/transactions/handlers/calculations.rs:190-197 | `get_mut` then `entry(..).or_insert(ZERO) +=`: the matrix becomes the pure update of the old one |
| Ledger.DebtMatrix.AddDebt | src/features/transactions/handlers/calculations.rs:176-198 | the loop over participants leaves the matrix equal to the old one with the debt's updates applied in participant order; no participants means no change |
| Ledger.DebtMatrix.AddSharedDebts | src/features/transactions/handlers/calculations.rs:143-202 | the debts pass applies every debt's updates in row order |
| Ledger.DebtMatrix.AddTransactions | src/features/transactions/handlers/calculations.rs:205-243 | the transactions pass applies both updates of every payment in row order |
| Ledger.MirroredKeepsAntisymmetric | src/features/transactions/handlers/calculations.rs:183-198 | adding x to (a, b) and -x to (b, a) keeps the matrix antisymmetric when both rows exist |
| Ledger.ShareStepsPaired | src/features/transactions/handlers/calculations.rs:183-198 | a debt's updates come in mirrored pairs whenever the creator and the participants are members |
| Ledger.SharedStepsPaired | src/features/transactions/handlers/calculations.rs:162-198 | the debts pass is a list of mirrored pairs when every creator and participant is a member |
| Ledger.TransactionStepsPaired | src/features/transactions/handlers/calculations.rs:224-240 | the transactions pass is a list of mirrored pairs when every payer and recipient is a member |
| Ledger.PairedKeepsAntisymmetric | src/features/transactions/handlers/calculations.rs:69-73 | a list of mirrored pairs applied to an antisymmetric matrix leaves it antisymmetric |
| Ledger.ContributionsKeepAntisymmetric | src/features/transactions/handlers/calculations.rs:69-73 | with every party a member, both passes keep what a owes b equal to minus what b owes a |
| Ledger.ApplyTotal | src/features/transactions/handlers/calculations.rs:190-197 | an update moves the total of all entries by its delta when its row exists, and not at all otherwise |
| Ledger.PairedKeepsTotal | src/features/transactions/handlers/calculations.rs:69-73 | a list of mirrored pairs leaves the total of all entries unchanged |
| Ledger.ContributionsKeepTotal | src/features/transactions/handlers/calculations.rs:69-73 | with every party a member, both passes keep the total of all entries |
| Ledger.EmptyRowsBalanced | src/features/transactions/handlers/calculations.rs:63-67 | the starting matrix is antisymmetric and its entries add up to zero |
| Ledger.NonMemberBreaksBalance | src/features/transactions/handlers/calculations.rs:190-197 | a participant without a row is skipped on their side only, so creator 1 is owed 5 by participant 2 while 2 owes nothing: neither antisymmetric nor zero-sum |
| Ledger.ApplyCommute | src/features/transactions/handlers/calculations.rs:190-197 | two updates commute: `+=` on a map of rows does not depend on order |
| Ledger.ApplyAllPermutation | src/features/transactions/handlers/calculations.rs:69-73 | any reordering of an update list gives the same matrix |
| Ledger.ConcatPermutation | src/features/transactions/handlers/calculations.rs:162-198 | reordering the entries reorders their updates |
| Ledger.DebtOrderIrrelevant | src/features/transactions/handlers/calculations.rs:150-198 | the shared-debt rows may come back in any order: the matrix is the same |
| Ledger.TransactionOrderIrrelevant | src/features/transactions/handlers/calculations.rs:212-240 | the transaction rows may come back in any order: the matrix is the same |
| Ledger.PassOrderIrrelevant | src/features/transactions/handlers/calculations.rs:69-73 | running the transactions pass before the debts pass gives the same matrix |
| Ledger.Cents | src/features/transactions/handlers/calculations.rs:132-134 | `round_dp(2)` in cents: within half a cent of the exact amount, ties to the even cent |
| Ledger.UsernameOf | src/features/transactions/handlers/calculations.rs:92-96 | the username of the first member with that id, or the empty string when there is none |
| Ledger.RestrictStep | src/features/transactions/handlers/calculations.rs:83-117 | visiting one more entry adds it to the owing or owed total and to nothing else |
| Ledger.ListsStep | src/features/transactions/handlers/calculations.rs:87-117 | a zero entry adds no relationship; a non-zero one adds exactly one, for that user, Owes when positive and Owed when negative |
| Ledger.Summarize | src/features/transactions/handlers/calculations.rs:83-136 | the balance lists every non-zero entry of the member's row once, with its direction and cents, and its totals and net are the row's positive part, negative part and their difference; the order of the list is left open |
| Ledger.NetIsNegatedRowSum | src/features/transactions/handlers/calculations.rs:119-126 | a member's net is minus the sum of their row |
| Ledger.NetsSumToMinusTotal | src/features/transactions/handlers/calculations.rs:119-126 | the members' nets add up to minus the matrix total |
| Ledger.MirroredRelationships | src/features/transactions/handlers/calculations.rs:98-116 | in a balanced matrix, when a owes b, b's row shows a matching Owed relationship for a with the same cents |
| Ledger.GroupDebtRows | src/features/transactions/handlers/calculations.rs:150-160 | a row is selected iff it belongs to the group |
| Ledger.GroupTransactionRows | src/features/transactions/handlers/calculations.rs:212-222 | a row is selected iff it belongs to the group |
| Ledger.DebtEntries | src/features/transactions/handlers/calculations.rs:162-174 | Ok iff every amount parses; the error is the parse error; each entry has its debt's creator, parsed amount and participants in link order |
| Ledger.TransactionEntries | src/features/transactions/handlers/calculations.rs:224-228 | Ok iff every amount parses; the error is the parse error; each entry has its row's payer, recipient and parsed amount |
| Ledger.RosterIds | src/features/transactions/handlers/calculations.rs:63-67 | the member ids in roster order |
| Ledger.WithRows | src/features/transactions/handlers/calculations.rs:76-81 | the members that have a row, in roster order; all of them when every member has one |
| Ledger.BalancesOf | src/features/transactions/handlers/calculations.rs:75-137 | one balance per member with a row, in roster order, each summarising that member's row |
| Ledger.CalculateUserDebts | src/features/transactions/handlers/calculations.rs:17-140 | a non-member caller gets "You are not a member of this group"; otherwise Ok iff every amount parses, and then one balance per member, in roster order, summarising that member's row of the final matrix |
| Ledger.LedgerBalanced | src/features/transactions/handlers/calculations.rs:63-137 | with every party a member, the final matrix is antisymmetric, its entries add up to zero and so do the members' nets |

## Left out

- Authentication and sessions are not modelled. The caller's id is a parameter, and the "Not authenticated" branches are not modelled. Neither are password hashing and timing padding, which are foreign calls.
- Database failures are not modelled. Every query, insert and commit is taken to succeed, and the scheduler's ignored member-insert failures and per-row commit errors are not modelled. The store is abstract: SQL text, `ON DELETE` cascades and UNIQUE constraints are not modelled.
- `ORDER BY created_at` is modelled as rowid order, which is creation order when no row is deleted. The delete handlers are not modelled. The scheduler's SELECT (src/features/recurring_debts/handlers/scheduler.rs:18-40) has no ORDER BY at all: `Scheduler.ProcessDueRecurringDebts` and `Scheduler.GeneratedFrom` fix a sweep in rowid order, SQLite's usual scan order but not a guarantee, and so fix which rowid each generated debt gets.
- The joins that fetch usernames are a roster parameter, a list of (id, username) pairs in the order the members query returns them.
- The clock is not read. `today` and `now` are parameters, and `updated_at`/`created_at` timestamps are not stored.
- UUID generation for invites is not modelled (randomness).
- Concurrency is not modelled: overlapping cron ticks and the shopping-list broadcast channels. Each handler runs alone, and a transaction's writes happen together.
- The scheduler's logging is not modelled. Neither is the `generated_count` printed at the end, apart from being the returned count.
- Dates and decimals use simplified grammars. A date is exactly `YYYY-MM-DD` with a year of four digits; the `time` crate's full ISO 8601 parser is not modelled. A decimal is `[+-]digits[.digits]`; the full `rust_decimal` grammar is not modelled. The parse errors carry one fixed text each (`RecurringHandlers.DateParseMessage`, `Decimals.ParseErrorMessage`), not the library's varying messages.
- `rust_decimal`'s 28-significant-digit limit is not modelled. Its division rounding and overflow are not modelled either. Ledger amounts are exact reals.
- Shares.SharePerUser: a quotient that is not exact within two places is rounded to cents from the exact rational quotient. `rust_decimal` first cuts the quotient to 28 significant digits, or fewer when 96 bits cannot hold them. The two differ only when that cut moves the quotient across a midpoint between cents. The display with `format!("{:.2}")` on the group pages is not modelled.
- Dates.TextOrder: the agreement holds only for canonical `YYYY-MM-DD` text. The create and update handlers accept any text the `time` crate's lenient ISO 8601 parser takes, such as "20260401", and store it as typed (src/features/recurring_debts/handlers/create.rs:56-60, 71 and 136-144). The model's date grammar admits only the canonical form, so such stored text is not modelled.
- Scheduler.SqlFilterAgrees: the agreement holds only for canonical date columns, which the source does not enforce on storage. With a stored end date "20260401", `end_date >= ?` compares '0' with '-' and keeps selecting the record after it ended, and `should_generate` (scheduler.rs line 125) then rejects it on every sweep. A stored start date "20261101" is never `<=` a 2026 date's text, so the record is skipped until 2027 and then catches up one period per sweep. These paths are not modelled.
- Ledger.CalculateUserDebts: amount strings are stated in cents (`Ledger.Cents`, the value of `round_dp(2)`). The decimal text that `to_string()` prints is not modelled.
- Ledger.Summarize: the order of the relationships follows the iteration order of a `HashMap`, which is unspecified. The contract fixes the set of relationships, not their order.
- Text: `is_alphanumeric`, `is_alphabetic` and `to_lowercase` are exact for ASCII (plus the Kelvin sign for lower-casing). Other Unicode letters count as non-letters.
- Financial.ValidateAmount: the limit is modelled as the code has it, with values above 999,999,999 refused. The documented 999,999,999.99 is not modelled.
- Schedule.NextOccurrence: the `unwrap_or(current_date)` fallbacks are reachable only when the year passes 9999. They are modelled as written, and `Date::MAX` saturation is modelled too.
- The older monolithic handler files duplicate the split handlers and are not modelled. The groups, invites and shopping-list database handlers are not modelled, and neither are the read-only queries apart from the recurring-debt status rule.
- The user interface is not modelled. Neither is floating-point display code (`completion_percentage`, f64 formatting).
