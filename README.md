# ynab-nubank-sync, the normalising core

`sync.py` reads two feeds of a bank — the credit-card event feed and the
paginated checking-account feed — turns each item into a ledger transaction
request, and submits the checking records followed by the credit records as
one batch. This project models the part of `sync.py` that decides what is
submitted:

- `collect_credit_stmts` (module `Credit`): the card events whose raw date
  passes the start-date predicate, classified by category. An anticipation
  event becomes one discount record parsed from its description. A purchase
  without charge details becomes one record dated three hours before its
  timestamp. A purchase settled in several charges becomes one record per
  charge, sorted by charge index. A malformed anticipation description or a
  null `details` aborts the run.
- `collect_checking_stmts` (module `Checking`): `checking_stmt_to_tx` turns an
  account node into a record or discards it (sign rules from tags or title
  phrases, payee, date correction from the displayed day). The paginated loop
  reads page after page, following the cursor of each page's last edge, and
  stops at the first record dated outside the predicate or at the page that
  reports no next page.
- The closures of `sync` (module `Sync`): `after_starting_date`,
  `before_today` and `cap_date`, the manual-adjustment list of credit records
  dated after today, and the batch of checking records followed by the capped
  credit records.

Supporting modules: `Text` gives the Python string operations the core uses
(`split`, `strip`, `replace`, `in`, `lower`, `int()`, `str()`, `{:02}`) with
Python's semantics over the text the core handles (ASCII digits, Latin-1
letters). `strip()` and `int()` skip different white space: `strip()` drops
the ASCII separators U+001C-U+001F and `int()` does not skip them. `Dates`
gives calendar dates, the previous day and the three-hour shift. `Records`
gives the transaction record, the faults that abort a run and the `Result`
type.

Each collector is a method with the source's loop, proved equal to a
recursive function that specifies the whole feed (`CollectCredit` against
`CreditFeed`, `CollectChecking` against `CheckingFrom`). The lemmas then
state what the source promises about those functions: early termination is
a take-while of the served records, failure is all-or-nothing, split ids are
unique, the charge sort is a stable permutation, capping moves the dates of
future records to today, and so on.

Behaviours of the code worth knowing, which the model keeps as written:

- Split-purchase ids are `<id without dashes>-<i>` with `str(i)`, not
  zero-padded (`sync.py:80`). They are still pairwise distinct
  (`Credit.SplitImportIdsDistinct`).
- The anticipation amount is `int(text after "R$", commas removed) * 10`
  (`sync.py:53`, `sync.py:57`): `R$12,34` gives 12340, not 1234, and a
  leading `-` gives a negative amount. The amount is not forced non-negative.
- The checking sign rules multiply by `-1` or `+1` (`sync.py:108-121`). They
  flip or keep the feed's sign; they do not force it.
- The bill-payment payee is the literal `"Fatura"` (`sync.py:115`).
- The credit filter reads the unshifted date (`sync.py:46`) while the record
  carries the date three hours earlier (`sync.py:50`). A purchase made before
  03:00 on the import date is therefore submitted with the previous day's
  date (`Sync.CreditRecordBeforeImportDate`).
- A checking page without edges raises at `feed['edges'][-1]` (`sync.py:145`),
  even when it reports no next page. The model returns `EmptyPage`.
- `payee_name, *_ = ....strip()` (`sync.py:54`) unpacks a string, so an
  anticipation payee that is empty once stripped raises. The model returns
  `EmptyPayee`. The payee actually recorded is the one recomputed at
  `sync.py:58`.
- A `details` that is JSON null makes `.get('charges')` raise (`sync.py:65`).
  The model returns `DetailsNull`.

## Model

| member | source | states |
|---|---|---|
| Credit.EventsInRange | sync.py:46 | an event is kept exactly when it is in the feed and its raw date passes the predicate; there are never more events than in the feed |
| Credit.EventsInRangeConcat | sync.py:46 | the filter keeps order and multiplicity: one event is kept exactly when its raw date passes, and the filter of a concatenation is the concatenation of the filters |
| Credit.SortByIndexIsStableSort | sync.py:77 | the sorted charges ascend by index, are a permutation of the statement's charges, and charges with equal index keep their statement order (stable, like Python's `sorted`) |
| Credit.SortByIndex | sync.py:77 | specification function with no contract of its own: an insertion sort on the charge index, proved a stable sort by `SortByIndexIsStableSort` |
| Credit.SplitImportIdsDistinct | sync.py:80 | two different charge positions get different import ids, although the suffix is not zero-padded |
| Credit.SplitImportIdIsNew | sync.py:80 | no split import id equals the event's own id, which an unsplit purchase would use |
| Credit.ChargeTxs | sync.py:78-86 | one record per charge |
| Credit.ChargeTxsIds | sync.py:78-80 | the records of one split purchase have pairwise distinct ids, none equal to the event id |
| Credit.ChargeRecords | sync.py:78-86 | the loop over the sorted charges yields exactly `ChargeTxs`: one record per charge, in order, numbered from 1 |
| Credit.SplitPurchaseRecords | sync.py:74-86 | a purchase with charges yields exactly one record per statement charge, in stable ascending index order; record i has id `<id without dashes>-<i>`, memo `ii/NN`, the charge's own post date, ten times the charge amount negated, and the event description as payee; the ids are unique and new |
| Credit.EventClassification | sync.py:50-73 | anticipation events yield their parsed record or its fault; categories other than purchases yield nothing; a purchase with null details raises; a purchase without charges yields one record of ten times its amount, negated, dated three hours before its timestamp |
| Credit.EventTxs | sync.py:50-86 | specification function with no contract of its own: the records of one event or its fault; stated case by case by `EventClassification` and `SplitPurchaseRecords` |
| Credit.MissingMarkerIsFault | sync.py:52 | a description without `R$` does not unpack into two parts and aborts the run; Python's `ValueError` carries no event id, while the model's fault also names the event |
| Credit.AnticipationFields | sync.py:52-58 | a readable description is `before + "R$" + after` with exactly one marker; the amount is ten times the integer after it with commas removed; the payee is the text before the marker cut at the first `Você ganhou um desconto` (no occurrence starts before the cut, one starts right at it when the cut is shorter), stripped, non-empty, with no white space at either end |
| Credit.AnticipationOfOneMarker | sync.py:52-58 | for a description `before + "R$" + after` with one marker: when the text after it, commas removed, is not an integer the run aborts with `BadAmount`; when it reads as `v`, the run aborts with `EmptyPayee` if the payee (the text before the marker cut at `Você ganhou um desconto`, stripped) is empty, and otherwise yields that payee and amount `v * 10` |
| Credit.AnticipationReadable | sync.py:52-58 | a one-marker description whose amount reads as `v` and whose payee is not empty is accepted, with that payee and ten times `v`, whatever commas and discount clause it holds |
| Credit.DiscountedAnticipation | sync.py:52-58 | `Loja XYZ Você ganhou um desconto de R$12,34` reads as payee `Loja XYZ` and amount 12340 |
| Credit.MarkerSplit | sync.py:52 | `<payee>R$<digits>` with a marker-free payee splits into exactly the payee and the digits |
| Credit.AnticipationRoundTrip | sync.py:52-58 | a description written as `<payee>R$<n>` with a trimmed payee that contains neither the marker nor the discount clause reads back as that payee and amount `10 * n` |
| Credit.ParseAnticipation | sync.py:52-58 | specification function with no contract of its own: split on the marker, `int` of the part after it without commas times 10, the part before it cut at the discount clause and stripped; its meaning is stated by `AnticipationFields` (fields of an accepted description), `AnticipationOfOneMarker` and `AnticipationReadable` (when a description is accepted), `MissingMarkerIsFault` and `AnticipationRoundTrip` |
| Credit.PurchaseTx | sync.py:66-73 | specification function with no contract of its own: the record of a purchase without charges; stated by `EventClassification` (event id, ten times the amount negated, description as payee, title as memo, date three hours before the timestamp) |
| Credit.CreditTxsFrom | sync.py:49-86 | specification function with no contract of its own: the records of the events in order, or the fault of the first that raises; stated by `CreditTxsConcat` and `CreditAllOrNothing` |
| Credit.CreditTxsConcat | sync.py:49-86 | a single event yields exactly its own records or fault, and the events `a + b` yield the records of `a` followed by those of `b`, or the fault of `a` when `a` raises |
| Credit.CreditFeed | sync.py:45-86 | specification function with no contract of its own: the events in range read in order; stated by `CreditFeedConcat`, `CreditAllOrNothing` and `CollectCredit` |
| Credit.CreditFeedConcat | sync.py:45-86 | the feed `a + b` yields the records of `a` followed by those of `b`, or the fault of `a` when `a` raises: range filter and reading both go event by event |
| Credit.CreditAllOrNothing | sync.py:49-86 | the feed yields records exactly when no event in range raises, and otherwise fails with the fault of the first event that raises |
| Credit.EventRecords | sync.py:50-86 | the loop body over one event, the charges walked in sorted order, yields exactly the records `EventTxs` specifies |
| Credit.CollectCredit | sync.py:45-86 | the generator run to completion yields exactly `CreditFeed`: the records of the events in range, in order, or the first fault |
| Checking.FirstLineIsFirstLine | sync.py:94 | the payee taken from `detail` is a prefix of it without a line break, followed by a line break or the end |
| Checking.NodeRecord | sync.py:90-129 | the step-by-step conversion of one node gives exactly `NodeToTx` |
| Checking.NodeToTx | sync.py:90-129 | specification function with no contract of its own: `checking_stmt_to_tx` as one expression; stated by `NodeDiscarded`, `NodeRecordFields`, `NodePayee` and `NodeSign` |
| Checking.NodeDiscarded | sync.py:91-113 | a node is discarded exactly when it has no amount, or has null tags and a title matching neither an outgoing nor an incoming phrase |
| Checking.NodeDate | sync.py:97-102 | specification function with no contract of its own: `postDate`, or the day before it when the displayed day differs; stated by `NodeDateCorrection` |
| Checking.NodeDateCorrection | sync.py:97-102 | the record date is `postDate` exactly when the displayed day agrees with it; otherwise it is a valid date whose next day is `postDate` |
| Checking.NodeRecordFields | sync.py:93-129 | a kept node's record has the node id, the title as memo, the account, the feed amount or its negation; its date is `postDate` exactly when the displayed day agrees, and otherwise the calendar day before |
| Checking.NodePayee | sync.py:94-116 | the payee is the title for untagged nodes, `Fatura` for bill payments, and otherwise the first line of `detail` |
| Checking.NodeSign | sync.py:104-121 | untagged: an outgoing title phrase negates and wins over an incoming one, an incoming phrase alone keeps the sign; tagged: `payments` negates whatever other tags are present; otherwise `money-in` keeps the sign, `money-out` without `money-in` negates, and any other tags keep it |
| Checking.InvestmentIsOutgoing | sync.py:104-109 | an untagged `Aplicação RDB` movement of 50 (50000 thousandths) is recorded with amount -50000 and the title as payee |
| Checking.PageRecords | sync.py:139 | a page yields at most one record per edge |
| Checking.TakeWhile | sync.py:137-142 | the records emitted before the generator returns are a prefix, all pass the predicate, and the next record fails it |
| Checking.ScanPage | sync.py:137-142 | the scan of one page emits exactly the longest prefix of its records that passes the predicate, and reports a stop exactly when that prefix is shorter than the page's records |
| Checking.CheckingFromIsTakeWhile | sync.py:131-145 | a successful run yields exactly the served records (all pages up to the one with no next page) up to the first record dated outside the predicate |
| Checking.CheckingFrom | sync.py:131-145 | specification function with no contract of its own: the records a run from page `k` yields, or its fault; stated by `CheckingFromIsTakeWhile`, `CheckingFromFails`, `EmptyLastPageFails` and `CheckingFromSucceeds` |
| Checking.CheckingFromFails | sync.py:144-145 | a run fails only with `EmptyPage`, for a page without edges that is the last page the run fetches (`k + Fetches - 1`) |
| Checking.EmptyLastPageFails | sync.py:144-145 | conversely, a run whose last fetched page has no edges fails with `EmptyPage` for that page, whether or not it reports a next page, because the last edge's cursor is read in any case |
| Checking.CheckingFromSucceeds | sync.py:131-145 | a run succeeds when every page it fetches (pages `k` to `k + Fetches - 1`) has edges |
| Checking.CheckingFeed | sync.py:131-145 | specification function with no contract of its own: the run from page 0 with the node conversion of the account; stated through `CheckingFrom` and `Sync.CheckingAfterImportDate` |
| Checking.Fetches | sync.py:134-145 | a run from a page that exists fetches at least one page and no more than the pages that remain; the count stops at the first page where the loop stops (`StopsAt`: a record fails the predicate, the page has no edges, or it reports no next page) |
| Checking.FetchesBound | sync.py:134-145 | a run fetches at least one page and none past the first page that reports no next page; every page fetched before the last has edges, reports a next page and has all its records kept |
| Checking.FetchesStop | sync.py:137-145 | in a feed that ends, the last page a run fetches is one where the loop stops: a record on it fails the predicate, it has no edges, or it reports no next page |
| Checking.RequestsCursors | sync.py:132-145 | the first fetch passes no cursor and every later fetch passes the cursor of the last edge of the page fetched before it |
| Checking.ReadPage | sync.py:134-145 | one pass of the loop either leaves the loop ready for the next fetch (what was yielded so far followed by the run from the next page is the whole run, the next cursor is the last edge's, one more cursor requested) or ends it with the whole run's result after exactly as many fetches as the run makes |
| Checking.CollectChecking | sync.py:131-145 | the paginated loop yields exactly `CheckingFrom` from page 0, and the cursors it passes are none for the first fetch and then the last edge's cursor of the previous page, one per fetched page |
| Dates.PrevDay | sync.py:102 | for a representable date other than 0001-01-01, the result is a representable earlier date whose next day is the input |
| Dates.ShiftedDate | sync.py:50 | the date three hours earlier is the same day exactly when the hour is at least 3, and otherwise the day immediately before |
| Text.Split | sync.py:52 | `split` yields at least one part and the first part is a prefix of the text |
| Text.SplitJoin | sync.py:52 | joining the parts of a split with the separator gives back the text |
| Text.SplitPartsAvoidSep | sync.py:52 | no part of a split contains the separator |
| Text.SplitWithoutSep | sync.py:54 | a text without the separator splits into itself alone |
| Text.SplitHead | sync.py:54 | the first part of a split is the text before the first occurrence of the separator: no occurrence starts inside it, and one starts right after it when it is shorter than the text |
| Text.StripIsTrimmedSlice | sync.py:58 | `strip()` keeps a slice of the text that is empty or starts and ends with a non-space character, and drops only white space around it |
| Text.StripTrimmed | sync.py:58 | a text that neither starts nor ends with white space is its own strip |
| Text.Remove | sync.py:53 | `replace(c, '')` leaves no `c`, and leaves a text without `c` unchanged |
| Text.RemoveConcat | sync.py:80 | removing a character distributes over concatenation |
| Text.NatToString | sync.py:80 | `str(n)` is non-empty decimal digits without a leading zero |
| Text.NatToStringInjective | sync.py:80 | different numbers print differently |
| Text.Pad2 | sync.py:84 | `{n:02}` is digits with value `n`, exactly two of them below 10, and `str(n)` from 10 on |
| Text.ParseIntRoundTrip | sync.py:53 | `int(str(n)) == n` |
| Text.ParseNegativeRoundTrip | sync.py:53 | `int('-' + str(n)) == -n` |
| Text.ParseInt | sync.py:53 | specification function with no contract of its own: `int()` over ASCII digits (surrounding white space of `int()`, one optional sign, digits with single underscores); stated by `PaddedDigits`, `UnderscoredDigits`, `BlankIsNotNumber`, `ParseIntAccepted`, `ParseIntRoundTrip`, `ParseNegativeRoundTrip` and `SeparatorIsNotIntSpace` |
| Text.PaddedDigits | sync.py:53 | digits with value `v`, leading zeros allowed, with `int()` white space on either side, read as `v`; with a `+` before them as `v`; with a `-` before them as `-v` |
| Text.UnderscoredDigits | sync.py:53 | digits `a` and `b` joined by a single underscore read as the value of the digits `a + b` |
| Text.BlankIsNotNumber | sync.py:53 | a text of `int()` white space only, the empty text included, is rejected (`int()` raises `ValueError`) |
| Text.ParseIntAccepted | sync.py:53 | conversely, every accepted text is `int()` white space, an optional `+` or `-`, a digit group (digits with single underscores between them) and `int()` white space, and its value is the group's, negated under `-` |
| Text.SeparatorIsNotIntSpace | sync.py:53 | U+001C is white space for `strip()`, yet `int()` of U+001C followed by digits fails: `int()` skips less white space than `strip()` drops |
| Text.Lower | sync.py:106 | `lower()` keeps the length of the text |
| Sync.AfterStartingDate | sync.py:153-154 | the start-date predicate holds exactly for dates not before the import date, the import date included |
| Sync.BeforeToday | sync.py:156-157 | a record passes exactly when today is not before its date, so a record dated today passes |
| Sync.CapDate | sync.py:159-165 | a record is returned unchanged exactly when it is dated today or earlier; otherwise it is the same record dated today; the result is dated today or earlier and never later than the original |
| Sync.CapAll | sync.py:182 | capping keeps the number of credit records |
| Sync.CapAllProperties | sync.py:182 | record i of the capped list is credit record i when that is dated today or earlier, and otherwise credit record i dated today; capping twice is capping once |
| Sync.AdjustmentsAreFutureRecords | sync.py:181 | the adjustment list holds exactly the credit records dated after today, and is empty exactly when capping changes nothing |
| Sync.AdjustDateTxs | sync.py:181 | specification function with no contract of its own: the comprehension over the credit records; stated by `AdjustmentsAreFutureRecords` and `AdjustmentsConcat` |
| Sync.AdjustmentsConcat | sync.py:181 | the adjustment list keeps order and multiplicity: one record is listed exactly when it is dated after today, and the list of a concatenation is the concatenation of the lists |
| Sync.AssembleBatch | sync.py:181-189 | the batch is the checking records unchanged followed by the credit records in order, each one dated today or earlier kept as it is and any other dated today; the adjustment list holds exactly the future-dated credit records |
| Sync.Assemble | sync.py:181-189 | specification function with no contract of its own: the batch (checking records, then capped credit records) and the adjustment list; stated by `AssembleBatch` |
| Sync.SyncRun | sync.py:178-189 | specification function with no contract of its own: checking feed first, then credit feed, the first fault wins, otherwise `Assemble`; the `Sync` method is proved equal to it |
| Sync.CheckingAfterImportDate | sync.py:178 | read with `after_starting_date`, the checking feed yields the served records up to the first one dated before the import date, so every checking record is dated on or after it |
| Sync.Sync | sync.py:178-189 | the run collects checking first, then credit, stops at the first fault, and otherwise hands over the assembled batch and adjustment list of `SyncRun` |
| Sync.CreditRecordBeforeImportDate | sync.py:46-50 | a purchase made at 01:00 on the import date passes the filter and is recorded on the day before the import date |

## Left out

- Network and I/O: authentication with the bank, the certificate file, configuration loading, the ledger submission, its response, and the printed count and warning lines are not modelled. The feeds are parameters: `pages` is the sequence of checking pages, where the k-th fetch answers `pages[k]`; `cardFeed` is the card events; `statement` stands for the statement-details lookup of a split purchase.
- The clock: `datetime.today()` is the parameter `today`, taken as a date. The source compares against the current time, which for a date string at midnight is the same comparison.
- Pairing the adjustment list with the created transactions after submission (`sync.py:193-194`) depends on the ledger's response and is not modelled.
- Floating point: the checking amount `int(stmt['amount'] * 1000)` is taken as an integer number of thousandths in `AccountNode.amount`, so rounding of the float product is not modelled.
- A node without `detail`, `title`, `postDate`, `displayDate` or `tags` keys, a null amount, or a card event without the keys it reads raises `KeyError`/`TypeError` in the source. The model's records always have these fields. Only the missing `amount` key and the null `details` are modelled.
- Timestamp parsing: a card event's `time` is a date plus an hour of the day (`CardTime`). ISO-8601 parsing, time zones and minutes are not modelled. The three-hour shift depends only on the hour.
- Dates.PrevDay: the previous day of 0001-01-01 raises `OverflowError` in Python, at `sync.py:102` and at the three-hour shift of `sync.py:50`, which aborts the run; the model's result there is not a valid date and no lemma speaks of it.
- The day token of `postDate` is modelled as `Pad2(day)`, the two-digit day of a `YYYY-MM-DD` string; date strings themselves are not modelled.
- Text.Lower: `str.lower()` is modelled only over the Latin-1 range, which covers the phrases the source matches; other characters are kept unchanged.
- Checking.CollectChecking: requires `Ends(pages)`, i.e. some page reports no next page. This loses no run that ends: a run that returns early at a record dated before the import date has fetched finitely many pages, and appending a page that reports no next page after them represents it.
- Checking.CollectChecking: the source builds each page's records with a list comprehension before scanning them. Because conversion has no effects in the model, converting node by node during the scan gives the same records.
- Credit.ChargeTxs, Sync.CapAll, Checking.PageRecords: their own contracts state only lengths. Their contents are stated by the lemmas `SplitPurchaseRecords`, `CapAllProperties` and `PageRecordsSnoc`/`PageRecordsConcat` (a page's records are those of its edges, edge by edge, in order).
- Text.Lower: only its length is stated. One worked instance, the title `Aplicação RDB` lowered to contain `aplica`, is proved inside `InvestmentIsOutgoing`.
- Text.ParseInt: accepts ASCII digits only. Python's `int()` also accepts the other Unicode decimal digits (Arabic-Indic, fullwidth and so on); for such an amount the model reports `BadAmount` where the source parses a number.
