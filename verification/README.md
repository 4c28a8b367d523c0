# Campus card client logic, modelled in Dafny

The campus-card web client is a React front end for a university payment card.
Most of it is markup. Six of its components hold a small piece of pure logic,
and this project models each one as a pure function, or as a function from the
old component state to the new one:

- **Student services search** (`StudentServices.tsx`). The fixed service
  catalogue is filtered in order. The filter uses a category picker ("All" or
  one exact category) and a free-text query. The query is trimmed and
  lowercased. It must occur in the lowercased text made of the name, the
  description and the space-joined tags. A development-time sanity check
  asserts that service ids are distinct and that every "Facilities" service
  shows a cost.
- **Today's cash flow** (`Dashboard.tsx`). The transactions dated today give
  a net total, the sum of inflows and the sum of outflows. The table shows the
  first twenty transactions. Amount cells pick a sign from the amount.
- **Event RSVP** (`EventPage.tsx`). Clicking a card selects an event and
  opens the dialog. An RSVP with a blank name is refused. Otherwise the
  selected event is appended to the RSVP list, unless an event with the same
  id is already there. The calendar then jumps to the event, the dialog
  closes and the name field is cleared. Cost labels read "Free" or "$n".
- **Credit transfer** (`CreditTransfer.tsx`). Submitting first requires a
  recipient, then a positive amount. It then builds a "Sent / Requested /
  Split" message from the transfer mode, posts it as a notification, and
  clears the amount and the recipient.
- **Onboarding form** (`BoardingPage.tsx`). Each input updates its own field.
  The form is accepted only when every field is non-empty after trimming.
- **Notifications** (`NotificationContext.tsx`). The starting list has three
  entries. Adding one prepends a fresh entry.

Shared helpers come in three modules:

- `Text` models the JavaScript string operations the components use:
  `trim` over the full ECMAScript white-space set, ASCII `toLowerCase`,
  `includes`, `startsWith` and `join`.
- `Numerals` models `String(n)` for integers of magnitude below 10^21 and
  `Number(s)` over the ECMAScript StringNumericLiteral grammar: decimals
  with an optional exponent, `Infinity`, and `0x`, `0o` and `0b` integers.
- `Seqs` defines order-preserving subsequences.

Money in the dashboard is an integer number of cents. The transfer amount
stays the string the user typed, and the model interprets it with the
`Number` grammar.

Layout, one module per file: `text.dfy` (Text), `seqs.dfy` (Options, Seqs),
`numerals.dfy` (Numerals), `services.dfy` (StudentServices),
`dashboard.dfy` (Dashboard), `events.dfy` (EventPage), `transfer.dfy`
(CreditTransfer), `boarding.dfy` (Boarding), `notifications.dfy`
(Notifications).

## Model

All source paths are under `campus-card/client/src/components/`; the table
writes them in full.

| member | source | states |
|---|---|---|
| StudentServices.Filter | campus-card/client/src/components/StudentServices.tsx:176-186 | a service is kept iff it is in the chosen category and, when the trimmed query is non-empty, its lowercased name/description/tags text contains the normalised query; each passing service occurs in the result exactly as often as in the input and each failing one not at all; the result is an order-preserving subsequence of the input |
| StudentServices.BlankQueryFiltersByCategoryOnly | campus-card/client/src/components/StudentServices.tsx:178-181 | with a query that is blank after trimming, the result is exactly the services in the category |
| StudentServices.FilterDependsOnNormalForm | campus-card/client/src/components/StudentServices.tsx:178 | two queries with the same trimmed, lowercased form give the same result |
| StudentServices.FilterIgnoresCase | campus-card/client/src/components/StudentServices.tsx:178-182 | lowercasing the query never changes the result |
| StudentServices.FilterIgnoresPadding | campus-card/client/src/components/StudentServices.tsx:178 | adding white space around the query never changes the result |
| StudentServices.FafsaExample | campus-card/client/src/components/StudentServices.tsx:178-182 | the queries "  FAFSA " and "fafsa" select the same services in every category |
| StudentServices.CategoryNarrowsAll | campus-card/client/src/components/StudentServices.tsx:180-183 | for a fixed query, the result for any category is a subsequence of the result for "All" |
| StudentServices.FilterKeepsIdsDistinct | campus-card/client/src/components/StudentServices.tsx:179 | filtering a list with distinct ids yields a list with distinct ids |
| StudentServices.TagQueryFindsService | campus-card/client/src/components/StudentServices.tsx:182-183 | a query that normalises to one of a service's tags, lowercased, finds that service under any category filter it passes |
| StudentServices.NameQueryFindsService | campus-card/client/src/components/StudentServices.tsx:182-183 | a query whose normalised form occurs in a service's lowercased name finds that service under any category filter it passes |
| StudentServices.SanityCheck | campus-card/client/src/components/StudentServices.tsx:189-200 | the single pass over the catalogue succeeds iff all ids are pairwise distinct and every "Facilities" service has a non-empty cost |
| StudentServices.CatalogueIsSane | campus-card/client/src/components/StudentServices.tsx:63-162 | the shipped catalogue satisfies both sanity assertions |
| StudentServices.CatalogueCategoriesListed | campus-card/client/src/components/StudentServices.tsx:172 | every catalogue service belongs to one of the categories the picker offers |
| Dashboard.DayKey | campus-card/client/src/components/Dashboard.tsx:21 | the day key is the first ten characters of the ISO timestamp, or all of it if shorter |
| Dashboard.TodaysTransactions | campus-card/client/src/components/Dashboard.tsx:44 | a transaction is kept iff its date starts with today's key, with each kept transaction occurring as often as in the input; the result is an order-preserving subsequence |
| Dashboard.Inflows | campus-card/client/src/components/Dashboard.tsx:46-48 | keeps every occurrence of a strictly positive amount and nothing else, in input order, so their sum is non-negative |
| Dashboard.Outflows | campus-card/client/src/components/Dashboard.tsx:49-51 | keeps every occurrence of a strictly negative amount and nothing else, in input order, so their sum is non-positive |
| Dashboard.TodaySummary | campus-card/client/src/components/Dashboard.tsx:43-54 | incoming >= 0, outgoing <= 0 and total == incoming + outgoing; with nothing dated today all three are 0 |
| Dashboard.Figures | campus-card/client/src/components/Dashboard.tsx:45-51 | for any list, incoming >= 0, outgoing <= 0 and total == incoming + outgoing |
| Dashboard.TodaySummaryAppend | campus-card/client/src/components/Dashboard.tsx:43-54 | one more transaction dated today adds its amount to the total and to exactly one of incoming (positive) or outgoing (negative); one dated another day changes nothing |
| Dashboard.FiguresAppend | campus-card/client/src/components/Dashboard.tsx:45-51 | one more transaction adds its amount to the total, and to incoming when positive or outgoing when negative |
| Dashboard.SelectKeeps | campus-card/client/src/components/Dashboard.tsx:44-51 | the shared `filter`: a transaction is kept iff the test accepts it, every kept transaction occurs as often as in the input, and the result is an order-preserving subsequence |
| Dashboard.SelectSnoc | campus-card/client/src/components/Dashboard.tsx:44-51 | a transaction appended to the input is appended to the filtered list iff the test accepts it, and otherwise the filtered list is unchanged |
| Dashboard.SumSplitsBySign | campus-card/client/src/components/Dashboard.tsx:45-51 | the sum of any list equals the sum of its inflows plus the sum of its outflows |
| Dashboard.EmptySummary | campus-card/client/src/components/Dashboard.tsx:43-54 | an empty transaction list gives three zero totals |
| Dashboard.StampedTodayCounts | campus-card/client/src/components/Dashboard.tsx:21-44 | a transaction is counted on the day its own timestamp names |
| Dashboard.Latest | campus-card/client/src/components/Dashboard.tsx:56 | the shown rows are the prefix of length min(20, number of transactions) |
| Dashboard.ShortListShownWhole | campus-card/client/src/components/Dashboard.tsx:56 | a list of at most twenty transactions is shown whole |
| Dashboard.RowAmount | campus-card/client/src/components/Dashboard.tsx:231-237 | the sign is "-" iff the amount is negative, and sign with magnitude denotes the amount |
| Dashboard.NetAmount | campus-card/client/src/components/Dashboard.tsx:277-283 | the sign is "+" iff the net total is non-negative, and sign with magnitude denotes the total |
| Dashboard.RowAndNetAgree | campus-card/client/src/components/Dashboard.tsx:277-283 | the row rule and the net rule display every amount identically, including zero as "+" |
| EventPage.SelectEvent | campus-card/client/src/components/EventPage.tsx:35-38 | clicking a card selects that event and opens the dialog, leaving the RSVP list alone |
| EventPage.AddRsvp | campus-card/client/src/components/EventPage.tsx:46-52 | an event whose id is already listed leaves the list unchanged; otherwise it is appended after the existing entries; distinct ids stay distinct |
| EventPage.HandleRsvp | campus-card/client/src/components/EventPage.tsx:40-56 | a blank name is refused with the page unchanged; otherwise the RSVP list is updated by AddRsvp, the calendar moves to the event's start, the dialog closes and the name is cleared |
| EventPage.AddRsvpIdempotent | campus-card/client/src/components/EventPage.tsx:47-51 | adding the same event twice equals adding it once |
| EventPage.RepeatRsvpKeepsList | campus-card/client/src/components/EventPage.tsx:47-51 | an RSVP for an event already in the list leaves the list unchanged |
| EventPage.RsvpsStayDistinct | campus-card/client/src/components/EventPage.tsx:46-52 | any run of RSVPs keeps the ids of the RSVP list pairwise distinct |
| EventPage.CostLabel | campus-card/client/src/components/EventPage.tsx:118 | the label is "Free" iff the cost is 0; otherwise it is "$" followed by the canonical decimal numeral of the cost (no leading zero, "-" only when negative), which reads back as the cost |
| CreditTransfer.Submit | campus-card/client/src/components/CreditTransfer.tsx:133-157 | without a recipient, or with an empty or non-positive amount, the state is unchanged; otherwise one notification with the mode's message is added and the amount and recipient are cleared; tab and mode never change |
| CreditTransfer.MessageRoundTrip | campus-card/client/src/components/CreditTransfer.tsx:143-151 | for an amount without spaces, the message parses back into its kind (send, request, split), amount and recipient, so different submissions give different messages |
| CreditTransfer.WholeAmountAccepted | campus-card/client/src/components/CreditTransfer.tsx:138 | an amount typed as a whole number passes validation iff it is not 0 |
| CreditTransfer.NegativeAmountRefused | campus-card/client/src/components/CreditTransfer.tsx:138 | an amount typed as a minus sign followed by digits is refused |
| CreditTransfer.ScientificAmountRefused | campus-card/client/src/components/CreditTransfer.tsx:138 | an amount in exponent form such as "2e3" is refused iff its digits before the exponent are all zero, so "0e5" is refused |
| CreditTransfer.NegativeScientificAmountRefused | campus-card/client/src/components/CreditTransfer.tsx:138 | a negative amount in exponent form such as "-1e5" is refused |
| CreditTransfer.InfinityAccepted | campus-card/client/src/components/CreditTransfer.tsx:138 | an amount that trims to "Infinity" passes the check |
| CreditTransfer.MinusInfinityRefused | campus-card/client/src/components/CreditTransfer.tsx:138 | an amount that trims to "-Infinity" is refused |
| CreditTransfer.HexAmountRefused | campus-card/client/src/components/CreditTransfer.tsx:138 | a hexadecimal amount "0x..." is refused iff its value is zero |
| CreditTransfer.InitialFormRefused | campus-card/client/src/components/CreditTransfer.tsx:134-137 | submitting the form as first rendered, with no recipient, is refused and changes nothing |
| CreditTransfer.SubmitAddsOneFresh | campus-card/client/src/components/CreditTransfer.tsx:153 | an accepted submit adds exactly one notification and exactly one fresh one |
| Boarding.HandleChange | campus-card/client/src/components/BoardingPage.tsx:20-25 | the edited field now holds the typed value; every other field and the submitted flag are unchanged |
| Boarding.HandleSubmit | campus-card/client/src/components/BoardingPage.tsx:27-41 | accepted iff every field is non-empty after trimming; a refusal changes nothing; an acceptance sets submitted and keeps the form |
| Boarding.FilledMeansEveryField | campus-card/client/src/components/BoardingPage.tsx:31 | checking all form values equals checking each of the four named fields |
| Boarding.InitialPageRefused | campus-card/client/src/components/BoardingPage.tsx:11-35 | submitting the initial empty form is refused |
| Boarding.BlankFieldRefused | campus-card/client/src/components/BoardingPage.tsx:20-35 | after typing a blank value into any field, submitting is refused |
| Notifications.Add | campus-card/client/src/components/NotificationContext.tsx:32-37 | the list grows by one; the new head carries the given text and id and is fresh; the tail is the old list; the fresh count grows by one |
| Notifications.AddsCountFresh | campus-card/client/src/components/NotificationContext.tsx:32-37 | n adds grow the list by n and the fresh count by n |
| Notifications.InitialCounts | campus-card/client/src/components/NotificationContext.tsx:22-30 | the initial list has three notifications, two of them fresh |
| Text.TrimIdempotent | campus-card/client/src/components/StudentServices.tsx:178 | trimming a trimmed string changes nothing |
| Text.TrimEmptyIffBlank | campus-card/client/src/components/BoardingPage.tsx:31 | a string trims to empty iff every character is white space |
| Text.TrimCommutesWithLower | campus-card/client/src/components/StudentServices.tsx:178 | trimming then lowercasing equals lowercasing then trimming |
| Text.TrimIsInfix | campus-card/client/src/components/StudentServices.tsx:178 | the trimmed string occurs in the original at some offset |
| Numerals.IntToString | campus-card/client/src/components/EventPage.tsx:118 | the numeral is canonical: at least one digit, no leading zero, and a leading "-" iff the integer is negative |
| Numerals.CanonicalRoundTrip | campus-card/client/src/components/EventPage.tsx:118 | every canonical numeral is what printing its own value produces |
| Numerals.CanonicalIntUnique | campus-card/client/src/components/EventPage.tsx:118 | two canonical numerals with the same value are the same text, so each cost has exactly one label |
| Numerals.ParseIntToString | campus-card/client/src/components/EventPage.tsx:118 | the decimal numeral of every integer reads back as that integer |
| Numerals.ToNumberOfNatString | campus-card/client/src/components/CreditTransfer.tsx:138 | the number read from a natural's numeral is that natural |
| Numerals.ToNumberOfScientific | campus-card/client/src/components/CreditTransfer.tsx:138 | digits, `e`, digits reads as the first number times ten to the power of the second |
| Numerals.ToNumberOfNegativeScientific | campus-card/client/src/components/CreditTransfer.tsx:138 | a minus sign before such a literal negates its value |
| Numerals.ToNumberOfHex | campus-card/client/src/components/CreditTransfer.tsx:138 | `0x` followed by hexadecimal digits reads as their value |

## Left out

- `BalanceAnalysisPage.tsx` holds only hard-coded and randomly generated chart
  data. It has no period filter, selection, aggregation or CSV export. The
  model follows the code and has no balance-analysis module.
- Server code (`ingest.py`, `reset.py`, `models.py`, `app.py`) is database,
  CSV and HTTP I/O. The "twenty most recent" ordering is a database query; the
  dashboard model takes the list in whatever order the server returned it.
- The dashboard `fetch`, loading and error state, every `alert` and
  `console` call, routing and Auth0 are side effects and are not modelled. The
  text of the alerts is not kept; `HandleRsvp` and `Submit` return an outcome
  value in their place.
- Display formatting is not modelled: `toFixed(2)`, `toLocaleString` and the
  calendar tile classes. `RowAmount` and `NetAmount` return a sign and a
  magnitude instead of formatted text.
- The wall clock is a parameter. Today's ISO timestamp is passed to `DayKey`,
  and `Date.now()` ids are passed to `Notifications.Add` and
  `CreditTransfer.Submit`.
- `Navbar.tsx`, `AuthSwitcherCard.tsx`, `WelcomePage.tsx`, `ExampleSection.tsx`,
  `App.tsx` and `main.tsx` hold only routing, Auth0 calls and display toggles:
  the sign-in/sign-up switch, the page `App.tsx` picks from the Auth0 state, and
  the navbar's dropdown. The navbar badge counts the fresh entries of its own
  hard-coded copy of the initial notifications, so `Notifications.Add` never
  changes it; the model's `Notifications.InitialCounts` covers the same three
  entries. `tailwind.config.cjs`, the icons inside the catalogue entries and the
  `EVENTS` list of the services page, which nothing filters, are left out too.
- Dashboard.TodaySummary: amounts are integer cents, not JavaScript
  floating-point numbers, so total == incoming + outgoing holds exactly here.
  With binary floating point the two sides can differ by rounding.
- EventPage.HandleRsvp: the calendar date is the event's `start_time` text,
  not a parsed `Date`. When no event is selected, the source throws on
  `selectedEvent.name` before changing any state. The model returns the
  `NoEventSelected` outcome with the page unchanged.
- CreditTransfer.Submit: `Number(amount)` follows the full literal grammar,
  but its value is an exact real, not a double. Rounding is therefore not
  modelled. In JavaScript "1e-400" underflows to 0 and is refused; here it is
  a small positive value and is accepted. Text outside the grammar is NaN,
  which passes the `<= 0` test in both, so such an amount is accepted.
- Numerals.IntToString: prints every integer in plain decimal. JavaScript
  switches to exponent form at magnitude 10^21, so `EventPage.CostLabel` is
  exact only for costs below that.
- Text.Lower: lowercases ASCII letters only. Full Unicode case mapping is not
  modelled.
- Boarding.HandleChange: the edited field is one of the four form fields.
  An input with any other name would add a fifth key in the source, but the
  page renders only these four inputs.
