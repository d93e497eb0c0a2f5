# DVSA autofill userscript: the decision core

The userscript `dvsa-autofill.user.js` fills in the DVSA driving-test booking
pages one page load at a time. Most of it drives the DOM. This project models
the parts that make decisions:

- **Reading a slot time.** `parseTimeToHour` looks for the leftmost match of
  `(\d{1,2}):(\d{2})(am|pm)` in a slot's text. The match is case-insensitive.
  It returns the 24-hour hour, or nothing
  (`TimeParse`). The regular-expression search is written out: two hour
  digits are tried before one, `\d` is ASCII, and only the ASCII letters fold
  to `a`, `m` and `p`.
- **Choosing a slot.** This is `scanAndSelectBestSlot` (`SlotSelection`). A
  loop over the visible slots stops at the first slot whose hour is at or
  after the preferred hour. Otherwise slot 0 is taken. It reports
  `hasGoodSlots`.
- **Choosing a date.** This is `pickAvailableDate` (`DateSelection`). The
  bookable cells are filtered to the dates strictly after the earliest date.
  These are tried in order, scanning each one's slots. If none has a good
  slot, the first one is clicked again. Each try runs the full slot scan, so
  the model also records, per click, whether that scan went on to the alert
  and the search for the Continue button.
- **The search-step flag.** The `load` dispatcher and `startSearchStep`
  (`SearchStep`) keep one boolean in local storage. It makes the postcode
  search run at most once per booking session, and it is cleared on the
  first page.

The slots, dates and page contents are inputs to the model. A slot is its
time text after `trim()` (`Option<string>`, with `None` when the label or
time element is missing). A bookable cell is its day number (`Option<int>`,
with `None` when the link or its date is missing or unreadable). The slots a date shows once it
is clicked are given by a function parameter `slotsOn`. A page is its body id
plus the few elements the dispatcher and search step look for.

The code and the configuration comment disagree on one point, and the model
follows the code. `earliestDate` is commented "Don't book before this date".
But `pickAvailableDate` keeps only dates strictly after it
(`date > minDate`), so a slot on the earliest date itself is never chosen.
`DateSelection.IsSuitable` uses the strict comparison.

The hour digits are not checked against the clock face. "13:00pm" reads as
25 and "0:15pm" as 12 (`TimeParse.UncheckedHourDigits`). The contract of
`TimeParse.To24Hour` states the range 0..23 for clock hours 1..12; other
digits may land in range or not. The model assumes slot times are written as
12-hour clock faces such as "9:05am" (`TimeParse.ClockText`); the source
itself only fixes the pattern.

## Model

| member | source | states |
|---|---|---|
| `Seqs.FirstIndex` | dvsa-autofill.user.js:157-183 | the index found satisfies the test and nothing before it does; None exactly when no element does |
| `TimeParse.MeridiemAt` | dvsa-autofill.user.js:104 | `(am|pm)` with the `i` flag: `a`/`A` or `p`/`P` followed by `m`/`M` is recognised, as am or pm respectively, and nothing else is |
| `TimeParse.MatchAtCases` | dvsa-autofill.user.js:104-111 | the pattern matches at a position exactly when two digits or one digit, a colon, two digits and am/pm start there; two hour digits d1 d2 give hour 10*d1+d2, one digit d gives d, and the minutes are the digits after the colon |
| `TimeParse.FindMatchFrom` | dvsa-autofill.user.js:104 | the match found is the leftmost one: it starts where the pattern matches, and it matches nowhere earlier; None means it matches nowhere |
| `TimeParse.To24Hour` | dvsa-autofill.user.js:109-118 | for a clock hour 1..12 the result is an hour of the day 0..23, in the afternoon half exactly for pm, and equal to the clock hour modulo 12 |
| `TimeParse.ParseTimeToHour` | dvsa-autofill.user.js:99-102 | an absent or empty text reads as no hour |
| `TimeParse.ParseTimeToHourMeaning` | dvsa-autofill.user.js:104-120 | no hour exactly when the pattern occurs nowhere in the text; otherwise the hour is the converted hour of the leftmost match |
| `TimeParse.ParseClockText` | dvsa-autofill.user.js:109-120 | a clock time h:mm after digit-free text parses to h+12 for pm (12pm stays 12), 0 for 12am, and h for other am hours; minutes and trailing text do not matter |
| `TimeParse.ClockFaceRoundTrip` | dvsa-autofill.user.js:113-120 | every hour of the day 0..23, written on its 12-hour clock face with any minutes, parses back to itself |
| `TimeParse.UncheckedHourDigits` | dvsa-autofill.user.js:104-120 | "13:00pm" gives 25, "0:15pm" gives 12, and "14:30" (no am/pm) gives None |
| `TimeParse.CaseAndLeadingZero` | dvsa-autofill.user.js:104-120 | "10:00AM" gives 10, "9:45Pm" gives 21 and "05:30am" gives 5 |
| `SlotSelection.BestSlot` | dvsa-autofill.user.js:157-201 | hasGoodSlots iff some slot qualifies; then the selected slot is the lowest-index qualifying one; otherwise slot 0 when there is one; the reported time is that slot's text |
| `SlotSelection.ContinueAfterChoice` | dvsa-autofill.user.js:204-224 | a preferred slot always goes on to the alert and the search for the Continue button; a fallback does exactly when slot 0 has a non-empty time text |
| `SlotSelection.ScanAndSelectBestSlot` | dvsa-autofill.user.js:152-226 | the loop's choice equals the selection rule, and it reads exactly up to and including the selected slot (all slots when none qualifies) |
| `DateSelection.SuitableDatesFrom` | dvsa-autofill.user.js:278-289 | every kept date is a cell from `from` on, carries that cell's own day, is after the earliest date, and the cells keep their order |
| `DateSelection.SuitableDates` | dvsa-autofill.user.js:278-289 | every suitable date is a bookable cell with a day strictly after the earliest date, kept in the cells' order |
| `DateSelection.SuitableDatesComplete` | dvsa-autofill.user.js:278-289 | every bookable cell with a day strictly after the earliest date is among the suitable dates |
| `DateSelection.TryDate` | dvsa-autofill.user.js:305-318 | one try reports good slots exactly when the date's slots appeared and one qualifies, and goes on towards Continue exactly when its slots appeared and the scan's selected slot has a time text |
| `DateSelection.TryDatesInOrder` | dvsa-autofill.user.js:297-319 | dates are clicked in order and the loop stops at the first with a preferred slot (true), or after all of them (false); each try's Continue outcome is recorded |
| `DateSelection.PickAvailableDate` | dvsa-autofill.user.js:291-332 | no suitable date: false with no click; else dates are clicked in order up to the first with a preferred slot (true), or all of them then the first again (false); after every click, the scan's own fallback goes on towards Continue exactly when the selected slot has a time text |
| `DateSelection.FailedTryContinues` | dvsa-autofill.user.js:297-332 | two days with only a 9:00am slot and preferred hour 10: the search goes on towards Continue on day 1's fallback slot and still clicks day 2, then day 1 again, and returns false |
| `DateSelection.PickAvailableDateDeferred` | dvsa-autofill.user.js:296-332 | the same dates are tried in the same order with the same result, but nothing goes on towards Continue before the last click, and the last click does exactly when its scan's selected slot has a time text |
| `SearchStep.PageOf` | dvsa-autofill.user.js:515-532 | the first page and the search page are recognised exactly by their body ids |
| `SearchStep.SearchStepResult` | dvsa-autofill.user.js:447-470 | a set flag means only the centre click and the flag stays set; otherwise the flag becomes set exactly when the input appeared and submit was found and clicked |
| `SearchStep.LoadStep` | dvsa-autofill.user.js:514-544 | the first page clears the flag and selects the car test; the search page runs the search step; every other page leaves the flag alone |
| `SearchStep.AtMostOneSubmitPerSession` | dvsa-autofill.user.js:448-466 | over loads with no first page in between, the search is submitted at most once, never when the flag starts set, and the flag ends set iff it started set or a submit happened |
| `SearchStep.RestartClearsFlag` | dvsa-autofill.user.js:518-521 | after the first page, whatever the flag was, at most one search submit follows until the first page is loaded again |
| `SearchStep.ScriptStorage.StartSearchStep` | dvsa-autofill.user.js:447-470 | the action and the new stored flag are those of the search-step rule applied to the old flag |
| `SearchStep.ScriptStorage.OnLoad` | dvsa-autofill.user.js:514-544 | the routine dispatched and the new stored flag are those of one load step from the old flag |

## Findings

| source | as written | input that shows it | evidently intended | confidence | as-written member | corrected member |
|---|---|---|---|---|---|---|
| dvsa-autofill.user.js:310 | each date is tried with the full `scanAndSelectBestSlot`, whose fallback (186-201) selects slot 0 and, when it has a time text, shows the alert and clicks Continue (204-223) before the loop moves to the next date | two bookable days after the earliest date, each with only a 9:00am slot, preferred hour 10 | a try only checks for a preferred slot; the fallback selection happens once, on the first date, as the comments at 296, 321 and 331 say | medium, not executed; what the Continue click does to the page is outside the model | `DateSelection.FailedTryContinues` (about `DateSelection.PickAvailableDate`) | `DateSelection.PickAvailableDateDeferred` |

## Left out

- DOM access is not modelled: element lookups, the `offsetParent` visibility filter, `scrollIntoView`, `click`, `dispatchEvent` and form-value writes. These are browser calls. The visible slots, the bookable cells and the elements found are inputs.
- The polling and timeout helpers are not modelled: `waitFor`, `waitUntilBookable`, `waitForTestCentreLink`, the inline slot poll, `delay` and `setTimeout`. They depend on the clock and timers. A poll that times out is modelled by its outcome: an empty slot list or `None` from `slotsOn`, no bookable cells, or `searchInputFound == false`. Each of these leads down the same path as the timeout's `catch`.
- JavaScript `Date` parsing is not modelled. Dates are day numbers, and a missing or invalid date is `None`, which the filter drops.
- `trim()` on slot texts is not modelled: a slot text is the already-trimmed text. Trimming never changes the parsed hour, since white space never takes part in a match (`TimeParse.ParseClockText` allows any digit-free prefix and any suffix), but it decides whether an all-blank text counts as present.
- `createSelectionAlert`, `displayConfigInfo` and `handleWarningDialog` are not modelled. They are user-interface output and a dialog click.
- The form-filling routines `selectCarTest`, `fillLicence`, `fillDateOnlyPage`, `fillCandidateDetails` and `clickTestCentreFinal` are not modelled. They write fixed values into fields and click buttons. The dispatcher names them as `Routine` values.
- The `CONFIG` literal values are parameters: `preferredTimeAfter` and `earliestDate`.
- Local storage is only the one boolean it holds.
- SlotSelection.ScanAndSelectBestSlot: the error path of the `try`/`catch` is not separately modelled. It fires when no slots appear and returns `hasGoodSlots: false` with no time. With an empty slot list the model returns that same result.
- DateSelection.PickAvailableDate: the result of the fallback re-scan is not returned, because the source ignores it too.
- DateSelection.PickAvailableDate: the model assumes the page stays on the calendar after a try's scan goes on towards Continue; if that click navigates away, the later dates are never reached, which `continued` records but the click sequence does not.
