# Vemaybay airfare watcher — a Dafny model of its decision logic

Two Python scripts watch VietJet fares for one route. `vietjet_watcher.py`
watches a single departure date; `vietjet_month_watch.py` watches every day
of one month. Each script renders the airline's search page and reads a price
from the page text. It compares the new prices with the snapshot saved by the
previous run, sends a Telegram message when something should be reported,
and saves the new snapshot. This project models the deterministic part of
that pipeline and proves properties of it:

- **Price extraction** (`TokenScan`, `PriceExtraction`). This is the scan
  `re.findall(r"(\d{1,3}(?:[.,]\d{3})+|\d{5,10})", html)` for this one
  pattern. Matches are leftmost and do not overlap. At each position the
  scan takes the parse a backtracking engine tries first. Each token is then
  stripped to its digits, values below 100000 are dropped, and the least
  value remaining is the price.
- **Days of a month** (`Calendar`). This is `iter_days_of_month`, stepping a
  proleptic Gregorian date one day at a time, plus `date.isoformat()`.
- **Change detection** (`ChangeDetection`). This is the asymmetric rule. A
  date never seen before is always recorded. A date seen before is recorded
  when its price moved and either the threshold is 0 or the price fell by at
  least the threshold.
- **Month digest** (`MonthDigest`, `MonthWatch`). This covers the cheapest
  price and its days, the top-10 table sorted by (price, date), the change
  lines with their arrows, the send condition, and the snapshot that is
  persisted.
- **Money formatting** (`Money`). This is `to_vnd`: thousands grouped with
  `.`, then a space and the currency code. Both scripts define the same
  helper, and so do the extraction loops. The model defines each once and
  both scripts' runs use it.
- **Single-date decision** (`SingleDateWatch`). The run chooses a warning,
  the initial message, an update or silence, and decides whether state is
  saved.

The rendered page is an input. In month mode it is a function
`render: Date -> string` that gives the page for each departure date. A
message that is sent, or a snapshot that is saved, is an output value.

Two facts about the month script shape what is modelled:
- It catches only the network-idle and selector timeouts around a probe
  (vietjet_month_watch.py:84-92). A navigation failure in `page.goto`
  propagates and ends the run; it does not skip the day.
- It has no overall time budget. It probes every day of the month, with a
  fixed 1.5 s pause after each probe (vietjet_month_watch.py:118-122).

## Model

| member | source | states |
|---|---|---|
| `TokenScan.DigitRun` | vietjet_month_watch.py:95 | the length of the maximal run of ASCII digits from a position; every character in it is a digit and the next one is not |
| `TokenScan.GroupRun` | vietjet_month_watch.py:95 | how often `(?:[.,]\d{3})+` repeats greedily from a position: the repetitions stay inside the text and no further one follows |
| `TokenScan.GroupAtEach` | vietjet_month_watch.py:95 | each of the repetitions GroupRun counts is a separator followed by three digits |
| `TokenScan.MatchEnd` | vietjet_month_watch.py:95 | where the match starting at a position ends; it consumes at least one character and stays inside the text |
| `TokenScan.MatchEndIsFirstParse` | vietjet_month_watch.py:95 | no match exactly when the pattern has no parse at that position; otherwise the match ends where the first parse a backtracking engine tries ends (first alternative first, largest greedy counts first) |
| `TokenScan.FindAll` | vietjet_month_watch.py:95 | `findall` from a position returns at most as many tokens as characters remain, each non-empty and no longer than the rest of the text |
| `TokenScan.FindAllSkipsGap` | vietjet_month_watch.py:95 | positions where no match starts are passed over: the scan from p finds exactly what the scan from the end of that gap finds |
| `TokenScan.FindAllEmptyIffNoMatch` | vietjet_month_watch.py:95 | `findall` finds nothing from a position exactly when no match starts at or after it |
| `TokenScan.FindAllTakesLeftmost` | vietjet_month_watch.py:95 | the first token is the match at the leftmost position where one starts, and the scan resumes where that match ends |
| `TokenScan.MatchOfDottedNumber` | vietjet_month_watch.py:95 | a number with `.` between its groups of three, not followed by a further group, is matched whole by the first alternative |
| `TokenScan.FindAllOfDottedNumber` | vietjet_month_watch.py:95 | such a number followed by text without digits yields exactly one token, the number |
| `TokenScan.TokensAreNumeric` | vietjet_month_watch.py:95 | every token `findall` returns is non-empty, starts with a digit and holds only digits, `.` and `,` |
| `TokenScan.TwelveDigitRunYieldsFirstTen` | vietjet_watcher.py:79 | a text of exactly twelve digits yields one token, its first ten digits |
| `PriceExtraction.KeepDigits` | vietjet_month_watch.py:98 | `re.sub(r"[^\d]", "", s)` keeps only digits, never lengthens the string, and leaves a string of digits unchanged |
| `PriceExtraction.KeepDigitsAppend` | vietjet_month_watch.py:98 | stripping a concatenation is stripping each part and concatenating the results |
| `PriceExtraction.KeepDigitsDropsNonDigit` | vietjet_month_watch.py:98 | a non-digit character, such as a separator, contributes nothing |
| `PriceExtraction.TokenValue` | vietjet_month_watch.py:98 | the value of a token made only of digits is the number those digits denote |
| `PriceExtraction.KeepDigitsOfGrouped` | vietjet_month_watch.py:98 | stripping a thousands-grouped digit string gives the digits back |
| `PriceExtraction.TokenValueOfGrouped` | vietjet_month_watch.py:98 | a price written with its thousands grouped, as `to_vnd` writes it, reads back as that price |
| `PriceExtraction.Plausible` | vietjet_month_watch.py:96-100 | a value is collected exactly when it is at least 100000 and some token has that value; every such token's value is collected |
| `PriceExtraction.Least` | vietjet_month_watch.py:101 | `min` of a non-empty list is one of its elements and no element is smaller |
| `PriceExtraction.ExtractPrice` | vietjet_watcher.py:79-84 | None exactly when no token reaches 100000; otherwise a value of at least 100000 that some token has and that is at most every token value of at least 100000 |
| `PriceExtraction.FindAllOfToVnd` | vietjet_month_watch.py:95 | on the text `to_vnd` writes for an amount of at least 1000 with a currency code free of digits, `findall` returns exactly one token: the grouped amount |
| `PriceExtraction.ExtractPriceOfToVnd` | vietjet_month_watch.py:95-101 | a page showing one amount of at least 100000 as `to_vnd` writes it, with a currency code free of digits, yields that amount |
| `PriceExtraction.FetchMinPrice` | vietjet_month_watch.py:94-101 | the accumulate-then-min loop returns exactly the extracted price |
| `Digits.Decimal` | vietjet_month_watch.py:32 | the decimal notation is a non-empty digit string with no leading zero unless the number is 0 |
| `Digits.Value` | vietjet_month_watch.py:98 | `int` of a digit string is 0 exactly when every digit is `0` |
| `Digits.ValueOfDecimal` | vietjet_month_watch.py:98 | `int` of the decimal notation of n is n |
| `Money.Grouped` | vietjet_month_watch.py:32 | grouping never shortens the digits, and more than three digits always gain a separator |
| `Money.GroupedStartsWithDigit` | vietjet_month_watch.py:32 | grouping keeps the leading digit in front |
| `Money.Amount` | vietjet_month_watch.py:32 | `f"{x:,}"` is non-empty and starts with `-` exactly for a negative number |
| `Money.ToVnd` | vietjet_month_watch.py:31-32 | the text ends with a space and the currency code, and starts with `-` exactly for a negative amount |
| `Money.UngroupGrouped` | vietjet_month_watch.py:32 | deleting the dots from grouped digits gives the digits back |
| `Money.GroupedDigitsAndDots` | vietjet_month_watch.py:32 | grouped digits hold nothing but the digits and `.` |
| `Money.GroupedDotPositions` | vietjet_watcher.py:88 | n digits grouped take n + (n-1)/3 characters, and a position holds `.` exactly when it is not the first and a multiple of four characters remain from it to the end |
| `Money.ToVndRoundTrip` | vietjet_month_watch.py:31-32 | for x >= 0, cutting the currency suffix and deleting the dots leaves the decimal notation of x, which reads back as x |
| `Calendar.DaysInMonth` | vietjet_month_watch.py:105-109 | 28 to 31 days; 31 exactly for months 1, 3, 5, 7, 8, 10 and 12; 30 for months 4, 6, 9 and 11; February has 29 in Gregorian leap years and 28 otherwise |
| `Calendar.NextDay` | vietjet_month_watch.py:109 | `d + timedelta(days=1)` has a month and day in range, and stays in d's month exactly when d is not the month's last day |
| `Calendar.DaysOfMonth` | vietjet_month_watch.py:105-109 | yields day 1 to the last day of the month, valid and in that month, each the day after the one before, as many as the month has days; the day after the last leaves the month |
| `Calendar.ZeroPad` | vietjet_month_watch.py:121 | the result has the requested width, or the string's own length if that is larger; it ends with the string and every character before it is `0` |
| `Calendar.IsoFormat` | vietjet_month_watch.py:121 | `isoformat()` ends with the day of the month as two digits |
| `Calendar.IsoFormatOrder` | vietjet_month_watch.py:121 | within one month the `isoformat()` strings compare, as Python strings, as the days do, and differ |
| `Calendar.MonthKeysAscend` | vietjet_month_watch.py:118-121 | the ISO keys of a month's days strictly ascend |
| `ChangeDetection.Reportable` | vietjet_month_watch.py:130 | a reported move is a real change, and under a positive threshold a rise is never reported |
| `ChangeDetection.ChangeFor` | vietjet_month_watch.py:127-131 | a record carries the item's date and new price, and the old price exactly when the date was seen before; there is no record exactly when the date was seen before and the rule does not hold |
| `ChangeDetection.Changes` | vietjet_month_watch.py:125-131 | there are never more change records than new items |
| `ChangeDetection.DetectChanges` | vietjet_month_watch.py:125-131 | the loop builds exactly the change records of the new items, in their order |
| `ChangeDetection.ChangesAppend` | vietjet_month_watch.py:126-131 | the records of two runs of items, one after the other, are the records of the first followed by those of the second, so records keep the order of their items |
| `ChangeDetection.ChangesAreItemRecords` | vietjet_month_watch.py:126-131 | a record is present exactly when some new item yields it under the rule |
| `ChangeDetection.NewDateAlwaysRecorded` | vietjet_month_watch.py:128-129 | a date missing from the previous snapshot is always recorded as `(k, None, newp)`, whatever the threshold |
| `ChangeDetection.SeenDateRecordedIffReportable` | vietjet_month_watch.py:130-131 | a date seen before has a record exactly when the threshold rule holds, and that record is `(k, oldp, newp)` |
| `ChangeDetection.VanishedDateNotRecorded` | vietjet_month_watch.py:126 | a date only the previous snapshot has yields no record |
| `ChangeDetection.ThresholdRule` | vietjet_month_watch.py:130 | an equal price is never reported; threshold 0 reports any move; a positive threshold reports exactly the drops of at least the threshold; a negative threshold T reports every fall and every rise of at most -T |
| `ChangeDetection.ThresholdExamples` | vietjet_month_watch.py:130 | 1000000 to 950000 is reported at threshold 0 but not at 100000; a rise to 1050000 is reported at threshold 0 but not at 50000 |
| `LexOrder.LexLe` | vietjet_month_watch.py:147 | Python's `<=` on strings puts a string before every string it is a prefix of |
| `LexOrder.LexLeTotal` | vietjet_month_watch.py:147 | any two strings compare one way or the other |
| `LexOrder.LexLeTransitive` | vietjet_month_watch.py:147 | the string order is transitive |
| `LexOrder.LexLeAntisymmetric` | vietjet_month_watch.py:147 | two strings each at most the other are equal |
| `LexOrder.LexLeCommonPrefix` | vietjet_month_watch.py:147 | a shared prefix does not change how two strings compare |
| `MonthDigest.DaysPriced` | vietjet_month_watch.py:136 | a date is listed exactly when some item has that date and the given price |
| `MonthDigest.Cheapest` | vietjet_month_watch.py:134-138 | for no results, None and no days; otherwise the least price, which some item has, with a non-empty day list in which a date appears exactly when its price is that least price |
| `MonthDigest.CheapestExample` | vietjet_month_watch.py:134-136 | prices 2000000, 1500000 and 1500000 on the 1st to 3rd give 1500000 on the 2nd and 3rd |
| `MonthDigest.DaysPricedAscending` | vietjet_month_watch.py:169 | with ascending dates the cheapest days already ascend, so `sorted(cheapest_days)` keeps them as they are |
| `MonthDigest.Insert` | vietjet_month_watch.py:147 | inserting into a list sorted by (price, date) keeps it sorted and adds exactly that entry |
| `MonthDigest.SortByPriceDate` | vietjet_month_watch.py:147 | the result is sorted by price, then by date string, and is a permutation of the items |
| `MonthDigest.KeyLeAntisymmetric` | vietjet_month_watch.py:147 | two entries whose `(price, date)` keys are each at most the other are the same entry |
| `MonthDigest.SortedUnique` | vietjet_month_watch.py:147 | two sequences of the same entries that are both in `(price, date)` order are equal |
| `MonthDigest.SortByPriceDateIsTheSortedOrder` | vietjet_month_watch.py:147 | any arrangement of the snapshot in `(price, date)` order, which is what `sorted` returns, equals `SortByPriceDate` of it |
| `MonthDigest.LastTwo` | vietjet_month_watch.py:150 | `d[-2:]` is the last two characters of the string, or the whole string when it is shorter |
| `MonthDigest.TopLines` | vietjet_month_watch.py:148-151 | at most ten rows, ranked from 1, each the day part and formatted price of the sorted entry at that rank |
| `MonthDigest.ChangeLineFor` | vietjet_month_watch.py:156-161 | a newly seen date gives an "added" line with its new price; otherwise a line with old and new price whose arrow points down exactly when the new price is lower |
| `MonthDigest.ChangeLines` | vietjet_month_watch.py:154-161 | at most ten lines, one per leading change record |
| `MonthDigest.ChangesAscend` | vietjet_month_watch.py:125-131 | when the snapshot's dates strictly ascend, so do the dates of its change records, so the first ten records are the ten earliest recorded dates |
| `MonthDigest.ShouldSend` | vietjet_month_watch.py:145 | never send without results, never send without changes unless the override is set, and always send with results when it is set |
| `MonthDigest.SendDecision` | vietjet_month_watch.py:145 | a message is sent exactly when some change was recorded, or the override is set and some day was priced |
| `MonthWatch.ProbeOf` | vietjet_month_watch.py:74-101 | a price read for a date is always at least 100000 |
| `MonthWatch.PricedDays` | vietjet_month_watch.py:116-121 | never more entries than days probed |
| `MonthWatch.PricedDaysMembership` | vietjet_month_watch.py:118-121 | an entry is in `results` exactly when it is the key of a probed day and that day's extracted price |
| `MonthWatch.PricedDaysAscending` | vietjet_month_watch.py:116-121 | days probed in ascending key order give results in ascending date order |
| `MonthWatch.CollectResults` | vietjet_month_watch.py:116-122 | the probe loop gives the priced days of the month, with distinct, ascending dates |
| `MonthWatch.DayLabelIsDay` | vietjet_month_watch.py:150 | the label of a valid date is its day of the month as two digits |
| `MonthWatch.MonthKeysEndInDay` | vietjet_month_watch.py:118-121 | every key of a month's days ends with that day as two digits |
| `MonthWatch.CheapestDaysAreKeys` | vietjet_month_watch.py:136 | every cheapest date is the key of a probed day whose price is the least price |
| `MonthWatch.CheapestLabelsAreDays` | vietjet_month_watch.py:169 | when keys end with their day, every label listed with the cheapest price is the two-digit day of a probed day with that price |
| `MonthWatch.MonthCheapestLabelsAreDays` | vietjet_month_watch.py:169 | for a month's run, every label listed with the cheapest price is the two-digit day of a day of that month whose price is the least price |
| `MonthWatch.CheapestLabelsExample` | vietjet_month_watch.py:169 | prices 2000000, 1500000 and 1500000 on the 1st to 3rd list the cheapest days as `02` and `03` |
| `MonthWatch.MonthRun` | vietjet_month_watch.py:112-180 | the saved snapshot is exactly the new results; a digest is built exactly when the send condition holds, and it shows the least price, its days in ascending order, the change list (whose records' dates strictly ascend) and the top table |
| `SingleDateWatch.Decide` | vietjet_watcher.py:111-130 | state is saved exactly when a price was read, and with that price; the warning goes out exactly when no price was read; the initial message exactly when a price was read and none was saved before, and it shows that price formatted; an update only when both prices are known and the change rule holds |
| `SingleDateWatch.UpdateFollowsChangeRule` | vietjet_watcher.py:121-123 | with both prices known, an update goes out exactly when the month script's change rule holds, with a down arrow exactly for a fall; otherwise nothing is sent |
| `SingleDateWatch.DifferenceShown` | vietjet_watcher.py:127 | the difference an update shows is the formatted absolute value of the move |
| `SingleDateWatch.ReportedDifferenceIsMagnitude` | vietjet_watcher.py:127 | the difference shown has no minus sign, and without dots and suffix it reads back as the size of the move |
| `SingleDateWatch.ScenarioExamples` | vietjet_watcher.py:115-128 | a first reading of 2300000 gives the initial message and saves it; a fall from 2300000 to 2100000 at threshold 0 gives a down update showing 200000 |
| `SingleDateWatch.FormattingExample` | vietjet_watcher.py:82-88 | 2300000 is shown as `2.300.000 VND`, and the token `2.300.000` reads back as 2300000 |
| `SingleDateWatch.Watch` | vietjet_watcher.py:101-131 | a run decides on the price extracted from the page, and any saved price is at least 100000 |

## Left out

- Browser automation: launching Chromium, `goto`, the network-idle and selector waits, and `page.content()`. The rendered page is an input.
- A navigation error in `page.goto` (an error, or its 120-second timeout), in either script: a month probe (vietjet_month_watch.py:83) and the single-date fetch (vietjet_watcher.py:67) each sit in a `try` with only a `finally`, so the exception ends the whole run with no message sent and no snapshot saved. The model takes each rendered page as given.
- SingleDateWatch.Decide: assumes every `send_telegram` call returns. A connection or DNS error, or the 30-second timeout (vietjet_watcher.py:41), propagates out of `send_telegram`, which has only `try`/`finally` (vietjet_watcher.py:42-48), and ends the run. The alert is sent before the state is written (vietjet_watcher.py:116 before :117, :124 before :130), so a failed delivery saves no snapshot, whereas the model's outcome always saves the price. A missing token or chat id returns normally (vietjet_watcher.py:28-29) and is covered.
- MonthWatch.MonthRun: assumes the `send_telegram` call returns. A connection or DNS error, or the 30-second timeout (vietjet_month_watch.py:47), propagates out of `send_telegram` (only `try`/`finally`, vietjet_month_watch.py:48-54) and ends the run. The message is sent (vietjet_month_watch.py:175) before the state file is written (:179), so a failed delivery saves no snapshot, whereas the model's outcome always saves the month's prices.
- `send_telegram`, the HTTPS POST. A message is an output value that records which message and which amounts; the exact Vietnamese and emoji text, the timestamp line and the links are not modelled.
- `load_state`, `save_state`, `STATE_FILE.write_text` and JSON encoding. A previous snapshot is a `map<string, int>` (month) or an `Option<int>` (single date); the saved snapshot is returned. The `last_update` timestamp from `datetime.utcnow()` is not modelled.
- `git_commit_if_changed`, which runs git through `subprocess`.
- `asyncio.sleep` and the async control flow.
- Environment-variable parsing and URL construction. The configuration values are parameters.
- Calendar.DaysOfMonth: it requires 1 <= year <= 9999 and 1 <= month <= 12. For any other year or month, `date(year, month, 1)` (vietjet_month_watch.py:106) raises `ValueError`, and the run ends before anything is probed, sent or saved; the model has no outcome for that failed run. For December 9999 it also leaves out that `d += timedelta(days=1)` (vietjet_month_watch.py:109) raises `OverflowError` once the 31st has been yielded: the model's `NextDay` steps into an unbounded year 10000, and its ensures that the day after the last leaves the month relies on that.
- MonthWatch.CollectResults: the same range requirement, for the same reason. For December 9999 it also leaves out the `OverflowError` at vietjet_month_watch.py:109 after the 31st has been probed, which ends the loop and the run; the model's loop finishes normally.
- MonthWatch.MonthRun: the same range requirement, for the same reason.
- MonthWatch.MonthRun: for December 9999, stepping past 9999-12-31 (vietjet_month_watch.py:109) raises `OverflowError` after the 31st has been probed. That ends the whole run with no message sent and no snapshot saved, whereas the model's run finishes the month and returns a normal outcome for it.
- TokenScan.DigitRun: Python's `\d` on `str` also matches non-ASCII decimal digits (and `int` accepts them); the model recognises only `0`-`9`.
- Regular expressions in general: only this one fixed pattern is modelled.
