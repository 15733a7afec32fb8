# Advent of Code 2018, days 1 to 4, modelled in Dafny

This project models four small JavaScript solvers for Advent of Code 2018,
and proves what each one computes.

- **Day 1, frequency drift** (`2018/Day01/Day1.js`). The solver folds the
  list of frequency changes into running totals. It registers every total
  in two module-level tables: how often each frequency has been seen, and,
  for each count, the frequencies seen again at that count. It repeats the
  fold, each pass starting from the previous final frequency, until a
  frequency has come up twice or 1000 passes have run.
- **Day 2, box-ID checksum** (`2018/Day02/Day02.js`). It counts the letters
  of each ID and records, once per ID, every count that occurs. It then
  multiplies the tallies of the counts above one.
- **Day 3, fabric claims** (`2018/Day03/Day03.js`). Claims `#id @ x,y: wxh`
  are parsed and placed on a sparse grid of per-cell claim lists. A
  conflict set is kept in step with the grid. The solver then counts the
  cells claimed more than once and lists the claims in no conflict.
- **Day 4, sleeping guards** (`2018/Day04/Day04.js`).
  - Log lines are parsed into events.
  - The events are filed in maps nested by year, month, day, hour and
    minute.
  - They are replayed in key order twice. The first pass copies the guard
    on duty onto each event. The second adds up each guard's minutes
    asleep and counts how often each minute was slept.
  - The answer is the sleepiest guard's number times that guard's most
    slept minute.

Modules:

- `Results` holds `Option` and `Result`.
- `JsText` models the string and number built-ins the code relies on:
  `indexOf`, `slice` with negative indices, `trim`, `toLowerCase` on ASCII,
  and `parseInt` (with NaN).
- `Keys` gives the ascending order of integer keys, as produced by
  `sort((a, b) => a - b)` and by `for ... in` over integer-like keys.
- `Tallies` holds counter tables.
- `Day01`, `Day02` and `Day03` model one solver each.
- `Day04Parse`, `Day04Index` and `Day04Guards` cover Day 4's parsing, its
  chronological index, and its two passes with the answer.

How the code is modelled:

- Code that updates module-level state in place is modelled as classes that
  hold that state: `Day01.FrequencyLog`, `Day02.RepeatTally` and
  `Day03.Fabric`.
- Each method of those classes is proved against a function of the old
  state.
- The in-place guard back-fill of Day 4 works on an `array`.
- Parsing and the nested index are modelled as functions.

## Model

| member | source | states |
|---|---|---|
| Day01.Register | 2018/Day01/Day1.js:92-133 | A new frequency gets count 1 and the repeats table is unchanged. A frequency seen again gets its count plus one and is filed in the bucket of its old count. All other counts are unchanged. |
| Day01.RegisterKeepsSynced | 2018/Day01/Day1.js:94-121 | Registering keeps the two tables in sync: a frequency seen n times is in exactly the buckets 1 to n-1, and no bucket is empty. The `delete` on the repeat path never finds anything to remove. |
| Day01.FirstSightingKeepsSynced | 2018/Day01/Day1.js:125-128 | A first sighting keeps the tables in sync. |
| Day01.Resighting | 2018/Day01/Day1.js:100-121 | Written out for tables in sync, the repeat path is: count plus one, and the old count's bucket (created if missing) gains the frequency. |
| Day01.ResightingKeepsBelow | 2018/Day01/Day1.js:100-121 | After a repeat sighting, every count is positive and every frequency in bucket k has been seen more than k times. |
| Day01.ResightingKeepsCover | 2018/Day01/Day1.js:100-121 | After a repeat sighting, a frequency seen n times is in every bucket below n. |
| Day01.ResightingKeepsNonEmpty | 2018/Day01/Day1.js:116-121 | After a repeat sighting, no bucket is empty. |
| Day01.RepeatsNonEmptyIff | 2018/Day01/Day1.js:44 | With the tables in sync, the repeats table has an entry exactly when some frequency has been seen at least twice. This is the loop's stop test. |
| Day01.RegisterAllSynced | 2018/Day01/Day1.js:70-78 | Registering any sequence of totals keeps the tables in sync. |
| Day01.RunningTotals | 2018/Day01/Day1.js:70-78 | `reduce` without a seed registers one total per element after the first. The k-th total is the sum of the first k+2 elements. |
| Day01.FrequencyLog.constructor | 2018/Day01/Day1.js:21-24 | Both tables start empty. |
| Day01.FrequencyLog.RegisterFrequency | 2018/Day01/Day1.js:92-133 | The new state of the tables is `Register` of the old state. |
| Day01.FrequencyLog.ApplyPhaseAdjustments | 2018/Day01/Day1.js:68-81 | An empty array throws (None) and the tables are unchanged. Otherwise the result is the sum of the array, and the running totals are registered in order. |
| Day01.Continue | 2018/Day01/Day1.js:44-54 | The loop never passes the limit of 1000 passes. It ends at the limit or once the repeats table has an entry, and a state that has already stopped is returned unchanged. |
| Day01.Iterate | 2018/Day01/Day1.js:46-52 | `k` further passes after a state complete exactly `k` more passes. |
| Day01.ContinueIterates | 2018/Day01/Day1.js:44-54 | The loop's result is its start followed by exactly as many passes as it adds, and every state before the last had an empty repeats table and was below 1000 passes: the loop stops at the first pass that registers a repeat, or at the limit. |
| Day01.ContinueFinalPhase | 2018/Day01/Day1.js:46-52 | Each pass starts from the previous final frequency, so after p passes the frequency is p times the sum of the changes. |
| Day01.DriftedFinalPhase | 2018/Day01/Day1.js:44-54 | For the whole loop, the final frequency is the number of passes times the sum, and between 1 and 1000 passes run. |
| Day01.ContinueSynced | 2018/Day01/Day1.js:44-54 | The tables stay in sync over every pass. |
| Day01.DriftedStopsOnRepeat | 2018/Day01/Day1.js:44 | When the loop stops before the limit, some frequency has been reached at least twice. |
| Day01.ParseAdjustments | 2018/Day01/Day1.js:37 | On success there is one number per line, equal to `parseInt` of that line. On failure the error names the first line that parses to NaN. |
| Day01.NumbersOf | 2018/Day01/Day1.js:37 | Either every parsed value is a number and all are returned in order, or the error names the first position that is NaN. |
| Day01.Day1FrequenciesTask | 2018/Day01/Day1.js:32-58 | It returns the final frequency and the number of passes of the parse-then-drift specification, and fails exactly when that does. |
| Day02.FrequenciesCount | 2018/Day02/Day02.js:107-126 | The letter table's keys are the ID's distinct characters, each mapped to its number of occurrences. |
| Day02.FrequenciesSum | 2018/Day02/Day02.js:107-126 | The counts of the letter table add up to the length of the ID. |
| Day02.FrequenciesExample | 2018/Day02/Day02.js:103 | "aabcdd" gives {a: 2, b: 1, c: 1, d: 2}. |
| Day02.LetterFrequencies | 2018/Day02/Day02.js:107-126 | The loop builds the letter table: its keys are the characters of the ID and its values their multiplicities. |
| Day02.RepeatCountsOfId | 2018/Day02/Day02.js:70-80 | Count k is recorded for an ID exactly when some letter of the ID occurs exactly k times. |
| Day02.RepeatTally.constructor | 2018/Day02/Day02.js:11 | The global tally starts empty. |
| Day02.RepeatTally.UpdateGlobalLetterRepeats | 2018/Day02/Day02.js:68-95 | Each distinct count of the ID adds one to its entry, starting at 1 when missing, once however many letters share it. Entries of other counts are unchanged. |
| Day02.BumpedAdd | 2018/Day02/Day02.js:83-93 | Recording one more count bumps exactly that entry. |
| Day02.TallyCounts | 2018/Day02/Day02.js:21-27 | After all IDs, entry k is the number of IDs with a letter occurring exactly k times. The entry exists exactly when that number is not zero. |
| Day02.ProductRemove | 2018/Day02/Day02.js:47-55 | The product over the keys can be split at any key, so it does not depend on the order the keys are visited. |
| Day02.CalculateCheckSum | 2018/Day02/Day02.js:43-58 | The running product equals the product of the entries of the counts above one. |
| Day02.CheckSumEmpty | 2018/Day02/Day02.js:45 | An empty table has checksum 1. |
| Day02.CheckSumIgnoresSingles | 2018/Day02/Day02.js:49-53 | The entry for count 1 plays no part in the checksum. |
| Day02.CheckSumExample | 2018/Day02/Day02.js:40 | The doc comment's table {1: 250, 2: 249, 3: 30, 4: 1} has checksum 7470. |
| Day02.Day2Task | 2018/Day02/Day02.js:15-33 | The result is the checksum of the tally of all the IDs. |
| Day03.GetClaimFromClaimText | 2018/Day03/Day03.js:180-232 | Decoding never fails: nothing in the `try` throws and the validation accepts everything, so the `throw` is unreachable. |
| Day03.ClaimTextRoundTrip | 2018/Day03/Day03.js:184-214 | A claim text with five decimal fields decodes to exactly those five values. |
| Day03.IdValue | 2018/Day03/Day03.js:193-195 | The ID field, between `#` and `@`, reads as its digits' value. |
| Day03.XValue | 2018/Day03/Day03.js:198-202 | The x field, between `@` and `,`, reads as its digits' value. |
| Day03.YValue | 2018/Day03/Day03.js:199-203 | The y field, between `,` and `:`, reads as its digits' value. |
| Day03.WValue | 2018/Day03/Day03.js:206-210 | The width field, between `:` and `x`, reads as its digits' value. |
| Day03.HValue | 2018/Day03/Day03.js:207-211 | The height field, after `x`, reads as its digits' value. |
| Day03.ClaimExample | 2018/Day03/Day03.js:181-182 | "#123 @ 3,2: 5x4" decodes to ID 123, origin (3, 2), size 5 by 4. |
| Day03.RectCells | 2018/Day03/Day03.js:107-112 | The cells the two loops visit are exactly those the claim's rectangle covers. A NaN field covers none. |
| Day03.PlaceAt | 2018/Day03/Day03.js:96-113 | Registering a claim appends it exactly once at each covered cell and changes no other cell. A cell exists afterwards exactly when it existed before or is covered. |
| Day03.PlaceEmpty | 2018/Day03/Day03.js:107-109 | A claim of zero width or height changes nothing. |
| Day03.ConflictIdsAppend | 2018/Day03/Day03.js:133-147 | Appending at a cell adds both listed IDs when the list reaches two, the new ID when it grows beyond two, and nothing otherwise. |
| Day03.Fabric.constructor | 2018/Day03/Day03.js:12-14 | The grid and the conflict set start empty. |
| Day03.Fabric.AddClaimToPosition | 2018/Day03/Day03.js:124-151 | The cell's list gains the claim and nothing else changes. The conflict set stays equal to the IDs listed at cells with two or more claims, and it only grows. |
| Day03.Fabric.RegisterClaim | 2018/Day03/Day03.js:96-113 | The grid becomes the old grid with the claim placed on its rectangle. The conflict set stays in sync and only grows. |
| Day03.Fabric.RegisterColumn | 2018/Day03/Day03.js:109-112 | The inner loop places the claim on one more column of its rectangle and keeps the conflict set in sync. |
| Day03.Fabric.CountConflicts | 2018/Day03/Day03.js:40-58 | The corrected count returns the number of cells listed by more than one claim whose two indices are both array element indices (0 to 2^32 - 2). |
| Day03.Fabric.CollectUnconflicted | 2018/Day03/Day03.js:68-77 | It returns the claims, in input order, whose ID is not in the conflict set. |
| Day03.ConflictCellsVisit | 2018/Day03/Day03.js:47-56 | Visiting one more cell adds one to the count exactly when the cell is claimed more than once. |
| Day03.GridCovering | 2018/Day03/Day03.js:35-38 | After all claims are registered, each cell lists exactly the claims covering it, in registration order. A cell exists once some claim covers it. |
| Day03.CoveringCount | 2018/Day03/Day03.js:35-38 | A cell's list is as long as the number of claims covering it. |
| Day03.ConflictIdsShared | 2018/Day03/Day03.js:133-147 | The conflict set holds exactly the IDs of the claims that share a cell with another claim. |
| Day03.ConflictIdsGrow | 2018/Day03/Day03.js:35-38 | Registering a further claim never removes a conflict. |
| Day03.CountConflictsHole | 2018/Day03/Day03.js:45-58 | As written, a single claim at column 1 leaves column 0 a hole and the loop throws. The intended count there is 0. |
| Day03.ScanColumnsCounts | 2018/Day03/Day03.js:45-58 | When every column from x up to the array's length exists, the loop as written does not throw and counts the conflict cells of those columns. |
| Day03.ConflictsFromSplit | 2018/Day03/Day03.js:47-56 | The conflict cells from column x on are those of column x plus those from column x+1 on. |
| Day03.PlainPropertiesOnly | 2018/Day03/Day03.js:45-58 | Claims covering only columns outside the element indices (plain properties, as lines 164-170 create them) leave the outer array's length at 0: both counts are 0 and the loop as written does not throw. |
| Day03.BeyondLastIndex | 2018/Day03/Day03.js:45-58 | Two claims on column 2^32 - 1 share a cell of the grid, yet both counts are 0. |
| Day03.CountConflictsAgree | 2018/Day03/Day03.js:45-58 | Where no column below the array's length is a hole, the count as written equals the corrected count. |
| Day03.HoleText | 2018/Day03/Day03.js:184-214 | "#1 @ 1,0: 1x1" decodes to the claim used in the hole example. |
| Day03.Unconflicted | 2018/Day03/Day03.js:68-77 | A claim is kept exactly when it is in the input and its ID is not in the conflict set. The result is no longer than the input. |
| Day03.UnconflictedConcat | 2018/Day03/Day03.js:70-77 | The filter keeps input order: it distributes over concatenation. |
| Day03.UnconflictedAll | 2018/Day03/Day03.js:70-77 | With no conflicts, every claim is kept. |
| Day03.ReportClaims | 2018/Day03/Day03.js:35-77 | It counts the cells of the final grid claimed more than once, and returns the claims whose ID is not in the final conflict set. |
| Day03.Day03 | 2018/Day03/Day03.js:24-86 | The same two results, computed from the claim texts. |
| Day04Parse.StampRoundTrip | 2018/Day04/Day04.js:412-442 | A date and time section with five decimal fields decodes to exactly those values. |
| Day04Parse.StampYear | 2018/Day04/Day04.js:415-438 | The year, between `[` and the first `-`, reads as its value. |
| Day04Parse.StampMonth | 2018/Day04/Day04.js:416-439 | The month, between the two dashes, reads as its value. |
| Day04Parse.StampDay | 2018/Day04/Day04.js:417-440 | The day, between the second dash and the space, reads as its value. |
| Day04Parse.StampHour | 2018/Day04/Day04.js:418-441 | The hour, between the space and `:`, reads as its value. |
| Day04Parse.StampMinute | 2018/Day04/Day04.js:419-442 | The minute, between `:` and `]`, reads as its value. |
| Day04Parse.GuardIdTextAsWritten | 2018/Day04/Day04.js:337-340 | As written, the guard number's text runs up to the first space. With no space, `slice(0, -1)` drops the last character. |
| Day04Parse.GuardIdText | 2018/Day04/Day04.js:337-340 | As intended, the guard number's text is a prefix of the text after `#`, has no space, and ends at a space or at the end. |
| Day04Parse.DecodeEventInfoWith | 2018/Day04/Day04.js:320-401 | A `#` appears exactly when the result is a shift start or an error. Only shift starts carry a guard, and it is positive. The only error is an invalid guard number (see `ShiftStartGuard` for when it happens). Without `#`: falls asleep exactly when "asleep" occurs and "wakes" does not; wakes up the other way round; no kind when both occur or neither. |
| Day04Parse.DecodeLowered | 2018/Day04/Day04.js:328-397 | The same decoding, stated on the lower-cased text. |
| Day04Parse.DecodeEventInfoCaseInsensitive | 2018/Day04/Day04.js:325 | Decoding ignores the case of letters. |
| Day04Parse.ShiftStartText | 2018/Day04/Day04.js:328-357 | A text whose first `#` is followed by a positive decimal number, and then by nothing or a space, is a shift start whose guard is that number. When the space is present, the code as written gives the same result. |
| Day04Parse.ShiftStartGuard | 2018/Day04/Day04.js:328-364 | Text whose first `#` is followed by `after` is an invalid guard number exactly when the number read from `after` is NaN, zero or negative. Otherwise it is a shift start carrying that number. This holds for either cut of the number's text. |
| Day04Parse.RejectedExamples | 2018/Day04/Day04.js:356-364 | "Guard #0 begins shift" and "Guard #x begins shift" are both invalid guard numbers, with either cut. |
| Day04Parse.RejectedZero | 2018/Day04/Day04.js:356-364 | Guard number 0 is rejected. |
| Day04Parse.RejectedNotANumber | 2018/Day04/Day04.js:344-364 | A guard number that reads as NaN is rejected. |
| Day04Parse.KindExamples | 2018/Day04/Day04.js:313-318 | The three kinds of log line the comment lists decode to shift start (guard 677), falls asleep and wakes up. |
| Day04Parse.PlainInfo | 2018/Day04/Day04.js:366-397 | Without `#`, the kind follows from which of the two keywords occurs. |
| Day04Parse.GuardAtEndOfText | 2018/Day04/Day04.js:337-345 | As written, "Guard #10" reads as guard 1. As intended it reads as guard 10. |
| Day04Parse.GetEventFromEventText | 2018/Day04/Day04.js:290-303 | Reading a line fails only on an invalid guard number. A line that is read carries a guard exactly when it is a shift start, and the guard is positive. |
| Day04Parse.EventTextSplit | 2018/Day04/Day04.js:293-301 | A line splits at its first `]`: the part up to and including it is the timestamp, and the trimmed rest is the event information. |
| Day04Parse.EventLineRoundTrip | 2018/Day04/Day04.js:290-303 | A well-formed log line reads back as its five timestamp fields and its decoded event information. |
| Day04Parse.ParseEvents | 2018/Day04/Day04.js:41 | On success there is one event per line, each what that line reads as. The only error is an invalid guard number. |
| Day04Parse.MapAll | 2018/Day04/Day04.js:41 | Mapping a reader over the lines gives all results in order, or an error that the reader gives on some line. |
| Day04Parse.Stamped | 2018/Day04/Day04.js:438-443 | An event keeps its kind and guard and gets a timestamp exactly when all five fields are numbers. |
| Day04Parse.StampAll | 2018/Day04/Day04.js:41-49 | All events are stamped in order, or the error is a malformed timestamp, which happens exactly when some field is NaN. |
| Day04Index.Key | 2018/Day04/Day04.js:49 | An event is filed under a path of five keys. |
| Day04Index.KeyInjective | 2018/Day04/Day04.js:49 | Different timestamps have different paths. |
| Day04Index.PutGet | 2018/Day04/Day04.js:472-492 | `createNestedMap` stores the event at its own path, replacing what was there, and changes no other path. |
| Day04Index.LastAt | 2018/Day04/Day04.js:46-51 | The event reported for a timestamp is one of the events with that timestamp, and no later event has it. It is none exactly when no event has that timestamp. |
| Day04Index.IndexedGet | 2018/Day04/Day04.js:46-51 | Last write wins: the index holds, for each timestamp, the last event carrying it. |
| Day04Index.BuildIndex | 2018/Day04/Day04.js:43-51 | The loop files every event in turn. |
| Day04Index.FlattenChronological | 2018/Day04/Day04.js:235-269 | Pieces that are each in order, under successive ascending keys, make an ordered whole. |
| Day04Index.LevelChronological | 2018/Day04/Day04.js:235-269 | One level of the index, read in ascending key order, replays chronologically under its prefix. |
| Day04Index.ChronologicalMonths | 2018/Day04/Day04.js:239-269 | A year's months replay in order, all under that year. |
| Day04Index.ReplayChronological | 2018/Day04/Day04.js:228-279 | The replay yields the events in strictly increasing timestamp order, so no timestamp appears twice. |
| Day04Index.FlattenHas | 2018/Day04/Day04.js:235-269 | A flattened level contains exactly the contents of its pieces. |
| Day04Index.LevelHas | 2018/Day04/Day04.js:235-269 | One level replays exactly the events of its entries. |
| Day04Index.ReplayHas | 2018/Day04/Day04.js:228-279 | The replay yields an event exactly when the index stores it at its own timestamp. |
| Day04Index.StoredIsReplayed | 2018/Day04/Day04.js:228-279 | Every stored event is yielded. |
| Day04Index.PutWf | 2018/Day04/Day04.js:472-492 | Filing an event at its own timestamp keeps every event at its own path. |
| Day04Index.IndexedWf | 2018/Day04/Day04.js:46-51 | After filing all events, every event sits at its own path. |
| Day04Index.ReplayIndexed | 2018/Day04/Day04.js:46-56 | The first pass sees the last event of each timestamp, each once, in increasing timestamp order. |
| Day04Guards.ActiveGuard | 2018/Day04/Day04.js:53-73 | The guard on duty is never 0. |
| Day04Guards.ActiveGuardIsLatest | 2018/Day04/Day04.js:53-73 | No guard is on duty exactly when no event so far opens a shift. Otherwise the guard on duty is that of the last event that does. |
| Day04Guards.LatestShift | 2018/Day04/Day04.js:59-60 | It gives the position of the shift start the guard on duty comes from. No later event opens a shift. |
| Day04Guards.BackFilled | 2018/Day04/Day04.js:53-73 | The first pass keeps the number of events. |
| Day04Guards.BeforeFirstShift | 2018/Day04/Day04.js:62-71 | It counts the events before the first shift start: none of them opens a shift, and the next one does. |
| Day04Guards.BackFilledGuards | 2018/Day04/Day04.js:56-73 | After the first pass, an event that does not open a shift carries the guard of the latest shift start before it. When there is none, it is unchanged. Its time and kind never change. |
| Day04Guards.ActiveGuardStep | 2018/Day04/Day04.js:59-60 | The guard on duty changes only at a shift start. |
| Day04Guards.NoGuardBeforeFirstShift | 2018/Day04/Day04.js:63-70 | No guard is on duty exactly up to the first shift start. |
| Day04Guards.Backfill | 2018/Day04/Day04.js:53-73 | In place, the array becomes the back-filled events. The count of events without a guard equals the number of events before the first shift start. |
| Day04Guards.BackfillStep | 2018/Day04/Day04.js:56-73 | One iteration updates the guard on duty, and counts the event as unassigned exactly when it is not a shift start and there is no guard yet. |
| Day04Guards.BumpRangeCounts | 2018/Day04/Day04.js:106-118 | A nap counts each minute from the sleep start up to, but not including, the wake minute once more. No other minute changes. |
| Day04Guards.BumpRangeSum | 2018/Day04/Day04.js:106-118 | A nap raises the sum of the minute counts by its length. |
| Day04Guards.StepWake | 2018/Day04/Day04.js:95-130 | A wake-up changes only its own guard's entry. It adds the nap's length to the total and counts each minute of the nap once more. |
| Day04Guards.TallyFails | 2018/Day04/Day04.js:90-106 | The second pass fails exactly when some wake-up comes before every sleep start. Otherwise the last sleep minute is remembered. |
| Day04Guards.TallyLogsMatchTotals | 2018/Day04/Day04.js:104-130 | When every wake-up is at or after its sleep start, each guard's minute counts add up to that guard's total minutes asleep. |
| Day04Guards.NoIntegrityWarnings | 2018/Day04/Day04.js:132-136 | For events where exactly the shift starts carry a guard, and a positive one, the integrity check of the second pass never fires after the first pass. The second pass's guard matches the first pass's guard on duty. |
| Day04Guards.ParsedGuardsOnShiftStarts | 2018/Day04/Day04.js:41 | Parsed and stamped log lines have that shape: only shift starts carry a guard, and it is positive. |
| Day04Guards.ReplayGuardsOnShiftStarts | 2018/Day04/Day04.js:228-279 | The replay keeps that shape, because it yields only events of the input. |
| Day04Guards.SolverNoIntegrityWarnings | 2018/Day04/Day04.js:41-136 | On the lines of any input, the second pass of the solver never logs an integrity warning. |
| Day04Guards.NoIntegrityStep | 2018/Day04/Day04.js:85-136 | On one back-filled event, the guard on duty follows the shift starts and a wake-up never mismatches it. |
| Day04Guards.FirstMaxOf | 2018/Day04/Day04.js:145-157 | The strict `>` scan from -1 picks a key from the list and reports that key's score. |
| Day04Guards.FirstMaxOfIsFirstMax | 2018/Day04/Day04.js:166-175 | The scan finds the greatest score and the earliest key with it. It finds none exactly when every score is -1 or less. |
| Day04Guards.FirstMax | 2018/Day04/Day04.js:166-175 | The loop computes that scan. |
| Day04Guards.GuardOrder | 2018/Day04/Day04.js:148 | `for ... in` visits exactly the keys of the table: the guard numbers ascending, then `"undefined"`. |
| Day04Guards.UndefinedLast | 2018/Day04/Day04.js:148 | Adding the key `"undefined"` at the end keeps ascending order for the numbered keys. |
| Day04Guards.GuardIds | 2018/Day04/Day04.js:148 | It gives the guard numbers among the table's keys. |
| Day04Guards.Numbered | 2018/Day04/Day04.js:148 | The guard numbers as keys, in strictly ascending order, each present. |
| Day04Guards.GuardOrderDistinct | 2018/Day04/Day04.js:148 | Each guard is visited once. |
| Day04Guards.SleepTotals | 2018/Day04/Day04.js:149 | The score of each guard is its total minutes asleep. |
| Day04Guards.LongestSleeper | 2018/Day04/Day04.js:145-157 | A guard picked by the scan (if any) is a key of the table. |
| Day04Guards.FavouriteMinute | 2018/Day04/Day04.js:166-175 | A minute picked by the scan (if any) is in the sleep log. |
| Day04Guards.SleeperIsMax | 2018/Day04/Day04.js:145-157 | The picked guard has the greatest total sleep. |
| Day04Guards.SleeperIsLeastNumbered | 2018/Day04/Day04.js:145-157 | Every guard numbered below the picked one sleeps strictly less. |
| Day04Guards.LowerNumberedScoresLess | 2018/Day04/Day04.js:148-156 | In a scan over guards in ascending order, a guard numbered below the chosen one scores strictly less. |
| Day04Guards.MinuteIsFirstMax | 2018/Day04/Day04.js:166-175 | The picked minute is slept most often, and every earlier minute strictly less often. |
| Day04Guards.AscendingFirstMax | 2018/Day04/Day04.js:169-175 | A scan over ascending keys picks a greatest score, at a key below every other key with that score. |
| Day04Guards.AnswerIsProduct | 2018/Day04/Day04.js:144-180 | A numeric answer is m times g. Guard g has the greatest total sleep and is the lowest-numbered such guard; m is the earliest of g's most slept minutes. |
| Day04Guards.SleepPass | 2018/Day04/Day04.js:77-141 | The loop computes the second pass, including its failure on a wake-up without a sleep start. |
| Day04Guards.TallyErrorSticks | 2018/Day04/Day04.js:97-106 | Once the second pass has failed, later events do not matter. |
| Day04Guards.RecordNap | 2018/Day04/Day04.js:106-118 | The minute loop counts each minute of the nap once more. |
| Day04Guards.FirstPass | 2018/Day04/Day04.js:53-73 | The replayed events come back back-filled. |
| Day04Guards.ScanGuards | 2018/Day04/Day04.js:145-157 | The loop over the guards performs the scan by total sleep. |
| Day04Guards.ScanMinutes | 2018/Day04/Day04.js:163-175 | The loop over the chosen guard's sleep log performs the scan by count. |
| Day04Guards.ReportSleeper | 2018/Day04/Day04.js:144-180 | It computes the answer: the product of minute and guard number; NaN when either is undefined; an error when there is no table entry to read. |
| Day04Guards.SolveEvents | 2018/Day04/Day04.js:43-180 | On the stamped events it computes the answer of the specification: index, both passes, both scans. |
| Day04Guards.Day4 | 2018/Day04/Day04.js:33-180 | On the lines of the input it gives the answer, or the first error. |
| Keys.SortedKeys | 2018/Day04/Day04.js:233-235 | The keys come out strictly ascending, each exactly once. |
| Tallies.Inc | 2018/Day02/Day02.js:114-120 | One more sighting adds one to the key's count, starting from 0, and leaves the other counts alone. |
| Tallies.SumValuesInc | 2018/Day04/Day04.js:112-116 | One more sighting raises the sum of the counts by one. |
| JsText.IndexOfFrom | 2018/Day04/Day04.js:417 | `indexOf(c, from)` is -1 or a position at or after `from` holding `c`, and no earlier such position holds `c`. |
| JsText.Slice | 2018/Day04/Day04.js:337-340 | `slice` within bounds is the substring. An end of -1 stops before the last character. |
| JsText.TrimStart | 2018/Day04/Day04.js:298 | It removes exactly the leading white space and line terminators, as JavaScript defines them. |
| JsText.TrimEnd | 2018/Day04/Day04.js:298 | It removes exactly the trailing white space and line terminators, as JavaScript defines them. |
| JsText.ToLower | 2018/Day04/Day04.js:325 | `toLowerCase` on ASCII: it maps A to Z to a to z, leaves every other character alone, and keeps the length. |
| JsText.Contains | 2018/Day04/Day04.js:370-371 | `indexOf(word) > -1` holds exactly when the word occurs somewhere. |
| JsText.DigitPrefix | 2018/Day01/Day1.js:37 | It gives the longest run of digits at the front. |
| JsText.ParseIntDigits | 2018/Day03/Day03.js:195 | White space, then digits, then a non-digit reads as the digits' value. |
| JsText.ParseIntBeforeSpace | 2018/Day03/Day03.js:195 | Digits followed by a space read as the digits' value. |
| JsText.ParseIntNoDigit | 2018/Day04/Day04.js:345 | A text starting with neither white space, a sign nor a digit reads as NaN. |
| JsText.ParseIntOfDigits | 2018/Day01/Day1.js:37 | A bare run of digits reads as its value. |

## Left out

- Reading the input file (`getFileContents`) and `split('\r\n')` are left out. The solvers take the list of lines instead.
- Console logging is left out, as are the printed messages at Day1.js:123 and Day04.js:68-69, 160, 177, 182 and 260-262.
- Day 1's `parseInt` NaN: NaN values are not propagated through the sums. A line that does not parse (a trailing empty line, say) is reported as an error at that line.
- Day01.Continue: the loop's state is modelled on values. The source's `shift`/`unshift` on the adjustments array is stated through `Day1FrequenciesTask`'s invariant.
- Day 2 visits the keys of the tally in no particular order instead of `Object.keys` order. This is exact while every partial product stays within 2^53: the product of exact integers does not depend on the order (`Day02.ProductRemove`), whereas rounded doubles are not associative beyond that bound.
- Numbers are modelled as exact, unbounded integers. In the source every number is a double, which holds integers exactly only up to 2^53 in magnitude; above that, sums and products round. The results below agree with the source only while every value stays within ±2^53:
  - JsText.ParseInt: a digit run is read as its exact value (`DigitsValue`), where `parseInt` rounds a value above 2^53 to the nearest double (Day1.js:37, Day03.js:195-211, Day04.js:345 and 438-442).
  - Day01.Sum: the running totals of Day1.js:72 (`Day01.RunningTotals`, `Day01.Continue`, `Day01.Drifted`) are exact. With the lines `9007199254740992`, `1`, `1` the source's total stays at 2^53, repeats after one pass and reports 9007199254740992, whereas the model's totals 2^53+1 and 2^53+2 never repeat and the loop runs to its limit of 1000 passes.
  - Day02.CalculateCheckSum: the product of Day02.js:47-55 (`Day02.CheckSumOf`) is exact.
  - Day04Guards.Tally: a guard's minutes asleep (Day04.js:125) are summed exactly.
  - Day04Guards.Answer: the product of the minute and the guard number (Day04.js:180) is exact.
- Day 2's keys are modelled as integers. JavaScript keeps them as strings and compares `repeats > 1` numerically, which gives the same result.
- Day 3 cells at an index that is not an array element index (negative, or 2^32 - 1 and above) are kept in the grid, as the source keeps them as plain properties (Day03.js:164-170). The conflict counts skip them and the array's length ignores them, as `for ... of` and `forEach` visit only elements (`IsElementIndex`, `Day03.BeyondLastIndex`). Their claims still enter the conflict set, as in the source.
- Day 3 claims with a NaN field cover no cell, because the loop conditions are false at once.
- Day 4's JS `Date` objects are left out.
  - A nap's length is the wake minute minus the sleep minute, instead of the `Date` difference in minutes. This is what the source's comment at line 105 assumes: every nap is within the midnight hour.
  - The integrity check at Day04.js:230 and 259-263 compares `Date`s and only logs, so it is left out.
- Day04Parse.Stamped: a timestamp field that is NaN stops the model with an error. The source would file the event under a NaN key and go on. The usual trigger is an input file ending in `\r\n`: `split('\r\n')` leaves a trailing empty line, all five of its fields are NaN, and `Day04Guards.Day4` returns `Err(MalformedTimestamp)` where the source files an event with no kind under NaN keys and prints its answer. This is a deliberate deviation, because where a NaN key lands among the sorted keys is implementation-defined: the comparator `(a, b) => a - b` at Day04.js:233 returns NaN for it, and `sort` is then not given a consistent order.
- Day04Parse.DecodeEventTimeDateText: reads the five fields with `parseInt` in base 10. The source calls `parseInt` without a radix there, which also accepts a `0x` prefix.
- The generator `eventsByDateIndexIterator` is modelled as the list of events it yields (`Day04Index.Replay`). Laziness is not modelled.
- The nested `Map` of Day04.js:472-492 is modelled as a map value updated by `Put`. The innermost level holds the event directly, not inside a one-entry `Map` under the minute. `ReplayHas`, together with the fact that no timestamp is replayed twice, shows that each yielded event is distinct.
- The second replay (Day04.js:82) sees the guards the first pass stored on the event objects. This is modelled by passing the back-filled list to the second pass.
- Day04Guards.FavouriteMinute: minutes are scanned in ascending numeric order, so a negative minute would come first, whereas `for ... in` at Day04.js:169 visits a key like "-2" after the non-negative ones. A negative minute can only come from using the minute field instead of `getMinutes()` (Day04.js:106), so ties could break the other way only on such input.
- Day04Guards.GuardOrder: guard numbers of 2^32 - 1 or more, and negative ones, are ordered numerically. `for ... in` would visit them as string keys in insertion order. Parsed guard numbers are positive.
- Day04Parse.GetEventFromEventText: it reads the guard number with the intended cut (`GuardIdText`), not the cut at Day04.js:337-340 (see the second row of "## Findings"). The answers of `Day04Guards.SolveEvents` and `Day04Guards.Day4` follow it. On a line ending right after the guard number, such as `[1518-11-01 00:00] Guard #10`, the source reads guard 1 and the model reads guard 10. `DecodeEventInfoAsWritten` and `GuardAtEndOfText` model the code as written.
- Day03.ReportClaims: it reports the corrected conflict count (`Fabric.CountConflicts`), and so does `Day03.Day03`. Where the grid has a hole below its last column, such as for the single claim `#1 @ 1,0: 1x1`, the source throws a TypeError and the model returns the count (0). `CountConflictsAsWritten` models the code as written, and `CountConflictsAgree` shows that the two agree whenever there is no hole.
- JsText.ToLower: it lowers only the ASCII letters A to Z. JavaScript's `toLowerCase` lowers every Unicode letter and can change the length (U+0130 becomes two characters). U+212A (the Kelvin sign) lowers to `k`, so `WA\u212AES UP` is a wake-up in the source and has no kind in the model.
- The commented-out code at Day04.js:185-213 is not part of this model.
- `MapTest.js` is an experiment, not part of the solvers, and is not part of this model.

## Findings

| source | as written | input that shows it | evidently intended | confidence | as-written member | corrected member |
|---|---|---|---|---|---|---|
| 2018/Day03/Day03.js:45-58 | `for ... of` over the sparse `fabricAllocationMap` yields `undefined` for a column no claim reached, and `undefined.forEach` throws a TypeError | the single claim `#1 @ 1,0: 1x1`: column 0 is a hole | count the cells claimed more than once, skipping columns never created (0 here) | not executed | Day03.CountConflictsHole | Day03.Fabric.CountConflicts |
| 2018/Day04/Day04.js:337-340 | with no space after the guard number, `indexOf(' ')` is -1 and `slice(0, -1)` drops the number's last digit | event text `Guard #10` reads as guard 1 | the guard number runs to the end of the text (guard 10) | not executed | Day04Parse.GuardAtEndOfText | Day04Parse.ShiftStartText |
