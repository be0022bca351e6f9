# Queue segmentation: a Dafny model

This project models the scheduling core of a queue-segmentation web app in Dafny.
The app assigns the agents who are present to six work queues, one time slot at a time.

The model has five parts:

- **Generation.** The scheduler in `client/src/pages/Home.tsx`:
  - its two time parsers;
  - the break-overlap test and the purge of expired breaks;
  - the generation loop, which sums the headcount, warns when a slot cannot be filled, orders the available agents by running total and hands out seats in `QUEUES` order;
  - the state handlers around the loop.
- **Warning selector.** The slot-ending warning in `client/src/components/TimeSlotWarning.tsx`. It has its own time parser, where AM/PM is optional, and it selects the first locked, undismissed slot that ends within five minutes. It also has a dismiss action.
- **Break editor.** The time picker and break-list editor in `client/src/components/BreakTimesTable.tsx`.
- **Storage.** The in-memory `MemStorage` class of `server/storage.ts`.
- **Constants.** The constants and record shapes of `client/src/lib/types.ts`.

Modules, one per file:

| module | file | models |
|---|---|---|
| `Wrappers` | wrappers.dfy | `Option` and the `\|\|` default on text |
| `Types` | types.dfy | queues, statuses, records and constants from `types.ts` |
| `Filters` | filters.dfy | the order-keeping delete by key that the roster, the slot list, the break list and the store's insertion order share |
| `TimeText` | time_text.dfy | the JavaScript string operations the code relies on, listed below |
| `HomeTime` | home_time.dfy | `parseTimeToMinutes` and `parseSlotTimes` of `Home.tsx` |
| `HomeBreaks` | home_breaks.dfy | `isAgentOnBreak` and `removeExpiredBreaks` |
| `Seating` | seating.dfy | the running counters, the sort by total, and the seat hand-out |
| `Generation` | generation.dfy | the body of `generateSegmentation` |
| `HomeState` | home_state.dfy | `initHeadcount` and the state handlers of `Home` |
| `SlotWarning` | slot_warning.dfy | `TimeSlotWarning.tsx`, with the component as a class |
| `BreakEditor` | break_editor.dfy | `TimeSelect` and the break-list editing of `BreakTimesTable.tsx` |
| `Storage` | storage.dfy | `MemStorage` as a class over maps and insertion-order sequences |

The JavaScript string operations modelled in `TimeText` are:

- the regular expressions `/(\d+):(\d+)\s*(AM|PM)/i` (`Home.tsx` and `BreakTimesTable.tsx`), `/(\d+):(\d+)\s*(AM|PM)?/i` (`TimeSlotWarning.tsx`) and `/(\d+):(\d+)/` (`parseSlotTimes` in `Home.tsx`), as one leftmost scanner with greedy runs. `FindTime(_, true)` is the first pattern. `FindTime(_, false)` is the second, and its hour and minute texts are also those of the third, which never reads a period. The `i` flag is modelled: the period letters match in either case;
- `parseInt` of digit runs;
- `String.split`;
- `trim`;
- `padStart`.

The imperative parts are methods proved against the functions that specify them:

- `IsAgentOnBreak`;
- `RemoveExpiredBreaks`;
- `FilterByBreak`;
- `ProcessSlot`, `FillSeats` and `FillQueue`;
- `Generate`;
- `SlotWarning.CheckTimeSlots`;
- every `MemStorage` method.

The clock and the random sources are parameters:

- **The clock.** The current minute of the day is `now`.
- **The random tie-break.** The tie-break of the sort is an arbitrary ranking `rank(slotIndex, agentId)`. Every property proved about an ordering holds for all rankings.
- **Fresh ids.** Ids from `crypto.randomUUID` are parameters required to be unused.

Generation in `Home.tsx` builds one ordering per slot, by running total, and hands out seats in `QUEUES` order. `QUEUE_DIFFICULTY_ORDER` and `QUEUE_QUOTAS` are declared in `client/src/lib/types.ts` but never read by it. The model follows the code. It also keeps these details of the code:

- `createAgent` ignores any `sortOrder` it is given. It allocates one above the largest existing value, starting from -1, so an empty table gives 0.
- `createAgent` leaves `productivity` unset. The table schema would default it to 0.

## Model

| member | source | states |
|---|---|---|
| Types.QueuesComplete | client/src/lib/types.ts:14-16 | `QUEUES` has six distinct entries and contains every queue |
| Types.DifficultyOrderIsPermutation | client/src/lib/types.ts:108-115 | `QUEUE_DIFFICULTY_ORDER` is a permutation of `QUEUES`, and its PGC queues are exactly the first three |
| Types.QuotaOf | client/src/lib/types.ts:92-106 | a found quota row belongs to the table and names the queue; no row is found only when no row names it |
| Types.QuotaRows | client/src/lib/types.ts:99-106 | `QUEUE_QUOTAS` has one row per queue, no queue twice, and positive target and hourly quotas |
| Types.QuotasWellFormed | client/src/lib/types.ts:99-106 | every queue has a quota row; the PGC and non-PGC queue of each family share target and hourly quota |
| Types.QuotaOfRow | client/src/lib/types.ts:99-106 | the lookup finds each queue in its own fixed row |
| Types.StatusesComplete | client/src/lib/types.ts:32-41 | `AGENT_STATUSES` lists every status exactly once |
| TimeText.DigitRun | client/src/pages/Home.tsx:50 | the greedy `\d+` run: every character in it is a digit and the next one is not |
| TimeText.SpaceRun | client/src/pages/Home.tsx:50 | the greedy `\s*` run: every character in it is white space and the next one is not |
| TimeText.NatToString | client/src/components/BreakTimesTable.tsx:82 | `toString` of a natural gives a non-empty digit string that `parseInt` reads back as the same number, one digit exactly below 10 |
| TimeText.DecimalValue | client/src/pages/Home.tsx:52-53 | `parseInt(d, 10)` of a digit run, most significant digit first; `NatToString`, `PadDigits` and `LeadingZero` state its round trip and its indifference to leading zeros |
| TimeText.PadStart | client/src/components/BreakTimesTable.tsx:39 | `padStart` keeps the text as a suffix, fills only with the pad character, and reaches the width unless the text is already longer |
| TimeText.MinuteText | client/src/components/BreakTimesTable.tsx:39 | a minute below 100, padded, is two digits that read back as that minute |
| TimeText.PeriodAt | client/src/pages/Home.tsx:50 | an AM/PM match starts at a character that is neither digit nor space and fits in the text |
| TimeText.MatchAt | client/src/pages/Home.tsx:50 | a match at a position starts with a digit, is well formed, and has a period whenever one is required |
| TimeText.MatchAfterColon | client/src/pages/Home.tsx:50 | a match continued after the colon keeps the hour digits already read |
| TimeText.MatchStart | client/src/pages/Home.tsx:50 | the position found is the leftmost where the pattern matches |
| TimeText.FindTime | client/src/pages/Home.tsx:50 | `match` fails exactly when no position matches; a match is well formed and has a period when the pattern requires one |
| TimeText.FindTimeAt | client/src/pages/Home.tsx:50 | the match found is the one at the leftmost matching position |
| TimeText.PeriodicFirstMatch | client/src/components/TimeSlotWarning.tsx:19 | when the optional-period pattern finds a period, the required-period pattern finds the same match |
| TimeText.PadDigits | client/src/components/BreakTimesTable.tsx:60 | padding one or two digits to width 2 keeps their value |
| TimeText.LeadingZero | client/src/components/BreakTimesTable.tsx:60 | a leading zero does not change the value `parseInt` reads |
| TimeText.MatchLabel | client/src/components/BreakTimesTable.tsx:71 | a label `h:m P` built from digit strings matches as exactly `(h, m, P)` under both patterns |
| TimeText.ClockLabelMatch | client/src/components/BreakTimesTable.tsx:71 | the label of an hour, a padded minute and a period matches as exactly those three parts |
| TimeText.MatchBare | client/src/pages/Home.tsx:66-67 | a bare `h:m` matches as `(h, m)` with no period |
| TimeText.TrimStart | client/src/components/TimeSlotWarning.tsx:51 | only leading white space is removed, and the rest starts with a non-space |
| TimeText.TrimEnd | client/src/components/TimeSlotWarning.tsx:51 | only trailing white space is removed, and the rest ends with a non-space |
| TimeText.Trim | client/src/components/TimeSlotWarning.tsx:51 | `trim()` leaves no white space at either end, never lengthens the text, and gives "" exactly for a text of white space |
| TimeText.IndexOf | client/src/pages/Home.tsx:63 | the first occurrence of the separator at or after a position, or the end when there is none |
| TimeText.Split | client/src/pages/Home.tsx:63 | `split` yields at least one part, and no part contains the separator |
| TimeText.SplitJoin | client/src/pages/Home.tsx:63 | joining the parts of a split with the separator gives back the text |
| TimeText.Join | client/src/pages/Home.tsx:286 | `join(sep)` of a non-empty list starts with its first part |
| TimeText.SplitNone | client/src/pages/Home.tsx:63-64 | a text without the separator splits into itself alone |
| TimeText.SplitTwo | client/src/pages/Home.tsx:63-64 | `a + sep + b` splits into `[a, b]` when the separator occurs only at the seam |
| TimeText.MatchAtPad | client/src/components/TimeSlotWarning.tsx:19 | white space appended after a text does not change a match that starts in it |
| TimeText.FindTimePrefix | client/src/components/TimeSlotWarning.tsx:19 | two texts whose matches agree at every start in the shorter and find nothing past it give the same first match |
| TimeText.FindTimeTrail | client/src/components/TimeSlotWarning.tsx:19-51 | appending white space does not change the first match |
| TimeText.FindTimeTrimEnd | client/src/components/TimeSlotWarning.tsx:19-51 | removing trailing white space does not change the first match |
| HomeTime.ParseTimeToMinutes | client/src/pages/Home.tsx:49-60 | a label with no `digits:digits AM/PM` gives 0 |
| HomeTime.ClockHour | client/src/pages/Home.tsx:56-57 | a 12-hour reading gives a 24-hour hour below 24; `ClockHourRules` states which readings are morning |
| HomeTime.ParseMatched | client/src/pages/Home.tsx:49-60 | a matched label gives the 24-hour hour of its digits and period times 60, plus its minutes |
| HomeTime.ClockHourRules | client/src/pages/Home.tsx:56-57 | 12 AM is hour 0 and 12 PM is hour 12; other AM hours are unchanged and other PM hours gain 12 |
| HomeTime.ClockHourModulo | client/src/pages/Home.tsx:56-57 | for hours 1 to 12 the rule is `h mod 12`, plus 12 for PM, which stays below 24 |
| HomeTime.ParseClockLabel | client/src/pages/Home.tsx:49-60 | a clock label `h:mm P` reads as its minute of the day, below 1440 |
| HomeTime.SlotHour | client/src/pages/Home.tsx:76-86 | slot hours 1 to 9 gain 12, and every other hour is unchanged |
| HomeTime.ParseSlotTimes | client/src/pages/Home.tsx:62-92 | a slot parses exactly when it splits on " - " into two parts that each contain `digits:digits` |
| HomeTime.SplitAroundSeparator | client/src/pages/Home.tsx:63 | two blank-free times joined by " - " split back into the two times |
| HomeTime.ParseSlotText | client/src/pages/Home.tsx:62-92 | `h1:m1 - h2:m2` parses to the slot minutes of both ends |
| HomeTime.ParseSlotOfParts | client/src/pages/Home.tsx:62-92 | a slot whose two parts match bare times parses to the slot minutes of both ends |
| HomeTime.ParseSlotLabel | client/src/pages/Home.tsx:62-92 | a slot label built from numbers parses back to the slot minutes of those numbers |
| HomeTime.ParseHourSlot | client/src/pages/Home.tsx:62-92 | a whole-hour slot splits into its two times and parses to their slot minutes |
| HomeTime.DefaultSlotsConsecutive | client/src/lib/types.ts:18-28 | the nine default slots parse to consecutive hours, from 600–660 up to 1080–1140 |
| HomeTime.DefaultSlotParts | client/src/lib/types.ts:18-28 | default slot k splits into its two hours and parses to `[600 + 60k, 660 + 60k]` |
| HomeTime.DefaultSlotText | client/src/lib/types.ts:18-28 | default slot k is the whole-hour label of default hours k and k + 1 |
| HomeTime.HourDigits | client/src/lib/types.ts:18-28 | each default hour is a digit string whose slot minute is `600 + 60k` |
| HomeTime.DefaultSlotsChain | client/src/lib/types.ts:18-28 | every default slot has two parts, and each one's start text is the previous one's end text |
| HomeTime.AdjacentSlots | client/src/lib/types.ts:18-28 | two slots sharing a middle part chain: the start of the later one is the end of the earlier one |
| HomeBreaks.Spans | client/src/pages/Home.tsx:105-108 | one parsed interval per break |
| HomeBreaks.IsAgentOnBreak | client/src/pages/Home.tsx:94-115 | the loop with its early return decides exactly the on-break predicate |
| HomeBreaks.OnBreak | client/src/pages/Home.tsx:94-115 | an agent is on break only with a non-empty break record and a readable slot; `OnBreakMeans` gives both directions |
| HomeBreaks.OnBreakMeans | client/src/pages/Home.tsx:94-115 | on break exactly when the agent has a record, the slot parses, and some break starts before the slot ends and ends after it starts |
| HomeBreaks.AnyMeetsExists | client/src/pages/Home.tsx:105-111 | the break scan succeeds exactly when some break overlaps the slot |
| HomeBreaks.SpansAt | client/src/pages/Home.tsx:105-108 | the k-th interval is the parsed k-th break |
| HomeBreaks.SpansSnoc | client/src/pages/Home.tsx:105-112 | scanning one more break adds exactly that break's overlap test |
| HomeBreaks.AnyMeetsPrefix | client/src/pages/Home.tsx:105-112 | an overlap found in a prefix of the breaks is an overlap of the whole list |
| HomeBreaks.EndWithoutPeriodNeverBlocks | client/src/pages/Home.tsx:106-109 | a break whose end has no AM/PM reads as 0 and overlaps no slot |
| HomeBreaks.NoReadableEndNotOnBreak | client/src/pages/Home.tsx:94-115 | an agent none of whose break ends has an AM/PM is never on break |
| HomeBreaks.ActiveBreaks | client/src/pages/Home.tsx:133-136 | the kept breaks are exactly those in the list that end after now |
| HomeBreaks.RemoveExpiredBreaks | client/src/pages/Home.tsx:124-147 | the `forEach` builds exactly the purged table |
| HomeBreaks.PurgeExpired | client/src/pages/Home.tsx:124-147 | the purged table has no new agents, keeps each record's agent id, and keeps no record without breaks |
| HomeBreaks.PurgeKeepsOnlyActive | client/src/pages/Home.tsx:124-147 | the purge adds no agent and no break, keeps only breaks that end after now, keeps the agent id, and keeps no empty record |
| HomeBreaks.PurgeKeepsEveryActive | client/src/pages/Home.tsx:124-147 | an agent stays exactly when one of its breaks ends after now, and then keeps every such break |
| HomeBreaks.ActiveBreaksAppend | client/src/pages/Home.tsx:133-136 | the filter distributes over concatenation, so order is kept |
| HomeBreaks.ActiveBreaksIdempotent | client/src/pages/Home.tsx:133-136 | filtering twice with the same now equals filtering once |
| HomeBreaks.PurgeIdempotent | client/src/pages/Home.tsx:124-147 | purging twice with the same now equals purging once |
| HomeBreaks.RefilteredUnchanged | client/src/pages/Home.tsx:132-144 | a rebuild that keeps every record's non-empty break list returns the table unchanged |
| Seating.TotalReq | client/src/pages/Home.tsx:271 | the slot total is the sum of the six queues' requirements, a missing queue counting 0 |
| Seating.OffsetBounds | client/src/pages/Home.tsx:271 | the running sum of requirements over `QUEUES` grows and stays within the slot total |
| Seating.ZeroTotal | client/src/pages/Home.tsx:271-275 | the running sum is zero exactly when every queue so far asks for nobody |
| Seating.FreshConsistent | client/src/pages/Home.tsx:261-265 | an agent with empty counters and total 0 is consistent: its total is the sum of its counts |
| Seating.ZeroCountSum | client/src/pages/Home.tsx:261-265 | empty counters sum to 0 |
| Seating.Bump | client/src/pages/Home.tsx:312-313 | a seat adds exactly 1 to the queue's count and to the total, and changes nothing else |
| Seating.BumpCount | client/src/pages/Home.tsx:312 | a seat changes the count of its own queue only |
| Seating.Position | client/src/lib/types.ts:16 | every queue has a position in `QUEUES` |
| Seating.BumpCountSum | client/src/pages/Home.tsx:312-313 | a seat raises the sum of the counts by exactly 1 |
| Seating.BumpConsistent | client/src/pages/Home.tsx:312-313 | a seat keeps total equal to the sum of the counts |
| Seating.FindById | client/src/pages/Home.tsx:310 | `find` returns the first record with the id, or none |
| Seating.FindByIdAt | client/src/pages/Home.tsx:310 | with distinct ids, `find` returns the record's own position |
| Seating.Seat | client/src/pages/Home.tsx:310-314 | seating keeps the number of records |
| Seating.ApplySeats | client/src/pages/Home.tsx:303-316 | handing out seats keeps the number of records |
| Seating.SeatAt | client/src/pages/Home.tsx:310-314 | a seat bumps exactly the record whose id matches and no other |
| Seating.SeatStep | client/src/pages/Home.tsx:306-314 | one more seat bumps exactly the matching record by its queue |
| Seating.ApplySeatsEffect | client/src/pages/Home.tsx:303-316 | seats change only counters, raise each total by that agent's number of seats, and keep counts consistent |
| Seating.ApplySeatsCounts | client/src/pages/Home.tsx:303-316 | each queue count rises by exactly the seats that agent got in that queue |
| Seating.ApplySeatsUntouched | client/src/pages/Home.tsx:303-316 | an agent who gets no seat is unchanged |
| Seating.SeatedDistinct | client/src/pages/Home.tsx:303-316 | seating keeps every record's id in place, so ids stay distinct |
| Seating.ApplySeatsIds | client/src/pages/Home.tsx:303-316 | seating keeps every record's id in place |
| Seating.SeatsOfDistinct | client/src/pages/Home.tsx:303-316 | with distinct seated agents, each agent is seated at most once |
| Seating.Insert | client/src/pages/Home.tsx:296-298 | insertion adds exactly the one agent |
| Seating.InsertedFrom | client/src/pages/Home.tsx:296-298 | every entry after insertion is the inserted agent or an entry of the old list |
| Seating.InsertSorted | client/src/pages/Home.tsx:296-298 | insertion keeps the list ordered by (total, tie-break) |
| Seating.InsertDistinct | client/src/pages/Home.tsx:296-298 | inserting a new id keeps ids distinct |
| Seating.SortByTotal | client/src/pages/Home.tsx:296-298 | the sort is a permutation, ordered by non-decreasing total and then by the tie-break |
| Seating.SortedFrom | client/src/pages/Home.tsx:296-298 | every sorted entry is an entry of the input |
| Seating.SortDistinct | client/src/pages/Home.tsx:296-298 | sorting keeps ids distinct |
| Seating.NickRange | client/src/pages/Home.tsx:308 | the names pushed for a range of positions are those positions' nicknames, in order |
| Seating.Repeat | client/src/pages/Home.tsx:305 | n seats of one queue |
| Seating.SeatQueues | client/src/pages/Home.tsx:303-305 | one queue entry per seat asked for so far |
| Seating.SeatQueuesAt | client/src/pages/Home.tsx:303-306 | the seats of queue k are exactly positions `offset(k)` up to `offset(k + 1)` of the shared index |
| Seating.SeatQueuesPrefix | client/src/pages/Home.tsx:303-306 | handing out more queues does not change the seats already handed out |
| Seating.AssignsAt | client/src/pages/Home.tsx:301-316 | a queue has an entry exactly when it has been reached, holding the nicknames of its consecutive block of the ordering |
| Seating.SeatsPerQueue | client/src/pages/Home.tsx:303-316 | when enough agents are available, every queue gets exactly its requirement of names |
| Seating.FillSeats | client/src/pages/Home.tsx:300-316 | the nested loops produce exactly the per-queue name blocks and the bumped counters |
| Seating.FillQueue | client/src/pages/Home.tsx:305-315 | the inner loop advances the shared index by the queue's need, pushes those nicknames and seats those agents |
| Seating.SeatAgent | client/src/pages/Home.tsx:310-314 | the in-place increment of the found record is exactly one seat |
| Generation.Filter | client/src/pages/Home.tsx:277-283 | a filter keeps at most the records it scans |
| Generation.FilterMembers | client/src/pages/Home.tsx:277-283 | a record is kept exactly when it is a working record whose on-break status is the one asked for |
| Generation.FilterPartition | client/src/pages/Home.tsx:277-283 | the available agents and the agents on break together number all working records |
| Generation.FilterDistinct | client/src/pages/Home.tsx:277-283 | filtering keeps ids distinct |
| Generation.FilterNonEmpty | client/src/pages/Home.tsx:281-291 | a filter keeps someone exactly when some record has the wanted status |
| Generation.FilterByBreak | client/src/pages/Home.tsx:277-283 | the loop computes the filter, asking the break test once per record |
| Generation.ProcessSlot | client/src/pages/Home.tsx:269-322 | one slot's processing yields exactly the specified result and counters |
| Generation.WarningText | client/src/pages/Home.tsx:291 | the warning starts with the slot name; it ends with the joined on-break nicknames when there are any, and with `)` when there are none |
| Generation.SlotStep | client/src/pages/Home.tsx:269-322 | one slot keeps the number of working copies; it gives a result exactly when the slot asks for someone, for that slot and total; a skipped or warned slot leaves the counters alone |
| Generation.StepResult | client/src/pages/Home.tsx:269-322 | a result exists exactly when the slot asks for someone; it warns exactly when more are asked than available, and then has no seats and leaves the counters alone; otherwise each queue gets exactly its requirement |
| Generation.StepWarning | client/src/pages/Home.tsx:285-293 | an unfillable slot's result is the warning text with required, available and the on-break nicknames, and no seats |
| Generation.AwayMembers | client/src/pages/Home.tsx:281-286 | the warning names exactly the working records on break |
| Generation.AwayNonEmpty | client/src/pages/Home.tsx:291 | the " - On break" suffix appears exactly when some working record is on break |
| Generation.OrderingDistinct | client/src/pages/Home.tsx:296-298 | no agent appears twice in the seat order, so none is seated twice in a slot |
| Generation.OrderingMembers | client/src/pages/Home.tsx:277-298 | everyone in the seat order is a working record and not on break |
| Generation.OrderingHasAvailable | client/src/pages/Home.tsx:277-298 | every working record not on break is in the seat order |
| Generation.StepSeats | client/src/pages/Home.tsx:296-316 | a slot changes only counters, raises each total by at most 1, keeps counts consistent, and leaves on-break agents unchanged |
| Generation.StepFair | client/src/pages/Home.tsx:296-316 | an available agent left unseated never had a smaller total before the slot than a seated one |
| Generation.SlotNames | client/src/pages/Home.tsx:318-322 | one slot name per result |
| Generation.ResultsSnoc | client/src/pages/Home.tsx:287-322 | pushing a well-formed result appends its slot name and keeps every result well formed |
| Generation.StepOkAt | client/src/pages/Home.tsx:269-322 | a step that is well behaved returns a result for a slot exactly when it asks for someone, labelled with that slot |
| Generation.SlotStepperOk | client/src/pages/Home.tsx:269-322 | the slot step of the source is well behaved |
| Generation.RunResults | client/src/pages/Home.tsx:267-323 | the results name exactly the slots that ask for someone, in list order, and each is well formed |
| Generation.GrownTrans | client/src/pages/Home.tsx:269-323 | growth of the counters over consecutive slot runs adds up |
| Generation.GrownDistinct | client/src/pages/Home.tsx:269-323 | the slot loop keeps ids distinct |
| Generation.StepGrows | client/src/pages/Home.tsx:296-316 | one slot raises each counter total by at most 1 and keeps counts consistent |
| Generation.StepCount | client/src/pages/Home.tsx:269-323 | one slot keeps the number of working records |
| Generation.SlotStepperGrows | client/src/pages/Home.tsx:269-323 | the slot step of the source grows counters by at most one per slot |
| Generation.RunCounters | client/src/pages/Home.tsx:269-323 | after n slots every counter is consistent and at most n above where it started |
| Generation.Reset | client/src/pages/Home.tsx:261-265 | the working copy has empty counters and total 0 and otherwise equals the agent |
| Generation.Roster | client/src/pages/Home.tsx:259-265 | the working copy has at most as many records as the roster |
| Generation.RosterMembers | client/src/pages/Home.tsx:259-265 | the working copy holds exactly the PRESENT agents with counters reset, and keeps ids distinct |
| Generation.Merged | client/src/pages/Home.tsx:325-340 | merging back changes only an agent's counters |
| Generation.MergeBack | client/src/pages/Home.tsx:325-341 | each agent in roster order takes its counters from its working copy, or empty ones |
| Generation.Generate | client/src/pages/Home.tsx:252-345 | the generation method computes exactly the specified outcome |
| Generation.Segmentation | client/src/pages/Home.tsx:256-341 | the agents keep their places and every field but their counters, and the purged break table has no new agents |
| Generation.Settles | client/src/pages/Home.tsx:259-341 | after generation every agent keeps its place and fields, has total equal to the sum of its counts and at most the number of slots, and non-present agents end with empty counters |
| Generation.ResultsMatchSlots | client/src/pages/Home.tsx:267-343 | the results of a generation name exactly the demanded slots, in order, all well formed |
| Filters.Without | client/src/pages/Home.tsx:193 | never longer than the list it filters |
| Filters.WithoutMembers | client/src/pages/Home.tsx:193 | exactly the entries whose key differs remain |
| Filters.WithoutAppend | client/src/components/BreakTimesTable.tsx:225-227 | deleting from a concatenation deletes from each part and keeps them in order |
| Filters.WithoutAbsent | server/storage.ts:95 | deleting a key no entry carries changes nothing |
| Filters.WithoutDistinct | server/storage.ts:95 | deleting from a list without repeats leaves a list without repeats |
| Filters.WithoutAgreeing | client/src/components/BreakTimesTable.tsx:225-227 | lists that differ only in entries carrying the deleted key give the same result |
| HomeState.ZeroRowAsksNothing | client/src/pages/Home.tsx:229 | the all-zero headcount row has all six queues and asks for nobody |
| HomeState.Initial | client/src/pages/Home.tsx:151-156 | the page starts with the given agents, the default slots each backed by a zero row, no breaks, no results and nothing generated |
| HomeState.InitHeadcount | client/src/pages/Home.tsx:38-47 | the initial headcount has a row exactly for the given slots, all rows zero |
| HomeState.InitialBacked | client/src/pages/Home.tsx:151-154 | the initial state backs every listed slot with a headcount row |
| HomeState.StatusChange | client/src/pages/Home.tsx:159-175 | the agents with the id get the status and empty counters; everyone else is unchanged; results are cleared and the generated flag dropped |
| HomeState.DeleteAgent | client/src/pages/Home.tsx:191-202 | exactly the agents with other ids remain, in their order; the agent's break record is dropped, every other record is kept, and the slots, headcount and results are unchanged |
| HomeState.BreakChange | client/src/pages/Home.tsx:204-212 | the agent's break record becomes the given list; every other record, the roster, slots, headcount, results and generated flag are unchanged |
| HomeState.Clamp | client/src/pages/Home.tsx:219 | values in [0, 99] are kept, lower ones become 0 and higher ones 99 |
| HomeState.HeadcountChange | client/src/pages/Home.tsx:214-222 | only the (slot, queue) entry changes, to the clamped value; roster, breaks, slots, results and generated flag are unchanged |
| HomeState.AddTimeSlot | client/src/pages/Home.tsx:224-236 | an existing slot changes nothing; a new slot is appended with an all-zero row, and roster, breaks, other rows, results and generated flag are unchanged |
| HomeState.RemoveTimeSlot | client/src/pages/Home.tsx:238-250 | exactly the other slots remain, in their order; the slot's headcount row goes and the others are kept; roster and breaks are unchanged; results are cleared and the generated flag dropped |
| HomeState.HandlersKeepBacked | client/src/pages/Home.tsx:159-250 | every handler keeps every listed slot backed by a headcount row |
| HomeState.Generate | client/src/pages/Home.tsx:252-345 | the page takes the agents, purged break table and results that `Segmentation` produces, keeps slots and headcount and their backing, and sets the generated flag |
| SlotWarning.WarningHour | client/src/components/TimeSlotWarning.tsx:25-36 | with a period the Home clock rules apply; without one hours 1 to 9 gain 12 and others are unchanged |
| SlotWarning.WarningMinutes | client/src/components/TimeSlotWarning.tsx:18-39 | no `digits:digits` gives 0; otherwise the hour rule times 60 plus the minutes |
| SlotWarning.WarningAgreesOnClockTimes | client/src/components/TimeSlotWarning.tsx:18-27 | on a label with AM/PM this parser agrees with Home's |
| SlotWarning.WarningClockLabel | client/src/components/TimeSlotWarning.tsx:18-39 | a clock label reads as its minute of the day |
| SlotWarning.SlotEnd | client/src/components/TimeSlotWarning.tsx:48-52 | there is an end exactly when the slot has two " - " parts, and it is the minutes of the trimmed second part |
| SlotWarning.TrimUntouched | client/src/components/TimeSlotWarning.tsx:51 | a text that starts and ends with a digit is its own trim |
| SlotWarning.BareUntrimmed | client/src/components/TimeSlotWarning.tsx:51 | a bare `h:m` is its own trim and matches without a period |
| SlotWarning.WarningMinutesBare | client/src/components/TimeSlotWarning.tsx:28-38 | a bare time reads with the same slot-hour rule as Home's `parseSlotTimes` |
| SlotWarning.SlotEndOfParts | client/src/components/TimeSlotWarning.tsx:48-52 | a slot whose end part is a bare time ends at that time's slot minutes |
| SlotWarning.SlotEndOfLabel | client/src/components/TimeSlotWarning.tsx:48-52 | for every label the scheduler builds (`SlotLabel`) the end equals the `end` of Home's `parseSlotTimes` |
| SlotWarning.SlotEndAgrees | client/src/components/TimeSlotWarning.tsx:48-52 | for every slot Home's `parseSlotTimes` reads whose end part has no period and no leading white space, the warning's end equals Home's `end` |
| SlotWarning.HourSlotEnd | client/src/components/TimeSlotWarning.tsx:48-52 | a whole-hour slot ends at its second hour's slot minutes |
| SlotWarning.DefaultSlotEnds | client/src/components/TimeSlotWarning.tsx:48-52 | default slot k ends at `660 + 60k` |
| SlotWarning.FirstDue | client/src/components/TimeSlotWarning.tsx:67-80 | the selection is the first slot from a position on that is locked, not dismissed, has an end, and ends within 1 to 5 minutes; none when no such slot exists |
| SlotWarning.FirstDueSkip | client/src/components/TimeSlotWarning.tsx:67-80 | slots that are not due can be skipped without changing the selection |
| SlotWarning.NeverDue | client/src/components/TimeSlotWarning.tsx:68-72 | a dismissed, unlocked or unparseable slot is never selected |
| SlotWarning.EmptySlotNeverDue | client/src/components/TimeSlotWarning.tsx:93 | the empty label is never selected |
| SlotWarning.DismissMovesOn | client/src/components/TimeSlotWarning.tsx:92-102 | after dismissing the selected slot, the next check selects the next due slot after it |
| SlotWarning.SameDueAfter | client/src/components/TimeSlotWarning.tsx:67-80 | the selection depends only on whether each remaining slot is dismissed |
| SlotWarning.SlotWarning.constructor | client/src/components/TimeSlotWarning.tsx:59-61 | the dialog starts hidden with no slot and nothing dismissed |
| SlotWarning.SlotWarning.CheckTimeSlots | client/src/components/TimeSlotWarning.tsx:63-82 | the loop shows the first due slot, or leaves the state as it was, and never changes the dismissed set |
| SlotWarning.SlotWarning.Dismiss | client/src/components/TimeSlotWarning.tsx:92-102 | exactly the current slot is added to the dismissed set, and the dialog is cleared |
| BreakEditor.ParseTime | client/src/components/BreakTimesTable.tsx:57-63 | an unmatched value gives 10:00 AM; otherwise the hour digits, two or more minute digits and AM or PM |
| Wrappers.TextOr | client/src/components/BreakTimesTable.tsx:68-70 | `x \|\| fallback` on text, as in `handleChange` and in `createAgent`'s defaults (server/storage.ts, lines 75-76): a non-empty value wins, an empty or missing one takes the fallback |
| BreakEditor.Compose | client/src/components/BreakTimesTable.tsx:71 | the label is the hour, `:`, the minute, a space and the period, in that order |
| BreakEditor.HandleChange | client/src/components/BreakTimesTable.tsx:67-72 | three non-empty choices give exactly their label whatever the value was; no choice at all gives back the value as parsed |
| BreakEditor.ComposePicked | client/src/components/BreakTimesTable.tsx:71 | the composed value is the clock label `h:mm P` |
| BreakEditor.PadTwoDigits | client/src/components/BreakTimesTable.tsx:39-60 | padding a listed minute again changes nothing |
| BreakEditor.ParsePicked | client/src/components/BreakTimesTable.tsx:57-72 | parsing a composed value gives back its hour, minute and period |
| BreakEditor.HandleChangeOn | client/src/components/BreakTimesTable.tsx:65-72 | a change composes the chosen parts, falling back to the parsed current parts |
| BreakEditor.PickerTextsNonEmpty | client/src/components/BreakTimesTable.tsx:38-40 | every picker option is non-empty, so choosing it always wins over the current part |
| BreakEditor.AllChosen | client/src/components/BreakTimesTable.tsx:67-72 | with all three parts chosen, the value is composed from them alone |
| BreakEditor.ChooseAll | client/src/components/BreakTimesTable.tsx:67-72 | choosing hour, minute and period then parsing gives back the choice |
| BreakEditor.PickerLists | client/src/components/BreakTimesTable.tsx:38-39 | `HOURS[i]` is i + 1 and `MINUTES[j]` is j padded to two digits |
| BreakEditor.PickerRoundTrip | client/src/components/BreakTimesTable.tsx:38-72 | for any options from `HOURS`, `MINUTES` and `PERIODS`, parsing the value built from them gives them back |
| BreakEditor.ChangeKeepsOthers | client/src/components/BreakTimesTable.tsx:67-71 | changing some parts keeps the others of the current value |
| BreakEditor.PadValue | client/src/components/BreakTimesTable.tsx:60 | padding the minute keeps its value |
| BreakEditor.PickerShowsClockTime | client/src/components/BreakTimesTable.tsx:57-63 | the picker's parts read as the same minute of day that Home's parser gives |
| BreakEditor.LabelMinutes | client/src/components/BreakTimesTable.tsx:42-46 | a label `h:m P` reads as the clock hour times 60 plus m |
| BreakEditor.EarlyBreakStart | client/src/components/BreakTimesTable.tsx:43 | Home's parser reads the early break's start as minute 660 (11:00 AM) |
| BreakEditor.EarlyBreakEnd | client/src/components/BreakTimesTable.tsx:43 | Home's parser reads the early break's end as minute 675 (11:15 AM) |
| BreakEditor.LunchBreakStart | client/src/components/BreakTimesTable.tsx:44 | Home's parser reads the lunch break's start as minute 720 (12:00 PM) |
| BreakEditor.LunchBreakEnd | client/src/components/BreakTimesTable.tsx:44 | Home's parser reads the lunch break's end as minute 780 (1:00 PM) |
| BreakEditor.LateBreakStart | client/src/components/BreakTimesTable.tsx:45 | Home's parser reads the late break's start as minute 960 (4:00 PM) |
| BreakEditor.LateBreakEnd | client/src/components/BreakTimesTable.tsx:45 | Home's parser reads the late break's end as minute 975 (4:15 PM) |
| BreakEditor.PresetsStartBeforeEnd | client/src/components/BreakTimesTable.tsx:42-46 | every preset break starts before it ends |
| BreakEditor.Ids | client/src/components/BreakTimesTable.tsx:207 | the ids of a break list, in order |
| BreakEditor.AddPresetBreak | client/src/components/BreakTimesTable.tsx:193-202 | exactly one break is appended, carrying the preset's name and times, and earlier breaks are unchanged |
| BreakEditor.SaveCustomBreak | client/src/components/BreakTimesTable.tsx:204-223 | an edit keeps length and ids, rewrites name and times of the edited id only, and leaves the others in order; a new break is appended, named "Break" when the name is empty |
| BreakEditor.DeleteBreak | client/src/components/BreakTimesTable.tsx:225-227 | exactly the breaks with other ids remain, and the list never grows |
| BreakEditor.DeleteUndoesAdd | client/src/components/BreakTimesTable.tsx:193-227 | deleting a freshly added preset break restores the list |
| BreakEditor.DeleteAfterEdit | client/src/components/BreakTimesTable.tsx:204-227 | deleting an edited break gives the same list as deleting it unedited |
| Storage.NewAgent | server/storage.ts:71-81 | the new record keeps name and nickname; empty rest days and status become "Sun-Mon" and "N/A", missing assignments and total become {} and 0, an empty avatar becomes null, productivity stays unset; it takes the given id and order |
| Storage.NewAgentDefaults | server/storage.ts:71-81 | an input with only name and nickname gets every default |
| Storage.Patched | server/storage.ts:89 | an overlay never changes the id |
| Storage.PatchedLaws | server/storage.ts:89 | the empty overlay changes nothing, and overlaying twice equals once |
| Storage.PatchedSortOrderOnly | server/storage.ts:102 | overlaying only a sort order changes only that field |
| Storage.ValuesInOrder | server/storage.ts:60 | the stored agents in insertion order |
| Storage.InsertByOrder | server/storage.ts:60 | insertion keeps the list ordered by `sortOrder`, one longer |
| Storage.ConsSorted | server/storage.ts:60 | an agent no later than a sorted list can go first |
| Storage.InsertPermutes | server/storage.ts:60 | insertion adds exactly the one agent |
| Storage.SortByOrder | server/storage.ts:60 | the sort is ordered by non-decreasing `sortOrder` and keeps the length |
| Storage.SortPermutes | server/storage.ts:60 | the sort is a permutation |
| Storage.SortSorted | server/storage.ts:60 | a list already in order is left as it is |
| Storage.InsertLast | server/storage.ts:60 | an agent no earlier than the whole list goes last |
| Storage.MaxSortOrder | server/storage.ts:70 | the reduce gives -1 or an attained order, and no agent's order is above it |
| Storage.LargestSortOrder | server/storage.ts:70 | the reduce loop computes that maximum |
| Storage.ApplyOrder | server/storage.ts:100-103 | one reorder step keeps the set of ids |
| Storage.ApplyOrders | server/storage.ts:99-104 | reordering keeps the set of ids |
| Storage.ApplyOrdersEffect | server/storage.ts:98-105 | each stored agent changes only its `sortOrder`, to the last one given for its id, or keeps it; unknown ids add nothing |
| Storage.Coalesce | server/storage.ts:114-121 | `given ?? previous ?? fallback` |
| Storage.MergeState | server/storage.ts:111-125 | the merged state always has id "default" |
| Storage.ResetIgnoresPrior | server/storage.ts:127-138 | a reset gives the default state whatever came before |
| Storage.FirstEmptyUpdate | server/storage.ts:111-125 | an empty update of no state gives the default state |
| Storage.EmptyUpdateKeeps | server/storage.ts:111-125 | an empty update keeps every field of the state |
| Storage.MergeTwice | server/storage.ts:111-125 | two updates in a row equal one update with the later fields taking precedence |
| Storage.MergeIdempotent | server/storage.ts:111-125 | repeating an update changes nothing |
| Storage.AgentAppended | server/storage.ts:82 | filing a fresh agent keeps the table and its insertion order in step |
| Storage.DistinctKeys | server/storage.ts:60 | an insertion order listing every key once is as long as the table |
| Storage.DistinctCard | server/storage.ts:60 | a list without repeats has as many distinct members as entries |
| Storage.MemStorage.constructor | server/storage.ts:38-42 | the store starts with no users, no agents and no state |
| Storage.MemStorage.GetUser | server/storage.ts:44-46 | the user with the id, or none |
| Storage.MemStorage.GetUserByUsername | server/storage.ts:48-50 | none exactly when no user has the name; otherwise the first such user in insertion order |
| Storage.MemStorage.CreateUser | server/storage.ts:52-57 | the user is filed under the fresh id, and nothing else changes |
| Storage.MemStorage.GetAllAgents | server/storage.ts:59-61 | every stored agent exactly once, ordered by non-decreasing `sortOrder` |
| Storage.MemStorage.GetAgent | server/storage.ts:63-65 | the agent with the id, or none |
| Storage.MemStorage.CreateAgent | server/storage.ts:67-84 | the new agent takes the defaults and an order above every existing one (0 or one above the largest), is filed under the fresh id, and nothing else changes |
| Storage.MemStorage.UpdateAgent | server/storage.ts:86-92 | an unknown id gives none and changes nothing; otherwise only that record is overlaid |
| Storage.MemStorage.DeleteAgent | server/storage.ts:94-96 | the id leaves the table and the insertion order, the other ids keep their order and stay distinct, and users and state are unchanged |
| Storage.MemStorage.UpdateAgentOrder | server/storage.ts:98-105 | the loop applies the reorder described by `ApplyOrdersEffect`, and nothing else changes |
| Storage.MemStorage.GetAppState | server/storage.ts:107-109 | the stored state, if any |
| Storage.MemStorage.UpdateAppState | server/storage.ts:111-125 | the new state is the merge of the update into the old one, and the agent and user tables are unchanged |
| Storage.MemStorage.ResetAppState | server/storage.ts:127-138 | the state becomes the default state, and the tables are unchanged |

## Left out

- The clock. `getPhilippinesTime` (Date and time-zone arithmetic) is not modelled; the current minute of the day is the parameter `now`.
- `Math.random()`. The tie-break is an arbitrary ranking parameter. The model fixes one ranking per (slot, agent), whereas a JavaScript comparator that returns random values may order inconsistently.
- `crypto.randomUUID` / `randomUUID`. Fresh ids are parameters, required to be unused.
- React plumbing: `useState` setters, `setTimeout` and the busy flag, the 30-second `setInterval`, toasts, dialogs and rendering. `showWarning` and the dialog mode are kept only where a handler sets them.
- `handleAddAgent` and `handleEditBreak`. They only copy a value with a fresh id, or copy fields into the dialog.
- `DatabaseStorage`, `server/db.ts`, `server/routes.ts` and `shared/schema.ts` (database and HTTP I/O). `async`/`Promise` and the `lastUpdated` timestamp of `updateAppState` are dropped.
- `parseInt` is modelled on digit strings as an unbounded natural. Numbers beyond 2^53, where JavaScript loses precision, are not modelled.
- Generation.OrderingDistinct, Generation.StepSeats, Generation.StepFair, Generation.GrownDistinct, Generation.Settles: these require the roster's ids to be distinct, which the code never checks. They are distinct in practice because `INITIAL_AGENTS` uses "1" to "12" and `handleAddAgent` draws `crypto.randomUUID()` (`Home.tsx:24-35`, `Home.tsx:180`). With a repeated id, `agentsCopy.find` (`Home.tsx:310`) would credit the first copy once per duplicate; the model does not describe that case.
- SlotWarning.SlotEndAgrees: requires the end part after " - " not to start with white space. That the first match is unchanged by leading white space under `trim` is not proved; trailing white space is (`TimeText.FindTimeTrimEnd`). Splitting on " - " already consumes the usual single space.
- JSON columns (`headcountData`, `segmentationResults`, `queueTimeSlots`) are typed Dafny values rather than free JSON.
- Headcount rows are keyed by the `Queue` type. Other keys, which `handleHeadcountChange` would accept as strings, cannot be represented.
- Generation.Generate and Generation.Segmentation require every listed slot to have a headcount row. Without one the source throws a `TypeError`. `HomeState.HandlersKeepBacked` proves that the handlers keep this requirement.
- Generation.StepFair states fairness against totals before the slot only. The random tie order among equal totals is not constrained.
- Storage.MemStorage.GetAllAgents does not state how agents with equal `sortOrder` are ordered. JavaScript's sort is stable, but the model only proves ordering and permutation.
- The iteration order of a JavaScript `Map` is modelled by an insertion-order sequence kept beside each map (`userOrder`, `agentOrder`). Deleting an agent removes its id from that sequence, as `Map.delete` does.
- `QUEUE_QUOTAS` and `QUEUE_DIFFICULTY_ORDER` are proved well formed but, as in the code, never used by generation.
