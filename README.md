# Homework solutions: robbery planner, event emitter, phone book, wedding invitations, warm-up

A Dafny model of five JavaScript modules:

- **Robbery window finder** (`src/robbery.js`). `getAppropriateMoment` takes the gang's busy intervals (`ДН HH:MM+O` tokens) and the bank's daily hours (`HH:MM+O`). It rewrites the intervals in place as minutes of a three-day timeline in the bank's zone. It marks each party's intervals on a gang or a bank difference array, turns both arrays into occupancy signals with running sums, and scans for runs of `duration` minutes in which nobody is busy and the bank is open. It returns a cursor with `exists`, `format` and `tryLater`.
- **Event emitter** (`src/emitter.js`). A table from event names to ordered subscription records:
  - `on`, `several` and `through` append a record.
  - `off` splices the records of a context out of every list its event name covers.
  - `emit` visits the event's namespaces from the most specific to the least. Each record is offered to `callHandler`, which applies the `times` and `frequency` gates; the record counts the emission either way.
- **Phone book** (`src/phonebook.js`).
  - `add` and `update` store entries under ten-digit phones.
  - `find` renders the matches of a substring query as sorted lines.
  - `findAndRemove` counts literal matches.
  - `importFromDsv` reads `name;phone;email` rows.
- **Wedding invitations** (`src/marriage.js`).
  - The first level is the best friends. Each next level is the friends the previous level names who are not invited yet, once each, sorted by name.
  - The traversal stops at an empty level or at the level cap.
  - A gender filter picks the guests, and an iterator hands them out.
- **Warm-up** (`src/warmup.js`). Nine small functions and the `TypeError`/`RangeError` each throws.

The model has one module per source file: `Robbery`, `Emitter`, `PhoneBook`, `Marriage` and `Warmup`. They share four helper modules for what the source borrows from the JavaScript library: `Wrappers`, `Text`, `Sorting` and `Numerals`.

The model follows the source's shape:
- State the source updates in place is a `class`:
  - the robbery cursor (`Robbery.Moment`);
  - the emitter (`Emitter.EventEmitter`, holding the subscription table and a log of handler calls);
  - the phone book (`PhoneBook.Book`);
  - the invitation iterator (`Marriage.Iterator`).
- The robbery schedule's interval arrays and the two timelines are `array`s, updated in place.
- Loops in the source are `while`/`for` loops with invariants. Each is proved equal to a reference function, and the properties are proved about those functions.

Behaviours the model keeps as written:

- **Robbery scan.** After each window the scan resumes at the window's start plus 30 minutes, not at its end. The windows are proved equal to a greedy definition: the earliest good run at or after a minute `lo`, then the same from that start plus 30 (`Robbery.FindWindows`, `Robbery.GreedySound`, `Robbery.GreedyComplete`).
- **Normalising twice.** Normalisation skips intervals whose ends are already numbers, so a second pass changes nothing (`Robbery.NormalizeTwice`).
- **`off` skips records.** `off` splices inside `forEach`, so the record that moves into a removed one's place is never visited. Of two adjacent records of the same context, only the first is removed (`Emitter.ThinSkipsNext`). All of them are removed only when no two are adjacent (`Emitter.ThinRemovesApart`).
- **`phones === {}`.** In `find` and `findAndRemove` this compares with a fresh object, so it is never true. The model has no early return there; the loops over an empty selection give the same results anyway.
- **`findAndRemove` deletes nothing.** `delete phoneBook.key` deletes the property named `key`, which no ten-digit entry has. `PhoneBook.Book.FindAndRemove` only counts and has no `modifies` clause.
- **`findAndRemove` with `*`.** `getPhones('*')` selects every entry, but the count then tests the literal text `*`. So `findAndRemove('*')` counts the entries whose name or email contains a `*` (`PhoneBook.RemovalCountStar`).
- **Colour ranges.** In `colorsProblem` the range test after `parseInt(…, 16)` never fails: two hex digits are at most 255 (`Warmup.HexByte`). A 7-character string that does not match the pattern fails with a `TypeError`, because `result[1]` is read on `null`. A 4-character one fails with a `RangeError`.

Where the documented behaviour of the robbery engine and the code disagree, the model follows the code:

- **Bank hours.** The code repeats the bank's hours on each of the three days (`src/robbery.js:66-71`). So a gang busy only on Monday still gets a window on Tuesday, where the documented example expects none.
- **Window spacing.** The code resumes the scan 30 minutes after a window's start. Consecutive windows are therefore at least 30 minutes apart (`Robbery.GreedySound`), not `duration + 30`.
- **Non-positive durations and malformed tokens.** The code raises no error for either; it computes with `NaN` or never matches. The model requires readable tokens and `duration >= 1` (see Left out).
- **Normalising in place.** Normalisation overwrites the schedule's intervals in place, as the code does.

## Model

| member | source | states |
|---|---|---|
| Text.Split | src/emitter.js:70 | `split` on one character gives at least one part, and no part contains the separator |
| Text.JoinSplit | src/emitter.js:77-80 | joining the parts of a split with the same separator gives the string back |
| Text.SplitJoin | src/phonebook.js:140 | splitting a join of at least one separator-free part gives the parts back |
| Text.ContainsAt | src/phonebook.js:71-73 | `includes` holds exactly when the query occurs at some index |
| Sorting.SortBy | src/phonebook.js:99 | the sort by a string key returns a permutation of its input that is ordered by character codes |
| Sorting.InsertLast | src/marriage.js:24 | an element whose key is no smaller than any in a sorted sequence is inserted at its end |
| Sorting.SortedUnchanged | src/marriage.js:24 | sorting an already sorted sequence leaves it as it is |
| Sorting.TiesKeepOrder | src/marriage.js:13 | the sort is stable: two elements with equal keys, such as two friends of the same name, keep their order |
| Sorting.LessEqReflexive | src/marriage.js:10 | every name compares as no later than itself |
| Sorting.LessEqTotal | src/marriage.js:10 | any two names are comparable in the order used for sorting |
| Sorting.LessEqTransitive | src/marriage.js:10 | the order used for sorting is transitive |
| Sorting.LessEqAntisymmetric | src/marriage.js:10 | two names each no later than the other are equal |
| Numerals.DigitChar | src/warmup.js:147 | the digit written for a value in 0..35 reads back as that value |
| Numerals.ToBase | src/warmup.js:147 | `toString(base)` of a natural number is a non-empty string of lower-case digits of the base, with no leading zero |
| Numerals.FromToBase | src/warmup.js:147 | reading the numeral written for `n` in a base gives `n` |
| Numerals.ToFromBase | src/warmup.js:147 | a lower-case numeral without a leading zero is the one written for its value |
| Numerals.Pad2 | src/robbery.js:146-149 | a minute below 60 padded to two digits reads back as that minute |
| Robbery.DayStart | src/robbery.js:24-28 | each weekday starts at a whole day of minutes inside the three-day timeline |
| Robbery.TimeToMinutes | src/robbery.js:19-40 | a bank token (no zone argument) reads as a non-negative number of minutes |
| Robbery.GangTokenWords | src/robbery.js:31-32 | splitting a gang token on the space gives the weekday and `HH:MM+O` |
| Robbery.GangTokenOffset | src/robbery.js:33 | splitting a gang token on `+` gives the clock part and the zone |
| Robbery.GangTokenMinutesPart | src/robbery.js:37 | the part after `:` of the clock part is the minutes |
| Robbery.GangTokenHoursPart | src/robbery.js:32 | the part before `:` of `HH:MM+O` is the hours |
| Robbery.GangTokenMinutes | src/robbery.js:19-40 | a gang token reads as weekday start + 60·hours + minutes + 60·(bank zone − token zone) |
| Robbery.BankTokenMinutes | src/robbery.js:34-37 | a bank token reads as 60·hours + minutes, with no weekday and no zone shift |
| Robbery.NormalizeTwice | src/robbery.js:59-62 | normalising an already normalised interval changes nothing |
| Robbery.NormalizeAgain | src/robbery.js:56-64 | a partly normalised list of intervals normalises to the same list as the original |
| Robbery.NormalizedSpans | src/robbery.js:58-63 | each interval of the list is normalised on its own, and the length is kept |
| Robbery.NormalizeSpans | src/robbery.js:58-63 | the array of one member becomes the normalised list of its old contents |
| Robbery.Normalize | src/robbery.js:56-64 | every interval of every member is overwritten by its normalisation, and each was readable |
| Robbery.Intervals | src/robbery.js:82-85 | the numeric ends of normalised intervals, on the timeline, one per interval |
| Robbery.CoverageCounts | src/robbery.js:82-91 | for ordered intervals, the running sum of the +1/−1 marks at a minute is the number of intervals covering it |
| Robbery.DeltaAppend | src/robbery.js:82-85 | the marks of two lists of intervals add up |
| Robbery.CoverageAppend | src/robbery.js:88-91 | the running sums of two lists of intervals add up |
| Robbery.CoverageStep | src/robbery.js:88-91 | the running sum at a minute is the one at the minute before plus this minute's mark |
| Robbery.CoverageBeforeStart | src/robbery.js:88-91 | nothing is counted before minute 0 |
| Robbery.PrefixSumIsCoverage | src/robbery.js:88-91 | the prefix sum of the marked array is the running sum of the marks |
| Robbery.Mark | src/robbery.js:82-85 | marking adds each interval's +1 at its start and −1 at its end to the timeline |
| Robbery.PrefixSums | src/robbery.js:88-91 | both timelines become the running sums of their old contents |
| Robbery.FirstRun | src/robbery.js:97-111 | the earliest start at or after `lo` of a good run, or none when no run starts there |
| Robbery.GreedySound | src/robbery.js:97-111 | every window found starts a run of `duration` minutes with the gang free and the bank open, and the next window starts at least 30 minutes later |
| Robbery.GreedyComplete | src/robbery.js:97-111 | every good run starts within 30 minutes after some window found |
| Robbery.GreedyIncreasing | src/robbery.js:104-106 | windows `i < j` are at least 30·(j − i) minutes apart |
| Robbery.RunBroken | src/robbery.js:98-101 | a minute that is not free-and-open rules out every run containing it |
| Robbery.RunFound | src/robbery.js:103-105 | the first good run at or after `lo` is the one the scan records |
| Robbery.RunComplete | src/robbery.js:98-103 | `duration` consecutive free-and-open minutes make a good run |
| Robbery.WindowFound | src/robbery.js:103-107 | recording a window and jumping 30 minutes past its start keeps the scan equal to the greedy definition |
| Robbery.GreedyStep | src/robbery.js:104-106 | the windows from `lo` are the first good run, then the windows from its start plus 30 |
| Robbery.NoWindowLeft | src/robbery.js:97 | when no run fits before the last minute, no window is left |
| Robbery.FindWindows | src/robbery.js:93-111 | the scan returns exactly the greedy windows of the two signals |
| Robbery.WorkingHoursOfBank | src/robbery.js:66-71 | the bank's hours are three intervals, one per day, shifted by whole days |
| Robbery.IsDailyHours | src/robbery.js:66-71 | those three intervals are the bank's daily hours |
| Robbery.BankHoursCover | src/robbery.js:66-71 | the bank signal is 1 exactly in the minutes between opening and closing on each day |
| Robbery.RoutedSplits | src/robbery.js:77-86 | entries named `Bank` go to the bank timeline and the others to the gang timeline; at every minute the two coverages add up to the coverage of all entries, so no interval is lost or counted twice |
| Robbery.CoveringZero | src/robbery.js:98 | a minute is free exactly when no interval covers it |
| Robbery.Signal | src/robbery.js:88-91 | the occupancy signal of the intervals has one value per minute of the timeline |
| Robbery.RoutedOnTimeline | src/robbery.js:77-86 | routing keeps every interval on the timeline |
| Robbery.RoutedStep | src/robbery.js:82-85 | marking one more entry adds its marks to the timeline its name selects |
| Robbery.SignalOfMarks | src/robbery.js:88-91 | the running sums of the marks are the occupancy signal |
| Robbery.CurrentEntries | src/robbery.js:54-57 | the schedule's members as entries of intervals on the timeline, one per member |
| Robbery.MarkTimelines | src/robbery.js:72-86 | after marking, each timeline holds the marks of the entries routed to it |
| Robbery.ScanSchedule | src/robbery.js:74-111 | marking, summing and scanning give the greedy windows of the schedule with the bank appended |
| Robbery.GetAppropriateMoment | src/robbery.js:50-172 | the schedule is normalised in place and the cursor holds the greedy windows of the schedule as it was given |
| Robbery.DayName | src/robbery.js:138-144 | the weekday name of day `d` starts at `d` whole days |
| Robbery.Substitute | src/robbery.js:151-154 | text without `%` is left as it is |
| Robbery.SubstituteSkips | src/robbery.js:151-154 | text without `%` passes through, and the replacement continues after it |
| Robbery.SubstituteHit | src/robbery.js:151-154 | a placeholder of the letter is replaced, and the scan resumes after it |
| Robbery.SubstituteOther | src/robbery.js:151-154 | a placeholder of another letter is kept |
| Robbery.SubstituteHours | src/robbery.js:152 | in `%DD %HH:%MM` only `%HH` is replaced by the hours |
| Robbery.SubstituteMinutes | src/robbery.js:153 | then only `%MM` is replaced by the minutes |
| Robbery.SubstituteDay | src/robbery.js:154 | then `%DD` is replaced by the day |
| Robbery.Minute | src/robbery.js:146 | the minute of the hour is below 60 |
| Robbery.RenderClock | src/robbery.js:134-155 | `%DD %HH:%MM` renders as the weekday, the unpadded hour and the two-digit minute |
| Robbery.RenderedToken | src/robbery.js:134-155 | that rendering followed by `+zone` is a gang token |
| Robbery.ClockArithmetic | src/robbery.js:143-146 | day start + 60·hour + minute of a timeline minute is that minute |
| Robbery.FormatReadsBack | src/robbery.js:19-40 | a window rendered as `%DD %HH:%MM` with the bank's zone appended reads back as the same minute |
| Robbery.Moment.constructor | src/robbery.js:113 | the cursor starts at the windows found |
| Robbery.Moment.Exists | src/robbery.js:118-120 | true exactly when some window is left |
| Robbery.Moment.Format | src/robbery.js:134-155 | the empty string without a window, else the template rendered for the first window |
| Robbery.Moment.TryLater | src/robbery.js:162-170 | drops the first window and answers true exactly when more than one is left, otherwise changes nothing |
| Emitter.Subscribe | src/emitter.js:138-154 | `addEvent` creates the event's list if needed and appends the record, leaving other lists alone |
| Emitter.Checked | src/emitter.js:106 | a limit is kept exactly when it is positive |
| Emitter.FreshFires | src/emitter.js:145-153 | a new record passes the gate of `callHandler` on its first emission, whatever its limits |
| Emitter.TimesLimit | src/emitter.js:164-166 | a record limited to `t` calls after `e` emissions runs on `min(n, t − e)` of the next `n` |
| Emitter.FrequencyGate | src/emitter.js:169-171 | a record with frequency `f` after `e` emissions runs on the next `n` exactly at the first and at the multiples of `f` |
| Emitter.FrequencyFromStart | src/emitter.js:169-171 | from a new subscription, `n` emissions run a frequency-`f` handler `ceil(n / f)` times |
| Emitter.Namespaces | src/emitter.js:70-80 | `emit` visits one namespace per dot-separated part |
| Emitter.NamespacesShrink | src/emitter.js:70-80 | the first namespace is the event itself, and each next one drops the last part |
| Emitter.NamespacesDistinct | src/emitter.js:70-80 | the namespaces get strictly shorter, so none is visited twice |
| Emitter.NamespacesExample | src/emitter.js:73-76 | `a.b.c` visits `a.b.c`, `a.b` and `a` in that order |
| Emitter.Bumped | src/emitter.js:89-92 | every record of a notified list counts one more emission |
| Emitter.FiredAtMostOnePerRecord | src/emitter.js:89-92 | a notified list makes at most one call per record, only for records that pass the gate |
| Emitter.AfterEmitBumpsOnce | src/emitter.js:72-93 | after `emit`, each visited list's records count one more emission, other lists are unchanged, and no list is added |
| Emitter.CallsInNamespaceOrder | src/emitter.js:72-93 | the calls `emit` makes are the gated calls of each visited list as it stood before `emit`, in namespace order |
| Emitter.EmitOverNamespaces | src/emitter.js:69-96 | for every event name, `emit` bumps each visited list once, leaves the other lists and the set of names alone, and makes the gated calls of each visited list in namespace order |
| Emitter.FiredAllUnchanged | src/emitter.js:87-92 | notifying one list does not change the calls of the other lists |
| Emitter.EmitStep | src/emitter.js:72-93 | one namespace of `emit` notifies its list and leaves the rest of the walk to the next namespaces |
| Emitter.CoversExample | src/emitter.js:50-51 | `off('slide')` reaches `slide.funny` but not `slideshow` |
| Emitter.ThinKeepsOthers | src/emitter.js:54-58 | the splice pass keeps every record of other contexts, in order |
| Emitter.ThinOnlyRemoves | src/emitter.js:54-58 | the splice pass only removes records |
| Emitter.ThinRemovesApart | src/emitter.js:54-58 | when no two records of the context are adjacent, the pass removes all of them |
| Emitter.ThinSkipsNext | src/emitter.js:54-58 | of two adjacent records of the context, the pass removes only the first |
| Emitter.PendingStep | src/emitter.js:54-58 | each visit of the pass, splicing or not, keeps the pass's outcome |
| Emitter.Unsubscribe | src/emitter.js:48-63 | `off` removes no event name |
| Emitter.UnsubscribeElsewhere | src/emitter.js:49-51 | `off` leaves every list its event does not cover unchanged |
| Emitter.EventEmitter.constructor | src/emitter.js:28 | the table and the call log start empty |
| Emitter.EventEmitter.AddEvent | src/emitter.js:138-154 | appends a new record with the given limits and no emissions, and calls nothing |
| Emitter.EventEmitter.On | src/emitter.js:37-41 | subscribes with no limits |
| Emitter.EventEmitter.Several | src/emitter.js:105-110 | subscribes with `times`, dropped unless positive |
| Emitter.EventEmitter.Through | src/emitter.js:119-124 | subscribes with `frequency`, dropped unless positive |
| Emitter.EventEmitter.SpliceOut | src/emitter.js:54-58 | the `forEach` with `splice` leaves what one pass leaves |
| Emitter.EventEmitter.Off | src/emitter.js:48-63 | every list the event covers loses what one pass removes, and nothing is called |
| Emitter.EventEmitter.Notify | src/emitter.js:87-92 | the list's gated calls are logged in order and each record counts the emission |
| Emitter.EventEmitter.Emit | src/emitter.js:69-96 | the table and the log become those of the namespace walk |
| PhoneBook.Get | src/phonebook.js:32 | the entry found carries the phone, and none is found exactly when no entry carries it |
| PhoneBook.Put | src/phonebook.js:26 | the phone now maps to the new entry, every other phone is unchanged, and the book grows only for a new phone |
| PhoneBook.PutShape | src/phonebook.js:26 | an existing entry is overwritten where it stands, and a new one is appended |
| PhoneBook.PutNew | src/phonebook.js:26 | a phone not yet in the book is appended at the end |
| PhoneBook.PutWellFormed | src/phonebook.js:22-29 | storing a checked entry keeps phones ten-digit and unique and names non-empty |
| PhoneBook.UpdateWellFormed | src/phonebook.js:26 | overwriting an entry with a checked one of the same phone keeps the book well formed |
| PhoneBook.AppendWellFormed | src/phonebook.js:26 | appending a checked entry with a new phone keeps the book well formed |
| PhoneBook.Store | src/phonebook.js:22-29 | succeeds exactly for a non-empty string name and a ten-digit phone, storing the entry; otherwise nothing changes |
| PhoneBook.AddOutcome | src/phonebook.js:31-37 | succeeds exactly for a new phone that passes the check, appending the entry; otherwise nothing changes |
| PhoneBook.UpdateOutcome | src/phonebook.js:46-52 | succeeds exactly for a present phone that passes the check, overwriting its entry; otherwise nothing changes |
| PhoneBook.StoreWellFormed | src/phonebook.js:22-52 | `add` and `update` keep the book well formed |
| PhoneBook.Select | src/phonebook.js:66-77 | an entry is selected exactly when it is in the list and matches the query, with no more entries than the list |
| PhoneBook.Matching | src/phonebook.js:59-80 | the selection of a book with ten-digit phones has ten-digit phones |
| PhoneBook.SelectAll | src/phonebook.js:66-77 | when every entry matches, the selection is the whole list, in order |
| PhoneBook.MatchingStar | src/phonebook.js:70 | the query `*` returns the whole book |
| PhoneBook.MatchingMeans | src/phonebook.js:62-76 | an entry is returned exactly when the query is `*` or occurs in its name, its non-empty email or its phone |
| PhoneBook.FormattedReadsBack | src/phonebook.js:92-95 | the `+7 (ddd) ddd-dd-dd` form keeps all ten digits |
| PhoneBook.RenderShape | src/phonebook.js:96 | a line is the name and the formatted phone, followed by `, email` exactly when the email is non-empty |
| PhoneBook.RenderAll | src/phonebook.js:89-97 | one line per selected entry, in order |
| PhoneBook.FindLines | src/phonebook.js:82-100 | `find` returns the lines of the matches, sorted, each as often as it is rendered |
| PhoneBook.CountLiteral | src/phonebook.js:114-120 | no more entries are counted than are selected |
| PhoneBook.CountLiteralAll | src/phonebook.js:116 | when every selected entry contains the query literally, all are counted |
| PhoneBook.RemovalCountsMatches | src/phonebook.js:107-123 | for a query other than `*`, `findAndRemove` counts every match |
| PhoneBook.RemovalCountStar | src/phonebook.js:107-123 | for `*` it counts only the entries whose name or email contains a literal `*` |
| PhoneBook.Lines | src/phonebook.js:137 | splitting on line breaks gives at least one row, and no row holds a line break |
| PhoneBook.LinesPlain | src/phonebook.js:137 | text without a line break is one row |
| PhoneBook.LinesAt | src/phonebook.js:137 | a `\n` ends a row |
| PhoneBook.LinesJoin | src/phonebook.js:137 | rows joined by `\n` split back into the same rows |
| PhoneBook.FieldsOfRow | src/phonebook.js:140 | an entry's `name;phone;email` row splits back into its fields |
| PhoneBook.ImportRow | src/phonebook.js:140-143 | a row that is not counted leaves the book unchanged |
| PhoneBook.ImportRowMeans | src/phonebook.js:140-143 | a row counts exactly when its name and phone pass the check, and then its phone maps to the row's entry |
| PhoneBook.ImportRowNew | src/phonebook.js:141 | the row of a checked entry with a new phone appends that entry |
| PhoneBook.Import | src/phonebook.js:139-146 | no more rows are counted than there are |
| PhoneBook.ImportWellFormed | src/phonebook.js:130-147 | importing keeps the book well formed |
| PhoneBook.ImportRest | src/phonebook.js:139-146 | importing a book's remaining rows onto its first entries rebuilds the book, counting every row |
| PhoneBook.ExportImport | src/phonebook.js:130-147 | a well-formed book written as rows imports into an empty book as itself, every row counted |
| PhoneBook.Book.constructor | src/phonebook.js:12 | the book starts empty and well formed |
| PhoneBook.Book.CheckAndUpdate | src/phonebook.js:22-29 | the book and the answer become those of the check-and-store |
| PhoneBook.Book.Add | src/phonebook.js:31-37 | the book and the answer become those of `add` |
| PhoneBook.Book.Update | src/phonebook.js:46-52 | the book and the answer become those of `update` |
| PhoneBook.Book.GetPhones | src/phonebook.js:59-80 | the loop returns the matching entries, none for an empty or non-string query |
| PhoneBook.Book.Find | src/phonebook.js:82-100 | the loop and the sort return the sorted lines of the matches |
| PhoneBook.Book.FindAndRemove | src/phonebook.js:107-123 | the count of literal matches, with the book unchanged |
| PhoneBook.Book.ImportFromDsv | src/phonebook.js:130-147 | nothing for an empty or non-string input, otherwise every row in order, counting the rows stored |
| Marriage.Bests | src/marriage.js:13 | exactly the best friends |
| Marriage.FirstLevel | src/marriage.js:13 | the first level is the best friends, sorted by name |
| Marriage.NamesOf | src/marriage.js:19 | exactly the names listed by some friend of the level |
| Marriage.Named | src/marriage.js:20 | `find` by name returns a friend carrying that name |
| Marriage.NamedUnique | src/marriage.js:20 | with unique names, finding a friend's name returns that friend |
| Marriage.Lookup | src/marriage.js:20 | each name maps to the friend found for it |
| Marriage.Fresh | src/marriage.js:21-23 | the friends found that are not invited yet, each once |
| Marriage.NextLevel | src/marriage.js:18-24 | the next level holds only friends not yet invited |
| Marriage.NextLevelMeans | src/marriage.js:18-24 | the next level is sorted by name, repeats nobody, and holds exactly the uninvited friends the level names |
| Marriage.Shrinks | src/marriage.js:17 | pushing a non-empty level shrinks the set of friends not yet invited, so the loop ends |
| Marriage.LevelsStep | src/marriage.js:16-26 | the invited list from a level is that level followed by the list from the next level |
| Marriage.LevelsAdvance | src/marriage.js:16-26 | one turn of the loop keeps the invited list on course and shrinks the friends not yet invited |
| Marriage.LevelsNonEmpty | src/marriage.js:16 | no pushed level is empty |
| Marriage.LevelsSorted | src/marriage.js:24 | every pushed level is sorted by name |
| Marriage.InvitedLevelsSorted | src/marriage.js:13-24 | every level pushed from the best friends on is sorted by name |
| Marriage.ClosedStep | src/marriage.js:18-24 | everyone named by the pushed friends is pushed or in the next level |
| Marriage.LevelsDistinct | src/marriage.js:17-23 | levels never repeat a friend already invited, and invite only friends |
| Marriage.UnlimitedIsClosed | src/marriage.js:12-26 | without a cap, everyone named by an invited friend ends up invited |
| Marriage.InvitedUnlimited | src/marriage.js:12-26 | without a cap, every best friend is invited, and so is everyone an invited friend names |
| Marriage.InvitedOnce | src/marriage.js:12-26 | nobody is invited twice, and only friends are invited |
| Marriage.BestsOnce | src/marriage.js:13 | with unique names, a friend is among the best friends at most once |
| Marriage.CapBoundsLevels | src/marriage.js:16 | a cap below 1 invites nobody, and a cap `k` pushes at most `k` levels |
| Marriage.LevelsCapped | src/marriage.js:16 | from level `c` on, a cap `k` lets at most `k − c + 1` levels through |
| Marriage.Keep | src/marriage.js:28 | the filter keeps exactly the invited friends of the filter's gender |
| Marriage.KeepSnoc | src/marriage.js:28 | filtering one more friend appends it exactly when it passes |
| Marriage.KeepConcat | src/marriage.js:28 | filtering keeps the order: it distributes over concatenation |
| Marriage.KeepAll | src/marriage.js:71 | the plain `Filter` keeps the invited list as it is |
| Marriage.ListOfInvited | src/marriage.js:12-29 | the `while` loop and the filter return the filtered concatenation of the levels |
| Marriage.Iterator.constructor | src/marriage.js:41 | the iterator starts with the guests |
| Marriage.Iterator.Done | src/marriage.js:47-49 | done exactly when no guest is left |
| Marriage.Iterator.Next | src/marriage.js:44-46 | `null` when done, else the first guest, which is removed |
| Marriage.NewIterator | src/marriage.js:37-42 | a `TypeError` unless the filter is a `Filter`, else an iterator over the uncapped guests |
| Marriage.NewLimitedIterator | src/marriage.js:59-62 | the same check, then an iterator over the guests up to the level cap, or over all guests when the cap is absent |
| Warmup.AbProblem | src/warmup.js:10-16 | the sum of two integers, a `TypeError` exactly when either is not an integer |
| Warmup.AbProblemCommutes | src/warmup.js:10-16 | swapping the arguments changes nothing, errors included |
| Warmup.CenturyByYearProblem | src/warmup.js:25-34 | a `TypeError` for non-numbers, a `RangeError` for negative or non-integer years, else the century `c` with `100(c−1) < year ≤ 100c` |
| Warmup.HexFormDigits | src/warmup.js:51-54 | every character after the `#` of a matching colour is a hex digit |
| Warmup.HexByte | src/warmup.js:68-72 | two hex digits read as a value of at most 255 |
| Warmup.Colors | src/warmup.js:43-77 | the error for each length and pattern, and the doubled digits of the short form |
| Warmup.ShortColor | src/warmup.js:53-62 | the short form reads each digit doubled |
| Warmup.ShortFormDoubles | src/warmup.js:53-62 | `#rgb` converts like `#rrggbb` |
| Warmup.ColorsProblem | src/warmup.js:43-77 | a `TypeError` for non-strings, else the colour conversion, whose components are at most 255 |
| Warmup.FibonacciProblem | src/warmup.js:86-105 | a `TypeError` for non-numbers, a `RangeError` for `n < 1` or non-integers, else the `n`-th Fibonacci number |
| Warmup.Cells | src/warmup.js:117-121 | the rows of a rectangular grid all have the first row's width |
| Warmup.Transpose | src/warmup.js:126 | the transpose is `w × h` and swaps indices |
| Warmup.TransposeTwice | src/warmup.js:126-128 | transposing twice gives the matrix back |
| Warmup.MatrixProblem | src/warmup.js:113-129 | a `TypeError` exactly for non-rectangular input, the grid itself for zero width, else the transpose |
| Warmup.NumberSystemProblem | src/warmup.js:139-148 | the two errors, else a canonical numeral of `n` in the base that reads back as `n` |
| Warmup.NumeralsAreCanonical | src/warmup.js:147 | every canonical numeral is the one written for its value |
| Warmup.PhoneProblem | src/warmup.js:155-162 | a `TypeError` exactly for non-strings |
| Warmup.TollFreeAccepted | src/warmup.js:159-161 | every `8-800-ddd-dd-dd` number is accepted |
| Warmup.AcceptedIsTollFree | src/warmup.js:159-161 | every accepted string is such a number |
| Warmup.MatchesAreOccurrences | src/warmup.js:174-175 | for a pattern that cannot overlap itself, the global matches are all its occurrences |
| Warmup.SmileysDoNotSelfOverlap | src/warmup.js:174-175 | neither smiley can overlap itself |
| Warmup.SmilesProblem | src/warmup.js:170-178 | a `TypeError` for non-strings, else the number of occurrences of both smileys |
| Warmup.LinesOfBoard | src/warmup.js:199-208 | the lines tested are the columns, the rows and the two diagonals |
| Warmup.LineCells | src/warmup.js:189-197 | a line holds exactly when its three cells hold the symbol |
| Warmup.IsWinLine | src/warmup.js:189-197 | the loop answers exactly whether the line holds |
| Warmup.TicTacToeProblem | src/warmup.js:186-211 | `x` when `x` has a line, else `o` when `o` has one, else `draw` |

## Left out

- JavaScript numbers are IEEE doubles. The model uses unbounded integers, so sums, Fibonacci numbers and numerals beyond 2^53 are exact here and rounded in the source. `toString` switches to exponent notation for very large numbers, which the model does not do.
- `parseInt` leniency (leading spaces, a sign, trailing garbage) is not modelled. Robbery tokens must have plain decimal fields (`Robbery.Readable`). With malformed tokens the source computes with `NaN`; the model excludes them.
- Robbery.GetAppropriateMoment: requires every normalised interval to lie on the three-day timeline, with `from` and `to` in 0..4319. This excludes four cases the source handles its own way:
  - an interval ending at or past minute 4320 makes the source write past the end of the arrays and lengthen them;
  - an interval starting before minute 0 (a gang token `ПН 00:00+7` with a bank at `+5` normalises to −120) makes `timeLine[-120]++` create a property that is not an array index, so the +1 is lost, and from the interval's end on the gang count stays at −1 and the gang is never free again;
  - a bank closing at `24:00` marks only `bankTimeLine[4320]`, a cell neither the running sums nor the scan read, so the source handles it correctly although `Robbery.HoursReadable` excludes it.
  - an interval with one end a string and the other a number is skipped by the guard that converts only when both ends are strings, so its string end then indexes the timeline as a property name and its numeric end as an array index; normalisation leaves such a span as it is in the model too, and the timeline precondition then excludes it, since it requires both ends to be minutes.
- Robbery.GetAppropriateMoment: requires `duration >= 1`. The source has no check: with `duration` 0 its scan records a window after every unsuitable minute, and with a negative one it records none.
- Robbery.FindWindows: requires that no window starts within 30 minutes of the last minute scanned (`Robbery.JumpsStayOnTimeline`). There the source's jump passes `length - 1` and its `!==` loop never ends.
- Robbery.TimeToMinutes: its own contract states only that bank tokens are non-negative; the value is stated by `Robbery.GangTokenMinutes` and `Robbery.BankTokenMinutes`.
- The order of `Object.entries` over the schedule and of `events.keys()` in `off` is not modelled. Marking adds, and `off` treats each list on its own, so the order is not observable.
- Case-insensitive placeholder matching covers ASCII letters only; the placeholders are ASCII.
- Handlers are identities, and a call is appended to a log. A handler that calls back into the emitter while `emit` runs is not modelled. Contexts are compared by identity, as `===` does.
- Emitter.EventEmitter.Several: takes `times` as an integer. Non-numeric or fractional limits, which `>` and `%` would coerce, are not modelled. The same holds for `frequency` in `Emitter.EventEmitter.Through`.
- The `return this` chaining of the emitter's methods is not modelled; the methods return nothing.
- The phone book is an association list in insertion order. A JavaScript object lists integer-like keys first; `find` sorts and `findAndRemove` only counts, so the order is not observable.
- The phone argument is a string, and the email is a string that defaults to `""`. Other argument types, which the regular expression would coerce, are not modelled. The name is a `Value`, because its type is checked.
- Strings are sequences of Unicode characters. JavaScript compares, sorts and measures (`length`) UTF-16 code units, which differs only for characters outside the Basic Multilingual Plane. In `colorsProblem` such a character counts twice towards `length === 7`: `#abcd😀` is 7 code units in the source, which then reads `null[1]` and throws a `TypeError`, while the model sees 6 characters and answers `RangeError`.
- The module-level `phoneBook` object is the `entries` field of a `PhoneBook.Book` instance.
- `localeCompare` is a locale collation; the model orders names by character code.
- Marriage.ListOfInvited: requires every name listed among a friend's friends to be some friend's name (`Marriage.NamesKnown`). This is stronger than the source needs:
  - the source fails only when a friend invited below the level cap lists an unknown name: `find` yields `undefined`, `sort` moves it to the end of the next level without comparing it, that level is invited, and the next `reduce` reads `undefined.friends` and throws a `TypeError`;
  - an unknown name listed only by friends who are never invited, or by friends invited at the last level the cap allows, never reaches that `reduce`, so the source answers normally (friends `a`, best, listing nobody, and `b`, not best, listing `zzz`, give the guests `[a]`), while the model excludes such lists.
- Marriage.NextLevelMeans: the properties of the traversal also require that no two friends share a name (`Marriage.UniqueNames`). Friends are compared as values; the source compares object identities, which agree when names are unique.
- Marriage.NewLimitedIterator: `maxLevel` is an integer or absent (`None`, the `Infinity` default). A fractional or non-numeric cap, which `>=` would coerce, is not modelled.
- A filter object is one of the three filter constructors. An object of another type raises the `TypeError`, modelled as `None`; a user subclass of `Filter` with its own `whatGender` is not modelled.
- `matrixProblem` returns the argument itself for zero-width matrices. The model returns the same rows as a value, so aliasing is not modelled.
- Warmup.TicTacToeProblem: requires a 3×3 board of `x`/`o`; the source's documentation says its callers pass only such boards.
- Warmup.PhoneProblem: its own contract states only the `TypeError` case; which strings it accepts is stated by `Warmup.TollFreeAccepted` and `Warmup.AcceptedIsTollFree`.
- The `isExtraTaskSolved` flags and `module.exports` are not modelled.
