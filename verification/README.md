# A verified model of systat

systat redraws a console once per second with what the machine has been doing since the last second. This
project models, in Dafny, the parts of it that hold state or arithmetic over time, and proves what they keep
over whole runs:

- **Snapshots.** Every statistics class has three maps of heap records, `last`, `current` and `delta`. One
  update copies, reads and subtracts. The classes keep the shape of the source (`LinuxProcessor`, `LinuxDisk`,
  `LinuxNetwork`, `MacProcessor`, `MacNetwork`: records updated in place, loops over maps in key order); the
  abstract machine they are proved against is `Snapshot`. Every class's `Valid()` says that no record is shared
  between maps, that each record stands under its own name, that keys(delta) is within keys(last) within
  keys(current), and that the whole history is a run of that machine. `current.view` and the like are ghost
  copies of the counters under each name.
- **Parsing.** `Parsing` has the mutable line cursor and the line reader; `Splitting` says without a cursor what
  the tokens of a line are; `Decimal` is `atol`; `Sampling` is what a file read line by line leaves in a table;
  `Printing`, `ProcStat`, `ProcDiskstats` and `ProcNetDev` print the three
  files and read them back, down to the fields of the records.
- **Tables.** `DeviceTable` is the bounded array of drives of the mac version and of `iostat.c`, changed in place
  by append, shift and sort.
- **Layout and loops.** `LinuxMain`, `Layout` and `Terminal` are `render`, `fit` and the refresh loop, down to a
  trace of which row is written when. `RouteMessages` and `MacNetwork` walk over a buffer of routing messages.
  `PerlCpu` is the CPU section of the Perl script.
- **iostat.** `IoStat` is its main loop over the same table of drives, with `devstats`, `cpustats`, the
  notifications that come in while it waits, and the header countdown of `Headers`. `DriveRuns` is the machine
  on values that it is proved against, `Intervals` what one drive's activity is measured from, and `DriveCases`
  goes through two runs in which that is not what it is due to be.

Counters are integers from 0 to 2^64 - 1 with the wrap-around written out (`Words.Sub`, `Words.Add`), `uint16_t`
counts and rows are `Words.U16`. A `std::map` is iterated by taking its least key (`Ordering.Least`) again and
again. File contents, kernel counters, registry readings, console heights and header requests are arguments.

## What the proofs found

- A counter of 2^63 or more is read as 2^63 - 1, because `get_long` goes through `atol`. Printed records survive
  reading exactly below that (`Decimal.RoundTripExactly`, `ProcStat.FaithfulBelowLong`).
- On Linux `copy` names `rx_multicast` without assigning it (c/linux/Network.cpp:74). What would be shown for it is
  the distance from the value the record was created with (`LinuxNetwork.MulticastShown`).
- When the number of mac cores changes, the total shown need not be the sum of the cores shown, which stay those of
  the first reading. `CoreSums.LostCores`, `CoreSums.GainedCores` and, for any run, `CoreSums.RunAgreesExactly` say
  exactly when it is.
- The mac network section decides by the flags of the first sample for ever: `diff` never refreshes the flags of the
  records in `delta` (`MacNetwork.ListedByFirstFlags`).
- The walk over the routing messages has three outcomes, of which exactly one comes about for any buffer
  (`RouteMessages.OneOutcome`): it ends, at the end of the buffer or past it; it gets to a message of length zero and
  never leaves it (`StuckAtZero`, `StuckForGood`); or it gets to one to three last bytes and reads a header outside
  the buffer (`CroppedHeader`). What it goes on to do after that the model does not say.
- `fit` compares heights modulo 2^16, and can so take a layout for one that fits (`LinuxMain.FitCanWrap`); the exact
  condition is in `LinuxMain.FitIsBest`.
- iostat measures only the first `maxshowdevs` drives. One further down keeps its old totals, and when it moves up
  its first interval reaches back past the sample before (`DriveCases.HiddenDrive`). Without -I an interval is
  measured from the reading before exactly if the drive was among the first then, or had counted nothing since
  (`IoStat.MeasuredFromTurnBefore`).
- A drive is recorded with whatever totals its slot held, and its first row is measured from those. The rows of a
  drive are measured from what is due, its first from the start, exactly if the slot held nothing
  (`Intervals.AsDueIff`), with -I or without. Under -I a slot with bytes spoils the later rows too
  (`Intervals.LaterAsDueIff`). `DriveCases.StaleFirstRow` and `DriveCases.StaleSlot` are runs in which both happen.
  A slot is left like that in two cases only: the sixteenth drive of a full table leaves, or what lies behind the
  array and is moved into it holds something (`DriveRuns.CleanIffNoSpill`).
- The comment of `Console::abort` says that it exits (c/common/Console.h:54); the code returns. So
  `LinuxNetwork.Network.Read` models a file with fewer than two lines as one without interfaces.
- Spaces and tabs are both skipped before a token, but only a space ends one (c/common/Parser.cpp:41, 48), so a tab
  further on stays in the token. `Splitting.IsToken` follows the code.

## Model

| member | source | states |
|---|---|---|
| Words.WrapIsModular | c/linux/Disk.cpp:34-46 | The wrap-around subtraction used for every counter is subtraction modulo 2^64, and the addition likewise |
| Words.U16Add | c/linux/Disk.cpp:85-120 | Counting on from a uint16_t that has wrapped gives the same as wrapping the true count once |
| Words.U16IsModular | c/linux/Disk.cpp:85-120 | What a uint16_t holds of a count is the count modulo 2^16 |
| Decimal.AtolDec | c/common/Parser.cpp:112-118 | A printed counter is read as itself below 2^63 and as 2^63 - 1 otherwise |
| Decimal.RoundTripExactly | c/common/Parser.cpp:112-118 | A printed counter survives reading if and only if it is below 2^63 |
| Decimal.DecInjective | c/mac/Processor.cpp:66 | Different core numbers print differently |
| Parsing.Line.constructor | c/common/Parser.cpp:22-31 | The cursor stands at the front of the line, of which exactly one trailing newline is gone; nothing else in the buffer changes |
| Parsing.Line.GetToken | c/common/Parser.cpp:40-57 | Returns the first token of the rest of the line, leaves the rest that has the other tokens, never moves back; a NULL leaves nothing, so all later calls return NULL |
| Parsing.Parser.Next | c/common/Parser.cpp:87-99 | Steps to the next line of the file with its first token ahead, or says that there is none |
| Parsing.Parser.GetToken | c/common/Parser.cpp:101-110 | The n-th call on a line returns its n-th token, and NULL for every call after the last |
| Parsing.Parser.GetLong | c/common/Parser.cpp:112-118 | The value of the next token as a long turned unsigned, 0 when there is none |
| Splitting.TokensOfWeave | c/common/Parser.cpp:40-57 | Whatever blanks stand between tokens, splitting the line gives back the tokens |
| Splitting.WeaveOfTokens | c/common/Parser.cpp:40-57 | Every line is its tokens and the blanks around them: nothing is lost or made up |
| Splitting.TokensIsTheSplit | c/common/Parser.cpp:40-57 | What the calls of get_token return is the one and only split of the line into tokens |
| Splitting.RowsOfLines | c/common/Parser.cpp:87-99 | A file of printed lines is read back line by line |
| Splitting.RowsAreProper | c/linux/Network.cpp:105-106 | No token is empty, so the last character that Network::read cuts off is always there |
| Splitting.NumOfDecs | c/common/Parser.cpp:112-118 | The k-th printed counter of a line is what the k-th call of get_long returns |
| Sampling.ReadsLastLine | c/linux/Disk.cpp:85-120 | Reading touches exactly the names on accepted lines, each holds the counters of its last accepted line, all other entries are unchanged |
| Sampling.ReadIsOverride | c/linux/Processor.cpp:75-97 | Reading into a map overrides it with what reading into an empty map gives |
| Sampling.CountStep | c/linux/Processor.cpp:75-97 | The running uint16_t count ends at the number of accepted lines modulo 2^16 |
| Snapshot.DistinctLinesRebuilt | c/linux/Processor.cpp:75-97 | Lines with distinct names read into an empty map give exactly their records |
| Snapshot.UpdateIsStep | c/linux/Processor.cpp:120-128 | Copy, read and subtract: `last` becomes the previous `current`, `current` is overridden by the sample, `delta` is their difference |
| Snapshot.NextIsStep | c/linux/Processor.cpp:99-128 | When copy assigns every column, the state after an update is determined and the key inclusions are kept |
| Snapshot.UpdateIsNext | c/linux/Network.cpp:56-94 | The same for a copy that leaves out columns, as a relation |
| Snapshot.NamesStay | c/linux/Disk.cpp:122-130 | The names shown are those of the first sample in every later state; no name leaves `last` |
| Snapshot.Telescope | c/linux/Disk.cpp:34-130 | Over any run, the sum of all deltas of a counter is its final value minus its first, plus 2^64 for every time it fell |
| Snapshot.ExactIffNeverFalls | c/linux/Disk.cpp:34-130 | That sum is exact if and only if the counter never fell |
| Snapshot.SumIsModular | c/linux/Disk.cpp:34-130 | That sum is always right modulo 2^64 |
| Snapshot.ForgottenColumnFrozen | c/linux/Network.cpp:56-84 | A column that copy leaves out keeps in `last` the value it was created with |
| Snapshot.ForgottenColumnShown | c/linux/Network.cpp:56-94 | Its delta is the distance from that value, and the activity exactly if the counter stood there before |
| LinuxProcessor.CPU.Diff | c/linux/Processor.cpp:40-48 | All seven counters of the newer record minus the older one's |
| LinuxProcessor.Processor.constructor | c/linux/Processor.cpp:67-73 | Starts the run: all three maps from the first sample, then one update |
| LinuxProcessor.Processor.Read | c/linux/Processor.cpp:75-97 | The map overridden by the sample, new records under their own names and shared with no other map; the count of cpu lines |
| LinuxProcessor.Processor.Copy | c/linux/Processor.cpp:99-118 | The destination overridden by all counters of the source, in its own records |
| LinuxProcessor.Processor.Subtract | c/linux/Processor.cpp:124-127 | For every name of `delta` both lookups find a record, and `delta` gets the differences and no other name |
| LinuxProcessor.Processor.Update | c/linux/Processor.cpp:120-128 | Refines one step of the machine on values and keeps every invariant, whatever names come or go |
| LinuxProcessor.Processor.Print | c/linux/Processor.cpp:130-149 | Emits exactly the listed lines, one below the other, or none in a test; returns their number either way |
| LinuxProcessor.AggregateFirst | c/linux/Processor.cpp:138-147 | "cpu" is the first key met exactly if it is there, when all keys start with "cpu" |
| LinuxProcessor.CondensedShowsAggregate | c/linux/Processor.cpp:80-147 | In condensed mode the one row is the "cpu" aggregate exactly if the first sample had it |
| LinuxProcessor.ShownIsRise | c/linux/Processor.cpp:40-128 | Over an object's life the deltas of all seven counters telescope, exactly if and only if the counter never fell |
| LinuxDisk.DiskStats.Diff | c/linux/Disk.cpp:34-46 | All eleven counters of the newer record minus the older one's |
| LinuxDisk.Disk.constructor | c/linux/Disk.cpp:48-54 | Starts the run: all three maps from the first sample, then one update |
| LinuxDisk.Disk.Copy | c/linux/Disk.cpp:60-83 | The destination overridden by all counters of the source, in its own records |
| LinuxDisk.Disk.ReadLine | c/linux/Disk.cpp:89-117 | One line: passed over unless minor is 0 and the name is neither a loop device nor a mapped one, else its eleven numbers stored under its name |
| LinuxDisk.Disk.Read | c/linux/Disk.cpp:85-120 | The map overridden by the sample; the number of accepted lines |
| LinuxDisk.SampleNames | c/linux/Disk.cpp:91-95 | A sample has exactly the names on lines with minor 0 that start with neither "loop" nor "dm-" |
| LinuxDisk.SampleIsLastLine | c/linux/Disk.cpp:97-116 | Each of them holds the counters of the last such line |
| LinuxDisk.Disk.Subtract | c/linux/Disk.cpp:125-129 | For every name of `delta` both lookups find a record, and `delta` gets the differences and no other name |
| LinuxDisk.Disk.Update | c/linux/Disk.cpp:122-130 | Refines one step of the machine on values and keeps every invariant |
| LinuxDisk.Disk.Print | c/linux/Disk.cpp:132-147 | Emits the title and one line per name in ascending order, or none in a test; returns their number either way |
| LinuxDisk.ShownIsRise | c/linux/Disk.cpp:34-130 | Over an object's life the deltas of all eleven counters telescope, exactly if and only if the counter never fell |
| LinuxNetwork.NetStats.Diff | c/linux/Network.cpp:25-42 | All sixteen counters of the newer record minus the older one's |
| LinuxNetwork.NetStats.Assign | c/linux/Network.cpp:67-82 | Fifteen counters copied, rx_multicast kept |
| LinuxNetwork.Network.constructor | c/linux/Network.cpp:44-50 | Starts the run; the interface count is the number of names in the first sample |
| LinuxNetwork.Network.Copy | c/linux/Network.cpp:56-84 | The destination overridden by fifteen columns of the source; the sixteenth keeps what it was |
| LinuxNetwork.Network.Update | c/linux/Network.cpp:86-94 | One step of the machine with a left-out column, every invariant kept |
| LinuxNetwork.Network.Read | c/linux/Network.cpp:96-131 | Two header lines skipped, the map overridden by the rest; counts exactly the names that were not in the map |
| LinuxNetwork.Network.Print | c/linux/Network.cpp:133-158 | Emits the title and the names that are not "lo" and have ever sent a packet; returns their number either way |
| LinuxNetwork.ListedIfSent | c/linux/Network.cpp:142-155 | A name is listed if and only if it is not "lo" and its newest record has sent a packet |
| LinuxNetwork.ListedInOrder | c/linux/Network.cpp:135-155 | The title comes first, then names of `delta` in ascending order, each at most once |
| LinuxNetwork.ShownIsRise | c/linux/Network.cpp:25-94 | The deltas of every counter except rx_multicast telescope |
| LinuxNetwork.MulticastShown | c/linux/Network.cpp:74 | The delta of rx_multicast is the distance from what `last` was created with, and the activity only if the counter stood there |
| ProcStat.RoundTrip | c/linux/Processor.cpp:75-97 | Any CPU records with distinct names, printed with any spacing among any other lines, are rebuilt exactly and counted |
| ProcStat.FaithfulBelowLong | c/common/Parser.cpp:112-118 | The record rebuilt is the record printed if and only if its counters are below 2^63 |
| ProcStat.RecordsReadBack | c/linux/Processor.cpp:75-97 | Every field of every record read from such a file is the number printed in its place |
| Printing.TextReadsBack | c/common/Parser.cpp:40-99 | Behind any first lines, lines written with any spacing are read back with exactly their tokens |
| ProcDiskstats.NamesReadBack | c/linux/Disk.cpp:85-120 | A file of disks among lines that are passed over, with any spacing, can be read and gives exactly the names of the disks |
| ProcDiskstats.RoundTrip | c/linux/Disk.cpp:85-120 | Each of the eleven numbers printed for a disk is read into its own column |
| ProcDiskstats.CountsDisks | c/linux/Disk.cpp:85-120 | The count is the number of disks printed, modulo 2^16 |
| ProcDiskstats.RecordsReadBack | c/linux/Disk.cpp:104-116 | Every field of every record read from such a file is the number printed in its place |
| ProcNetDev.NamesReadBack | c/linux/Network.cpp:96-131 | Behind any two header lines the names in front of the colons are read, and no others |
| ProcNetDev.RoundTrip | c/linux/Network.cpp:96-131 | Each of the sixteen numbers printed for an interface is read into its own column |
| ProcNetDev.CountsItems | c/linux/Network.cpp:103-130 | Read into an empty map, the count is the number of interfaces printed, modulo 2^16 |
| ProcNetDev.RecordsReadBack | c/linux/Network.cpp:113-128 | Every field of every record read from such a file is the number printed in its place |
| CoreSums.CoreNamesDiffer | c/mac/Processor.cpp:65-67 | The core names differ from each other and from "CPU" |
| CoreSums.SampleAgrees | c/mac/Processor.cpp:57-81 | After a reading the total is the sum of the cores, in every column modulo 2^64 |
| CoreSums.TotalOver | c/mac/Processor.cpp:57-81 | Each column of the total is that counter of the kernel's added up over all cores, modulo 2^64 |
| CoreSums.DiffAgrees | c/mac/Processor.cpp:103-110 | Differences of totals are totals of differences, whatever wraps |
| CoreSums.RunAgrees | c/mac/Processor.cpp:50-110 | With a fixed core count the total is the sum of the cores in all three maps of every state of a run |
| CoreSums.LostCores | c/mac/Processor.cpp:50-110 | With fewer cores than before, the total shown is the sum of the cores shown if and only if the lost cores had counted nothing modulo 2^64 |
| CoreSums.GainedCores | c/mac/Processor.cpp:50-110 | With more cores than before, the total shown is the sum of the cores shown if and only if the new cores have counted nothing modulo 2^64 |
| CoreSums.OneCoreLost | c/mac/Processor.cpp:50-110 | Two cores that have counted something, then one: the total shown is not the sum of the cores shown |
| CoreSums.OneCoreGained | c/mac/Processor.cpp:50-110 | One core, then two: neither is it |
| CoreSums.RunAgreesExactly | c/mac/Processor.cpp:50-110 | In any run, however the number of cores changes, the total shown is the sum of the cores shown if and only if it counts the same beyond them as one reading before |
| MacProcessor.CPU.Diff | c/mac/Processor.cpp:22-27 | All four counters of the newer record minus the older one's |
| MacProcessor.Processor.constructor | c/mac/Processor.cpp:42-48 | Starts the run from the first reading, then one update |
| MacProcessor.Processor.Read | c/mac/Processor.cpp:50-83 | The total zeroed and accumulated in place beside the cores gives the sample; returns the core count |
| MacProcessor.RecordsRead | c/mac/Processor.cpp:57-81 | After a reading the fields of "CPU0" and so on are the kernel's counters of that core, and those of "CPU" their sums modulo 2^64 |
| MacProcessor.Processor.Copy | c/mac/Processor.cpp:85-101 | The destination overridden by all counters of the source, in its own records |
| MacProcessor.Processor.Update | c/mac/Processor.cpp:103-110 | Refines one step of the machine on values and keeps every invariant |
| MacProcessor.TotalIsSum | c/mac/Processor.cpp:50-110 | While the kernel reports n cores, "CPU" is the sum of CPU0 to CPUn-1 in `last`, `current` and `delta` |
| MacProcessor.TotalIsSumExactly | c/mac/Processor.cpp:50-110 | The same of the newest state of an object, whatever its history |
| RouteMessages.CutFlatten | c/mac/Network.cpp:56-58 | Messages put one after the other are found again |
| RouteMessages.FlattenCut | c/mac/Network.cpp:56-58 | A buffer that is walked to its end is the messages found in it, put one after the other |
| RouteMessages.StartAt | c/mac/Network.cpp:56-58 | Message k starts where the messages before it end |
| RouteMessages.EndsWithLastMessage | c/mac/Network.cpp:56-58 | The walk stops exactly at the end, after as many turns as there are messages |
| RouteMessages.PositionIsStart | c/mac/Network.cpp:56-58 | After k turns the walk is at the start of message k, whatever follows |
| RouteMessages.OneOutcome | c/mac/Network.cpp:56-59 | For any buffer the walk either ends, or comes to a length of zero, or comes to a header that is not inside the buffer, and only one of these |
| RouteMessages.EndsIffAlwaysAdvances | c/mac/Network.cpp:56-58 | For any buffer, the walk comes to its end or past it without having read outside it if and only if every header it reaches lies inside and says a length other than zero |
| RouteMessages.StuckForGood | c/mac/Network.cpp:56-58 | At a length of zero every later turn is at the same place, for any buffer |
| RouteMessages.CroppedHeader | c/mac/Network.cpp:56-59 | One to three bytes behind the last message make it read a header outside the buffer |
| RouteMessages.StuckAtZero | c/mac/Network.cpp:56-58 | A message of length zero is met and never left |
| RouteMessages.LastMessageWins | c/mac/Network.cpp:59-83 | A record is there exactly for the names on RTM_IFINFO2 messages, and holds what the last of them says |
| MacNetwork.Interface.Diff | c/mac/Network.cpp:32-37 | Four counters subtracted, the other fields kept |
| MacNetwork.Network.constructor | c/mac/Network.cpp:88-93 | Starts the run from the first buffer, then one update |
| MacNetwork.Network.Walk | c/mac/Network.cpp:56-85 | Visits every message start once in order, ends at the end of the buffer, and overrides the map by the sample |
| MacNetwork.RecordsRead | c/mac/Network.cpp:59-83 | After a walk the eight fields of a record are those of the last RTM_IFINFO2 message that bears its name |
| MacNetwork.Network.Copy | c/mac/Network.cpp:95-112 | The destination overridden by all fields of the source, in its own records |
| MacNetwork.Network.Update | c/mac/Network.cpp:114-124 | Refines one step of the machine for the counters; `current` gets the new flags, type, speed and address, `delta` does not |
| MacNetwork.Network.Print | c/mac/Network.cpp:126-157 | Emits the title and the names that are shown, in ascending order; returns their number either way |
| MacNetwork.ShownIsRise | c/mac/Network.cpp:32-124 | The deltas of the four counters telescope, exactly if and only if the counter never fell |
| MacNetwork.ListedByFirstFlags | c/mac/Network.cpp:132-141 | A name is listed if and only if it starts with none of utun, awdl and lo, the lowest flag of the first sample is set, and its newest record has received a packet |
| MacNetwork.ListedInOrder | c/mac/Network.cpp:126-157 | The title comes first, then names of `delta` in ascending order, each at most once |
| DeviceTable.Sort | c/mac/Disk.cpp:116-120 | The first n entries sorted by name, as a permutation; all others unchanged |
| DeviceTable.Table.RecordDevice | c/mac/Disk.cpp:66-114 | A disk is put behind the others, keeping the totals its slot held; anything else changes nothing |
| DeviceTable.Table.RecordDriveList | c/mac/Disk.cpp:161-170 | Adds exactly the accepted drives that still fit, in a sorted table within 0..MAXDRIVES, and takes their slots from the front of the free ones |
| DeviceTable.Table.Shift | c/mac/Disk.cpp:145-148 | Every entry behind the one found moves down by one |
| DeviceTable.Table.DeleteAt | c/mac/Disk.cpp:145-149 | The live entries lose exactly the one found, whatever lies behind the array; one more slot is free, which holds the entry that left if it was the sixteenth, else what lay behind the array |
| DeviceTable.Table.RemoveDrive | c/mac/Disk.cpp:140-155 | The live entries lose exactly the first with the name, if there is one, and stay sorted |
| DeviceTable.Table.RemoveDriveList | c/mac/Disk.cpp:122-159 | Each medium whose name can be read takes its name out once; no entry is changed or added; exactly which slots are freed and what they hold |
| DeviceTable.Table.Notice | c/mac/Disk.cpp:122-170 | What one notification makes of the live entries and of the slots behind them, all together |
| DeviceTable.SparesSame | c/mac/Disk.cpp:143-152 | Which slots removals free does not depend on how the sort treats equal names |
| DeviceTable.Table.Replay | c/mac/Disk.cpp:122-170 | After any interleaving of arrivals and removals the table is sorted and holds exactly the names the events add up to |
| DeviceTable.WithoutTakesOne | c/mac/Disk.cpp:143-149 | A removal takes away one entry and no other |
| DeviceTable.WithoutTakesName | c/mac/Disk.cpp:143-149 | The name occurs once less, or the table is unchanged if it did not occur |
| DeviceTable.WithoutKeepsOrder | c/mac/Disk.cpp:145-151 | The shift alone leaves the table sorted, before qsort is called |
| DeviceTable.AcceptedAre | c/mac/Disk.cpp:161-168 | As many media are recorded as are disks or as fit, each of them a disk, the first of the list |
| DeviceTable.WithoutNamesCounts | c/mac/Disk.cpp:122-159 | A list of departures takes each name out as often as it names it, as far as it is there |
| DeviceTable.SortedNamesUnique | c/mac/Disk.cpp:116-120 | The order of the names is determined, however the sort treats equal names |
| DeviceTable.BagFits | c/mac/Disk.cpp:161-170 | No session makes the table hold more than MAXDRIVES names |
| Layout.EndIsHeight | c/linux/main.cpp:41-68 | The row render returns is the sum of the heights and blank rows modulo 2^16 |
| Layout.SectionsDisjoint | c/linux/main.cpp:41-68 | Sections that emit at most as many lines as they return, and the blank rows, lie on disjoint rows, top to bottom |
| Layout.DecideIsBest | c/linux/main.cpp:78-91 | fit picks the least condensed layout that fits if and only if no height it looks at wraps into the console |
| Terminal.PrintRow | c/linux/Disk.cpp:138-145 | A line is emitted unless this is a test, and counted either way |
| LinuxMain.Systat.Render | c/linux/main.cpp:41-68 | The same height in a test and in earnest; in earnest exactly the lines of the six sections and the blank rows are drawn, in a test none |
| LinuxMain.BlankLine | c/linux/main.cpp:30-39 | 0 rows when condensed, else 1; the row is cleared only in earnest |
| LinuxMain.SixSections | c/linux/main.cpp:41-68 | What the six calls of print and blank_line leave on the screen |
| LinuxMain.WhereSectionsAre | c/linux/main.cpp:41-68 | The rows that the six sections and the blank rows are drawn on, from the top: platform, CPUs, memory, disks, virtual memory, interfaces |
| LinuxMain.ScreenDisjoint | c/linux/main.cpp:41-68 | In every layout below 2^16 rows no row is written twice |
| LinuxMain.HeightsFall | c/linux/main.cpp:78-91 | The three heights fall by the number of CPU rows less one, then by six |
| LinuxMain.Systat.Fit | c/linux/main.cpp:78-91 | Leaves the two flags of the layout decided from the three heights, drawing nothing |
| LinuxMain.FitIsBest | c/linux/main.cpp:78-91 | That layout is the least condensed one that fits, or the most condensed, exactly if no height wraps into the console |
| LinuxMain.FitCanWrap | c/linux/main.cpp:78-91 | A screen of 65541 rows is taken for one that fits 24 |
| LinuxMain.Systat.Refresh | c/linux/main.cpp:101-109 | One turn: three updates that disturb nothing of each other, then fit and a drawing in the layout it chose |
| LinuxMain.Systat.Loop | c/linux/main.cpp:93-133 | Any number of turns keeps all invariants, and every section has read exactly its samples in order. The console holds the drawings since it was last cleared; the last drawing is still there if and only if the height was that of the turn before and the rows fit, else the console is empty |
| LinuxMain.ConsoleStep | c/linux/main.cpp:109-127 | A turn adds its drawing, or clears the console when the height is another or the rows do not fit |
| IoStat.DevStats | license/iostat.cpp:541-635 | One call measures and shows the first `maxShow` drives that can be read, each field and the blocks by their own; everything else in the table is unchanged |
| IoStat.Monitor.Notice | license/iostat.cpp:855-905 | A notification goes on with the run of the table, and sets phdr_flag exactly if a free slot was offered or an entry removed |
| IoStat.Monitor.Sample | license/iostat.cpp:541-635 | A sample goes on with the run of the table and shows what its entries say |
| IoStat.Run | license/iostat.cpp:398-460 | The whole loop with any notifications before any turn: the lines printed, which turns asked for a header, the screens, whether it ended, the history of the table, the CPU increments |
| IoStat.RowIsHistory | license/iostat.cpp:541-635 | For a drive that stands in the table once, whatever came and went and was sorted or shifted, each row shows the interval of its own readings at the samples that measured it, from what its slot held when it was recorded |
| IoStat.RowFields | license/iostat.cpp:616-634 | Each of the five fields of such a row is that field of the reading minus that of the totals it is measured from, modulo 2^64, and the blocks are its bytes in blocks of the drive |
| IoStat.RowsAddUp | license/iostat.cpp:616-632 | Without -I the rows shown for a drive add up, in each of the five fields and modulo 2^64, to its last reading minus what its slot held |
| IoStat.NewsBringsHeader | license/iostat.cpp:855-905 | Media that come in while the table is not full, an entry that is taken out, or a resumed program make the next turn print a header |
| IoStat.MeasuredFromTurnBefore | license/iostat.cpp:613-632 | Without -I, the row of a drive is measured from the reading of the turn before if and only if there was one and the drive was among the first `maxShow` then, or had counted nothing since it was last measured |
| IoStat.BetweenTurns | license/iostat.cpp:398-460 | Between the samples of two turns there are only arrivals and departures |
| DriveRuns.NamesOfRun | license/iostat.cpp:855-905 | In any state of a run the names in the table, and their order, follow from the arrivals and departures alone |
| DriveRuns.EntryStays | license/iostat.cpp:855-905 | A drive that stays keeps its entry through every shift and sort; only a sample that measures it changes it |
| DriveRuns.EntryFollows | license/iostat.cpp:613-632 | Over any run its running totals are those of its readings at the samples that measured it |
| DriveRuns.ShownForDrive | license/iostat.cpp:613-634 | What RowIsHistory says, of any sample of a run |
| DriveRuns.ShownFields | license/iostat.cpp:616-634 | What RowFields says, of any sample of a run |
| DriveRuns.MeasuredFromPrevious | license/iostat.cpp:613-632 | What MeasuredFromTurnBefore says, of any two samples of a run with none between them |
| DriveRuns.CleanStep | license/iostat.cpp:888-898 | A departure leaves all free slots without totals if and only if they were and it does not spill; nothing else makes a free slot hold any |
| DriveRuns.CleanIffNoSpill | license/iostat.cpp:855-905 | In a run no free slot ever holds any totals if and only if no departure ever spilled: a sixteenth entry with totals, or a stray slot with totals |
| DriveRuns.NoSpillAsDue | license/iostat.cpp:613-634 | All rows of a drive recorded before any departure spilled are measured from what is due, with -I or without: the first from the start, each later one from the last reading that measured the drive, or under -I from its first with bytes |
| Intervals.AsDueIff | license/iostat.cpp:613-632 | With -I or without, all rows of a drive are measured from what is due if and only if its slot held nothing when it was recorded, or it was never measured |
| Intervals.LaterAsDueIff | license/iostat.cpp:625-632 | The rows after its first are if and only if there is no -I, or the slot held no bytes, or held what the first reading says, or there are none |
| Intervals.CumulativeBase | license/iostat.cpp:625-632 | With -I and a slot without bytes, everything after the first sample with bytes is measured from that sample, every field together |
| Intervals.StaleBase | license/iostat.cpp:625-632 | With -I and a slot with bytes, everything is measured from those |
| Intervals.IntervalTells | license/iostat.cpp:616-623 | Two bases give the same interval only if they are the same |
| Intervals.IntervalFields | license/iostat.cpp:616-623 | Each field of an interval is the difference of its own totals modulo 2^64 |
| DriveCases.HiddenDrive | license/iostat.cpp:541 | Four drives that can all be read, of which three are shown: in the run given, the fourth is later shown with an interval that is measured from the start and not from the sample before |
| DriveCases.StaleFirstRow | license/iostat.cpp:616-623 | Sixteen drives, with -I or without: in the run given, the first row of a new drive is measured from the totals of the one that left |
| DriveCases.StaleSlot | license/iostat.cpp:626 | Under -I its second row is too |
| DriveCases.ShowHiddenDrive | license/iostat.cpp:541 | The program's objects go through the first run |
| DriveCases.ShowStaleSlot | license/iostat.cpp:616-632 | The program's objects go through the second run, with -I or without |
| IoStat.CpuLoad.CpuStats | license/iostat.cpp:713-728 | `cur` holds the increments, `last` the raw counters, for the three states looked at; the fourth is untouched |
| IoStat.IncrementsAddUp | license/iostat.cpp:713-728 | The increments of any run add up to the last raw counter minus the base |
| IoStat.ShownIsRaw | license/iostat.cpp:713-728 | So for each of the three states they add up to the raw counter itself when they start from zero, modulo 2^32 |
| IoStat.TicksAreModular | license/iostat.cpp:714-727 | The wrap-around subtraction and addition of ticks are those modulo 2^32 |
| Headers.HeaderFirst | license/iostat.cpp:398-416 | The first line printed is a header |
| Headers.OutputWellHeaded | license/iostat.cpp:412-416 | No stretch of the lines printed without a header in it is longer than twenty rows, under any requests |
| Headers.UnaskedHeader | license/iostat.cpp:412-416 | In a turn where nobody asks for a header one is printed if and only if exactly twenty rows stand behind the last |
| Headers.AskedHeader | license/iostat.cpp:412-416 | In a turn where a header is asked for one is printed |
| Headers.SinceIsCountdown | license/iostat.cpp:412-416 | headercount is 21 less the number of rows printed since the last header |
| Headers.RowsPrinted | license/iostat.cpp:450-451 | A count n of 1 or more gives exactly n rows; a negative count never ends the loop |
| PerlCpu.Script.PrintCpu | perl/systat.pl:130-182 | One line per key that starts with "cpu", in order, each made from the numbers of the last screen and of the start, every percentage under its own state; then the new numbers are kept |
| PerlCpu.PercentsInTenths | perl/systat.pl:149-158 | Each of the four percentages is within half a tenth of its own share, and all are zero when nothing was counted |
| PerlCpu.ScreenIsTrue | perl/systat.pl:138-179 | The lines of a screen, state by state: the differences since the last screen and since the start, and their percentages |
| PerlCpu.Script.Watch | perl/systat.pl:130-182 | Over any number of screens, the aggregate numerators of every line printed are the sum of the current numerators printed for its key since the start |
| PerlCpu.AggregateIsSum | perl/systat.pl:142-169 | The same of the screens that any readings lead to, this screen included, for keys that appear later as well |
| PerlCpu.NowOnLines | perl/systat.pl:142-148 | A screen shows for a key exactly the change of its numbers since the last |
| PerlCpu.PercentsAddUp | perl/systat.pl:149-154 | The four rounded percentages add up to between 99.9 and 100.2 |
| PerlCpu.PercentsReachBounds | perl/systat.pl:149-154 | Both ends are reached |

## Left out

- Terminal output: escape sequences, colours, formats and column widths. A screen is the trace of the rows written, a line its first column. Lines are taken not to wrap at the console's edge.
- Sampling: opening files, `getline`, sysctl, Mach, IOKit and CoreFoundation calls, signals, sleep. What they return is an argument.
- Memory: `delete`, `strdup` and what is never freed. `new` leaves counters with arbitrary values, as the source does.
- `Memory`, `Platform` and `VirtualMemory`: straight assignments; Linux `VirtualMemory` also stores `pswpout` in `swap_in` (c/linux/VirtualMemory.cpp:48-50). Their sections take part in the layout with the lines and heights they return.
- Lines without the token a loop looks at: `strncmp` would be given NULL there, so `Readable` asks for it. For /proc/net/dev and /proc/stat that is any token, for /proc/diskstats a name on lines with minor number 0.
- `major` and `minor` of a disk record: stored and never used.
- MacProcessor.Processor.Read: at most 1000 cores, because the source's name buffer holds seven characters (c/mac/Processor.cpp:65).
- RouteMessages.IsMessage: a message has at least the four bytes of header that the loop reads; what an RTM_IFINFO2 message carries is the kernel's layout, given as a function of the message's bytes. The hardware address is one number.
- DeviceTable.Sort: `qsort` is not part of the repository; an insertion sort stands for it, and the proofs use only that it sorts and permutes.
- DeviceTable.Table.Shift: the length given to memmove counts one entry more than the array has (c/mac/Disk.cpp:146-147). What lies there is an argument, `stray`, and never becomes a live entry.
- IoStat.Run: the CPU columns are always on, as they are unless -d is given without -C; the TTY and load columns are left out. What -n, -o and -d make of the number of drives shown is an argument. A notification is one list of media that came or went.
- `record_one_device` of iostat, and the aborts of `record_device` when the registry refuses a property.
- The maps of the mac `Disk`, which repeat the machine of the Linux classes, and the `print` methods of the mac sections other than the network; the mac `render`, whose memory section draws more rows than it returns (c/mac/Memory.cpp:92-111).
- IoStat.DevStats: the rates and the formats computed from an interval; the interval and its blocks are modelled. What the registry says is one set of totals per storage driver and sample. A blocksize of zero would divide by zero in the source and is excluded.
- IoStat.RowIsHistory: about names that stand in the table once. Of two entries with one name nobody could say which of them a row is.
- PerlCpu.PercentsAddUp: exact rationals in place of floating point.
- LinuxMain.Systat.Loop: as many turns as there are ticks; the signal that ends the loop comes after the last of them.
- c/old, build files and the Perl script's other sections.
