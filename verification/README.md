# DUT dashboard: a verified model

The DUT dashboard watches access points under test: it reads a serial or SSH console, keeps telemetry snapshots,
checks captured beacons, surveys channels, and remembers which reading belongs to which device. This project models
the parts of it that reach a simple specification by a cleverer route, and proves that they do.

* **Telemetry** (`SnapshotModel`, `SnapshotRing`, `SnapshotStore`, `SysMonParser`, `TelemetryPipeline`, `ConsoleLines`).
  Console lines become full updates and deltas; the store rebuilds snapshots, keeps a ring and a file, and reloads
  after a crash. The yardstick is reading the whole log at once. Memory readings have no "removed" list, so a repeated
  header leaves old keys behind; the theorems say exactly when and what.
* **Beacon security** (`BeaconSecurity`, `Findings`, `PacketRules`, `SuiteNames`). A decoder flattens nested Multiple
  BSSID elements (IEEE Std 802.11-2020, sections 9.3.3.2, 9.4.2.24 and 9.4.2.45) into merged lists; the recovery undoes
  that or says it cannot, and is right exactly when a stated condition holds. Rules over the rows collapse into findings that forget
  the order of the rows, and suite names are read back out of a joined text.
* **Console RPC** (`CaptureProtocol`, `SerialWorker`, `JsonScanner`). A sentinel protocol shared by one reader and many
  callers, and a scanner that cuts one JSON object out of console noise.
* **Identity and persistence** (`DutConsoles`, `DutCaptures`, `DutPersistence`, `Collectors`, `CollectorMigration`,
  `SurveyNames`, `SurveyRestore`, `SurveyRestart`). Readings anchored to consoles across every interleaving, what a
  restart restores, collector sessions and passwords, and the repeatable migration of remote nodes.
* **Anonymiser** (`Anonymiser`, `AliasPools`). Linear probing over hashed buckets, injective and independent of order.
* **Channels and hits** (`ChannelPlan`, `HitMerge`, `HitOrder`, `EventMetadata`). A channel recommendation with
  stickiness, and a greedy merge that equals connected components.

`Common`, `Text`, `Sorting` and `Fields` hold shared vocabulary. Objects whose fields the program updates are classes;
every method equates the new state with a specification function of the old one, and the theorems are lemmas about
those functions. What the functions themselves mean is stated as well, in quantifiers, plain numbers and the names the
program uses, so that a theorem never rests on its own vocabulary. Concurrency is a machine over atomic steps.

Where the code and what it says of itself disagree, the model follows the code:

* Memory keys are said never to disappear from a section. Under a repeated header they do, and the stored ones stay
  (`TelemetryPipeline.RepeatedHeaderKeepsMemory`).
* The recovery is described as keeping the transmitting BSS's own values. An own RSN element that ends early takes the
  missing fields from a nested one (`BeaconSecurity.LeadingRightIff`).
* A tombstone and a snapshot are said to tie only within one call. Two surveys of one device within one second tie as
  well, and the older rows win (`SurveyRestart.SameSecondResurrects`).
* A bare survey is said to leave the remembered answer alone. Within the second of that answer it takes over the file
  (`SurveyRestart.SameSecondErases`).
* The registry's id pattern is meant to keep ids fit for file names. Its match lets a last line break through, and what
  is surveyed under such an id is never restored (`SurveyRestart.LineBreakIsForgotten`).
* A second capture commit is meant to be refused once the console has moved. A console left and re-entered between the
  commits is not noticed (`DutCaptures.LeavingAndReturning`).
* A log file is said never to be captured. A capture begun while one is open, answered over a cable and committed while
  one is open again is filed under it (`DutCaptures.FiledUnderAReplay`).
* A lost console is meant to release whoever waits on it. A capture armed between the waking and the closing, if its
  write still goes through, sleeps until its clock runs out (`CaptureProtocol.AsleepOnALostConsole`).
* A restart is meant to carry the saved fields across. A management address is saved for every device and read back for
  the default one only (`DutPersistence.AddressIsForgotten`).
* A collector's record is meant to validate alike from the API and from disk. A label cut at its bound, or derived
  from a long address, may change on the way (`Collectors.ComesBackIff`).

## Model

| member | source | states |
|---|---|---|
| SnapshotModel.BuildDelta | dut-dashboard/backend/app/parser/sysmon_parser.py:235-277 | the loop-built delta is the difference of the two readings: what changed, and for CPU and radios what disappeared |
| SnapshotModel.ApplyDelta | dut-dashboard/backend/app/services/snapshot_store.py:156-185 | popping and overwriting the sections in place gives the rebuilt snapshot, device id kept |
| SnapshotModel.PatchInPlace | dut-dashboard/backend/app/services/snapshot_store.py:164-176 | removing then writing keys one at a time equals patching the section at once |
| SnapshotModel.ReconstructUndoesDiff | dut-dashboard/backend/app/services/snapshot_store.py:156-185 | for any two readings, applying their difference to the earlier gives the later one, its memory laid over the earlier memory |
| SnapshotModel.ReconstructExactIff | dut-dashboard/backend/app/parser/sysmon_parser.py:235-277 | the rebuild equals the later reading if and only if no memory key has disappeared |
| SnapshotModel.MemoryKeySurvivesDelta | dut-dashboard/backend/app/parser/sysmon_parser.py:235-277 | a concrete reading that loses its memory key gives an empty delta and is not rebuilt |
| SnapshotModel.EmptyDiff | dut-dashboard/backend/app/parser/sysmon_parser.py:173-188 | a delta is empty exactly when the readings agree on all a delta carries, so suppressing it loses nothing else |
| SnapshotModel.DiffIsLeast | dut-dashboard/backend/app/parser/sysmon_parser.py:235-277 | no delta that rebuilds the later reading carries less than the difference does |
| SnapshotRing.DedupIsKeepLast | dut-dashboard/backend/app/services/snapshot_store.py:90-98 | evicting and re-appending on every timestamp equals keeping the last entry per timestamp in order of last appearance |
| SnapshotRing.NewestForgetsThePast | dut-dashboard/backend/app/services/snapshot_store.py:90-98 | only the window of the past matters for any future, so a bounded ring is enough |
| SnapshotStore.Store.constructor | dut-dashboard/backend/app/services/snapshot_store.py:25-42 | a start loads the tail of the file, compacts it and has no open snapshot |
| SnapshotStore.Store.ReadTail | dut-dashboard/backend/app/services/snapshot_store.py:131-153 | the loaded ring is the deduplicated newest window of the last N lines |
| SnapshotStore.Store.Observe | dut-dashboard/backend/app/services/snapshot_store.py:44-79 | every event moves ring, open snapshot, file and counter exactly as the specification says; others change nothing |
| SnapshotStore.Store.Insert | dut-dashboard/backend/app/services/snapshot_store.py:90-98 | the eviction loops leave the upserted ring |
| SnapshotStore.Store.Append | dut-dashboard/backend/app/services/snapshot_store.py:105-116 | finalised entries are appended and the file is rewritten on every Nth append |
| SnapshotStore.Store.Compact | dut-dashboard/backend/app/services/snapshot_store.py:118-129 | the file becomes the ring and the counter zero |
| SnapshotStore.Store.Recent | dut-dashboard/backend/app/services/snapshot_store.py:81-88 | the newest `limit` entries, or all for a non-positive limit |
| SnapshotStore.FiledOrRewritten | dut-dashboard/backend/app/services/snapshot_store.py:105-129 | a finalised snapshot is appended, except that every Nth time the file becomes the ring |
| SnapshotStore.FiledWhenComplete | dut-dashboard/backend/app/services/snapshot_store.py:44-79 | a snapshot reaches the file exactly when the one behind it has another timestamp |
| SnapshotStore.ChangeIsFull | dut-dashboard/backend/app/services/snapshot_store.py:69-79 | a delta acts as the full snapshot it makes of the open one; without an open one, and for other events, nothing happens |
| SnapshotStore.BootKeepsInv | dut-dashboard/backend/app/services/snapshot_store.py:25-42 | a boot on any file establishes the ring/file invariant |
| SnapshotStore.ObserveKeepsInv | dut-dashboard/backend/app/services/snapshot_store.py:44-116 | every event keeps it |
| SnapshotStore.RunInvariant | dut-dashboard/backend/app/services/snapshot_store.py:44-153 | after any run from any file: the ring is the newest N over file and open snapshot, and the file never exceeds 2N-1 lines |
| SnapshotStore.ReloadIsSuffix | dut-dashboard/backend/app/services/snapshot_store.py:131-153 | a reload gives a suffix of the true newest window, never something invented, reordered or skipped |
| SnapshotStore.ReloadExactIff | dut-dashboard/backend/app/services/snapshot_store.py:131-153 | and the whole window if and only if the last N lines repeat no timestamp or already hold every timestamp of the file |
| SnapshotStore.ReloadCanLose | dut-dashboard/backend/app/services/snapshot_store.py:131-153 | a file whose last lines repeat a timestamp loses an entry the ring should have |
| SnapshotStore.CrashAndReload | dut-dashboard/backend/app/services/snapshot_store.py:25-153 | a crash between any two calls of any run, then a restart: the invariant again, nothing open, a suffix of what the file deserves |
| SysMonParser.Parser.FeedLine | dut-dashboard/backend/app/parser/sysmon_parser.py:66-120 | feeding a line changes all parser fields and emits exactly the events of the specification function, branch by branch |
| SysMonParser.Parser.EmitSnapshotUpdate | dut-dashboard/backend/app/parser/sysmon_parser.py:173-188 | full update at a boundary, non-empty delta inside one, nothing otherwise |
| SysMonParser.Parser.ConsumeClientsJson | dut-dashboard/backend/app/parser/sysmon_parser.py:126-165 | a decoded client list goes to its radio and to the open reading; an undecodable one only disarms the marker |
| SysMonParser.MemKeysAre | dut-dashboard/backend/app/parser/sysmon_parser.py:20-22 | the eight memory figures that are kept, by name |
| SysMonParser.HeaderLine | dut-dashboard/backend/app/parser/sysmon_parser.py:66-80 | a header closes what is open, waiting text first, and opens a blank reading of its own |
| SysMonParser.MarkerLine | dut-dashboard/backend/app/parser/sysmon_parser.py:81-86 | a client marker arms its radio and is neither shown nor told |
| SysMonParser.ListLine | dut-dashboard/backend/app/parser/sysmon_parser.py:126-165 | the list behind a marker is told for that radio behind the waiting text and enters the open reading; one that cannot be read only uses the marker up |
| SysMonParser.CpuLine | dut-dashboard/backend/app/parser/sysmon_parser.py:97-120 | a CPU line under an open header enters the reading, told behind the waiting text |
| SysMonParser.OtherLine | dut-dashboard/backend/app/parser/sysmon_parser.py:66-112 | every other line is console text |
| SysMonParser.CountersCount | dut-dashboard/backend/app/parser/sysmon_parser.py:173-188 | the efficiency counters count the updates told |
| SysMonParser.StartsBlank | dut-dashboard/backend/app/parser/sysmon_parser.py:25-48 | a parser just made or reset has nothing open, waiting or counted |
| SysMonParser.MemoryLine | dut-dashboard/backend/app/parser/sysmon_parser.py:100-112 | a memory line enters the open reading exactly if its figure is kept, and reaches the console in either case |
| SysMonParser.TextWaits | dut-dashboard/backend/app/parser/sysmon_parser.py:190-215 | console text waits, under a timer, until there are twenty lines of it, which then go out as one batch in order |
| SysMonParser.TextGoesOut | dut-dashboard/backend/app/parser/sysmon_parser.py:205-215 | a flush sends what waits as one batch, and nothing when nothing waits |
| TelemetryPipeline.IncrementalEqualsBatch | dut-dashboard/backend/app/parser/sysmon_parser.py:66-188 | for every store and every run of lines, flushes and re-opens ending closed, whatever headers repeat, the ring is the newest N of (initial ring ++ batch-read snapshots), one per header, blocks of a repeated header laid over each other: memory overlaid, CPU and radios of the last, stamp of the first |
| TelemetryPipeline.OneSnapshotPerHeader | dut-dashboard/backend/app/parser/sysmon_parser.py:66-188 | in particular, when no header repeats the one before it, one full snapshot for every header |
| TelemetryPipeline.DeltaRunInvariant | dut-dashboard/backend/app/parser/sysmon_parser.py:173-188 | on every run, repeated headers included, the store agrees with the last emission on count, timestamp, CPU and radios, and its memory includes the emitted one |
| TelemetryPipeline.EmissionLays | dut-dashboard/backend/app/services/snapshot_store.py:69-79 | after any emission inside a block, on any run, the open snapshot is the current reading with its memory laid over the memory held |
| TelemetryPipeline.EmissionExactIff | dut-dashboard/backend/app/parser/sysmon_parser.py:235-277 | so such an emission is exact if and only if the current reading has every memory key the store holds |
| TelemetryPipeline.DeltasAreExact | dut-dashboard/backend/app/services/snapshot_store.py:69-79 | without repeated headers the store holds exactly the last emission, memory included |
| TelemetryPipeline.RunKeepsDeviceId | dut-dashboard/backend/app/dut/registry.py:414-442 | so on every run the open snapshot carries the stamp of the last full update |
| TelemetryPipeline.RepeatedHeaderKeepsMemory | dut-dashboard/backend/app/parser/sysmon_parser.py:66-120 | a concrete log with a repeated header leaves a key in the store that its last section never reported |
| ConsoleLines.LinesAreConserved | dut-dashboard/backend/app/parser/sysmon_parser.py:190-233 | under every interleaving of the reader with late timers: taken batches ++ pending equal the queued lines in order, each batch has 1 to 20 lines, delivered and in-hand batches are those taken |
| ConsoleLines.FreshConsole | dut-dashboard/backend/app/parser/sysmon_parser.py:25-48 | a fresh console has nothing waiting and nobody owing anything |
| ConsoleLines.AnybodyMayTake | dut-dashboard/backend/app/parser/sysmon_parser.py:190-233 | reader and timer may come for the waiting lines at any moment; only a reader that owes a flush queues no more |
| ConsoleLines.OrderedDeliveryShowsNewest | dut-dashboard/backend/app/services/console_buffer.py:20-48 | delivered in order, the ring is the last 500 queued lines |
| ConsoleLines.FeedRefinesSteps | dut-dashboard/backend/app/parser/sysmon_parser.py:66-120 | the single-threaded parser is one run of that machine |
| ConsoleLines.ConsoleBuffer.Observe | dut-dashboard/backend/app/services/console_buffer.py:24-41 | appending line by line with eviction keeps the ring the last `maxlen` lines of everything delivered |
| ConsoleLines.ConsoleBuffer.Recent | dut-dashboard/backend/app/services/console_buffer.py:43-48 | the newest lines ever delivered, as many as asked for or as many as are kept |
| BeaconSecurity.RecoveryRightIff | dut-dashboard/backend/app/services/packet_modes.py:295-360 | for every nested beacon, whatever columns are at hand and whether or not the element list decoded, the recovered row tells the transmitting BSS's own values if and only if a condition on the beacon and the columns holds, spelled out case by case |
| BeaconSecurity.RecoveryUndoesFlattening | dut-dashboard/backend/app/services/packet_modes.py:295-360 | for every nested beacon with a complete own RSN element and a truthful Privacy bit, recovery after flattening tells the transmitting BSS's own values or flags the row unresolved with the keys dropped |
| BeaconSecurity.RecoverLeading | dut-dashboard/backend/app/services/packet_modes.py:347-360 | with RSN ahead of Multiple BSSID (IEEE Std 802.11-2020, section 9.3.3.2): the first carried value of each field, or unresolved exactly when several elements' lists lack their counts |
| BeaconSecurity.LeadingRightIff | dut-dashboard/backend/app/services/packet_modes.py:347-360 | in the standard's order, with or without count columns, the row is right if and only if the lists can be told apart and what is carried first is what the own element says |
| BeaconSecurity.OpenBitRightIff | dut-dashboard/backend/app/services/packet_modes.py:339-346 | behind Multiple BSSID the row is right if and only if the Privacy bit is there and clear and the own element says nothing |
| BeaconSecurity.UndecodedRightIff | dut-dashboard/backend/app/services/packet_modes.py:322-332 | when the element list did not decode, the row is right if and only if every merged list is the own one and every scalar carried first is the own one |
| BeaconSecurity.RecoverBehindMbssid | dut-dashboard/backend/app/services/packet_modes.py:339-346 | with Multiple BSSID ahead: open exactly when the Privacy bit is present and clear, unresolved otherwise |
| BeaconSecurity.TruncatedOwnIsMisread | dut-dashboard/backend/app/services/packet_modes.py:347-360 | a concrete own element without capabilities takes MFPR from a nontransmitted BSS |
| BeaconSecurity.RecoveryLeavesTheRest | dut-dashboard/backend/app/services/packet_modes.py:295-360 | columns outside security are untouched, helper columns are gone, WPA columns go when Multiple BSSID is present |
| BeaconSecurity.LeadingRsnIsOwn | dut-dashboard/backend/app/services/packet_modes.py:295-304 | in the standard's order the first flattened RSN element is the transmitting BSS's own |
| BeaconSecurity.OtherwiseMbssidLeads | dut-dashboard/backend/app/services/packet_modes.py:306-312 | otherwise every flattened RSN element sits behind a 71, so the order of the two ids decides |
| BeaconSecurity.RowTable.KeepTransmittingRsn | dut-dashboard/backend/app/services/packet_modes.py:295-360 | the in-place recovery is the specification function on the row |
| BeaconSecurity.RowTable.ReduceColumn | dut-dashboard/backend/app/services/packet_modes.py:347-360 | one list column cut to the first element's share, or the row given up |
| BeaconSecurity.LeadingRow | dut-dashboard/backend/app/services/packet_modes.py:347-360 | any row, flattened from a beacon or not: with a 48 ahead of any 71 it is given up if and only if a list column's counts are missing for several elements or do not add up to its length; if not, each list column becomes its first counts[0] values as Python slices them, and the scalars stay |
| BeaconSecurity.FollowingRow | dut-dashboard/backend/app/services/packet_modes.py:339-346 | any row whose first 48 is behind a 71: all five columns empty on a clear Privacy bit, given up otherwise |
| BeaconSecurity.RsnFreeRow | dut-dashboard/backend/app/services/packet_modes.py:322-338 | any row without a 48 in its list, or without a list, keeps its columns |
| BeaconSecurity.WpaColumnsGoIff | dut-dashboard/backend/app/services/packet_modes.py:306-335 | the WPA columns go if and only if there is a 71 in the list |
| Findings.Evaluate | dut-dashboard/backend/app/services/packet_rules.py:344-395 | unknown rules, and exactly those, are refused; otherwise every verdict of a rule asked for, on a row or on the rows of a group some row carries, is a finding under that rule, group and message with its frames, and every finding and every frame of it comes from such a verdict; one finding a (rule, group, message), frames sorted, in the order fail, warn, info, then rule, then group |
| Findings.FramesAreCounted | dut-dashboard/backend/app/services/packet_rules.py:344-395 | every frame of a finding is listed exactly as often as it is told: once for each row that carries it and says this, and as often as the verdicts on its group list it |
| Findings.FirstSayerDecides | dut-dashboard/backend/app/services/packet_rules.py:358-372 | a finding has the severity of the first row that says it |
| Findings.MembersAre | dut-dashboard/backend/app/services/packet_rules.py:375-388 | the rows of a group are the rows that carry it, in the order they came, each as often as it came |
| Findings.ReportForgetsRowOrderIff | dut-dashboard/backend/app/services/packet_rules.py:344-395 | under group rules that read rows as a bag, every permutation of the rows reports the same findings if and only if no row rule gives one message at two severities within one group |
| Findings.ReportForgetsRowOrder | dut-dashboard/backend/app/services/packet_rules.py:344-395 | so reports over agreeing rows hold the same findings in any row order |
| Findings.CollapsesIsReported | dut-dashboard/backend/app/services/packet_rules.py:344-395 | what was raised determines the set of findings |
| Findings.RaisedBag | dut-dashboard/backend/app/services/packet_rules.py:365-388 | the same rows in any order raise the same bag |
| Findings.MembersCarryTheirGroup | dut-dashboard/backend/app/services/packet_rules.py:375-388 | a group rule sees exactly the rows that carry its group; rows without one reach none |
| Findings.BssConfigChangedLoop | dut-dashboard/backend/app/services/packet_rules.py:300-317 | the change rule reports exactly the keys all rows carry with more than one comparable value |
| Findings.AnnouncesExactlyTheChanges | dut-dashboard/backend/app/services/packet_rules.py:295-317 | on any rows the change rule announces, with the number of readings and every frame in order, exactly those of the seven settings that every row carries and that are read in two or more ways, lists being read as bags |
| Findings.ChangeIsReported | dut-dashboard/backend/app/services/packet_rules.py:300-388 | so a group whose rows all carry a setting and read it in n ways has it in the report under that group, with that n |
| Text.DecimalSamples | dut-dashboard/backend/app/services/packet_rules.py:313-316 | numbers in messages are written in decimal digits |
| Findings.BssConfigChangedIsOrderBlind | dut-dashboard/backend/app/services/packet_rules.py:300-317 | and reads its rows as a bag, as the order theorem asks |
| Findings.SilentIffStable | dut-dashboard/backend/app/services/packet_rules.py:295-317 | a key is not reported exactly when some row lacks it or all rows agree, lists compared sorted |
| PacketRules.LegacySecurityFixes | dut-dashboard/backend/app/services/packet_rules.py:190-218 | the message of the legacy rule alone tells whether it fails or warns |
| PacketRules.CountryMismatchFixes | dut-dashboard/backend/app/services/packet_rules.py:235-262 | so does the message of the country rule, whatever codes and regions it names |
| PacketRules.LegacySecurityIff | dut-dashboard/backend/app/services/packet_rules.py:190-218 | any row: fail exactly for the Privacy bit with neither AKM suites nor a WPA element, else a warning exactly for a WPA element, for TKIP (type 2) without a WPA3 suite, or for both, each with its text, else nothing |
| PacketRules.CountryMismatchIff | dut-dashboard/backend/app/services/packet_rules.py:235-262 | any row: silent without an expectation or a country column, a warning without a country, a failure exactly for a country that neither the domain nor the one code covers in any letter case; the text names domain, sorted codes or code |
| PacketRules.Wpa3ByName | dut-dashboard/backend/app/services/packet_rules.py:208-214 | from printed suites to the rules: a network counts as WPA3 exactly when it prints SAE, FT/SAE, OWE or one of the numbers 8, 9, 18, 24, 25 |
| PacketRules.ProgramForgetsRowOrder | dut-dashboard/backend/app/services/packet_rules.py:319-395 | hence the program's reports hold the same findings in any row order, for any rules asked for, any grouping and any rows |
| SuiteNames.Suites | dut-dashboard/backend/app/services/scan_rows.py:51-74 | on every string the loop terminates, its rest strictly shrinking, and reads what the specification reads |
| SuiteNames.SuitesUndoesJoin | dut-dashboard/backend/app/services/scan_rows.py:51-74 | for every list of named, unnamed `00-0f-ac:n` and foreign suites, reading the joined names gives back exactly the numbers, in order |
| SuiteNames.AkmTableUnambiguous | dut-dashboard/backend/app/services/scan_rows.py:33-39 | the AKM table meets the premise, names with blanks and names that begin others included |
| SuiteNames.CipherTableUnambiguous | dut-dashboard/backend/app/services/scan_rows.py:40-46 | so does the cipher table |
| SuiteNames.AkmNumbering | dut-dashboard/backend/app/services/scan_rows.py:33-39 | the AKM names stand for 1 to 9 and 11 to 18, in the order of the standard |
| SuiteNames.AkmSpelling | dut-dashboard/backend/app/services/scan_rows.py:33-39 | their spelling: a digest is behind a slash, and so is a name behind FT |
| SuiteNames.LongAkmSpelling | dut-dashboard/backend/app/services/scan_rows.py:33-39 | likewise the suite B and FILS names |
| SuiteNames.CipherNumbering | dut-dashboard/backend/app/services/scan_rows.py:40-44 | the cipher names stand for 0 to 2 and 4 to 13 |
| SuiteNames.CipherSpelling | dut-dashboard/backend/app/services/scan_rows.py:40-44 | and their spelling |
| SuiteNames.ScanReads | dut-dashboard/backend/tests/test_iw_scan.py:125-140 | what a scan's lists read as: known, unknown and spaced names |
| SuiteNames.LongestNameIsTaken | dut-dashboard/backend/app/services/scan_rows.py:57-72 | on any table and text, no name that fits is longer than the one taken |
| JsonScanner.ExtractJsonObject | dut-dashboard/backend/app/services/mesh_topology.py:214-254 | the index loop computes the specification function |
| JsonScanner.ExtractUndoesPrint | dut-dashboard/backend/app/services/mesh_topology.py:214-254 | for every JSON object (sections 4 and 7 of RFC 8259), whatever braces, quotes and escapes its strings hold, behind brace-free noise and before anything, exactly the printed object is cut out |
| JsonScanner.TruncatedYieldsNothing | dut-dashboard/backend/app/services/mesh_topology.py:214-254 | every proper prefix of the printed object yields nothing |
| JsonScanner.ExtractIsFirstBalanced | dut-dashboard/backend/app/services/mesh_topology.py:214-254 | on any text the result runs from the first brace to the first point of balance, and nothing means there is no such point |
| JsonScanner.StepIs | dut-dashboard/backend/app/services/mesh_topology.py:228-252 | braces count outside strings, and a quote toggles the string unless a backslash in it stands ahead |
| JsonScanner.SampleIsValid | dut-dashboard/backend/app/services/mesh_topology.py:214-254 | objects with every kind of value, escape and blank are among those the round trip is about |
| JsonScanner.ItemsAre | dut-dashboard/backend/app/services/mesh_topology.py:214-254 | what a string may hold: any character but quote and backslash, the eight escapes, four hexadecimal digits |
| JsonScanner.BlanksAre | dut-dashboard/backend/app/services/mesh_topology.py:214-254 | what may stand between: blank, tab, line feed, carriage return |
| JsonScanner.DigitsAre | dut-dashboard/backend/app/services/mesh_topology.py:214-254 | what numbers and hexadecimal digits are made of |
| CaptureProtocol.OutputReturnedIff | dut-dashboard/backend/app/serial/serial_worker.py:591-619 | behind lines that hold the echo or strip to the command, the output is returned, its last newline restored, if and only if no complete line of it, and not its last line fused with the sentinel, holds the echo or strips to the command, no complete line holds the sentinel, and the first sentinel in the fused line is the one behind the output |
| CaptureProtocol.LineContributes | dut-dashboard/backend/app/serial/serial_worker.py:591-619 | any captured line: nothing if it holds the echo or strips to the command, else all of it ahead of the first sentinel as a line of its own, else the line itself |
| CaptureProtocol.EndsCaptureIff | dut-dashboard/backend/app/serial/serial_worker.py:621-639 | a capture is over at the first line that holds the sentinel and not its echo |
| CaptureProtocol.ReceivedIsPrinted | dut-dashboard/backend/app/serial/serial_worker.py:545-582 | what is received is the output and the sentinel's line, cut at the line breaks and nowhere else |
| CaptureProtocol.RestoredIs | dut-dashboard/backend/app/serial/serial_worker.py:591-619 | what is expected back is the output itself, or the output and the line break it lacked |
| Text.StripIff | dut-dashboard/backend/app/serial/serial_worker.py:605-610 | stripping gives the one text that begins and ends with no white space and has nothing but white space around it |
| Text.StartsWithIff | dut-dashboard/backend/app/parser/sysmon_parser.py:88-91 | one text starts with another exactly if it is that text and some rest |
| Text.AsciiSpace | dut-dashboard/backend/app/serial/serial_worker.py:605-610 | white space among the ASCII characters |
| CaptureProtocol.FaithfulEndsOnTime | dut-dashboard/backend/app/serial/serial_worker.py:621-639 | a faithful output ends the capture with its fused last line and no line before it |
| CaptureProtocol.OverlapIsLost | dut-dashboard/backend/app/serial/serial_worker.py:591-619 | a concrete output ending in the start of the sentinel is cut short |
| CaptureProtocol.FilterLines | dut-dashboard/backend/app/serial/serial_worker.py:591-619 | the filter loop computes the text whose parts `CaptureProtocol.LineContributes` tells line by line |
| CaptureProtocol.CaptureSafety | dut-dashboard/backend/app/serial/serial_worker.py:545-639 | under any interleaving of callers and the reader: at most one caller inside, the log holds every line once in order, capture buffer and parser input partition it |
| CaptureProtocol.FinishedGetsItsWindow | dut-dashboard/backend/app/serial/serial_worker.py:545-619 | a finished caller holds exactly the lines read while it held the console, all of them diverted |
| CaptureProtocol.CaptureReturnsOutput | dut-dashboard/backend/app/serial/serial_worker.py:545-639 | end to end: a caller whose window holds lines that hold the echo or strip to its command, then the output and the sentinel, gets the output, its last newline restored, by the same condition on the text |
| CaptureProtocol.WindowIsOneConsoleIff | dut-dashboard/backend/app/serial/serial_worker.py:545-619 | a caller collects exactly the lines read since its command was written, all of them from the console it wrote to if and only if no console is opened ahead of one of them |
| CaptureProtocol.NextConsoleAnswers | dut-dashboard/backend/app/serial/serial_worker.py:132-220 | a run that closes and opens the console inside a capture: the next console's line goes to the waiting caller and never reaches the parser |
| CaptureProtocol.StepKeepsInv | dut-dashboard/backend/app/serial/serial_worker.py:545-639 | every step of caller or reader keeps gate, stream and caller invariants |
| CaptureProtocol.LossSafety | dut-dashboard/backend/app/serial/serial_worker.py:418-445 | under the same interleavings, a loss noticed, waking, closing and telling being steps of their own with re-opens between them: at most one loss announced per opening, nothing fed to the parser left unfinished behind a closed console, and a lost console closed once no tear-down is under way |
| CaptureProtocol.AlwaysAwakeIff | dut-dashboard/backend/app/serial/serial_worker.py:418-445 | over any run, no capture is left asleep on a lost console if and only if none is armed between the waking and the closing of a tear-down |
| CaptureProtocol.AsleepOnALostConsole | dut-dashboard/backend/app/serial/serial_worker.py:563-582 | a run that arms one there: it sleeps on a closed console, not woken |
| SerialWorker.Worker.BeginCapture | dut-dashboard/backend/app/serial/serial_worker.py:563-582 | a capture is armed exactly on an open console outside terminal mode whose command could be written; a failed write disarms it and leaves the caller to tear the console down |
| SerialWorker.Worker.ConsumeLine | dut-dashboard/backend/app/serial/serial_worker.py:621-639 | one line: logged, then to the capture in flight or to the parser, and the sentinel ends the wait |
| SerialWorker.Worker.CollectOutput | dut-dashboard/backend/app/serial/serial_worker.py:583-619 | the buffer is taken, the capture disarmed, and the output made of exactly that buffer |
| SerialWorker.Worker.HandleDeviceLost | dut-dashboard/backend/app/serial/serial_worker.py:418-445 | the first to notice a loss wakes a waiting capture, closes the console, has the parser finish and announces it; later ones change nothing |
| SerialWorker.CaptureCommand | dut-dashboard/backend/app/serial/serial_worker.py:545-619 | one caller's whole way: refused behind a gate that stays taken, on a closed console or in terminal mode; after a failed write the loss is on record and the console closed, unless somebody else is already closing it; else the filtered reply; none of it reaches the parser |
| DutConsoles.DutContext.ForgetIfAnotherConsole | dut-dashboard/backend/app/dut/registry.py:367-383 | an open revokes a capture of another console and a name answered on another console, each against its own anchor, in place |
| DutConsoles.SameConsoleIff | dut-dashboard/backend/app/dut/registry.py:110-135 | two configurations are one console exactly when registration, host, port, device, mesh flag and interface agree, or by cable registration and port; login, key and baud rate play no part |
| DutConsoles.WaysDiffer | dut-dashboard/backend/app/dut/registry.py:292-320 | a log, a cable and SSH are three different consoles, and a device with a remote node is reached over SSH |
| DutConsoles.OpeningLetsGo | dut-dashboard/backend/app/dut/registry.py:367-383 | after an open a capture is whole if it came from that console and gone if it did not, and so is a name, each on its own |
| DutConsoles.CableLetsGo | dut-dashboard/backend/app/dut/registry.py:638-665 | a cable with a port and a speed is noted and opens its console; anything less changes nothing |
| DutConsoles.RepointingLetsGo | dut-dashboard/backend/app/dut/registry.py:753-771 | a node pointed at another console loses its capture and keeps its name; any other edit keeps both |
| DutConsoles.NamingLetsGo | dut-dashboard/backend/app/dut/registry.py:576-636 | another name than before takes the capture with it and may tell the model; the same one only moves its anchor |
| DutConsoles.JoinsIff | dut-dashboard/backend/app/dut/registry.py:477-488 | a device joins exactly under an admitted new id while there are fewer than sixteen |
| DutConsoles.FreshIsBlank | dut-dashboard/backend/app/dut/registry.py:399-413 | a new device has nothing but its label and a registration of its own |
| DutConsoles.DutRegistry.RegisterDut | dut-dashboard/backend/app/dut/registry.py:477-488 | registers exactly an id the pattern match admits, a last line break included, that is new and below the limit, under a registration never used before |
| DutConsoles.DutRegistry.StoreBackhaulReading | dut-dashboard/backend/app/dut/registry.py:667-698 | accepted exactly while the console is still the one given, and then stored under it |
| DutCaptures.CapturesAreAnchored | dut-dashboard/backend/app/dut/registry.py:292-383 | after any run whatever of opens, re-points, removals, registrations and interleaved captures and commits: captured iff a console is on file; uplink or role implies captured; the reading is the last committed one, under the token of its start; and its console is one the configuration still yields for cable or SSH, exactly unless the capture was begun over a log file |
| DutCaptures.CapturesAreLive | dut-dashboard/backend/app/dut/registry.py:302-320 | so when every capture was begun on a live console, every reading is one of a live console, whatever the worker has turned to by a commit, a replay included |
| DutCaptures.RevokedIff | dut-dashboard/backend/app/dut/registry.py:339-383 | after any run, a captured device loses its reading exactly by its removal, by an open of another console, by a re-point that changes host, port, device, mesh flag or interface, or by another unit answering |
| DutCaptures.ForgottenIff | dut-dashboard/backend/app/dut/registry.py:356-383 | after any run, a unit that answered on a console is forgotten exactly by its device's removal or by an open of another console, captured or not; otherwise only its own answer changes the name |
| DutCaptures.IdentityAfter | dut-dashboard/backend/app/dut/registry.py:576-636 | what every step makes of a name and of the console it was answered on |
| DutCaptures.NamedByLastAnswer | dut-dashboard/backend/app/dut/registry.py:576-636 | on every run a name with a console beside it is the last answer, and that console the one the answer came from |
| DutCaptures.CaptureBegins | dut-dashboard/backend/app/api/fleet_api.py:281-330 | a capture begins, with the console of the moment, exactly on a registered device that is not a node declared standalone |
| DutCaptures.ReadingIsStored | dut-dashboard/backend/app/dut/registry.py:667-698 | a commit stores its reading under the console its capture began on exactly while the device is still there, and otherwise changes nothing; no other device changes |
| DutCaptures.ChildrenAreStored | dut-dashboard/backend/app/dut/registry.py:700-709 | likewise the second commit and its children |
| DutCaptures.RemovalSpares | dut-dashboard/backend/app/dut/registry.py:773-783 | removal takes the one device, and never the default one |
| DutCaptures.OthersAreUntouched | dut-dashboard/backend/app/dut/registry.py:576-771 | what is told of one device changes no other, and nothing at all if nobody registered it |
| DutCaptures.StepKeepsInv | dut-dashboard/backend/app/api/fleet_api.py:281-399 | every step, commits of any capture in any mode included, keeps that |
| DutCaptures.RemovedCapturesNeverCommit | dut-dashboard/backend/app/dut/registry.py:667-709 | a capture started before a removal is refused forever, also after the id is registered again |
| DutCaptures.FiledUnderAReplay | dut-dashboard/backend/app/dut/registry.py:309-315 | a run that begins over a log file, answers over a cable and commits over the log file again: the reading is filed under the log file |
| DutCaptures.DownlinkBelongsIff | dut-dashboard/backend/app/dut/registry.py:700-709 | an accepted second commit leaves its children in a capture if and only if there is one at that moment |
| DutCaptures.LeavingAndReturning | dut-dashboard/backend/app/api/fleet_api.py:369-399 | a run: register, open, start, commit, leave the console, return, second commit; children without a capture, and no later opens of any kind take them away |
| DutCaptures.ChildrenBelongIff | dut-dashboard/backend/app/api/fleet_api.py:369-399 | over whole runs: children are never shown without a capture if and only if every accepted second commit with children falls while its device is captured |
| DutCaptures.GuardedRunsKeepDownlinks | dut-dashboard/backend/app/api/fleet_api.py:369-399 | with that guard on the second commit no run ever shows children without a capture |
| DutPersistence.CleanLabelIdempotent | dut-dashboard/backend/app/dut/registry.py:75-88 | a cleaned label cleans to itself |
| DutPersistence.CleanRemoteIs | dut-dashboard/backend/app/dut/registry.py:138-198 | whatever is read, a cleaned remote configuration satisfies every rule |
| DutPersistence.CleanRemoteIdempotent | dut-dashboard/backend/app/dut/registry.py:138-198 | a configuration satisfies the rules if and only if it is saved and cleaned to itself |
| DutPersistence.RemoteIff | dut-dashboard/backend/app/dut/registry.py:138-198 | a configuration comes out of a cleaning if and only if it is what the file says: texts between white space, defaults 22 and 115200, ports below 65536, a key or a collector, and a backhaul for every mesh node |
| DutPersistence.LabelIff | dut-dashboard/backend/app/dut/registry.py:75-88 | a label is the printable characters between white space, one to forty-eight of them |
| Fields.PrintedConcat | dut-dashboard/backend/app/dut/registry.py:75-88 | what is kept of a label is what is kept of its parts |
| Fields.PrintedOne | dut-dashboard/backend/app/dut/registry.py:75-88 | and a character is kept exactly if it is printable |
| DutPersistence.DeviceIff | dut-dashboard/backend/app/dut/registry.py:57-57 | a device file is under /dev/ and never has two dots in a row |
| DutPersistence.IfaceIff | dut-dashboard/backend/app/dut/registry.py:58-58 | a backhaul interface is `ath` and a number |
| DutPersistence.SerialIff | dut-dashboard/backend/app/dut/registry.py:91-107 | a serial console is read back exactly with a port and a positive speed |
| DutPersistence.EntryIsMerged | dut-dashboard/backend/app/dut/registry.py:922-990 | an entry overlays what it says on a known device and clears nothing, creates an unknown one, without an address, under the next registration, and leaves the others alone |
| DutPersistence.BootIsDefault | dut-dashboard/backend/app/dut/registry.py:993-1003 | a boot starts with the default device alone, blank |
| DutPersistence.LeftOutIff | dut-dashboard/backend/app/dut/registry.py:887-920 | an entry is left out exactly for a default device with nothing worth carrying across |
| DutPersistence.SaveThenLoad | dut-dashboard/backend/app/dut/registry.py:872-990 | for every registry, saving and loading restores the same devices with last serial console, remote, model and unit; labels as cleaned; nothing measured |
| DutPersistence.LabelSurvivesIff | dut-dashboard/backend/app/dut/registry.py:872-990 | saved and loaded, a label comes back exactly when it is clean, or refused and equal to the fallback |
| DutPersistence.RenamedLabelSurvives | dut-dashboard/backend/app/dut/registry.py:490-508 | a label set by renaming always comes back |
| DutPersistence.MgmtUrlSurvivesIff | dut-dashboard/backend/app/dut/registry.py:872-990 | saved and loaded, the management address comes back exactly for the default device or when empty; otherwise the next save drops it from the file |
| DutPersistence.AddressIsForgotten | dut-dashboard/backend/app/dut/registry.py:953-990 | every address given to a device besides the default one is in the file and not in the registry read from it |
| DutPersistence.SaveLocked | dut-dashboard/backend/app/dut/registry.py:887-920 | the loop writes exactly the entries worth saving, in order |
| DutPersistence.LoadPersisted | dut-dashboard/backend/app/dut/registry.py:922-990 | the loop merges into known devices and creates the others |
| Collectors.CleanIs | dut-dashboard/backend/app/collector/registry.py:100-168 | every accepted record satisfies every rule |
| Collectors.AcceptedIff | dut-dashboard/backend/app/collector/registry.py:100-168 | a form is accepted if and only if it says a legal id, an address, a login name without a colon, no illegal host name, no port or one from 1 to 65535, and a known way to log in with a key where one is needed |
| Collectors.AcceptedIs | dut-dashboard/backend/app/collector/registry.py:100-168 | and the record is what the form said: port 22 for none, the label cut after 48 characters, or the host name, or the address |
| Collectors.HostnameIff | dut-dashboard/backend/app/collector/registry.py:59-59 | a host name is up to 63 letters, digits and `._-`, a letter or digit first |
| Fields.TokenIff | dut-dashboard/backend/app/collector/registry.py:63-67 | an address is letters, digits and `_.:@%+-`, a letter or digit first; a login name likewise, without the colon |
| Collectors.ConfigureStores | dut-dashboard/backend/app/collector/registry.py:199-236 | refused for its content, or exactly when eight others are registered, nothing changes; otherwise the record is stored in its old place or behind the others, the password given is held, and no other collector changes |
| Collectors.PasswordIsHeld | dut-dashboard/backend/app/collector/registry.py:230-246 | a password given for a registered collector is held, and an empty one forgotten |
| Collectors.ConnectHolds | dut-dashboard/backend/app/collector/registry.py:268-317 | an answered login leaves a live session on the record's login, a failed one leaves none, one never tried changes nothing; the note is empty exactly when the box answers with the expected name |
| Collectors.GreetingNames | dut-dashboard/backend/app/collector/registry.py:268-317 | the note on a login whose box calls itself otherwise names both |
| Collectors.CredentialsIff | dut-dashboard/backend/app/collector/registry.py:334-355 | what a login is made with: the record's key, or the password held, or nothing |
| Collectors.SessionsLast | dut-dashboard/backend/app/collector/registry.py:357-414 | a session is held until it is closed, and a status drops it exactly when it has ended |
| Collectors.CleanAgainIff | dut-dashboard/backend/app/collector/registry.py:158-168 | saved and read back a record is unchanged if and only if its label is trimmed and at most 48 long; the login always is |
| Collectors.ComesBackIff | dut-dashboard/backend/app/collector/registry.py:100-168 | an accepted payload's record comes back from the file unchanged if and only if the label given is within 48 or not cut at a blank, or the address a label is derived from is within 48 |
| Collectors.CutAtABlank | dut-dashboard/backend/app/collector/registry.py:158-168 | every label with a blank in forty-eighth place is accepted and comes back changed |
| Collectors.LongHostnameIsCut | dut-dashboard/backend/app/collector/registry.py:158-168 | every host name beyond 48 characters is accepted as a label uncut and comes back cut |
| Collectors.HeldForTheCurrentLogin | dut-dashboard/backend/app/collector/registry.py:199-388 | from any file, after any run of operations and dying sessions: at most 8 collectors; sessions and passwords only for registered ones, no empty password, each for the login the record names now |
| Collectors.EditKeepsIff | dut-dashboard/backend/app/collector/registry.py:199-228 | an edit keeps session and password exactly when the login stays, and touches no other collector |
| Collectors.CredentialsAreCurrent | dut-dashboard/backend/app/collector/registry.py:334-355 | what a transport is handed is the record's key, or a password given for its current login |
| Collectors.RemoveKeepsInv | dut-dashboard/backend/app/collector/registry.py:248-256 | removal leaves nothing held for the id |
| Collectors.OthersStayWhenRemoved | dut-dashboard/backend/app/collector/registry.py:248-256 | a removal, or the end of a session, is nothing to the other collectors |
| Collectors.CollectorRegistry.ConfigureCollector | dut-dashboard/backend/app/collector/registry.py:199-228 | registering and editing move all state as specified, refusals included |
| Collectors.CollectorRegistry.ConnectTo | dut-dashboard/backend/app/collector/registry.py:268-317 | login needs a held password, replaces the session, and records the outcome |
| Collectors.CollectorRegistry.LoadPersisted | dut-dashboard/backend/app/collector/registry.py:436-454 | invalid entries are skipped and a full table ends the reading |
| CollectorMigration.IdForHostIsId | dut-dashboard/backend/app/collector/migration.py:32-42 | every address whatever gives a legal collector id |
| CollectorMigration.IdOfWords | dut-dashboard/backend/app/collector/migration.py:32-42 | the id of an address is its runs of letters and digits, in lower case, joined by hyphens and cut after 32 characters, or `pi` when there are none |
| CollectorMigration.FallsIntoWords | dut-dashboard/backend/app/collector/migration.py:29-42 | and every address falls into such runs |
| CollectorMigration.SlugCharIff | dut-dashboard/backend/app/collector/migration.py:29-29 | what such runs are made of |
| CollectorMigration.IdsOfTheBench | dut-dashboard/backend/tests/test_collector_migration.py:174-179 | the three ids the tests promise |
| CollectorMigration.FreeIdIff | dut-dashboard/backend/app/collector/migration.py:60-68 | the id given is the wanted one if it is free, else the first 29 characters with the least free suffix from 2 to 99 |
| CollectorMigration.FreeIdSucceeds | dut-dashboard/backend/app/collector/migration.py:60-68 | below 98 collectors the search finds a legal unused id, by counting |
| CollectorMigration.MigrateRemoteNodes | dut-dashboard/backend/app/collector/migration.py:71-111 | the loop over both registries computes the specified migration and reports |
| CollectorMigration.WhatANodeBecomes | dut-dashboard/backend/app/collector/migration.py:71-111 | a waiting node joins the first record that is its login; failing that, unless eight are registered or its login name holds a colon, it gets a record with its address, name, port and key, no host name, a label of the address, and the id just described |
| CollectorMigration.OthersAreLeftAlone | dut-dashboard/backend/app/collector/migration.py:81-85 | any other device is left alone and not reported |
| CollectorMigration.MigrationIsAdditive | dut-dashboard/backend/app/collector/migration.py:71-111 | no existing record, password or session is touched; no added record doubles a login; reports say what happened |
| CollectorMigration.TwiceIsOnce | dut-dashboard/backend/app/collector/migration.py:71-111 | running it again changes nothing, refused nodes included |
| CollectorMigration.OneCollectorPerLogin | dut-dashboard/backend/app/collector/migration.py:45-57 | two converted nodes share a collector exactly when host, user, port and key agree |
| CollectorMigration.LeftOverIff | dut-dashboard/backend/app/collector/migration.py:81-111 | a visited node stays unconverted exactly when no collector is its login and the table is full or its user name is not acceptable to a collector |
| CollectorMigration.NodesKeepTheirReadings | dut-dashboard/backend/app/collector/migration.py:107-107 | a node differs in its collector at most: console id, tokens and readings stay |
| Sorting.SmallerIsAhead | dut-dashboard/backend/app/services/survey_snapshot.py:279-300 | texts that part at a character: the one with the smaller character there is ahead, and not behind, whatever surrounds it |
| Sorting.StrLeIff | dut-dashboard/backend/app/services/survey_snapshot.py:279-300 | one text is ahead of another, or the same, if and only if it begins the other or has the smaller character where they part |
| SurveyNames.AdmittedIsDutPartIff | dut-dashboard/backend/app/dut/registry.py:477-482 | an id the registry admits can stand in a file name if and only if it ends in no line break |
| SurveyNames.DutIdIff | dut-dashboard/backend/app/dut/registry.py:42-42 | an id is one to thirty-two small letters, digits, `_` and `-`, neither of these two first |
| SurveyNames.AdmittedIff | dut-dashboard/backend/app/dut/registry.py:477-482 | what is admitted is an id with or without one line break behind it |
| SurveyNames.SnapshotNames | dut-dashboard/backend/tests/test_survey_snapshot.py:61-62 | a snapshot's file name, spelled out |
| SurveyNames.OtherNames | dut-dashboard/backend/app/services/survey_snapshot.py:35-59 | a table's ending and a tombstone's name, spelled out |
| SurveyNames.StampsInOrder | dut-dashboard/backend/app/services/survey_snapshot.py:279-300 | for any two stamps: one is ahead of the other as a text if and only if its date, or at one date its time, is the smaller number |
| SurveyNames.ParseUndoesName | dut-dashboard/backend/app/services/survey_snapshot.py:33-35 | a written name reads back as its device, stamp and kind, for hyphenated ids too |
| SurveyNames.NameUndoesParse | dut-dashboard/backend/app/services/survey_snapshot.py:33-35 | and a name that reads is the name that would be written |
| SurveyNames.TombstoneIsNoSnapshot | dut-dashboard/backend/app/services/survey_snapshot.py:37-59 | no tombstone name ever reads as a snapshot |
| SurveyNames.SnapshotIsNoTombstone | dut-dashboard/backend/app/services/survey_snapshot.py:37-59 | and no snapshot name as a tombstone |
| SurveyRestart.RestartEquivalenceIff | dut-dashboard/backend/app/services/survey_snapshot.py:244-311 | from any directory, over any run of recommendations, bare surveys and restarts: a restart at any moment rebuilds exactly the cache there is if and only if every step keeps to the stamps of its own device |
| SurveyRestart.RestartEquivalence | dut-dashboard/backend/app/services/survey_snapshot.py:244-311 | so with a clock that moves on between the surveys of one device every run is faithful throughout, other devices' stamps whatever they are |
| SurveyRestart.RestartEquivalenceByMoment | dut-dashboard/backend/app/services/survey_snapshot.py:244-311 | by the calendar: when date and time of one device's surveys move on as numbers, every run is faithful throughout |
| SurveyRestart.StepKeepsIff | dut-dashboard/backend/app/services/survey_snapshot.py:62-136 | one step from a faithful state stays faithful if and only if its stamps allow it, from its own device's files alone |
| SurveyRestart.RecommendGivesIff | dut-dashboard/backend/app/services/survey_snapshot.py:62-136 | a computed answer is what its device is restored to if and only if its tombstone is later than every computed stamp, or its snapshot no earlier than any of them and the tombstone, or what shows instead says the same |
| SurveyRestart.SurveyGivesIff | dut-dashboard/backend/app/main.py:583-593 | a survey that computed nothing leaves the restored answer alone if and only if it does not overwrite the file that holds it |
| SurveyRestart.OthersKeep | dut-dashboard/backend/app/services/survey_snapshot.py:62-136 | no write bears on another device, whatever the stamps |
| SurveyRestart.SameSecondResurrects | dut-dashboard/backend/app/services/survey_snapshot.py:279-288 | an all-empty answer within the second of a non-empty one loses the tie: a restart brings the older rows back |
| SurveyRestart.SameSecondErases | dut-dashboard/backend/app/services/survey_snapshot.py:62-136 | a bare survey within the second of its device's answer rewrites its file: a restart brings back what was before the answer, or nothing |
| SurveyRestart.LineBreakIsForgotten | dut-dashboard/backend/app/services/survey_snapshot.py:33-35 | an answer for an id with a line break is never restored |
| SurveyRestore.LatestUnique | dut-dashboard/backend/app/services/survey_snapshot.py:279-288 | the newest computed state is unique, so directory order cannot matter |
| SurveyRestore.NewestComputed | dut-dashboard/backend/app/services/survey_snapshot.py:291-311 | passing over unreadable and never-computed snapshots, the computed one whose date and time are the last as numbers |
| SurveyRestore.Surveys.RestoreCache | dut-dashboard/backend/app/services/survey_snapshot.py:244-288 | the loop fills the cache; every device remembered gets its tombstone if that is of a later moment than every computed answer, and otherwise the answer of the last moment |
| SurveyRestore.RestoredByMoment | dut-dashboard/backend/app/services/survey_snapshot.py:244-288 | the same of the specified cache: what is restored, by date and time as numbers |
| SurveyRestore.RestoredIff | dut-dashboard/backend/app/services/survey_snapshot.py:244-288 | a device is remembered if and only if it has a computed answer or a tombstone, under an id that can name a file |
| SurveyRestore.ComputedIff | dut-dashboard/backend/app/services/survey_snapshot.py:291-311 | a computed answer is what the file of that device and stamp reads as |
| SurveyRestore.FilesRead | dut-dashboard/backend/app/services/survey_snapshot.py:291-311 | a snapshot counts as computed unless it says it is not |
| SurveyRestore.WrittenFiles | dut-dashboard/backend/app/services/survey_snapshot.py:62-136 | a write leaves a tombstone if the answer is computed and empty, a snapshot unless nothing was seen, a table if there are neighbours, and every other file alone |
| Anonymiser.ProbeFailsIff | dut-dashboard/demo/build_demo_data.py:193-211 | probing fails if and only if every alias of the pool is taken |
| Anonymiser.ProbeIff | dut-dashboard/demo/build_demo_data.py:193-211 | what is taken is the first free alias from the hashed start on |
| Anonymiser.SlotsGoRound | dut-dashboard/demo/build_demo_data.py:193-211 | slot by slot upwards, from the last one to the first |
| Anonymiser.HashedText | dut-dashboard/demo/build_demo_data.py:160-162 | the hashed text is the kind by its name, a colon and the value |
| Anonymiser.ProbeSucceeds | dut-dashboard/demo/build_demo_data.py:193-211 | with an injective pool larger than what is taken it succeeds |
| Anonymiser.AssignAllKeeps | dut-dashboard/demo/build_demo_data.py:193-211 | assignment is injective, complete, and moves nothing already assigned |
| Anonymiser.AssignAllSucceeds | dut-dashboard/demo/build_demo_data.py:193-211 | it cannot fail while the values fit an injective pool |
| Anonymiser.AssignForgetsOrder | dut-dashboard/demo/build_demo_data.py:193-211 | the order and multiplicity of the values make no difference |
| Anonymiser.StepKeeps | dut-dashboard/demo/build_demo_data.py:213-253 | every preparation and lookup keeps injectivity per kind, extends the tables and answers what it was asked |
| Anonymiser.RunKeeps | dut-dashboard/demo/build_demo_data.py:193-253 | under every interleaving aliases stay distinct and never move |
| Anonymiser.RunInjective | dut-dashboard/demo/build_demo_data.py:187-253 | in particular from the empty start |
| Anonymiser.PrepareForgetsOrder | dut-dashboard/demo/build_demo_data.py:213-221 | preparing depends on the sets given only |
| Anonymiser.LookupAfterPrepare | dut-dashboard/demo/build_demo_data.py:223-253 | once prepared, lookups in any order change nothing |
| Anonymiser.Anonymiser.AssignValues | dut-dashboard/demo/build_demo_data.py:193-211 | the probing loop over sorted new values leaves the specified table, or fails on a full pool |
| Anonymiser.Anonymiser.PrepareAll | dut-dashboard/demo/build_demo_data.py:213-221 | own names, names, addresses and vendors are assigned in that order |
| AliasPools.MacAliasInjective | dut-dashboard/demo/build_demo_data.py:259-267 | MAC aliases are distinct on [0, 2^40) |
| AliasPools.IpAliasInjective | dut-dashboard/demo/build_demo_data.py:270-273 | IP aliases are distinct on [0, 762), in the documentation ranges of section 3 of RFC 5737 |
| AliasPools.MacIsLocal | dut-dashboard/demo/build_demo_data.py:259-267 | a MAC alias is `02` and five octets in lower-case hexadecimal that spell its number |
| AliasPools.IpIsDocumentation | dut-dashboard/demo/build_demo_data.py:270-273 | an IP alias is the host of its number in one of the three ranges of section 3 of RFC 5737 |
| AliasPools.VisiblyNotReal | dut-dashboard/backend/tests/test_demo_anonymiser.py:98-107 | on every run of preparations and lookups, every alias of a MAC address is locally administered and every alias of an IP address a documentation address |
| AliasPools.OwnNames | dut-dashboard/demo/build_demo_data.py:71-77 | an own network is `DemoAP-` and its role, numbered from the second round on |
| AliasPools.NeighbourNames | dut-dashboard/demo/build_demo_data.py:79-90 | a neighbour's is a word in one of nine forms |
| AliasPools.OwnSsidInjective | dut-dashboard/demo/build_demo_data.py:71-77 | the 48 own names are distinct |
| AliasPools.NeighbourSsidInjective | dut-dashboard/demo/build_demo_data.py:79-90 | the 270 neighbour names are distinct |
| AliasPools.PrepareSucceeds | dut-dashboard/demo/build_demo_data.py:213-221 | preparing succeeds whenever what each table then holds fits its pool |
| ChannelPlan.ChannelRecommendation | dut-dashboard/backend/app/services/site_survey.py:116-215 | the loops give one row per band with exact occupancy, least candidate, score and reason |
| ChannelPlan.OneRowPerBand | dut-dashboard/backend/app/services/site_survey.py:144-156 | one row per band that has a usable access point, for the first of the band |
| ChannelPlan.RecommendsTheLeastLoaded | dut-dashboard/backend/app/services/site_survey.py:184-213 | the recommendation has the least occupancy of all candidates, leaves the current channel only for strictly less, and the reason given is true |
| ChannelPlan.RowPromises | dut-dashboard/backend/app/services/site_survey.py:184-213 | a row names its access point, scores exactly the channels in question with their loads, takes the least number among equals, and gives its reason with both loads |
| ChannelPlan.CandidatesIff | dut-dashboard/backend/app/services/site_survey.py:164-182 | the candidates: the current channel, 1, 6 and 11 at 2.4 GHz, elsewhere the channels in use |
| ChannelPlan.BleedingMovesTheAdvice | dut-dashboard/backend/tests/test_site_survey.py:194-208 | neighbours between the candidates pollute both ends and move the advice to the middle |
| ChannelPlan.PlanIsUnique | dut-dashboard/backend/app/services/site_survey.py:184-190 | no loop order and no tie can change a plan |
| ChannelPlan.PlanForgetsNeighbourOrder | dut-dashboard/backend/app/services/site_survey.py:158-182 | the order of the neighbours does not matter |
| ChannelPlan.OwnBeaconsDoNotMatter | dut-dashboard/backend/app/services/site_survey.py:138-161 | own BSSIDs among the neighbours, in any letter case, change nothing |
| ChannelPlan.OwnBeaconChangesNothing | dut-dashboard/backend/app/services/site_survey.py:138-161 | a beacon with an own BSSID, in any letter case and anywhere in the list, changes no plan |
| ChannelPlan.OtherBandChangesNothing | dut-dashboard/backend/app/services/site_survey.py:158-161 | nor does a beacon of a band without an access point |
| ChannelPlan.CountsIff | dut-dashboard/backend/app/services/site_survey.py:158-161 | a neighbour counts exactly if it is of the band and has no own BSSID |
| Text.CaseSamples | dut-dashboard/backend/app/services/site_survey.py:138-161 | lower case of the letters, other characters as they are |
| ChannelPlan.OneMoreNeighbour | dut-dashboard/backend/app/services/site_survey.py:163-182 | a further neighbour adds exactly its weight to every channel, so no occupancy falls |
| ChannelPlan.SignalWeights | dut-dashboard/backend/app/services/site_survey.py:50-57 | 3 from -60 dBm up, 2 from -75 dBm up, 1 below and for an unknown signal |
| ChannelPlan.StrongerWeighsMore | dut-dashboard/backend/app/services/site_survey.py:50-57 | a stronger neighbour never weighs less |
| ChannelPlan.OverlapFades | dut-dashboard/backend/app/services/site_survey.py:44-45 | at 2.4 GHz a fifth is lost with each channel number of distance, down to nothing at five; elsewhere there is no overlap |
| ChannelPlan.GridIsClean | dut-dashboard/backend/app/services/site_survey.py:38-45 | channels 1, 6 and 11 do not reach each other |
| ChannelPlan.WeightIs | dut-dashboard/backend/app/services/site_survey.py:163-182 | a neighbour puts the product of the two weights on a channel, and nothing if its own is unknown |
| ChannelPlan.OneNeighbourFades | dut-dashboard/backend/tests/test_site_survey.py:181-192 | one strong neighbour: 3.0 on its channel, 2.4 and 1.8 beside it, nothing on the other candidates |
| ChannelPlan.NeverMovesToAnUnheardChannel | dut-dashboard/backend/app/services/site_survey.py:177-182 | away from 2.4 GHz a move always goes to a channel some neighbour already uses |
| ChannelPlan.AdviceIsStable | dut-dashboard/backend/app/services/site_survey.py:116-215 | after moving every radio as advised, with the same neighbours, the advice is to stay |
| ChannelPlan.ScoreGrid | dut-dashboard/backend/app/services/site_survey.py:164-175 | 2.4 GHz: every channel of the grid gets the sum of what reaches it |
| ChannelPlan.ScoreObserved | dut-dashboard/backend/app/services/site_survey.py:177-182 | 5 and 6 GHz: neighbours add up co-channel |
| ChannelPlan.PickLeast | dut-dashboard/backend/app/services/site_survey.py:184-190 | the minimum by load, then the current channel, then the number |
| HitMerge.MergeHits | dut-dashboard/tools/log_event_detector.py:135-174 | growing the last event object in place gives one distinct event per block of the sorted hits |
| HitMerge.EventsAreComponents | dut-dashboard/tools/log_event_detector.py:135-174 | two hits share an event if and only if a chain of same-file gaps within the distance links them, and events come in order |
| HitMerge.EveryHitInOneEvent | dut-dashboard/tools/log_event_detector.py:135-174 | the events partition the hits |
| HitMerge.EventsAreApart | dut-dashboard/tools/log_event_detector.py:135-174 | a later event is in a later file or starts more than the distance after the earlier one ended |
| HitMerge.EventIsMaximum | dut-dashboard/tools/log_event_detector.py:131-174 | an event is critical if and only if one of its hits is, medium if and only if all are; its end is the greatest line, its keywords exactly its hits' rules |
| HitMerge.EventListsItsHits | dut-dashboard/tools/log_event_detector.py:135-174 | file and start are the first hit's, and the lines are the hits' in the order merged |
| HitOrder.MergeForgetsOrder | dut-dashboard/tools/log_event_detector.py:135-174 | for a non-negative distance the order in which hits were found does not show in any field |
| HitOrder.OrderForgottenIff | dut-dashboard/tools/log_event_detector.py:135-174 | and for exactly those distances |
| EventMetadata.NearestMatchValue | dut-dashboard/tools/log_event_detector.py:177-196 | the value of the matching line nearest to the center within the radius, the earlier of two, or nothing when none matches |
| EventMetadata.NearestIff | dut-dashboard/tools/log_event_detector.py:177-196 | the nearest match, in plain numbers: no other lies strictly nearer, nor as near ahead of the center |

## Left out

- Transports: SSH, pty, sockets, serial drivers, timeouts and the worker's reopen logic; a capture's commands are the interval between its steps.
- Files: a snapshot file is a sequence of records, a survey directory a map from names to contents, and writes succeed; fsync, permissions and partial writes are not modelled.
- Clocks and randomness: stamps are inputs with an order; registrations are fresh numbers; the token hash and the bucket hash are taken as a datatype and an arbitrary function.
- Console text: lines reach the parser already classified, client lists already decoded; a snapshot event without a string timestamp, which the store ignores, is not an input.
- Rounding: occupancies are exact fifths instead of values rounded to two decimals; CPU percentages are reals.
- Letter case and digits: lower-casing and `\d` are ASCII; white space is what Python strips.
- JSON: recommendation rows are compared as JSON values, so integer occupancy keys that come back as strings count as equal; a number in place of a saved model name or device id, which stops the load, is not an input.
- File names ending in a line break, which the name patterns would accept before the break, are not read as names.
- Packet rules with a single severity, column resolution, row decoding and channel_occupancy: such rules are any functions of a row, rows arrive decoded.
- Groups of findings are text cells; a grouping column of numbers would group the same way but is not an input.
- Model detection and printable characters: parameters of `DutPersistence`, the detectors idempotent; the streaming model observer is not modelled.
- Mesh payloads: the probe's command and the member list; only the brace scanner in front of them is modelled.
- Parser counters: updates of the efficiency counters race in the program and are single steps here.
- Session objects of collectors: values with a liveness flag; a child process dying is a step of its own.
- Registry limits at load: devices beyond the limit in a saved file are created, as in the program, and no bound is claimed for them.
- DutCaptures.CapturesAreAnchored: nothing is claimed for the children list; see `DutCaptures.ChildrenBelongIff` for when it belongs to a capture.
- PacketRules.ProgramForgetsRowOrder: rules besides the legacy and the country rule enter by the one severity each of them has, not by their texts.
- BeaconSecurity.RecoveryUndoesFlattening: asks for a complete own element, a truthful Privacy bit and a decoded element list; `BeaconSecurity.RecoveryRightIff` says exactly when the row is right without any of them.
- SurveyRestart.RestartEquivalence: asks that the clock moves on between the surveys of one device; `SurveyRestart.RestartEquivalenceIff` says exactly when a run is faithful without that.
- SerialWorker.Worker.HandleDeviceLost: one thread from end to end; the steps between which others move are those of `CaptureProtocol`, where a failed writer may leave the gate before its tear-down is done.
- SerialWorker.CaptureCommand: one caller from end to end while nobody else moves, so a gate that is taken stays taken; interleaved callers are the machine of `CaptureProtocol`.
- DutPersistence.LoadPersisted: an id saved as a number, which the program matches by its digits, is skipped here.
- Firmware upload, host-key trust, invites, profiles, plotting, the demo pages and the front end: unrelated to the algorithms above.
