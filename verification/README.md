# Attendance bridge: a verified model

A Dafny model of three linked parts of an attendance bridge between biometric readers and a payroll
database, with proofs of what they promise.

* **Store and forward.** A reader delivers a punch once. `ingest` stores it in a table with a unique
  key or holds it in a file of JSON lines; a supervisor thread drains the file and offers it again.
  `Punches`, `Spool`, `LmsTable`, `PushIngest` and `Supervisor` model the file down to its characters,
  the transaction down to its pages, and runs of pushes and wake-ups; `Interleaving` lets any number
  of threads stop between any two steps, `FirstCome` says when the punch that came first is the one
  kept, and `Serializable` ties the two views together. `Json` and `Times` are the parts of the
  standard library that the file format stands on: a full JSON reader, the printer, and a backtracking
  `strptime` (`LooseTimes` adds unpadded fields). `JsonScan` shows which glued texts no JSON reader accepts.
* **Reader-to-reader migration.** `Readers`, `Migration` and `Fleet` model simulated readers, PIN
  collisions, batches, and serials that name one reader; `RealMigration` is the hardware procedure in
  which every call can fail before its effect, fail after it, or do nothing and report success;
  `FreePin` is the search shared by both; `RealTransfer` joins
  resolution, hardware migration and access entry; `Access` is the employee service that keeps access lists
  in step with the readers.
* **Reader traffic.** `Attlog` is the five-format line parser and `AttlogFormats` the agreement of its formats, `History` the pruned and sorted log with
  its deduplication, `CommandQueue` the commands waiting for a poll, `Liveness` the contact throttle.

What a module does step by step in the program is a class with methods here (`PunchSpool`,
`LmsDatabase`, `Bridge`, `SyncSupervisor`, `Simulator`, `ZkDevice`, `EmployeeService`, `PunchHistory`,
`Commands`, `Throttle`), each method tied to a function of the old state; the theorems are about those
functions and about runs of them.

## Assumptions

* Steps are whole spool methods and whole `save_punches` transactions. The program builds two spool
  objects on one path, each with a lock of its own and with one staging name between them
  (app/sync/push_ingest.py:33, app/sync/supervisor.py:46, app/sync/spool.py:85), so atomicity between
  the two is assumed, not proved.
* No process dies between `drain` and `restore`, and there is no `OSError`.
* A save ends in one of four ways: it commits, it is refused, it commits and the answer is lost, or it
  meets an exception that is not a psycopg2 error.

## Findings

Where the program does less than it says, the project states exactly when:

* `ingest` restores the drained batch only for LmsUnavailableError; any other exception drops it
  (`PushIngest.IngestLosesExactly`, `Interleaving.DropLosesExactly`). The supervisor restores it and
  then dies of that exception (`Supervisor.PatrolOutcome`).
* First-wins by arrival does not survive interleaving (`Interleaving.FirstComeCanLose`), though no key is lost;
  `FirstCome.FirstComeIsKeptExactly` says exactly when it does.
* `add` writes no newline first, so behind a file cut anywhere inside its last line, or just before its newline, the first
  punch added is lost, and with it that last line (`Spool.AddedAfterCutExactly`, `Spool.LostNewlineLosesTwo`).
* `resolve_target_pin` compares names without case and surrounding blanks, the simulated migration exactly, so the recorded PIN
  can name somebody else's record (`Access.RecordedPinIsEnrolled`, `Access.CaseGivesAwayThePin`). On hardware readers a
  failed listing does the same, because it counts as an empty one (`RealTransfer.RecordedEntryNamesTheRecord`,
  `RealTransfer.FailedListingRecordsAnothersPin`).
* A simulated move between two serials of one reader deletes the person
  (`Migration.SelfMoveLosesExactly`, `Access.AliasTransferLosesExactly`).
* A hardware move whose profile write is silently ignored can delete the person from the source and report success, when
  the PIN's place on the target holds somebody of the same name or of none: the check looks for the PIN only
  (`RealMigration.PersonIsKeptExactly`, `RealMigration.IgnoredWriteLosesThePerson`).
* Fingerprints can be left behind by a hardware move that reports success, because failures of single template reads are
  swallowed and an ignored template write is not noticed (`RealMigration.FingersCarriedExactly`,
  `RealMigration.IgnoredTemplatesLoseTheFinger`).
* Copying a user twice whose PIN was taken enrols them twice (`Migration.CopyTwice`); namesakes can be merged
  by a batch move (`Migration.WrittenOverExactly`, `Migration.NamesakesMerge`).
* An offboarding that is not a firing and does not name a device for deletion wipes every listed reader but keeps access
  entries (`Access.WipedEntryStaysExactly`); permanent deletion removes every matching employee but wipes only
  the first one's readers (`Access.RemovedAreOffTheReadersExactly`, `Access.NamesakeStaysOnTheReader`).
* An accepted transfer moves the employee's branch even when the readers did not take part
  (`Access.TransferMovesTheBranch`, `Access.TransferredRecordExactly`, `Access.BranchMovesAlone`).
* Some attendance lines are misread, and `AttlogFormats.FormatsAgree` says exactly which: a tab line with a compact time and
  a negative status is dropped, a key-value line with a blank in its time is dropped, and a blank or comma line
  with a compact time becomes a punch of an invented PIN at the server's time.
* Commands for a blank serial wait forever, and only those (`CommandQueue.BlankSerialWaitsForever`,
  `CommandQueue.PollsDispatchExactly`).

## Model

| member | source | states |
|---|---|---|
| PushIngest.EventualTable | app/sync/push_ingest.py:105-130 | For every run of pushes and flushes under every pattern of commits, refusals and lost commit answers that never drops a batch: offering the spool to the table now gives the first-wins table of everything ever accepted, in arrival order. |
| PushIngest.DrainedRunIsExact | app/sync/push_ingest.py:105-130 | Once such a run has emptied the spool the table has one row per accepted key, and the row is the one that came first. |
| PushIngest.EveryAcceptedPunchHasItsRow | app/sync/lms_db.py:118-133 | By fields: after any such run the eventual table has a row of the reader, PIN and time of every punch stored, held or accepted, of no other, and no two rows that agree in all three. |
| PushIngest.UsableExactly | app/sync/push_ingest.py:65-70 | A row is unusable exactly when its PIN is missing or blank or its timestamp is no time. |
| PushIngest.PunchByFields | app/sync/push_ingest.py:72-89 | Field by field what a usable row becomes, missing and empty fields and placeholder names included. |
| PushIngest.CommittedFlushDrains | app/sync/supervisor.py:109-129 | After any run whatever, one flush that commits leaves nothing on disk. |
| PushIngest.IngestLosesExactly | app/sync/push_ingest.py:109-130 | One `ingest` loses a key if and only if the save of the drained batch ends in an exception other than LmsUnavailableError and that batch has a key that is neither stored nor in the new punches. |
| PushIngest.IngestKeeps | app/sync/push_ingest.py:109-130 | In every other case the eventual table is what it was, then the new punches, first come first kept. |
| PushIngest.FlushKeeps | app/sync/supervisor.py:109-129 | A flush never changes the eventual table, however the save ends. |
| PushIngest.DroppedBatchIsLost | app/sync/push_ingest.py:114-128 | The dropped batch is real: one held punch, one push, one unforeseen exception, and a later commit does not bring it back. |
| PushIngest.Bridge.Ingest | app/sync/push_ingest.py:92-130 | On the spool file and the table object, with a file that may be torn or hold corrupt lines: the new rows and the punches a drain would give are those of the protocol, and the two counts returned are the usable rows and the truly new keys. |
| PushIngest.Bridge.FlushHeld | app/sync/supervisor.py:109-129 | On the same objects: a flush empties the file or puts every punch back, leaves a file of whole lines only, and says which happened. |
| PushIngest.Bridge.DrainSpool | app/sync/spool.py:70-109 | Draining gives exactly the readable punches, in order, and leaves no file. |
| PushIngest.Bridge.Hold | app/sync/spool.py:54-68 | Holding extends the file by the printed lines; behind a newline, or in an empty file, a drain gives what it gave and then these. |
| Interleaving.EveryInterleavingConserves | app/sync/supervisor.py:118-128 | For any number of threads stopping anywhere between drain, save, restore and add: the keys in the table, on disk and in any thread's hands are those of the start and those accepted since. |
| Interleaving.EveryInterleavingStaysWithin | app/sync/push_ingest.py:109-130 | In every interleaving, dropped batches included, rows stay unique and every row, spooled or carried punch is one that was known or pushed. |
| Interleaving.RestIsExact | app/sync/spool.py:54-113 | When all threads are idle and the spool is empty the table has exactly one row per key known or accepted. |
| Interleaving.RestHasEveryRow | app/sync/lms_db.py:118-133 | By fields: at rest after a run from nothing, a reader, PIN and time have a row if and only if a punch of all three was accepted, and one row only. |
| Interleaving.StepKeeps | app/sync/supervisor.py:118-128 | One step of one thread neither loses nor invents a key, unless it is the dropping one. |
| Interleaving.DropLosesExactly | app/sync/push_ingest.py:111-128 | The dropping step is harmless if and only if every key of its batch is also stored, on disk, with another thread, or in the same push. |
| Interleaving.FirstComeCanLose | app/sync/push_ingest.py:32-34 | First come is not always the one kept under interleaving: the supervisor can hold the older of two punches with one key while a handler stores the newer (the exact condition is that of FirstComeIsKeptExactly). |
| FirstCome.StepKeepsFirst | app/sync/push_ingest.py:32-34 | Where every row is the first accepted punch of its key, a step keeps that if and only if it does not store, for a key not stored yet, a first offer that was not the first accepted. |
| FirstCome.RunKeepsFirst | app/sync/supervisor.py:118-128 | The same for whole runs of any number of threads: every row is the first accepted of its key at the end if and only if no step overtook. |
| FirstCome.FirstComeIsKeptExactly | app/sync/supervisor.py:109-129 | When a run from nothing that drops no batch has come to rest, the table has exactly the rows of the first-wins table of everything accepted if and only if no step overtook. |
| FirstCome.OvertakesExactly | app/sync/supervisor.py:118-128 | Where no batch was dropped, a step overtakes if and only if it stores a first offer of a new key while an older punch of that key is on disk, with another thread, behind it in the batch, or in the push behind the batch. |
| FirstCome.RunKeepsPunches | app/sync/spool.py:54-113 | In every run that drops no batch the punches themselves are kept, on disk, in some thread's hands or by a stored key. |
| FirstCome.RestIsReachable | app/sync/supervisor.py:86-129 | From every state, whatever is spooled or in a thread's hands, some schedule in which the database commits brings all threads to rest with an empty spool. |
| Serializable.SoloIngest | app/sync/push_ingest.py:105-130 | A thread whose steps are not interleaved does exactly what the sequential `ingest` does, for every outcome of both saves. |
| Serializable.SoloFlush | app/sync/supervisor.py:109-129 | The same for `_flush`. |
| Serializable.UndisturbedRun | app/sync/push_ingest.py:105-130 | Any run of undisturbed calls, each by any thread, leaves table and spool as the sequential run does, and accepts what was pushed. |
| Serializable.UndisturbedRunKeepsOrder | app/sync/push_ingest.py:105-130 | So the eventual table of such a run is first come, first kept. |
| Supervisor.SyncSupervisor.Run | app/sync/supervisor.py:86-107 | The loop object leaves the table and the file, says, and lives or dies as the patrol it is specified by. |
| Supervisor.PatrolKeeps | app/sync/supervisor.py:86-129 | However the database behaves, the timer thread loses nothing on disk and stores nothing that was not held. |
| Supervisor.PatrolOutcome | app/sync/supervisor.py:86-129 | The thread empties the spool if and only if a commit comes before an unforeseen exception, and is dead if and only if that exception comes first; until then the batch is untouched. |
| Supervisor.PatrolAlternates | app/sync/supervisor.py:98-107 | Outage and recovery are announced alternately, outage first. |
| Supervisor.OutagesAlternate | app/sync/supervisor.py:98-107 | Place by place: every other announcement is an outage, the first one included. |
| LmsTable.LmsDatabase.SavePunches | app/sync/lms_db.py:118-159 | The paged transaction takes effect whole or not at all; every punch offered then has a row of its reader, PIN and time, no two rows agree in all three, and the count returned is of those that were new. |
| LmsTable.SendPages | app/sync/lms_db.py:145-158 | Pages of 500 insert the whole batch first-wins, unless the refused page is reached. |
| LmsTable.InsertPage | app/sync/lms_db.py:145-158 | One statement stages the page first-wins and returns as many ids as rows were added. |
| LmsTable.InsertAllKeys | app/sync/lms_db.py:118-133 | After a batch the table's keys are those it had and those offered, no others. |
| LmsTable.EveryPunchHasItsOneRow | app/sync/lms_db.py:152 | By fields: after a batch a reader, PIN and time have a row if and only if they had one or the batch brought one, and no two rows agree in all three. |
| LmsTable.InsertAllGrows | app/sync/lms_db.py:147-154 | Rows are never changed or removed, stay unique, and only offered rows are added. |
| LmsTable.FirstOfferWins | app/sync/lms_db.py:152 | Of several offers with one new key the first is the row stored. |
| LmsTable.InsertAllAgain | app/sync/lms_db.py:122-126 | Offering a batch again, with more behind it, is offering it once. |
| LmsTable.InsertAllCount | app/sync/lms_db.py:128-132 | The number of rows added is the number of new keys. |
| Spool.TornFileKeepsCompleteLines | app/sync/spool.py:82-109 | For every list of punches and every truncation point of its file, `drain` returns exactly the punches whose lines are complete. |
| Spool.DrainRestores | app/sync/spool.py:54-113 | What was added is drained whole and in order, and `pending` counts it right. |
| Spool.BadLineRemovesOnlyItself | app/sync/spool.py:94-104 | A blank, non-JSON or incomplete line anywhere in any file removes itself and nothing else. |
| Spool.AddedIsDrained | app/sync/spool.py:64-66 | Behind a newline, what is added is drained after whatever the file gave before, corrupt lines included. |
| Spool.AddedAfterCutExactly | app/sync/spool.py:64-109 | For every list of punches, every truncation point of its file and every batch then added: the batch is drained whole behind the complete lines if and only if the file was left empty or ending in a newline. Otherwise the first punch of the batch is lost, and with it the last line held, whole or not. |
| Spool.FragmentThenLineIsBad | app/sync/spool.py:64-66 | A fragment of one line, cut anywhere, and a whole other line are no punch. |
| Spool.LostNewlineLosesTwo | app/sync/spool.py:64-66 | When a file was cut just before a newline, a drain still gives the last punch, but the next punch added is lost together with it. |
| Spool.DrainIsByLine | app/sync/spool.py:93-104 | What stands before a line break and what stands after it are read independently. |
| Spool.PunchSpool.Add | app/sync/spool.py:54-68 | The file is extended by one printed line per punch. |
| Spool.PunchSpool.Drain | app/sync/spool.py:70-109 | The file is gone and the result is that of its text read line by line, also when a line raises. |
| Spool.PunchSpool.Restore | app/sync/spool.py:111-113 | A batch put back goes behind what arrived meanwhile. |
| Spool.PunchSpool.Pending | app/sync/spool.py:45-52 | The number of lines that are not blank. |
| Punches.SpoolLineReadsBack | app/sync/models.py:37-63 | `from_json(to_json(p)) == p` for every punch, with arbitrary text in every text field. |
| Punches.SpoolLineIsUnique | app/sync/models.py:37-48 | Two different punches never print the same line. |
| Punches.SpoolLineIsPlain | app/sync/models.py:37-48 | The printed form is non-empty printable ASCII with no line break, and stripping leaves it alone. |
| Punches.TornSpoolLineIsSkipped | app/sync/models.py:50-63 | No proper prefix of a printed punch, stripped, is accepted. |
| Punches.SkippedExactly | app/sync/models.py:50-63 | A line is skipped if and only if it is no JSON text, or an object that lacks one of three keys, or whose time or state is an unreadable text. |
| Punches.AbsentFieldsDefault | app/sync/models.py:57-62 | Fields that are absent or null read as state zero and as absent. |
| Punches.NumberPinReads | app/sync/models.py:55 | A PIN that was written as a number reads as its digits. |
| Json.ObjectReads | app/sync/models.py:37-52 | A printed flat object parses back to its members, escapes and surrogate pairs included (section 7 of RFC 8259). |
| Json.TruncatedObjectFails | app/sync/models.py:52 | No proper prefix of text that is one object is JSON (section 4 of RFC 8259). |
| Json.ObjectWithMoreFails | app/sync/models.py:52 | Nor is an object with anything but blanks behind it. |
| Json.StringReads | app/sync/models.py:37-52 | Every text survives escaping and unescaping, with any continuation behind the closing quote. |
| Json.ShortEscapesRead | app/sync/models.py:52 | The eight two-character escapes of section 7 of RFC 8259. |
| Json.LeadingBlanksGo | app/sync/models.py:52 | The four blanks of section 2 of RFC 8259 before a text are skipped. |
| Json.TornObjectFails | app/sync/models.py:52 | A printed object cut anywhere and stripped is no JSON text. |
| JsonScan.EveryTextScans | app/sync/models.py:52 | Whatever `json.loads` accepts has matching quotes and braces, and nothing but a separator behind a closing quote. |
| JsonScan.FragmentThenObjectFails | app/sync/models.py:52 | No proper, non-empty prefix of a printed object becomes JSON by another printed object behind it. |
| Times.FormatsDisjoint | app/sync/push_ingest.py:36-43 | No text is accepted by two of the five formats. |
| Times.PrintedTimeIsRead | app/sync/push_ingest.py:46-55 | A valid time printed in any format is read back, with seconds zero for the minute format. |
| Times.ParsedByItsFormat | app/sync/push_ingest.py:46-55 | The order of the formats does not matter: a text one format accepts is read as that format reads it. |
| Times.Strptime | app/sync/push_ingest.py:52 | An accepted value is always a date and time of the Gregorian calendar. |
| Times.ValidExactly | app/sync/push_ingest.py:52 | Accepted are exactly the dates of the Gregorian calendar in years 1 to 9999, by the rules for long months and leap years. |
| Times.GregorianCount | app/sync/push_ingest.py:52 | The days of those years add up to 365 y + y/4 - y/100 + y/400. |
| LooseTimes.LooseTimeIsRead | app/sync/push_ingest.py:46-55 | In the four formats with separators any choice of fields may go without their leading zero. |
| Text.DigitsRead | app/sync/push_ingest.py:58-62 | `int()` reads any digits, leading zeros included, with either sign or none. |
| Text.UnderscoreReads | app/sync/push_ingest.py:58-62 | Groups of digits are joined at an underscore. |
| Attlog.EveryPunchLineGivesOneRecord | app/router/iclock.py:403-533 | `parse_attlog` yields one record per line that is neither blank nor a header, in order, with `raw` the stripped line, the serial or "UNKNOWN", and a non-empty PIN. |
| Attlog.SkippedLinesExactly | app/router/iclock.py:392-400 | A non-blank line is skipped if and only if it begins, in any case, with one of twelve texts. |
| Attlog.KeptLinesExactly | app/router/iclock.py:410-415 | The lines kept of a body are its stripped, non-blank lines without those. |
| Attlog.LineGivesRecord | app/router/iclock.py:413-531 | In each of the five branches the record carries the line, the serial and a PIN; the fallback's default PIN is never used. |
| Attlog.WireRoundTrip | app/router/iclock.py:847 | Every decimal PIN, time, status and verify code in the line that a sync builds comes back, through the parser and `to_punch`, as one punch with that key, state, verify mode and work code. |
| Attlog.WireRecordToPunch | app/sync/push_ingest.py:65-89 | What `to_punch` makes of such a record, placeholder names included. |
| Attlog.ParseAttlog | app/router/iclock.py:403-533 | The loop computes the record of each kept line, in order. |
| AttlogFormats.FormatsAgree | app/router/iclock.py:417-514 | One punch written as a tab, blank, comma or key-value line in any of the five time formats: which combinations read as that punch, and what the others read as. A tab line drops a compact time before a negative status, blank and comma lines with a compact time become an invented punch, and a key-value line drops every time but a compact one. |
| AttlogFormats.SpaceLineParses | app/router/iclock.py:471-494 | A blank-separated line gives back every field, the two time words joined. |
| AttlogFormats.CommaLineParses | app/router/iclock.py:496-514 | A comma line gives back every field; the blank in its time does not make it a blank-separated one. |
| AttlogFormats.TabLineParses | app/router/iclock.py:443-469 | A tab line gives back every field, unless its time has no separator and its status has a dash. |
| AttlogFormats.KeyedLineParses | app/router/iclock.py:417-441 | A key-value line whose values hold no blank gives back every field. |
| AttlogFormats.CompactBeforeMinusIsDropped | app/router/iclock.py:448-449 | A negative status after a compact time is taken for a time of day, and no punch results. |
| AttlogFormats.FallbackInvents | app/router/iclock.py:516-531 | A line that reaches the fallback becomes a punch whose PIN is the whole line and whose time is the server clock. |
| AttlogFormats.BareTimeInSpaceLine | app/router/iclock.py:471-531 | A blank-separated line whose time has no separators reaches the fallback. |
| AttlogFormats.BareTimeInCommaLine | app/router/iclock.py:496-531 | A comma line whose time has no separators reaches the fallback. |
| AttlogFormats.SpacedKeyedLineIsDropped | app/router/iclock.py:417-441 | A key-value line whose time holds a blank keeps the date alone, which is no time, so no punch results. |
| AttlogFormats.EmptyTabFieldsDefault | app/router/iclock.py:451-453 | Empty fields of a tab line read as status "0", verify code "1" and work code "0". |
| AttlogFormats.ShortTabLine | app/router/iclock.py:443-469 | So do absent ones, of a tab line, |
| AttlogFormats.ShortSpaceLine | app/router/iclock.py:471-494 | of a blank-separated line, |
| AttlogFormats.ShortCommaLine | app/router/iclock.py:496-514 | and of a comma line. |
| AttlogFormats.KeysHaveAliases | app/router/iclock.py:424-425 | The names a key-value line may use for its PIN and its time. |
| AttlogFormats.VerifyTypeIsRead | app/router/iclock.py:436 | The verify code may come under its longer key. |
| AttlogFormats.SmallKeysAreRead | app/router/iclock.py:418-423 | Keys are read in any case. |
| History.ReplayIsWindow | app/router/iclock.py:374-375 | With a clock that never goes back, after any run of broadcasts the pruned and sorted log is the 30-day window of the stable newest-first sort of everything that ever arrived. |
| History.PunchHistory.GetPunches | app/router/iclock.py:632-637 | For every `days`, what the history would answer had it never been pruned: what arrived and is unreadable or at most that many days old, at least one and at most thirty. |
| History.PunchHistory.Broadcast | app/router/iclock.py:374-375 | One arrival keeps the log equal to the window of all arrivals: those unreadable or at most thirty days old. |
| History.PunchHistory.Prune | app/router/iclock.py:61-68 | Pruning later keeps it so. |
| History.PunchHistory.Sync | app/router/iclock.py:826-868 | A sync adds exactly the first record of each user and timestamp not logged, once each, and afterwards every record inside the window is logged. |
| History.PunchHistory.Clear | app/router/iclock.py:641-644 | Clearing forgets every arrival. |
| History.SortSpec | app/router/iclock.py:68 | The sort orders newest first and keeps entries of one rank in their order. |
| History.SortIsUnique | app/router/iclock.py:68 | These two facts determine the list. |
| History.WindowByFields | app/router/iclock.py:61-68 | The list has exactly what arrived and is unreadable or not older than the cutoff, newest first, the unreadable last. |
| History.PruneThenSort | app/router/iclock.py:61-68 | Pruning before or after sorting is the same. |
| History.RecentTwice | app/router/iclock.py:61-68 | A later cutoff makes an earlier one irrelevant. |
| History.FreshSpec | app/router/iclock.py:829-854 | The dedup loop adds nothing known, nothing twice, and leaves every record known. |
| History.AddedByFields | app/router/iclock.py:829-854 | A record is added if and only if no logged entry and no earlier record of the sync has its user and timestamp. |
| History.ResyncAddsOnlyExpiredLater | app/router/iclock.py:826-854 | Syncing the same records again, after any arrivals and with no clear between, adds none that is still inside the window. |
| CommandQueue.FirstInFirstOut | app/router/iclock.py:1136-1142 | For every run of commands and polls under every spelling of a serial: the commands dispatched, then those waiting, are those that waited at first, then those issued, in order. |
| CommandQueue.IssuedOnce | app/router/iclock.py:22-30 | All commands issued for a reader in a run are different texts. |
| CommandQueue.BlankSerialWaitsForever | app/router/iclock.py:1137 | A command queued for a blank serial is never dispatched. |
| CommandQueue.PollsDispatchExactly | app/router/iclock.py:1136-1142 | After n polls of a serial its first n waiting commands are gone, or all of them where there are fewer, if the serial is not blank, and none if it is. |
| CommandQueue.CommandTellsNumber | app/router/iclock.py:25-27 | A command's number can be read back from its text. |
| CommandQueue.CommandCarriesBody | app/router/iclock.py:27 | Behind its number a command carries the stripped body. |
| CommandQueue.SpellingsOfASerial | app/router/iclock.py:26-28 | A command queued under one spelling of a serial answers a poll under another exactly when they differ in case and surrounding blanks only. |
| CommandQueue.Commands.QueueCommand | app/router/iclock.py:22-30 | Appends under the canonical serial and counts on. |
| CommandQueue.Commands.GetRequest | app/router/iclock.py:1136-1142 | Takes the first waiting command of the canonical serial, or answers OK. |
| Liveness.StampRate | app/sync/liveness.py:63-72 | In any stretch of traffic, k unforced stamps with f failed writes are spread over at least k - 1 - f intervals. |
| Liveness.StampRateInNumbers | app/sync/liveness.py:63-72 | The same as an inequality between the first and the last of those times. |
| Liveness.AdmittedAdds | app/sync/liveness.py:63-72 | Those times are the ones of contacts that the throttle, after the traffic before them, admits. |
| Liveness.RateFrom | app/sync/liveness.py:75-85 | The same measured from the last stamp or from the start, failures and forced stamps in between. |
| Liveness.ContactIsFresh | app/sync/liveness.py:63-72 | Right after a contact the reader's last stamp is younger than one interval. |
| Liveness.StampsKeepUp | app/sync/liveness.py:115-119 | With no failed write, contacts at most d apart give stamps less than one interval plus d apart. |
| Liveness.StampsAreClose | app/sync/liveness.py:115-119 | The same as an inequality between any two stamps in a row. |
| Liveness.Throttle.MarkSeen | app/sync/liveness.py:102-119 | Submits a write exactly when the throttle admits the contact, and records its time then. |
| Liveness.Throttle.Write | app/sync/liveness.py:75-99 | Only an unreachable database makes the throttle forget; an unknown reader is complained of once. |
| FreePin.FreePinIsFree | app/core/device_migration.py:1055-1067 | The mapped PIN differs from every PIN text on the reader, leading zeros and non-numeric ones included. |
| FreePin.LeastFreeSpec | app/core/device_migration.py:1063-1065 | The search finds the least integer from its start on that is not in use. |
| FreePin.FreePinByNumbers | app/core/device_migration.py:1055-1067 | The PIN found is the least number, from the wanted PIN on where that is all digits and else from 1, that no PIN on the reader reads as. |
| FreePin.FindFreePin | app/core/device_migration.py:1131-1140 | The loops collect the integers in use and stop at that integer, for every user list. |
| FreePin.FindLeastFree | app/core/device_migration.py:1323-1326 | The counting loop ends at the least free integer. |
| Readers.BatchDeleteIsExact | app/core/device_migration.py:886-899 | A full batch delete leaves exactly the users not requested, in order, and `deletedCount` is the drop in head count however often an id is repeated. |
| Readers.BatchWipeIsExact | app/core/device_migration.py:693-703 | Wiping only biometrics changes nothing but the fingers of the requested users, and counts a repeated id every time. |
| Readers.CreateSpec | app/core/device_migration.py:540-575 | A profile is created exactly under a stripped PIN of 1 to 24 characters that nobody has, with a name that is not blank; it comes last, under an unused UID, and nobody else changes. |
| Readers.NextUidExactly | app/core/device_migration.py:559 | The next UID is one above the highest, or one on an empty reader. |
| Readers.WithoutMembers | app/core/device_migration.py:705 | A deletion removes the users with that PIN and no other. |
| Fleet.FleetKeeps | app/core/device_migration.py:553-569 | Through any run of creations, deletions, batches and migrations, copy or move, through serials that may name one reader, PINs stay pairwise different and UIDs stay pairwise different on every reader. |
| Fleet.RecordsStayDistinct | app/core/device_migration.py:553-569 | In so many words: after every run any two records of a reader differ in PIN and in UID. |
| Fleet.RunIsPairRun | app/core/device_migration.py:1466-1477 | A batch between two readers changes only those two, as the run on their lists says. |
| Fleet.OutcomesTellThePins | app/core/device_migration.py:1466-1477 | The results of a batch name, for each request in turn, the PIN of the map, or its own where the map gives none, and the number of fingers; nobody found for someone not on the source or moved already. |
| Fleet.Simulator.CreateUser | app/core/device_migration.py:544-575 | A profile is added under the stripped PIN and the next UID, or the error says why not. |
| Fleet.Simulator.DeleteUser | app/core/device_migration.py:667-714 | The user or only the fingers are gone, and the result says whether someone was found. |
| Fleet.Simulator.DeleteUsers | app/core/device_migration.py:886-899 | The loop over ids leaves exactly the users not requested and returns the drop in head count. |
| Fleet.Simulator.MigrateUser | app/core/device_migration.py:1078-1191 | Target written first, source pruned after, on two readers or one; the result names the PIN enrolled. |
| Fleet.Simulator.RunMigration | app/core/device_migration.py:1437-1478 | The loop over ids does one migration per non-blank stripped id, under the PIN its map gives, and reports each. |
| Fleet.Simulator.ResolveTargetPin | app/core/device_migration.py:1001-1075 | Free, same person, or mapped to a free PIN. |
| Migration.BatchMoveConserves | app/core/device_migration.py:1466-1477 | With one record per PIN and different names on the source, and no target user sharing both PIN and name with a source user: a batch move over any id list puts the requested profiles on the target once each in order of request, behind the target's own records, which stay as they were, and leaves the unrequested source records. |
| Migration.MoversAreTheRequested | app/core/device_migration.py:1466-1470 | Those moved are exactly the source records whose PIN the list names, each once, duplicates and unknown ids notwithstanding. |
| Migration.PinMapIsHonoured | app/core/device_migration.py:1466-1477 | Where the PINs asked for are different and free on the target, everyone requested ends with their whole profile under the stripped PIN the map gives them, and under their own where it gives none or an empty one, in copies and moves. |
| Migration.MoveLedger | app/core/device_migration.py:1126-1178 | With no condition on names and any PIN map: after a batch move every profile of both readers occurs as often as before, except those written over. |
| Migration.NobodyIsWrittenOver | app/core/device_migration.py:1126-1178 | When names differ on the source and the target has none of them, or with no PIN map none under the same PIN, a batch move writes over nobody and keeps every profile as often as it occurred. |
| Migration.WrittenOverExactly | app/core/device_migration.py:1126-1178 | With different names on the source and any PIN map, a batch move writes over nobody if and only if no user it moves finds somebody of their name under the PIN asked for, on the target as it stands at the start. |
| Migration.NamesakesMerge | app/core/device_migration.py:1126-1171 | Two people of one name can be merged by a batch move, so the condition on names is needed. |
| Migration.EnrolSpec | app/core/device_migration.py:1126-1171 | The PIN enrolled names a record with the whole source profile; all other target records and all UIDs and PINs stay. |
| Migration.EnrolByFields | app/core/device_migration.py:1148-1171 | Field by field the enrolled record is the source's but for PIN and UID. |
| Migration.CopyTwice | app/core/device_migration.py:1126-1171 | Copying the same user again changes nothing if and only if the PIN asked for was not someone else's. |
| Migration.ResolvedPinIsEnrolled | app/core/device_migration.py:1033-1075 | The PIN resolved is the PIN enrolled if and only if it was free, was mapped, or its occupant's name is spelled exactly as on the source. |
| Migration.ResolvedPinHoldsTheProfile | app/core/device_migration.py:1033-1075 | After the migration the resolved PIN names the migrated profile under exactly that condition. |
| Migration.MappedPinIsFree | app/core/device_migration.py:1055-1067 | A PIN given for a collision is nobody's. |
| Migration.SelfMoveLosesExactly | app/core/device_migration.py:1148-1178 | A move between two serials of one reader keeps the person's profile under the PIN enrolled if and only if another PIN than their own was asked for; otherwise nobody has the PIN any more. |
| Migration.ResolvedSelfMoveLosesExactly | app/core/device_migration.py:1044-1053 | Under a resolved PIN such a move keeps the person's profile under that PIN if and only if the name given does not match the one on the reader. |
| RealMigration.PersonIsKeptExactly | app/core/device_migration.py:1329-1387 | For every pattern of calls that fail before or after their effect or are silently ignored: once the source has lost the person, or the migration is reported done, the target holds the whole record if and only if a write of it was not ignored, the place was free, or it held that very record. |
| RealMigration.IgnoredWriteLosesThePerson | app/core/device_migration.py:1303-1387 | The failing side is reached: with a nameless stranger under the PIN and one ignored profile write, a move reports done, deletes the person from the source and leaves the stranger's record. |
| RealMigration.PinIsAlwaysHeld | app/core/device_migration.py:1296-1387 | Under the same faults, at every moment the source is untouched, or only the moved record is gone and the chosen place holds the destination PIN, for the person or for somebody of the same name or of none; no other record or fingerprint of the target ever changes. |
| RealMigration.DeleteComesAfterTheCheck | app/core/device_migration.py:1371-1387 | The source changes only in the last step, directly after a listing in which the target showed the destination PIN. |
| RealMigration.DoneMeansWritten | app/core/device_migration.py:1329-1402 | A migration reported done has the record on the target, unless every write was ignored and the place held an older one; on a new place always. |
| RealMigration.FingersCarriedExactly | app/core/device_migration.py:1259-1278 | Once the source has lost the person, or the migration is done, each stored fingerprint is on the target if and only if the template write was not ignored and the finger was read, by the bulk read or by a single read that worked, or the place held it before; done is reported either way. |
| RealMigration.IgnoredTemplatesLoseTheFinger | app/core/device_migration.py:1344-1387 | The failing side is reached: with one ignored template write a move is done and the finger is on neither reader. |
| RealMigration.FingersReadExactly | app/core/device_migration.py:1259-1278 | When the fingerprints read are all of those stored, both directions. |
| RealMigration.ChosenPlaceIsSafe | app/core/device_migration.py:1296-1327 | The UID written is free and its PIN nobody's, or it holds that PIN already for the same or a nameless person. |
| RealMigration.OccupantIsUpdatedExactly | app/core/device_migration.py:1299-1318 | A listed occupant of the PIN is updated in place if and only if they have no name or the same one but for case and surrounding blanks. |
| RealMigration.NewcomerGetsFreshPlace | app/core/device_migration.py:1301-1327 | Anyone else gets a PIN that nobody listed has, and the least UID from 1 that nobody listed has. |
| RealMigration.WrittenRecordByFields | app/core/device_migration.py:1331-1339 | Field by field the record written is the source's, under the chosen PIN, and with a made-up name where it has none. |
| RealMigration.EveryMoment | app/core/device_migration.py:1296-1387 | In so many words: at every moment the source is as it was, or lacks exactly the moved UID while the chosen UID of the target has the chosen PIN, and every other UID of the target is as it was. |
| RealMigration.RaisedWriteEndsIt | app/core/device_migration.py:1331-1339 | A profile write that raises ends the migration as failed, with the record written or not as the fault says. |
| RealMigration.LateDeleteIsReportedFailed | app/core/device_migration.py:1383-1387 | A delete that raises after its effect is reported as failed although the person has moved. |
| RealMigration.NoFaultNoFailure | app/core/device_migration.py:1194-1402 | With no fault a present user's migration is done. |
| RealMigration.MigrateUser | app/core/device_migration.py:1194-1412 | The procedure on two reader objects goes through the moments the protocol function lists, for a user it found, and otherwise changes nothing. |
| RealMigration.ReadSourceFingers | app/core/device_migration.py:1257-1276 | The bulk read and the ten single reads bring what the specification says. |
| RealMigration.ChoosePlace | app/core/device_migration.py:1296-1327 | PIN and UID as chosen from the listing. |
| RealMigration.ZkDevice.GetUsers | app/core/device_migration.py:1247 | A listing that works shows every record once or more, in any order. |
| Access.OfficeStaysOrderly | app/core/employee_service.py:164-594 | Every run of transfers, grants, revocations, offboardings, removals and reader operations keeps at most one access entry per reader for everybody, and one record per PIN and per UID on every reader. |
| Access.EntriesStaySingle | app/core/employee_service.py:164-594 | In so many words: after every run nobody has two entries for one reader. |
| Access.FoundExactly | app/core/employee_service.py:181-182 | An employee is found if and only if the stripped text is an id or, but for case, a code; and then the first such. |
| Access.FireAllIsExact | app/core/employee_service.py:490-531 | A full `fire_all` leaves no user under any listed reader and PIN, or under the employee's id on any registered reader where nothing is listed, through whatever serial, and on every reader exactly the users whose PIN is not listed for it. |
| Access.FireByFields | app/core/employee_service.py:490-535 | By fields: firing ends the employment, empties the access list, and takes a user off a reader if and only if an entry names both, or, where there is no entry, their PIN is the employee's id and the reader is registered. |
| Access.OnlyFiringTerminates | app/core/employee_service.py:529-535 | No other offboarding ends the employment. |
| Access.DeviceDeletionIsExact | app/core/employee_service.py:483-488 | A device deletion that names a known reader leaves nobody there under the PIN of the entry for it, or the id where there is none, and every other user, reader and entry. |
| Access.RecordedPinIsEnrolled | app/core/employee_service.py:230-282 | A transfer or grant that worked, other than a move from a reader to itself, records the resolved PIN, and that PIN names the migrated record if and only if it was free, was mapped, or its occupant's name is spelled as on the source. |
| Access.CaseGivesAwayThePin | app/core/employee_service.py:333-384 | The failing side is reached: a grant for Bob, where bob has the PIN, records bob's. |
| RealTransfer.RecordedEntryNamesTheRecord | app/core/employee_service.py:230-282 | On hardware readers, after a done migration whose profile write was not ignored: the access entry has the resolved PIN, and the person's record stands under it if and only if everybody who had that PIN was nameless or of the source record's name. |
| RealTransfer.RecordedPinIsWrittenExactly | app/core/device_migration.py:1296-1327 | The PIN recorded is the PIN written under exactly that condition, whatever the resolution was based on. |
| RealTransfer.HonestResolutionIsWritten | app/core/device_migration.py:1018-1075 | A resolution from a listing that worked, and that did not take the occupant for the same person, is always the PIN written. |
| RealTransfer.FailedListingRecordsAnothersPin | app/core/device_migration.py:1023-1042 | The failing side is reached: a failed listing reports Bob's PIN free, Ann is written under another, and Bob's is recorded. |
| RealTransfer.ResolveOnReader | app/core/device_migration.py:1018-1075 | Resolves from a listing of the reader, in any order, or from nothing when the listing fails. |
| RealTransfer.ResolvedExactly | app/core/device_migration.py:1033-1075 | The PIN is mapped if and only if somebody listed has it and the employee has no name or the name shown for them differs by more than case and blanks. |
| Access.AliasTransferLosesExactly | app/core/employee_service.py:230-282 | A move between two serials of one reader keeps the employee's record under the PIN recorded if and only if the directory's name for them does not match the reader's; the access entry is written all the same. |
| Access.RemoveIsExact | app/core/employee_service.py:568-585 | Permanent deletion removes every employee the id matches and wipes exactly the readers that firing the first of them wipes. |
| Access.RemovedAreOffTheReadersExactly | app/core/employee_service.py:568-585 | Permanent deletion takes every employee it removes off all their readers if and only if the readers and PINs wiped for the first one cover those of all the others. |
| Access.RemovedTargetExactly | app/core/employee_service.py:568-585 | A PIN is off a reader afterwards if and only if it was before or the first match's targets name it for that reader. |
| Access.NamesakeStaysOnTheReader | app/core/employee_service.py:568-585 | The failing side is reached: Ben's code is Ann's id; both leave the directory and Ben stays on the reader. |
| Access.WipedEntryStaysExactly | app/core/employee_service.py:490-543 | An entry of a wiped reader stays in the access list if and only if the offboarding is neither a firing nor a device deletion that names a device, and some entry is for another reader than the one named. |
| Access.WipedIsExact | app/core/employee_service.py:508-527 | Deleting a list of reader and PIN pairs leaves on each reader the users whose PIN is not listed for it. |
| Access.AccessAfterSpec | app/core/employee_service.py:262-282 | After a transfer or grant the entry for the target has the PIN; every other entry stays, except that a move drops those of the source serial. |
| Access.TransferMovesTheBranch | app/core/employee_service.py:284-300 | An accepted transfer always moves the branch; the new branch's reader is in the access list afterwards if and only if it was before or the readers took part (biometrics asked for, a known reader on both sides, the employee on the old one); when they did not, nothing else changes. |
| Access.TransferredRecordExactly | app/core/employee_service.py:228-300 | When the readers take part, the entry for the new branch's reader has the resolved PIN, and that PIN names the employee's record if and only if the names do not match, for a move from a reader to itself, and otherwise if and only if the PIN was free, was mapped, or its occupant is spelled as on the source. |
| Access.OnlyCopyLeavesTheSource | app/core/employee_service.py:196-282 | Between two different readers exactly the mode "copy", but for case and blanks, leaves the employee on the old one and keeps its entries; every other mode takes them off. |
| Access.GrantLeavesHome | app/core/employee_service.py:362-384 | A grant leaves the home reader's list and every entry for another reader. |
| Access.GrantGivesTheEntry | app/core/employee_service.py:334-384 | A grant that works gives the entry for the reader named, or for the first of the branch named, the PIN resolved there; any other changes nothing. |
| Access.BranchMovesAlone | app/core/employee_service.py:284-300 | The failing side is reached: with nobody on the old reader the transfer is accepted, the branch moves, and there is no entry for the new one. |
| Access.RevokeIsExact | app/core/employee_service.py:424-441 | A full revocation leaves nobody under the employee's PIN on that reader, every other user, and no entry for the reader. |
| Access.RecordedSpec | app/core/employee_service.py:262-282 | The entry for a reader gets the PIN and stays or becomes primary, others stay, and no second entry for a reader arises. |
| Access.DroppedSpec | app/core/employee_service.py:438-441 | Dropping a reader's entries drops those and no others. |
| Access.ClearedSpec | app/core/employee_service.py:442-447 | Marking biometrics as cleared changes nothing else. |
| Access.EmployeeService.Carry | app/core/employee_service.py:220-282 | Resolve, migrate and record on the service object and its readers. |
| Access.EmployeeService.TransferEmployee | app/core/employee_service.py:164-308 | The whole new directory and readers after a transfer, and exactly when it was accepted. |
| Access.EmployeeService.GrantAccess | app/core/employee_service.py:311-399 | The whole new directory and readers after a grant, and exactly when it worked. |
| Access.EmployeeService.RevokeAccess | app/core/employee_service.py:402-455 | The whole new directory and readers after a revocation, and exactly when it worked. |
| Access.EmployeeService.FireEmployee | app/core/employee_service.py:458-554 | The whole new directory and readers after offboarding, whether the employee was found, and what each deletion reported. |
| Access.EmployeeService.DeletePermanently | app/core/employee_service.py:557-594 | The whole new directory and readers after removal, and whether the employee was found. |
| Access.EmployeeService.Wipe | app/core/employee_service.py:508-527 | The loop over targets deletes each in turn and reports each as it was found. |

## Left out

- Spool.PunchSpool.Drain: the micro-steps of rename, open and unlink, `OSError`, and two objects on one path are not modelled; one call is one step.
- Punches.FromJson: lines whose fields have unexpected types are all taken as raising, though Python keeps some of them (a number as a serial, say); such lines are never written by `to_json`.
- Json.Loads: escapes of lone surrogates are unreadable here, because a Dafny character cannot be one; the interpreter's limits on nesting and on digits are not modelled.
- Times.Print: a year below 1000 is printed with leading zeros, as `%Y` is documented; some platforms print it without, and the round trip then fails for those years.
- Times.Strptime: digits and blanks are ASCII ones.
- PushIngest.Bridge.Ingest: the file may be torn and corrupt, but no line of it may be JSON with wrongly typed fields, on which `drain` raises an exception that it does not catch.
- Supervisor.SyncSupervisor.Run: no push arrives between two wake-ups; pushes in between are the subject of `Interleaving`.
- Interleaving.After: steps of one thread are named by what they do, without the database object's connection pool.
- Attlog.ParseLine: a key-value timestamp with a blank keeps only its date, as in the program, so nothing beyond one record per line is claimed for it; case is folded over ASCII, and user lookups are a function from PIN to name.
- History.PunchHistory.Sync: `fromisoformat` is any function from texts to times, times with a zone are not distinguished, and names, labels, ids and the file copy of the log are one opaque payload.
- Liveness.StampRate: times are real numbers; the rounding of a floating-point clock is not modelled.
- Readers.AfterCreate: privilege, card and password are already integers and texts; the hardware path of creation is not part of this model.
- FreePin.FreePinFor: digits and `int()` are over ASCII, with signs, blanks and underscores.
- Fleet.Simulator.MigrateUser: which serials and addresses resolve to which reader is a given map; default serials and the registry file are not modelled.
- RealMigration.MigrateUser: source and target must be different readers; the fingerprint version check and the final enable and disconnect calls change no record and are left out.
- RealMigration.ZkDevice.GetUsers: a listing is complete or fails; a reader that lists falsely is not modelled.
- Access.EmployeeService.TransferEmployee: transfer and offboarding histories, dates and messages are not kept; the employee file is the list itself, so a failed write of it is not modelled.
- Access.EmployeeService.FireEmployee: every access entry has a PIN, which the program elsewhere requires.
- Deletion on real readers, its fallback to queued commands, and batch deletion over one connection: the simulated forms are modelled instead.
- HTTP routes, live event streams, name caches, dashboards, logging, configuration and the heartbeat query: plumbing around the cores.
