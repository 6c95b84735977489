# Verified models of the bgpm core reservations, the RAS metadata scripts and the opcode match macros

Three parts of the Blue Gene/Q driver are modelled here and proved correct with Dafny 4.11.
`dafny verify dfyconfig.toml` checks the whole project.

**Core reservations** (`bgpm/src/CoreReservations.{h,cc}`). One record in shared memory per core hands out counter groups and
core-wide attributes to any number of event sets.

- `CoreRecord` gives every call as one indivisible operation on the value of the record (`Allowed`, `Result`, `After`).
- `CoreReservationsModel` is the class itself: the fields of the record updated in place, one method per call, its answer and its new fields
  stated in words and in the numbers of the header, and each proved to be the indivisible call on the record's value. `Masks` relates
  words and sets.
- `Protocol` is the concurrent reading: any number of clients, each unlocked read, lock, locked read, write and unlock a step of its
  own, `x |= y` and `++x` a read step followed by a write step. A state carries shared memory, the lock and the clients, and a history:
  the log of calls in the order in which they took effect, and the calls that have returned.
- `Invariants`, `Sessions` and `Linearizability` prove one invariant of all runs; `Guarantees`, `Agreement`, `Answers`, `Progress`,
  `L1pMode`, `OrderIndependence`, `Duplication` and `DuplicationWords` state what follows.

Assumptions of the concurrent model: memory is sequentially consistent; there are four hardware threads per core; the lock is a plain
acquire and release; the environment's choice of a context is an arbitrary function of the request (the code of `EnvVars::GetDefContext`
returns its argument, which is one such function). Clients keep the order their callers keep (`Protocol.Permits`): a reference around
everything else, `newEvtSet` on the first group reservation of an event set only, and nothing held at `DecrRef` (`bgpm/src/ES_SWPunit.cc`,
`bgpm/src/ES_HWPunit.cc`; an event set may move to an attached unit of the same thread). That an attached mask is released as it was obtained
is an assumption only: `bgpm/src/ES_HWPunit.cc:71` and `:125-129` read the group mask again after the reservation.

*Finding.* `RsvL1pMode` stores its flag before its value, while all other attributes store the value first. A caller that reads between the
two stores compares with the old value. It can be refused the very mode the winner has just reserved (`L1pMode.SameModeRefused`), and, after an
earlier session, be granted a mode the winner did not reserve (`L1pMode.WrongModeGranted`). `L1pMode.L1pTruthfulIff` says exactly when such a
caller is answered correctly. With the value stored first there is no exception (`Agreement.CallersAgree`).

**RAS metadata** (`scripts/rasScan.py`, `scripts/rasGen.py`, `scripts/rasTableGen.py`). Events are written to a file as one XML element a
line, scanned back out of it, sorted by id and written as a table.

- `Scanner` is the line scanner of both scripts, proved against a specification that does not mention its state; `ScannedText` says it of the text.
- `Rewriting`, `ServiceText` and `ServiceVariables` are the expansion of service-action variables; `Gaps` and `RasClean` say what it does to special characters.
- `Attributes`, `ElementExact`, `RasFile`, `RasEvents`, `RasSorter` and `RasRoundTrip` are the file format, its writer, its reader and the sorter.
- `TableText`, `RasTable` and `RasPipeline` are the table and the whole way from events to table.
- `Formats` gives lines, file and rows in the strings of the source.

A value is *clean* if it consists of ASCII characters other than control characters, `"`, `<` and `&`, and does not hold `/>`.

*Findings.*

- A service action that asks for the threshold text without a threshold count loses its variable, and what stands around it can close up to
  another variable (`ServiceText.ExpansionExact`) or to `/>`, which ends the element early (`RasClean.ExpansionClean`). `RasClean.CleanExact` says
  of each event whether that happens.
- The sorter can end the run in two ways, and `RasSorter.SortExact` says these are all: two different definitions of one id, whose message uses an
  undefined name, and an event without file name or line number, whose rejection needs both for its message. An element that names a file but no
  line is enough (`RasRoundTrip.LostLine`).
- The writer ends the run at a value outside ASCII (`RasEvents.WriteEvents`).
- A table generator used twice writes an id again if the message about the repetition cannot be printed (`RasTable.ListedAgain`).

**Opcode matching** (`bgpm/include/types.h`). `Opcodes` proves the match codes and masks exact for every form of the header, on 32-bit words;
`Words` relates the bit operators to single bits.

## Model

| member | source | states |
|---|---|---|
| `Linearizability.RunsAreLinearizable` | bgpm/src/CoreReservations.cc:45-327 | In every reachable state, for any number of clients and any interleaving of memory accesses, the log is a legal sequential history of the indivisible calls; every returned call has exactly one entry, between its call and its return, with the answer it returned (the L1p mode with its flag stored first excepted); no two calls share an entry and none is made up; with the lock free, memory is what the log leaves |
| `Linearizability.RunKeeps` | bgpm/src/CoreReservations.cc:45-327 | One invariant over memory, lock, program points, holdings and history holds along every run |
| `Linearizability.DoKeeps` | bgpm/src/CoreReservations.cc:45-327 | Every start, memory access and change of hands keeps it |
| `Linearizability.StepKeepsState` | bgpm/src/CoreReservations.cc:45-327 | A memory access of one client keeps what every other client relies on |
| `Invariants.LocalStep` | bgpm/src/CoreReservations.cc:45-327 | Each access of each call keeps the relation between memory and the record as if calls were indivisible, taking effect at one access |
| `Guarantees.NoAssertFails` | bgpm/src/CoreReservations.cc:45-133 | No assert on the record can fail in any run, including that all group counts are 0 when refCount reaches 0 |
| `Guarantees.CountsAreSessions` | bgpm/src/CoreReservations.h:103-116 | Whenever the lock is free refCount is the number of clients with a reference, ctrGrpRefCount[t] the number of event sets on t, a thread has groups iff its count is not 0, and evtCtxBoth is set iff the context is set to BOTH |
| `Guarantees.BothMeansBoth` | bgpm/src/CoreReservations.cc:223-240 | evtCtxBoth implies evtCtx with value BOTH at every access, locked or not |
| `Guarantees.CountersConserved` | bgpm/src/CoreReservations.h:73-87 | At every access no counter has two owners, a thread with n groups owns exactly 6n counters, and all threads together own at most 24 |
| `Guarantees.GroupsGrowOrVanish` | bgpm/src/CoreReservations.cc:88-133 | A step adds to a thread's groups or clears all of them with the count at 0 |
| `Guarantees.NoBitLost` | bgpm/src/CoreReservations.cc:169-256 | With every `\|=` split in two, no step loses a bit of allocMask unless refCount is 0 |
| `Guarantees.AllocMaskGrows` | bgpm/src/CoreReservations.cc:169-327 | Along every run that keeps refCount positive the bits of allocMask only accumulate |
| `Guarantees.AttachedIsHeld` | bgpm/src/CoreReservations.cc:194-219 | puAttachedMask is at every access the disjoint union of the masks clients hold |
| `Guarantees.UnlockedAttachFailure` | bgpm/src/CoreReservations.cc:194-206 | A reservation refused without the lock did, at the moment of its read, ask for a group another client holds |
| `Guarantees.AttachRoundTrip` | bgpm/src/CoreReservations.cc:194-219 | Reserving and releasing restores the record |
| `Agreement.OneValue` | bgpm/src/CoreReservations.cc:169-327 | In any stretch of a legal history with refCount positive, the requests for an attribute agree on one value: each is granted iff it asks for it, and it is what the first of them asked for, or, of the context, what the environment makes of that |
| `Agreement.CallersAgree` | bgpm/src/CoreReservations.cc:223-327 | The same of the answers clients got in every run, whether or not they took the lock; for the L1p mode when the value is stored first |
| `Agreement.NoopGranted` | bgpm/src/CoreReservations.cc:169-248 | In every run each returned request for the default context, or for no exclusive L1p mode, was granted, and its entry in the log leaves the record as it was |
| `Answers.GroupAnswered` | bgpm/src/CoreReservations.cc:88-117 | In every run a returned group reservation was refused iff another thread's mask held the group at its entry in the log; when granted, the group is added to the thread's own mask, the count rises by one iff newEvtSet, and no other thread's mask or count changes |
| `Answers.GroupStep` | bgpm/src/CoreReservations.cc:98-116 | The same of memory: at the access where it takes effect, the answer is right for the masks as they stand, and the store adds exactly the group |
| `Answers.AttachAnswered` | bgpm/src/CoreReservations.cc:194-206 | In every run a returned attach was refused iff it met the mask in use at its entry, which otherwise grows by exactly the mask asked for |
| `Answers.AttachStep` | bgpm/src/CoreReservations.cc:194-206 | An attach is granted iff, at the access where it takes effect, no client holds any of the groups asked for |
| `Answers.DropAnswered` | bgpm/src/CoreReservations.cc:45-64 | In every run a returned DecrRef takes one off refCount; the last clears allocMask and all group masks, any other leaves them; values, counts and attached mask stay |
| `Progress.NeverStuck` | bgpm/src/CoreReservations.cc:45-327 | In every reachable state with a call in progress somebody can step, and no client waits for a lock it holds |
| `Progress.RankDecreases` | bgpm/src/CoreReservations.cc:45-327 | Every step of a call brings it closer to its return |
| `Progress.CallsCanFinish` | bgpm/src/CoreReservations.cc:45-327 | Every call in progress can be brought to its return in at most 62 steps of the lock's holder and the caller |
| `Progress.CallsReturn` | bgpm/src/CoreReservations.cc:45-327 | From every reachable state an idle client can make each of its calls and have it return: a reference when it has none, with one any reservation, the release of what it holds, and DecrRef when it holds nothing else |
| `L1pMode.L1pTruthfulIff` | bgpm/src/CoreReservations.cc:169-190 | A caller that finds the flag set is answered as linearized in every continuation iff the stored mode and the winning mode compare alike with its request; outside the window between the two stores always |
| `L1pMode.ToldFromCell` | bgpm/src/CoreReservations.cc:169-190 | From every reachable state in which a caller has found the flag set there is a run in which it is told what the stored mode says while its entry in the log has what the winning mode says |
| `L1pMode.SameModeRefused` | bgpm/src/CoreReservations.cc:177-187 | A run from the cleared record in which two callers ask for mode 8 and the second has returned with a refusal, its entry in the log being a grant, while the first, which wins the mode, has still to store it |
| `L1pMode.WrongModeGranted` | bgpm/src/CoreReservations.cc:177-187 | A run in which the second caller asks for mode 8 and has returned with a grant, its entry in the log being a refusal, while the first has won mode 7 |
| `OrderIndependence.AnyOrder` | bgpm/src/CoreReservations.cc:88-327 | Reservations without releases all succeed in one order iff they do in every permutation, with the same record |
| `Duplication.DuplicateExact` | bgpm/src/CoreReservations.cc:137-166 | The return code is 0 or that of the first conflicting attribute in order; every attribute asked for, and evtCtxBoth with the context, is as asking for it alone would leave it, those before the conflict agree with the source, evtCtxMixed is set iff it was or is requested without a conflict, and all else is as before |
| `Duplication.DuplicateReturns` | bgpm/src/CoreReservations.cc:137-166 | It is 0 iff no requested attribute conflicts, and a code names a conflict |
| `Duplication.DuplicateCodes` | bgpm/src/CoreReservations.cc:137-166 | The codes of the header by number, in the order in which the attributes are asked for |
| `Duplication.DuplicateAttr` | bgpm/src/CoreReservations.cc:137-166 | An attribute asked for before the first conflict, not yet fixed and asked for with something, has the source's value (the context what the environment makes of it); any other is as it was |
| `DuplicationWords.CodeInWords` | bgpm/src/CoreReservations.cc:137-166 | The return code from mask, allocMask and the fields of both records, with the header's bit numbers and codes |
| `DuplicationWords.L1pInWords` | bgpm/src/CoreReservations.cc:143-145 | What becomes of l1pMode and bit 0x0001 |
| `DuplicationWords.QfpuInWords` | bgpm/src/CoreReservations.cc:146-148 | What becomes of the three QFPU fields and bit 0x0004 |
| `DuplicationWords.XuInWords` | bgpm/src/CoreReservations.cc:149-151 | What becomes of the two XU fields and bit 0x0008 |
| `DuplicationWords.SqrtInWords` | bgpm/src/CoreReservations.cc:152-154 | What becomes of sqrtScale and bit 0x0010 |
| `DuplicationWords.DivInWords` | bgpm/src/CoreReservations.cc:155-157 | What becomes of divScale and bit 0x0020 |
| `DuplicationWords.CtxInWords` | bgpm/src/CoreReservations.cc:158-160 | What becomes of evtCtx and bit 0x0040 |
| `DuplicationWords.FlagsInWords` | bgpm/src/CoreReservations.cc:158-163 | What becomes of bits 0x0080 and 0x0100 |
| `Duplication.DuplicateKeeps` | bgpm/src/CoreReservations.cc:137-166 | An attribute already fixed, not requested or asked for with nothing stays as it was |
| `Duplication.DuplicateTakesContext` | bgpm/src/CoreReservations.cc:158-160 | When the context that was not fixed is refused, it has become what the environment makes of the source's, which is another |
| `Duplication.DuplicateTwice` | bgpm/src/CoreReservations.cc:137-166 | Repeating a successful call changes nothing |
| `CoreReservationsModel.CoreReservations.constructor` | bgpm/src/CoreReservations.h:100-102 | The record starts cleared, in its words and as the value all runs start from |
| `CoreReservationsModel.CoreReservations.IncrRef` | bgpm/src/CoreReservations.h:139-145 | refCount rises by one and nothing else changes; the method is the indivisible call on the record's value, as all below are |
| `CoreReservationsModel.CoreReservations.DecrRef` | bgpm/src/CoreReservations.cc:45-64 | refCount falls by one; at 0 allocMask and the four group masks become 0, otherwise they stay |
| `CoreReservationsModel.CoreReservations.CtrGrpInUseByOthers` | bgpm/src/CoreReservations.cc:68-84 | The mask loop finds out whether another thread owns the group |
| `CoreReservationsModel.CoreReservations.RsvCtrGrp` | bgpm/src/CoreReservations.cc:88-117 | Granted iff no other thread's mask has the group's bit; then that bit is or-ed into the thread's own mask and its count rises by one iff newEvtSet; everything else is unchanged |
| `CoreReservationsModel.CoreReservations.RlsCtrGrp` | bgpm/src/CoreReservations.cc:121-133 | The thread's count falls by one, and its mask becomes 0 iff the count does; other threads are unchanged |
| `CoreReservationsModel.CoreReservations.RsvL1pMode` | bgpm/src/CoreReservations.cc:169-190 | Modes 7 to 9: with bit 0x0001 clear the mode is stored, the bit set and the call granted; with it set nothing changes and it is granted iff the mode stored is the one asked for. Other modes are granted and change nothing |
| `CoreReservationsModel.CoreReservations.RsvAttachedCtrGrp` | bgpm/src/CoreReservations.cc:194-206 | Granted iff the mask in use and the one asked for have no bit in common, and then they are or-ed |
| `CoreReservationsModel.CoreReservations.RlsAttachedCtrGrp` | bgpm/src/CoreReservations.cc:210-219 | The bits given are cleared |
| `CoreReservationsModel.CoreReservations.RsvContext` | bgpm/src/CoreReservations.cc:223-248 | Contexts above 0: with bit 0x0040 clear what the environment makes of the request is stored, the bit set, and 0x0080 with it iff that is 3; with it set nothing changes; granted iff the context stored is the one asked for. Others are granted and change nothing |
| `CoreReservationsModel.CoreReservations.SetMixedContext` | bgpm/src/CoreReservations.cc:252-256 | Bit 0x0100 is or-ed into allocMask |
| `CoreReservationsModel.CoreReservations.RsvQfpuMatch` | bgpm/src/CoreReservations.cc:260-275 | With bit 0x0004 clear match, mask and scale are stored, the bit set and the call granted; with it set nothing changes and it is granted iff the three are equal |
| `CoreReservationsModel.CoreReservations.RsvXuMatch` | bgpm/src/CoreReservations.cc:279-293 | The same for match and mask with bit 0x0008 |
| `CoreReservationsModel.CoreReservations.RsvSqrtScale` | bgpm/src/CoreReservations.cc:297-310 | The same for the scale with bit 0x0010 |
| `CoreReservationsModel.CoreReservations.RsvDivScale` | bgpm/src/CoreReservations.cc:314-327 | The same for the scale with bit 0x0020 |
| `CoreReservationsModel.CoreReservations.DuplicateReservations` | bgpm/src/CoreReservations.cc:137-166 | The return code, with the header's bit numbers and codes; attributes whose number is not in the mask keep their fields; the rest as `DuplicateExact` and `DuplicationWords` say, also when the source is the record itself |
| `Masks.MaskBitIsShift` | bgpm/src/CoreReservations.h:111-111 | The mask bit of group g is 0x80 shifted right by g |
| `Masks.InMaskIs` | bgpm/src/CoreReservations.h:108-111 | A group mask has group g iff its and with 0x80 shifted right by g is not 0; adding g or-s that bit in |
| `Masks.GroupsOr` | bgpm/src/CoreReservations.h:108-111 | Or of group masks is union of the groups |
| `Masks.GroupsAnd` | bgpm/src/CoreReservations.h:108-111 | And, and and-not, are intersection and difference |
| `Masks.WithBit` | bgpm/src/CoreReservations.h:49-59 | Or-ing a CoreDepBits enumerator into the 32-bit allocMask adds that bit and no other |
| `Masks.BitNumbers` | bgpm/src/CoreReservations.h:49-59 | Each of the eight bits by its number in the header |
| `Masks.ContextNumbers` | bgpm/src/CoreReservations.cc:235-238 | Fixing the context or-s in 0x0040, and 0x0080 iff the context is 3 |
| `Scanner.Scan` | scripts/rasScan.py:70-117 | For every file: chunks are the texts of disjoint elements in order, each from a line with the start pattern to the first end pattern of the first line from there that has one; every line with the start pattern is in an element or in one unfinished tail; the reported line is the last with the start pattern |
| `Scanner.SegmentationUnique` | scripts/rasGen.py:73-113 | Where the elements of a file lie is determined by its lines |
| `Scanner.ScanUnique` | scripts/rasGen.py:73-113 | So are the chunks and the reported lines |
| `ScannedText.OneElement` | scripts/rasScan.py:70-117 | An element over any number of lines, in a file without another start pattern, is found as the concatenation of its lines up to and including the end pattern, with the number of its first line |
| `Rewriting.SequentialIsSimultaneous` | scripts/rasScan.py:444-480 | Variables replaced one after another are replaced as in one pass from left to right, when no text brings in a later variable |
| `Rewriting.NoneRemains` | scripts/rasScan.py:444-480 | No variable is left when no text holds one |
| `ServiceText.Transform` | scripts/rasScan.py:444-480 | The guarded replacements, with the two computed texts, are the seven replacements in order |
| `ServiceVariables.CheckLevels` | scripts/rasScan.py:424-450 | In text without another `$`, the variable becomes the source's text, in place |
| `ServiceVariables.CheckEnvironmentals` | scripts/rasScan.py:430-452 | The same |
| `ServiceVariables.CheckFacilities` | scripts/rasScan.py:426-454 | The same |
| `ServiceVariables.CheckConnections` | scripts/rasScan.py:428-456 | The same |
| `ServiceVariables.NoService` | scripts/rasScan.py:432-458 | The same |
| `ServiceVariables.Diagnostics` | scripts/rasScan.py:434-466 | The same, with the diagnostics behind their introduction if there are any, when they do not hold the threshold variable |
| `ServiceVariables.ThresholdPolicy` | scripts/rasScan.py:437-479 | The same, with the count before " or more errors" and the period, if there is one, behind " in a period of "; without a count it becomes nothing |
| `ServiceText.ExpansionExact` | scripts/rasScan.py:423-480 | For every service action the expansion is the simultaneous one, leaves no variable and is idempotent, iff a count is given and no variable occurs in count, period or diagnostics |
| `ServiceText.OrderMatters` | scripts/rasScan.py:460-480 | One pass equals seven for every service action iff the diagnostics do not hold the threshold variable |
| `ServiceText.Spliced` | scripts/rasScan.py:467-479 | Without a count what stands around the threshold variable closes up |
| `RasClean.ExpansionClean` | scripts/rasScan.py:444-480 | Expansion keeps every clean service action clean iff a count is given |
| `RasClean.CleanExact` | scripts/rasScan.py:524-560 | An event is written with clean values only iff its own values are clean, its id in upper case, and, without a threshold count, neither its service action, nor the diagnostics it brings in, has `/` and `>` with nothing but threshold variables between |
| `RasClean.AsksThreshold` | scripts/rasScan.py:460-467 | The threshold variable is in the service action when its turn comes iff it was there from the start, or the action asks for the diagnostics and they hold it |
| `Gaps.EndClosesUp` | scripts/rasScan.py:479-479 | Replacing a variable by nothing puts `/>` together iff the text has such a gap |
| `Gaps.GappedAfter` | scripts/rasScan.py:444-467 | A gap is there after the other replacements iff it was there before or came with a text |
| `Gaps.HoldsAfter` | scripts/rasScan.py:444-467 | The same of a variable |
| `Attributes.ElementRoundTrip` | scripts/rasScan.py:524-561 | Reading a written element with clean values yields its names with their values |
| `ElementExact.LineExact` | scripts/rasGen.py:87-94 | The line of an element, cut off at its first end pattern and read, yields its names with their values iff every value is clean |
| `Formats.CleanIs` | scripts/rasGen.py:87-94 | Which values are clean, character by character |
| `RasFile.FileHolds` | scripts/rasScan.py:512-563 | In a written file exactly the element lines open an element, each ending with its line; the header does not |
| `RasFile.ScanFinds` | scripts/rasGen.py:73-113 | The scan of such a file finds the elements in order |
| `RasEvents.WriteEvents` | scripts/rasScan.py:512-565 | The writer gets through iff every event has the six attributes without a default, has ASCII values, and has file name and line number if a variable is left in its service action; the file then is the prolog, the header, the elements of the events in ascending key order and the footer |
| `Ordering.LessExact` | scripts/rasScan.py:519-520 | One key comes before another iff it has the smaller character where they first differ or is a proper prefix |
| `RasEvents.ElementsAscend` | scripts/rasScan.py:519-521 | The keys of the elements of a written file are in that order |
| `Formats.EventLine` | scripts/rasScan.py:522-561 | The line of an event in the source's strings: fourteen pairs in order |
| `Formats.ValuesWritten` | scripts/rasScan.py:526-559 | The value in each pair: the id in upper case, the service action expanded with count, period and diagnostics of the event, all others as they are |
| `Formats.FileText` | scripts/rasScan.py:515-562 | The file in the source's strings: prolog, header with the time, lines, footer |
| `Formats.WritesIs` | scripts/rasScan.py:526-559 | What the writer needs of an event, attribute by attribute |
| `Formats.UpperIs` | scripts/rasScan.py:526-526 | Each letter becomes its capital, other characters of ASCII stay |
| `RasRoundTrip.ReadExtract` | scripts/rasGen.py:216-226 | The elements read are those of the chunks of the file that parse |
| `RasRoundTrip.GetsSource` | scripts/rasGen.py:94-100 | A written element that names no file gets the file it was found in and the line reported for it |
| `RasRoundTrip.ShowReads` | scripts/rasGen.py:99-99 | Line numbers are shown in decimal without leading zeros |
| `RasSorter.RasEventSorter.AddEvent` | scripts/rasGen.py:137-172 | The event replaces the record of its id, unless the definitions differ |
| `RasSorter.AcceptedIs` | scripts/rasGen.py:177-193 | The nine attributes an event must have, by name |
| `RasSorter.SameIs` | scripts/rasGen.py:141-141 | The nine attributes in which definitions must agree, by name |
| `RasSorter.RecordIs` | scripts/rasGen.py:156-170 | The fourteen attributes kept, by name, each with the event's value or empty |
| `RasSorter.RasEventSorter.Sort` | scripts/rasGen.py:174-202 | An event lacking an attribute is left out, or ends the run if it lacks its file name or line number; the others are added one after another |
| `RasSorter.SortExact` | scripts/rasGen.py:137-202 | Sorting succeeds iff every event has a file name and a line number and all complete definitions of an id agree, and then keeps the last of each |
| `RasRoundTrip.ReadSorts` | scripts/rasGen.py:94-202 | The elements found in a file sort iff each that names a file names a line and all complete definitions of an id agree |
| `RasRoundTrip.LostLine` | scripts/rasGen.py:97-200 | One written element that names a file and no line makes the sorter fail, whatever else is found |
| `RasRoundTrip.LostExample` | scripts/rasGen.py:97-200 | For instance id 1 with file name a.h |
| `RasRoundTrip.FileRestores` | scripts/rasGen.py:73-202 | What is read of a file with the written contents sorts to exactly the events written, as `RoundTrip` says, when all values written are clean |
| `RasRoundTrip.RoundTrip` | scripts/rasGen.py:216-226 | Events that the writer gets through, with clean values and no gap as in `CleanExact` and ids distinct in upper case, written, scanned and sorted, come back each under its id in upper case, with the service action expanded, missing attributes empty and their own file name and line number, and nothing else comes back |
| `TableText.TableRoundTrip` | scripts/rasTableGen.py:66-99 | A reader of the twelve columns recovers every table whose values hold no quote or line end, and no comma in the count |
| `Formats.RowWritten` | scripts/rasTableGen.py:66-98 | The row of an event in the source's strings: five columns in quotes, the count without, the others in quotes unless empty |
| `Formats.RowColumns` | scripts/rasTableGen.py:51-63 | Which attribute is in which column |
| `RasTable.LenOk` | scripts/rasTableGen.py:117-187 | True iff each of the twelve columns is within its width, given by number |
| `RasTable.RasTableGen.IdOk` | scripts/rasTableGen.py:102-115 | An id is refused iff it is listed and the old and the new details both have the four attributes the message prints; otherwise it is listed with the new details |
| `RasTable.RasTableGen.WriteFile` | scripts/rasTableGen.py:45-100 | Rows strictly ascending by id, exactly one for each event that fits and is not refused as listed; the list grows by those; the rows can be read back |
| `RasTable.RowsAscend` | scripts/rasTableGen.py:48-50 | The ids of the rows come in the order of `LessExact` |
| `RasTable.ListedAgain` | scripts/rasTableGen.py:102-115 | An id listed before gets a row again iff the message about it cannot be printed |
| `RasTable.Generate` | scripts/rasTableGen.py:34-43 | A fresh generator writes exactly the events that fit |
| `RasTable.TableUnique` | scripts/rasTableGen.py:45-100 | The table is determined by the events |
| `RasPipeline.Pipeline` | scripts/rasGen.py:289-296 | From events as in `RoundTrip`, without a comma in the count, through file and sorter to the table: what is read back from the table are the recovered events that fit, in id order |
| `Opcodes.FormExact` | bgpm/include/types.h:295-330 | For each of the eighteen forms, a word passes code and mask iff its major opcode is the one given and the bits of the form's extended opcode, bit 31 excepted, are those given |
| `Opcodes.MaskNumbers` | bgpm/include/types.h:295-330 | The mask of each form as a number |
| `Opcodes.CodeNumbers` | bgpm/include/types.h:292-330 | The code of each form from its opcodes |
| `Opcodes.MinorNumbers` | bgpm/include/types.h:295-330 | Which bits of a word each form compares with its extended opcode |
| `Opcodes.MatchExact` | bgpm/include/types.h:292-330 | The same for any extended opcode of s bits ending at bit b within bits 21 to 30, also with the mask made from 0x7FF |
| `Opcodes.MatchExact31` | bgpm/include/types.h:293-328 | The same for any extended opcode of 2 to 11 bits that reaches bit 31 |
| `Opcodes.MajorExact` | bgpm/include/types.h:297-304 | Forms without extended opcode match on the major opcode |

## Left out

- Linearizability.RunsAreLinearizable: the answer of `RsvL1pMode` with the flag stored first is excepted, because it is not always the linearized one; `L1pMode.L1pTruthfulIff` gives the exact condition.
- CoreReservationsModel.CoreReservations.RsvL1pMode: the methods of the class do not model the lock; interleavings are the subject of `Protocol`.
- RasRoundTrip.RoundTrip: the reader of elements is a small one that knows double quotes, ASCII names and sections 2.2, 3.1 and 3.3.3 of XML 1.0 for the values, and nothing else of XML; the copyright prolog is any lines that do not hold the start pattern; the line number is carried as text.
- RasEvents.WriteEvents: what a run that ends early leaves in the file, and the text of the warnings.
- Weak memory: sequential consistency is assumed; fences and the code of the lock are not part of this model.
- Overflow of the 32-bit counts and the widths of the 8- and 16-bit value fields: counts and values are integers.
- The upper bits of allocMask that no enumerator names, and the debug fields preRsvSignals and preRsvCtrs.
- Event-set classes: only the order of their calls on the record is modelled, as the condition under which clients step.
- Removal of a leading 0x from ids, the individual checks of RasEventValidator, walking of directories, printing of warnings, and rasDocGen.py.
- Opcodes.FormExact: the major opcode given has six bits, as every opcode has; the key the hardware makes of an instruction is taken to be the major opcode and bits 21 to 30.
