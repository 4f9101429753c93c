# tracep, modelled and verified

tracep watches processes, network connections and DNS queries. It exists twice:
in Go (`internal/`), which leans on maps and slices, and in C (`c/`), which builds
the same things by hand out of fixed arrays, probing tables, pointer chains and
bounded buffers. This project models both forms and proves

* that each C structure is the Go structure it stands for (a tombstone-free
  probing table, a table of spliced chains, slot arrays, an insert-only table
  that may run full, a bounded name buffer, a pool of quoting slots);
* that each decoder is the inverse of the encoding it reads (compressed DNS
  names and messages, nested netlink attributes, netlink batches, BPF records,
  shell command lines, lsof listings, printed addresses), exactly where it is;
* that the event-driven databases say the truth over whole runs (process
  depths, exec and exit lines, CLOSED lines, matched DNS queries, cached
  socket owners, at-most-once connection lines).

The code that works in place is modelled in place: classes over arrays, linked
nodes and map fields, with loops and invariants. Each such method is proved
against a function of the old state, and the properties are proved of those
functions.

## Modules

| file | part of the program |
|---|---|
| `Bytes`, `Collections`, `SlotArray` | integers in byte strings; small facts about collections; arrays indexed by a small number |
| `ProbeSpec`, `ProbeTable` | the C process tables |
| `Ancestry`, `ExecEvents`, `ExecRun`, `ExecTracer`, `ExecDispatch` | the Linux exec tracer: depth, handlers, runs in a changing process tree, receive buffers |
| `DarwinExec`, `DarwinLaws`, `DarwinTracer` | the macOS exec tracer: snapshot diffing, what it owes each process, and the C sweep |
| `Ledger` | what databases of opened and closed entries have in common |
| `ShellLexer`, `ShellQuote`, `QuotePool` | quoting of command lines, and a POSIX word lexer to read them back |
| `DnsName`, `DnsMessage`, `DnsLayout`, `DnsTruncation`, `DnsPort`, `DnsPending` | the DNS parsers and the matching of responses to queries |
| `Netlink`, `Conntrack`, `ConnEvents`, `ConnLaws`, `ChainTable`, `ConnTracker` | conntrack attributes, handlers and databases, and what they owe each message |
| `Framing`, `NlFraming`, `ConnDispatch`, `BpfFraming` | several records in one buffer |
| `ProcCache`, `ProcLookup`, `UdpListing` | which process owns a UDP port |
| `HostPort`, `LsofScan`, `SeenConns` | the macOS connection tracer |

Hash functions and capacities are arbitrary: nothing depends on the constants
16384, 1024 buckets or on the Knuth and FNV mixers. I/O is replaced by inputs:
byte buffers, pid snapshots, a parent function, a list of reads, clock readings,
listings as a function of time. Byte strings are sequences of bytes, so DNS
names and quoted words are compared byte by byte.

## Findings

Where the code does less than one might expect, there is an input on which it
does and the exact condition.

* The Linux depth cache survives the death of a process if and only if no
  recorded process hangs below it without a watched root between, or the reaper
  is as far from its nearest root as the dead process was
  (`ExecRun.DeathSoundIffHarmless`, `ExecRun.ReparentingMakesDepthStale`).
* Go's `shQuote` goes rune by rune, so a stray byte in an unsafe word becomes
  U+FFFD. A Go command line reads back if and only if every word is safe or
  valid UTF-8 (`ShellQuote.StrayByteIsLost`); a C one if and only if every word
  fits its slot.
* A word that opens with a tilde is printed without quotes, though a shell would
  expand it (`ShellQuote.TildeStaysBare`).
* The C sweep leaves exactly the snapshot if and only if at most 1024 processes
  vanished in the tick.
* Go dates a cached owner and a listing after the work, C before it. So C's
  answers are always under four seconds old, while Go's bound is four seconds
  plus twice the length of a lookup, and is attained: four seconds are kept if
  and only if lookups take no time (`ProcCache.PromptIffInstant`).
* Go and C decide differently about a well-formed message of a kind they handle
  if and only if its source is an IPv4 address in sixteen-byte form and exactly one of `-4` and `-6` is given
  (`ConnEvents.PortsDisagree`).
* Go and C read a repeated netlink attribute alike if and only if its last
  occurrence, which Go takes, and its first, which C takes, say the same.
* The name decoder runs for ever if and only if it comes back to an offset it
  has been at (`DnsName.SelfPointerIsEndless`), the message parser if and only
  if some name it reads does (`DnsMessage.SelfQuestionHangs`); pointers to prior
  offsets never do.
* For the name in a CNAME, NS, PTR, MX or SRV record Go reads as many bytes in
  front of the record's data as the data is long; only C reads at the data. The
  two agree on a record if and only if the same names are written at both places
  (`DnsMessage.AnswerLostInGo`), Go panics if and only if it reaches a name
  record with more data than there is in front of it
  (`DnsMessage.LongCnamePanics`), and a cut message keeps the answers of its
  whole records if and only if no name of theirs is read past the cut
  (`DnsTruncation.CutLosesFirstAnswerInGo`).
* On macOS an exec line is left out when neither command line nor path can be
  read, the exit line never. The lines about a pid stay in step with the
  database if and only if every traced arrival of it could be described
  (`DarwinExec.ExitWithoutExec`).
* C dates a DNS query after looking up its owner, Go before: latencies differ by
  the length of the lookup, and nothing else does.
* The C walk over a conntrack buffer finishes if and only if it meets no header
  that declares 2^31 bytes or more (`ConnDispatch.StrayExists`).

## Model

| member | source | states |
|---|---|---|
| ProbeSpec.ProbeDecidesMembership | c/exec.c:79-87 | a probe that ends on a free slot, or comes full circle, proves the key absent; one that ends on an entry has found the key's value in the map the table stands for |
| ProbeSpec.InsertAtProbe | c/exec.c:91-108 | claiming the free slot a probe stopped at keeps every probe path unbroken and adds exactly one binding |
| ProbeSpec.ProbeOnValid | c/exec.c:91-108 | a probe comes back empty-handed exactly when the key is absent and the table is full |
| ProbeSpec.CountIsSize | c/exec.c:71 | the length counter is the number of keys of the map |
| ProbeSpec.ClearStartsRepair | c/exec.c:111-124 | after clearing a slot, paths are broken at that hole only |
| ProbeSpec.RepairTurn | c/exec.c:125-139 | one reinsertion lands in the hole exactly when the hole is on the entry's path and else in its own slot; it always finds room, loses and doubles nothing, and lowers the measure (total displacement, then distance to the hole), so the loop ends even in a full table |
| ProbeSpec.RepairDone | c/exec.c:125-128 | meeting a free slot means every probe path is whole again |
| ProbeTable.Table.Find | c/exec.c:79-87 | returns the slot holding the key with the map's value, -1 exactly when the key is absent |
| ProbeTable.Table.Get | c/exec.c:91-108 | finds or creates; fails exactly when the table is full and the key absent; also says what it does while the table is under repair |
| ProbeTable.Table.Store | c/exec.c:612-633 | assigning through a returned pointer changes that key's value only |
| ProbeTable.Table.Delete | c/exec.c:111-140 | terminates from every valid table, restores validity, and removes exactly the one binding |
| ProbeTable.Table.Replay | c/exec.c:79-140 | any sequence of find, get, put and delete calls leaves the contents and gives the answers that a plain map of bounded size does |
| Ancestry.DepthUnique | internal/exectrace/exec_linux.go:467-499 | the from-scratch depth (least number of parent steps to a watch root less one, -1 without one) is unique |
| Ancestry.PidDepthIsDepth | internal/exectrace/exec_linux.go:467-499 | with a true cache, the cached recursion returns the from-scratch depth whatever part of the chain the cache short-cuts |
| Ancestry.DarwinDepthIsPidDepth | internal/exectrace/exec_darwin.go:341-367 | entries of unknown depth and self-parenting processes change nothing: the macOS recursion is the Linux one on the known entries |
| Ancestry.IsDescendant | internal/nettrace/net.go:937-956 | terminates for every parent function, cycles included, and is true exactly when a proper ancestor reached through pids above 1 is watched |
| Ancestry.IsDescendantC | c/net.c:1230-1245 | is true exactly when such an ancestor stands at most 256 steps up |
| Ancestry.NoWayOut | internal/nettrace/net.go:937-956 | a trail that ends or runs into itself holds no way to a watched ancestor |
| Ancestry.WatchedIffDepth | internal/nettrace/net.go:925-935 | where pid 1 tops an acyclic chain and the cache is sound, the connection tracer watches exactly the processes to which the exec tracer gives a depth |
| ExecEvents.ExitLinesReportLives | internal/exectrace/exec_linux.go:298-372 | over every history the exit lines are exactly the completed lives, in order, each with the depth and command recorded by the latest exec of its pid, the time from that exec to the exit event, and the status in that event |
| ExecEvents.OpeningsAreExecs | internal/exectrace/exec_linux.go:298-329 | every opening of a history comes from an exec event of that very pid and carries its time and first argument |
| ExecEvents.WaitStatusReadsBack | internal/exectrace/exec_linux.go:352-361 | the status printed is the exit code or the signal, core dumped or not, that the kernel's exit code stands for |
| ExecEvents.ExitLaw | internal/exectrace/exec_linux.go:331-372 | the exit of a traced process removes its entry and, if exits are shown, prints recorded depth and command, the time since an exec not later than it, and how it ended; any other exit changes and prints nothing |
| ExecRun.StepKeepsSound | internal/exectrace/exec_linux.go:298-347 | every step of a run, fork, death, exec event or exit event in any order, leaves all recorded depths true, except exactly the deaths that are not harmless |
| ExecRun.RunsSoundIffDeathsHarmless | internal/exectrace/exec_linux.go:298-347 | from an empty database, all recorded depths are true at every moment up to some state if and only if every death up to there is harmless |
| ExecRun.RunsStaySound | internal/exectrace/exec_linux.go:298-347 | as long as they are, the cached recursion answers as from scratch for every live process |
| ExecRun.TracerDepthIsTrue | internal/exectrace/exec_linux.go:467-499 | in a sound state the recursion gives any process whose chain ends its true depth |
| ExecRun.ExecLaw | internal/exectrace/exec_linux.go:298-329 | in a sound state an exec is recorded if and only if parent steps lead to a watched root: with the from-scratch depth, its time and its first argument, and printed at that depth if it can be described; otherwise nothing changes |
| ExecRun.RunsRecordExecs | internal/exectrace/exec_linux.go:298-329 | so for every exec event of every run with harmless deaths |
| ExecRun.ForkKeepsTree | internal/exectrace/exec_linux.go:467-499 | a fork keeps the process tree a tree |
| ExecRun.DeathSoundIffHarmless | internal/exectrace/exec_linux.go:467-499 | a death leaves every recorded depth true if and only if no recorded process hangs below it without a root between, or the reaper is as far from its nearest root as the dead process was |
| ExecRun.ReparentingMakesDepthStale | internal/exectrace/exec_linux.go:467-499 | a death that is not harmless: a concrete tree and database, after which recorded and computed depths are wrong |
| ExecTracer.GoTracer.HandleExec | internal/exectrace/exec_linux.go:298-329 | a pid with a depth is (re)opened with that depth, time and command, after a line for the entry it replaces when exits are shown, and printed if it can be described; a short event or a pid without a depth changes nothing |
| ExecTracer.GoTracer.HandleExit | internal/exectrace/exec_linux.go:331-372 | a traced pid is closed and, when exits are shown, printed with its recorded depth, command and run time; an untraced or short event prints nothing |
| ExecTracer.CTracer.Depth | c/exec.c:449-466 | the recursion over the probing table returns the depth the recursion over the map returns |
| ExecTracer.CTracer.HandleExec | c/exec.c:612-633 | over the probing table: the same change of the database and the same lines as Go, whatever slots move, whenever the resulting database fits the table |
| ExecTracer.CTracer.HandleExit | c/exec.c:635-690 | over the probing table: the same change of the database and the same line as Go; the line is made from the entry saved before deletion relocates slots |
| NlFraming.UnpaddedReads | c/exec.c:730-738 | the front of a buffer reads as the message laid out there, whatever follows |
| NlFraming.BatchReadsBack | c/net.c:1456-1506 | a batch of messages is read back in full and in order, and whatever follows it, a malformed message for example, takes nothing away |
| NlFraming.LastMayBeUnpadded | c/exec.c:755-758 | the last message of a buffer may lack its padding |
| Bytes.ByteOrder | internal/exectrace/exec_linux.go:279-286 | integers of netlink and capture headers have their low byte first, those of DNS messages and conntrack attributes their high byte |
| ExecDispatch.NoticeReadsBack | internal/exectrace/exec_linux.go:273-292 | from the process connector, exec and exit announcements survive the encoding with time stamp and data; whatever else, or from elsewhere, announces nothing |
| ExecDispatch.BufferReadsBack | c/exec.c:730-758 | the events of a buffer are exactly those the kernel announced, in order, even in front of a malformed message |
| ExecDispatch.DispatchNlMsg | c/exec.c:730-758 | the loop over offsets performs exactly the announced exec and exit events on the C table, in order, each with what is read at its own time |
| DarwinExec.KeysAreSnapshot | internal/exectrace/exec_darwin.go:510-570 | after a tick the keys are the snapshot exactly when all that vanished was removed; entries of survivors are untouched |
| DarwinExec.RunsAlternate | internal/exectrace/exec_darwin.go:510-570 | over every run that shows exits, the calls that print about a pid strictly alternate, exec first, and a pid is between the two exactly while it is traced |
| DarwinExec.LinesAlternateIffNotOrphaned | internal/exectrace/exec_darwin.go:402-408 | the lines themselves alternate if and only if no exit of the pid was printed without its exec, which is printed only if a command line or path can be read |
| DarwinExec.LinesInStepIffDescribed | internal/exectrace/exec_darwin.go:402-408 | they are in step with the database if and only if every traced arrival of the pid could be described |
| DarwinExec.ExitWithoutExec | internal/exectrace/exec_darwin.go:402-408 | a run of two polls that prints an exit line without an exec line |
| DarwinExec.HidingExitsKeepsStarts | internal/exectrace/exec_darwin.go:449-452 | without the exit flag a run keeps the same database and makes exactly the exec calls of the run with it |
| DarwinExec.SeededStaySilent | internal/exectrace/exec_darwin.go:479-570 | nothing is ever printed about a process found at start, not even when it vanishes, until its pid has left a snapshot and come back in a later one |
| DarwinExec.ArrivalsTrueDepths | internal/exectrace/exec_darwin.go:341-367 | where the recorded ancestors of what is listed are true, arrivals are recorded and reported at their true depth |
| DarwinExec.RunsReportTrueDepths | internal/exectrace/exec_darwin.go:510-570 | over every run in which a pid that stays listed keeps its depth, every exec is reported with the depth of its process in that poll's process tree |
| DarwinLaws.ArriveLaw | internal/exectrace/exec_darwin.go:523-553 | where its recorded ancestors are true, a process new to the database is recorded at its from-scratch depth if it can be inspected and at -1 if not, and its exec is reported, at that depth, if and only if parent steps lead to a watched root; a known one changes nothing |
| DarwinLaws.ArrivalsLaw | internal/exectrace/exec_darwin.go:517-553 | so for every new process of a snapshot, and no call is made about any other |
| DarwinLaws.RunsRecordArrivals | internal/exectrace/exec_darwin.go:510-570 | so in every poll of every run in which a pid that stays listed keeps its depth |
| DarwinLaws.RunsReportExits | internal/exectrace/exec_darwin.go:555-569 | over every run the exit calls of a poll are exactly those of the traced processes that leave in it, if exits are shown, each with the depth of the exec call it closes and the command read then |
| DarwinTracer.GoPoller.SeedDB | internal/exectrace/exec_darwin.go:479-500 | seeding records exactly the processes that can be inspected, all of unknown depth |
| DarwinTracer.GoPoller.Scan | internal/exectrace/exec_darwin.go:510-570 | a scan is a tick, and leaves exactly the snapshot |
| DarwinTracer.GoPoller.RemoveGone | internal/exectrace/exec_darwin.go:557-563 | iterating in any order, removes and collects once each exactly the entries not in the snapshot |
| DarwinTracer.CPoller.SeedMacDB | c/exec.c:1423-1446 | records every process found, inspectable or not |
| DarwinTracer.CPoller.Depth | c/exec.c:1262-1275 | the recursion over the table is the recursion over the map |
| DarwinTracer.CPoller.StillAlive | c/exec.c:1503-1507 | bitmap and confirming scan together say exactly whether the pid is in the snapshot |
| DarwinTracer.CPoller.CollectGoners | c/exec.c:1489-1509 | collects only vanished pids, each once, and all of them unless the array of 1024 runs full |
| DarwinTracer.CPoller.RemoveGoners | c/exec.c:1510-1515 | removing collected pids one by one, while deletion relocates slots, removes exactly those and reports each once |
| DarwinTracer.CPoller.ScanMacDB | c/exec.c:1452-1517 | a C tick is a tick; it leaves exactly the snapshot if and only if at most 1024 processes vanished |
| DarwinTracer.CappedCollection | c/exec.c:1498-1509 | a capped collection of distinct members is the whole set exactly when the set is within the cap |
| DarwinTracer.OwnEntryIrrelevant | c/exec.c:1466-1480 | creating the entry before computing its depth does not affect the depth |
| Ledger.HoldsLastOpened | internal/nettrace/net.go:477-487 | after any run the database holds exactly the keys whose last event opened them, with that event's value |
| Ledger.ClosingsAreLives | internal/nettrace/net.go:530-546 | the lines a run prints are exactly the completed lives, in the order of their closing, no opening reported twice |
| ShellQuote.ShQuote | internal/exectrace/exec_linux.go:607-634 | returns the word that the reading theorems are about: quotes for the empty string, the string itself if safe, else the pieces of its runes between quotes |
| ShellQuote.SanitizeKeepsExactlyValid | internal/exectrace/exec_linux.go:622-633 | going rune by rune leaves a string unchanged exactly when it is valid UTF-8 |
| ShellQuote.CommandLineReadsBack | internal/exectrace/exec_linux.go:411-428 | for every argv the printed line splits into as many words, each unchanged if safe or valid UTF-8; the line reads back exactly when all are |
| ShellQuote.StrayByteIsLost | internal/exectrace/exec_linux.go:622-633 | a concrete word with a stray byte reads back as another word |
| ShellQuote.BareIffInert | internal/exectrace/exec_linux.go:611-620 | a word is printed as it is if and only if it is not empty and holds no blank or control byte, no quote or backslash, and none of the characters of patterns, expansions, redirections and lists |
| ShellQuote.TildeStaysBare | internal/exectrace/exec_linux.go:611-620 | a word that opens with a tilde is printed bare when the rest may be |
| QuotePool.SlotTextIsFullIffFits | c/common.c:42-65 | the slot holds the full quoted word exactly when it fits; a quoted form of at most 1017 bytes always does; the text never exceeds 1023 bytes |
| QuotePool.PortsAgree | c/common.c:42-65 | for safe or valid UTF-8 words, C and Go write the same text exactly when it fits |
| QuotePool.SlotReadsAsPrefix | c/common.c:56-64 | however long the word, the slot reads back as one word, a prefix of it |
| QuotePool.CCommandLineReadsBack | c/common.c:42-65 | a C command line splits into as many words, each a prefix of the one given, and into exactly argv, arbitrary bytes included, if and only if every word fits |
| QuotePool.Pool.Quote | c/common.c:42-65 | writes the next slot with the terminated text and nothing outside that slot |
| QuotePool.SlotsRotate | c/common.c:43-45 | the next fifteen calls write to other slots |
| DnsName.Read | internal/dnstrace/dns.go:119-158 | whenever the walk ends, the loop returns its joined labels and the offset after the root byte or the first pointer, or fails where it is malformed |
| DnsName.EndlessIffCycles | internal/dnstrace/dns.go:119-158 | the loop runs for ever if and only if it comes back to an offset it has been at |
| DnsName.SelfPointerIsEndless | internal/dnstrace/dns.go:136-145 | a two-byte message on which it does |
| DnsName.EndlessIsForever | internal/dnstrace/dns.go:119-158 | a walk still going after one turn more than there are bytes goes on for ever; any shorter answer is the answer |
| DnsName.ReadInvertsWriting | internal/dnstrace/dns.go:119-158 | reading a written name, labels then root or pointer, returns exactly its labels and the offset past its root byte or first pointer, beyond the start and within the message |
| DnsName.PriorPointersEnd | internal/dnstrace/dns.go:119-158 | with pointers only to prior offsets the walk ends |
| DnsName.AcceptedIsWritten | internal/dnstrace/dns.go:119-158 | whatever the loop accepts, on any message, is the encoding of some name |
| DnsName.ReadsExactlyTheWritten | internal/dnstrace/dns.go:119-158 | so on every message a name is returned if and only if it is written there |
| DnsMessage.ParseDNS | internal/dnstrace/dns.go:21-114 | rejects a short header or a malformed question, stops quietly at the first malformed record, panics where a name would be read in front of the message, and otherwise has every answer the section-by-section reading has |
| DnsMessage.HangsIffSomeNameCycles | internal/dnstrace/dns.go:21-114 | each parser runs for ever if and only if one of the names it comes to read, at its own offsets, cycles |
| DnsMessage.SelfQuestionHangs | internal/dnstrace/dns.go:34-40 | a fourteen-byte message on which both do |
| DnsMessage.PanicsIffOverlong | internal/dnstrace/dns.go:69-109 | the Go parser panics if and only if it reaches a name record with more data than there is in front of its name |
| DnsMessage.LongCnamePanics | internal/dnstrace/dns.go:69-85 | a message on which it does, and which C accepts |
| DnsMessage.CNeverPanics | c/dns.c:154-180 | C reads no name in front of the message |
| DnsMessage.TextIsSpelled | internal/dnstrace/dns.go:119-158 | reading at an offset gives a text if and only if a name with that text is written there |
| DnsMessage.RecordsReadAlike | c/dns.c:164-175 | Go and C give the same answers for a record if and only if it holds no name, or the same names are written at its data and as far in front of it as it is long |
| DnsMessage.MessagesReadAlike | c/dns.c:139-182 | on a message that neither gets stuck on, Go and C give the same answers record by record if and only if all its records are so |
| DnsMessage.RejectedAlike | c/dns.c:139-153 | Go and C reject the same messages |
| DnsMessage.AnswerLostInGo | internal/dnstrace/dns.go:69-85 | a message of one question and one CNAME that C reports and Go does not |
| DnsMessage.ParseTXT | internal/dnstrace/dns.go:161-173 | the re-slicing loop returns the character strings in front of the first short one |
| DnsMessage.TxtRoundTrip | internal/dnstrace/dns.go:161-173 | TXT data reads back as the strings written |
| DnsLayout.MessageReadsBack | c/dns.c:139-182 | a message laid out from questions and records parses to the id, flags, first question and every record's values in order, compression undone, each record type giving the answer of its own kind with its name behind the two bytes of an MX preference or the six of an SRV's fixed fields: in C always, in Go if every name is also where Go looks for it |
| DnsLayout.GoAnswersReadBack | internal/dnstrace/dns.go:69-109 | Go reads back exactly the records without a name and those whose name is also written as far in front of the data as the data is long |
| DnsTruncation.ReadNameCut | internal/dnstrace/dns.go:119-158 | a name reads the same after a cut exactly when none of its bytes is cut away, and is malformed otherwise |
| DnsTruncation.TruncatedAnswers | internal/dnstrace/dns.go:21-114 | a message cut anywhere after its questions parses with the same id, flags and question, and with exactly the answers of its whole records but for names read past the cut; for either parser |
| DnsTruncation.TruncationKeepsAllIffNoneLost | internal/dnstrace/dns.go:52-111 | it keeps all the answers of its whole records if and only if no name of theirs is read past the cut |
| DnsTruncation.TruncationKeepsWholeRecords | c/dns.c:139-182 | where every name is read within its record, the answers left are those of the whole records, a prefix |
| DnsTruncation.CutLosesFirstAnswerInGo | internal/dnstrace/dns.go:69-85 | a message on which the loss of the last byte takes Go's first answer and leaves its second |
| DnsTruncation.WrittenNamesContained | internal/dnstrace/dns.go:119-158 | a name whose every part ends by some place reads no further than there |
| DnsTruncation.LaidIsWellFormed | c/dns.c:139-182 | in a laid-out message whose names stay within their section or record, C reads every name within its record |
| DnsTruncation.LaidAndCut | c/dns.c:139-182 | cut anywhere after its questions, C parses it to exactly what was laid out, with the values of its first whole records |
| DnsPort.ReadNameC | c/dns.c:106-128 | same success and end as Go; the buffer holds the terminated first bytes of Go's joined name |
| DnsPort.ParseDnsC | c/dns.c:139-182 | accepts the messages whose C reading accepts, with its id, flags and question and the first sixteen of its answers, each as a 256-byte C string holds it |
| DnsPending.ReportsMatchQueries | internal/dnstrace/main.go:187-231 | over every packet sequence, the reports are exactly the completed lives among the queries and responses, one for each query answered, in order; for either port |
| DnsPending.RunsReportLaw | internal/dnstrace/main.go:201-230 | over every packet sequence, a packet gives a report if and only if it is a response from port 53, the last query or response of its id before it is a query towards port 53, and that query is wanted: one report, with that query's name, type and owner, the answers and code of the response, and the time in between; the pending queries are those without a later packet of their id |
| DnsPending.KeptAreThese | internal/dnstrace/main.go:201-218 | what is kept is exactly the packets with header flags below 0x8000 towards port 53 and the others from port 53 |
| DnsPending.PortsReportAlike | c/dns.c:711-725 | over every packet sequence C reports what Go reports but for the latencies, and those too when lookups take no time |
| DnsPending.LatenciesDiffer | c/dns.c:718-719 | a matched query is younger in C by exactly the length of its owner lookup |
| DnsPending.GoLoop.OnPacket | internal/dnstrace/main.go:201-230 | a query towards port 53 replaces the pending one of its id, a response from port 53 takes it out and reports it if wanted, any other packet changes nothing |
| DnsPending.CLoop.OnPacket | c/dns.c:711-725 | over one slot for each id: the same pending queries and reports, dated when the owner is known, no other id touched |
| Netlink.ParseNLAttrs | internal/nettrace/net.go:627-647 | the loop returns the last payload of each type in front of the first malformed header |
| Netlink.ParseNla | c/net.c:877-897 | the C loop fills a table with the first payload of each type below 64 |
| Netlink.ScanReadsBack | internal/nettrace/net.go:627-647 | scanning undoes encoding, with any flag bits, padding, and an unpadded last attribute |
| Netlink.SoleReadsBack | internal/nettrace/net.go:627-647 | both ports read back an attribute that occurs once, wherever it stands |
| Netlink.PortsAgreeOn | c/net.c:877-897 | the ports agree about a type below 64 exactly when its first and last occurrence carry the same payload |
| Netlink.PortsAgree | c/net.c:877-897 | when no type repeats, the C table is Go's map below 64 |
| Conntrack.TupleReadsBack | internal/nettrace/net.go:651-702 | every IPv4 or IPv6 tuple, encoded three levels deep in any order with any flags and other attributes, is returned unchanged by both ports |
| Conntrack.TcpStateReadsBack | internal/nettrace/net.go:704-721 | likewise every TCP state |
| Conntrack.GoParseTuple | internal/nettrace/net.go:651-702 | no tuple without both addresses; sixteen bytes override four; missing ports and protocol are zero: the reading that the round trips are about, over last-wins maps |
| Conntrack.CParseTuple | c/net.c:901-950 | the same reading over first-wins tables |
| Conntrack.GoParseTcpState | internal/nettrace/net.go:704-721 | zero when any of the three levels is missing, else the state that the round trip is about |
| Conntrack.CParseTcpState | c/net.c:952-965 | the same reading over first-wins tables |
| ConnEvents.DatabaseIsReplay | internal/nettrace/net.go:409-546 | after every run the database is the replay of the accepted NEWs and the DESTROYs, which depend on the messages alone |
| ConnEvents.ClosedLinesReportLives | internal/nettrace/net.go:530-546 | over every run the CLOSED lines are exactly the completed lives closed by a displayed DESTROY of a watched process, each with pid, command, direction and start of the latest accepted NEW |
| ConnEvents.StatesAreLatest | internal/nettrace/net.go:494-528 | the TCP state on record is that of the latest NEW or displayed UPDATE since the connection was opened |
| ConnEvents.PortsDecideAlike | c/net.c:1463-1490 | on well-formed messages the ports take the same action except, exactly, for sixteen-byte IPv4 sources under one address filter |
| ConnEvents.PortsDisagree | c/net.c:1475-1478 | a well-formed message on which they differ under -4 |
| ConnLaws.MessageLaw | internal/nettrace/net.go:414-460 | on the messages the kernel sends, for either port and from kind, create bit and tuple alone: kind 256 with the bit opens and prints a connection that passes the filters; without it, and if updates are shown, it prints the state with the owner on record and sets it; kind 258 always removes the connection, and prints owner and duration if and only if closes are shown, it was known and its owner is watched; nothing else does anything |
| ConnLaws.CreateBit | internal/nettrace/net.go:441-442 | the bit that counts is 0x400 of the header's flags, whatever the others |
| ConnLaws.FamilyLaw | internal/nettrace/net.go:428-435 | the address filters take four bytes for IPv4; of sixteen, Go those with the mapped prefix and C none |
| ConnLaws.RunsLaw | internal/nettrace/net.go:409-546 | over every run of such messages, for either port: the connections on record are those opened since they were last closed, and the CLOSED lines are the completed lives of owners watched at their end, if closes are shown, with the owner found at opening and the time in between |
| ConnLaws.BuffersLaw | c/net.c:1456-1506 | so for what arrives in buffers at the C tracer |
| ConnTracker.GoTracker.ProcessMsg | internal/nettrace/net.go:414-460 | a message that is short, of another kind, without a tuple, filtered or neither TCP nor UDP changes and prints nothing; any other has the effect of its kind and flags, a hidden DESTROY still cleaning up |
| ConnTracker.GoTracker.HandleNew | internal/nettrace/net.go:465-492 | a NEW of an unwatched process, or an inbound one under -O, changes nothing; any other reopens the connection with its owner, time and state and prints it |
| ConnTracker.GoTracker.HandleUpdate | internal/nettrace/net.go:494-528 | an UPDATE is shown with the owner on record (nobody for an unknown connection) and changes at most the TCP state of that connection |
| ConnTracker.GoTracker.HandleDestroy | internal/nettrace/net.go:530-546 | a DESTROY removes the connection, printing owner and duration only for a known connection of a watched process |
| ConnTracker.CTracker.ProcessMsg | c/net.c:1462-1498 | over hashed chains: the same new database and lines for every message |
| ConnTracker.CTracker.HandleNew | c/net.c:1370-1396 | over hashed chains: the same new database and line, whether a node is reused or added |
| ConnTracker.CTracker.HandleUpdate | c/net.c:1398-1426 | over hashed chains: the same line, and the state changes through a node looked up afresh |
| ConnTracker.CTracker.HandleDestroy | c/net.c:1428-1451 | over hashed chains: the same removal, by splice, and the same line, from values copied before the node goes |
| ConnDispatch.ProcessNlMsgs | c/net.c:1456-1506 | the loop performs one handler call for each message, in order, up to a header that declares 2^31 bytes or more; it finishes if and only if it meets none, and else steps by nothing or past the buffer |
| ConnDispatch.StrayHeader | c/net.c:1457-1504 | such a header passes the length check as a negative int, has its message passed over, and is followed by no step or by one beyond the buffer |
| ConnDispatch.StrayExists | c/net.c:1457-1460 | a sixteen-byte buffer that is such a header |
| ConnDispatch.BatchesDoNotStray | c/net.c:1456-1506 | a batch of whole messages has none |
| ConnDispatch.DeliveryContinuesRun | c/net.c:1456-1506 | delivering a buffer continues a run, so what holds of runs holds of what arrives buffer by buffer |
| ChainTable.Chain.Find | c/net.c:653-657 | returns the node with the key's value, null exactly when the key is absent |
| ChainTable.Chain.Put | c/net.c:658-668 | reuses the node or puts a new one in front; the bucket's map gains or changes one binding |
| ChainTable.Chain.Splice | c/net.c:671-677 | redirecting one pointer yields the list without that node |
| ChainTable.Chain.Remove | c/net.c:669-681 | the bucket's map loses exactly the key |
| ChainTable.Table.Get | c/net.c:653-657 | the whole table looks up as its map does |
| ChainTable.Table.Put | c/net.c:658-668 | the whole table's map changes at one key, other buckets untouched |
| ChainTable.Table.Delete | c/net.c:669-681 | the whole table's map loses exactly the key |
| ProcCache.AnswersAreRecent | internal/dnstrace/proc.go:33-54 | every answer of every run was in a listing taken less than four seconds, and twice the longest lookup, before |
| ProcCache.AnswersUnderFourSeconds | internal/dnstrace/proc_darwin.go:41-52 | with the clock read once per lookup, in a listing less than four seconds old |
| ProcCache.BoundIsAttained | internal/dnstrace/proc_darwin.go:41-52 | for every length of lookups there is a run whose last answer was only in a listing as old as that bound allows |
| ProcCache.PromptIffInstant | internal/dnstrace/proc.go:33-54 | four seconds are kept in every run of lookups no longer than d if and only if d is zero |
| ProcCache.SweepIsInvisible | internal/dnstrace/proc.go:44-52 | over every run the sweep changes no answer |
| ProcCache.AnswersAreRecentC | c/dns.c:495-505 | in C the bound is four seconds however long a lookup takes |
| ProcCache.PortsAnswerAlike | c/dns.c:495-505 | with the clock read once per lookup and no owner with pid 0, C and Go answer alike in every run |
| ProcCache.YoungEntriesAnswer | internal/dnstrace/proc.go:37-39 | an answer less than two seconds old is given again and nothing changes |
| ProcCache.LookupKeepsFewOrYoung | internal/dnstrace/proc.go:44-52 | a lookup that changes the cache leaves at most 1024 entries, or none over eight seconds old |
| ProcCache.FirstAnswers | c/dns.c:465-480 | the first answer is what the listing taken for it says, in C only for owners with a positive pid, and else nobody |
| ProcLookup.GoCache.Lookup | internal/dnstrace/proc.go:33-54 | a fresh entry answers without a listing; otherwise the answer, the stored entry and the swept cache are those of the run theorems |
| ProcLookup.GoCache.SweepOut | internal/dnstrace/proc.go:47-51 | deleting while iterating in any order leaves exactly the entries at most eight seconds old |
| ProcLookup.CCache.Lookup | c/dns.c:495-505 | over one slot for each port: the answer, cache and listing of the run theorems, no other port touched |
| UdpListing.ListingReadsBack | internal/dnstrace/proc_darwin.go:76-114 | reading a printed listing gives each port to the process under which it is listed last |
| UdpListing.OwnPort | internal/dnstrace/proc_darwin.go:95-111 | a socket is listed under its own port even when its name goes on with an arrow and a remote port |
| UdpListing.ClaimedIsOwned | internal/dnstrace/proc_darwin.go:107-111 | a port claimed by one of a process's sockets goes to that process |
| UdpListing.UnclaimedStays | internal/dnstrace/proc_darwin.go:107-111 | a port that none of its sockets claims keeps its owner |
| UdpListing.ScanUdpSockets | internal/dnstrace/proc_darwin.go:65-115 | the loop gives the listing that these theorems are about |
| BpfFraming.NextRecord | internal/dnstrace/capture_darwin.go:167-184 | takes the first frame, leaves strictly less, and fails exactly when no frame is left |
| BpfFraming.UnpaddedReads | internal/dnstrace/capture_darwin_test.go:14-24 | a record laid out as the kernel does reads as its frame and the distance to the next |
| BpfFraming.BufferReadsBack | internal/dnstrace/capture_darwin.go:156-184 | splitting a buffer of word-aligned records, the last padded or not, returns exactly the frames in order |
| BpfFraming.Capture.Next | internal/dnstrace/capture_darwin.go:189-211 | each call delivers the first of all frames and errors to come and keeps the rest; it blocks only when there is none |
| BpfFraming.EveryFrameOnce | internal/dnstrace/capture_darwin.go:189-211 | across reads every frame of every buffer is delivered once, in order |
| HostPort.HostPortReadsBack | internal/nettrace/net_darwin.go:236-262 | address and port survive joining and splitting exactly when the address is empty, or has a colon and no bracket-colon, or has no colon, opens with no bracket and is not a star |
| HostPort.LiteralsAreReadable | internal/nettrace/net_darwin.go:307-315 | every wildcard, IPv4 and IPv6 literal survives |
| HostPort.SplitUndoesArrow | internal/nettrace/net_darwin.go:227-232 | a connection name splits into its halves exactly when the left half holds no arrow |
| HostPort.AtoiOfFormat | internal/nettrace/net_darwin.go:247 | a printed port is read back |
| HostPort.PortsSplitAlike | c/net.c:123-143 | C splits a text as Go does if and only if the address fits its buffer and the port text is a number or has none in front |
| HostPort.FormsByExample | internal/nettrace/net_darwin.go:307-315 | how a wildcard, an IPv4 and an IPv6 endpoint are printed |
| HostPort.NumbersReadAlike | c/net.c:135-142 | the two number readings agree on every number of int range, and otherwise exactly if C finds no number but 0 in front |
| LsofScan.ListingReadsBack | internal/nettrace/net_darwin.go:155-218 | whatever was read before, each socket's row carries its own process, user and protocol; descriptors that are not sockets give none |
| LsofScan.ConnectionKeyed | internal/nettrace/net_darwin.go:193-206 | a connection named by two printed endpoints is keyed by them |
| LsofScan.SocketRow | internal/nettrace/net_darwin.go:184-216 | a socket named by its printed endpoints gives one row, with both of them and the process it is listed under, unless both ports are zero; the seeding scan keeps that one too |
| LsofScan.WildcardRow | internal/nettrace/net_darwin.go:193-198 | a socket bound to nothing gives a row only when seeding |
| LsofScan.OtherRow | internal/nettrace/net_darwin.go:184-190 | an empty name, a path, and a name of a descriptor without protocol give none |
| LsofScan.ScanLines | internal/nettrace/net_darwin.go:155-218 | the loop gives the rows that the listing theorem is about, for the scan and for the seeding scan, which also keeps sockets without ports |
| SeenConns.ScansAreOnePass | internal/nettrace/net_darwin.go:207-216 | where one scan ends and the next begins makes no difference to what is printed and marked |
| SeenConns.PrintedAtMostOnce | c/net.c:65-87 | over every sequence of scans no connection is printed twice and none present at the start is printed, even once the table is full |
| SeenConns.GoPrintsAllNew | internal/nettrace/net_darwin.go:207-216 | with Go's set, exactly the connections not present at the start are printed |
| SeenConns.TableAgreesWhileItFits | c/net.c:65-87 | one pass through the C table equals one through Go's set as long as the set would fit the table |
| SeenConns.RunsAgreeWhileTableFits | c/net.c:65-87 | so do whole runs |
| SeenConns.GoScanner.ScanConns | internal/nettrace/net_darwin.go:207-222 | marks and then prints each connection not seen before, once, in the order listed |
| SeenConns.CScanner.CheckInsert | c/net.c:65-87 | says "new" exactly for an absent key in a table with room, and then holds it; otherwise changes nothing |
| SeenConns.CScanner.Scan | c/net.c:238-308 | over the probing table: marks and, unless seeding, prints each connection that is new and finds room, in the order listed |

## Left out

- Sockets, ioctls, sysctl, `/proc`, child processes, signals, command-line flags, colours, column layout, JSON output: I/O and presentation.
- TLS tracing, CA fetching, packet headers (`internal/dnstrace/packet.go`) and the hexadecimal `/proc/net` readers: they would add only easy members.
- Text of IP addresses: addresses are bytes, and the connection key is any function of the tuple. Nothing is claimed about keys of IPv4 addresses in sixteen-byte form.
- Go's splitting of a netlink batch is done by a library that is not part of this model; Go drops a malformed batch whole, C handles the messages in front of the damage.
- Locks: handlers are modelled one at a time, as the locks make them run. The C `handle_update` looks its entry up twice because it releases the lock; both look-ups are modelled.
- Allocation failure in the C tables. Contents of a free slot that are never read.
- On Linux a pid is taken not to be used again while the database still holds it. On macOS pid reuse inside one poll window is invisible, as the code documents.
- DarwinExec.RunsReportTrueDepths: assumes what the code says it trusts, that a pid which stays listed keeps its depth, and that the parents of listed processes are listed and can be inspected.
- ExecTracer.CTracer.HandleExec: requires that the resulting database fits the table; the C code uses the returned pointer unchecked.
- DarwinTracer.CPoller.ScanMacDB: requires room for the snapshot in the table, for the same reason.
- ExecDispatch.DispatchNlMsg: requires that the database fits the table after each event, for the same reason.
- ConnDispatch.ProcessNlMsgs: stops where the C walk leaves the buffer or no longer moves, since what it does from there on has no meaning in C.
- DnsName.Read: states nothing about a walk that runs for ever, because the loop then returns nothing, and likewise `DnsMessage.ParseDNS`; `DnsName.EndlessIffCycles` says when that is.
- DnsPort.ParseDnsC: address records keep raw bytes, and names with a zero byte are compared up to that byte, as C strings are.
- QuotePool.Pool.Quote: the slot counter is unbounded; C's wraps after 2^31 calls. The word has no zero byte, as a C string has none.
- ProcCache.PortsAnswerAlike: a name longer than C's 63-byte buffer is not cut in the model.
- SeenConns.CScanner.CheckInsert: the key fields are taken to fit their C buffers, as the callers' buffers of the same size ensure; the hash stored beside an entry is left out because equal keys have equal hashes.
- HostPort.PortsSplitAlike: requires that the number C finds fits an int, since `atoi` is undefined beyond.
- LsofScan.ListingReadsBack: lines are given as lists, so a command with a line break in it is not modelled. An empty command leaves no line, and the row keeps the command before it.
- ConnTracker.GoTracker.HandleUpdate: Go changes the entry behind a pointer that the map also holds; the model stores the changed value in the map.
- The reverse-DNS cache, the local-address cache and user names: they only decorate lines.
