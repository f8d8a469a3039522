# Verified models of Cajal's protocols and codecs

Cajal is a single-process monitoring server. Behind its HTTP and socket handlers there are several
self-contained state machines and codecs. The Dafny modules here model them and prove what they are
for, over every input and every run.

`dafny verify dfyconfig.toml` checks the whole project.

Where the source changes state step by step, a class or a loop does the same here, and its contract ties
the new state to a function of the old one. What is worth knowing is then proved about these functions as
lemmas over whole runs.

| modules | component |
|---|---|
| `AgentCommands`, `AgentCommandRuns`, `AgentAnswers` | the collector-agent protocol: command queues with leases, waiters, and what polls, results, timers and clears do |
| `AgentSessions`, `AgentSessionLife`, `AgentRuntime`, `AgentDelivery` | its sessions and presence and how long they live, the request handlers, and what they answer |
| `FlowFormat`, `FlowPackets`, `FlowParser` | the NetFlow v5 / v9 / IPFIX parsers, and a writer of sets, packets and streams |
| `FlowRecords` | which records are given and what is read of each, told by their bytes |
| `FlowStarts`, `FlowLosses` | what the parser makes of v9 packets, told by the sets they hold |
| `Base32` | the base32 codec, with 32-bit wrap-around of its accumulators |
| `TopTalkers`, `TalkerTraffic` | the windowed traffic store with its two pruners, and the traffic that is shown |
| `SyslogFraming` | the TCP syslog framer |
| `AsyncMutex`, `Persistence`, `PersistenceFrames`, `PersistenceSteps`, `PersistenceRuns`, `PersistenceSaved` | the promise-based mutex, saves and flushes as interleaved steps, what the steps keep, and whole runs of them |
| `RateLimit`, `Lockout`, `LockoutHappens`, `InstallLock` | the rate limiter, the account lockout and that it happens, the install lock of the agents |
| `SiteStatus`, `StatusWords`, `EventLog` | the status of sites with its history and alerts, what its words say, the event list and its throttle |
| `SmtpData`, `SmtpReader` | dot-stuffing against RFC 5321, the line reader and the reply reader |
| `ShellWords`, `EnvFile` | quoting for the shell, and the agent's environment file |
| `JsText`, `Shared` | white space, trimming and lower case as JavaScript has them; what several modules use |

Five ideas recur:

* **Logs without mechanism.** `AgentCommands.Legal` says what a history of enqueue, issue and settle
  events may look like without mentioning queues, lease fields or waiters. Every reachable state is
  proved to have a legal log that agrees with its queue and its waiters (`RunKeepsInv`), and single
  settlement, first come first issued, and the bounds on leases follow from legality alone.
* **A reference beside the code.** The flow parsers are proved equal to a walk over byte strings and
  that walk undoes an independent writer; the syslog framer is compared with the runs of the whole
  stream; the pruned traffic store with the history that is never pruned; stuffed mail with a receiver
  written from RFC 5321; quoted words with a reader written from the shell's quoting rules.
* **Laws that do not name the operation.** What an operation answers is also told without it: a poll
  by the log (`PollAnswer`), a session by registrations and uses (`ServedWhileItLives`), a record by its
  bytes (`RecordsAreGiven`), a talker by the ingested records (`RankingShowsTraffic`), a lock by the
  failures before it (`FailuresLock`), a status by pings and flows (`FlowStoresWord`).
* **Exact conditions where a promise fails.** v9 packets, of which the parser skips four bytes too many
  (`V9Parse`, `NewTemplatesAreLost`, `PlainAloneIff`, `PlainHarmlessIff`, `UnknownExporterIsLost`,
  `DataStartIsLost`); the dirty flag (`ClearedFlagIsTrueIff`, `ClearedFlagMayLie`,
  `ClearedFlagMayHideOldArray`); the saved sites (`SavedIsPresentIff`); re-encoding base32 (`ReencodeIffCanonical`); long
  syslog runs (`WholeIffWithinLimit`); recording a failure for a locked account
  (`RecordKeepsLockIffWindowRuns`); recovering a configuration (`RecoveredIff`,
  `NormalizedServerComesBackIff`); and drifting install timestamps (`DriftReachesTheBound`).
* **Assumptions in the open.** Fresh ids and tokens, and a clock that does not go back, are conditions
  on runs (`Enabled`, `Admissible`, `Monotone`). Times that the environment configures are constants
  about which nothing but their range is known.

Where the code departs from what it says or from the standard, the model follows the code. The export
header of a v9 packet has 20 bytes (section 5.1 of RFC 3954), but lib/telemetry.js:270-272 skips 24. The
walk then takes the content of the first set for sets. A packet that consists of new templates never
teaches them all (`NewTemplatesAreLost`), and nothing at all when they are of standard kinds and lengths
(`PlainTemplatesAreIgnored`); from an exporter that is not known yet a packet gives nothing unless
a template set, or bytes that read as one, stand behind its first 24 bytes (`UnknownExporterIsLost`). Such
bytes may be a field of a record, and then the parser learns a template that nobody sent
(`WrongTemplateIsLearned`).

lib/sites.js:557 hands the array that `state.sites` refers to at that moment to a save that may have to
wait, while lib/routes/backup.js:131, lib/routes/settings.js:672 and lib/agent.js:1286 put another array in
its place.

## Model

| member | source | states |
|---|---|---|
| AgentCommands.EnqueueKeepsInv | lib/agent.js:579-609 | Enqueuing a fresh id keeps queue, waiters and log in agreement, and the log legal. |
| AgentCommands.FirstFreeIsLegal | lib/agent.js:511-522 | The first row without a running lease may legally be issued: its command is open, no lease runs, and every older open command of the site has been issued. |
| AgentCommands.DequeueKeepsInv | lib/agent.js:511-522 | A poll keeps the agreement, including that issued rows form a prefix of the queue. |
| AgentCommands.SettleKeepsInv | lib/agent.js:554-577 | Removing waiter and row and settling the promise keeps the agreement. |
| AgentCommands.ResolveKeepsInv | lib/agent.js:554-566 | A result keeps the agreement, whoever sends it. |
| AgentCommands.RejectKeepsInv | lib/agent.js:568-577 | A timeout keeps the agreement. |
| AgentCommands.ClearKeepsInv | lib/agent.js:632-641 | Clearing a site settles all its waiters, empties its queue and keeps the agreement, in whatever order the waiters are met. |
| AgentCommandRuns.RunKeepsInv | lib/agent.js:495-609 | In every reachable state the queues, the waiters and the log agree, and the log is legal. |
| AgentCommandRuns.QueueIsWaiters | lib/agent.js:495-609 | In every reachable state the ids in a site's queue are distinct and are exactly the ids of the site's waiters. |
| AgentCommandRuns.ResultTakenIffOpen | lib/agent.js:554-566 | A result is taken if and only if the command is open at the site of the sending session; otherwise nothing changes. |
| AgentCommandRuns.SettledOnce | lib/agent.js:554-577 | After a command is settled no event of any kind bears its id: it is settled at most once and never issued again. |
| AgentCommandRuns.OpenUntilSettled | lib/agent.js:579-609 | An enqueued command is open if and only if it has not been settled. |
| AgentCommandRuns.TimerSettles | lib/agent.js:597-599 | In every reachable state the timer of an open command settles it, for the first time and exactly once. |
| AgentCommandRuns.SettledByDeadline | lib/agent.js:579-609 | When timers fire on time, every command has been settled exactly once by the first poll or enqueue after its deadline. |
| AgentCommandRuns.IssuesApart | lib/agent.js:511-522 | Two issues of one command are at least a lease apart. |
| AgentCommandRuns.FirstComeFirstIssued | lib/agent.js:511-522 | When a command is issued, every command enqueued before it at its site has been issued or settled. |
| AgentCommandRuns.LeaseBudget | lib/agent.js:511-522 | n issues of a command span at least n - 1 leases since it was enqueued. |
| AgentCommandRuns.RunInTime | lib/agent.js:597-599 | When timers fire on time, every issue of a command falls before its deadline. |
| AgentCommandRuns.IssuedAtMost | lib/agent.js:511-522 | When timers fire on time, no run issues a command more than ceil(TIMEOUT / LEASE) times. |
| AgentAnswers.PollIsAnswered | lib/agent.js:511-522 | In every reachable state a poll is answered with no command if and only if a lease runs for every open command of the site, and otherwise with the first open command without a running lease, with the text it was enqueued with; the log grows by exactly that issue. |
| AgentAnswers.EnqueueIsLogged | lib/agent.js:579-609 | A command is taken exactly when it has a site and a text, and then becomes the last open command of the site. |
| AgentAnswers.ResultSettles | lib/agent.js:554-566 | A result is taken if and only if its command is open at the site; it settles the command, exactly once, as answered, and takes its waiter away. |
| AgentAnswers.TimerSettlesAsTimedOut | lib/agent.js:568-577 | The timer of an open command settles it, exactly once, as timed out; otherwise it does nothing. |
| AgentAnswers.ClearSettlesAll | lib/agent.js:632-641 | Clearing a site settles each of its open commands, exactly once, as cleared, and nothing else. |
| AgentSessions.OneSessionPerSite | lib/agent.js:612-666 | There is at most one session per site, and the presence of the site names its token. |
| AgentSessions.RunKeepsInv | lib/agent.js:429-493 | Sessions and presences agree in every state reachable by register, poll, result, expiry, prune, revoke and presence reports. |
| AgentSessions.ConnectedIffSession | lib/agent.js:429-455 | A site is reported connected if and only if it has a session that is not past its expiry; the session is refused only at the very instant of its expiry. |
| AgentSessions.UsableIsConnected | lib/agent.js:668-696 | A session that getCollectorAgentSession accepts is always reported connected, under its own token. |
| AgentSessions.ReportChangesNothing | lib/agent.js:429-455 | In a reachable state a presence report never deletes anything, although the code can. |
| AgentSessions.GoneForever | lib/agent.js:612-696 | A token whose session is gone never has a session again. |
| AgentSessions.SupersededHasNoSession | lib/agent.js:643-666 | In every reachable state an agent that registered before another agent of its site has no session. |
| AgentSessionLife.ServedWhileItLives | lib/agent.js:612-696 | After any run a token is served, and its site reported connected under it, exactly while less than the session TTL has passed since it was registered or last used in time, and its site was not revoked or given to another token since. |
| AgentSessionLife.RegistrationServes | lib/agent.js:643-666 | A registration gives its token a session of the site for exactly one TTL, is the only session of the site, and leaves all others as they were. |
| AgentSessionLife.UseRenews | lib/agent.js:612-618 | A poll or result of a live session renews it for exactly one TTL and leaves all others as they were. |
| AgentSessionLife.PruneDropsExpired | lib/agent.js:480-493 | Pruning drops exactly the sessions whose time is over, and the presences that name them. |
| AgentSessionLife.DiligentIsNeverRefused | lib/agent.js:668-696 | An agent that polls more often than once per TTL, and whose site is neither revoked nor given to another, is never refused, whatever else happens. |
| AgentSessionLife.RegisteredIsNeverRefused | lib/agent.js:643-696 | The same from its registration on. |
| AgentRuntime.ServeKeepsInv | lib/routes/agent.js:158-310 | Every request, in the order in which its handler composes the steps, keeps sessions and commands in agreement. |
| AgentRuntime.ReachableKeepsInv | lib/routes/agent.js:158-310 | The whole runtime agrees with itself after every run of requests and timers. |
| AgentRuntime.OnlyTheSiteAgentGetsCommands | lib/routes/agent.js:235-260 | A poll hands out a command only to the token that names the one session of the command's site, and only while the command is open. |
| AgentRuntime.ForeignResultChangesNothing | lib/routes/agent.js:262-310 | A result is answered with success if and only if its command is open at the session's site; otherwise with "not found", and no queue, waiter or log changes. |
| AgentRuntime.RunIsCommandRun | lib/routes/agent.js:158-310 | For the commands, a run of requests is a run of the command protocol, so that everything proved of those holds of it. |
| AgentRuntime.RuntimeIssuesAtMost | lib/routes/agent.js:235-260 | When timers fire on time, no run of requests hands a command out more than ceil(TIMEOUT / LEASE) times. |
| AgentDelivery.PollAnswer | lib/routes/agent.js:235-260 | Every poll is answered as the log says: unauthorized exactly without a live session, not found exactly without the site, and otherwise with the next open command and its text, or with none when a lease runs for every open one. |
| AgentDelivery.ResultAnswer | lib/routes/agent.js:262-310 | Every result is answered: accepted exactly for an open command of the live session's site, which it then settles as answered; any other changes no command. |
| AgentDelivery.QueueAnswer | lib/agent.js:579-609 | What is queued is accepted exactly with a site and a text, and is the last open command then. |
| AgentDelivery.QueuedCommandIsDelivered | lib/routes/agent.js:235-260 | A command queued for a site without other open commands is what the next poll of the site's agent is answered with, word for word. |
| AgentDelivery.UnauthorizedIff | lib/routes/agent.js:235-310 | After any run of requests a poll or result is refused as unauthorized exactly when its token was never registered, its site was revoked or given to another token since, or a TTL has passed since its registration or last use in time. |
| AgentRuntime.Runtime.SetPresence | lib/agent.js:457-471 | Writes the presence of the session's site, as the specification does. |
| AgentRuntime.Runtime.TouchSession | lib/agent.js:612-618 | Extends the session and renews its presence. |
| AgentRuntime.Runtime.RevokeSiteSessions | lib/agent.js:620-630 | The loop deletes exactly the sessions of the site, and its presence. |
| AgentRuntime.Runtime.IssueSession | lib/agent.js:643-666 | Replaces every session of the site by the new one. |
| AgentRuntime.Runtime.GetSession | lib/agent.js:668-696 | Returns the session unless its expiry is reached; an expired one is deleted with the presence of its site. |
| AgentRuntime.Runtime.PruneAgentSessions | lib/agent.js:480-493 | The two loops delete exactly the expired sessions and the presences without a session. |
| AgentRuntime.Runtime.GetPresence | lib/agent.js:429-455 | Returns the report that the specification gives, from session and presence. |
| AgentRuntime.Runtime.RemoveQueuedCommand | lib/agent.js:502-509 | Splices the first row with the id out of the site's queue, or none. |
| AgentRuntime.Runtime.DequeueCommandForPoll | lib/agent.js:511-522 | Leases and returns the first row without a running lease. |
| AgentRuntime.Runtime.ResolveWaiter | lib/agent.js:554-566 | Settles the waiter of the same site and drops its row; false and no change otherwise. |
| AgentRuntime.Runtime.RejectWaiter | lib/agent.js:568-577 | Rejects the waiter, if there is one, and drops its row. |
| AgentRuntime.Runtime.QueueAgentCommand | lib/agent.js:579-609 | Adds row and waiter together; refuses an empty site or command. |
| AgentRuntime.Runtime.ClearSiteRuntime | lib/agent.js:632-641 | Drops sessions, presence and queue of the site and rejects all its waiters. |
| AgentRuntime.Runtime.HandleRegister | lib/routes/agent.js:200 | The register handler serves the request as specified and keeps the invariant. |
| AgentRuntime.Runtime.HandlePoll | lib/routes/agent.js:235-260 | The poll handler, with its three outcomes, serves the request as specified and keeps the invariant. |
| AgentRuntime.Runtime.HandleResult | lib/routes/agent.js:262-310 | The result handler, with its four outcomes, serves the request as specified and keeps the invariant. |
| AgentRuntime.Runtime.HandleTimer | lib/agent.js:597-599 | The timeout of a command rejects its waiter and keeps the invariant. |
| AgentRuntime.Runtime.HandlePrune | server.js:1025 | The minute timer prunes sessions and keeps the invariant. |
| AgentRuntime.Runtime.HandleClear | lib/routes/sites.js:220 | Clearing a site serves the request as specified and keeps the invariant. |
| FlowFormat.FieldsRoundTrip | lib/telemetry.js:234-241 | Written template fields are read back, whatever follows. |
| FlowFormat.TemplatesRoundTrip | lib/telemetry.js:227-244 | A written template set updates the template map exactly as its templates say, in order, with up to three bytes of padding. |
| FlowFormat.RecordRoundTrip | lib/telemetry.js:253-262 | A written record is read as the last value it holds of each kind of field, a field too short for an address giving none. |
| FlowFormat.RecordsRoundTrip | lib/telemetry.js:246-267 | Written records are read back in order, keeping those with a source address and positive bytes; padding shorter than a record is ignored. |
| FlowFormat.SetRoundTrip | lib/telemetry.js:269-285 | A written set in front of anything is read as what it means, and the walk goes on right behind it. |
| FlowFormat.SetsRoundTrip | lib/telemetry.js:269-285 | Any sequence of template, data and other sets, each valid under the templates before it, is read as what it means. |
| FlowFormat.WalkComposes | lib/telemetry.js:269-303 | Walking set-aligned bytes A and then any B with the template map carried over is walking A + B. |
| FlowFormat.WrittenIsAligned | lib/telemetry.js:269-303 | Everything the writer writes is set-aligned. |
| FlowRecords.BytesAreDigits | lib/telemetry.js:205-220 | The bytes of a number are its digits to the base 256, most significant first. |
| FlowRecords.U16IsBigEndian | lib/telemetry.js:227-244 | Ids, counts and lengths are read in the same byte order. |
| FlowRecords.TemplateIsRead | lib/telemetry.js:227-244 | A template record with any id and count, whole or broken off, is learned exactly when its id is 256 or more and it has a field, and reading goes on behind it. |
| FlowRecords.RecordsAreGiven | lib/telemetry.js:246-267 | The flows read of written records are, in order, those of exactly the records whose last field of kind 8 has at least four bytes and whose last field of kind 1 is not zero: source, destination and bytes are those of the last fields of kinds 8, 12 and 1. |
| FlowRecords.MessageGivesRecords | lib/telemetry.js:287-303 | An IPFIX message of a template with an id from 256 on and records of it gives exactly these flows, from any exporter, and teaches the template. |
| FlowPackets.V5RoundTrip | lib/telemetry.js:184-202 | Written v5 records are read back, in order and unfiltered. |
| FlowPackets.V5Count | lib/telemetry.js:184-202 | For any bytes the number of v5 records read is the announced count, cut to the whole records that are present. |
| FlowPackets.V9Parse | lib/telemetry.js:269-285 | For every v9 packet with the 20-byte header of RFC 3954, the parser walks the sets from their fifth byte on, and gives what that walk gives. |
| FlowPackets.ReadAsMeantIffHarmless | lib/telemetry.js:269-285 | All v9 packets that begin with a set are read as meant, whatever valid sets follow it, if and only if its content is itself a sequence of whole sets whose walk does what the set means; which sets those are is the matter of FlowStarts and FlowLosses. |
| FlowPackets.HarmfulStart | lib/telemetry.js:269-285 | Behind any other first set there are valid sets with which the flows or templates that the parser gives are not those meant. |
| FlowPackets.HarmlessStart | lib/telemetry.js:269-285 | Behind a harmless first set every valid packet is read as meant. |
| FlowPackets.EmptyStartIsHarmless | lib/telemetry.js:269-285 | A first set without content is harmless. |
| FlowPackets.UsualV9PacketIsLost | lib/telemetry.js:269-285 | A v9 packet of the template 256 of a source address, a destination address and a byte count, four bytes each, and one record of it, from an exporter that is not known yet, gives no flow and no template, whatever the record holds. |
| FlowStarts.WalkTeaches | lib/telemetry.js:269-285 | For any bytes: a walk that changes the template map has used up four bytes more than it takes to write the templates it has made up for. |
| FlowStarts.NewTemplatesAreLost | lib/telemetry.js:269-285 | For any set of templates with distinct ids, none of them known, with any padding: a v9 packet of this set alone does not leave all of them known, and the set is not harmless. |
| FlowStarts.NewTemplateIsNotLearned | lib/telemetry.js:269-285 | No template that is not known yet is learned from a v9 packet of its own. |
| FlowStarts.PlainTemplatesAreIgnored | lib/telemetry.js:269-285 | A v9 packet of one set of templates of standard kinds and lengths, in less than 256 bytes, leaves the template map as it was, and gives no flows unless it replaces a known template. |
| FlowStarts.PlainAloneIff | lib/telemetry.js:269-285 | Such a packet is read as meant if and only if all its templates are known already. |
| FlowStarts.PlainHarmlessIff | lib/telemetry.js:269-285 | Such a set may stand in front of any others if and only if all its templates are known already and the lengths found in its content lead to its end. |
| FlowStarts.KnownFoursAreHarmless | lib/telemetry.js:269-285 | They do when all fields have four bytes and come in fours: such known templates may be announced again in front of anything. |
| FlowStarts.KnownTemplateAgain | lib/telemetry.js:269-285 | For instance a known template of source, destination, byte and packet counts. |
| FlowLosses.WalkYields | lib/telemetry.js:269-285 | For any bytes in which no template set header stands that fits: the walk changes no template, and uses up four bytes more than the flows it gives take at least. |
| FlowLosses.DataStartIsLost | lib/telemetry.js:269-285 | A v9 packet of one set of usable records, of a template with the shortest records known, padded by less than four bytes and holding no such header, gives fewer flows than records; so the set is not harmless. |
| FlowLosses.OtherStartHarmlessIff | lib/telemetry.js:269-285 | A first set that the parser does not act on, too short for a record and holding no such header, is harmless if and only if the lengths found in its content lead to its end. |
| FlowLosses.TemplateFreeTeachesNothing | lib/telemetry.js:269-285 | Of any v9 packet with no such header behind its first 24 bytes: no template is learned, and the flows given leave eight bytes of the sets to spare. |
| FlowLosses.UnknownExporterIsLost | lib/telemetry.js:269-285 | From an exporter that is not known yet, such a packet gives no flow and no template, whatever it announces and whatever records it holds. |
| FlowLosses.WrongTemplateIsLearned | lib/telemetry.js:269-285 | Any template of one field can be learned although nobody sent it: the announcement of two fields in the same packet is lost, and what stands in a field of the record is learned. |
| FlowPackets.PacketRoundTrip | lib/telemetry.js:305-312 | Parsing a written v5 or IPFIX packet, or a v9 packet with a harmless first set or none, gives the flows it means and the template map it leaves. |
| FlowPackets.StreamRoundTrip | lib/telemetry.js:305-312 | A stream of such packets that share one template map gives all their flows in order. |
| FlowPackets.SameWalker | lib/telemetry.js:269-303 | The same sets behind 24 bytes of version 9 or behind an IPFIX header give the same flows and the same template map: those they mean. |
| FlowPackets.UnreadPackets | lib/telemetry.js:305-312 | Null is given exactly for version 5 with less than 24 bytes; other versions and packets shorter than the header that is skipped give no flows; none of them teaches anything. |
| FlowParser.ReadUnsignedBE | lib/telemetry.js:205-220 | For any offset and length the result is the big-endian value of the bytes, or 0 when they are not all there; no byte outside the buffer is read. |
| FlowParser.ParseIPv4 | lib/telemetry.js:222-225 | The address is the first four bytes of the field, or none when the field or the buffer is too short. |
| FlowParser.ParseFields | lib/telemetry.js:234-241 | The loop reads the announced fields, cut to those that fit. |
| FlowParser.ParseTemplateFlowSet | lib/telemetry.js:227-244 | For every buffer the loop leaves the template map that the reference reader gives. |
| FlowParser.ParseRecord | lib/telemetry.js:253-262 | The field loop gives the flow that the reference reader gives. |
| FlowParser.ParseDataWithTemplate | lib/telemetry.js:246-267 | For every buffer and every template, also one of length zero, the flows are those of the reference reader. |
| FlowParser.ParseNetflowV9 | lib/telemetry.js:269-285 | For every byte buffer the loop terminates, stays inside the buffer, and gives flows and template map of the reference walk. |
| FlowParser.ParseIPFIX | lib/telemetry.js:287-303 | The same for IPFIX. |
| FlowParser.ParseNetflowV5 | lib/telemetry.js:184-202 | The same for v5; none when the header is short or another version. |
| FlowParser.ParseAnyNetflow | lib/telemetry.js:305-312 | The dispatch on the version gives what the reference parser gives, for every byte buffer. |
| Base32.WrapKeepsLowBits | lib/crypto.js:203 | Wrap-around to 32 bits keeps the low-order bits on which the codec relies. |
| Base32.ShiftIn | lib/crypto.js:225 | Shifting a digit in below the useful bits, with wrap-around, appends its bits to them. |
| Base32.Encode | lib/crypto.js:198-212 | The text is the RFC 4648 section 6 encoding without padding: the bits of the bytes, filled with zeros to whole symbols; its length is ceil(8n / 5). |
| Base32.Decode | lib/crypto.js:214-233 | For every text the bytes are the whole bytes among the bits of its symbols, after upper-casing. |
| Base32.CleanSymbols | lib/crypto.js:215-218 | A text of symbols, with any number of padding characters behind it, is cleaned to itself. |
| Base32.RoundTrip | lib/crypto.js:198-233 | A decoding of an encoding of any byte string is that byte string. |
| Base32.EncodeThenDecode | lib/crypto.js:198-233 | Encoding and then decoding gives the bytes back, also with padding added in between. |
| Base32.ReencodeIffCanonical | lib/crypto.js:198-233 | Decoding a text and encoding again gives the text if and only if it has no symbol too many and ends in zero bits. |
| Base32.AlphabetIs | lib/crypto.js:196 | A to Z stand for 0 to 25 and 2 to 7 for 26 to 31, as in table 3 of RFC 4648. |
| TopTalkers.PrunedStoreRefinesHistory | server.js:1040-1051 | However ingest, refresh and the minute timer interleave, the pruned store and the full history have the same addresses and samples in the window at every later time, and rankings of either have the same rates. |
| TopTalkers.RecentTwice | lib/monitoring.js:97-100 | Pruning earlier never changes what a later window contains. |
| TopTalkers.RateAtMost | lib/monitoring.js:131 | The rate at a place of one ranking is at most the rate at that place of any other ranking of the same store. |
| TopTalkers.RankingsAgree | lib/monitoring.js:131-134 | Two rankings of one store have the same length and differ at most in the order of ties. |
| TalkerTraffic.StoreShowsTraffic | lib/monitoring.js:1232-1237 | After any run the store holds of an address in the window exactly the bytes of the records ingested in the window that name it as source, and of those that name it as destination. |
| TalkerTraffic.RankingShowsTraffic | lib/monitoring.js:95-135 | An address is ranked exactly when a record of the window charges it, and its rates and its total are those of the bytes sent and received, over the time between first and last seen, up to the rounding. |
| TalkerTraffic.ShownAreHighest | lib/monitoring.js:131-134 | Three talkers are shown, or all, in falling order, and no other has a higher rate. |
| TopTalkers.Measure | lib/monitoring.js:106-116 | The four reductions give the byte sums and the oldest and newest sample times. |
| TopTalkers.MeasureTalker | lib/monitoring.js:117-128 | Rates are over the observed window, not less than a minute and not more than the configured one, and rounded as toFixed rounds. |
| TopTalkers.SortByRate | lib/monitoring.js:131 | The result is a permutation in falling order of rate. |
| TopTalkers.Store.IngestPacket | lib/monitoring.js:1228-1240 | Adds every record with positive bytes to both its addresses, and shows the top three of the full history's window. |
| TopTalkers.Store.RefreshTopTalkers | lib/monitoring.js:95-135 | Prunes the store to the window and shows the top three of the full history's window. |
| TopTalkers.Store.CollectTalkers | lib/monitoring.js:99-129 | The loop leaves exactly the samples of the window and measures every address once. |
| TopTalkers.Store.PruneEveryMinute | server.js:1046-1050 | The minute timer leaves exactly the samples of the window. |
| SyslogFraming.Connection.OnData | lib/monitoring.js:1084-1118 | A chunk delivers the runs that end in it; the buffer never exceeds 65536 bytes afterwards. |
| SyslogFraming.Connection.OnClose | lib/monitoring.js:1119-1131 | Closing delivers what is left, if anything. |
| SyslogFraming.Receive | lib/monitoring.js:1070-1131 | A whole connection delivers what the specification delivers for its chunks. |
| SyslogFraming.CutFollows | lib/monitoring.js:1088-1113 | Cutting what was kept of an open run with more bytes behind it finds the runs that end there. |
| SyslogFraming.FramingFollowsRuns | lib/monitoring.js:1084-1131 | For every stream and chunking there is one message per non-empty run, in order; each is an end of its run, and the whole run when it is at most 65536 bytes. |
| SyslogFraming.ChunkingDoesNotMatter | lib/monitoring.js:1084-1131 | Two chunkings of a stream whose runs are within the limit deliver the same messages: the runs. |
| SyslogFraming.WholeIffWithinLimit | lib/monitoring.js:1115-1117 | For every stream: every chunking delivers exactly its runs if and only if all of them are within the limit. |
| SyslogFraming.LongRunIsCut | lib/monitoring.js:1115-1117 | A run over the limit, wherever it stands in the stream, is cut by the chunking that ends a chunk with it. |
| SyslogFraming.KeptAfterChunk | lib/monitoring.js:1115-1117 | After a chunk the bytes behind the last newline stay, all of them up to 65536, and the last 32768 of more. |
| AsyncMutex.RequestKeepsInv | lib/mutex.js:9-18 | acquire keeps the invariant of the lock. |
| AsyncMutex.EnterKeepsInv | lib/mutex.js:29-32 | Entering the function in a later microtask keeps it. |
| AsyncMutex.LeaveKeepsInv | lib/mutex.js:20-35 | Leaving, by returning or throwing, keeps it. |
| AsyncMutex.MutexPromises | lib/mutex.js:9-36 | At most one task is inside, a waiting task implies the lock is held, and tasks enter in the order in which they asked. |
| AsyncMutex.LeavingHandsOver | lib/mutex.js:20-27 | A task that leaves hands the lock to the task that asked next, or frees it when there is none. |
| AsyncMutex.SomebodyHoldsIt | lib/mutex.js:9-36 | While a task has not finished, some task holds the lock. |
| AsyncMutex.Mutex.Acquire | lib/mutex.js:9-18 | Resolves at once if and only if the lock is free, and queues otherwise. |
| AsyncMutex.Mutex.Continue | lib/mutex.js:30-32 | The continuation after the await enters the function. |
| AsyncMutex.Mutex.Release | lib/mutex.js:20-27 | Grants the lock to the head of the queue or unlocks it. |
| PersistenceSteps.EarlierIsNoNewer | lib/sites.js:334-339 | Whoever took a snapshot before asked before, so it was handed the same array or an earlier one and its snapshot is no newer than the one about to be taken: the order of the mutex at work. |
| PersistenceSteps.HolderIsLatest | lib/sites.js:334-339 | The task inside the sites lock took the latest snapshot, and all written ones come before it. |
| PersistenceSteps.StepKeepsInv | lib/sites.js:334-339 | Every step of every task, and every change of the sites, keeps locks, snapshots and store in agreement. |
| PersistenceSteps.RunKeepsInv | lib/sites.js:334-339 | So does every interleaving of saves, flushes, mutations and replacements of the array. |
| PersistenceRuns.SnapshotsReachStoreInOrder | lib/sites.js:334-339 | In every run, each task writes its own snapshot, the snapshots reach the store in the order in which they were taken, which is the order in which the saves were asked for, and never get older. |
| PersistenceRuns.StoreNeverGoesBack | lib/sites.js:334-339 | No step writes an older version over a newer one. |
| PersistenceRuns.StoreIsPresentIff | lib/sites.js:334-339 | After any run the store shows the present sites if and only if, for whoever wrote last, the array was not replaced since that save was asked for nor changed since its snapshot; before the first write, if nothing changed. |
| PersistenceRuns.ClearedFlagIsTrueIff | lib/sites.js:556-559 | Clearing the dirty flag, in a flush or after a save, is truthful if and only if the same holds of whoever wrote last. |
| PersistenceRuns.ClearedFlagIsTrueWithoutChange | lib/sites.js:556-559 | It is when the array was not replaced since the flush itself asked nor changed since its own snapshot. |
| PersistenceRuns.DirtyIff | lib/sites.js:537-559 | After any run the dirty flag is set exactly when a change was made and the flag not cleared since. |
| PersistenceRuns.FlushForgets | lib/sites.js:556-559 | From any reachable state in which a flush holds both locks with its snapshot taken, whoever waits and whatever failed before, a change and then the end of the flush leave the flag clear and the store behind. |
| PersistenceRuns.ClearedFlagMayLie | lib/sites.js:556-559 | A run from the start in which a mutation made during the write is forgotten. |
| PersistenceRuns.WaitingFlushStoresOldArray | lib/sites.js:557 | From any reachable state in which a flush was handed an array that has been replaced since, its end leaves that array in the store and the flag clear. |
| PersistenceRuns.ReplacedWhileWaiting | lib/routes/backup.js:131-151 | A replacement while a flush waits behind another save leads there, although a save of the new array is asked for at once. |
| PersistenceRuns.ClearedFlagMayHideOldArray | lib/routes/backup.js:131-151 | A run from the start, without any mutation, in which a flush stores the replaced array and clears the flag, and the save of the new array, asked for at once, fails: in the end nobody has anything left to do. |
| PersistenceSaved.LastHoldsPresent | lib/routes/backup.js:131-151 | When every save is done and none failed, and somebody was handed the array that is in place, whoever wrote last was handed it: the order of the mutex at work. |
| PersistenceSaved.SavedIsPresentIff | lib/routes/backup.js:131-151 | In any run in which every replacement is followed by a request to save it, once every save is done and none failed, store and memory agree if and only if nothing was changed in place since the last written snapshot. |
| PersistenceRuns.NeverStuck | server.js:837-846 | While a save or flush has not finished, some task can take a step that is not a failure: the two nested locks never deadlock. |
| PersistenceRuns.OwnStepsDoWork | server.js:837-846 | Every step of a task uses up work. |
| PersistenceRuns.RunsEnd | server.js:837-846 | Without new requests every run is finite, so every save and flush finishes. |
| RateLimit.Limiter.ConsumeToken | lib/ratelimit.js:20-48 | The decision and the new buckets are those of the specification. |
| RateLimit.Limiter.Prune | lib/ratelimit.js:50-54 | The loop deletes exactly the buckets whose window is over. |
| RateLimit.PruningChangesNoDecision | lib/ratelimit.js:50-54 | Pruning at any moments of a run changes none of its decisions. |
| RateLimit.WindowAdmits | lib/ratelimit.js:33-40 | A window admits exactly min(calls, limit). |
| RateLimit.RemainingCallsAreAdmitted | lib/ratelimit.js:44 | What a decision reports as remaining is how many further calls of the window are admitted. |
| RateLimit.IntervalAdmitsAtMostTwice | lib/ratelimit.js:33-40 | Any interval of one window length admits at most twice the limit, whatever went before. |
| RateLimit.RunAdmitsOwnCalls | lib/ratelimit.js:20-54 | In a run over all keys, with pruning anywhere, the admissions of a key are those of its own calls alone. |
| RateLimit.RunAdmitsAtMostTwice | lib/ratelimit.js:20-54 | In such a run a key with a fixed limit and window is admitted at most twice the limit within one window length. |
| RateLimit.WaitingReachesNewWindow | lib/ratelimit.js:40 | A refused caller who waits retryAfterSec finds a new window and is admitted. |
| RateLimit.RunAdmitsMax | lib/ratelimit.js:20-48 | In any run, of the calls of a key within windowMs of the first exactly max are admitted, with at least one call and one second. |
| RateLimit.FirstCallIsTold | lib/ratelimit.js:20-48 | The first call of a window is admitted and told its limit, its end and what is left; a call without a key is always admitted and leaves no trace. |
| Lockout.Accounts.GetLockState | lib/ratelimit.js:57-74 | State and rows are those of the specification, with the lazy delete. |
| Lockout.Accounts.Sweep | lib/ratelimit.js:79-86 | The loop deletes exactly the rows that are neither locked nor within their window. |
| Lockout.Accounts.RecordFailure | lib/ratelimit.js:76-113 | State and rows are those of the specification, with the sweep of more than 10000 rows. |
| Lockout.Accounts.ClearFailures | lib/ratelimit.js:115-119 | Deletes the row of the account. |
| Lockout.DeletionsChangeNoResult | lib/ratelimit.js:57-113 | Neither the lazy deletes nor the sweep change any result of any run. |
| Lockout.EveryLockIsBacked | lib/ratelimit.js:100-104 | In every run, each lock is backed by as many failures as the threshold asks for, all within the failure window that ends when it is set, none counted before an earlier lock or a clear. |
| Lockout.LocksLast | lib/routes/auth.js:189-302 | When failures are recorded after an unlocked check, as the login route does without an await in between, an account is reported locked exactly until a lock time after its last lock was set, or until it is cleared. |
| LockoutHappens.FailuresLock | lib/ratelimit.js:76-113 | For an account without a row or whose window is over: of the failures within the window of the first, without a clear in between and whatever other accounts do, those before the threshold are counted and lock nothing, the one that reaches it reports the lock, and checks report it for exactly the lock time. |
| LockoutHappens.FailuresCount | lib/ratelimit.js:88-99 | Failures before the threshold are counted one by one and none of them locks. |
| Lockout.WaitingUnlocks | lib/ratelimit.js:63-69 | A locked caller who waits retryAfterSec finds the account unlocked, and a second less would not do. |
| Lockout.RecordKeepsLockIffWindowRuns | lib/ratelimit.js:88-99 | Recording a failure for a locked account, which the login route never does, keeps the lock to its end if and only if the failure window that led to it is not over, and forgets it otherwise. |
| InstallLock.Site.UpdateInstallLock | lib/auth.js:365-383 | The lock changes to the incoming install if and only if that has an id or a timestamp and differs. |
| InstallLock.Site.RegisterAgent | lib/routes/agent.js:189-202 | The check and then the update, only if accepted. |
| InstallLock.AcceptedIffHolderOrNewer | lib/auth.js:335-363 | Among agents with an id and a timestamp of their own, one is accepted if and only if it holds the lock or is newer by more than the tie epsilon. |
| InstallLock.VerdictIff | lib/auth.js:335-363 | For any two installs, with or without id and timestamp: exactly when the incoming one is accepted, and exactly when each reason is given. |
| InstallLock.PassesIff | lib/auth.js:365-383 | The lock passes exactly to an accepted install with an id or a timestamp that does not hold it yet, as of that time. |
| InstallLock.SupersededStaysOut | lib/auth.js:335-383 | Once another install has taken the lock over, the earlier one is refused as an older install for ever. |
| InstallLock.TakenOver | lib/auth.js:335-383 | In every run the lock stays with its holder or passes to an agent newer by more than the epsilon. |
| InstallLock.HolderIsNewest | lib/routes/agent.js:189-202 | After any run from an empty lock, no agent that tried is newer than the holder by more than the epsilon. |
| InstallLock.TimestampStays | lib/auth.js:335-383 | For any agents, a timestamped lock keeps a timestamp, lowered by at most the epsilon per accepted registration. |
| InstallLock.DriftReachesTheBound | lib/auth.js:347-362 | The bound is reached: an agent whose timestamp drifts lowers the lock by the epsilon each time. |
| SiteStatus.StatusMonitor.IsAlertingSilenced | lib/notifications.js:248-297 | Silenced exactly until the set time; an expired silence is cleared. |
| SiteStatus.StatusMonitor.DeriveStatus | lib/monitoring.js:714-725 | Down or up or warn by ping and flows; the stored status while there is no ping result. |
| SiteStatus.StatusMonitor.Reconcile | lib/notifications.js:563-605 | Stores the derived status, records the change and raises an alert, as specified. |
| SiteStatus.StatusMonitor.OnPing | lib/monitoring.js:1659-1682 | A ping result is reconciled before and after it is stored. |
| SiteStatus.StatusMonitor.CheckProtocol | lib/sites.js:637-666 | Telemetry, flow state and status of one protocol of one site. |
| SiteStatus.StatusMonitor.ApplyFlows | lib/sites.js:631-669 | The two loops do what the specification does for every site in turn. |
| SiteStatus.FlowStatusAgrees | lib/sites.js:631-669 | Afterwards every site's telemetry says exactly which of its configured protocols flow, and its stored status is the derived one. |
| SiteStatus.PingAgrees | lib/monitoring.js:1659-1682 | After a ping result the site's stored status is the derived one. |
| SiteStatus.ReconciledAgrees | lib/notifications.js:563-605 | Reconciling makes the stored status the derived one, and deriving it again gives the same. |
| StatusWords.FlowStoresWord | lib/sites.js:631-669 | Afterwards each site's stored status is "down" when its last ping failed, "up" when it got through and each configured protocol was seen within its own timeout, "warn" otherwise, and what it was when no ping is known; its telemetry says which protocols were seen. |
| StatusWords.PingStoresWord | lib/monitoring.js:1659-1682 | After a ping result the word is that of the result and of the protocols seen last. |
| StatusWords.StoredTextIs | lib/monitoring.js:714-725 | A stored text is read without the white space around it and in lower case, an empty one as "down". |
| SiteStatus.HistoryIsChain | lib/notifications.js:563-592 | In every run, silenced or not, the change records of each site form a chain without self-transitions from its first status to the stored one; the alert list is the newest hundred changes into or out of down or warn that were made while not silenced. |
| SiteStatus.RecordsLink | lib/notifications.js:574-581 | Of two neighbouring records of a site the later starts where the earlier ended. |
| EventLog.PushKeepsNewest | lib/events.js:79-84 | Adding in front and cutting keeps the newest n of the history. |
| EventLog.EventState.LogEvent | lib/events.js:79-84 | The list is always the newest EVENT_RETENTION of all events logged. |
| EventLog.EventState.LogEventThrottled | lib/events.js:148-162 | Suppresses and counts, or logs with the count, as specified. |
| EventLog.ThrottleConserves | lib/events.js:148-162 | In every run and for every key, calls are events logged plus suppressed calls reported plus calls suppressed since. |
| EventLog.ThrottleSpaces | lib/events.js:148-162 | With a fixed interval, consecutive events of a key are at least that interval apart, in every run. |
| EventLog.CallIsLoggedIff | lib/events.js:148-162 | After any run a throttled call is logged exactly when the interval has passed since the last event of its key, and reports the calls neither logged nor reported before. |
| EventLog.EventsAreNewest | lib/events.js:79-84 | After any run the list holds the newest events logged, and every call without a key was logged. |
| SmtpData.SplitGivesLines | lib/smtp.js:41-42 | Replacing CR LF first and CR afterwards splits the text into its lines, whatever mixture of line ends it holds. |
| SmtpData.StuffedLineIsReceived | lib/smtp.js:42 | A stuffed line is never taken for the end of the mail and is received as the line. |
| SmtpData.SmtpTransparency | lib/smtp.js:293 | A receiver after section 4.5.2 of RFC 5321 gets exactly the lines of any text and reads on right after the frame. |
| SmtpReader.LinesOfParts | lib/smtp.js:89-99 | Complete lines and remainder do not depend on where the stream is cut. |
| SmtpReader.LineReader.OnData | lib/smtp.js:89-99 | The waiting call gets the first line that a chunk completes, the rest is queued; lines answered plus lines queued stay the complete lines received, in order. |
| SmtpReader.LineReader.NextLine | lib/smtp.js:112-124 | A queued line at once, a refusal after the end, or a wait; with one call at a time every call is answered once. |
| SmtpReader.LineReader.OnTimeout | lib/smtp.js:119-121 | Rejects the waiting call and loses no line. |
| SmtpReader.LineReader.OnError | lib/smtp.js:101 | Rejects the waiting call and loses no line. |
| SmtpReader.LineReader.OnClose | lib/smtp.js:102-105 | Rejects the waiting call, refuses later waits, and loses no line. |
| SmtpReader.ReadSmtpResponse | lib/smtp.js:128-140 | Reads up to and including the first final line and returns its code. |
| SmtpReader.ReplyEndsAtFirstFinal | lib/smtp.js:128-140 | The length of a reply is n if and only if line n is the first final one. |
| SmtpReader.ReplyIsRead | lib/smtp.js:46-54 | A reply in the form of section 4.2.1 of RFC 5321 is read as itself with its code, whatever follows it. |
| SmtpReader.ResponseLineIff | lib/smtp.js:46-54 | A reply line is three digits, a hyphen or a white space, and text without a line end; its code is that of the digits, and it is final exactly with a space. |
| SmtpReader.WrittenLinesAreRead | lib/smtp.js:89-99 | Lines ended by CR LF are read as themselves. |
| SmtpReader.WrittenReplyIsRead | lib/smtp.js:128-140 | A reply as it comes over the connection is read up to its end, with its code. |
| ShellWords.QuotedIsRead | lib/agent.js:525-527 | Wherever a word may start or go on, a quoted value adds exactly the value to it. |
| ShellWords.QuotedIsOneWord | agent/cajal-agent-setup.py:61-63 | The shell reads any quoted value as one word, the value. |
| ShellWords.CommandLineIsRead | lib/routes/sites.js:233 | A command line of fixed words and quoted values is read as exactly those words and values. |
| EnvFile.ParseEnvFile | agent/cajal-agent-setup.py:40-58 | The loop gives the last setting of every key among the lines. |
| EnvFile.LineSetsValue | agent/cajal-agent-setup.py:45-53 | A written line sets its key to the value, with every single quote still expanded. |
| EnvFile.FileSetsValues | agent/cajal-agent-setup.py:107-118 | A written file sets every key, provided no value holds a line break. |
| EnvFile.ReadValuesAreOneLine | agent/cajal-agent-setup.py:44-53 | No file sets a value that holds a line break. |
| EnvFile.HandwrittenLineSets | agent/cajal-agent-setup.py:45-53 | White space around key and value is dropped. |
| EnvFile.QuotesDropped | agent/cajal-agent-setup.py:51-52 | Quotes of either kind are dropped when they stand at both ends, once. |
| EnvFile.IgnoredLines | agent/cajal-agent-setup.py:46-47 | Comments and lines without an equals sign set nothing. |
| EnvFile.LastLineCounts | agent/cajal-agent-setup.py:53 | Of several lines that set a key the last one counts. |
| EnvFile.LinesEndAt | agent/cajal-agent-setup.py:44 | A line ends at LF, at CR LF and at CR alone. |
| EnvFile.RecoveredIff | agent/cajal-agent-setup.py:107-118 | All seven fields come back if and only if normalising leaves the server alone and no quoted value holds a single quote, CR or LF. |
| EnvFile.NormalizesTwiceIff | agent/cajal-agent-setup.py:73-74 | Normalising a normalised server leaves it alone if and only if it does not end in white space. |
| EnvFile.NormalizedServerComesBackIff | agent/cajal-agent-setup.py:107-118 | A configuration whose server was normalised once comes back if and only if the server does not end in white space and no quoted value holds a single quote, CR or LF. |
| EnvFile.NormalizedServerMayNotComeBack | agent/cajal-agent-setup.py:73-74 | No configuration whose server was typed as "http://h /" comes back. |

## Left out

- IssuedAtMost: assumes that timers fire before the next poll or enqueue after a deadline; without that the event loop may issue late. RuntimeIssuesAtMost assumes the same.
- ReadAsMeantIffHarmless: is about all continuations of a first set; its condition is told without the walk for the first sets of PlainHarmlessIff, OtherStartHarmlessIff, NewTemplatesAreLost and DataStartIsLost. Bytes of records that happen to read as a template set, and template sets of 256 bytes and more that mix known and new templates, are told by V9Parse alone.
- Reconcile: trims and lower-cases the stored status with ASCII letters only.
- OneAtATime: single answers are claimed for one call of nextLine at a time, as the sender uses it; the conservation of lines needs no such condition.
- What a result reports (exit code, lines, metrics), which is handed to the waiter as it is.
- Factory reset drops the waiters without settling them (lib/agent.js:1307-1310), so it is not a step of the command protocol.
- Sessions restored from the database, and the order of the session rows written and deleted there; sessions start empty.
- Trimming and normalising of ids, tokens and commands; they are taken as already trimmed. The install identity is taken as normalised, with 0 for an unreadable timestamp.
- lib/routes/agent.js:7 imports normalizeRole from a module that does not export it; the role check of the register handler is not part of this model.
- Several clock readings within one handler; one reading stands for all of them.
- Settings from the environment are taken within their sensible range: times and retention positive, the tie epsilon not negative.
- Password hashes, encryption, tokens and ids: fresh values and accepted credentials are inputs.
- IPFIX enterprise fields and variable-length fields (RFC 7011, sections 3.2 and 7), which the parser does not know; the writer does not write them.
- Addresses are four bytes instead of dotted-quad text; eight-byte counters beyond 2^53 are exact instead of rounded.
- Binary floating point: rates are divided exactly before they are rounded as toFixed rounds. The talkers are those of one site that still exists.
- Decoding bytes to text: mail, replies and base32 texts are sequences of characters, syslog streams are bytes.
- Which site a syslog message belongs to: at close, the remaining bytes are handled only when the site is known, while complete lines are also reported when it is not.
- Saving events and API tokens inside a flush, a flush that finds no sites to save, and the users file, which markUserLastLogin writes outside any lock (lib/events.js:132).
- The factory reset, which clears the dirty flag together with replacing the sites and saves them afterwards (lib/agent.js:1286-1296). Contents are versions: a change that puts an old content back counts as a change, and an array that filter made (lib/routes/settings.js:672) counts as another one although it shares its site objects with the old one.
- Texts, routes and sending of notifications; alerts added by hand; adding and removing sites; the configured flow timeouts are inputs.
- Clearing the event list and its throttle by a factory reset or a recovery.
- Sending mail with sendmail, TLS, authentication and the capabilities of the server.
- Reading the environment file from disk: encodings and missing files.
- HTTP routing, pages, the terminal, SNMP, ping, speed tests, LDAP, Redis and PostgreSQL: foreign services and input/output.
