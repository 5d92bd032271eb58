# pfsnitch, verified

pfsnitch is a per-application egress firewall: a kernel module that answers
`connect()` from a verdict cache and asks a daemon about what it does not know, a
daemon that judges divert packets and kernel requests against a policy file and
raises prompts, and a command line that edits that file. This project models the
parts whose correctness is not visible in any one function body and proves what
they promise, over every input, every run or every interleaving.

`dafny verify dfyconfig.toml` checks everything.

| part | files |
|---|---|
| kernel verdict cache, upcall queue and connect hook, under all interleavings | `VerdictCache`, `UpcallQueue`, `UpcallDevice`, `Interleavings`, `KernelSafety`, `ConnectHook` |
| policy file against policy in memory | `Text`, `Targets`, `Policy`, `PolicyStore`, `PolicyRecord`, `PolicyFile`, `PolicyEdits` |
| the same for a file without a last newline, and for any file | `UnterminatedFile`, `UnterminatedPins`, `UnterminatedAdd`, `AnyFile` |
| DNS names and responses | `Octets`, `Dns`, `DnsResponse` |
| packets, checksum and TCP reset | `Octets`, `Checksum`, `Packets`, `Reset` |
| the daemon's loop | `DaemonLoop`, `DaemonSafety`, `DaemonResults`, `DaemonVerdicts`, `DaemonFile`, `DaemonModules`, `DaemonSamples` |
| naming the process behind a flow | `Attribution` |

**How the parts are built.** Code that updates state in place is a class
(`Cache`, `Device`, `Store`, `Daemon`, `Tables`) or a method with loops, and each
method is proved equal to a function on the abstract state; the theorems are then
about those functions. The kernel is a state machine whose steps are the critical
sections of `pfsn_pmtx` and `pfsn_vlock` plus a ghost log of the daemon's
decisions; `KernelSafety` speaks of any run of those steps by any number of hooks
and readers. A policy file is its text, and `Policy.Load` is its meaning. The
daemon's loop is a state machine whose steps are the drain of an answer, the drain
of a kernel request, a packet, a tick and, from outside, an edit of the policy file,
which the loop sees by the file's stamp.

**Where the code departs from what it or a standard says.** The model follows the
code; for each departure there is the exact condition and a failing input.

- The editors say they leave other lines untouched (`src/policy.rs:632-657`). A
  rewrite also drops the carriage return before a newline and adds the newline a
  last line lacks: `PolicyFile.RewriteSparesOthers` is the exact condition for the
  editors that drop lines, `PolicyEdits.SetDirectiveSparesOthers` the one for setting
  a directive, which rewrites even when the directive is new; `RewriteTakesCr` and
  `RewriteAddsNewline` are inputs. The meaning is kept.
- What is appended to a file whose last line lacks its newline is glued to that
  line (`src/policy.rs:448-459`, `src/policy.rs:1330-1339`). The exact conditions
  for a recorded answer, a pin, and an approval that does both, where it is the pin
  that is lost, are `UnterminatedFile.RecordIntoUnterminatedFile`,
  `UnterminatedPins.RepinIntoUnterminatedFile` and
  `UnterminatedPins.ApprovalIntoUnterminatedFile`; `RuleEndsInComment` and
  `PinEndsInComment` are inputs. `AnyFile.AnswerIntoAnyFile` is the condition for a
  whole answer and any file.
- Forgetting a pin changes memory only (`src/policy.rs:1341-1343`):
  `PolicyRecord.ForgetIdAlone`, with `ForgettingAPinDisagrees`. Approving a pinned
  binary that cannot be hashed does that: `UnterminatedPins.HashlessIntoUnterminatedFile`,
  and over runs `DaemonFile.MemoryIsTheFile`.
- An edit of the policy file is to take effect within a second (`src/main.rs:616-660`).
  But learning writes the file and then moves the watermark past that write
  (`src/main.rs:863-876`), so an edit made since the last tick is never read:
  `DaemonFile.NotedFileIsInMemory` says over any run when memory is the file that was
  noted, and `DaemonSamples.EditIsOvertaken` is a run in which enforcement is asked
  for and visibility stays.
- A kernel request is answered through whatever module is at hand
  (`src/main.rs:494-577`), so one drained after its module was replaced is answered
  through another: `DaemonModules.RoutedOverRuns`, with the run
  `DaemonSamples.RequestOutlivesItsModule`.
- A rule kind alone on its line is loaded as a rule about the empty name, but no
  editor sees it (`src/policy.rs:119-200`, `src/policy.rs:1395-1418`):
  `PolicyEdits.ClearRulesMeaning` and `RemoveAppMeaning`, with
  `BareKindOutlastsClearing`.
- A remembered verdict is keyed on the flow alone (`src/main.rs:762-790`), so it is
  met by whatever binary sends on that flow: `DaemonVerdicts.FateIsTheVerdict`, with
  `AnotherBinaryPasses` and `ChangedBinaryPasses`. And a later answer may overtake
  it until the next reload: `DaemonVerdicts.StepAgrees`, with the run
  `DaemonSamples.BlockOvertakesAllow`.
- DNS label lengths from 64 to 191 are reserved by RFC 1035, section 4.1.4; the
  reader takes them as plain lengths, and it has no limit on whole names:
  `Dns.ReadBeyondTheStandard`, with `ReservedLengthIsRead`.
- The reset answers every segment in one way, from sequence number zero with ACK
  set. It is what section 3.5.2 of RFC 9293 asks for exactly when the segment has
  neither ACK nor FIN and carries no data: `Reset.ConformsExactly`, with
  `DeparturesAndConformers`.

## Model

| member | source | states |
|---|---|---|
| VerdictCache.VHash | kmod/mac_pfsnitch.c:124-137 | the bucket is 32-bit FNV-1a over protocol, four or sixteen address bytes by family, and port, modulo 1024; the family itself is not hashed |
| VerdictCache.EntryTotalIsMapSize | kmod/mac_pfsnitch.c:96-119 | in a table whose entries sit in their keys' buckets with unique keys, the number of chained entries is the number of distinct keys |
| VerdictCache.Cache.constructor | kmod/mac_pfsnitch.c:114-119 | an empty table represents the empty map |
| VerdictCache.Cache.Find | kmod/mac_pfsnitch.c:139-156 | the walk of one bucket finds the key's entry or none exists in the chain |
| VerdictCache.Cache.Lookup | kmod/mac_pfsnitch.c:139-156 | searching one bucket answers what the plain map of all keys answers |
| VerdictCache.Cache.Insert | kmod/mac_pfsnitch.c:158-199 | updates in place, else adds below the cap of 8192 if memory is had, else drops; the table still represents the map and the count is exact |
| VerdictCache.Cache.Flush | kmod/mac_pfsnitch.c:212-227 | every bucket is emptied and the count is zero |
| VerdictCache.PushedPath | kmod/mac_pfsnitch.c:201-210 | an empty or unterminated path names nothing; otherwise the bytes before the first NUL |
| UpcallQueue.SweepDropsPrefix | kmod/mac_pfsnitch.c:279-297 | with births in order the sweep removes a prefix of the queue: exactly the expired requests |
| UpcallQueue.SweepKeepsTheUnexpired | kmod/mac_pfsnitch.c:279-297 | no request young enough is swept |
| UpcallQueue.EagainMeansPending | kmod/mac_pfsnitch.c:299-352 | EAGAIN leaves exactly one pending request for the key; nothing but expired requests ever leaves the queue on this path |
| UpcallQueue.PickIsLowestUndelivered | kmod/mac_pfsnitch.c:387-419 | the event handed out is the undelivered request with the lowest id |
| UpcallQueue.InsertOutcome | kmod/mac_pfsnitch.c:158-199 | after an insert the lookup gives the new verdict if it was accepted, and is unchanged if it was not |
| UpcallQueue.ResolveOutcome | kmod/mac_pfsnitch.c:356-373 | after a resolve nobody waits for the key and the hook answers the verdict if the key was cached or had room, else misses afresh; an absent id changes nothing |
| UpcallDevice.Device.constructor | kmod/mac_pfsnitch.c:799-811 | the module starts with an empty queue and cache, upcalls off |
| UpcallDevice.Device.IoctlPush | kmod/mac_pfsnitch.c:723-758 | a valid push caches its verdict; a wrong version, family, protocol or verdict is refused, and an empty or unterminated path is dropped |
| UpcallDevice.Device.IoctlFlush | kmod/mac_pfsnitch.c:723-758 | a flush empties the cache and touches nothing else |
| UpcallDevice.Device.ReqGc | kmod/mac_pfsnitch.c:279-297 | the in-place sweep is the specified sweep, with the count kept |
| UpcallDevice.Device.Upcall | kmod/mac_pfsnitch.c:299-352 | the whole miss path: fail verdicts, dedup, cap, sweep, allocation, queueing and wakeup, as the specified step |
| UpcallDevice.Device.Resolve | kmod/mac_pfsnitch.c:356-373 | the queue walk, insert and unlink are the specified step |
| UpcallDevice.Device.ReadPass | kmod/mac_pfsnitch.c:377-419 | end of file, the picked event marked delivered, or asleep |
| UpcallDevice.Device.Redeliver | kmod/mac_pfsnitch.c:421-437 | after a failed copyout the request, if still queued, is undelivered again and sleepers are woken |
| UpcallDevice.Device.IoctlUpcallSet | kmod/mac_pfsnitch.c:759-767 | turning upcalls off wakes every sleeping reader |
| UpcallDevice.Device.DevClose | kmod/mac_pfsnitch.c:450-461 | the last close turns upcalls off and wakes every sleeping reader |
| UpcallDevice.Device.Destroy | kmod/mac_pfsnitch.c:813-832 | unloading empties the queue, sets the flag and wakes every reader |
| Interleavings.HookUpcallStep | kmod/mac_pfsnitch.c:299-352 | a miss by any hook keeps queue shape, id bounds, delivery and wakeup invariants |
| Interleavings.ResolveStep | kmod/mac_pfsnitch.c:356-373 | a resolve by the daemon keeps every invariant, the decision log included |
| Interleavings.ReadEnterStep | kmod/mac_pfsnitch.c:377-419 | a pick by any of several readers keeps every invariant |
| Interleavings.RequeueStep | kmod/mac_pfsnitch.c:421-437 | the copyout repair keeps every invariant although the request may be gone or picked again in between |
| Interleavings.SwitchStep | kmod/mac_pfsnitch.c:759-767 | switching upcalls, closing and unloading keep every invariant |
| Interleavings.InvStep | kmod/mac_pfsnitch.c:279-461 | every critical section of every thread keeps the whole invariant |
| KernelSafety.RunKeepsInv | kmod/mac_pfsnitch.c:279-461 | the invariant holds in every reachable state of every interleaving |
| KernelSafety.HitIsNewestDecision | kmod/mac_pfsnitch.c:124-227 | a hit is the newest verdict issued for the key since the last flush; a key is missing just when no decision about it since then found a place |
| KernelSafety.HookObeysNewestDecision | kmod/mac_pfsnitch.c:556-619 | the hook's lookup refuses exactly when the socket is governed and the newest decision about its key is a cached deny, and misses exactly when none is cached |
| KernelSafety.NoLostWakeup | kmod/mac_pfsnitch.c:387-437 | a reader asleep means every queued request is delivered, upcalls are on and the module is not unloading |
| KernelSafety.QueueShape | kmod/mac_pfsnitch.c:279-352 | ids increase and are below the next id, keys are unique, births are in order, length is at most 2048, and the queue is empty once unloading |
| KernelSafety.UnloadingLasts | kmod/mac_pfsnitch.c:813-832 | once unloading began it stays so in every later state |
| KernelSafety.DeliveredAtMostOnce | kmod/mac_pfsnitch.c:377-438 | no event reaches the daemon twice, and an undelivered request is carried by nobody, with any number of readers and failed copyouts |
| KernelSafety.RequeueMakesDeliverable | kmod/mac_pfsnitch.c:421-437 | a failed copyout makes its own request deliverable again unless it has gone, and touches no other |
| KernelSafety.StepTouchesOneKey | kmod/mac_pfsnitch.c:158-227 | a step adds at most one decision to the log and can change the answer for that key alone |
| KernelSafety.AnswerSticks | kmod/mac_pfsnitch.c:158-227 | between two states with no flush and no decision about a key, the hook's answer for it stays |
| KernelSafety.IdsStayIssued | kmod/mac_pfsnitch.c:330-345 | an id once issued to a key belongs to that key for good |
| KernelSafety.ResolveDecidesItsOwnFlow | kmod/mac_pfsnitch.c:354-373 | however late an answer comes it decides only the flow its id was issued for, and an id no longer queued decides nothing |
| KernelSafety.EagainIsAnswered | kmod/mac_pfsnitch.c:299-373 | after EAGAIN and a resolve with v every later connect gets v until a flush or a newer decision; without room it misses afresh |
| ConnectHook.SectionAnswers | kmod/mac_pfsnitch.c:299-352 | with the fail mode read where the queue section reads it, the hook returns that section's own answer |
| ConnectHook.UnqueueableMeaning | kmod/mac_pfsnitch.c:299-352 | a miss is told to try again unless the module is unloading, or nobody has asked yet and the queue is full or memory short |
| ConnectHook.HookOutcome | kmod/mac_pfsnitch.c:556-634 | the whole hook, whatever runs between its lookup, its reading of the switch, its queue section and its reading of the fail mode: EPERM exactly on a cached deny or when a miss that asks cannot be queued and the module fails closed, EAGAIN exactly when a miss that asks is or stays queued, where only UDP not to port 53 with upcalls on asks; else it passes |
| Text.ParsePrintU16 | src/policy.rs:1218-1256 | a printed port parses back to itself |
| Text.LinesOfAppend | src/policy.rs:448-459 | appending a line to a terminated file adds just that line |
| Text.TokensOfLine | src/policy.rs:119-135 | a written directive, with or without a comment, is read back as its key and value |
| Text.SplitScopedJoined | src/policy.rs:839-847 | a destination and a path joined by white space split back, paths with spaces included |
| Targets.SplitJoin | src/policy.rs:1218-1256 | splitting what joining wrote gives host and port back if and only if the host is spellable |
| Targets.PlainIsLawful | src/policy.rs:1218-1256 | the law assumed of address printing and parsing can be met |
| Policy.ParseKindName | src/policy.rs:473-506 | each of the ten rule kinds is read back from its name |
| Policy.DecideIsDeclarative | src/policy.rs:205-317 | any matching deny, else any matching allow, else the default |
| Policy.RecordIsMonotone | src/policy.rs:323-460 | an allow record leaves explicit denies and all allows, a block record leaves all denies, and a query the rule does not match is untouched |
| Policy.RecordSettlesTheQuestion | src/policy.rs:323-460 | a recordable answer to an open question settles that question its way |
| Policy.LearningKeepsSettledVerdicts | src/main.rs:855-888 | learning changes a settled verdict if and only if it was a default deny the learned rule covers |
| PolicyStore.Store.constructor | src/policy.rs:119-200 | loading line by line into the sets and the map is the meaning of the file |
| PolicyStore.Store.ApplyLine | src/policy.rs:119-200 | one line changes the policy in place as that line means |
| PolicyStore.Store.Record | src/policy.rs:323-460 | recording updates memory and appends to the file as specified, or does neither |
| PolicyStore.Store.RecordId | src/policy.rs:1330-1339 | a hash is pinned in memory and file unless one is pinned already |
| PolicyStore.Store.ForgetId | src/policy.rs:1341-1343 | a pin is dropped from memory alone |
| PolicyRecord.SpelledMeansRule | src/policy.rs:323-460 | reading a spelled value gives the rule back, its host in lower case |
| PolicyRecord.RecordBehind | src/policy.rs:323-460 | memory and a file that ends in a newline take up the same rule, whatever they were before |
| PolicyRecord.RecordAgrees | src/policy.rs:323-460 | in a file that ends in a newline, memory stays the meaning of the file for every answer, with or without binary and host, either family, any port; the other files are UnterminatedFile's |
| PolicyRecord.RecordIdAgrees | src/policy.rs:1330-1339 | pinning keeps memory and a file that ends in a newline in agreement; the other files are UnterminatedPins' |
| PolicyRecord.ForgetIdAlone | src/policy.rs:1341-1343 | forgetting alone agrees if and only if nothing was pinned |
| PolicyRecord.ForgettingAPinDisagrees | src/policy.rs:1341-1343 | a file that pins a binary, for which forgetting alone disagrees |
| PolicyRecord.RepinAgrees | src/main.rs:508-519 | in a file that ends in a newline, forgetting and pinning again agrees, and the new hash is the one pinned; the other files are UnterminatedPins' |
| UnterminatedFile.RecordIntoUnterminatedFile | src/policy.rs:448-459 | recording any answer into an unterminated file agrees if and only if its last line is blank, or the file has the rule already and, with the new line glued to it, the last line says what it said or the terminated lines say both already; one with a comment always does, one that alone had the rule never |
| UnterminatedFile.RuleEndsInComment | src/policy.rs:448-459 | a file that is one comment without a newline loses the rule recorded into it |
| UnterminatedFile.GluedLineIsNotTheRule | src/policy.rs:448-459 | a rule line glued behind other text never means that rule |
| UnterminatedPins.GluedPinIsNotThePin | src/policy.rs:1330-1339 | a pin line glued behind text never pins its binary |
| UnterminatedPins.RecordIdIntoUnterminatedFile | src/policy.rs:1330-1339 | pinning into an unterminated file agrees if and only if the binary was pinned already or the last line is blank |
| UnterminatedFile.EffectsAgree | src/policy.rs:119-200 | two lines at the end of a file come to the same if and only if they say the same or what stands before says both already |
| UnterminatedPins.RepinIntoUnterminatedFile | src/main.rs:508-519 | forgetting and pinning again agrees if and only if the last line is blank; or has a comment and the file pins the binary so; or a terminated line does, and with the pin glued to it the last line says what it said besides pinning that binary, or the terminated lines say both already |
| UnterminatedPins.ApprovalIntoUnterminatedFile | src/main.rs:508-522 | an approval that pins always gets its rule into the file, and agrees if and only if its pin gets through, by the same condition with the rule among what is said already |
| UnterminatedPins.HashlessIntoUnterminatedFile | src/main.rs:508-522 | approving a pinned binary that cannot be hashed agrees with an unterminated file if and only if only the last line had the pin and the terminated lines have the rule and all the glued line says |
| UnterminatedPins.PinEndsInComment | src/main.rs:508-522 | a file that is one comment without a newline gets the rule of an approval and loses its pin |
| UnterminatedAdd.AddIntoUnterminatedFile | src/policy.rs:583-634 | adding a new rule to an unterminated file inserts just it if and only if the last line is blank, or, for a rule about a host or a portless address, the glued line means the rule and the last line said nothing new |
| AnyFile.RecordIntoAnyFile | src/policy.rs:323-460 | from any policy in memory and any file: after a record they agree if and only if they were alike but for the rule, where a rule lost in a comment must be in the file already, and one glued to text must be on a terminated line and memory what the glued line makes of the file |
| AnyFile.TakesUpTerminated | src/policy.rs:323-460 | for a file that ends in a newline that is: alike but for the rule |
| AnyFile.AnswerIntoAnyFile | src/main.rs:508-521 | a whole answer, with or without binary and hash, keeps any file in agreement with memory if and only if its pin gets through, or it has none and its record does, or it forgets a pin only the last line had and nothing else is lost |
| PolicyFile.KeepCommutes | src/policy.rs:636-657 | if dropping hit lines commutes with an operation line by line, the rewritten file means that operation's result |
| PolicyFile.NormalFormIsTheRule | src/policy.rs:518-550 | among spellable rules equal normal forms are the same rule |
| PolicyFile.RemoveRule | src/policy.rs:636-657 | the loop keeps exactly the lines not hit, in order, and counts the rest |
| PolicyFile.SpellableIsUnconfused | src/policy.rs:518-550 | rules that can be spelled back never share a spelling |
| PolicyFile.RemoveRuleMeaning | src/policy.rs:636-657 | removing a rule deletes just that element of the meaning, however spelled, if and only if no other rule of the file has its spelling, and reports none exactly when no rule of the file has it |
| PolicyFile.AddRule | src/policy.rs:583-634 | the value is refused, found present or appended as specified |
| PolicyFile.AcceptableMeansRule | src/policy.rs:583-634 | the refusals are exactly the values that mean no rule |
| PolicyFile.AddRuleMeaning | src/policy.rs:583-634 | adding to a file that ends in a newline inserts just that element, and reports present exactly when a rule of the file has its spelling |
| PolicyFile.AddThenRemoveRestores | src/policy.rs:583-657 | adding a rule that was not present and removing it restores the lines, and the text if and only if it has no carriage return before a newline |
| PolicyFile.UnlinesOfLines | src/policy.rs:636-657 | splitting into lines and writing them out changes nothing if and only if the text ends in a newline and none has a carriage return before it |
| PolicyFile.RewriteSparesOthers | src/policy.rs:632-657 | an edit that drops lines leaves those it does not hit exactly as they were if and only if it hits none or each of the others ends in a plain newline |
| PolicyFile.RewriteTakesCr | src/policy.rs:636-657 | an input whose kept line loses its carriage return |
| PolicyFile.RewriteAddsNewline | src/policy.rs:636-657 | an input whose kept last line gains a newline |
| PolicyEdits.RemoveApp | src/policy.rs:1351-1393 | the loop keeps exactly the lines not about the binary and returns the others |
| PolicyEdits.RemoveAppMeaning | src/policy.rs:1351-1393 | exactly one binary's rules and pin go, from any file; exact condition for the empty name |
| PolicyEdits.ClearRules | src/policy.rs:1395-1418 | the loop keeps exactly the lines that are no rule and no pin |
| PolicyEdits.ClearRulesMeaning | src/policy.rs:1395-1418 | every setting stays and every rule goes if and only if no rule kind stands alone on a line |
| PolicyEdits.BareKindOutlastsClearing | src/policy.rs:1395-1418 | the line allow-app is loaded as a rule, is no rule to the editors, and outlasts a clearing |
| PolicyEdits.SetDirective | src/policy.rs:776-796 | the loop puts the new line where the setting's first line stood, drops its other lines, and appends it if there was none |
| PolicyEdits.SetDirectiveMeaning | src/policy.rs:770-804 | exactly one setting changes, whatever stale lines for it stood in the file |
| PolicyEdits.SetDirectiveSparesOthers | src/policy.rs:776-796 | setting a directive writes its line where the first one stood, or on a line of its own at the end, and leaves every other character in place if and only if all other lines end in a plain newline, which an unterminated last line need not if the directive is new |
| Dns.ReadName | src/dns.rs:123-165 | the loop ends on every buffer, reads only inside it, and is the specified walk |
| Dns.NextIsSkip | src/dns.rs:119-165 | the offset after a name is that of a skip which follows no pointer |
| Dns.WalkReadsLayout | src/dns.rs:123-165 | a name laid out with few enough jumps is read back with its labels and its end |
| Dns.WalkFindsLayout | src/dns.rs:123-165 | a name that is read was laid out so |
| Dns.ReadExactlyTheLaidOut | src/dns.rs:123-165 | a name is read if and only if one is laid out there in at most 16 jumps, and then it is that name |
| Dns.StrictWalkMeaning | src/dns.rs:123-165 | a reader that refuses the reserved length bytes 64 to 191 reads the same names, and loses one exactly when such a byte stands where the walk looks for a length |
| Dns.ReadBeyondTheStandard | src/dns.rs:123-165 | the reader agrees with the standard but for the names it alone reads: those with a reserved length byte on their way or of more than 255 bytes |
| Dns.ReservedLengthIsRead | src/dns.rs:152-163 | a label with the reserved length byte 64 is read all the same, where the standard reads nothing |
| Dns.AppendLabelsIsDotted | src/dns.rs:156-163 | appending labels as they come gives them joined by single dots |
| DnsResponse.ParseAnswers | src/dns.rs:88-114 | the record loop is the specified reading: a bad name voids, a cut record ends |
| DnsResponse.ParseResponse | src/dns.rs:63-117 | the whole parse, with its question loop, is the specified reading |
| DnsResponse.ResponseReadBack | src/dns.rs:63-117 | for every response, any labels, compression, record mix and trailer: the first question's name and exactly the A and AAAA addresses in order, or nothing for a query, no question or no address |
| Checksum.Csum | src/divert.rs:470-502 | the sum over parts of any lengths, empty and odd included, is the RFC 1071 checksum of their zero-padded concatenation up to 131,074 bytes, and exactly its 32-bit wrapped form beyond |
| Checksum.FoldOnce | src/divert.rs:498-500 | one fold of the carries shrinks the sum and keeps its ones-complement value |
| Checksum.FoldedIsOnesSum | src/divert.rs:470-502 | adding first and folding at the end is the sum with end-around carry of the standard |
| Checksum.SumFits | src/divert.rs:470-502 | up to 131,074 bytes cannot overflow the 32-bit accumulator |
| Checksum.OneWordTooMany | src/divert.rs:470-502 | one word more can: the bound is the least |
| Checksum.FilledVerifies | src/divert.rs:532-567 | a zeroed field at an even offset, filled with the checksum, makes the whole verify |
| Packets.SkipExt | src/divert.rs:187-218 | succeeds if and only if the unbounded next-header walk reaches an upper layer past at most seven extension headers, with the same answer |
| Packets.ChainReadBack | src/divert.rs:187-218 | a written chain is walked to its end if no header is a later fragment's and something follows |
| Packets.ChainFound | src/divert.rs:187-218 | a walk that succeeds went along such a chain of that many headers |
| Packets.PacketReadBack | src/divert.rs:220-256 | an IPv6 packet with any chain is read to protocol, addresses and offset exactly when the chain is at most seven long, readable and followed by something |
| Packets.PacketReadBack4 | src/divert.rs:220-237 | an IPv4 packet with any options is read to protocol, addresses and offset |
| Packets.FlowReadBack | src/divert.rs:258-275 | ports and the opening flag are read back in both families; a flow opens if and only if it is TCP with SYN and without ACK |
| Reset.TcpRst | src/divert.rs:508-588 | building the buffers and patching the checksums gives the specified reset, or nothing |
| Reset.ResetVerifies | src/divert.rs:508-588 | every reset's IPv4 header and its segment with the receiver's pseudo-header checksum to zero |
| Reset.ResetTurnsRound | src/divert.rs:504-588 | parsing a reset gives the flow with addresses and ports swapped, opening nothing; a reset is never answered |
| Reset.ResetAcknowledges | src/divert.rs:523-538 | sequence zero, RST and ACK set, and a SYN acknowledged by its sequence number plus one modulo 2^32 |
| Reset.ConformsExactly | src/divert.rs:508-538 | the reset's numbers are those section 3.5.2 of RFC 9293 asks for if and only if the segment has neither ACK nor FIN and carries no data |
| Reset.DeparturesAndConformers | src/divert.rs:508-538 | SYN with ACK and SYN with data are answered otherwise than the standard does; a bare SYN and a bare segment are not |
| DaemonLoop.Daemon.constructor | src/main.rs:395-470 | the loop starts with nothing asked and UDP diverted, a handle only under kernel attribution |
| DaemonLoop.Daemon.DrainAnswer | src/main.rs:494-524 | draining an answer closes its question, resolves what waited and records, as specified |
| DaemonLoop.Daemon.DrainUpcall | src/main.rs:528-577 | draining a kernel request answers it or makes it wait, as specified |
| DaemonLoop.Daemon.PushVerdict | src/main.rs:889-902 | a settled verdict about a named binary goes to the kernel, in enforcement with a handle |
| DaemonLoop.Daemon.FlushKernel | src/main.rs:648-654 | the module at hand forgets what was pushed to it, and no other does |
| DaemonLoop.Daemon.JudgeFresh | src/main.rs:791-902 | a packet of a flow not remembered is judged, and settles, asks or learns, as specified; learning writes the file and notes its stamp |
| DaemonLoop.Daemon.SeePacket | src/main.rs:710-950 | what a packet does to the loop and its fate: unreadable, inbound, DNS-reply and non-opening packets pass unjudged |
| DaemonLoop.Daemon.PollHandle | src/main.rs:601-614 | a dead handle is dropped and a missing one reopened and flushed, under kernel attribution alone |
| DaemonLoop.Daemon.PickUpEdit | src/main.rs:616-660 | a reload notes the stamp, replaces policy and mode, forgets verdicts, changes handles only after the upcall is down, and flushes the module it then has |
| DaemonLoop.Daemon.ReconcileUpcall | src/main.rs:662-697 | the upcall follows handle and mode, and UDP divert follows the upcall |
| DaemonLoop.Daemon.OnTick | src/main.rs:592-697 | the handle is polled, the file is loaded if and only if its stamp is not the one noted, and the upcall is reconciled, in that order |
| DaemonLoop.Daemon.OnSignal | src/main.rs:478-491 | the exit turns the upcall off, flushes the module at hand and restores UDP divert |
| DaemonSafety.PromptCarriesItsQuestion | src/main.rs:959-1005 | the question rebuilt from what a prompt carries is the one it was raised under |
| DaemonSafety.InvStep | src/main.rs:476-950 | every step of a turn keeps prompts, accounting and governing |
| DaemonSafety.RunKeepsInv | src/main.rs:476-950 | they hold at every point of every run |
| DaemonResults.OnePromptPerQuestion | src/main.rs:556-572 | questions in flight and prompts on screen are in bijection, whether raised by packet or kernel request, and nothing waits on a question not asked |
| DaemonResults.NoRequestLost | src/main.rs:494-577 | every kernel request taken is answered exactly once, or waits on exactly one prompt on screen, or was given up; only one of these |
| DaemonResults.AnswerReachesEveryWaiter | src/main.rs:494-507 | with a handle an answer resolves every request waiting on its question, once, and no other |
| DaemonResults.GivenUpOnlyWithoutAKernel | src/main.rs:592-697 | a request is given up only without a handle or in a tick that leaves the upcall off |
| DaemonResults.RequestMeetsThePolicy | src/main.rs:528-577 | a request is answered at once as the policy decides, or waits if the policy asks or the binary has changed |
| DaemonResults.UdpIsGovernedOnce | src/main.rs:592-697 | at every loop head UDP is diverted if and only if the upcall is off, the upcall needs handle and enforcement, and no loaded module is left asking; a signalled exit leaves UDP diverted |
| DaemonResults.UpcallKeepsItsHandle | src/main.rs:592-697 | while the upcall stays on the handle stays the same |
| DaemonVerdicts.RecordOvertakes | src/policy.rs:323-460 | a record leaves a settled verdict standing if and only if it is not a block covering an allowed query or an allow covering a query only the default denies |
| DaemonVerdicts.StepAgrees | src/main.rs:494-902 | a step sets the policy against a remembered verdict if and only if it records an answer that overtakes one |
| DaemonVerdicts.RememberedVerdictsStand | src/main.rs:762-890 | over every run remembered verdicts are the policy's own until a record overtakes one, and the first that does parts them |
| DaemonVerdicts.RememberedDeniesStand | src/main.rs:762-890 | while no policy of a run denies by default, a remembered deny stands whatever is answered |
| DaemonVerdicts.NeverRemembersAQuestion | src/main.rs:770-774 | no open question is ever remembered as settled |
| DaemonVerdicts.StepKeepsPushes | src/main.rs:592-902 | a step sets the policy against a verdict that stands pushed in the module at hand, one a protocol, address, port and path, if and only if it records an answer that overtakes one |
| DaemonVerdicts.PushedVerdictsStand | src/main.rs:592-902 | over every run, through reloads, reconnects and switches, what stands pushed in the module at hand is the policy's own until overtaken, and in visibility nothing stands there |
| DaemonVerdicts.FateIsTheVerdict | src/main.rs:710-950 | in enforcement a judged packet meets the verdict due to its own binary, name and port if and only if its flow is not remembered or remembered with that verdict; visibility stops nothing |
| DaemonVerdicts.FateOverRuns | src/main.rs:710-950 | over a run without overtaking, it does if and only if the policy says of the packet that settled the flow what it says of this one |
| DaemonVerdicts.AnotherBinaryPasses | src/main.rs:762-774 | a denied binary on the remembered flow of an allowed one passes |
| DaemonVerdicts.ChangedBinaryPasses | src/main.rs:762-774 | a binary replaced after its flow was remembered passes |
| DaemonSamples.BlockOvertakesAllow | src/main.rs:494-902 | a run in which a block answer overtakes a remembered allow, and another binary passes on it |
| DaemonVerdicts.LearningSettles | src/main.rs:855-876 | a query visibility learns is allowed from then on |
| DaemonVerdicts.AnswerSettles | src/main.rs:494-524 | a recordable answer settles the question its prompt was raised for |
| DaemonFile.StepInStep | src/main.rs:494-697 | from agreement, on any file, a turn parts memory from the file if and only if it records an answer or learns a packet and the record or pin does not reach the file, or takes something from it |
| DaemonFile.MemoryIsTheFile | src/main.rs:494-697 | over any run, from any point of agreement and while nobody else edits the file, the policy in memory is the meaning of the file until the first such step, and that parts them |
| DaemonFile.NotedFileIsInMemory | src/main.rs:592-617 | over any run, with outside edits at any time and on any files: after every tick, and wherever the file's last change is noted, memory is the meaning of the file if and only if the last packet learned since the last load, if any, found memory and file alike but for its rule and reached the file |
| DaemonSamples.EditIsOvertaken | src/main.rs:863-876 | a run in which the file is edited to ask for enforcement, a packet is learned before the next tick, and the mode stays visibility |
| DaemonModules.ResolvedThroughItsOwnModule | src/main.rs:494-577 | over every run whose requests are drained while the upcall is on and their module at hand, each is resolved through the module it came from |
| DaemonModules.RoutedOverRuns | src/main.rs:494-577 | over every run all are, if and only if no answer found a waiter of another module and no request of another was decided at once |
| DaemonModules.AnsweredThroughTheModuleAtHand | src/main.rs:494-507 | an answer resolves its waiters through their own module if and only if all came from the one at hand |
| DaemonSamples.RequestOutlivesItsModule | src/main.rs:592-614 | a run in which a request of a module since unloaded waits and is resolved through its successor |
| DaemonModules.DecidedAtOnceThroughTheModuleAtHand | src/main.rs:528-577 | a request decided at once is resolved through its own module if and only if that is the one at hand |
| Attribution.Tables.AddLocal | src/procinfo.rs:112-118 | the first claimant keeps the key, a second process makes it contested |
| Attribution.Tables.AddPort | src/procinfo.rs:120-126 | the same for the port tier |
| Attribution.Tables.Get | src/procinfo.rs:135-155 | the lookup goes strongest tier first, weak tiers outbound alone |
| Attribution.Snapshot | src/procinfo.rs:282-361 | a socket list fills the tables as its insertion rule says |
| Attribution.AttributedOnlyUndisputed | src/procinfo.rs:112-155 | after any sequence of insertions a weak key names a process if and only if its claimants share one pid, and a refused address never falls through to the port |
| Attribution.DisputeSpreads | src/procinfo.rs:339-352 | a contested address means a contested port |
| Attribution.WeaklyNamedIsEveryClaimant | src/procinfo.rs:96-155 | whoever a weak tier names has the pid of every claimant |
| Attribution.OrderDoesNotMatter | src/procinfo.rs:282-361 | the order of the sockets changes neither whether, how nor, in the weak tiers, to which process a flow is attributed |

## Left out

- The kernel's locks: each critical section is one step. `pfsn_resolve` takes the cache lock inside the queue lock; its removal from the queue commutes with sections that touch only the cache, so it is one step too.
- Kernel code outside the module: label allocation, vnode path lookup, net epoch and `in_pcblookup`. A socket's recorded path, pid and uid are given.
- Wrap-around of the 64-bit request id and of the tick counter: ids and clock are unbounded, and the clock does not run backwards.
- Freeing memory: the queue and the chains are sequences, so aliasing of list links is not modelled.
- Writing the policy file: write-then-rename is one step that succeeds. Failures to write are not modelled, nor is a second writer between a read and the rename.
- The grain of the file's modification time: every write gives the file a stamp it never had, so an edit within the clock's grain of the one before is still seen.
- DaemonFile.NotedFileIsInMemory: for names, paths and notes a policy line can carry, as `CleanEvent` says.
- The address grammar: addresses are printed and parsed by a pair assumed lawful (it round-trips, IPv6 has two colons at least, no brackets or white space); `Targets.PlainIsLawful` shows that the assumption can be met.
- PolicyFile.RemoveRuleMeaning: for a rule that can itself be spelled back (no brackets, `#` or white space in its host, a trimmed path without `#`); the file's other rules and lines are arbitrary.
- The comment behind a recorded rule: its date and wording are a parameter.
- Letter case and white space beyond ASCII.
- The ten rule sets of the policy are one set of rules tagged by kind.
- Policy listing, the summary, `seen.rs`, `identity.rs` (a binary's hash is an input), CLI, JSON output, rc.d, watchdog, installer and prompt scripts.
- `DnsCache.observe` and expiry: a map insert per address, and a real clock.
- DNS labels that are not UTF-8: a name is its bytes; the lossy decoding is not modelled.
- IPv4 fragments: the reader does not inspect the fragment offset, and nothing is claimed about them.
- Raw sockets, reinjection, `payload_offset`, ioctl marshalling, libprocstat walking and generated bindings: their results are inputs.
- `Resolver.resolve`, its rescans and `missed`: it calls `get` again on a new snapshot.
- Attribution.OrderDoesNotMatter: in the exact tier the last socket inserted wins, so there the process may depend on order; the lemma claims whether and how, not which.
- The kernel's own cache against `decide`: a prompt that times out resolves its waiting requests as deny, and one question covers several ports, so the two are not claimed equal.
- DaemonResults.NoRequestLost: that an event is drained once is taken from `KernelSafety.DeliveredAtMostOnce`.
- DaemonVerdicts.PushedVerdictsStand: of the module at hand; a module left behind by an attribution switch keeps what was pushed to it, and answers to kernel requests are not pushes, though the kernel keeps both under one key and drops what finds its table full (`KernelSafety.HitIsNewestDecision`).
- The log, DNS learning and the contact notes in the daemon's packet path.
- pf itself: `pfctl` succeeds, nobody else edits the sub-anchor, and UDP is diverted at the start.
