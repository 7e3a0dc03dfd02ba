# Verified model of awsbnkctl's algorithms and protocols

awsbnkctl is a command line tool around AWS, Kubernetes and the Forge benchmark server. Most of it is
plumbing; this project models the parts that are algorithms or protocols and proves what they promise.
`dafny verify dfyconfig.toml` checks everything.

| file | models |
|---|---|
| Scheduler.dfy | the scenario registry, `topoSort` (Kahn's algorithm) and `runAllScenarios` |
| Redactor.dfy | the streaming secret redactor |
| LineFilter.dfy | the two buffering log filters behind `logs --governance` |
| AgentRuns.dfy | the benchmark agent worker: sessions, run goroutines, cancel map, all interleavings |
| AgentLoop.dfy | the worker's token and connect loop: token source, re-mint, token file, backoff |
| Base64.dfy | the inlined base64 encoder against section 4 of RFC 4648 |
| Shell.dfy | single-quoting, argv joining and env merging against the POSIX Shell Command Language (IEEE Std 1003.1-2017, XCU sections 2.2.1, 2.2.2, 2.3) |
| ShellEnv.dfy | the `.env` file, the wrapper script, `extractSSHTarget` |
| NativeRun.dfy | the SSH client's own quoting and environment requests, and the choice between both paths |
| Registration.dfy | `Register` / `Unregister` against a failing server and a link file |
| Cleanup.dfy | deleting benchmark artifacts with partial failures |
| Sequence.dfy | scenario sequences with a reset seam, and the per-key tables |
| OneLine.dfy | UTF-8 safe truncation, against section 3 of RFC 3629 |
| TokenStore.dfy | the agent token cache and atomic file replacement |
| Shootout.dfy | fail-closed front-end resolution |
| Vantages.dfy | the in-place sort of GSLB vantage names |
| Wrappers.dfy | shared: an optional value, white space, how the server answers a delete, parts picked in order |

## How the source's form is kept

Code that updates variables in loops is a `method` with the same loops, proved against a specification
function or a property stated outright; the lemmas are about those functions. Objects whose methods update
fields are classes (`Redactor.Writer`, `LineFilter.Filter`, `AgentRuns.BenchmarkAgentWorker`,
`AgentLoop.BenchmarkAgentWorker`, `Registration.Workspace`, `Cleanup.Forge`, `Scheduler.Registry`). The worker's
goroutines are a step relation: one event per critical section of its mutex or per context operation, so a
sequence of enabled events is an interleaving; the class shows that each critical section does exactly its event.
Whatever lies outside (the server's answers, how a scenario or a child run ends, the record parser, the clock) is a parameter and
universally quantified, so each theorem holds for every behaviour of it.

## What the proofs found

- Moving core-file-collection last keeps dependencies first exactly when no scenario depends on it
  (`CoreLastKeepsOrder`). The comment calls the step a guard; with a dependent it breaks the order, in the
  smallest case with two scenarios (`BrokenOrder`).
- `topoSort`'s error speaks of a cycle; the reported set is exactly the scenarios that can reach a cycle or an
  unregistered name, and the branch that skips unregistered names in the queue is never taken.
- The redactor's decisions, and the bytes it delivers, are independent of how the stream is chunked exactly when
  no live secret has a later-listed proper prefix among the secrets (`ChunkingIrrelevantIff`,
  `DeliveredIsOneShotIff`). Otherwise the tail of the longer secret can be delivered: secrets "abc", "ab" and input
  "abcx" in one Write (`ShadowWitness`). In every case the first byte of every occurrence is masked. A Write that
  fails reports 0 bytes taken but keeps them buffered; a failing Close drops the held-back tail.
- The worker's cancel map tracks exactly the in-flight runs as long as no run id is dispatched again while in
  flight, and only then (`TrackedIffNoDuplicate`); after a duplicate, the first finisher removes the other's entry.
- A shutdown cancels every run at once, while its session may still hold an open socket; apart from that, from the
  end of the session and from the run's own end, a run is cancelled exactly by a call of its own cancel function
  (`CancelledExactly`, `ShutdownWhileServing`).
- A rejected token is presented again exactly when it was a cached one and the endpoint mints the very same
  (`RejectedNotRetried`); a rejected cached token stays in the file when neither its delete nor the write of a
  successor gets through (`NextStartFinds`).
- How many Forge clusters a workspace owns is exact, run by run (`RunCount`): those an orphaning registration left
  without a link, those an Unregister stranded, and the linked one, less those a purge, a rollback or someone else took
  away. At most one over all runs needs two things, and exactly these (`OneClusterIff`): that no registration orphans a
  cluster (a lost link write, or a create_cluster that lands behind an error and is not rolled back) and that no
  Unregister strands one. `Is404` takes any text with "not found" or "http 404" for a deletion, also that of a missing
  tool or endpoint (internal/forge/rest.go:226-236, internal/forge/mcp/client.go:214): Unregister then drops the link,
  the cluster stays, and the next Register makes a second one (`MisledUnregisterDuplicates`). One lost link write
  without a retry leaves one cluster, and with a retry two (`LostWriteDuplicates`).
- The cleanup counts the same answers as successful deletes, and a missing route answers like that too
  (internal/forge/rest.go:438-442). So a run that reports no error can leave everything in place (`MisledCleanRun`);
  what a clean run leaves of the cluster's targets and proxies is exactly what such an answer left
  (`CleanMeansNoTargets`), and the results on agents, credentials, reruns and the full purge carry the same term.
- The wrapper script does not stop when `cd` fails: the tool then starts in the login directory, and a working
  directory with a leading '-' is never entered (`WrapperAsAskedIff`, `MissingDirStarts`).
- The native SSH path starts what the wrapper script would exactly when the remote sshd accepts every variable's
  name, the wrapper does not leave the login directory (the native path never does), and the tool's name is not one
  the shell reads as a reserved word or an assignment, which the client's quoting leaves bare
  (`NativeMatchesWrapper`). The canary that chooses the path says nothing about the other names (`CanaryMisleads`).
- A clean cleanup run removes only the first agent of the jumphost's name, and treats a list call that fails with
  a "not found" text as clean although nothing was looked at (`CleanAgentsGoneIff`).
- The comment in `extractSSHTarget` gives the canonical prefix priority. It has it if and only if its last value is
  not empty or no legacy entry with a value follows (`CanonicalWins`); `AWSBNKCTL_SSH_TARGET=` before
  `ROKSBNKCTL_SSH_TARGET=x` gives "x" (`EmptyCanonicalLoses`).
- Two Forge URLs can share a token key for different stores exactly when one of them, trimmed and with its bar, is a
  proper prefix of the other (`KeyClash`).
- A log line whose print fails is counted as a record all the same (`LineFilter.Filter.Write`).
- Writing one cached token loses exactly the entries only the legacy flat layout served, and brings to light what a
  value of the wrong type elsewhere in the file kept from being read (`OthersKeptByWriteIff`); deleting one from such
  a file removes the whole file (`OthersKeptByDeleteIff`, `PartlyDecoded`).

## Model

| member | source | states |
|---|---|---|
| Scheduler.Registry.Register | internal/scenarios/scenario.go:163-170 | registering a taken name panics and changes nothing, so registered names stay distinct |
| Scheduler.StuckStep | internal/cli/scenarios.go:100-113 | from a name Kahn's loop left over, the walk along dependencies always goes on, and ends or visits a fresh name |
| Scheduler.StuckWalk | internal/cli/scenarios.go:100-113 | a left-over name reaches a cycle or an unregistered name (finite descent on unvisited names) |
| Scheduler.OrderedNotDoomed | internal/cli/scenarios.go:77-98 | a sorted name reaches neither a cycle nor an unregistered name |
| Scheduler.MissingIffDoomed | internal/cli/scenarios.go:100-113 | when the loop stops, a scenario is missing from the sorted list if and only if it can reach a cycle or an unregistered name |
| Scheduler.CoreLastKeepsOrder | internal/cli/scenarios.go:115-127 | the rearrangement keeps dependencies before dependents if and only if nothing depends on core-file-collection |
| Scheduler.CoreLastPermutes | internal/cli/scenarios.go:115-127 | the rearrangement is a permutation with distinct names |
| Scheduler.CoreLastMoves | internal/cli/scenarios.go:115-127 | the others keep their places, picked by increasing positions, and core-file-collection, if there, ends up last |
| Scheduler.CountEntries | internal/cli/scenarios.go:57-66 | the entries of one scenario: its own count is their number, every other count stays, new names are tracked at 0 |
| Scheduler.BuildInDegree | internal/cli/scenarios.go:55-67 | in-degree counts dependency entries, repeats included; names seen only as dependencies are tracked at 0 |
| Scheduler.RelaxOne | internal/cli/scenarios.go:88-96 | one decrement per matching entry; the name is queued exactly when its count passes through 0, so once whatever its multi-edges |
| Scheduler.KahnTurn | internal/cli/scenarios.go:78-98 | one turn keeps: sorted list dependency-ordered, queue history distinct, registered and exactly the names without undone entries; the skip branch is dead |
| Scheduler.Unresolved | internal/cli/scenarios.go:101-113 | the reported list is exactly the doomed names in registration order |
| Scheduler.DoomedInOrder | internal/cli/scenarios.go:101-113 | that list picks the doomed scenarios by increasing registration positions, all of them |
| Scheduler.TopoSort | internal/cli/scenarios.go:48-130 | fails if and only if some scenario is doomed, reporting exactly those in registration order; otherwise a dependency order of all scenarios, first in, first out (whichever becomes ready earlier, then whichever is registered earlier), from which core-file-collection is taken out and put last, the others in the same order |
| Scheduler.OrderDetermined | internal/cli/scenarios.go:68-98 | such an order is unique: the registry alone determines it |
| Scheduler.FifoStep | internal/cli/scenarios.go:78-98 | finishing a scenario keeps the queue first in, first out; those it releases come in registration order |
| Scheduler.BrokenOrder | internal/cli/scenarios.go:115-127 | a concrete registry of two on which the result is not a dependency order |
| Scheduler.FrontOrderedIff | internal/cli/scenarios.go:115-127 | any front part of the final order is in dependency order if and only if nothing in it depends on core-file-collection |
| Scheduler.RunSorted | internal/cli/scenarios.go:169-188 | runs the order up to the first failure and nothing after; what ran did so in dependency order if and only if nothing that ran depends on core-file-collection, also after a failure |
| Scheduler.RunAllScenarios | internal/cli/scenarios.go:133-189 | nothing runs on a cycle or when the context cannot be built; otherwise the sorted scenarios run as above; an empty registry needs no context |
| Redactor.HoldBackBound | internal/exec/redact.go:67-97 | after any Write at most 2*(maxLen-1) bytes are held back |
| Redactor.FeedReads | internal/exec/redact.go:121-152 | for every chunking and secret list, the decisions read the stream left to right: passed bytes in order, each mask covering one secret, no byte passed where a secret starts |
| Redactor.EveryOccurrenceMasked | internal/exec/redact.go:15-24 | for every chunking, the first byte of every occurrence of every secret lies in a replaced range |
| Redactor.MatchStable | internal/exec/redact.go:124-134 | without a shadowed secret, bytes arriving later never change a match already possible |
| Redactor.FeedIsParse | internal/exec/redact.go:67-112 | without a shadowed secret, any chunking followed by Close decides what the one-shot scan decides |
| Redactor.ShadowSplits | internal/exec/redact.go:80-86 | a live secret with a proper prefix among the others yields a stream whose first replaced range depends on the chunking |
| Redactor.ChunkingIrrelevantIff | internal/exec/redact.go:55-97 | chunking never changes the replaced ranges if and only if no live secret is shadowed by a later-listed proper prefix |
| Redactor.DeliveredIsOneShotIff | internal/exec/redact.go:55-112 | the same byte for byte, in both directions: were the bytes never different, what follows a shadow inside its secret could be repeated for ever without showing in the output |
| Redactor.ShadowWitness | internal/exec/redact.go:127-134 | the smallest failing input, with both outputs |
| Redactor.Writer.constructor | internal/exec/redact.go:41-53 | keeps the given secrets without the empty ones, in the given order (increasing positions that cover every non-empty entry), and computes the longest length |
| Redactor.NothingDropped | internal/exec/redact.go:43-51 | a list without empty entries is kept as it is |
| Redactor.FirstMatchIndex | internal/exec/redact.go:124-134 | at every position the first-listed secret that starts there is the one masked |
| Redactor.Writer.ScanBytes | internal/exec/redact.go:121-152 | the index loop computes the specified decisions' bytes and the kept suffix |
| Redactor.Writer.IsPotentialPrefix | internal/exec/redact.go:157-167 | true if and only if the tail is a non-empty strict prefix of some secret |
| Redactor.Writer.Write | internal/exec/redact.go:67-100 | delivers and buffers exactly what one specified step does, within the space bound; when the underlying writer fails, what it took is a prefix of that, 0 is reported and everything stays buffered |
| Redactor.Writer.Close | internal/exec/redact.go:104-112 | delivers the rest, or the part the underlying writer takes, empties the buffer in either case, is harmless when repeated |
| Redactor.Redact | internal/exec/redact.go:31-40 | a whole session over any chunking delivers the one-shot redaction for the kept secrets, in the order given, when no live one is shadowed; for a list without empty entries, the one for that list |
| LineFilter.LinesConcat | internal/cli/inspect.go:756-770 | the lines of a concatenation are those of the front, then those of its unfinished rest with the back |
| LineFilter.AllLinesMean | internal/cli/inspect.go:756-778 | the lines of a stream have no newline in them, and one to a line they are the stream, the unfinished last line included |
| LineFilter.Filter.EmitFirst | internal/cli/inspect.go:760-768 | one turn of the loop takes the first line off, also when its print fails |
| LineFilter.Filter.Write | internal/cli/inspect.go:688-702 | emits the finished lines of buffer and input in order up to the first whose print fails; keeps the later lines and the unfinished rest |
| LineFilter.Filter.Flush | internal/cli/inspect.go:773-778 | emits a trailing line without newline once |
| LineFilter.HealthyEmitsAll | internal/cli/inspect.go:756-770 | while the underlying writer takes everything, every line is emitted |
| LineFilter.Conservation | internal/cli/inspect.go:780-792 | records plus dropped grow by exactly the number of non-blank lines taken, however prints fail |
| LineFilter.GovernanceCounts | internal/cli/inspect.go:780-792 | that number does not depend on the parser or on mcpOnly |
| LineFilter.Session | internal/cli/inspect.go:683-718 | for every chunking followed by Flush, output and counters are those of emitting each line of the whole stream once, in order: the texts kept, one to a line |
| LineFilter.GovernanceSession | internal/cli/inspect.go:729-792 | for every chunking, what is printed is the parsed records of the stream, those with an rpc_method under mcpOnly, and Records and Dropped add up to the lines with something on them |
| LineFilter.TmmSession | internal/cli/inspect.go:683-718 | for every chunking followed by Flush, what is printed is the unwrapped lines of the TMM pod, in order, one to a line |
| AgentRuns.BenchmarkAgentWorker.SetConnected | internal/forge/agent_ws.go:342-350 | the section after a dial does exactly the Connect event |
| AgentRuns.BenchmarkAgentWorker.SetDisconnected | internal/forge/agent_ws.go:429-434 | drops the socket and the connected flag together, nothing else |
| AgentRuns.BenchmarkAgentWorker.CancelSession | internal/forge/agent_ws.go:349-350 | cancels exactly the contexts derived from the session's |
| AgentRuns.BenchmarkAgentWorker.Shutdown | internal/forge/agent_ws.go:349-350 | cancelling the worker's context ends every session's and cancels every run's, and does nothing else |
| AgentRuns.BenchmarkAgentWorker.StartRun | internal/forge/agent_ws.go:505-509 | a new context, cancelled already if its session is, and its entry under the run id |
| AgentRuns.BenchmarkAgentWorker.ReportRun | internal/forge/agent_ws.go:436-443 | one attempt, which is sent exactly when a socket is open and the write to it works |
| AgentRuns.BenchmarkAgentWorker.DropEntry | internal/forge/agent_ws.go:512-515 | removes whatever the map holds under the run's id |
| AgentRuns.BenchmarkAgentWorker.FindCancel | internal/forge/agent_ws.go:552-554 | captures the entry's cancel function, if there is one |
| AgentRuns.BenchmarkAgentWorker.CallFoundCancel | internal/forge/agent_ws.go:556-558 | cancels the captured run's context only |
| AgentRuns.StepInv | internal/forge/agent_ws.go:342-434 | every event keeps: map entries point at in-flight runs of that id, runs of ended contexts are cancelled, no cancellation without a reason, a session's context is live exactly while the main loop is in it and no shutdown came, the socket is the served session's, one report per reported run |
| AgentRuns.AlwaysInv | internal/forge/agent_ws.go:304-563 | that invariant holds after every interleaving |
| AgentRuns.TrackedIffNoDuplicate | internal/forge/agent_ws.go:505-517 | along every interleaving, each in-flight run's entry is its own cancel function throughout if and only if no id is dispatched while in flight |
| AgentRuns.KeysAreInFlight | internal/forge/agent_ws.go:505-517 | then the map's keys are exactly the ids of started, unfinished runs |
| AgentRuns.DuplicateLosesEntry | internal/forge/agent_ws.go:512-517 | of two in-flight runs under one id, the first to finish leaves the other uncancellable |
| AgentRuns.DuplicateReachable | internal/forge/agent_ws.go:505-517 | such a state is reachable |
| AgentRuns.CancelHitsItsRun | internal/forge/agent_ws.go:552-558 | a cancel command finds the in-flight run with its id |
| AgentRuns.CancelReachesItsRun | internal/forge/agent_ws.go:552-558 | whatever happens between looking the cancel function up and calling it, the call cancels that run's context and touches no other |
| AgentRuns.CancelledExactly | internal/forge/agent_ws.go:349-350 | a run's context is cancelled if and only if its session is over, the worker is shut down, the run finished, or its cancel function was called; late runs included |
| AgentRuns.DownIffShutdown | internal/forge/agent_ws.go:423-425 | the worker's context is cancelled exactly after a shutdown |
| AgentRuns.ShutdownWhileServing | internal/forge/agent_ws.go:414-426 | a shutdown can cancel a run while the socket is open, without a cancel command and before the session ends |
| AgentRuns.AskedByCommand | internal/forge/agent_ws.go:535-558 | a run counts as asked for only by a cancel command with its id handled while it was in flight |
| AgentRuns.RunOrigin | internal/forge/agent_ws.go:505-509 | a run started by the i-th handled run command keeps that command's id and the session it was received in for ever |
| AgentRuns.ExactlyOneTerminalReport | internal/forge/agent_ws.go:521-531 | each run whose goroutine got past its report made exactly one terminal attempt, completed or failed as its handler returned |
| AgentLoop.RejectionBound | internal/forge/agent_ws.go:225-242 | at most two sessions end in a rejection, two only after re-minting a cached token |
| AgentLoop.RejectedNotRetried | internal/forge/agent_ws.go:225-242 | within one run (a summary of the loop): after a rejection the worker goes on only once, with a token minted in place of a cached one; a configured or minted token is never tried again, a cached one exactly when the same is minted |
| AgentLoop.StopsAtFatal | internal/forge/agent_ws.go:225-242 | the worker stops at the first rejection that met a token not cached, a mint that was not fresh, or that was the second, and at no other session |
| AgentLoop.NextStartFinds | internal/forge/agent_token.go:295-331 | after one run (a summary of its steps): what the token file holds for the next start, for every outcome of deletes, mints and writes |
| AgentLoop.LifeForgets | internal/forge/agent_token.go:295-331 | a run of the worker neither presents nor stores a token that the file does not yield and the endpoint does not hand out |
| AgentLoop.NeverRetried | internal/forge/agent_ws.go:259-281 | over any number of later runs, a rejected cached token whose delete or replacement got through is never presented again, until the endpoint hands out the very same |
| AgentLoop.BenchmarkAgentWorker.AcquireToken | internal/forge/agent_token.go:295-331 | token, source and file come from the configured, the cached or the minted token, in this order; on failure nothing changes |
| AgentLoop.StartPrecedence | internal/forge/agent_token.go:295-331 | a configured token is used whatever the file holds, else a readable cached one whatever the endpoint says, else the minted one, stored if the write gets through |
| AgentLoop.BenchmarkAgentWorker.RemintAgentToken | internal/forge/agent_ws.go:259-281 | the old token is deleted before and the new one written after the mint, each only if it gets through; the worker's token changes exactly when the mint succeeds |
| AgentLoop.BenchmarkAgentWorker.Serve | internal/forge/agent_ws.go:209-257 | auth error if and only if some rejection met a token that was not cached or a mint that was not fresh, or was the second one, and then right after the first such; any other session end is followed by a session while there is one; each session presents the token in hand, after a re-mint the minted one; one wait per ordinary disconnect, from 2 seconds, doubling up to 30; at most one re-mint; the final file |
| AgentLoop.BenchmarkAgentWorker.ServeLoop | internal/forge/agent_ws.go:209-257 | the loop itself: the same through the specification functions the other lemmas speak of |
| AgentLoop.BenchmarkAgentWorker.Run | internal/forge/agent_ws.go:180-257 | the same from the token file and the mint endpoint on: no session at all exactly when no token can be had, else the sessions go on and stop as above |
| Base64.Base64Encode | internal/exec/ssh.go:562-578 | the loop's output decodes, per section 4 of RFC 4648, to the input |
| Base64.DecodeEncoding | internal/exec/ssh.go:562-578 | decoding inverts encoding for every byte string |
| Base64.EncodingDecode | internal/exec/ssh.go:562-578 | every text the strict decoder accepts is the encoding of what it decodes to |
| Base64.EncodingShape | internal/exec/ssh.go:564-576 | length 4*ceil(n/3), '=' only at the end and as often as n mod 3 says, the rest from the alphabet |
| Base64.GroupDigits | internal/exec/ssh.go:566-567 | the shifts and masks split three bytes into their four 6-bit digits |
| Shell.LexQuote | internal/exec/ssh.go:584-589 | the shell reads a quoted text as exactly that text inside one word, whatever it contains |
| Shell.JoinArgvShell | internal/exec/ssh.go:593-599 | the two loops produce the specified text |
| Shell.ShellRoundTrip | internal/exec/ssh.go:584-599 | the shell splits the joined text into exactly argv, as one command, if and only if argv carries no NUL |
| Shell.MergeSSHEnv | internal/exec/ssh.go:506-549 | one entry per key in first-seen order with the last value, local-only and malformed entries gone |
| Shell.EntriesReadBack | internal/exec/ssh.go:544-548 | merged entries read back as the map and key order they came from |
| Shell.MergeKeepsMap | internal/exec/ssh.go:496-549 | merging keeps the last-wins map and is idempotent |
| Shell.LaterWins | internal/exec/ssh.go:536-543 | credential entries win over caller entries, key by key |
| Shell.LastWinsMeans | internal/exec/ssh.go:525-549 | a key is in the last-wins map if and only if some entry sets it, with the value of the last that does |
| Shell.FirstSeenMeans | internal/exec/ssh.go:525-549 | the keys stand in the order of the first entries that set them |
| ShellEnv.BuildEnvContent | internal/exec/ssh.go:420-434 | the builder loop writes one quoted assignment per well-formed entry |
| ShellEnv.EnvRoundTrip | internal/exec/ssh.go:418-434 | sourcing the text gives the last-wins map if and only if every key is a shell name and no value carries NUL |
| ShellEnv.BuildWrapper | internal/exec/ssh.go:447-470 | the builder writes the specified script |
| ShellEnv.LexTrapLine | internal/exec/ssh.go:451-453 | despite the nested quotes the trap line is one command of three words for a plain path |
| ShellEnv.LexWrapper | internal/exec/ssh.go:447-470 | the shell reads the script as exactly its intended commands |
| ShellEnv.WrapperHygiene | internal/exec/ssh.go:447-470 | tracing is off and the removal of the temporary directory arranged before the variables are read; running argv is the last command |
| ShellEnv.WrapperLaunches | internal/exec/ssh.go:418-470 | the script, run against the `.env` file, launches exactly argv with the last-wins environment, wherever `cd` leads |
| ShellEnv.WrapperAsAskedIff | internal/exec/ssh.go:447-470 | so what was asked for is launched if and only if no directory was asked for, or one without a leading '-' that `cd` enters |
| ShellEnv.MissingDirStarts | internal/exec/ssh.go:447-470 | in a missing directory the tool starts all the same, in the login directory; never in one called "-" |
| NativeRun.ShellQuote | internal/remote/ssh.go:310-335 | the loop leaves exactly the texts of harmless characters bare |
| NativeRun.JoinArgv | internal/remote/ssh.go:299-308 | the builder produces the specified line |
| NativeRun.RemoteLineRead | internal/remote/ssh.go:296-335 | the shell reads the line as one command of one word per argument if and only if argv carries no NUL |
| NativeRun.LineRunsArgv | internal/remote/ssh.go:296-335 | that command runs argv if and only if its first element is not a bare reserved word or assignment |
| NativeRun.SetEnv | internal/remote/ssh.go:170-179 | one request per well-formed entry; the session gets those the sshd accepts, the last of each name |
| NativeRun.NativeMatchesWrapper | internal/exec/ssh.go:207-237 | both paths start the same program, arguments, environment and place if and only if every name is accepted, the tool is not misread, and no directory is asked for or `cd` fails |
| NativeRun.StartedAsAsked | internal/exec/ssh.go:207-237 | the exact condition for Run to start what it was asked to, for each of the two paths |
| NativeRun.CanaryMisleads | internal/exec/ssh.go:388-412 | an sshd that accepts the program's own prefix passes the canary and drops every other variable |
| ShellEnv.ExtractSSHTarget | internal/exec/ssh.go:244-263 | the entries that are no sentinel survive, in order, and only they; the target follows the last canonical entry, or the first non-empty legacy entry after it when that is empty |
| ShellEnv.NoSentinelSurvives | internal/exec/ssh.go:250-261 | exactly the entries under neither prefix survive |
| ShellEnv.TargetMeans | internal/exec/ssh.go:244-263 | the target case by case: the last canonical value if not empty, else the first legacy value after it, else nothing |
| ShellEnv.CanonicalWins | internal/exec/ssh.go:240-263 | the target is the last canonical value if and only if that is not empty or no legacy entry with a value follows it |
| ShellEnv.EmptyCanonicalLoses | internal/exec/ssh.go:250-257 | an input on which the canonical prefix loses |
| Registration.Workspace.Register | internal/forge/register.go:82-228 | the call does exactly the specified step, for every pattern of calls that fail with or without their effect |
| Registration.Workspace.CreateCluster | internal/forge/register.go:180-209 | the second half, from create_cluster to the link |
| Registration.Workspace.Unregister | internal/forge/register.go:249-270 | the call does exactly the specified step: cluster, then project when purging, then the link, an error that says "not found" taken for a deletion |
| Registration.FreshLinkFaithful | internal/forge/register.go:146-209 | a first registration links exactly the new cluster, in its project, under the requested names and both requested URLs; the project is new and named as asked, or after a conflict the first listed one of that name; everything else on the server is as before |
| Registration.RefreshKeepsIds | internal/forge/register.go:107-122 | on a live link each non-empty requested URL replaces the recorded one and nothing else changes; written exactly when a URL changed |
| Registration.RegisterOutcomes | internal/forge/register.go:82-228 | when Register ends in each of its outcomes, over all inputs |
| Registration.FindsFirst | internal/forge/register.go:157-169 | the lookup by name finds the first listed project of that name |
| Registration.LowerMeans | internal/forge/register.go:162 | names agree exactly if they do letter by letter up to ASCII case |
| Registration.RunKeeps | internal/forge/register.go:103-270 | over every run of calls and outside changes, the owned clusters are exactly those still standing among the linked one, those without a link and those an Unregister left behind; there are as many of these as orphaning and stranding calls |
| Registration.OwnedCount | internal/forge/register.go:103-270 | so their number is the sum of the three |
| Registration.RunCount | internal/forge/register.go:103-270 | run by run from a clean start: owned plus taken away equals orphaned plus stranded plus linked; so at most one is owned exactly when that sum is at most one |
| Registration.NothingTaken | internal/forge/register.go:103-270 | without a purge or a deletion by others nothing is taken away |
| Registration.AtMostOneCluster | internal/forge/register.go:70-76 | over every run in which no call orphans or strands a cluster, the workspace owns at most one, and it is the linked one |
| Registration.OneClusterIff | internal/forge/register.go:70-76 | at most one cluster over every run that keeps to either proviso, both or none: if and only if both |
| Registration.LostWriteDuplicates | internal/forge/register.go:206-209 | a lost link write and a retry leave two clusters |
| Registration.MisledUnregisterDuplicates | internal/forge/register.go:297-325 | a failed delete_cluster that says "not found" loses the link of a standing cluster, and the next registration makes a second one |
| Registration.RegisterOnlyCount | internal/forge/register.go:103-209 | over registrations alone, the workspace owns one cluster per orphaning call, plus one if linked |
| Registration.RepeatedRegister | internal/forge/register.go:103-122 | registering again, however often and whatever fails, creates nothing and keeps the ids |
| Registration.SecondRegisterSameIds | internal/forge/register.go:103-122 | later successful calls report the ids of the first |
| Registration.RollbackOnlyOwnProject | internal/forge/register.go:187-194 | a failed create_cluster takes the project back exactly when this call created it and the rollback got through |
| Registration.UnregisterDropsLast | internal/forge/register.go:249-270 | when Unregister ends in each of its outcomes; after the link is dropped its cluster still stands if and only if its delete left it alone, said "not found" and no purge took it along |
| Registration.UnregisterScope | internal/forge/register.go:249-270 | which projects and clusters are there afterwards, exactly: the linked cluster goes, the linked project only when purging and only after the cluster, with its clusters if the server cascades, nothing else |
| Registration.StaleUntilDropped | internal/forge/register.go:107-113 | once the linked cluster is gone, every Register after any run is refused with that link if and only if no Unregister in the run dropped it |
| Cleanup.Forge.DeleteTargetsAndProxies | internal/forge/cleanup.go:355-383 | attempts exactly the plan in order, removes what the deletes removed, reports no error exactly when every list worked and every delete counted as success |
| Cleanup.Forge.DeleteNamed | internal/forge/cleanup.go:230-252 | deletes the first record of the exact name; a failing list counts unless it says "not found" |
| Cleanup.Forge.DeleteClusterBenchmarkArtifacts | internal/forge/cleanup.go:206-259 | attempts exactly the down-path plan, and when it reports no error |
| Cleanup.Forge.DeleteAllClusterBenchmarkArtifacts | internal/forge/cleanup.go:280-348 | attempts exactly the purge plan, and when it reports no error |
| Cleanup.DownComplete | internal/forge/cleanup.go:363-377 | every listed target and every proxy whose list was read is attempted exactly once, proxies before their target |
| Cleanup.ClusterScope | internal/forge/cleanup.go:355-383 | attempted of targets and proxies, exactly: the targets of the cluster, and those of their proxies whose list was read |
| Cleanup.Frame | internal/forge/cleanup.go:185-205 | a record goes exactly when it was attempted and the delete took effect, reported or not |
| Cleanup.DownScope | internal/forge/cleanup.go:206-259 | attempted on the way down, exactly: that, and with an instance and a login the first agent and the first credential named "awsbnkctl-jumphost-" plus the instance |
| Cleanup.PurgeScope | internal/forge/cleanup.go:280-348 | attempted by the full purge, exactly: the cluster's part, and with a login the agents, credentials and configs whose list was read and whose name starts with "awsbnkctl-" |
| Cleanup.SelectPicks | internal/forge/cleanup.go:286-340 | a selection holds the matching records, all of them, in the order listed |
| Cleanup.CleanMeansNoTargets | internal/forge/cleanup.go:206-258 | after a clean run a target of the cluster, or a proxy of one, remains if and only if its delete was answered "not found" and left it |
| Cleanup.MisledCleanRun | internal/forge/cleanup.go:126-134 | a clean run that leaves its target |
| Cleanup.CleanAgentsGoneIff | internal/forge/cleanup.go:230-240 | after a clean run no agent of the exact name remains if and only if there was none, or one that was looked up and whose delete was not such an answer |
| Cleanup.CleanCredentialsGoneIff | internal/forge/cleanup.go:242-253 | the same for the SSH credential |
| Cleanup.RerunIsNoOp | internal/forge/cleanup.go:200-202 | no rerun after a clean run attempts anything if and only if no target's delete was such an answer and the agent and credential are gone |
| Cleanup.PurgeLeavesSubset | internal/forge/cleanup.go:261-280 | a clean full purge leaves a subset of what a down-path cleanup leaves if and only if it got no such answer for a record the latter removes |
| Sequence.ParseScenarioKeys | internal/cli/benchmark.go:436-450 | the loop computes the trimmed entries, or an error for an empty value or entry |
| Sequence.SplitMeans | internal/cli/benchmark.go:436-450 | the parts carry no comma, and joined with commas they are the value again |
| Sequence.TrimMeans | internal/cli/benchmark.go:436-450 | trimming takes off white space only, and all of it |
| Sequence.KeysRoundTrip | internal/cli/benchmark.go:436-450 | clean keys joined with commas parse back, repeats included |
| Sequence.Collect | internal/cli/benchmark.go:1464-1543 | one outcome per child in order, whatever fails; it failed unless its result was pushed, has that push's run id or 0, and its status says which step failed |
| Sequence.RunSequence | internal/cli/benchmark.go:1588-1623 | resets exactly between consecutive keys, stops at the first failing reset, returns the outcomes of the completed keys |
| Sequence.AlternatingAt | internal/cli/benchmark.go:1580-1583 | runs at even positions of the trace, resets joining their neighbours at odd ones |
| Sequence.CutTables | internal/cli/benchmark.go:1665-1697 | the offset loop gives each completed key a table with exactly its own outcomes, also after an early stop and with repeated keys |
| Sequence.TablesPartition | internal/cli/benchmark.go:1665-1697 | the tables' rows in order are the outcome list: nothing lost or repeated |
| Sequence.TablesMean | internal/cli/benchmark.go:1665-1716 | each completed key's table has one row per child, telling how that child ended |
| Sequence.RunNativeScenario | internal/cli/benchmark.go:1630-1716 | bad or unknown keys stop it before any event; reset failure reported after the tables; error for failures exactly when no child of any key was pushed |
| OneLine.DecodeEncodeAll | internal/cli/forge.go:438-448 | encoded text is well-formed UTF-8 and decodes to itself |
| OneLine.CutBoundary | internal/cli/forge.go:450-457 | walking back over continuation bytes from byte 160 ends at the longest boundary that fits |
| OneLine.FittingIsLongest | internal/cli/forge.go:450-457 | that prefix is the longest within the limit |
| OneLine.AbridgedAt | internal/cli/forge.go:438-460 | the text shown is the longest front part within 160 bytes, with a blank for each line break, and an ellipsis exactly when something is left out |
| OneLine.OneLine | internal/cli/forge.go:438-460 | well-formed, at most 163 bytes, no CR or LF, the flattened text or its longest fitting prefix plus the ellipsis |
| TokenStore.KeyInjective | internal/forge/agent_token.go:47-49 | keys agree exactly for the same agent and URL up to trailing slashes, when URLs carry no '\|' |
| TokenStore.KeyClash | internal/forge/agent_token.go:47-49 | two URLs have different stores sharing a key if and only if one of them, trimmed and with its bar, is a proper prefix of the other |
| TokenStore.KeyClashWitness | internal/forge/agent_token.go:47-49 | two agents and URLs that share a key |
| TokenStore.ReadAfterRun | internal/forge/agent_token.go:53-227 | over every history of writes and deletes from any file, a key reads as its last operation says while that token is not empty and not expired; when there was none, as the first file's structured part says, unless that was partly undecodable and the history began with a delete |
| TokenStore.ReadMeans | internal/forge/agent_token.go:53-107 | a token is read if and only if its entry is not empty and not expired, from the structured part of a file that decodes whole, else from the flat layout |
| TokenStore.OthersKeptByWriteIff | internal/forge/agent_token.go:120-135 | writing one key keeps another as it was if and only if the structured members hold for it what is read |
| TokenStore.OthersKeptByDeleteIff | internal/forge/agent_token.go:180-227 | deleting one key keeps another if and only if it was not readable, or the file decodes whole and the structured members serve it |
| TokenStore.PartlyDecoded | internal/forge/agent_token.go:66-76 | a file with one value of the wrong type: a write makes another token readable, a delete removes the file |
| TokenStore.ReplaceFile | internal/forge/agent_token.go:143-175 | whichever step fails, the final file holds the old or the new contents at every moment, the new exactly on success; a temp file survives exactly when a later step and its removal both fail |
| Shootout.ResolveFrontEnds | internal/cli/benchmark.go:1763-1853 | one front-end per type in order, the pod last; f5-bnk's has no address, any other is resolved if and only if the first deployment of its own type has a URL, which is then its address |
| Shootout.RunShootout | internal/cli/benchmark.go:1861-1949 | each listed type's leg in order: f5-bnk's probes the global address; any other runs if and only if the first deployment of that type has a URL, probes exactly that and carries that deployment's id; the pod's leg last; fails exactly when all legs failed |
| Vantages.SortNames | internal/cli/test.go:346-352 | the exchange sort yields a sorted permutation in place |
| Vantages.SortedUnique | internal/cli/test.go:339-352 | a sorted permutation is unique, so map iteration order does not matter |
| Vantages.LessMeans | internal/cli/test.go:339-352 | the order is ascending: a proper prefix, or the smaller character where two names first differ |
| Vantages.OneOrder | internal/cli/test.go:339-356 | two enumerations of the same targets give the same list |
| Vantages.VantageSpecs | internal/cli/test.go:330-356 | local, k8s when reachable, then the sorted targets, the same whatever order the map hands the names out in |

## Left out

- Scheduler.TopoSort: duplicate names are excluded, because registration panics on them.
- Redactor.Redact: a session in which the underlying writer fails is covered call by call only. The backends currently pass streams through, so nothing here says their output is redacted.
- LineFilter.Session: a session in which a print fails is covered call by call only; record parsing, JSON unwrapping and formatting are parameters; the text is a sequence of characters, so invalid bytes are not told apart.
- AgentRuns.StepInv: a worker without a run handler, which answers every run with a failure at once, is not part of this model; creating a run's context and storing its cancel function are one event; the WebSocket, heartbeats and progress messages carry no state here; liveness is not claimed.
- AgentLoop.BenchmarkAgentWorker.Run: the end of the given list of sessions stands for the cancelled context; a cancellation in the middle of a wait differs only in that wait being cut short. The operator login and the agent registration before it are not part of this model.
- Shell.ShellRoundTrip: the reader covers quoting, blanks, newlines, comments and plain characters, and rejects operators, expansions, patterns and double quotes, none of which the printed texts contain unquoted.
- NativeRun.NativeMatchesWrapper: needs a remote directory of plain characters, which mktemp gives for its template, and shell names as keys; the shell is taken to be a POSIX one, a tool named like a shell built-in to be the program of that name, and what `cd` does on the host is a parameter; the EXIT trap (the script ends in exec) and the transport are not compared.
- Registration.RunKeeps: timestamps, the optional scan and health check, and the environment's AWS profile carry no state here; project names compare with ASCII case folding; ids are taken to be fresh, and others not to create clusters in the workspace's name.
- Cleanup.Forge.DeleteTargetsAndProxies: the second request for a wrapped list shape and the login before each call are part of the one reply per call; error texts are counted, not spelled out.
- Sequence.Collect: what a scenario key expands to is a parameter; config registration, labels and the push fallback are part of how a child ends.
- OneLine.OneLine: the input is the sequence of characters the range loop decodes, so invalid bytes appear as the replacement character.
- TokenStore.ReplaceFile: concurrent writers of the token file can lose updates; only atomic visibility is claimed. JSON text is represented by what the two readers see in it.
- Shootout.RunShootout: splitting the proxies flag and how a leg ends are parameters.
- AWS, Kubernetes and Docker wrappers, cobra wiring, prompts, tables, self-update: input and output or single-branch logic.
- RegisterBenchmarkAgent and RegisterJumphostAccessMethod: one request with a by-name fallback; the by-name lookup is modelled in Cleanup.
- Floating-point metrics and the synthetic benchmark constants: no property beyond their definitions.
