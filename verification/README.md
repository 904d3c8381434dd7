# Homebased: a verified model of its supervision core

Homebased supervises long-running agents and commands. The parts modelled here meet an
environment they do not control: a process table that changes between any two calls, streams
that arrive in arbitrary pieces, processes that race to create one file, events in any order.
Each theorem below holds for **every** behaviour of that environment.

| module (file) | what it models |
|---|---|
| `Processes`, `CleanupTrace`, `CleanupPace`, `Cleanup` (`Sweeper.dfy`), `CleanupSafety`, `CallReading` | the marker sweep and the cleanup of a lost worker's process group |
| `Descendants`, `DescendantRuns`, `Leftovers` | the tracker of a run's descendants, and its composition with the sweep |
| `GroupStop` | stopping a child's process group and recording why the child ended |
| `ByteLines`, `LogTail`, `HttpCapture`, `LineStreams` | the bounded log tail, the captured HTTP response, the line framer |
| `TaskEvents`, `WaitSets`, `Dependencies`, `Callbacks` | waits with reconnects, dependency release, exit classification |
| `MachineIdentity` | the hard-link protocol that creates one machine identity |
| `AgentArgs` | which extra arguments reach an agent's command line |

How the environment is modelled:

- Every call into the kernel is a method of `ProcessTable` or `ProcessGroup`. Its answer is an
  unconstrained choice (`:| true`), it appends one event to a ghost-readable `trace`, and it lets
  the clock advance by any amount. A theorem about a client therefore covers every answer
  sequence and every monotone clock; the only thing asked of the clock is that a sleep advances it.
- The sweeper keeps a ghost `log` of steps (a scan, an attempt to signal, a clock read, a look at
  a group) whose flattening is exactly the trace. `LogOk` says that the conclusion recorded in
  each step is the one its own reads support, and `VerdictIsDetermined` shows that those reads
  leave no other conclusion. `CallsDetermineTheOutcome` shows that the calls of a sweep, in turn,
  fix the scans and signals of its log.
- The classes and loops are those of the source. Each method's contract ties its new state to
  pure predicates over the log, and the lemmas are about those predicates.

## Model

| member | source | states |
|---|---|---|
| `CleanupTrace.CarriesExactly` | src/cleanup.rs:457-483 | A process carries a marker exactly when one whole NUL-delimited entry of its environment block is the task-id variable set to that marker; a longer value, a shorter value or another variable does not count. |
| `CleanupTrace.VerdictIsDetermined` | src/cleanup.rs:804-906 | The reads made about one process support exactly one verdict (marked, suspect, vanished, unrelated), so a body that concludes anything else violates `Witnessed`. |
| `Cleanup.Sweeper.StartedByOlderDaemon` | src/cleanup.rs:886-906 | The climb succeeds exactly when at most 64 other-user ancestors, each read as the parent of the one before, lead to one older than the run; a same-user ancestor, init, an unreadable link or the bound ends it without success. |
| `Cleanup.Sweeper.NoteRefusal` | src/cleanup.rs:850-876 | A process whose environment is refused is a suspect exactly when it is still the same, has the same user, is not older than the run and no older daemon started it. |
| `Cleanup.Sweeper.Observe` | src/cleanup.rs:804-848 | The observation is the one that the reads just made support: marked only if adopted, or if the marker was read and the identity confirmed afterwards. |
| `Cleanup.Sweeper.ReadAll` | src/cleanup.rs:746-772 | The targets, suspects, unsettled flag and protected hits of a scan are exactly the sums over the verdicts of its readings, one for each listed pid in order; a pid that is listed twice keeps the target of its last marked reading. |
| `CleanupTrace.TracksExtended` | src/cleanup.rs:773-800 | One more empty scan turns the fields for the trailing run (its length, its start, the start of its settled stretch) into those of the longer run. |
| `CleanupTrace.TracksConfirms` | src/cleanup.rs:773-800 | The two clock comparisons that a scan makes hold if and only if the scan history ends in a stable empty run: a settled stretch at least a poll long, or at least 8 empty scans that span a poll. |
| `Cleanup.Sweeper.Conclude` | src/cleanup.rs:773-800 | After any history of scans, the code reports a clear table exactly when that history is confirmed empty in the above sense. |
| `Cleanup.Sweeper.ScanTable` | src/cleanup.rs:738-800 | A scan reports what its readings add up to, says "clear" exactly when the whole history of scans is confirmed empty, and reports a failed listing as such. |
| `Cleanup.Sweeper.SignalVerified` | src/cleanup.rs:714-735 | The target is pinned, then observed again, and the signal goes through that handle exactly when the second observation is marked with the same pid and start time. |
| `Cleanup.Sweeper.SignalNew` | src/cleanup.rs:705-711 | Exactly the targets not yet attempted are attempted, each once, and the record of stopped identities gains exactly those whose send succeeded. |
| `Cleanup.Sweeper.WaitUntilClear` | src/cleanup.rs:688-702 | The wait is `Waited`: every look directly follows a pause, each pause is a poll or what is left of the grace, there was still time after every look but the last, no scan before the last confirmed an empty table, and the last one cleared the table, failed to list, or is followed by a clock read at the end of the grace. While terminating, every target of every earlier scan of the wait was attempted. |
| `Cleanup.Sweeper.SweepRound` | src/cleanup.rs:641-672 | However a round ends, its attempts lie inside it and in order: each SIGTERM goes to something that a scan of the round found before it; what the opening scan found is tried before the clock read that starts the grace; each SIGKILL comes after that grace ran out in full and after every SIGTERM of the round, to something that the scan at the end of the grace still found. Attempts are made at once: nothing but clock reads and attempts lies between a scan and the grace that follows. Each grace ends when its length is over, no later and no earlier, unless the table is found clear. A round that ends neither clear nor late was carried out in full: everything its opening scan and grace found was tried with SIGTERM, what the scan at the end found was tried with SIGKILL, and the second grace ran out or the table was found clear in it. Any other round was cut short because listing failed, the table was clear, or the deadline had passed, and `CutShort` says how far it had got. |
| `Cleanup.Sweeper.Fail` | src/cleanup.rs:673-685 | The failure names what the last scan found: suspects if it found any, else survivors if it found any, else an unconfirmed empty table. |
| `Cleanup.Sweeper.Sweep` | src/cleanup.rs:638-685 | `Laid`: the log from the first scan on is its rounds, one after another, and clock reads, with nothing else. Each round begins in time on a table that is not clear. The sweep succeeds only on a confirmed empty history before its deadline. Any failure but a failed listing comes after the deadline, or after all rounds were carried out in full with a history that is still unconfirmed, and describes the last scan. Rounds follow one another without gap or overlap, all attempts keep the order of their round, a round cut short included, no identity is tried twice with one signal in one round, and the log holds nothing but scans, attempts, clock reads and pauses. |
| `Cleanup.SweepWith` | src/cleanup.rs:391-418 | Over every answer sequence the outcome is borne out by the trace: `Completed` needs a confirmed empty history in time and no protected process ever seen with the marker, and lists exactly the identities whose send succeeded; the protected failure lists exactly the protected hits of all scans; every outcome comes with the rounds described above, in order and in time, clock reads that never run backwards, and no step about a group. |
| `CallReading.CallsDetermineSteps` | src/cleanup.rs:638-848 | The raw calls of a sweep can be read in one way only: two logs with the same calls have the same scans, clock reads, pauses and attempts, step by step; they can differ only in what an attempt that sent nothing was for. |
| `CallReading.CallsDetermineTheOutcome` | src/cleanup.rs:391-418 | So the calls alone fix the scans, the identities stopped, the protected hits and whether an empty table is confirmed; no scan can pass as something else. |
| `CleanupSafety.KillsFollowTheGrace` | src/cleanup.rs:304-309 | Every SIGKILL of any sweep, also in a round cut short, has before it an opening scan, a SIGTERM grace that ran out in full, never one that the deadline shortened, and the scan that ended it, which found the target. Every SIGTERM of the round lies between the first and the last of these. A target that the opening scan found had its own SIGTERM before the grace began, and one that a later scan found had it before the grace ended. |
| `CleanupSafety.KillsComeAfterTheGrace` | src/cleanup.rs:657-666 | The converse: when a round's SIGTERM grace ends on a table that is not clear and the deadline has not passed, everything its last scan found is tried with SIGKILL, and only clock reads and attempts come before. |
| `CleanupSafety.GraceIsKept` | src/cleanup.rs:688-702 | Every look of a wait but the last was over before the grace and the deadline ended, and follows a pause of at most a poll that does not reach past the grace. |
| `CleanupSafety.RoundsDoNotOverlap` | src/cleanup.rs:641-672 | All attempts of one round come before any attempt of a later one. |
| `CleanupTrace.RefusedEndIsUnrelated` | src/cleanup.rs:850-876 | The input on which a settled scan is not what its field says: a process is listed, its environment is refused, it is then gone, and the only verdict these reads allow is "unrelated". |
| `CleanupTrace.VanishedExactly` | src/cleanup.rs:804-876 | For every reading, the process counts as vanished exactly when it was shown to end or be replaced, or its identity could not be confirmed, and its environment had not been refused. |
| `CleanupTrace.SettledIsInspected` | src/cleanup.rs:569-576 | In a settled stretch no listed process ended before inspection if and only if no process in it refused its environment and then ended. |
| `CleanupTrace.StableIsInspected` | src/cleanup.rs:598-607 | The same condition, exactly, for any confirmed run shorter than the 8 scans that a busy machine needs. |
| `CleanupTrace.ConfirmedHidesEnd` | src/cleanup.rs:773-800 | For every poll interval there is a confirmed empty history, two scans long, in which each scan saw a listed process end uninspected. |
| `CleanupSafety.SendsAreAuthorised` | src/cleanup.rs:609-636 | In the raw call trace of any cleanup, each signal to a single process goes through a handle pinned before reads, made directly before the send, that mark the same pid and start time; the pid is neither protected nor the sweeper's own. |
| `CleanupSafety.SweepSignalsAreAuthorised` | src/cleanup.rs:714-735 | In the raw call trace of a sweep every signal of whatever kind is such an authorised signal to a single process; no group is ever signalled. |
| `CleanupSafety.GroupSendsAreAuthorised` | src/cleanup.rs:918-929 | In the raw trace each group signal goes to the recorded leader's group and directly follows calls that listed the group without a protected member and read either the recorded leader with its start time and group or a member that carries the marker. |
| `CleanupSafety.GroupCleanupSignalsAreAuthorised` | src/cleanup.rs:908-934 | In the raw call trace of a lost-group cleanup every signal of whatever kind is such an authorised signal to the recorded leader's group; no single process is ever signalled. |
| `Cleanup.Sweeper.GroupMembers` | src/cleanup.rs:971-978 | The members are exactly the listed pids whose live information names the group, in order. |
| `Cleanup.Sweeper.ExamineGroup` | src/cleanup.rs:946-969 | With live members, the attribution is the one the reads support, in the source's order: protected members, then the recorded leader, then the first member with the marker. |
| `Cleanup.Sweeper.AttributeGroup` | src/cleanup.rs:936-969 | A look at a group tells its caller what it found and adds no signal; "nothing" means that no live member was listed. |
| `Cleanup.Sweeper.WaitGroupGone` | src/cleanup.rs:980-991 | The group is polled at the same pace: each poll follows a pause of a poll or what is left, every poll before the last found members and was over in time, and the wait ends with a poll that found none or failed, or with a clock read at or past the end of the grace. |
| `Cleanup.Sweeper.StrikeGroup` | src/cleanup.rs:918-931 | One part of a group cleanup: a look, at most one signal right after it, and a wait whose grace begins with the next clock read and ends when its length or the deadline is reached; each way the part can end is told apart (`StruckFrom`, `EndsFrom`). |
| `Cleanup.Sweeper.LostGroup` | src/cleanup.rs:908-934 | The group signals are a prefix of SIGTERM, SIGKILL; SIGKILL follows a spent SIGTERM grace; success means that the group was listed empty or the kernel said it does not exist; survival means that both graces were spent and members were still listed. `GroupLaid`: the log is a first look and at most two parts, the second right after the first, and nothing else. |
| `Cleanup.CleanupLostGroupWith` | src/cleanup.rs:420-435 | The same guarantees for the whole operation. The reported attribution is the first look's finding, a group that was already gone got no signal, every other failure is what the last look at the group found, and no scan and no attempt at a single process is made. |
| `Descendants.DescendantTracker.TryObserve` | src/cleanup/descendants.rs:85-132 | After a successful observation the record is the least set that holds the still-running recorded processes and is closed under live, non-boundary children not older than their parent, for members and the running root; a failed listing changes nothing; the worklist ends on every parent relation, cyclic ones included. The three lemmas below say what that set is by listing, start time and file name. |
| `Descendants.ObservationByName` | src/cleanup/descendants.rs:112-142 | After an observation, a live child of the running root or of a recorded process is recorded if it is not older and its file name was read and is not our own, neither plain nor marked as deleted. |
| `Descendants.NewlyRecordedByName` | src/cleanup/descendants.rs:112-142 | Whatever an observation adds is live, is listed under the root or a recorded process that is not younger, and has a file name that was read and is not our own. |
| `Descendants.UnknownNameRecordsNothing` | src/cleanup/descendants.rs:134-137 | If our own file name is unknown, nothing new is recorded. |
| `Descendants.BoundaryByName` | src/cleanup/descendants.rs:134-151 | A process bounds the tree exactly when our own name is unknown, its name was not read, or its name is ours, plain or marked as deleted. |
| `Descendants.AdoptedByName` | src/cleanup/descendants.rs:68-74 | The set handed over is the recorded processes whose file name was read at that time and is not our own. |
| `Descendants.LiveByListing` | src/cleanup/descendants.rs:86-91 | The live processes of a listing are those some answer found, each with what the last such answer said. |
| `Descendants.DescendantTracker.Adopt` | src/cleanup/descendants.rs:117-129 | One parent's children are recorded unless they are older than it or a boundary, and exactly the newly recorded ones are queued. |
| `Descendants.WorklistStep` | src/cleanup/descendants.rs:112-130 | Popping one parent keeps the worklist invariant: nothing superfluous is recorded, and every tracked process that is not queued has had all its children considered, even where pids are shared. |
| `Leftovers.UnmarkedTargetsPassedTheBoundary` | src/cleanup/descendants.rs:64-74 | With the set the tracker hands over, any signal of the sweep sent without reading the marker goes only to a descendant of the run's child that was no boundary when it was recorded and again no boundary when the tracker was asked. |
| `Leftovers.OnlyBoundariesAreLeftOut` | src/cleanup/descendants.rs:68-74 | A recorded descendant that is not handed over was a boundary at that check, so nothing else escapes the sweep. |
| `DescendantRuns.RecordsAreDetermined` | src/cleanup/descendants.rs:85-132 | The listings alone determine the record after any number of observations; the order in which the worklist ran does not show. |
| `DescendantRuns.RecordedIsRunning` | src/cleanup/descendants.rs:85-99 | After any history of observations, everything recorded is live with its own start time, and no pid is recorded twice, so a reused pid never counts through the old entry. |
| `DescendantRuns.StaysRecorded` | src/cleanup/descendants.rs:97-99 | Over any observations, a recorded process stays recorded while its pid and start time are live, whatever its parent becomes. |
| `DescendantRuns.RecordedDescends` | src/cleanup/descendants.rs:112-130 | Whatever is recorded after any history is reached from the root by a chain of links that some observation saw, none of them to a boundary process. |
| `Leftovers.SignalsReachOnlyRunWork` | src/cleanup.rs:339-357 | Tracker and sweep composed: every signal of the sweep, of whatever kind, reaches a single identity that was pinned and confirmed directly before, and that either had the run's marker read in its environment or descends from the run's child through links the tracker saw. |
| `GroupStop.RemembersNext` | src/runner.rs:616-652 | After any interleaving of calls the child's fields say exactly whether it was reaped, whether a signal was delivered, and what its status was if it was reaped before the first delivered signal. |
| `GroupStop.ChildStop.Reap` | src/runner.rs:624-640 | The child is waited for right before every probe and signal until it is reaped (`ReapsFirst`), only while it is not reaped, and its status becomes its own reason exactly when no signal had been delivered. |
| `GroupStop.ChildStop.Signal` | src/runner.rs:642-652 | The child is reaped before the signal, the signal is sent once, and only a delivered signal is remembered. |
| `GroupStop.ChildStop.Strike` | src/runner.rs:720-737 | The calls after a signal are exactly turns of polling (a clock read in time, a look that found something, a clock read, a nap of a poll or what is left of the grace), ended by a look in time that found the group gone or by a clock read at the end of the grace. |
| `GroupStop.ChildStop.CleanupGroup` | src/runner.rs:709-775 | `PlaysOut`: the calls are exactly the source's parts in order, each called for by what the one before it found, and the evidence is what they proved. The signals are a prefix of SIGTERM, SIGKILL and none follows a probe that found the group gone. SIGKILL follows a spent SIGTERM grace. Exit is confirmed only by the last probe and, after SIGKILL, only within the kill grace. Without confirmation the grace ran out, or the group reappeared to the final probe. |
| `GroupStop.UnconfirmedWithoutKill` | src/runner.rs:739-773 | A cleanup leaves the exit unconfirmed without SIGKILL if and only if it sent SIGTERM alone and its last probe did not find the group gone; the grace had run out and an earlier probe had found it gone. |
| `GroupStop.CancelChildGroup` | src/runner.rs:655-695 | The same for a cancelled child, with one further wait exactly if the child was not reaped; the child's own reason is its wait status exactly when it was reaped before any delivered signal. |
| `GroupStop.StopChild` | src/runner.rs:562-613 | If the child was reaped before the first delivered signal, an exit code is recorded as that code and a signal as that signal; otherwise, and for a status that is neither, the reason for stopping it is recorded. |
| `GroupStop.CleanupProcessGroup` | src/runner.rs:698-707 | Group cleanup without a child gives the same guarantees and never waits for one. |
| `LogTail.ReadTail` | src/home.rs:290-319 | The backwards chunked reader returns the last lines of the file's last 1 MiB, marks them truncated when bytes or lines were dropped, and never reads more than 1 MiB. |
| `LogTail.EarlyStop` | src/home.rs:299-318 | Stopping as soon as more than `tail` newlines were read loses nothing that the full window would have shown. |
| `LogTail.CappedIsWhole` | src/home.rs:290-319 | The tail equals reading the whole file and keeping its last lines, text and truncation flag alike, if and only if the cap is invisible: no tail is asked for, the file fits, the window holds more than `tail` lines, or it holds exactly `tail` and starts at a line start (or inside the CR LF of an empty line). |
| `ByteLines.LinesReadBack` | src/home.rs:313 | Lines written with LF or CR LF are read back as they were, without LF and without the CR before it, and a last line without LF is kept with any CR it ends in. |
| `LogTail.TailReadsBack` | src/home.rs:290-319 | The tail of a log that was written line by line is its last lines, written with LF between each two and none at the end, and is truncated exactly when lines were left out. |
| `LogTail.SmallLogsFit` | src/home.rs:286-303 | That holds for every log of at most 1048576 bytes, and for every longer one whose last 1048576 bytes hold more than `tail` newlines. |
| `LogTail.EnoughNewlines` | src/home.rs:303-312 | More than `tail` newlines in the last 1 MiB always suffice. |
| `LogTail.LongLineIsCut` | src/home.rs:285-319 | One line longer than the cap is cut and marked truncated although no line was dropped. |
| `LogTail.ReadOutput` | src/home.rs:260-283 | A missing log is no output, no tail is the whole file, and a requested tail is bounded by 5000 lines. |
| `HttpCapture.ReadCapture` | src/curl.rs:171-197 | However the output is split into reads, the capture is its first `limit` bytes, its last `tailLimit` bytes and its length; a failing read fails the capture. |
| `HttpCapture.ParseStatus` | src/curl.rs:209-226 | The status is parsed from the text after the last marker in the tail, and the length of the body is where that marker starts in the output; a missing marker and an unparsable status are told apart. |
| `HttpCapture.StatusTexts` | src/curl.rs:215-219 | A text is a status exactly when it is a decimal number up to 65535, with a plus sign or without; other texts are none. |
| `HttpCapture.PlaceValue` | src/curl.rs:215-219 | The number is read in base ten, most significant digit first. |
| `HttpCapture.TrimTakesPadding` | src/curl.rs:215-219 | Space, tab, LF, VT, FF and CR around the number are taken off, and nothing else is. |
| `HttpCapture.AppendedMarkerIsLast` | src/curl.rs:209-214 | For every body, even one with markers of its own, the marker that curl appends is in the tail and is the last one there. |
| `HttpCapture.CaptureRoundTrip` | src/curl.rs:96-103 | Parsing the capture of body, marker, 3-digit status and newline gives the number of the three digits and the body's exact length, and truncating the prefix to it gives the first min(limit, length) bytes of the body. |
| `HttpCapture.Receive` | src/curl.rs:80-103 | The same end to end over every split into reads. For any other output too: a failed read, a missing marker and an invalid status give their errors, and any valid status after the last marker gives that status and the bytes before the marker up to the limit. |
| `LineStreams.LineStream.NextLine` | src/client.rs:161-183 | The next line is cut off the unread bytes with its newline and nothing else changes; the end or the body's error is reported exactly when no complete line is left; no frame is read beyond the one that completes the line. |
| `LineStreams.LineStream.Drain` | src/client.rs:157-183 | Over every split into frames, the successive lines are exactly the newline-terminated lines of all the data, and an unterminated last line stays behind. |
| `LineStreams.NoByteIsLost` | src/client.rs:157-183 | Lines, their newlines and the leftover put together are the data: nothing is lost or repeated. |
| `LineStreams.LinesAreWhole` | src/client.rs:164-169 | No returned line contains a newline, and neither does the leftover. |
| `LineStreams.SplitIsUnique` | src/client.rs:157-183 | No other split of the data into newline-free lines and a newline-free rest exists. |
| `WaitSets.ListRefinesSet` | src/task_wait.rs:426-457 | One event does to the ordered pending list what it does to the plain set, names the same continuation, and leaves no duplicates and no longer a list. |
| `WaitSets.WaitSet.Apply` | src/task_wait.rs:426-450 | A task event removes its target, hands it to its continuation in the same place, or does nothing, as specified. |
| `WaitSets.WaitSet.ApplyJob` | src/task_wait.rs:453-457 | A final job event removes exactly its job, in order; other job events change nothing. |
| `WaitSets.WaitSet.Request` | src/task_wait.rs:215-233 | The reconnect request names the pending tasks, then the pending jobs, and nothing else. |
| `WaitSets.CheckTargets` | src/task_wait.rs:105-118 | A list is accepted exactly when it is not empty, within the limit and without duplicates; a refusal points at the first repeated item. |
| `WaitSets.Targets` | src/task_wait.rs:237-253 | A request is accepted exactly when it names only ids or only typed targets, as one valid list, and then yields that list. |
| `WaitSets.ReconnectKeepsTargets` | src/task_wait.rs:215-253 | A request built from a pending list names the same set, as many targets, without duplicates, and is accepted unless nothing is pending. |
| `WaitSets.WaitIsItsSet` | src/task_wait.rs:395-457 | Over any events and any reconnects, the pending list has no duplicates, never grows, and its set and the returned continuations are those of a plain set to which reconnects mean nothing. |
| `WaitSets.ReconnectIsAccepted` | src/task_wait.rs:215-253 | From any valid target list and after any run, a non-empty wait can always reconnect with the same targets. |
| `WaitSets.ReconnectsAreInvisible` | src/task_wait.rs:395-457 | Two clients that saw the same events but reconnected at different times stay equal as sets and saw the same continuations. |
| `WaitSets.JobWaitEndsWithTheJob` | src/task_wait.rs:378-384 | Over any events and reconnects, a wait on one job lasts exactly until that job succeeds, fails or is cancelled. |
| `MachineIdentity.StepKeepsInv` | src/machine.rs:265-310 | Each step of any call keeps every call's stage consistent with the shared file, and leaves an existing file alone. |
| `MachineIdentity.FileNeverChanges` | src/machine.rs:277-284 | In every interleaving of any number of calls, once the file exists it never changes, corrupt or not. |
| `MachineIdentity.OneIdentity` | src/machine.rs:265-293 | All calls that succeed, at any times of any run, return the same machine id. |
| `MachineIdentity.NeverVanishes` | src/machine.rs:285-292 | The "vanished" error is unreachable while nobody outside deletes the file. |
| `MachineIdentity.CorruptIsRefused` | src/machine.rs:295-310 | With a corrupt file no call ever succeeds. |
| `MachineIdentity.NeverCorrupted` | src/machine.rs:270-293 | Creation never makes a corrupt file: one that is corrupt was so from the start. |
| `MachineIdentity.CallsSucceed` | src/machine.rs:265-310 | Unless the file was corrupt from the start, every call that ends returns the id in the file, which is the first one if there was one, or met a failing file system. |
| `MachineIdentity.DeletionSplitsIdentity` | src/machine.rs:265-293 | If somebody outside may delete the file, two calls can return any two different ids, so that assumption is needed. |
| `Dependencies.NewDependencies` | src/dependency.rs:54-70 | A list is accepted exactly when it is not empty, within the limit and without duplicates, and becomes its sorted permutation; a refusal names the first repeated task. |
| `Dependencies.OrderDoesNotMatter` | src/dependency.rs:54-70 | Permuted lists are both refused or normalise to the same value. |
| `Dependencies.Decide` | src/dependency.rs:310-333 | Release exactly when every dependency ended acceptably for the rule, cancel on the first unacceptable ending in order, wait only while one is pending; nothing cancels when any ending will do. |
| `Dependencies.DecisionIsDetermined` | src/dependency.rs:310-333 | The dependency states and the rule admit exactly one decision. |
| `Dependencies.DecisionIsFinal` | src/dependency.rs:303-333 | Over any history in which dependencies only end, a release stays a release and a cancel stays a cancel that can only name an earlier dependency in order. |
| `Callbacks.ClassTable` | src/callback.rs:625-651 | Each exit class except the remaining "failed" is characterised, in both directions, by the ending, the last report, the workload and the cancel request. |
| `Callbacks.TerminalEventTable` | src/callback.rs:363-471 | For every row, its event's kind, next action, process, parking and reports are given by the row's ending, the last report, the workload and the cancel request alone, across classification and building. |
| `Callbacks.LastEventOfRunning` | src/callback.rs:673-712 | A running row shows its last interim report if that came after the reminder or there was none, else the reminder if there was one, else nothing. |
| `Callbacks.UnlaunchedEventTable` | src/callback.rs:488-527 | A task that never launched is reported as cancelled while held, or as failed to spawn, with no reports. |
| `Callbacks.OnlyEndingsEnd` | src/task_wait.rs:357-375 | Interim reports and reminders end no wait and name no outcome; the event of a task that never launched ends waits and names its outcome. |
| `Callbacks.CancelNamesTheEnding` | src/dependency.rs:122-134 | A task held until success is cancelled with the very ending its dependency's event names, released on success, and waits for a parked one. |
| `Callbacks.DerivedReasonIsTheClass` | src/callback.rs:207-220 | For every event built from an exit, a reader derives the missing-report reason exactly when the executor classified it so. |
| `Callbacks.DerivedReasonAnywhere` | src/callback.rs:352-401 | Over all builders, and over the last event of any row, the reason is derived exactly for a finished (not preempted) run classified as missing its report. |
| `Callbacks.PreemptionHidesMissingReport` | src/callback.rs:395-402 | A preempted run that exited 0 without a required report is classified as missing it, yet its event derives nothing. |
| `Callbacks.SuccessMeansEndedWell` | src/dependency.rs:122-138 | A terminal event names success exactly when the run exited 0 and either last reported success or had nothing to report. |
| `Callbacks.OnlyGoodEndingsSucceed` | src/callback.rs:655-671 | Among all events that any builder can produce, only such a run's event names success. |
| `Callbacks.ParkedNamesNoOutcome` | src/callback.rs:440-471 | A parked run names its saved handover and no outcome; without a saved handover it failed. |
| `Callbacks.WaitsEndWithOutcomes` | src/task_wait.rs:357-375 | A terminal event ends waits exactly when it names an outcome, and carries a handover exactly when its run is parked. |
| `Callbacks.ReleaseMeansAllEndedWell` | src/dependency.rs:310-333 | From raw run endings through events and outcomes to the decision: a task held until success is released exactly when every run it depends on ended well. |
| `Callbacks.WaitFollowsTheChain` | src/task_wait.rs:419-450 | A wait on the first task of a chain of runs that park and hand over holds exactly the current run of the chain, through any number of parked runs, interim events, events of other runs of the chain delivered again or early, unrelated events and reconnects, and leaves the chain exactly when the first run that does not park has ended. |
| `Callbacks.LoneWaitEndsWithTheChain` | src/task_wait.rs:395-450 | A client that waits on one task is done if and only if its whole chain has ended; each parked run leaves dependants waiting, and the last run names an outcome. |
| `AgentArgs.AppendExtraArgs` | src/agents.rs:220-242 | The managed command line stays a prefix, and an extra is dropped exactly when it is a managed value option in either spelling, that option's value, or a managed flag that is already present; the rest follow in order. |
| `AgentArgs.ManagedOptionsByName` | src/agents.rs:264-285 | For each agent, the managed value options are exactly the named ones: a long name alone or with `=`, a short name alone or with anything right behind it; the model option only with a task model. |
| `AgentArgs.ManagedFlagsByName` | src/agents.rs:244-256 | For each agent, the managed flags are exactly the named ones. |
| `AgentArgs.SelectionIsUnique` | src/agents.rs:220-242 | These rules leave exactly one selection of the extras, so they fix the resulting command line. |
| `AgentArgs.NoManagedOptionAdded` | src/agents.rs:225-234 | No added argument is a managed value option in either spelling. |
| `AgentArgs.ManagedFlagsStayUnique` | src/agents.rs:236-240 | A managed flag that was present is not added again, and any other occurs at most once afterwards. |
| `AgentArgs.ValidateOpenCode` | src/agents.rs:328-359 | The index reported is the first argument that is neither an option's separate value nor an allowed option; nothing is reported exactly when all are allowed, and then no dash argument is the separator or a forbidden option, even right after another option. |
| `AgentArgs.ForbiddenByName` | src/agents.rs:373-409 | The forbidden arguments are exactly the named options alone or with `=`, an attached `-c`, `-s` or `-m`, and `--standalone` or `--auto` with a value. |
| `AgentArgs.PrefixByParts` | src/agents.rs:280-283 | An argument starts with a flag exactly when it is the flag with something, or nothing, behind it. |

### Where the code and its description differ

- A preempted run is classified like any other exit, but its event kind hides a missing report
  from a reader (`PreemptionHidesMissingReport`); `DerivedReasonAnywhere` gives the exact
  condition for all builders.
- The tail is documented as the last lines of the log. A window that is one long line is marked
  truncated although no line was dropped (`LongLineIsCut`); `CappedIsWhole` gives the exact
  condition under which the documented meaning holds, which is slightly wider than "more than
  `tail` newlines in the window".
- A settled scan is described as one in which no listed process exited before inspection. A
  process whose environment read is refused and that is then gone or replaced counts as
  unrelated, so it does not unsettle the scan (`RefusedEndIsUnrelated`), and a confirmed empty
  history can hide such an end (`ConfirmedHidesEnd`). `SettledIsInspected` gives the exact
  condition under which the description holds.
- After SIGTERM's grace, a look can find the group gone and the last one find it again; the exit
  is then unconfirmed without SIGKILL, and only then (`UnconfirmedWithoutKill`).

## Left out

- Real system calls, pidfds, `/proc` parsing and signal delivery: they are unconstrained answers.
- Logging, and the `warned` set that only suppresses repeated log lines.
- Time: clock values are natural numbers, a sleep advances the clock, and every other call takes any time at all.
- Integer widths of counters (`empty_scans`, byte totals, lengths): unbounded, since saturation is out of reach of the bounds involved. The 16-bit limit of the HTTP status is modelled.
- Iteration order of ordered maps and sets: any order is allowed, so the proofs cover ascending order, but the order of attempts within one scan is not stated.
- Descendants.DescendantTracker.TryObserve: an executable is one answer per pid and observation, already reduced to its file name; splitting the path is not modelled.
- Text decoding: bytes are characters, lossy UTF-8 conversion and Unicode white space are not modelled, and argument checks that count bytes count characters here.
- LogTail.ReadTail: the file does not change during the read, and a failing read or seek is not modelled.
- HttpCapture.Receive: curl's exit status, its standard error and the rendering of its configuration are not modelled.
- MachineIdentity.OneIdentity: a machine id's text is already parsed (an id or corrupt), temporary names are distinct for each call, and syncing to disk is not modelled.
- Callbacks: identifiers, paths, summaries and timestamps of events; only the fields that say what happened are kept.
- Reasoning-effort extraction from extra arguments, Claude's argument validation and the OpenCode configuration.
- The GPU scheduler, the store, the daemon's actors and the outbox: not part of this model.
- Configuration, submission, notification, update, install, power and command-line code: input and output, and field checks.
