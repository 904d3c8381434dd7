/**
 What the raw calls of any cleanup guarantee, whatever the process table answered:
 each signal is authorised by the reads directly before it.
 */
module CleanupSafety {
  import opened Basics
  import opened Processes
  import opened CleanupTrace
  import opened CleanupPace

  /** The send at `i` went through a handle pinned before reads that tie that process to the run. */
  ghost predicate AuthorisedSend(policy: Policy, trace: seq<Event>, i: nat)
    requires i < |trace| && trace[i].Sent?
  {
    exists j: nat, identity ::
      PinnedAndMarked(policy, trace, i, j, identity)
  }

  ghost predicate PinnedAndMarked(policy: Policy, trace: seq<Event>, i: nat, j: nat, identity: ProcessIdentity)
    requires i < |trace| && trace[i].Sent?
  {
    && j < i
    && trace[j] == Pinned(identity.pid, Found(trace[i].through))
    && Marks(policy, trace[j+1..i], identity)
    && identity.pid !in policy.protected
  }

  ghost predicate OnlyReads(events: seq<Event>) {
    forall e :: e in events ==> e.Listed? || e.InfoRead? || e.EnvironmentRead? || e.ClockRead? || e.Slept?
  }

  lemma ReadingOnlyReads(policy: Policy, reading: Reading)
    requires Witnessed(policy, reading)
    ensures OnlyReads(reading.events)
  {
    var events := reading.events;
    forall i | 0 <= i < |events|
      ensures events[i].InfoRead? || events[i].EnvironmentRead?
    {
      if i >= 3 {
        var walk := events[3..];
        assert walk[i-3] == events[i];
        assert ReadsAncestor(events[0].info.value.ppid, walk, i - 3);
      }
    }
  }

  lemma {:induction false} ReadingsOnlyRead(policy: Policy, pids: seq<Pid>, readings: seq<Reading>)
    requires |readings| <= |pids|
    requires forall k | 0 <= k < |readings| :: readings[k].pid == pids[k] && Witnessed(policy, readings[k])
    ensures OnlyReads(ReadingEvents(readings))
  {
    hide Witnessed;
    if readings != [] {
      ReadingsOnlyRead(policy, pids, readings[..|readings|-1]);
      ReadingOnlyReads(policy, readings[|readings|-1]);
    }
  }

  lemma ListingOnlyReads(listing: seq<Event>)
    requires ListsGroup(listing)
    ensures OnlyReads(listing)
  {
    forall i | 0 <= i < |listing| ensures listing[i].Listed? || listing[i].InfoRead? {
      var asked := if i > 0 then listing[0].pids.value[i-1] else Pid(0);
    }
  }

  lemma LookOnlyReads(policy: Policy, step: Step)
    requires StepOk(policy, step) && step.Attributed?
    ensures OnlyReads(Events(step))
  {
    hide Witnessed, MembersOf;
    if !step.finding.Unlisted? {
      ListingOnlyReads(step.listing);
    }
    if step.finding.ByMember? || step.finding.Unattributed? {
      ReadingsOnlyRead(policy, MembersOf(step.leader.pid, step.listing[1..]), step.observed);
    }
  }

  /** Only attempts and group signals send anything. */
  lemma StepSendsNothing(policy: Policy, step: Step, i: nat)
    requires StepOk(policy, step) && !step.Tried? && !step.GroupSignalled?
    requires i < |Events(step)|
    ensures !Events(step)[i].Sent? && !Events(step)[i].GroupSent?
  {
    hide Witnessed, Supports, ListsGroup;
    match step {
      case Scanned(pids, readings, _) => ReadingsOnlyRead(policy, pids, readings);
      case Attributed(_, _, _, _, _) => LookOnlyReads(policy, step);
      case GroupPolled(_, poll) =>
        if poll != [Listed(None)] {
          ListingOnlyReads(poll);
        }
      case _ =>
    }
    assert Events(step)[i] in Events(step);
  }

  lemma AttemptIsAuthorised(policy: Policy, step: Step, i: nat)
    requires StepOk(policy, step) && step.Tried?
    requires i < |Events(step)| && Events(step)[i].Sent?
    ensures PinnedAndMarked(policy, Events(step), i, 0, step.target)
  {
    hide Witnessed, Marks;
    var events, reading := Events(step), step.recheck.value;
    SendComesLast(policy, step, i);
    MarkedByLast(policy, reading, step.target);
    assert events[1..i] == reading.events;
  }

  /** An attempt sends at most once, after all its reads, and only if they marked its target. */
  lemma SendComesLast(policy: Policy, step: Step, i: nat)
    requires StepOk(policy, step) && step.Tried? && i < |Events(step)| && Events(step)[i].Sent?
    ensures step.recheck.Some? && step.sent.Some? && step.pin.Found? && i == 1 + |step.recheck.value.events|
    ensures Events(step)[i].through == step.pin.value && step.recheck.value.verdict == Some(Marked(step.target))
  {
    hide Witnessed, OnlyReads;
    if step.recheck.Some? {
      var events := step.recheck.value.events;
      ReadingOnlyReads(policy, step.recheck.value);
      ReadsSendNothing(events);
    }
  }

  lemma ReadsSendNothing(events: seq<Event>)
    requires OnlyReads(events)
    ensures forall k | 0 <= k < |events| :: !events[k].Sent? && !events[k].GroupSent?
  {
    forall k | 0 <= k < |events| ensures !events[k].Sent? && !events[k].GroupSent? {
      assert events[k] in events;
    }
  }

  /** Every signal sent to a single process is authorised, and none reaches a protected one. */
  lemma {:induction false} SendsAreAuthorised(policy: Policy, log: seq<Step>, i: nat)
    requires LogOk(policy, log)
    requires i < |Flatten(log)| && Flatten(log)[i].Sent?
    ensures AuthorisedSend(policy, Flatten(log), i)
  {
    hide Witnessed, Marks, StepOk, Flatten, LogOk, Events;
    FlattenLast(log);
    LogOkInit(policy, log);
    var init, last := log[..|log|-1], log[|log|-1];
    var trace, before := Flatten(log), Flatten(init);
    if i < |before| {
      SendsAreAuthorised(policy, init, i);
      var j: nat, identity :| PinnedAndMarked(policy, before, i, j, identity);
      assert trace[j+1..i] == before[j+1..i];
      assert PinnedAndMarked(policy, trace, i, j, identity);
    } else {
      var k := i - |before|;
      assert Events(last)[k].Sent?;
      if last.Tried? {
        AttemptIsAuthorised(policy, last, k);
        assert trace[|before|+1..i] == Events(last)[1..k];
        assert PinnedAndMarked(policy, trace, i, |before|, last.target);
      } else if last.GroupSignalled? {
        SignalIsOneCall(last);
      } else {
        StepSendsNothing(policy, last, k);
      }
    }
  }

  ghost predicate IsSignal(event: Event) {
    event.Sent? || event.GroupSent?
  }

  /** A sweep signals no group: its raw calls hold no group signal at all. */
  lemma {:induction false} SweepsSignalNoGroup(policy: Policy, log: seq<Step>, i: nat)
    requires LogOk(policy, log) && IsSweepLog(log) && i < |Flatten(log)|
    ensures !Flatten(log)[i].GroupSent?
  {
    hide Witnessed, StepOk, Flatten, LogOk, Events;
    FlattenLast(log);
    LogOkInit(policy, log);
    var init, last := log[..|log|-1], log[|log|-1];
    if i < |Flatten(init)| {
      SweepsSignalNoGroup(policy, init, i);
    } else if last.Tried? {
      AttemptSendsNoGroup(policy, last, i - |Flatten(init)|);
    } else {
      StepSendsNothing(policy, last, i - |Flatten(init)|);
    }
  }

  /** Every signal of a sweep, of whatever kind, goes to one pinned process that the reads before it tie to the run. */
  lemma SweepSignalsAreAuthorised(policy: Policy, log: seq<Step>, i: nat)
    requires LogOk(policy, log) && IsSweepLog(log)
    requires i < |Flatten(log)| && IsSignal(Flatten(log)[i])
    ensures Flatten(log)[i].Sent? && AuthorisedSend(policy, Flatten(log), i)
  {
    SweepsSignalNoGroup(policy, log, i);
    SendsAreAuthorised(policy, log, i);
  }

  // ----- the order of a sweep's signals -----

  /** Later rounds open later. */
  lemma {:induction false} RoundsOpenInOrder(policy: Policy, log: seq<Step>, rounds: seq<Round>, full: nat, timing: Timing,
                                             deadline: nat, r: nat, q: nat)
    requires Escalated(policy, log, rounds, full, timing, deadline) && r < q < |rounds|
    ensures rounds[r].close <= rounds[q].open
    decreases q
  {
    hide HalfDone, GraceSpent, TargetsWithin, KillsBefore, Ordered;
    if r < q - 1 {
      RoundsOpenInOrder(policy, log, rounds, full, timing, deadline, r, q - 1);
      assert RoundDone(policy, log, q - 1, rounds[q-1], timing, deadline);
      RoundSpans(policy, log, q - 1, rounds[q-1], timing, deadline);
    }
  }

  lemma RoundSpans(policy: Policy, log: seq<Step>, r: nat, round: Round, timing: Timing, deadline: nat)
    requires RoundDone(policy, log, r, round, timing, deadline)
    ensures round.open < round.waiting < round.grace < round.killing < round.close
    ensures TermsBefore(log, r, round.grace) && KillsBefore(log, r, round.killing)
  {
  }

  /** All attempts of a round come before any of a later round. */
  lemma RoundsDoNotOverlap(policy: Policy, log: seq<Step>, rounds: seq<Round>, full: nat, timing: Timing, deadline: nat,
                           i: nat, j: nat)
    requires Escalated(policy, log, rounds, full, timing, deadline)
    requires i < |log| && j < |log| && log[i].Tried? && log[j].Tried? && log[i].round < log[j].round
    ensures i < j
  {
    hide RoundDone, FoundSince, KillDue;
    var r, q := log[i].round, log[j].round;
    RoundSpans(policy, log, r, rounds[r], timing, deadline);
    RoundsOpenInOrder(policy, log, rounds, full, timing, deadline, r, q);
    assert IsAttempt(log[i], r, log[i].signal);
    assert Ordered(policy, log, q, rounds[q], timing);
  }

  /** The SIGTERM of round `r` for `target` was attempted between `open` and `end`. */
  ghost predicate TriedBetween(log: seq<Step>, r: nat, target: ProcessIdentity, open: nat, end: nat) {
    exists j :: open < j < end && j < |log| && IsAttempt(log[j], r, SIGTERM) && log[j].target == target
  }

  /**
   What a SIGKILL of round `r` at `i` rests on: the round opened with a scan, tried what
   that scan found, waited out the whole grace, and still found the target in the scan
   at its end. A target that the opening scan found had its SIGTERM before the grace
   began, and one that a later scan found had it before the grace ended.
   */
  ghost predicate KillRestsOn(policy: Policy, log: seq<Step>, i: nat, open: nat, waiting: nat, grace: nat, timing: Timing)
    requires i < |log| && log[i].Tried?
  {
    && open < waiting < grace && grace + 1 < i
    && log[open].Scanned? && GraceSpent(log, waiting, grace, timing.termGrace)
    && FoundBy(policy, log[grace], log[i].target)
    && (forall j | 0 <= j < |log| && IsAttempt(log[j], log[i].round, SIGTERM) :: open < j < grace)
    && (FoundBy(policy, log[open], log[i].target) ==> TriedBetween(log, log[i].round, log[i].target, open, waiting))
    && (forall s | open <= s < grace && FoundBy(policy, log[s], log[i].target) ::
          TriedBetween(log, log[i].round, log[i].target, open, grace))
  }

  lemma AttemptIsPlaced(policy: Policy, log: seq<Step>, r: nat, round: Round, timing: Timing, target: ProcessIdentity, end: nat)
    requires Ordered(policy, log, r, round, timing) && end <= |log| && target in Attempts(log[..end], r, SIGTERM)
    ensures TriedBetween(log, r, target, round.open, end)
  {
    hide FoundSince, KillDue;
    var step :| step in log[..end] && step.Tried? && step.round == r && step.signal == SIGTERM && step.target == target;
    var j :| 0 <= j < end && log[..end][j] == step;
    assert log[j] == step;
  }

  /** Every SIGKILL of a sweep, also in a round cut short, follows a whole SIGTERM grace of its round. */
  lemma KillsFollowTheGrace(policy: Policy, log: seq<Step>, rounds: seq<Round>, full: nat, timing: Timing, deadline: nat, i: nat)
    requires Escalated(policy, log, rounds, full, timing, deadline)
    requires i < |log| && log[i].Tried? && log[i].signal == SIGKILL
    ensures exists open: nat, waiting: nat, grace: nat :: KillRestsOn(policy, log, i, open, waiting, grace, timing)
  {
    hide RoundDone, FoundSince, FoundBy, GraceSpent, TargetsWithin, Attempts, TriedBetween;
    var r, target := log[i].round, log[i].target;
    var round := rounds[r];
    assert Ordered(policy, log, r, round, timing);
    assert KillDue(policy, log, r, round, i, timing);
    if FoundBy(policy, log[round.open], target) {
      FoundIsWithin(policy, log[round.open], target, Attempts(log[..round.waiting], r, SIGTERM));
      AttemptIsPlaced(policy, log, r, round, timing, target, round.waiting);
    }
    forall s | round.open <= s < round.grace && FoundBy(policy, log[s], target)
      ensures TriedBetween(log, r, target, round.open, round.grace)
    {
      TriedInGrace(policy, log, r, round, timing, target, s);
    }
    assert KillRestsOn(policy, log, i, round.open, round.waiting, round.grace, timing);
  }

  lemma TriedInGrace(policy: Policy, log: seq<Step>, r: nat, round: Round, timing: Timing, target: ProcessIdentity, s: nat)
    requires Ordered(policy, log, r, round, timing) && HalfDone(policy, log, r, round)
    requires round.open <= s < round.grace && FoundBy(policy, log[s], target)
    ensures TriedBetween(log, r, target, round.open, round.grace)
  {
    hide FoundSince, KillDue, TargetsWithin, OpeningTried, Attempts;
    FoundScans(policy, log[s], target);
    FoundIsWithin(policy, log[s], target, Attempts(log, r, SIGTERM));
    assert log[..|log|] == log;
    AttemptIsPlaced(policy, log, r, round, timing, target, |log|);
    var j :| round.open < j < |log| && IsAttempt(log[j], r, SIGTERM) && log[j].target == target;
    assert j < round.grace;
  }

  lemma FoundScans(policy: Policy, scan: Step, target: ProcessIdentity)
    requires FoundBy(policy, scan, target)
    ensures scan.Scanned?
  {
  }

  // ----- the pace of a sweep -----

  /** No look within a wait comes later than the grace allows: all but the last were over before it ended. */
  lemma GraceIsKept(log: seq<Step>, start: nat, end: nat, grace: nat, deadline: nat, poll: nat, s: nat)
    requires start < |log| && log[start].Timed? && Waited(log, start, end, Until(log[start].now, grace, deadline), poll)
    requires start < s <= end && IsLook(log[s])
    ensures s >= 2 && log[s-2].Timed? && log[s-1].Paused? && log[s-1].duration <= poll
    ensures log[s-2].now + log[s-1].duration <= log[s-2].now || log[s-2].now + log[s-1].duration <= log[start].now + grace
    ensures s < end ==> s + 1 < |log| && log[s+1].Timed? && log[s+1].now < log[start].now + grace && log[s+1].now < deadline
  {
    hide UnclearUpTo;
    assert LooksAfterPause(log, start, s, Until(log[start].now, grace, deadline), poll);
    assert s < end ==> StillTime(log, s, Until(log[start].now, grace, deadline));
  }

  /**
   SIGKILL comes: when the grace of a begun round ends on a table that is not clear, and no
   clock read after it finds the deadline passed, everything its last scan found is tried
   with SIGKILL, and nothing but clock reads and attempts comes before.
   */
  lemma KillsComeAfterTheGrace(policy: Policy, log: seq<Step>, rounds: seq<Round>, full: nat, timing: Timing, deadline: nat, r: nat)
    requires Escalated(policy, log, rounds, full, timing, deadline) && Laid(policy, log, rounds, full, timing, deadline)
    requires r < |rounds|
    requires rounds[r].grace < |log| && log[rounds[r].grace].Scanned? && !ClearAt(log, rounds[r].grace, timing.poll)
    requires r < full || !Overdue(log, rounds[r].grace, deadline)
    ensures var round := rounds[r];
            && GraceSpent(log, round.waiting, round.grace, timing.termGrace)
            && TargetsWithin(policy, log[round.grace], Attempts(log, r, SIGKILL))
            && round.grace < round.killing < |log| && Busy(log, round.grace, round.killing) && KillsBefore(log, r, round.killing)
  {
    hide HalfDone, GraceSpent, TargetsWithin, Attempts, Begins, Ordered, ClearAt, Overdue, TermWait, RestDone, KillsBefore;
    if r < full {
      assert RoundDone(policy, log, r, rounds[r], timing, deadline) && FullyPaced(log, rounds[r], timing, deadline);
    } else {
      assert CutShort(policy, log, full, rounds[full], timing, deadline);
    }
  }

  // ----- group signals -----

  /** The group was listed in `trace[j..j+n]` with no protected member, and the leader was read next. */
  ghost predicate GroupInspected(policy: Policy, leader: ProcessIdentity, trace: seq<Event>, j: nat, n: nat) {
    && j + n < |trace| && ListsGroup(trace[j..j+n])
    && ProtectedAmong(policy, MembersOf(leader.pid, trace[j..j+n][1..])) == []
    && trace[j+n].InfoRead? && trace[j+n].pid == leader.pid
  }

  /** The calls right before `i` tie the group to the run: its recorded leader, or a member with the marker. */
  ghost predicate GroupTied(policy: Policy, leader: ProcessIdentity, trace: seq<Event>, i: nat, j: nat, n: nat,
                            m: nat, identity: ProcessIdentity)
  {
    && GroupInspected(policy, leader, trace, j, n)
    && j + n + 1 <= m <= i <= |trace|
    && if m == i then i == j + n + 1 && IsLeader(leader, trace[j+n].info)
       else identity.pid in MembersOf(leader.pid, trace[j..j+n][1..]) && Marks(policy, trace[m..i], identity)
  }

  ghost predicate AuthorisedGroupSend(policy: Policy, leader: ProcessIdentity, trace: seq<Event>, i: nat) {
    exists j, n, m, identity :: GroupTied(policy, leader, trace, i, j, n, m, identity)
  }

  /** A look that authorises a signal leaves that evidence at the end of its own calls. */
  lemma LookIsEvidence(policy: Policy, leader: ProcessIdentity, step: Step) returns (m: nat, identity: ProcessIdentity)
    requires StepOk(policy, step) && Authorises(step, leader)
    ensures step.Attributed? && GroupTied(policy, leader, Events(step), |Events(step)|, 0, |step.listing|, m, identity)
  {
    hide Witnessed, MembersOf, ProtectedAmong, Marks;
    var events, n := Events(step), |step.listing|;
    assert events[0..n] == step.listing;
    assert events[n] == InfoRead(leader.pid, step.leaderRead.value);
    if step.finding.ByLeader? {
      m, identity := n + 1, leader;
    } else {
      var last := step.observed[|step.observed|-1];
      identity := step.finding.identity;
      m := |events| - |last.events|;
      MarkedByLast(policy, last, identity);
      assert events[m..] == last.events;
      assert events[m..|events|] == last.events;
      assert last.pid == MembersOf(leader.pid, step.listing[1..])[|step.observed|-1];
    }
  }

  lemma MarkedByLast(policy: Policy, reading: Reading, identity: ProcessIdentity)
    requires Witnessed(policy, reading) && reading.verdict == Some(Marked(identity))
    ensures identity.pid == reading.pid && Marks(policy, reading.events, identity) && reading.events != []
  {
  }

  lemma SignalIsOneCall(step: Step)
    requires step.GroupSignalled?
    ensures Events(step) == [GroupSent(step.pgid, step.groupSignal, step.delivery)]
  {
  }

  lemma SignalFollowsLook(policy: Policy, log: seq<Step>, signal: Step, leader: ProcessIdentity)
    requires LogOk(policy, log) && log != [] && Authorises(log[|log|-1], leader)
    ensures AuthorisedGroupSend(policy, leader, Flatten(log) + Events(signal), |Flatten(log)|)
  {
    hide StepOk, GroupTied, Events, Authorises;
    var look, earlier := log[|log|-1], Flatten(log[..|log|-1]);
    var m, identity := LookIsEvidence(policy, leader, look);
    TiedShift(policy, leader, earlier, Events(look), Events(signal), |Events(look)|, 0, |look.listing|, m, identity);
  }

  lemma FlattenLast(log: seq<Step>)
    requires Flatten(log) != []
    ensures log != [] && Flatten(log) == Flatten(log[..|log|-1]) + Events(log[|log|-1])
  {
  }

  lemma LogOkInit(policy: Policy, log: seq<Step>)
    requires LogOk(policy, log) && log != []
    ensures LogOk(policy, log[..|log|-1]) && StepOk(policy, log[|log|-1])
  {
  }

  lemma GuardedInit(log: seq<Step>, leader: ProcessIdentity)
    requires Guarded(log, leader) && log != []
    ensures Guarded(log[..|log|-1], leader) && !log[|log|-1].Tried?
    ensures log[|log|-1].GroupSignalled? ==>
              log[|log|-1].pgid == leader.pid && |log| > 1 && Authorises(log[|log|-2], leader)
  {
  }

  /** Every group signal follows calls that tied the group to the run and found no protected member in it. */
  lemma {:induction false} GroupSendsAreAuthorised(policy: Policy, log: seq<Step>, leader: ProcessIdentity, i: nat)
    requires LogOk(policy, log) && Guarded(log, leader)
    requires i < |Flatten(log)| && Flatten(log)[i].GroupSent?
    ensures Flatten(log)[i].pgid == leader.pid && AuthorisedGroupSend(policy, leader, Flatten(log), i)
  {
    hide Witnessed, StepOk, GroupTied, Marks, Authorises, Flatten, LogOk, Guarded, Events;
    FlattenLast(log);
    GuardedInit(log, leader);
    LogOkInit(policy, log);
    var init, last := log[..|log|-1], log[|log|-1];
    var trace, before := Flatten(log), Flatten(init);
    if i < |before| {
      GroupSendsAreAuthorised(policy, init, leader, i);
      var j, n, m, identity :| GroupTied(policy, leader, before, i, j, n, m, identity);
      TiedShift(policy, leader, [], before, Events(last), i, j, n, m, identity);
      assert [] + before + Events(last) == trace;
    } else {
      assert Events(last)[i - |before|].GroupSent?;
      if last.GroupSignalled? {
        SignalIsOneCall(last);
        SignalFollowsLook(policy, init, last, leader);
      } else {
        StepSendsNothing(policy, last, i - |before|);
      }
    }
  }

  /** Group cleanup signals no single process. */
  lemma {:induction false} GroupCleanupSendsNothingElse(policy: Policy, log: seq<Step>, leader: ProcessIdentity, i: nat)
    requires LogOk(policy, log) && Guarded(log, leader) && i < |Flatten(log)|
    ensures !Flatten(log)[i].Sent?
  {
    hide Witnessed, StepOk, Flatten, LogOk, Guarded, Events, Authorises;
    FlattenLast(log);
    LogOkInit(policy, log);
    GuardedInit(log, leader);
    var init, last := log[..|log|-1], log[|log|-1];
    if i < |Flatten(init)| {
      GroupCleanupSendsNothingElse(policy, init, leader, i);
    } else if last.GroupSignalled? {
      SignalIsOneCall(last);
    } else {
      StepSendsNothing(policy, last, i - |Flatten(init)|);
    }
  }

  /** Every signal of group cleanup, of whatever kind, is an authorised signal to the recorded leader's group. */
  lemma GroupCleanupSignalsAreAuthorised(policy: Policy, log: seq<Step>, leader: ProcessIdentity, i: nat)
    requires LogOk(policy, log) && Guarded(log, leader)
    requires i < |Flatten(log)| && IsSignal(Flatten(log)[i])
    ensures Flatten(log)[i].GroupSent? && Flatten(log)[i].pgid == leader.pid
    ensures AuthorisedGroupSend(policy, leader, Flatten(log), i)
  {
    GroupCleanupSendsNothingElse(policy, log, leader, i);
    GroupSendsAreAuthorised(policy, log, leader, i);
  }

  lemma AttemptSendsNoGroup(policy: Policy, step: Step, i: nat)
    requires StepOk(policy, step) && step.Tried?
    requires i < |Events(step)|
    ensures !Events(step)[i].GroupSent?
  {
    hide Marks, Holds, LeftUninspected, Unrelated;
    if step.recheck.Some? {
      var reading := step.recheck.value;
      ReadingOnlyReads(policy, reading);
      forall k | 0 <= k < |reading.events| ensures !reading.events[k].GroupSent? {
        assert reading.events[k] in reading.events;
      }
    }
  }

  /** Evidence stays evidence when calls are added around it. */
  lemma TiedShift(policy: Policy, leader: ProcessIdentity, left: seq<Event>, trace: seq<Event>, right: seq<Event>,
                  i: nat, j: nat, n: nat, m: nat, identity: ProcessIdentity)
    requires GroupTied(policy, leader, trace, i, j, n, m, identity)
    ensures GroupTied(policy, leader, left + trace + right, |left| + i, |left| + j, n, |left| + m, identity)
  {
    hide ListsGroup, MembersOf, ProtectedAmong, Marks;
    var all, k := left + trace + right, |left|;
    assert all[k+j..k+j+n] == trace[j..j+n];
    assert all[k+j+n] == trace[j+n];
    assert all[k+m..k+i] == trace[m..i];
  }
}
