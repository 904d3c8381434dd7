/**
 Cleanup of the processes a run left behind, as `src/cleanup.rs` carries it out:
 rescan a process table it does not control, signal what carries the run's
 marker, and finish only on a stable run of empty scans.
 */
module Cleanup {
  import opened Basics
  import opened Processes
  import opened CleanupTrace
  import opened CleanupPace

  /** What a scan hands to the sweep; `Describes` ties it to the scan's readings. */
  datatype Scan = Scan(
    targets: map<Pid, ProcessIdentity>,
    suspects: set<ProcessIdentity>,
    unsettled: bool,
    confirmedEmpty: bool)

  datatype CleanupFailure =
    | EnumerationFailed
    | EmptyUnconfirmed
    | TargetsSurvived(survivors: set<ProcessIdentity>)
    | UnreadableSuspects(suspects: set<ProcessIdentity>)
    | ProtectedCarriesMarker(pids: set<Pid>)
    | ProtectedInGroup(pgid: Pid, members: seq<Pid>)
    | GroupUnattributed(pgid: Pid)
    | GroupSurvived(pgid: Pid)

  /** The finding of the first look at a group, when it allows signals or needs none. */
  datatype GroupAttribution = AlreadyGone | Leader | MarkedMember(identity: ProcessIdentity)

  /** What the caller of an attribution is told about its finding; no attribution means no live member. */
  ghost predicate Tells(leader: ProcessIdentity, finding: GroupFinding,
                        result: Result<Option<GroupAttribution>, CleanupFailure>)
  {
    match finding
    case Unlisted => result == Err(EnumerationFailed)
    case NoMembers => result == Ok(None)
    case ProtectedMembers(pids) => result == Err(ProtectedInGroup(leader.pid, pids))
    case ByLeader => result == Ok(Some(Leader))
    case ByMember(identity) => result == Ok(Some(MarkedMember(identity)))
    case Unattributed => result == Err(GroupUnattributed(leader.pid))
  }

  /** A failure of group cleanup is what the last look at the group found. */
  ghost predicate GroupFailure(leader: ProcessIdentity, step: Step, failure: CleanupFailure) {
    || (step.Attributed? && step.leader == leader && Tells(leader, step.finding, Err(failure)))
    || (step == GroupPolled(leader.pid, [Listed(None)]) && failure == EnumerationFailed)
  }

  lemma FailureTold(leader: ProcessIdentity, step: Step, failure: CleanupFailure)
    requires step.Attributed? && step.leader == leader && Tells(leader, step.finding, Err(failure))
    ensures GroupFailure(leader, step, failure) && !failure.GroupSurvived?
  {
  }

  lemma NotSurvived(leader: ProcessIdentity, step: Step, failure: CleanupFailure)
    requires GroupFailure(leader, step, failure)
    ensures !failure.GroupSurvived?
  {
  }

  lemma MetNoGroup(pgid: Pid, signal: Signal)
    ensures GroupGone(GroupSignalled(pgid, signal, Undelivered(ESRCH)), pgid)
  {
  }

  lemma PollFailed(leader: ProcessIdentity, step: Step)
    requires step == GroupPolled(leader.pid, [Listed(None)])
    ensures GroupFailure(leader, step, EnumerationFailed)
  {
  }

  /** A look allows a signal exactly when its caller is told an attribution. */
  lemma ToldAuthorises(leader: ProcessIdentity, step: Step, result: Result<Option<GroupAttribution>, CleanupFailure>)
    requires step.Attributed? && step.leader == leader && Tells(leader, step.finding, result)
    ensures Authorises(step, leader) <==> result.Ok? && result.value.Some?
  {
  }

  lemma NoneIsGone(leader: ProcessIdentity, step: Step)
    requires step.Attributed? && step.leader == leader && Tells(leader, step.finding, Ok(None))
    ensures GroupGone(step, leader.pid)
  {
  }

  /** `scan` reports what the readings of `step` add up to. */
  ghost predicate Describes(policy: Policy, step: Step, scan: Scan)
    requires step.Scanned?
  {
    && NamesTargets(policy, step.readings, scan.targets)
    && scan.suspects == SuspectsOf(step.readings)
    && scan.unsettled == Unsettled(step.readings)
    && MaySignal(policy, scan.targets)
    && (scan.targets == map[] && scan.suspects == {} <==> Empty(policy, step.readings))
  }

  /** `scan` is the last look at the process table, and nothing but clock reads followed it. */
  ghost predicate LastLook(policy: Policy, poll: nat, log: seq<Step>, step: Step, scan: Scan) {
    && EndsWith(log, step) && step.Scanned? && Describes(policy, step, scan)
    && (scan.confirmedEmpty <==> ConfirmedEmpty(Scans(log), poll))
  }

  lemma JustLooked(policy: Policy, poll: nat, log: seq<Step>, step: Step, scan: Scan)
    requires step.Scanned? && Describes(policy, step, scan)
    requires scan.confirmedEmpty <==> ConfirmedEmpty(Scans(log + [step]), poll)
    ensures LastLook(policy, poll, log + [step], step, scan)
  {
    EndsWithScan(log, step);
  }

  lemma LastLookMaySignal(policy: Policy, poll: nat, log: seq<Step>, step: Step, scan: Scan)
    requires LastLook(policy, poll, log, step, scan)
    ensures MaySignal(policy, scan.targets)
  {
  }

  lemma LastLookEnds(policy: Policy, poll: nat, log: seq<Step>, step: Step, scan: Scan)
    requires LastLook(policy, poll, log, step, scan)
    ensures EndsWith(log, step) && step.Scanned? && Describes(policy, step, scan)
    ensures scan.confirmedEmpty <==> ConfirmedEmpty(Scans(log), poll)
  {
  }

  /** What the last look found to stop is what its targets name. */
  lemma LastLookWithin(policy: Policy, poll: nat, log: seq<Step>, step: Step, scan: Scan, ids: set<ProcessIdentity>)
    requires LastLook(policy, poll, log, step, scan) && scan.targets.Values <= ids
    ensures TargetsWithin(policy, step, ids) && step.Scanned?
  {
  }

  /** Each target of the last look is one that its scan marked. */
  lemma LastLookFinds(policy: Policy, poll: nat, log: seq<Step>, step: Step, scan: Scan)
    requires LastLook(policy, poll, log, step, scan)
    ensures forall target :: target in scan.targets.Values ==> FoundBy(policy, step, target)
  {
    forall target | target in scan.targets.Values ensures FoundBy(policy, step, target) {
      var pid :| pid in scan.targets && scan.targets[pid] == target;
    }
  }

  /** Seen from its place in the log, the last look cleared the table exactly when it says so. */
  lemma LastLookClear(policy: Policy, poll: nat, log: seq<Step>, step: Step, scan: Scan, at: nat)
    requires LastLook(policy, poll, log, step, scan) && OnlyTimedAfter(log, at)
    ensures scan.confirmedEmpty <==> ClearAt(log, at, poll)
  {
    hide ConfirmedEmpty;
    ScansUpTo(log, at);
  }

  lemma LastLookTimed(policy: Policy, poll: nat, log: seq<Step>, step: Step, scan: Scan, now: nat)
    requires LastLook(policy, poll, log, step, scan)
    ensures LastLook(policy, poll, log + [Timed(now)], step, scan)
  {
    EndsWithTimed(log, step, now);
  }

  /** A failure says what the last look at the process table saw. */
  ghost predicate Truthful(policy: Policy, step: Step, failure: CleanupFailure) {
    match failure
    case EnumerationFailed => step == ListingFailed
    case UnreadableSuspects(suspects) =>
      step.Scanned? && suspects != {} && suspects == SuspectsOf(step.readings)
    case TargetsSurvived(survivors) =>
      && step.Scanned? && survivors != {} && SuspectsOf(step.readings) == {}
      && exists targets :: NamesTargets(policy, step.readings, targets) && survivors == targets.Values
    case EmptyUnconfirmed => step.Scanned? && Empty(policy, step.readings)
    case _ => false
  }

  class Sweeper {
    const source: ProcessTable
    const policy: Policy
    const timing: Timing
    var signalled: set<ProcessIdentity>
    var protectedHits: set<Pid>
    var emptySince: Option<nat>
    var emptyScans: nat
    var settledSince: Option<nat>
    /** The steps taken so far, and how many trailing scans were empty and settled. */
    ghost var log: seq<Step>
    ghost var settledScans: nat

    ghost function Run(): EmptyRun
      reads this
    {
      EmptyRun(emptyScans, emptySince, settledScans, settledSince)
    }

    /** The log accounts for every call made and for every field. */
    ghost predicate Valid()
      reads this, source
    {
      Accounts(policy, log, State(source.trace, source.now, Run(), signalled, protectedHits))
    }

    /** The caller's protected pids are extended by the sweeper's own. */
    constructor (table: ProcessTable, marker: Bytes, runStart: Option<nat>, adopted: set<ProcessIdentity>,
                 protected: set<Pid>, timing: Timing, ownPid: Pid, ownUid: nat)
      requires table.trace == []
      ensures Valid() && log == [] && signalled == {} && protectedHits == {}
      ensures source == table && this.timing == timing
      ensures policy == Policy(marker, runStart, adopted, protected + {ownPid}, ownUid)
    {
      source := table;
      policy := Policy(marker, runStart, adopted, protected + {ownPid}, ownUid);
      this.timing := timing;
      signalled, protectedHits := {}, {};
      emptySince, emptyScans, settledSince := None, 0, None;
      log, settledScans := [], 0;
    }

    /** Climb the ancestors of another user until one predates the run or the climb is cut off. */
    method StartedByOlderDaemon(parent: Pid, runStart: nat) returns (older: bool, ghost walk: seq<Event>)
      modifies source
      ensures source.trace == old(source.trace) + walk
      ensures source.now >= old(source.now)
      ensures if older then ReachesOlderDaemon(policy, parent, walk, runStart)
              else ClimbBlocked(policy, parent, walk, runStart)
    {
      hide ClimbBlocked, ReachesOlderDaemon;
      var ancestor := parent;
      walk := [];
      for k := 0 to MAX_ANCESTRY
        invariant |walk| == k
        invariant source.trace == old(source.trace) + walk
        invariant source.now >= old(source.now)
        invariant ancestor == AncestorAt(parent, walk, k)
        invariant Passes(policy, parent, walk, k, runStart)
      {
        if ancestor.raw <= 1 {
          ClimbExhausted(policy, parent, walk, runStart);
          return false, walk;
        }
        var read := source.Info(ancestor);
        ClimbStep(policy, parent, walk, read, runStart);
        walk := walk + [InfoRead(ancestor, read)];
        if !read.Found? || read.value.uid == policy.ownUid {
          return false, walk;
        }
        if read.value.start < runStart {
          return true, walk;
        }
        ancestor := read.value.ppid;
      }
      ClimbExhausted(policy, parent, walk, runStart);
      return false, walk;
    }

    method StillSame(pid: Pid, info: ProcessInfo) returns (same: bool, ghost event: Event)
      modifies source
      ensures source.trace == old(source.trace) + [event]
      ensures source.now >= old(source.now)
      ensures event.InfoRead? && event.pid == pid
      ensures same <==> Confirms(event, ProcessIdentity(pid, info.start))
    {
      var after := source.Info(pid);
      event := InfoRead(pid, after);
      same := after.Found? && after.value.start == info.start;
    }

    /** Whether a process whose environment was refused is a suspect of the run. */
    method NoteRefusal(pid: Pid, info: ProcessInfo, ghost events: seq<Event>)
      returns (suspect: Option<ProcessIdentity>, ghost reading: Reading)
      requires |events| == 2 && events[0] == InfoRead(pid, Found(info))
      requires events[1].EnvironmentRead? && events[1].pid == pid && events[1].environment.Refused?
      requires ProcessIdentity(pid, info.start) !in policy.adopted
      modifies source
      ensures events <= reading.events
      ensures source.trace == old(source.trace) + reading.events[2..]
      ensures source.now >= old(source.now)
      ensures reading.pid == pid && Witnessed(policy, reading)
      ensures reading.verdict == if suspect.Some? then Some(Suspect(suspect.value)) else None
    {
      hide Witnessed, ReachesOlderDaemon, ClimbBlocked;
      var identity := ProcessIdentity(pid, info.start);
      var same;
      ghost var event;
      same, event := StillSame(pid, info);
      ghost var three := events + [event];
      ghost var walk := [];
      assert Refuses(policy, three, identity);
      if !same || info.uid != policy.ownUid || policy.runStart.None? || info.start < policy.runStart.value {
        suspect := None;
      } else {
        var older;
        older, walk := StartedByOlderDaemon(info.ppid, policy.runStart.value);
        suspect := if older then None else Some(identity);
        ClimbIsDecided(policy, info.ppid, walk, policy.runStart.value);
      }
      RefusalVerdict(policy, identity, three, walk);
      reading := Reading(pid, three + walk, if suspect.Some? then Some(Suspect(suspect.value)) else None);
    }

    /** Read about one process; the verdict is the one that `Witnessed` derives from those reads. */
    method Observe(pid: Pid) returns (observation: Option<Observation>, ghost reading: Reading)
      modifies source
      ensures source.trace == old(source.trace) + reading.events
      ensures source.now >= old(source.now)
      ensures reading.pid == pid && reading.verdict == observation && Witnessed(policy, reading)
    {
      hide ClimbBlocked, ReachesOlderDaemon, Carries;
      var read := source.Info(pid);
      ghost var one := [InfoRead(pid, read)];
      if read.Exited? || read.Gone? {
        return Some(Vanished), Reading(pid, one, Some(Vanished));
      }
      if read.Refused? {
        return None, Reading(pid, one, None);
      }
      var info := read.value;
      var identity := ProcessIdentity(pid, info.start);
      if identity in policy.adopted {
        return Some(Marked(identity)), Reading(pid, one, Some(Marked(identity)));
      }
      var environment := source.Environment(pid);
      ghost var two := one + [EnvironmentRead(pid, environment)];
      if environment.Exited? || environment.Gone? {
        return Some(Vanished), Reading(pid, two, Some(Vanished));
      }
      if environment.Refused? {
        var suspect;
        suspect, reading := NoteRefusal(pid, info, two);
        assert reading.events == two + reading.events[2..];
        return if suspect.Some? then Some(Suspect(suspect.value)) else None, reading;
      }
      var same;
      ghost var event;
      same, event := StillSame(pid, info);
      ghost var three := two + [event];
      if !same {
        return Some(Vanished), Reading(pid, three, Some(Vanished));
      }
      if !Carries(environment.value, policy.marker) {
        return None, Reading(pid, three, None);
      }
      return Some(Marked(identity)), Reading(pid, three, Some(Marked(identity)));
    }

    method Clock() returns (t: nat)
      requires Valid()
      modifies this`log, source
      ensures Valid() && log == old(log) + [Timed(t)]
      ensures old(source.now) <= t == source.now
    {
      t := source.Now();
      AccountsQuiet(policy, log, old(State(source.trace, source.now, Run(), signalled, protectedHits)), Timed(t), source.now);
      log := log + [Timed(t)];
    }

    method Pause(duration: nat)
      requires Valid()
      modifies this`log, source
      ensures Valid() && log == old(log) + [Paused(duration)]
      ensures source.now > old(source.now)
    {
      source.Sleep(duration);
      AccountsQuiet(policy, log, old(State(source.trace, source.now, Run(), signalled, protectedHits)), Paused(duration), source.now);
      log := log + [Paused(duration)];
    }

    /** Observe every listed process. */
    method ReadAll(pids: seq<Pid>) returns (tally: Tally, ghost readings: seq<Reading>)
      modifies source
      ensures AllWitnessed(policy, pids, readings)
      ensures source.trace == old(source.trace) + ReadingEvents(readings)
      ensures source.now >= old(source.now)
      ensures Sums(policy, readings, tally)
    {
      hide *;
      tally, readings := Tally(map[], {}, false, {}), [];
      NothingRead(policy);
      for k := 0 to |pids|
        invariant AllWitnessed(policy, pids[..k], readings)
        invariant source.trace == old(source.trace) + ReadingEvents(readings)
        invariant source.now >= old(source.now)
        invariant Sums(policy, readings, tally)
      {
        var observation;
        ghost var reading;
        observation, reading := Observe(pids[k]);
        SumsAppend(policy, readings, tally, reading);
        AllWitnessedAppend(policy, pids[..k], readings, reading);
        assert pids[..k] + [pids[k]] == pids[..k + 1];
        tally, readings := Tallied(policy, tally, pids[k], observation), readings + [reading];
      }
      assert pids[..|pids|] == pids;
    }

    /** Update the run of empty scans for one more, read at `now`. */
    method ExtendRun(unsettled: bool, now: nat)
      modifies this`emptySince, this`emptyScans, this`settledSince, this`settledScans
      ensures Run() == Extended(old(Run()), unsettled, now)
    {
      emptySince := if emptySince.Some? then emptySince else Some(now);
      emptyScans := emptyScans + 1;
      settledSince := if unsettled then None else if settledSince.Some? then settledSince else Some(now);
      settledScans := if unsettled then 0 else settledScans + 1;
    }

    /** Whether what the readings add up to may be believed as an empty table. */
    method Conclude(ghost state: State, pids: seq<Pid>, tally: Tally, ghost readings: seq<Reading>)
      returns (confirmed: bool, ghost step: Step)
      requires Accounts(policy, log, state) && state.now <= source.now
      requires source.trace == state.trace + [Listed(Some(pids))] + ReadingEvents(readings)
      requires state.run == Run() && state.signalled == signalled && state.protectedHits == protectedHits
      requires AllWitnessed(policy, pids, readings) && Sums(policy, readings, tally)
      modifies this, source
      ensures Valid() && log == old(log) + [step]
      ensures source.now >= old(source.now)
      ensures step.Scanned? && step.readings == readings
      ensures confirmed <==> ConfirmedEmpty(Scans(log), timing.poll)
    {
      hide Accounts, Sums, AllWitnessed, Flatten, Scans, ConfirmedEmpty, ReadingEvents, Extended;
      protectedHits := protectedHits + tally.protectedHits;
      if tally.targets != map[] || tally.suspects != {} {
        emptySince, emptyScans, settledSince, settledScans := None, 0, None, 0;
        step := Scanned(pids, readings, None);
        assert source.trace == state.trace + Events(step);
        AccountsScan(policy, log, state, step, tally, source.now);
        NeverConfirms(Scans(log) + [step], timing.poll);
        log := log + [step];
        return false, step;
      }
      var now := source.Now();
      ExtendRun(tally.unsettled, now);
      step := Scanned(pids, readings, Some(now));
      assert source.trace == state.trace + Events(step);
      AccountsScan(policy, log, state, step, tally, now);
      log := log + [step];
      AccountsConfirms(policy, log, State(source.trace, now, Run(), signalled, protectedHits), timing.poll);
      var settled := settledSince.Some? && now - settledSince.value >= timing.poll;
      var busy := emptyScans >= BUSY_EMPTY_SCANS && now - emptySince.value >= timing.poll;
      confirmed := settled || busy;
    }

    /** One look at the whole process table; `step` is what it adds to the log. */
    method ScanTable() returns (result: Result<Scan, CleanupFailure>, ghost step: Step)
      requires Valid()
      modifies this, source
      ensures Valid() && log == old(log) + [step]
      ensures source.now >= old(source.now)
      ensures result.Err? ==> result.error == EnumerationFailed && step == ListingFailed
      ensures result.Ok? ==> step.Scanned? && Describes(policy, step, result.value)
      ensures result.Ok? ==> (result.value.confirmedEmpty <==> ConfirmedEmpty(Scans(log), timing.poll))
    {
      hide Accounts, Sums, AllWitnessed, ReadingEvents;
      ghost var state := State(source.trace, source.now, Run(), signalled, protectedHits);
      var pids := source.List();
      if pids.None? {
        step := ListingFailed;
        AccountsQuiet(policy, log, state, step, source.now);
        log := log + [step];
        return Err(EnumerationFailed), step;
      }
      var tally;
      ghost var readings;
      tally, readings := ReadAll(pids.value);
      SumsParts(policy, readings, tally);
      EmptyTally(policy, readings, tally);
      TargetsMaySignal(policy, pids.value, readings, tally.targets);
      var confirmed;
      confirmed, step := Conclude(state, pids.value, tally, readings);
      result := Ok(Scan(tally.targets, tally.suspects, tally.unsettled, confirmed));
    }

    /** Pin, read again, and send exactly when the second verdict is the same identity, marked. */
    method SignalVerified(round: nat, target: ProcessIdentity, signal: Signal) returns (sent: bool, ghost step: Step)
      requires target.pid !in policy.protected
      modifies source
      ensures step.Tried? && step.round == round && step.target == target && step.signal == signal
      ensures StepOk(policy, step)
      ensures source.trace == old(source.trace) + Events(step)
      ensures source.now >= old(source.now)
      ensures sent <==> step.sent == Some(Delivered)
    {
      hide Witnessed, StepOk, Events;
      sent := false;
      ghost var recheck, delivered := None, None;
      var handle := source.Pin(target.pid);
      if handle.Found? {
        var observation;
        ghost var reading;
        observation, reading := Observe(target.pid);
        recheck := Some(reading);
        if observation == Some(Marked(target)) {
          var delivery := source.Send(handle.value, signal);
          delivered := Some(delivery);
          sent := delivery.Delivered?;
        }
      }
      step := Tried(round, target, signal, handle, recheck, delivered);
      TriedStep(policy, step);
    }

    /** One attempt for each target outside `sent`, which then covers all of them. */
    method SignalNew(targets: map<Pid, ProcessIdentity>, sent: set<ProcessIdentity>, signal: Signal,
                     round: nat, ghost termed: set<ProcessIdentity>, ghost killed: set<ProcessIdentity>)
      returns (sent': set<ProcessIdentity>)
      requires Valid() && MaySignal(policy, targets)
      requires Scheduled(log, round, termed, killed)
      requires sent == if signal == SIGTERM then termed else killed
      modifies this`log, this`signalled, source
      ensures Valid() && source.now >= old(source.now) && old(log) <= log
      ensures Scheduled(log, round, if signal == SIGTERM then sent' else termed, if signal == SIGTERM then killed else sent')
      ensures sent' == sent + targets.Values
      ensures forall i | |old(log)| <= i < |log| :: IsAttempt(log[i], round, signal) && log[i].target in targets.Values
    {
      hide Accounts, Scheduled, StepOk;
      sent' := sent;
      var left := targets.Values;
      while left != {}
        invariant left <= targets.Values && sent' == sent + (targets.Values - left)
        invariant Valid() && source.now >= old(source.now) && old(log) <= log
        invariant forall i | |old(log)| <= i < |log| :: IsAttempt(log[i], round, signal) && log[i].target in targets.Values
        invariant Scheduled(log, round, if signal == SIGTERM then sent' else termed, if signal == SIGTERM then killed else sent')
        decreases left
      {
        var target :| target in left;
        left := left - {target};
        assert exists pid :: pid in targets && targets[pid] == target;
        if target !in sent' {
          ghost var state := State(source.trace, source.now, Run(), signalled, protectedHits);
          var delivered;
          ghost var step;
          delivered, step := SignalVerified(round, target, signal);
          ScheduledTried(log, step, round, if signal == SIGTERM then sent' else termed, if signal == SIGTERM then killed else sent');
          AccountsTried(policy, log, state, step, source.now);
          sent' := sent' + {target};
          log := log + [step];
          if delivered {
            signalled := signalled + {target};
          }
        }
      }
    }

    /** Pause for a poll, but not past `until`, and look again. */
    method Rescan(until: nat, ghost round: nat, ghost termed: set<ProcessIdentity>, ghost killed: set<ProcessIdentity>)
      returns (result: Result<Scan, CleanupFailure>, ghost step: Step)
      requires Valid() && Scheduled(log, round, termed, killed)
      modifies this, source
      ensures Valid() && source.now > old(source.now)
      ensures |log| == |old(log)| + 3 && old(log) <= log && log[|log|-1] == step
      ensures log[|log|-3].Timed? && log[|log|-2] == Paused(NapFor(timing.poll, log[|log|-3].now, until)) && IsLook(step)
      ensures Scheduled(log, round, termed, killed)
      ensures result.Err? ==> result.error == EnumerationFailed && step == ListingFailed && EndsWith(log, step)
      ensures result.Ok? ==> LastLook(policy, timing.poll, log, step, result.value) && step.Scanned?
    {
      hide Accounts, Scheduled, LastLook, ConfirmedEmpty, EndsWith, Describes, Scans;
      ghost var log0 := log;
      var now := Clock();
      ghost var log1 := log;
      var nap := if until <= now then 0 else if timing.poll < until - now then timing.poll else until - now;
      Pause(nap);
      ghost var log2 := log;
      result, step := ScanTable();
      ScheduledQuiet(log0, Timed(now), round, termed, killed);
      ScheduledQuiet(log1, Paused(nap), round, termed, killed);
      ScheduledQuiet(log2, step, round, termed, killed);
      EndsWithScan(log2, step);
      if result.Ok? {
        JustLooked(policy, timing.poll, log2, step, result.value);
      }
    }

    /** SIGTERM what the last scan found; then everything found since `from` was attempted, and nothing else was. */
    method Chase(scan: Scan, round: nat, termed: set<ProcessIdentity>, ghost killed: set<ProcessIdentity>,
                 ghost step: Step, ghost at: nat, ghost from: nat)
      returns (termed': set<ProcessIdentity>)
      requires Valid() && Scheduled(log, round, termed, killed)
      requires LastLook(policy, timing.poll, log, step, scan)
      requires from <= at && OnlyTimedAfter(log, at) && log[at] == step
      requires Chased(policy, log, from, at, termed) && Aimed(policy, log, from, round, SIGTERM, from)
      modifies this`log, this`signalled, source
      ensures Valid() && source.now >= old(source.now) && old(log) <= log
      ensures Scheduled(log, round, termed', killed) && termed <= termed'
      ensures Chased(policy, log, from, |log|, termed') && Aimed(policy, log, from, round, SIGTERM, from)
      ensures forall i | |old(log)| <= i < |log| :: log[i].Tried?
    {
      hide Accounts, Scheduled, LastLook, MaySignal, Chased, TargetsWithin, Aimed, FoundBy, Valid;
      LastLookMaySignal(policy, timing.poll, log, step, scan);
      LastLookFinds(policy, timing.poll, log, step, scan);
      ghost var looked := log;
      LastLookWithin(policy, timing.poll, log, step, scan, termed + scan.targets.Values);
      termed' := SignalNew(scan.targets, termed, SIGTERM, round, termed, killed);
      ChasedGrows(policy, looked, log, from, at, termed, termed');
      ChasedScan(policy, log, from, at, termed');
      ChasedSkips(policy, log, from, at + 1, |log|, termed');
      AimedAt(policy, looked, log, from, round, SIGTERM, from, at);
    }

    /**
     Scan a poll apart until the history is confirmed empty or the clock reaches `until`; while
     terminating, attempt whatever a scan finds. `at` is the place of the last scan in the log.
     */
    method WaitUntilClear(until: nat, terminating: bool, round: nat,
                          termed: set<ProcessIdentity>, ghost killed: set<ProcessIdentity>)
      returns (result: Result<Scan, CleanupFailure>, termed': set<ProcessIdentity>, ghost step: Step, ghost at: nat)
      requires Valid() && Scheduled(log, round, termed, killed)
      requires log != [] && log[|log|-1].Timed?
      modifies this, source
      ensures Valid() && source.now >= old(source.now) && old(log) <= log
      ensures Scheduled(log, round, termed', killed) && termed <= termed' && (!terminating ==> termed' == termed)
      ensures result.Err? ==> result.error == EnumerationFailed && step == ListingFailed && EndsWith(log, step)
      ensures result.Ok? ==> LastLook(policy, timing.poll, log, step, result.value)
      ensures |old(log)| <= at && OnlyTimedAfter(log, at) && log[at] == step && (result.Ok? ==> step.Scanned?)
      ensures Waited(log, |old(log)| - 1, at, until, timing.poll)
      ensures result.Ok? && terminating ==> Chased(policy, log, |old(log)|, at, termed')
      ensures Aimed(policy, log, |old(log)|, round, SIGTERM, |old(log)|)
      ensures !terminating ==> forall i | |old(log)| <= i < |log| :: !log[i].Tried?
      ensures result.Ok? && !result.value.confirmedEmpty ==>
                at + 1 < |log| && log[at+1].Timed? && until <= log[at+1].now <= source.now
    {
      hide Accounts, Scheduled, LastLook, EndsWith, Chased, Aimed, Valid, Waited, NapFor, ConfirmedEmpty, Scans,
           OnTheWay, OnlyTimedAfter;
      ghost var wait := Wait(|log| - 1, until, timing.poll, round, terminating);
      termed' := termed;
      SetsOut(policy, log, wait, termed);
      while true
        invariant Valid() && source.now >= old(source.now) && old(log) <= log
        invariant Scheduled(log, round, termed', killed) && termed <= termed' && (!terminating ==> termed' == termed)
        invariant OnTheWay(policy, log, wait, termed')
        decreases if source.now < until then until - source.now else 0
      {
        ghost var before := log;
        result, step := Rescan(until, round, termed', killed);
        at := |log| - 1;
        Arrives(policy, before, log, wait, termed');
        NothingAfter(log);
        if result.Err? || result.value.confirmedEmpty {
          return;
        }
        ghost var scanned := log;
        var late := Late(until, round, termed', killed, step, result.value);
        ArrivedLater(policy, scanned, log, wait, at, termed');
        OnlyTimedLater(scanned, log, at);
        if late {
          return;
        }
        LastLookEnds(policy, timing.poll, scanned, step, result.value);
        ghost var timed := log;
        if terminating {
          termed' := Chase(result.value, round, termed', killed, step, at, |old(log)|);
        }
        SetsOutAgain(policy, scanned, timed, log, wait, termed');
      }
    }

    /** The earlier of `wait` from now and `deadline`. */
    method Bounded(wait: nat, deadline: nat, ghost round: nat, ghost termed: set<ProcessIdentity>, ghost killed: set<ProcessIdentity>)
      returns (until: nat)
      requires Valid() && Scheduled(log, round, termed, killed)
      modifies this`log, source
      ensures Valid() && Scheduled(log, round, termed, killed)
      ensures |log| == |old(log)| + 1 && old(log) <= log && log[|log|-1].Timed?
      ensures until == Until(log[|log|-1].now, wait, deadline)
      ensures source.now >= old(source.now)
    {
      hide Accounts, Scheduled;
      var now := Clock();
      ScheduledQuiet(old(log), Timed(now), round, termed, killed);
      until := if now + wait < deadline then now + wait else deadline;
    }

    /** Whether the deadline has passed; asking changes nothing a cleanup depends on. */
    method Late(deadline: nat, ghost round: nat, ghost termed: set<ProcessIdentity>, ghost killed: set<ProcessIdentity>,
                ghost step: Step, ghost scan: Scan)
      returns (late: bool)
      requires Valid() && Scheduled(log, round, termed, killed)
      requires LastLook(policy, timing.poll, log, step, scan)
      modifies this`log, source
      ensures Valid() && Scheduled(log, round, termed, killed)
      ensures |log| == |old(log)| + 1 && old(log) <= log && log[|log|-1].Timed?
      ensures LastLook(policy, timing.poll, log, step, scan)
      ensures log[|log|-1].now == source.now >= old(source.now)
      ensures if late then OutOfTime(log, deadline) && source.now >= deadline else InTime(log, deadline) && old(source.now) < deadline
    {
      hide Accounts, Scheduled, LastLook;
      var now := Clock();
      ScheduledQuiet(old(log), Timed(now), round, termed, killed);
      LastLookTimed(policy, timing.poll, old(log), step, scan, now);
      late := deadline <= now;
    }

    /** The failure that the last look at the process table calls for. */
    method Fail(scan: Scan, ghost step: Step) returns (failure: CleanupFailure)
      requires step.Scanned? && Describes(policy, step, scan)
      ensures Truthful(policy, step, failure)
    {
      if scan.suspects != {} {
        return UnreadableSuspects(scan.suspects);
      }
      if scan.targets == map[] {
        return EmptyUnconfirmed;
      }
      failure := TargetsSurvived(scan.targets.Values);
      var item :| item in scan.targets.Items;
      assert item.1 in scan.targets.Values;
    }

    /** SIGKILL exactly what `scan` found, and give it a grace to disappear. */
    method KillPhase(scan: Scan, round: nat, deadline: nat, termed: set<ProcessIdentity>, ghost step: Step)
      returns (result: Result<Scan, CleanupFailure>, late: bool, ghost step': Step, ghost killing: nat, ghost at: nat)
      requires Valid() && Scheduled(log, round, termed, {})
      requires LastLook(policy, timing.poll, log, step, scan)
      modifies this, source
      ensures Valid() && old(log) <= log
      ensures Scheduled(log, round, termed, scan.targets.Values)
      ensures result.Err? ==> result.error == EnumerationFailed && step' == ListingFailed && EndsWith(log, step')
      ensures result.Ok? ==> LastLook(policy, timing.poll, log, step', result.value)
      ensures |old(log)| <= killing < at && OnlyTimedAfter(log, at) && log[at] == step' && (result.Ok? ==> step'.Scanned?)
      ensures forall i | |old(log)| <= i < |log| && log[i].Tried? ::
                IsAttempt(log[i], round, SIGKILL) && log[i].target in scan.targets.Values && i < killing
      ensures log[killing].Timed? && forall i | |old(log)| <= i < killing :: log[i].Tried?
      ensures Waited(log, killing, at, Until(log[killing].now, timing.killGrace, deadline), timing.poll)
      ensures result.Ok? && !result.value.confirmedEmpty ==> GraceOver(log, killing, at, timing.killGrace, deadline)
      ensures result.Ok? ==> at + 1 < |log|
      ensures result.Ok? && late ==> OutOfTime(log, deadline)
    {
      hide Accounts, Scheduled, LastLook, EndsWith, InTime, MaySignal, Chased, Aimed, Waited, Valid;
      LastLookMaySignal(policy, timing.poll, log, step, scan);
      late := false;
      var killed := SignalNew(scan.targets, {}, SIGKILL, round, termed, {});
      assert killed == scan.targets.Values;
      var until := Bounded(timing.killGrace, deadline, round, termed, killed);
      killing := |log| - 1;
      var same;
      result, same, step', at := WaitUntilClear(until, false, round, termed, killed);
      if result.Ok? {
        ghost var waited := log;
        late := Late(deadline, round, termed, killed, step', result.value);
        WaitedLater(waited, log, killing, at, until, timing.poll);
      }
    }

    /** SIGTERM what `scan` found, and what appears while its grace runs. */
    method TermPhase(scan: Scan, round: nat, deadline: nat, ghost step: Step, ghost open: nat)
      returns (result: Result<Scan, CleanupFailure>, termed: set<ProcessIdentity>,
               ghost step': Step, ghost half: Round)
      requires Valid() && Scheduled(log, round, {}, {})
      requires LastLook(policy, timing.poll, log, step, scan)
      requires OnlyTimedAfter(log, open) && log[open] == step && open + 1 < |log| && InTime(log, deadline)
      requires !scan.confirmedEmpty
      modifies this, source
      ensures Valid() && old(log) <= log
      ensures Scheduled(log, round, termed, {})
      ensures TermWait(log, half, timing, deadline) && Begins(log, half, timing, deadline)
      ensures OnlyTimedAfter(log, half.grace) && log[half.grace] == step'
      ensures result.Ok? ==> (result.value.confirmedEmpty <==> ClearAt(log, half.grace, timing.poll))
      ensures result.Err? ==> result.error == EnumerationFailed && step' == ListingFailed && EndsWith(log, step')
      ensures result.Ok? ==> LastLook(policy, timing.poll, log, step', result.value)
      ensures half.open == open && Ordered(policy, log, round, half, timing)
      ensures forall i | |old(log)| <= i < |log| && log[i].Tried? :: log[i].round == round
      ensures result.Ok? ==> HalfDone(policy, log, round, half)
      ensures result.Ok? && !result.value.confirmedEmpty ==>
                && GraceOver(log, half.waiting, half.grace, timing.termGrace, deadline)
                && log[half.grace+1].now <= source.now
    {
      hide Accounts, Scheduled, LastLook, EndsWith, Describes, MaySignal, Chased, TargetsWithin, Ordered, FoundBy,
           FoundSince, Valid, Waited, ConfirmedEmpty, Scans;
      ghost var start := log;
      LastLookClear(policy, timing.poll, log, step, scan, open);
      ScheduledEarlier(log, round);
      LastLookMaySignal(policy, timing.poll, log, step, scan);
      LastLookFinds(policy, timing.poll, log, step, scan);
      LastLookWithin(policy, timing.poll, log, step, scan, scan.targets.Values);
      termed := SignalNew(scan.targets, {}, SIGTERM, round, {}, {});
      assert termed == scan.targets.Values;
      AimedAt(policy, start, log, |start|, round, SIGTERM, open, open);
      ScheduledExactly(log, round, termed, {});
      ghost var struck := log;
      var until := Bounded(timing.termGrace, deadline, round, termed, {});
      AimedQuiet(policy, struck, log, |start|, round, SIGTERM, open);
      ghost var opening, sent := log, termed;
      ghost var grace;
      ChasedOpening(policy, log, open, termed);
      result, termed, step', grace := WaitUntilClear(until, true, round, termed, {});
      AimedJoins(policy, opening, log, |start|, round, SIGTERM, open);
      half := Round(open, |opening| - 1, grace, 0, 0);
      RoundBegins(start, log, half, timing, deadline);
      if result.Ok? {
        LastLookClear(policy, timing.poll, log, step', result.value, grace);
        ChasedJoins(policy, opening, log, open, grace, sent, termed);
        ScheduledExactly(log, round, termed, {});
        assert log[..half.waiting] == struck;
      }
      OrderedTerms(policy, start, log, round, half, timing);
    }

    /**
     One round: SIGTERM and a grace, then SIGKILL and a grace. Unless time runs out
     or the table is found clear, the round is carried out in full.
     */
    method SweepRound(scan: Scan, round: nat, deadline: nat, ghost step: Step, ghost open: nat)
      returns (result: Result<Scan, CleanupFailure>, done: bool, late: bool, ghost step': Step, ghost record: Round)
      requires Valid() && Scheduled(log, round, {}, {})
      requires LastLook(policy, timing.poll, log, step, scan)
      requires OnlyTimedAfter(log, open) && log[open] == step && open + 1 < |log| && InTime(log, deadline)
      requires !scan.confirmedEmpty
      modifies this, source
      ensures Valid() && old(log) <= log
      ensures Scheduled(log, round + 1, {}, {})
      ensures Begins(log, record, timing, deadline)
      ensures result.Err? ==> result.error == EnumerationFailed && step' == ListingFailed && EndsWith(log, step')
      ensures result.Ok? ==> LastLook(policy, timing.poll, log, step', result.value)
      ensures record.open == open && Ordered(policy, log, round, record, timing)
      ensures forall i | |old(log)| <= i < |log| && log[i].Tried? :: log[i].round == round
      ensures result.Ok? && done ==> result.value.confirmedEmpty && InTime(log, deadline)
      ensures result.Ok? && late ==> OutOfTime(log, deadline)
      ensures result.Ok? && !done && !late ==>
                && RoundDone(policy, log, round, record, timing, deadline)
                && FullyPaced(log, record, timing, deadline)
                && OnlyTimedAfter(log, record.close) && log[record.close] == step'
      ensures !(result.Ok? && !done && !late) ==> CutShort(policy, log, round, record, timing, deadline)
    {
      hide Accounts, Scheduled, LastLook, EndsWith, InTime, OutOfTime, Chased, TargetsWithin, RoundDone, HalfDone, Attempts,
           Ordered, Valid, TermWait, Begins, FullyPaced, ClearAt;
      var termed;
      ghost var half;
      done, late := false, false;
      result, termed, step', half := TermPhase(scan, round, deadline, step, open);
      record := half;
      if result.Err? {
        ScheduledNext(log, round, termed, {});
        return;
      }
      if result.value.confirmedEmpty {
        ghost var before := log;
        late := Late(deadline, round, termed, {}, step', result.value);
        HalfLater(policy, before, log, round, half, timing, deadline);
        if !late {
          done := true;
          ScheduledNext(log, round, termed, {});
          return;
        }
      }
      ghost var before := log;
      late := Late(deadline, round, termed, {}, step', result.value);
      HalfLater(policy, before, log, round, half, timing, deadline);
      if late {
        ScheduledNext(log, round, termed, {});
        OverdueNow(log, half.grace, deadline);
        return;
      }
      result, late, step', record := KillRest(result.value, round, deadline, termed, step', half);
    }

    /** The second half of a round, after a grace that did not clear the table. */
    method KillRest(scan: Scan, round: nat, deadline: nat, termed: set<ProcessIdentity>, ghost step: Step, ghost half: Round)
      returns (result: Result<Scan, CleanupFailure>, late: bool, ghost step': Step, ghost record: Round)
      requires Valid() && Scheduled(log, round, termed, {})
      requires LastLook(policy, timing.poll, log, step, scan)
      requires HalfDone(policy, log, round, half) && log[half.grace] == step
      requires GraceSpent(log, half.waiting, half.grace, timing.termGrace) && Ordered(policy, log, round, half, timing)
      requires TermWait(log, half, timing, deadline) && Begins(log, half, timing, deadline)
      requires OnlyTimedAfter(log, half.grace) && !ClearAt(log, half.grace, timing.poll)
      modifies this, source
      ensures Valid() && old(log) <= log
      ensures Scheduled(log, round + 1, {}, {})
      ensures result.Err? ==> result.error == EnumerationFailed && step' == ListingFailed && EndsWith(log, step')
      ensures result.Ok? ==> LastLook(policy, timing.poll, log, step', result.value)
      ensures result.Ok? && late ==> OutOfTime(log, deadline)
      ensures Begins(log, record, timing, deadline) && FullyPaced(log, record, timing, deadline)
      ensures result.Err? || late ==> CutShort(policy, log, round, record, timing, deadline)
      ensures record.open == half.open && Ordered(policy, log, round, record, timing)
      ensures forall i | |old(log)| <= i < |log| && log[i].Tried? :: log[i].round == round
      ensures result.Ok? ==>
                && RoundDone(policy, log, round, record, timing, deadline)
                && OnlyTimedAfter(log, record.close) && log[record.close] == step'
    {
      hide Accounts, Scheduled, LastLook, EndsWith, OutOfTime, Chased, TargetsWithin, Attempts, ConfirmedEmpty, Scans,
           Ordered, FoundBy, TermsBefore, Waited, Until, TermWait, Begins, ClearAt, Overdue, Valid, HalfDone;
      ghost var before, killed := log, scan.targets.Values;
      LastLookFinds(policy, timing.poll, log, step, scan);
      LastLookWithin(policy, timing.poll, log, step, scan, killed);
      ghost var killing, close;
      result, late, step', killing, close := KillPhase(scan, round, deadline, termed, step);
      record := half.(killing := killing, close := close);
      ScheduledExactly(log, round, termed, killed);
      ScheduledNext(log, round, termed, killed);
      OrderedKills(policy, before, log, round, half, timing);
      OrderedClosed(policy, log, round, half, killing, close, timing);
      HalfDoneClosed(policy, log, round, half, killing, close);
      KillsPaced(policy, before, log, round, half, killing, close, timing, deadline);
      if result.Ok? {
        LastLookEnds(policy, timing.poll, log, step', result.value);
        ScansUpTo(log, close);
        assert RoundDone(policy, log, round, record, timing, deadline);
        if late {
          OverdueNow(log, close, deadline);
        }
      }
    }

    /** Stop what carries the marker, in at most `rounds` rounds and before the deadline. */
    method Sweep() returns (result: Result<(), CleanupFailure>, ghost step: Step, ghost deadline: nat, ghost records: seq<Round>,
                            ghost full: nat)
      requires Valid() && log == []
      modifies this, source
      ensures Valid() && AttemptsBounded(log, timing.rounds) && EndsWith(log, step)
      ensures log != [] && log[0].Timed? && deadline == log[0].now + timing.deadline
      ensures result.Err? ==> Truthful(policy, step, result.error)
      ensures result.Ok? ==> step.Scanned? && ConfirmedEmpty(Scans(log), timing.poll) && InTime(log, deadline)
      ensures Escalated(policy, log, records, full, timing, deadline)
      ensures Laid(policy, log, records, full, timing, deadline)
      ensures result.Err? && result.error != EnumerationFailed ==>
                OutOfTime(log, deadline) || (full == timing.rounds && !ConfirmedEmpty(Scans(log), timing.poll))
    {
      hide Accounts, Scheduled, LastLook, InTime, OutOfTime, Describes, AttemptsBounded, EndsWith, ConfirmedEmpty, RoundDone,
           Escalated, Ordered, Scans, Valid, Laid, Begins, FullyPaced, CutShort;
      var start := Clock();
      deadline := start + timing.deadline;
      records, full := [], 0;
      var until := start + timing.deadline;
      var result';
      result', step := ScanTable();
      assert log == [Timed(start)] + [step];
      EscalatedNone(policy, log, timing, deadline);
      LaidNone(policy, log, timing, deadline);
      NothingTried([Timed(start)] + [step], timing.rounds);
      EndsWithScan([Timed(start)], step);
      if result'.Err? {
        return Err(result'.error), step, deadline, records, full;
      }
      JustLooked(policy, timing.poll, [Timed(start)], step, result'.value);
      var scan, late, round := result'.value, false, 0;
      ghost var open: nat := 1;
      while round < timing.rounds && !late
        invariant round <= timing.rounds
        invariant Valid() && [Timed(start)] <= log
        invariant Scheduled(log, round, {}, {})
        invariant LastLook(policy, timing.poll, log, step, scan)
        invariant late || (OnlyTimedAfter(log, open) && log[open] == step)
        invariant Escalated(policy, log, records, full, timing, deadline)
        invariant Laid(policy, log, records, full, timing, deadline)
        invariant late ==> OutOfTime(log, deadline)
        invariant !late ==> |records| == full == round && open == LastClose(records)
        decreases timing.rounds - round, !late
      {
        ghost var before := log;
        late := Late(until, round, {}, {}, step, scan);
        EscalatedQuiet(policy, before, log, records, full, timing, deadline);
        LaidQuiet(policy, before, log, records, full, timing, deadline);
        if !late {
          if scan.confirmedEmpty {
            ScheduledBounded(log, round, {}, {}, timing.rounds);
            LastLookEnds(policy, timing.poll, log, step, scan);
            return Ok(()), step, deadline, records, full;
          }
          var done;
          ghost var record;
          before := log;
          result', done, late, step, record := SweepRound(scan, round, until, step, open);
          LaidRound(policy, before, log, records, record, result'.Ok? && !done && !late, timing, deadline);
          EscalatedRound(policy, before, log, records, record, result'.Ok? && !done && !late, timing, deadline);
          records, full := records + [record], if result'.Ok? && !done && !late then full + 1 else full;
          round := round + 1;
          ScheduledBounded(log, round, {}, {}, timing.rounds);
          if result'.Err? {
            return Err(result'.error), step, deadline, records, full;
          }
          scan := result'.value;
          if done {
            LastLookEnds(policy, timing.poll, log, step, scan);
            return Ok(()), step, deadline, records, full;
          }
          open := record.close;
        }
      }
      ghost var before := log;
      result := Finish(scan, until, round, step);
      EscalatedQuiet(policy, before, log, records, full, timing, deadline);
      LaidQuiet(policy, before, log, records, full, timing, deadline);
    }

    /** The result once the rounds or the time are used up. */
    method Finish(scan: Scan, deadline: nat, ghost round: nat, ghost step: Step) returns (result: Result<(), CleanupFailure>)
      requires Valid() && round <= timing.rounds && Scheduled(log, round, {}, {})
      requires LastLook(policy, timing.poll, log, step, scan)
      modifies this`log, source
      ensures Valid() && old(log) <= log && AttemptsBounded(log, timing.rounds) && EndsWith(log, step) && step.Scanned?
      ensures forall i | |old(log)| <= i < |log| :: log[i].Timed?
      ensures result.Err? ==>
                && Truthful(policy, step, result.error)
                && (OutOfTime(log, deadline) || (log == old(log) && !ConfirmedEmpty(Scans(log), timing.poll)))
      ensures result.Ok? ==> ConfirmedEmpty(Scans(log), timing.poll) && InTime(log, deadline)
    {
      hide Accounts, Scheduled, LastLook, InTime, OutOfTime, Describes, AttemptsBounded, EndsWith, ConfirmedEmpty, Truthful;
      ScheduledBounded(log, round, {}, {}, timing.rounds);
      LastLookEnds(policy, timing.poll, log, step, scan);
      if scan.confirmedEmpty {
        var late := Late(deadline, round, {}, {}, step, scan);
        ScheduledBounded(log, round, {}, {}, timing.rounds);
        LastLookEnds(policy, timing.poll, log, step, scan);
        if !late {
          return Ok(());
        }
      }
      var failure := Fail(scan, step);
      result := Err(failure);
    }

    /** The listed pids that the following reads place in the group. */
    method GroupMembers(pgid: Pid) returns (members: Result<seq<Pid>, CleanupFailure>, ghost listing: seq<Event>)
      modifies source
      ensures source.trace == old(source.trace) + listing
      ensures source.now >= old(source.now)
      ensures members.Err? ==> members.error == EnumerationFailed && listing == [Listed(None)]
      ensures members.Ok? ==> ListsGroup(listing) && members.value == MembersOf(pgid, listing[1..])
    {
      hide MembersOf;
      var pids := source.List();
      listing := [Listed(pids)];
      if pids.None? {
        return Err(EnumerationFailed), listing;
      }
      var found := [];
      ghost var events: seq<Event> := [];
      NoMembersRead(pgid);
      for k := 0 to |pids.value|
        invariant |events| == k
        invariant forall i | 0 <= i < k :: events[i].InfoRead? && events[i].pid == pids.value[i]
        invariant source.trace == old(source.trace) + (listing + events)
        invariant source.now >= old(source.now)
        invariant found == MembersOf(pgid, events)
      {
        var info := source.Info(pids.value[k]);
        ghost var event := InfoRead(pids.value[k], info);
        MembersAppend(pgid, events, event);
        if info.Found? && info.value.pgid == pgid {
          found := found + [pids.value[k]];
        }
        assert (listing + events) + [event] == listing + (events + [event]);
        events := events + [event];
      }
      listing := listing + events;
      assert listing[1..] == events;
      members := Ok(found);
    }

    /** The first member that carries the marker. */
    method FirstMarked(members: seq<Pid>) returns (marked: Option<ProcessIdentity>, ghost observed: seq<Reading>)
      modifies source
      ensures source.trace == old(source.trace) + ReadingEvents(observed)
      ensures source.now >= old(source.now)
      ensures ObservesMembers(policy, members, observed, marked)
    {
      hide Witnessed;
      observed := [];
      for k := 0 to |members|
        invariant |observed| == k
        invariant forall i | 0 <= i < k :: observed[i].pid == members[i] && Witnessed(policy, observed[i]) && !SawMarked(observed[i])
        invariant source.trace == old(source.trace) + ReadingEvents(observed)
        invariant source.now >= old(source.now)
      {
        var observation;
        ghost var reading;
        observation, reading := Observe(members[k]);
        assert (observed + [reading])[..k] == observed;
        observed := observed + [reading];
        if observation.Some? && observation.value.Marked? {
          return Some(observation.value.identity), observed;
        }
      }
      marked := None;
    }

    /** What ties a group that has live members to the run. */
    method ExamineGroup(leader: ProcessIdentity, members: seq<Pid>, ghost listing: seq<Event>)
      returns (result: Result<Option<GroupAttribution>, CleanupFailure>, ghost step: Step, ghost tail: seq<Event>)
      requires ListsGroup(listing) && members == MembersOf(leader.pid, listing[1..]) && members != []
      modifies source
      ensures source.trace == old(source.trace) + tail && Events(step) == listing + tail
      ensures source.now >= old(source.now)
      ensures step.Attributed? && step.leader == leader && Tells(leader, step.finding, result) && StepOk(policy, step)
    {
      hide ListsGroup, MembersOf, ObservesMembers, ProtectedAmong, Witnessed;
      var protected := Protected(members);
      if protected != [] {
        step := Attributed(leader, listing, None, [], ProtectedMembers(protected));
        return Err(ProtectedInGroup(leader.pid, protected)), step, [];
      }
      var read := source.Info(leader.pid);
      if read.Found? && read.value.start == leader.start && read.value.pgid == leader.pid {
        step := Attributed(leader, listing, Some(read), [], ByLeader);
        return Ok(Some(Leader)), step, [InfoRead(leader.pid, read)];
      }
      var marked;
      ghost var observed;
      marked, observed := FirstMarked(members);
      step := Attributed(leader, listing, Some(read), observed,
                         if marked.Some? then ByMember(marked.value) else Unattributed);
      tail := [InfoRead(leader.pid, read)] + ReadingEvents(observed);
      result := if marked.Some? then Ok(Some(MarkedMember(marked.value))) else Err(GroupUnattributed(leader.pid));
    }

    /** One look at the group; its step joins the log and its finding is told as `Tells` says. */
    method AttributeGroup(leader: ProcessIdentity)
      returns (result: Result<Option<GroupAttribution>, CleanupFailure>, ghost step: Step)
      requires Valid() && Guarded(log, leader)
      modifies this`log, source
      ensures Valid() && Guarded(log, leader) && log == old(log) + [step]
      ensures GroupSignals(log) == GroupSignals(old(log))
      ensures source.now >= old(source.now)
      ensures step.Attributed? && step.leader == leader && Tells(leader, step.finding, result)
    {
      hide Accounts, Guarded, GroupSignals, ListsGroup, MembersOf, Supports, StepOk, ReadingEvents;
      ghost var state := State(source.trace, source.now, Run(), signalled, protectedHits);
      var members;
      ghost var listing, tail := [], [];
      members, listing := GroupMembers(leader.pid);
      if members.Err? {
        result, step := Err(members.error), Attributed(leader, listing, None, [], Unlisted);
        NoGroup(policy, leader, listing);
      } else if members.value == [] {
        result, step := Ok(None), Attributed(leader, listing, None, [], NoMembers);
        NoGroup(policy, leader, listing);
      } else {
        result, step, tail := ExamineGroup(leader, members.value, listing);
      }
      assert source.trace == state.trace + (listing + tail);
      AccountsQuiet(policy, log, state, step, source.now);
      GuardedAppend(log, step, leader);
      log := log + [step];
    }

    method Protected(members: seq<Pid>) returns (protected: seq<Pid>)
      ensures protected == ProtectedAmong(policy, members)
    {
      protected := [];
      for k := 0 to |members|
        invariant protected == ProtectedAmong(policy, members[..k])
      {
        assert members[..k + 1][..k] == members[..k];
        if members[k] in policy.protected {
          protected := protected + [members[k]];
        }
      }
      assert members[..|members|] == members;
    }

    method GroupClock(leader: ProcessIdentity) returns (t: nat)
      requires Valid() && Guarded(log, leader)
      modifies this`log, source
      ensures Valid() && Guarded(log, leader) && log == old(log) + [Timed(t)]
      ensures GroupSignals(log) == GroupSignals(old(log))
      ensures old(source.now) <= t == source.now
    {
      hide Accounts, Guarded, GroupSignals;
      t := Clock();
      GuardedAppend(old(log), Timed(t), leader);
    }

    /** One look at the group, a poll after the last. */
    method PollGroup(leader: ProcessIdentity, until: nat) returns (members: Result<seq<Pid>, CleanupFailure>)
      requires Valid() && Guarded(log, leader)
      modifies this`log, source
      ensures Valid() && Guarded(log, leader) && old(log) < log && |log| == |old(log)| + 3
      ensures GroupSignals(log) == GroupSignals(old(log))
      ensures source.now > old(source.now)
      ensures log[|log|-3].Timed? && log[|log|-2] == Paused(NapFor(timing.poll, log[|log|-3].now, until))
      ensures IsLook(log[|log|-1])
      ensures members.Err? ==> members.error == EnumerationFailed && log[|log|-1] == GroupPolled(leader.pid, [Listed(None)])
      ensures members.Ok? ==>
                if members.value == [] then GroupGone(log[|log|-1], leader.pid) else GroupListed(log[|log|-1], leader.pid)
    {
      hide Accounts, Guarded, GroupSignals, ListsGroup, MembersOf;
      var now := GroupClock(leader);
      ghost var before := log;
      var nap := if until <= now then 0 else if timing.poll < until - now then timing.poll else until - now;
      Pause(nap);
      GuardedAppend(before, Paused(nap), leader);
      ghost var state := State(source.trace, source.now, Run(), signalled, protectedHits);
      ghost var listing;
      members, listing := GroupMembers(leader.pid);
      AccountsQuiet(policy, log, state, GroupPolled(leader.pid, listing), source.now);
      GuardedAppend(log, GroupPolled(leader.pid, listing), leader);
      log := log + [GroupPolled(leader.pid, listing)];
    }

    /** Poll the group until it has no live member or `until` passes. */
    method WaitGroupGone(leader: ProcessIdentity, until: nat) returns (gone: Result<bool, CleanupFailure>, ghost at: nat)
      requires Valid() && Guarded(log, leader) && log != [] && log[|log|-1].Timed?
      modifies this`log, source
      ensures Valid() && Guarded(log, leader) && old(log) < log
      ensures GroupSignals(log) == GroupSignals(old(log))
      ensures Waited(log, |old(log)| - 1, at, until, timing.poll)
      ensures forall j | |old(log)| <= j < at && IsLook(log[j]) :: GroupListed(log[j], leader.pid)
      ensures if gone == Ok(false) then at == |log| - 2 && GroupListed(log[at], leader.pid)
              else at == |log| - 1 && !GroupListed(log[at], leader.pid)
      ensures gone.Err? ==> gone.error == EnumerationFailed && log[|log|-1] == GroupPolled(leader.pid, [Listed(None)])
      ensures gone == Ok(true) ==> GroupGone(log[|log|-1], leader.pid)
      ensures gone == Ok(false) ==> |old(log)| + 4 <= |log| && EndsListed(log, leader.pid) && until <= log[|log|-1].now
    {
      hide Accounts, Guarded, GroupSignals, GroupGone, GroupListed, Valid, Waited, Waiting, GroupWaiting, NapFor;
      FailedPollIsNotListed(leader.pid);
      ghost var start := |log| - 1;
      GroupWaitBegins(log, leader.pid, until, timing.poll);
      while true
        invariant Valid() && Guarded(log, leader) && old(log) <= log
        invariant GroupSignals(log) == GroupSignals(old(log))
        invariant GroupWaiting(log, leader.pid, start, until, timing.poll)
        decreases if source.now < until then until - source.now else 0
      {
        ghost var before := log;
        var members := PollGroup(leader, until);
        at := |log| - 1;
        GroupWaitLooks(before, log, leader.pid, start, until, timing.poll);
        if members.Err? {
          return Err(members.error), at;
        }
        if members.value == [] {
          GoneIsNotListed(log[at], leader.pid);
          return Ok(true), at;
        }
        ghost var polled := log;
        var later := GroupClock(leader);
        if until <= later {
          WaitedLater(polled, log, start, at, until, timing.poll);
          return Ok(false), at;
        }
        GroupWaitGoesOn(polled, log, leader.pid, start, until, timing.poll);
      }
    }

    method SignalGroup(leader: ProcessIdentity, signal: Signal) returns (delivery: Delivery)
      requires Valid() && Guarded(log, leader)
      requires log != [] && Authorises(log[|log|-1], leader)
      modifies this`log, source
      ensures Valid() && Guarded(log, leader) && log == old(log) + [GroupSignalled(leader.pid, signal, delivery)]
      ensures GroupSignals(log) == GroupSignals(old(log)) + [signal]
    {
      hide Accounts, Guarded, GroupSignals;
      ghost var state := State(source.trace, source.now, Run(), signalled, protectedHits);
      delivery := source.SendGroup(leader.pid, signal);
      ghost var step := GroupSignalled(leader.pid, signal, delivery);
      AccountsQuiet(policy, log, state, step, source.now);
      GuardedAppend(log, step, leader);
      log := log + [step];
    }

    /** Attribute the group again, signal it and wait; `over` says whether that settled the matter. */
    method StrikeGroup(leader: ProcessIdentity, signal: Signal, grace: nat, deadline: nat)
      returns (over: Result<bool, CleanupFailure>, ghost sent: nat)
      requires Valid() && Guarded(log, leader)
      modifies this`log, source
      ensures Valid() && Guarded(log, leader) && old(log) <= log
      ensures || GroupSignals(log) == GroupSignals(old(log))
              || (GroupSignals(log) == GroupSignals(old(log)) + [signal] && |old(log)| < sent && GroupStruck(log, signal, sent))
      ensures over == Ok(true) ==> log != [] && GroupGone(log[|log|-1], leader.pid)
      ensures over == Ok(false) ==>
                && EndsListed(log, leader.pid) && GroupSignals(log) == GroupSignals(old(log)) + [signal]
                && GroupGrace(log, leader.pid, signal, sent, |log| - 2, grace, deadline)
      ensures |log| > |old(log)|
      ensures over == Ok(false) ==>
                && |log| > |old(log)| + 2
                && StruckFrom(log, leader, |old(log)|, signal, |log| - 2, grace, deadline, timing.poll)
      ensures over != Ok(false) ==> EndsFrom(log, leader, |old(log)|, signal, grace, deadline, timing.poll)
      ensures over.Err? ==> log != [] && GroupFailure(leader, log[|log|-1], over.error)
    {
      hide Accounts, Guarded, GroupSignals, GroupListed, GroupGone, GroupFailure, Valid, Waited, Until, Authorises, Tells, GroupGrace,
           StruckFrom;
      ghost var b := |log|;
      var again;
      ghost var step;
      again, step := AttributeGroup(leader);
      ToldAuthorises(leader, step, again);
      if again.Err? {
        FailureTold(leader, step, again.error);
        return Err(again.error), 0;
      }
      if again.value.None? {
        NoneIsGone(leader, step);
        return Ok(true), 0;
      }
      sent := |log|;
      var delivery := SignalGroup(leader, signal);
      if delivery == Undelivered(ESRCH) {
        MetNoGroup(leader.pid, signal);
        return Ok(true), sent;
      }
      var now := GroupClock(leader);
      ghost var at;
      var until := if now + grace < deadline then now + grace else deadline;
      UntilIs(now, grace, deadline);
      over, at := WaitGroupGone(leader, until);
      PartIsWhole(log, leader, b, signal, at, grace, deadline, timing.poll);
      if over.Err? {
        PollFailed(leader, log[|log|-1]);
      }
    }

    /** Signal a group at most twice, each time right after a look that tied it to the run. */
    method LostGroup(leader: ProcessIdentity) returns (result: Result<GroupAttribution, CleanupFailure>, ghost deadline: nat)
      requires Valid() && log == []
      modifies this`log, source
      ensures Valid() && Guarded(log, leader) && |log| >= 2 && log[1].Attributed? && log[1].leader == leader
      ensures GroupSignals(log) <= [SIGTERM, SIGKILL]
      ensures result.Ok? ==>
                && GroupGone(log[|log|-1], leader.pid)
                && Tells(leader, log[1].finding, Ok(if result.value.AlreadyGone? then None else Some(result.value)))
                && (result.value.AlreadyGone? ==> GroupSignals(log) == [])
      ensures result.Err? && result.error.GroupSurvived? ==>
                && result.error.pgid == leader.pid
                && GroupSignals(log) == [SIGTERM, SIGKILL] && Outlived(log, leader.pid, timing, deadline)
      ensures log[0].Timed? && deadline == log[0].now + timing.deadline
      ensures |GroupSignals(log)| == 2 ==> KilledAfterGrace(log, leader.pid, timing, deadline)
      ensures GroupLaid(log, leader, timing, deadline)
      ensures result.Err? && !result.error.GroupSurvived? ==> GroupFailure(leader, log[|log|-1], result.error)
    {
      hide Accounts, Guarded, GroupSignals, GroupListed, GroupGone, GroupFailure, Valid, StruckFrom, EndsFrom, Authorises;
      GuardedNone(leader);
      var start := GroupClock(leader);
      var until := start + timing.deadline;
      deadline := until;
      var first;
      ghost var step;
      first, step := AttributeGroup(leader);
      ToldAuthorises(leader, step, first);
      if first.Err? {
        FailureTold(leader, step, first.error);
        return Err(first.error), deadline;
      }
      if first.value.None? {
        NoneIsGone(leader, step);
        return Ok(AlreadyGone), deadline;
      }
      var attribution := first.value.value;
      ghost var opening, sent: nat := log, 0;
      var plan := [(SIGTERM, timing.termGrace), (SIGKILL, timing.killGrace)];
      for k := 0 to 2
        invariant Valid() && Guarded(log, leader) && opening <= log
        invariant GroupSignals(log) == [SIGTERM, SIGKILL][..k]
        invariant k > 0 ==> EndsListed(log, leader.pid)
        invariant k > 0 ==> GroupGrace(log, leader.pid, plan[k-1].0, sent, |log| - 2, plan[k-1].1, deadline)
        invariant k > 1 ==> KilledAfterGrace(log, leader.pid, timing, deadline)
        invariant k == 0 ==> log == opening
        invariant k == 1 ==> |log| > 4 && StruckFrom(log, leader, 2, SIGTERM, |log| - 2, timing.termGrace, deadline, timing.poll)
        invariant k == 2 ==> GroupLaid(log, leader, timing, deadline)
      {
        var over;
        ghost var before, struck := log, sent;
        over, sent := StrikeGroup(leader, plan[k].0, plan[k].1, until);
        if k == 1 && |GroupSignals(log)| == 2 {
          GroupGraceLater(before, log, leader.pid, SIGTERM, struck, |before| - 2, timing.termGrace, deadline);
          assert KilledAfterGrace(log, leader.pid, timing, deadline);
        }
        if k == 1 {
          StruckLater(before, log, leader, 2, SIGTERM, |before| - 2, timing.termGrace, deadline, timing.poll);
          assert StruckTwice(log, leader, |before| - 2, timing, deadline);
        }
        if over.Err? {
          NotSurvived(leader, log[|log|-1], over.error);
          return Err(over.error), deadline;
        }
        if over.value {
          return Ok(attribution), deadline;
        }
      }
      result := Err(GroupSurvived(leader.pid));
    }
  }

  /** The result of a whole sweep, which `BornOut` checks against the log. */
  datatype SweepOutcome =
    | Completed(signalled: set<ProcessIdentity>)
    | Incomplete(failure: CleanupFailure)

  /** The outcome of a sweep is borne out by everything its log records. */
  ghost predicate BornOut(policy: Policy, timing: Timing, log: seq<Step>, records: seq<Round>, full: nat,
                          step: Step, outcome: SweepOutcome)
  {
    && log != [] && log[0].Timed? && EndsWith(log, step)
    && Escalated(policy, log, records, full, timing, log[0].now + timing.deadline)
    && Laid(policy, log, records, full, timing, log[0].now + timing.deadline)
    && match outcome
       case Completed(signalled) =>
         && step.Scanned? && ConfirmedEmpty(Scans(log), timing.poll) && InTime(log, log[0].now + timing.deadline)
         && Hits(policy, log) == {} && signalled == Stopped(log)
       case Incomplete(ProtectedCarriesMarker(pids)) =>
         && step.Scanned? && ConfirmedEmpty(Scans(log), timing.poll) && InTime(log, log[0].now + timing.deadline)
         && pids == Hits(policy, log) && pids != {}
       case Incomplete(failure) =>
         && Truthful(policy, step, failure)
         && (failure != EnumerationFailed ==>
               || OutOfTime(log, log[0].now + timing.deadline)
               || (full == timing.rounds && !ConfirmedEmpty(Scans(log), timing.poll)))
  }

  /** Stop every attributable process that carries the marker or was adopted. */
  method SweepWith(table: ProcessTable, marker: Bytes, runStart: Option<nat>, adopted: set<ProcessIdentity>,
                   protected: set<Pid>, timing: Timing, ownPid: Pid, ownUid: nat)
    returns (outcome: SweepOutcome, ghost log: seq<Step>, ghost records: seq<Round>, ghost full: nat, ghost step: Step)
    requires table.trace == []
    modifies table
    ensures var policy := Policy(marker, runStart, adopted, protected + {ownPid}, ownUid);
            && table.trace == Flatten(log) && LogOk(policy, log) && Ticks(log, table.now)
            && AttemptsBounded(log, timing.rounds)
            && BornOut(policy, timing, log, records, full, step, outcome)
  {
    hide LogOk, Flatten, Ticks, AttemptsBounded, EndsWith, ConfirmedEmpty, Scans, Hits, Stopped, InTime, OutOfTime, Escalated, Laid;
    var sweeper := new Sweeper(table, marker, runStart, adopted, protected, timing, ownPid, ownUid);
    var result;
    ghost var deadline;
    result, step, deadline, records, full := sweeper.Sweep();
    log := sweeper.log;
    if result.Err? {
      return Incomplete(result.error), log, records, full, step;
    }
    if sweeper.protectedHits != {} {
      return Incomplete(ProtectedCarriesMarker(sweeper.protectedHits)), log, records, full, step;
    }
    outcome := Completed(sweeper.signalled);
  }

  /** The result of a whole group cleanup. */
  datatype GroupOutcome =
    | GroupCompleted(attribution: GroupAttribution)
    | GroupIncomplete(failure: CleanupFailure)

  /** Run a group cleanup and report its result with the log that supports it. */
  method CleanupLostGroupWith(table: ProcessTable, leader: ProcessIdentity, marker: Bytes, protected: set<Pid>,
                              timing: Timing, ownPid: Pid, ownUid: nat)
    returns (outcome: GroupOutcome, ghost log: seq<Step>)
    requires table.trace == []
    modifies table
    ensures var policy := Policy(marker, None, {}, protected + {ownPid}, ownUid);
            && table.trace == Flatten(log) && LogOk(policy, log) && Ticks(log, table.now) && Guarded(log, leader)
    ensures GroupSignals(log) <= [SIGTERM, SIGKILL]
    ensures log != [] && log[0].Timed? && (outcome.GroupCompleted? ==> GroupGone(log[|log|-1], leader.pid))
    ensures outcome == GroupCompleted(AlreadyGone) ==> GroupSignals(log) == []
    ensures outcome.GroupCompleted? ==>
              && |log| >= 2 && log[1].Attributed? && log[1].leader == leader
              && Tells(leader, log[1].finding, Ok(if outcome.attribution.AlreadyGone? then None else Some(outcome.attribution)))
    ensures |GroupSignals(log)| == 2 ==> KilledAfterGrace(log, leader.pid, timing, log[0].now + timing.deadline)
    ensures GroupLaid(log, leader, timing, log[0].now + timing.deadline)
    ensures outcome.GroupIncomplete? ==>
              if outcome.failure.GroupSurvived?
              then
                && outcome.failure.pgid == leader.pid && GroupSignals(log) == [SIGTERM, SIGKILL]
                && Outlived(log, leader.pid, timing, log[0].now + timing.deadline)
              else GroupFailure(leader, log[|log|-1], outcome.failure)
  {
    hide LogOk, Flatten, Ticks, Guarded, GroupSignals, GroupGone, Outlived, KilledAfterGrace, GroupFailure, Tells, GroupLaid;
    var sweeper := new Sweeper(table, marker, None, {}, protected, timing, ownPid, ownUid);
    var result;
    ghost var deadline;
    result, deadline := sweeper.LostGroup(leader);
    log := sweeper.log;
    outcome := if result.Ok? then GroupCompleted(result.value) else GroupIncomplete(result.error);
  }
}
