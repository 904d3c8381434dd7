/**
 What a cleanup did, read off the calls it made: each step of a cleanup, the raw
 events it stands for, and what those events establish about a process.
 */
module CleanupTrace {
  import opened Basics
  import opened Processes

  const TASK_ID: Bytes := "HOMEBASED_TASK_ID"

  /** How long a trailing run of empty scans must be when processes keep vanishing in it. */
  const BUSY_EMPTY_SCANS: nat := 8

  /** The bound on the reads of one climb. */
  const MAX_ANCESTRY: nat := 64

  datatype Timing = Timing(termGrace: nat, killGrace: nat, poll: nat, rounds: nat, deadline: nat)

  /** What one cleanup may touch. `protected` includes the sweeping process. */
  datatype Policy = Policy(
    marker: Bytes,
    runStart: Option<nat>,
    adopted: set<ProcessIdentity>,
    protected: set<Pid>,
    ownUid: nat)

  /** Split an environment block at its NUL bytes. */
  function Entries(block: Bytes): (entries: seq<Bytes>)
    ensures entries != []
  {
    if block == [] then [[]]
    else
      var rest := Entries(block[1..]);
      if block[0] == '\0' then [[]] + rest else [[block[0]] + rest[0]] + rest[1..]
  }

  predicate Carries(block: Bytes, marker: Bytes) {
    TASK_ID + "=" + marker in Entries(block)
  }

  /** `block[i..j]` is a whole entry: it holds no NUL and nothing else touches it. */
  ghost predicate IsEntry(block: Bytes, i: nat, j: nat) {
    && i <= j <= |block|
    && (i == 0 || block[i-1] == '\0')
    && (j == |block| || block[j] == '\0')
    && '\0' !in block[i..j]
  }

  lemma TailSlice(block: Bytes, i: nat, j: nat)
    requires i <= j < |block|
    ensures block[1..][i..j] == block[i + 1..j + 1]
    ensures i == 0 ==> block[0..j + 1] == [block[0]] + block[1..][0..j]
  {
  }

  lemma {:induction false} EntryAt(block: Bytes, k: nat) returns (i: nat, j: nat)
    requires k < |Entries(block)|
    ensures IsEntry(block, i, j) && block[i..j] == Entries(block)[k]
    ensures k == 0 <==> i == 0
  {
    if block == [] || (block[0] == '\0' && k == 0) {
      i, j := 0, 0;
    } else {
      var i', j' := EntryAt(block[1..], if block[0] == '\0' then k - 1 else k);
      i, j := if k == 0 then 0 else i' + 1, j' + 1;
      TailSlice(block, i', j');
    }
  }

  lemma {:induction false} EntryListed(block: Bytes, i: nat, j: nat) returns (k: nat)
    requires IsEntry(block, i, j)
    ensures k < |Entries(block)| && block[i..j] == Entries(block)[k]
    ensures k == 0 <==> i == 0
  {
    if j == 0 {
      k := 0;
    } else if i == 0 {
      assert block[0] == block[0..j][0];
      assert block[0..j] == [block[0]] + block[1..][0..j-1];
      assert forall c :: c in block[1..][0..j-1] ==> c in block[0..j];
      k := EntryListed(block[1..], 0, j - 1);
    } else {
      assert block[1..][i-1..j-1] == block[i..j];
      k := EntryListed(block[1..], i - 1, j - 1);
      k := if block[0] == '\0' then k + 1 else k;
    }
  }

  /** A process carries the marker exactly when one whole entry is the task id variable set to it. */
  lemma CarriesExactly(block: Bytes, marker: Bytes)
    ensures Carries(block, marker) <==>
            exists i: nat, j: nat :: IsEntry(block, i, j) && block[i..j] == "HOMEBASED_TASK_ID=" + marker
  {
    assert TASK_ID + "=" + marker == "HOMEBASED_TASK_ID=" + marker;
    if Carries(block, marker) {
      var k: nat :| k < |Entries(block)| && Entries(block)[k] == "HOMEBASED_TASK_ID=" + marker;
      var i, j := EntryAt(block, k);
    }
    if i: nat, j: nat :| IsEntry(block, i, j) && block[i..j] == "HOMEBASED_TASK_ID=" + marker {
      var k := EntryListed(block, i, j);
    }
  }

  // ----- what the reads about one process establish -----

  datatype Observation =
    | Marked(identity: ProcessIdentity)
    | Suspect(identity: ProcessIdentity)
    | Vanished

  /** The reads made about one process, and what the code concluded from them. */
  datatype Reading = Reading(pid: Pid, events: seq<Event>, verdict: Option<Observation>)

  ghost predicate Confirms(event: Event, identity: ProcessIdentity) {
    event.InfoRead? && event.pid == identity.pid && event.info.Found? && event.info.value.start == identity.start
  }

  /** The reads that authorise a signal: an adopted identity, or the marker between two reads of one start time. */
  ghost predicate Marks(policy: Policy, events: seq<Event>, identity: ProcessIdentity) {
    if identity in policy.adopted then
      |events| == 1 && Confirms(events[0], identity)
    else
      && |events| == 3
      && Confirms(events[0], identity)
      && events[1].EnvironmentRead? && events[1].pid == identity.pid
      && events[1].environment.Found? && Carries(events[1].environment.value, policy.marker)
      && Confirms(events[2], identity)
  }

  /** Process the climb reads after `k` reads of `walk`, starting from `parent`. */
  ghost function AncestorAt(parent: Pid, walk: seq<Event>, k: nat): Pid
    requires k <= |walk|
  {
    if k == 0 then parent
    else if walk[k-1].InfoRead? && walk[k-1].info.Found? then walk[k-1].info.value.ppid
    else Pid(0)
  }

  /** Read `k` of the climb asked about the next ancestor, which is not init. */
  ghost predicate ReadsAncestor(parent: Pid, walk: seq<Event>, k: nat)
    requires k < |walk|
  {
    walk[k].InfoRead? && walk[k].pid == AncestorAt(parent, walk, k) && walk[k].pid.raw > 1
  }

  ghost predicate OtherUser(policy: Policy, event: Event) {
    event.InfoRead? && event.info.Found? && event.info.value.uid != policy.ownUid
  }

  /** The first `n` reads each found another user's ancestor that is not older than the run. */
  ghost predicate Passes(policy: Policy, parent: Pid, walk: seq<Event>, n: nat, runStart: nat)
    requires n <= |walk|
  {
    forall k | 0 <= k < n ::
      ReadsAncestor(parent, walk, k) && OtherUser(policy, walk[k]) && walk[k].info.value.start >= runStart
  }

  /** The climb passed only other users' processes and reached one that predates the run. */
  ghost predicate ReachesOlderDaemon(policy: Policy, parent: Pid, walk: seq<Event>, runStart: nat) {
    var last := |walk| - 1;
    && 0 <= last < 64
    && Passes(policy, parent, walk, last, runStart)
    && ReadsAncestor(parent, walk, last) && OtherUser(policy, walk[last]) && walk[last].info.value.start < runStart
  }

  /** The climb was cut off: by init, by its bound, by an unreadable link or by a same-user ancestor. */
  ghost predicate ClimbBlocked(policy: Policy, parent: Pid, walk: seq<Event>, runStart: nat) {
    var last := |walk| - 1;
    || (|walk| <= 64 && Passes(policy, parent, walk, |walk|, runStart)
        && (|walk| == 64 || AncestorAt(parent, walk, |walk|).raw <= 1))
    || (0 <= last < 64 && Passes(policy, parent, walk, last, runStart)
        && ReadsAncestor(parent, walk, last) && !OtherUser(policy, walk[last]))
  }

  /** One more read of a climb blocks it, ends it at an older daemon, or passes on to the next ancestor. */
  lemma ClimbStep(policy: Policy, parent: Pid, walk: seq<Event>, read: Read<ProcessInfo>, runStart: nat)
    requires |walk| < 64 && Passes(policy, parent, walk, |walk|, runStart)
    requires AncestorAt(parent, walk, |walk|).raw > 1
    ensures var all := walk + [InfoRead(AncestorAt(parent, walk, |walk|), read)];
            if !read.Found? || read.value.uid == policy.ownUid then ClimbBlocked(policy, parent, all, runStart)
            else if read.value.start < runStart then ReachesOlderDaemon(policy, parent, all, runStart)
            else Passes(policy, parent, all, |all|, runStart) && AncestorAt(parent, all, |all|) == read.value.ppid
  {
    var all := walk + [InfoRead(AncestorAt(parent, walk, |walk|), read)];
    forall k | 0 <= k < |walk|
      ensures ReadsAncestor(parent, all, k) && OtherUser(policy, all[k]) && all[k].info.value.start >= runStart
    {
      assert ReadsAncestor(parent, walk, k) && all[k] == walk[k];
      assert k > 0 ==> all[k-1] == walk[k-1];
    }
    assert ReadsAncestor(parent, all, |walk|);
  }

  /** A climb that met init, or its bound, is cut off. */
  lemma ClimbExhausted(policy: Policy, parent: Pid, walk: seq<Event>, runStart: nat)
    requires |walk| <= 64 && Passes(policy, parent, walk, |walk|, runStart)
    requires |walk| == 64 || AncestorAt(parent, walk, |walk|).raw <= 1
    ensures ClimbBlocked(policy, parent, walk, runStart)
  {
  }

  /** A refused environment of a live process that the run did not adopt. */
  ghost predicate Refuses(policy: Policy, events: seq<Event>, identity: ProcessIdentity) {
    && |events| >= 3
    && identity !in policy.adopted
    && Confirms(events[0], identity)
    && events[1].EnvironmentRead? && events[1].pid == identity.pid && events[1].environment.Refused?
    && events[2].InfoRead? && events[2].pid == identity.pid
  }

  /** The refused process is this user's and started no earlier than the run. */
  ghost predicate WithinRun(policy: Policy, events: seq<Event>, identity: ProcessIdentity)
    requires Refuses(policy, events, identity)
  {
    && Confirms(events[2], identity)
    && events[0].info.value.uid == policy.ownUid
    && policy.runStart.Some? && identity.start >= policy.runStart.value
  }

  ghost predicate Holds(policy: Policy, events: seq<Event>, identity: ProcessIdentity) {
    && Refuses(policy, events, identity)
    && WithinRun(policy, events, identity)
    && ClimbBlocked(policy, events[0].info.value.ppid, events[3..], policy.runStart.value)
  }

  ghost predicate Ended<T(!new)>(read: Read<T>) {
    read.Exited? || read.Gone?
  }

  /** The process was listed but ended, or was replaced, before it was inspected. */
  ghost predicate LeftUninspected(policy: Policy, pid: Pid, events: seq<Event>) {
    && 1 <= |events| <= 3
    && events[0].InfoRead? && events[0].pid == pid
    && (|events| == 1 ==> Ended(events[0].info))
    && (|events| > 1 ==>
          && events[0].info.Found?
          && var identity := ProcessIdentity(pid, events[0].info.value.start);
          && identity !in policy.adopted
          && events[1].EnvironmentRead? && events[1].pid == pid
          && (|events| == 2 ==> Ended(events[1].environment))
          && (|events| == 3 ==>
                events[1].environment.Found? && events[2].InfoRead? && events[2].pid == pid
                && !Confirms(events[2], identity)))
  }

  /** Nothing ties the process to the run. */
  ghost predicate Unrelated(policy: Policy, pid: Pid, events: seq<Event>) {
    && |events| >= 1
    && events[0].InfoRead? && events[0].pid == pid
    && if !events[0].info.Found? then |events| == 1 && events[0].info.Refused?
       else
         var identity := ProcessIdentity(pid, events[0].info.value.start);
         && |events| >= 3
         && identity !in policy.adopted
         && events[1].EnvironmentRead? && events[1].pid == pid
         && match events[1].environment
            case Found(block) => |events| == 3 && Confirms(events[2], identity) && !Carries(block, policy.marker)
            case Refused(_) =>
              && Refuses(policy, events, identity)
              && (if WithinRun(policy, events, identity)
                  then ReachesOlderDaemon(policy, events[0].info.value.ppid, events[3..], policy.runStart.value)
                  else |events| == 3)
            case _ => false
  }

  /** The verdict of a reading is the one its events support. */
  ghost predicate Witnessed(policy: Policy, reading: Reading) {
    match reading.verdict
    case Some(Marked(identity)) => identity.pid == reading.pid && Marks(policy, reading.events, identity)
    case Some(Suspect(identity)) => identity.pid == reading.pid && Holds(policy, reading.events, identity)
    case Some(Vanished) => LeftUninspected(policy, reading.pid, reading.events)
    case None => Unrelated(policy, reading.pid, reading.events)
  }

  /** What a refused environment comes to, once the climb past `three` reads is done. */
  lemma RefusalVerdict(policy: Policy, identity: ProcessIdentity, three: seq<Event>, walk: seq<Event>)
    requires |three| == 3 && Refuses(policy, three, identity)
    requires if WithinRun(policy, three, identity)
             then || ReachesOlderDaemon(policy, three[0].info.value.ppid, walk, policy.runStart.value)
                  || ClimbBlocked(policy, three[0].info.value.ppid, walk, policy.runStart.value)
             else walk == []
    ensures Witnessed(policy, Reading(identity.pid, three + walk,
              if WithinRun(policy, three, identity)
                 && ClimbBlocked(policy, three[0].info.value.ppid, walk, policy.runStart.value)
              then Some(Suspect(identity)) else None))
  {
    var all := three + walk;
    assert all[0] == three[0] && all[1] == three[1] && all[2] == three[2] && all[3..] == walk;
    assert Refuses(policy, all, identity);
  }

  /** A climb never both reaches an older daemon and is cut off. */
  lemma ClimbIsDecided(policy: Policy, parent: Pid, walk: seq<Event>, runStart: nat)
    ensures !(ReachesOlderDaemon(policy, parent, walk, runStart) && ClimbBlocked(policy, parent, walk, runStart))
  {
  }

  /** The events determine the verdict, so `Witnessed` fixes what each read sequence must conclude. */
  lemma VerdictIsDetermined(policy: Policy, a: Reading, b: Reading)
    requires Witnessed(policy, a) && Witnessed(policy, b)
    requires a.pid == b.pid && a.events == b.events
    ensures a.verdict == b.verdict
  {
    if |a.events| >= 3 && a.events[0].InfoRead? && a.events[0].info.Found? && policy.runStart.Some? {
      ClimbIsDecided(policy, a.events[0].info.value.ppid, a.events[3..], policy.runStart.value);
    }
  }

  // ----- the steps of a cleanup -----

  /** What a look at a lost worker's group established. */
  datatype GroupFinding =
    | Unlisted
    | NoMembers
    | ProtectedMembers(pids: seq<Pid>)
    | ByLeader
    | ByMember(identity: ProcessIdentity)
    | Unattributed

  datatype Step =
    /** A full scan; an empty one is closed by a clock read. */
    | Scanned(pids: seq<Pid>, readings: seq<Reading>, closed: Option<nat>)
    | ListingFailed
    /** One attempt to signal a target: pin it, observe it again, send. */
    | Tried(round: nat, target: ProcessIdentity, signal: Signal,
            pin: Read<Handle>, recheck: Option<Reading>, sent: Option<Delivery>)
    | Timed(now: nat)
    | Paused(duration: nat)
    /** A check of whether a lost worker's group may be signalled. */
    | Attributed(leader: ProcessIdentity, listing: seq<Event>, leaderRead: Option<Read<ProcessInfo>>,
                 observed: seq<Reading>, finding: GroupFinding)
    | GroupSignalled(pgid: Pid, groupSignal: Signal, delivery: Delivery)
    | GroupPolled(group: Pid, poll: seq<Event>)

  ghost function ReadingEvents(readings: seq<Reading>): seq<Event> {
    if readings == [] then []
    else ReadingEvents(readings[..|readings|-1]) + readings[|readings|-1].events
  }

  /** The raw calls one step stands for. */
  ghost function Events(step: Step): seq<Event> {
    match step
    case Scanned(pids, readings, closed) =>
      [Listed(Some(pids))] + ReadingEvents(readings) + (if closed.Some? then [ClockRead(closed.value)] else [])
    case ListingFailed => [Listed(None)]
    case Tried(_, target, signal, pin, recheck, sent) =>
      [Pinned(target.pid, pin)]
      + (if recheck.Some? then recheck.value.events else [])
      + (if pin.Found? && sent.Some? then [Sent(pin.value, signal, sent.value)] else [])
    case Timed(now) => [ClockRead(now)]
    case Paused(duration) => [Slept(duration)]
    case Attributed(leader, listing, leaderRead, observed, _) =>
      listing + (if leaderRead.Some? then [InfoRead(leader.pid, leaderRead.value)] else []) + ReadingEvents(observed)
    case GroupSignalled(pgid, signal, delivery) => [GroupSent(pgid, signal, delivery)]
    case GroupPolled(_, poll) => poll
  }

  ghost function Flatten(log: seq<Step>): seq<Event> {
    if log == [] then [] else Flatten(log[..|log|-1]) + Events(log[|log|-1])
  }

  lemma FlattenAppend(log: seq<Step>, step: Step)
    ensures Flatten(log + [step]) == Flatten(log) + Events(step)
  {
    assert (log + [step])[..|log|] == log;
  }

  // ----- what a scan saw -----

  ghost predicate SawMarked(reading: Reading) {
    reading.verdict.Some? && reading.verdict.value.Marked?
  }

  ghost predicate SawTarget(policy: Policy, reading: Reading) {
    SawMarked(reading) && reading.pid !in policy.protected
  }

  ghost predicate SawSuspect(reading: Reading) {
    reading.verdict.Some? && reading.verdict.value.Suspect?
  }

  ghost predicate SawProtected(policy: Policy, reading: Reading) {
    SawMarked(reading) && reading.pid in policy.protected
  }

  /** No listed process was a target or a suspect. */
  ghost predicate Empty(policy: Policy, readings: seq<Reading>) {
    forall r :: r in readings ==> !SawTarget(policy, r) && !SawSuspect(r)
  }

  /** A listed process ended before it was inspected. */
  ghost predicate Unsettled(readings: seq<Reading>) {
    exists r :: r in readings && r.verdict == Some(Vanished)
  }

  ghost function SuspectsOf(readings: seq<Reading>): set<ProcessIdentity> {
    set r | r in readings && SawSuspect(r) :: r.verdict.value.identity
  }

  ghost function ProtectedHitsOf(policy: Policy, readings: seq<Reading>): set<Pid> {
    set r | r in readings && SawProtected(policy, r) :: r.pid
  }

  /** Reading `k` found a target, and no later reading did for the same pid. */
  ghost predicate LastTarget(policy: Policy, readings: seq<Reading>, k: nat) {
    && k < |readings| && SawTarget(policy, readings[k])
    && forall j | k < j < |readings| && readings[j].pid == readings[k].pid :: !SawTarget(policy, readings[j])
  }

  /** The scan picked `identity` as what to stop under `pid`: the last one that it marked there. */
  ghost predicate Picks(policy: Policy, readings: seq<Reading>, pid: Pid, identity: ProcessIdentity) {
    exists k: nat :: LastTarget(policy, readings, k) && readings[k].pid == pid && readings[k].verdict == Some(Marked(identity))
  }

  /** `targets` names each pid the scan may signal, with the identity that the scan picked. */
  ghost predicate NamesTargets(policy: Policy, readings: seq<Reading>, targets: map<Pid, ProcessIdentity>) {
    && (forall r :: r in readings && SawTarget(policy, r) ==> r.pid in targets)
    && (forall pid :: pid in targets ==> Picks(policy, readings, pid, targets[pid]))
  }

  lemma PicksOnce(policy: Policy, readings: seq<Reading>, pid: Pid, a: ProcessIdentity, b: ProcessIdentity)
    requires Picks(policy, readings, pid, a) && Picks(policy, readings, pid, b)
    ensures a == b
  {
  }

  /** What a scan picked is what any map of its targets names. */
  lemma PickedIsNamed(policy: Policy, readings: seq<Reading>, targets: map<Pid, ProcessIdentity>, identity: ProcessIdentity)
    requires NamesTargets(policy, readings, targets) && Picks(policy, readings, identity.pid, identity)
    ensures identity in targets.Values
  {
    var r := PickedIsRead(policy, readings, identity.pid, identity);
    PicksOnce(policy, readings, identity.pid, identity, targets[identity.pid]);
  }

  lemma PickedIsRead(policy: Policy, readings: seq<Reading>, pid: Pid, identity: ProcessIdentity) returns (r: Reading)
    requires Picks(policy, readings, pid, identity)
    ensures r in readings && SawTarget(policy, r) && r.pid == pid && r.verdict == Some(Marked(identity))
  {
    var k: nat :| LastTarget(policy, readings, k) && readings[k].pid == pid && readings[k].verdict == Some(Marked(identity));
    r := readings[k];
  }

  /** One more reading replaces what the scan picked for its own pid, or changes nothing. */
  lemma PicksNext(policy: Policy, readings: seq<Reading>, reading: Reading, pid: Pid, identity: ProcessIdentity)
    requires if SawTarget(policy, reading) && reading.pid == pid then reading.verdict == Some(Marked(identity))
             else Picks(policy, readings, pid, identity)
    ensures Picks(policy, readings + [reading], pid, identity)
  {
    var all := readings + [reading];
    if SawTarget(policy, reading) && reading.pid == pid {
      assert LastTarget(policy, all, |readings|);
    } else {
      var k: nat :| LastTarget(policy, readings, k) && readings[k].pid == pid && readings[k].verdict == Some(Marked(identity));
      assert LastTarget(policy, all, k);
    }
  }

  /** What one scan adds up to. */
  datatype Tally = Tally(
    targets: map<Pid, ProcessIdentity>, suspects: set<ProcessIdentity>, unsettled: bool, protectedHits: set<Pid>)

  ghost predicate Sums(policy: Policy, readings: seq<Reading>, tally: Tally) {
    && NamesTargets(policy, readings, tally.targets)
    && tally.suspects == SuspectsOf(readings)
    && tally.unsettled == Unsettled(readings)
    && tally.protectedHits == ProtectedHitsOf(policy, readings)
  }

  /** The tally after one more process was observed. */
  function Tallied(policy: Policy, tally: Tally, pid: Pid, observation: Option<Observation>): Tally {
    match observation
    case None => tally
    case Some(Marked(identity)) =>
      if pid in policy.protected then tally.(protectedHits := tally.protectedHits + {pid})
      else tally.(targets := tally.targets[pid := identity])
    case Some(Suspect(identity)) => tally.(suspects := tally.suspects + {identity})
    case Some(Vanished) => tally.(unsettled := true)
  }

  lemma SumsAppend(policy: Policy, readings: seq<Reading>, tally: Tally, reading: Reading)
    requires Sums(policy, readings, tally)
    ensures Sums(policy, readings + [reading], Tallied(policy, tally, reading.pid, reading.verdict))
    ensures ReadingEvents(readings + [reading]) == ReadingEvents(readings) + reading.events
  {
    hide NamesTargets;
    var all := readings + [reading];
    assert all[..|readings|] == readings;
    assert reading in all;
    assert forall r :: r in all <==> r in readings || r == reading;
    NamesAppend(policy, readings, tally, reading);
  }

  lemma NamesAppend(policy: Policy, readings: seq<Reading>, tally: Tally, reading: Reading)
    requires NamesTargets(policy, readings, tally.targets)
    ensures NamesTargets(policy, readings + [reading], Tallied(policy, tally, reading.pid, reading.verdict).targets)
  {
    hide Picks;
    var all, targets := readings + [reading], Tallied(policy, tally, reading.pid, reading.verdict).targets;
    forall pid | pid in targets ensures Picks(policy, all, pid, targets[pid]) {
      PicksNext(policy, readings, reading, pid, targets[pid]);
    }
  }

  lemma NothingRead(policy: Policy)
    ensures AllWitnessed(policy, [], []) && ReadingEvents([]) == []
    ensures Sums(policy, [], Tally(map[], {}, false, {}))
  {
  }

  /** A pid that may be signalled is not protected and is the pid of its identity. */
  ghost predicate MaySignal(policy: Policy, targets: map<Pid, ProcessIdentity>) {
    forall pid :: pid in targets ==> targets[pid].pid == pid && pid !in policy.protected
  }

  lemma TargetsMaySignal(policy: Policy, pids: seq<Pid>, readings: seq<Reading>, targets: map<Pid, ProcessIdentity>)
    requires AllWitnessed(policy, pids, readings) && NamesTargets(policy, readings, targets)
    ensures MaySignal(policy, targets)
  {
    hide Picks;
    forall pid | pid in targets ensures targets[pid].pid == pid && pid !in policy.protected {
      var r := PickedIsRead(policy, readings, pid, targets[pid]);
    }
  }

  lemma EmptyTally(policy: Policy, readings: seq<Reading>, tally: Tally)
    requires Sums(policy, readings, tally)
    ensures Empty(policy, readings) <==> tally.targets == map[] && tally.suspects == {}
  {
    if tally.targets != map[] {
      var item :| item in tally.targets.Items;
      var pid := item.0;
      var r := PickedIsRead(policy, readings, pid, tally.targets[pid]);
    }
    if tally.suspects != {} {
      var identity :| identity in tally.suspects;
      var r :| r in readings && SawSuspect(r) && r.verdict.value.identity == identity;
    }
    if !Empty(policy, readings) {
      var r :| r in readings && (SawTarget(policy, r) || SawSuspect(r));
      assert SawSuspect(r) ==> r.verdict.value.identity in SuspectsOf(readings);
    }
  }

  ghost predicate AllWitnessed(policy: Policy, pids: seq<Pid>, readings: seq<Reading>) {
    && |readings| == |pids|
    && forall k | 0 <= k < |pids| :: readings[k].pid == pids[k] && Witnessed(policy, readings[k])
  }

  lemma AllWitnessedAppend(policy: Policy, pids: seq<Pid>, readings: seq<Reading>, reading: Reading)
    requires AllWitnessed(policy, pids, readings) && Witnessed(policy, reading)
    ensures AllWitnessed(policy, pids + [reading.pid], readings + [reading])
  {
  }

  // ----- what a look at a process group saw -----

  ghost predicate InGroup(pgid: Pid, event: Event) {
    event.InfoRead? && event.info.Found? && event.info.value.pgid == pgid
  }

  /** The pids that the reads placed in the group, in listing order. */
  ghost function MembersOf(pgid: Pid, events: seq<Event>): seq<Pid> {
    if events == [] then []
    else
      var last := events[|events|-1];
      MembersOf(pgid, events[..|events|-1]) + if InGroup(pgid, last) then [last.pid] else []
  }

  /** A listing, followed by one read of each listed process. */
  ghost predicate ListsGroup(listing: seq<Event>) {
    && |listing| >= 1 && listing[0].Listed? && listing[0].pids.Some?
    && |listing| == 1 + |listing[0].pids.value|
    && forall k | 0 <= k < |listing| - 1 :: listing[k+1].InfoRead? && listing[k+1].pid == listing[0].pids.value[k]
  }

  ghost predicate IsLeader(leader: ProcessIdentity, read: Read<ProcessInfo>) {
    read.Found? && read.value.start == leader.start && read.value.pgid == leader.pid
  }

  ghost function ProtectedAmong(policy: Policy, members: seq<Pid>): seq<Pid> {
    if members == [] then []
    else
      var last := members[|members|-1];
      ProtectedAmong(policy, members[..|members|-1]) + if last in policy.protected then [last] else []
  }

  /** The members were observed in order, and none before the last carried the marker. */
  ghost predicate ObservesMembers(policy: Policy, members: seq<Pid>, observed: seq<Reading>, marked: Option<ProcessIdentity>) {
    && |observed| <= |members|
    && (forall k | 0 <= k < |observed| :: observed[k].pid == members[k] && Witnessed(policy, observed[k]))
    && (forall k | 0 <= k < |observed| - 1 :: !SawMarked(observed[k]))
    && match marked
       case Some(identity) => observed != [] && observed[|observed|-1].verdict == Some(Marked(identity))
       case None => |observed| == |members| && forall k | 0 <= k < |observed| :: !SawMarked(observed[k])
  }

  /** The finding is the one that the listing, the leader's read and the members' readings support. */
  ghost predicate Supports(policy: Policy, leader: ProcessIdentity, listing: seq<Event>,
                           leaderRead: Option<Read<ProcessInfo>>, observed: seq<Reading>, finding: GroupFinding)
  {
    if finding.Unlisted? then
      listing == [Listed(None)] && leaderRead.None? && observed == []
    else
      && ListsGroup(listing)
      && var members := MembersOf(leader.pid, listing[1..]);
      && (finding.NoMembers? <==> members == [])
      && (finding.ProtectedMembers? <==> ProtectedAmong(policy, members) != [])
      && match finding
         case NoMembers => leaderRead.None? && observed == []
         case ProtectedMembers(pids) => pids == ProtectedAmong(policy, members) && leaderRead.None? && observed == []
         case ByLeader => leaderRead.Some? && IsLeader(leader, leaderRead.value) && observed == []
         case ByMember(identity) =>
           && leaderRead.Some? && !IsLeader(leader, leaderRead.value)
           && ObservesMembers(policy, members, observed, Some(identity))
         case Unattributed =>
           && leaderRead.Some? && !IsLeader(leader, leaderRead.value)
           && ObservesMembers(policy, members, observed, None)
  }

  // ----- a well-formed log -----

  /** Each step kept the rules it must keep on its own. */
  ghost predicate StepOk(policy: Policy, step: Step) {
    match step
    case Scanned(pids, readings, closed) =>
      AllWitnessed(policy, pids, readings)
      && (closed.Some? <==> Empty(policy, readings))
    case Tried(_, target, _, pin, recheck, sent) =>
      && target.pid !in policy.protected
      && (recheck.Some? <==> pin.Found?)
      && (recheck.Some? ==> recheck.value.pid == target.pid && Witnessed(policy, recheck.value))
      && (sent.Some? <==> recheck.Some? && recheck.value.verdict == Some(Marked(target)))
    case Attributed(leader, listing, leaderRead, observed, finding) =>
      Supports(policy, leader, listing, leaderRead, observed, finding)
    case GroupPolled(_, poll) => poll == [Listed(None)] || ListsGroup(poll)
    case _ => true
  }

  /** What an attempt comes to: nothing was pinned, the target had changed, or the signal was sent. */
  lemma TriedStep(policy: Policy, step: Step)
    requires step.Tried? && step.target.pid !in policy.protected
    requires if step.pin.Found? then
               && step.recheck.Some? && step.recheck.value.pid == step.target.pid
               && Witnessed(policy, step.recheck.value)
               && (step.sent.Some? <==> step.recheck.value.verdict == Some(Marked(step.target)))
             else step.recheck.None? && step.sent.None?
    ensures StepOk(policy, step)
    ensures Events(step) ==
            [Pinned(step.target.pid, step.pin)]
            + (if step.pin.Found? then step.recheck.value.events else [])
            + (if step.sent.Some? then [Sent(step.pin.value, step.signal, step.sent.value)] else [])
  {
  }

  ghost predicate LogOk(policy: Policy, log: seq<Step>) {
    forall i | 0 <= i < |log| :: StepOk(policy, log[i])
  }

  /** The scans of a log, in order. */
  ghost function Scans(log: seq<Step>): (scans: seq<Step>)
    ensures forall i | 0 <= i < |scans| :: scans[i].Scanned? && scans[i] in log
  {
    if log == [] then []
    else
      var last := log[|log|-1];
      Scans(log[..|log|-1]) + if last.Scanned? then [last] else []
  }

  lemma ScansAppend(log: seq<Step>, step: Step)
    ensures Scans(log + [step]) == if step.Scanned? then Scans(log) + [step] else Scans(log)
  {
    assert (log + [step])[..|log|] == log;
  }

  // ----- when an empty process table is believed -----

  /** Scans `k..` all found nothing to stop. */
  ghost predicate EmptyFrom(scans: seq<Step>, k: nat) {
    forall j | k <= j < |scans| :: scans[j].Scanned? && scans[j].closed.Some?
  }

  /** Scans `k..` found nothing to stop, and no listed process vanished in them. */
  ghost predicate SettledFrom(scans: seq<Step>, k: nat) {
    EmptyFrom(scans, k) && forall j | k <= j < |scans| :: !Unsettled(scans[j].readings)
  }

  /** At least one poll passed between scan `k` and the last. */
  ghost predicate Spans(scans: seq<Step>, k: nat, poll: nat)
    requires k < |scans| && EmptyFrom(scans, k)
  {
    scans[|scans|-1].closed.value - scans[k].closed.value >= poll
  }

  ghost predicate StableSince(scans: seq<Step>, k: nat, poll: nat) {
    && k < |scans| && EmptyFrom(scans, k) && Spans(scans, k, poll)
    && (SettledFrom(scans, k) || |scans| - k >= 8)
  }

  /**
   The scans end in a stable run: a stretch a poll long in which nothing was found
   and nothing vanished, or at least eight empty scans that span a poll.
   */
  ghost predicate ConfirmedEmpty(scans: seq<Step>, poll: nat) {
    exists k: nat :: StableSince(scans, k, poll)
  }

  /** The trailing run of empty scans, and of empty and settled scans, with the clock read that opened each. */
  datatype EmptyRun = EmptyRun(length: nat, since: Option<nat>, settledLength: nat, settledSince: Option<nat>)

  ghost predicate OpenedBy(scans: seq<Step>, length: nat, since: Option<nat>)
    requires length <= |scans| && EmptyFrom(scans, |scans| - length)
  {
    since == if length == 0 then None else scans[|scans| - length].closed
  }

  ghost predicate ClockOrdered(scans: seq<Step>, now: nat) {
    && (forall i | 0 <= i < |scans| :: scans[i].Scanned?)
    && (forall i | 0 <= i < |scans| && scans[i].closed.Some? :: scans[i].closed.value <= now)
    && (forall i, j | 0 <= i < j < |scans| && scans[i].closed.Some? && scans[j].closed.Some? ::
          scans[i].closed.value <= scans[j].closed.value)
  }

  /** `run` describes the longest trailing runs of `scans`. */
  ghost predicate Tracks(scans: seq<Step>, run: EmptyRun, now: nat) {
    var n := |scans|;
    && ClockOrdered(scans, now)
    && run.settledLength <= run.length <= n
    && EmptyFrom(scans, n - run.length) && OpenedBy(scans, run.length, run.since)
    && SettledFrom(scans, n - run.settledLength) && OpenedBy(scans, run.settledLength, run.settledSince)
    && (run.length < n ==> scans[n - run.length - 1].closed.None?)
    && (run.settledLength < run.length ==> Unsettled(scans[n - run.settledLength - 1].readings))
  }

  lemma TracksLater(scans: seq<Step>, run: EmptyRun, now: nat, later: nat)
    requires Tracks(scans, run, now) && now <= later
    ensures Tracks(scans, run, later)
  {
  }

  lemma TracksBroken(scans: seq<Step>, run: EmptyRun, now: nat, scan: Step)
    requires Tracks(scans, run, now) && scan.Scanned? && scan.closed.None?
    ensures Tracks(scans + [scan], EmptyRun(0, None, 0, None), now)
  {
  }

  /** What one more empty scan makes of the run. */
  ghost function Extended(run: EmptyRun, unsettled: bool, now: nat): EmptyRun {
    EmptyRun(
      run.length + 1,
      if run.since.Some? then run.since else Some(now),
      if unsettled then 0 else run.settledLength + 1,
      if unsettled then None else if run.settledSince.Some? then run.settledSince else Some(now))
  }

  lemma TracksExtended(scans: seq<Step>, run: EmptyRun, before: nat, scan: Step, now: nat)
    requires Tracks(scans, run, before) && before <= now
    requires scan.Scanned? && scan.closed == Some(now)
    ensures Tracks(scans + [scan], Extended(run, Unsettled(scan.readings), now), now)
  {
    var all, next := scans + [scan], Extended(run, Unsettled(scan.readings), now);
    var first := |all| - next.length;
    assert first == |scans| - run.length;
    assert forall j | first <= j < |scans| :: all[j] == scans[j];
    assert EmptyFrom(all, first);
    assert all[|scans|] == scan;
    if !Unsettled(scan.readings) {
      assert |all| - next.settledLength == |scans| - run.settledLength;
      assert SettledFrom(all, |all| - next.settledLength);
    }
  }

  /** The two clock comparisons a scan makes decide exactly whether its run is stable. */
  lemma TracksConfirms(scans: seq<Step>, run: EmptyRun, now: nat, poll: nat)
    requires Tracks(scans, run, now)
    requires scans != [] && scans[|scans|-1].closed == Some(now)
    ensures run.length > 0 && run.since.Some? && run.since.value <= now
    ensures run.settledSince.Some? ==> run.settledSince.value <= now
    ensures ConfirmedEmpty(scans, poll) <==>
            || (run.settledSince.Some? && now - run.settledSince.value >= poll)
            || (run.length >= 8 && now - run.since.value >= poll)
  {
    var n := |scans|;
    assert run.length > 0;
    if run.settledSince.Some? && now - run.settledSince.value >= poll {
      assert StableSince(scans, n - run.settledLength, poll);
    }
    if run.length >= 8 && now - run.since.value >= poll {
      assert StableSince(scans, n - run.length, poll);
    }
    if ConfirmedEmpty(scans, poll) {
      var k: nat :| StableSince(scans, k, poll);
      assert k >= n - run.length;
      assert scans[n - run.length].closed.value <= scans[k].closed.value;
      if SettledFrom(scans, k) {
        assert k >= n - run.settledLength;
        assert scans[n - run.settledLength].closed.value <= scans[k].closed.value;
      }
    }
  }

  /** A scan that found something confirms nothing. */
  lemma NeverConfirms(scans: seq<Step>, poll: nat)
    requires scans != [] && scans[|scans|-1].Scanned? && scans[|scans|-1].closed.None?
    ensures !ConfirmedEmpty(scans, poll)
  {
  }

  // ----- when a settled run had every listed process inspected -----

  ghost predicate EnvironmentRefused(reading: Reading) {
    |reading.events| >= 2 && reading.events[1].EnvironmentRead? && reading.events[1].environment.Refused?
  }

  /** The reads showed that the listed process ended, or that another took its pid, before its environment was known. */
  ghost predicate ShownEnded(reading: Reading) {
    var events := reading.events;
    || (|events| == 1 && events[0].InfoRead? && Ended(events[0].info))
    || (|events| == 2 && events[1].EnvironmentRead? && Ended(events[1].environment))
    || (|events| >= 3 && events[0].InfoRead? && events[0].info.Found? && events[2].InfoRead?
        && (Ended(events[2].info) || (events[2].info.Found? && events[2].info.value.start != events[0].info.value.start)))
  }

  /** The read that should confirm the identity was itself refused. */
  ghost predicate RecheckRefused(reading: Reading) {
    |reading.events| >= 3 && reading.events[2].InfoRead? && reading.events[2].info.Refused?
  }

  /** The input on which the code fails its own account: the process is gone, and the scan is not told. */
  lemma RefusedEndIsUnrelated(policy: Policy, pid: Pid, info: ProcessInfo, errno: Errno)
    requires ProcessIdentity(pid, info.start) !in policy.adopted
    ensures var events := [InfoRead(pid, Found(info)), EnvironmentRead(pid, Refused(errno)), InfoRead(pid, Gone)];
            && ShownEnded(Reading(pid, events, None))
            && forall verdict :: Witnessed(policy, Reading(pid, events, verdict)) <==> verdict == None
  {
    var events := [InfoRead(pid, Found(info)), EnvironmentRead(pid, Refused(errno)), InfoRead(pid, Gone)];
    assert Refuses(policy, events, ProcessIdentity(pid, info.start));
    assert Witnessed(policy, Reading(pid, events, None));
    forall verdict | Witnessed(policy, Reading(pid, events, verdict)) ensures verdict == None {
      VerdictIsDetermined(policy, Reading(pid, events, verdict), Reading(pid, events, None));
    }
  }

  /** A process counts as vanished exactly when it was shown to end or could not be confirmed, and its environment was not refused. */
  lemma VanishedExactly(policy: Policy, reading: Reading)
    requires Witnessed(policy, reading)
    ensures reading.verdict == Some(Vanished) <==>
            (ShownEnded(reading) || RecheckRefused(reading)) && !EnvironmentRefused(reading)
    ensures ShownEnded(reading) ==> (reading.verdict == Some(Vanished) <==> !EnvironmentRefused(reading))
  {
    hide Carries, ClimbBlocked, ReachesOlderDaemon;
  }

  ghost predicate ShowsNoEnd(readings: seq<Reading>) {
    forall r :: r in readings ==> !ShownEnded(r)
  }

  ghost predicate RefusesNoEnd(readings: seq<Reading>) {
    forall r :: r in readings && EnvironmentRefused(r) ==> !ShownEnded(r)
  }

  ghost predicate ScansOk(policy: Policy, scans: seq<Step>) {
    forall i | 0 <= i < |scans| :: scans[i].Scanned? && StepOk(policy, scans[i])
  }

  /** No process that scans `k..` listed was shown to end before it was inspected. */
  ghost predicate InspectedFrom(scans: seq<Step>, k: nat) {
    forall j | k <= j < |scans| :: scans[j].Scanned? && ShowsNoEnd(scans[j].readings)
  }

  /** Scans `k..` met no process that refused its environment and then ended. */
  ghost predicate NoRefusedEndFrom(scans: seq<Step>, k: nat) {
    forall j | k <= j < |scans| :: scans[j].Scanned? && RefusesNoEnd(scans[j].readings)
  }

  lemma SettledScan(policy: Policy, scan: Step)
    requires scan.Scanned? && StepOk(policy, scan) && !Unsettled(scan.readings)
    ensures ShowsNoEnd(scan.readings) <==> RefusesNoEnd(scan.readings)
  {
    hide Witnessed, ShownEnded, EnvironmentRefused, RecheckRefused;
    forall r | r in scan.readings ensures ShownEnded(r) ==> EnvironmentRefused(r) {
      VanishedExactly(policy, r);
    }
  }

  /** A settled stretch had every listed process inspected exactly when no refused environment in it was of a process that ended. */
  lemma SettledIsInspected(policy: Policy, scans: seq<Step>, k: nat)
    requires ScansOk(policy, scans) && SettledFrom(scans, k)
    ensures InspectedFrom(scans, k) <==> NoRefusedEndFrom(scans, k)
  {
    hide StepOk, Unsettled, ShowsNoEnd, RefusesNoEnd;
    forall j | k <= j < |scans| ensures ShowsNoEnd(scans[j].readings) <==> RefusesNoEnd(scans[j].readings) {
      SettledScan(policy, scans[j]);
    }
  }

  /** A run too short to be believed as busy rests on inspection alone, under that condition and no other. */
  lemma StableIsInspected(policy: Policy, scans: seq<Step>, k: nat, poll: nat)
    requires ScansOk(policy, scans) && StableSince(scans, k, poll) && |scans| - k < 8
    ensures InspectedFrom(scans, k) <==> NoRefusedEndFrom(scans, k)
  {
    SettledIsInspected(policy, scans, k);
  }

  /** For every poll, two scans a poll apart are believed empty although each saw a listed process end uninspected. */
  lemma ConfirmedHidesEnd(policy: Policy, pid: Pid, info: ProcessInfo, errno: Errno, poll: nat) returns (scans: seq<Step>)
    requires ProcessIdentity(pid, info.start) !in policy.adopted
    ensures ScansOk(policy, scans) && |scans| == 2 && ConfirmedEmpty(scans, poll) && SettledFrom(scans, 0)
    ensures forall j | 0 <= j < |scans| :: exists r :: r in scans[j].readings && ShownEnded(r)
  {
    hide Witnessed, ShownEnded;
    var events := [InfoRead(pid, Found(info)), EnvironmentRead(pid, Refused(errno)), InfoRead(pid, Gone)];
    var reading := Reading(pid, events, None);
    RefusedEndIsUnrelated(policy, pid, info, errno);
    scans := [Scanned([pid], [reading], Some(0)), Scanned([pid], [reading], Some(poll))];
    assert StepOk(policy, scans[0]) && StepOk(policy, scans[1]);
    assert StableSince(scans, 0, poll);
    assert reading in scans[0].readings && reading in scans[1].readings;
  }

  // ----- what a log adds up to -----

  /** Identities whose send succeeded. */
  ghost function Stopped(log: seq<Step>): set<ProcessIdentity> {
    set step | step in log && step.Tried? && step.sent == Some(Delivered) :: step.target
  }

  /** Protected processes that some scan saw carrying the marker. */
  ghost function Hits(policy: Policy, log: seq<Step>): set<Pid> {
    set step, pid | step in log && step.Scanned? && pid in ProtectedHitsOf(policy, step.readings) :: pid
  }

  lemma StoppedAppend(log: seq<Step>, step: Step)
    ensures Stopped(log + [step]) ==
            Stopped(log) + if step.Tried? && step.sent == Some(Delivered) then {step.target} else {}
  {
    var all := Stopped(log + [step]);
    assert Stopped(log) <= all;
    assert step in log + [step];
    if step.Tried? && step.sent == Some(Delivered) {
      assert step.target in all;
    }
  }

  lemma HitsAppend(policy: Policy, log: seq<Step>, step: Step)
    ensures Hits(policy, log + [step]) ==
            Hits(policy, log) + if step.Scanned? then ProtectedHitsOf(policy, step.readings) else {}
  {
    var all := Hits(policy, log + [step]);
    assert Hits(policy, log) <= all;
    assert step in log + [step];
    if step.Scanned? {
      assert ProtectedHitsOf(policy, step.readings) <= all;
    }
  }

  // ----- the state a log accounts for -----

  datatype State = State(
    trace: seq<Event>, now: nat, run: EmptyRun, signalled: set<ProcessIdentity>, protectedHits: set<Pid>)

  /** The clock read that a step made, if any. */
  ghost function ClockOf(step: Step): Option<nat> {
    match step
    case Timed(now) => Some(now)
    case Scanned(_, _, closed) => closed
    case _ => None
  }

  /** The clock reads of the log never run backwards, and none is later than `now`. */
  ghost predicate Ticks(log: seq<Step>, now: nat) {
    && (forall i | 0 <= i < |log| && ClockOf(log[i]).Some? :: ClockOf(log[i]).value <= now)
    && (forall i, j | 0 <= i < j < |log| && ClockOf(log[i]).Some? && ClockOf(log[j]).Some? ::
          ClockOf(log[i]).value <= ClockOf(log[j]).value)
  }

  lemma TicksAppend(log: seq<Step>, now: nat, step: Step, later: nat)
    requires Ticks(log, now) && now <= later
    requires ClockOf(step).Some? ==> now <= ClockOf(step).value <= later
    ensures Ticks(log + [step], later)
  {
  }

  /** The steps of `log` are exactly the calls made, each kept its rules, and the fields are what the steps add up to. */
  ghost predicate Accounts(policy: Policy, log: seq<Step>, state: State) {
    && state.trace == Flatten(log)
    && LogOk(policy, log)
    && Tracks(Scans(log), state.run, state.now)
    && Ticks(log, state.now)
    && state.signalled == Stopped(log)
    && state.protectedHits == Hits(policy, log)
  }

  lemma LogOkAppend(policy: Policy, log: seq<Step>, step: Step)
    requires LogOk(policy, log) && StepOk(policy, step)
    ensures LogOk(policy, log + [step])
  {
  }

  /** A step that is neither a scan nor an attempt changes only the trace and the clock. */
  lemma AccountsQuiet(policy: Policy, log: seq<Step>, state: State, step: Step, later: nat)
    requires Accounts(policy, log, state) && state.now <= later
    requires !step.Scanned? && !step.Tried? && StepOk(policy, step)
    requires step.Timed? ==> state.now <= step.now <= later
    ensures Accounts(policy, log + [step], state.(trace := state.trace + Events(step), now := later))
  {
    hide StepOk, Tracks, Ticks;
    TicksAppend(log, state.now, step, later);
    FlattenAppend(log, step);
    ScansAppend(log, step);
    StoppedAppend(log, step);
    HitsAppend(policy, log, step);
    LogOkAppend(policy, log, step);
    TracksLater(Scans(log), state.run, state.now, later);
  }

  /** One more scan: the log, the run and the protected hits all move together. */
  lemma AccountsScan(policy: Policy, log: seq<Step>, state: State, scan: Step, tally: Tally, later: nat)
    requires Accounts(policy, log, state) && state.now <= later
    requires scan.Scanned? && AllWitnessed(policy, scan.pids, scan.readings) && Sums(policy, scan.readings, tally)
    requires scan.closed == if tally.targets == map[] && tally.suspects == {} then Some(later) else None
    ensures Accounts(policy, log + [scan], State(
                       state.trace + Events(scan),
                       later,
                       if scan.closed.Some? then Extended(state.run, tally.unsettled, later) else EmptyRun(0, None, 0, None),
                       state.signalled,
                       state.protectedHits + tally.protectedHits))
    ensures Scans(log + [scan]) == Scans(log) + [scan]
  {
    hide Tracks, Ticks, Sums, AllWitnessed, Empty;
    TicksAppend(log, state.now, scan, later);
    assert StepOk(policy, scan) && tally.unsettled == Unsettled(scan.readings)
           && tally.protectedHits == ProtectedHitsOf(policy, scan.readings) by {
      EmptyTally(policy, scan.readings, tally);
      SumsParts(policy, scan.readings, tally);
    }
    FlattenAppend(log, scan);
    ScansAppend(log, scan);
    StoppedAppend(log, scan);
    HitsAppend(policy, log, scan);
    LogOkAppend(policy, log, scan);
    if scan.closed.Some? {
      TracksExtended(Scans(log), state.run, state.now, scan, later);
    } else {
      TracksLater(Scans(log), state.run, state.now, later);
      TracksBroken(Scans(log), state.run, later, scan);
    }
  }

  lemma SumsParts(policy: Policy, readings: seq<Reading>, tally: Tally)
    requires Sums(policy, readings, tally)
    ensures tally.unsettled == Unsettled(readings) && tally.protectedHits == ProtectedHitsOf(policy, readings)
    ensures NamesTargets(policy, readings, tally.targets) && tally.suspects == SuspectsOf(readings)
  {
  }

  /** One more attempt: only a send that succeeded adds to the signalled identities. */
  lemma AccountsTried(policy: Policy, log: seq<Step>, state: State, step: Step, later: nat)
    requires Accounts(policy, log, state) && state.now <= later
    requires step.Tried? && StepOk(policy, step)
    ensures Accounts(policy, log + [step], state.(
                       trace := state.trace + Events(step),
                       now := later,
                       signalled := if step.sent == Some(Delivered) then state.signalled + {step.target} else state.signalled))
  {
    hide Tracks, Ticks, StepOk;
    TicksAppend(log, state.now, step, later);
    FlattenAppend(log, step);
    ScansAppend(log, step);
    StoppedAppend(log, step);
    HitsAppend(policy, log, step);
    LogOkAppend(policy, log, step);
    TracksLater(Scans(log), state.run, state.now, later);
  }

  lemma AccountsConfirms(policy: Policy, log: seq<Step>, state: State, poll: nat)
    requires Accounts(policy, log, state)
    requires Scans(log) != [] && Scans(log)[|Scans(log)|-1].closed == Some(state.now)
    ensures var run := state.run;
            && run.since.Some? && run.since.value <= state.now
            && (run.settledSince.Some? ==> run.settledSince.value <= state.now)
            && (ConfirmedEmpty(Scans(log), poll) <==>
                || (run.settledSince.Some? && state.now - run.settledSince.value >= poll)
                || (run.length >= 8 && state.now - run.since.value >= poll))
  {
    hide Tracks, ConfirmedEmpty;
    TracksConfirms(Scans(log), state.run, state.now, poll);
  }

  // ----- how attempts are spread over rounds -----

  ghost predicate SameAttempt(a: Step, b: Step) {
    a.Tried? && b.Tried? && a.round == b.round && a.target == b.target && a.signal == b.signal
  }

  /** No identity is tried twice in one round with one signal. */
  ghost predicate OncePerRound(log: seq<Step>) {
    forall i, j | 0 <= i < j < |log| :: !SameAttempt(log[i], log[j])
  }

  /** Identities tried in one round with one signal. */
  ghost function Attempts(log: seq<Step>, round: nat, signal: Signal): set<ProcessIdentity> {
    set step | step in log && step.Tried? && step.round == round && step.signal == signal :: step.target
  }

  /** A step that only the cleanup of a lost worker's group takes. */
  ghost predicate IsGroupStep(step: Step) {
    step.Attributed? || step.GroupSignalled? || step.GroupPolled?
  }

  /** A step that only a sweep takes. */
  ghost predicate IsSweepStep(step: Step) {
    step.Scanned? || step.ListingFailed? || step.Tried?
  }

  /** The log of a sweep: scans, attempts, clock reads and pauses, and nothing about groups. */
  ghost predicate IsSweepLog(log: seq<Step>) {
    forall i | 0 <= i < |log| :: !IsGroupStep(log[i])
  }

  ghost predicate IsAttempt(step: Step, r: nat, signal: Signal) {
    step.Tried? && step.round == r && step.signal == signal
  }

  /** Rounds after `round` are untouched, and `round` itself tried exactly the listed identities. */
  ghost predicate Scheduled(log: seq<Step>, round: nat, termed: set<ProcessIdentity>, killed: set<ProcessIdentity>) {
    && OncePerRound(log) && IsSweepLog(log)
    && (forall step :: step in log && step.Tried? ==> step.round <= round)
    && termed == Attempts(log, round, SIGTERM)
    && killed == Attempts(log, round, SIGKILL)
  }

  lemma AttemptsAppend(log: seq<Step>, step: Step, round: nat, signal: Signal)
    ensures Attempts(log + [step], round, signal) ==
            Attempts(log, round, signal)
            + if step.Tried? && step.round == round && step.signal == signal then {step.target} else {}
  {
    var all := Attempts(log + [step], round, signal);
    assert Attempts(log, round, signal) <= all;
    assert step in log + [step];
    if step.Tried? && step.round == round && step.signal == signal {
      assert step.target in all;
    }
  }

  lemma ScheduledQuiet(log: seq<Step>, step: Step, round: nat, termed: set<ProcessIdentity>, killed: set<ProcessIdentity>)
    requires Scheduled(log, round, termed, killed) && !step.Tried? && !IsGroupStep(step)
    ensures Scheduled(log + [step], round, termed, killed)
  {
    AttemptsAppend(log, step, round, SIGTERM);
    AttemptsAppend(log, step, round, SIGKILL);
  }

  lemma ScheduledTried(log: seq<Step>, step: Step, round: nat, termed: set<ProcessIdentity>, killed: set<ProcessIdentity>)
    requires Scheduled(log, round, termed, killed) && step.Tried? && step.round == round
    requires step.target !in if step.signal == SIGTERM then termed else killed
    ensures step.signal == SIGTERM ==> Scheduled(log + [step], round, termed + {step.target}, killed)
    ensures step.signal == SIGKILL ==> Scheduled(log + [step], round, termed, killed + {step.target})
  {
    AttemptsAppend(log, step, round, SIGTERM);
    AttemptsAppend(log, step, round, SIGKILL);
    forall i | 0 <= i < |log| ensures !SameAttempt(log[i], step) {
      assert log[i] in log;
    }
  }

  lemma ScheduledNext(log: seq<Step>, round: nat, termed: set<ProcessIdentity>, killed: set<ProcessIdentity>)
    requires Scheduled(log, round, termed, killed)
    ensures Scheduled(log, round + 1, {}, {})
  {
  }

  lemma ScheduledEarlier(log: seq<Step>, round: nat)
    requires Scheduled(log, round, {}, {})
    ensures forall i | 0 <= i < |log| && log[i].Tried? :: log[i].round < round
  {
    forall i | 0 <= i < |log| && log[i].Tried? ensures log[i].round < round {
      assert log[i] in log;
      assert log[i].round == round ==> log[i].target in Attempts(log, round, log[i].signal);
    }
  }

  lemma ScheduledExactly(log: seq<Step>, round: nat, termed: set<ProcessIdentity>, killed: set<ProcessIdentity>)
    requires Scheduled(log, round, termed, killed)
    ensures Attempts(log, round, SIGTERM) == termed && Attempts(log, round, SIGKILL) == killed
  {
  }

  /** Nothing but clock reads followed `scan`. */
  ghost predicate EndsWith(log: seq<Step>, scan: Step) {
    exists k | 0 <= k < |log| :: log[k] == scan && forall j | k < j < |log| :: log[j].Timed?
  }

  lemma EndsWithScan(log: seq<Step>, scan: Step)
    ensures EndsWith(log + [scan], scan)
  {
    assert (log + [scan])[|log|] == scan;
  }

  lemma EndsWithTimed(log: seq<Step>, scan: Step, now: nat)
    requires EndsWith(log, scan)
    ensures EndsWith(log + [Timed(now)], scan)
    ensures Scans(log + [Timed(now)]) == Scans(log)
  {
    var k :| 0 <= k < |log| && log[k] == scan && forall j | k < j < |log| :: log[j].Timed?;
    assert (log + [Timed(now)])[k] == scan;
    ScansAppend(log, Timed(now));
  }

  /** Nothing was done about groups, every attempt belongs to one of the first `rounds` rounds, and none was repeated. */
  ghost predicate AttemptsBounded(log: seq<Step>, rounds: nat) {
    && IsSweepLog(log) && OncePerRound(log)
    && forall i | 0 <= i < |log| && log[i].Tried? :: log[i].round < rounds
  }

  lemma ScheduledBounded(log: seq<Step>, round: nat, termed: set<ProcessIdentity>, killed: set<ProcessIdentity>, rounds: nat)
    requires Scheduled(log, round, termed, killed)
    requires round < rounds || (round == rounds && termed == {} && killed == {})
    ensures AttemptsBounded(log, rounds)
  {
    forall i | 0 <= i < |log| && log[i].Tried? ensures log[i].round < rounds {
      assert log[i] in log;
      assert log[i].round == round ==> log[i].target in Attempts(log, round, log[i].signal);
    }
  }

  lemma NothingTried(log: seq<Step>, rounds: nat)
    requires forall i | 0 <= i < |log| :: !log[i].Tried? && !IsGroupStep(log[i])
    ensures Scheduled(log, 0, {}, {}) && AttemptsBounded(log, rounds)
  {
  }

  /** The last thing done was to read the clock, before `deadline`. */
  ghost predicate InTime(log: seq<Step>, deadline: nat) {
    log != [] && log[|log|-1].Timed? && log[|log|-1].now < deadline
  }

  // ----- what a full round does -----

  /** Everything the scan found to stop is among `ids`. */
  ghost predicate TargetsWithin(policy: Policy, scan: Step, ids: set<ProcessIdentity>) {
    scan.Scanned? && exists targets :: NamesTargets(policy, scan.readings, targets) && targets.Values <= ids
  }

  /** Everything the scans of `log[from..to]` found to stop is among `ids`. */
  ghost predicate Chased(policy: Policy, log: seq<Step>, from: nat, to: nat, ids: set<ProcessIdentity>) {
    && to <= |log|
    && forall i | from <= i < to && log[i].Scanned? :: TargetsWithin(policy, log[i], ids)
  }

  lemma ChasedGrows(policy: Policy, log: seq<Step>, log': seq<Step>, from: nat, to: nat,
                    ids: set<ProcessIdentity>, ids': set<ProcessIdentity>)
    requires Chased(policy, log, from, to, ids) && log <= log' && ids <= ids'
    ensures Chased(policy, log', from, to, ids')
  {
    forall i | from <= i < to && log'[i].Scanned? ensures TargetsWithin(policy, log'[i], ids') {
      var targets :| NamesTargets(policy, log[i].readings, targets) && targets.Values <= ids;
    }
  }

  lemma ChasedSkips(policy: Policy, log: seq<Step>, from: nat, to: nat, further: nat, ids: set<ProcessIdentity>)
    requires Chased(policy, log, from, to, ids) && to <= further <= |log|
    requires forall i | to <= i < further :: !log[i].Scanned?
    ensures Chased(policy, log, from, further, ids)
  {
  }

  lemma ChasedScan(policy: Policy, log: seq<Step>, from: nat, at: nat, ids: set<ProcessIdentity>)
    requires at < |log| && Chased(policy, log, from, at, ids) && TargetsWithin(policy, log[at], ids)
    ensures Chased(policy, log, from, at + 1, ids)
  {
  }

  lemma ChasedNone(policy: Policy, log: seq<Step>, ids: set<ProcessIdentity>)
    ensures Chased(policy, log, |log|, |log|, ids)
  {
  }

  /** The opening scan of a round, when attempts to signal what it found and one clock read followed it. */
  lemma ChasedOpening(policy: Policy, log: seq<Step>, open: nat, ids: set<ProcessIdentity>)
    requires open < |log| && TargetsWithin(policy, log[open], ids)
    requires forall i | open < i < |log| :: !log[i].Scanned?
    ensures Chased(policy, log, open, |log|, ids)
  {
  }

  lemma ChasedJoins(policy: Policy, log: seq<Step>, log': seq<Step>, open: nat, to: nat,
                    ids: set<ProcessIdentity>, ids': set<ProcessIdentity>)
    requires Chased(policy, log, open, |log|, ids) && log <= log' && ids <= ids'
    requires Chased(policy, log', |log|, to, ids') && |log| <= to
    ensures Chased(policy, log', open, to, ids')
  {
    ChasedGrows(policy, log, log', open, |log|, ids, ids');
  }

  /** Nothing but clock reads followed the step at `at`. */
  ghost predicate OnlyTimedAfter(log: seq<Step>, at: nat) {
    at < |log| && forall j | at < j < |log| :: log[j].Timed?
  }

  /** The last thing done was to read the clock, at or after `until`. */
  ghost predicate OutOfTime(log: seq<Step>, until: nat) {
    log != [] && log[|log|-1].Timed? && log[|log|-1].now >= until
  }

  /**
   Places in the log: the scan that opens a round, the start of its grace and the scan
   that ends it, the start of the grace after SIGKILL and the scan that ends that.
   */
  datatype Round = Round(open: nat, waiting: nat, grace: nat, killing: nat, close: nat)

  /** A clock read right after the scan at `end` says that the grace begun at `start`, or all the time there was, is over. */
  ghost predicate GraceOver(log: seq<Step>, start: nat, end: nat, grace: nat, deadline: nat) {
    && start < end && end + 1 < |log|
    && log[start].Timed? && log[end + 1].Timed?
    && (log[end + 1].now >= log[start].now + grace || log[end + 1].now >= deadline)
  }

  /** The same clock read, and the grace itself ran out. */
  ghost predicate GraceSpent(log: seq<Step>, start: nat, end: nat, grace: nat) {
    && start < end && end + 1 < |log|
    && log[start].Timed? && log[end + 1].Timed?
    && log[end + 1].now >= log[start].now + grace
  }

  /** What the opening scan found was tried with SIGTERM before the grace began. */
  ghost predicate OpeningTried(policy: Policy, log: seq<Step>, r: nat, round: Round) {
    && round.open < |log| && round.waiting <= |log|
    && TargetsWithin(policy, log[round.open], Attempts(log[..round.waiting], r, SIGTERM))
  }

  /** Every SIGTERM of round `r` was attempted before `end`. */
  ghost predicate TermsBefore(log: seq<Step>, r: nat, end: nat) {
    forall i | 0 <= i < |log| && IsAttempt(log[i], r, SIGTERM) :: i < end
  }

  /**
   The first half of a round: SIGTERM for what its opening scan found, then a grace;
   what appeared up to the scan that ended it was tried with SIGTERM too, before that scan.
   */
  ghost predicate HalfDone(policy: Policy, log: seq<Step>, r: nat, round: Round) {
    && round.open < round.waiting < round.grace < |log|
    && log[round.open].Scanned? && log[round.waiting].Timed? && log[round.grace].Scanned?
    && OpeningTried(policy, log, r, round)
    && Chased(policy, log, round.open, round.grace, Attempts(log, r, SIGTERM))
    && TermsBefore(log, r, round.grace)
  }

  lemma TermsBeforeLater(log: seq<Step>, log': seq<Step>, r: nat, end: nat)
    requires TermsBefore(log, r, end) && log <= log'
    requires forall i | |log| <= i < |log'| :: !IsAttempt(log'[i], r, SIGTERM)
    ensures TermsBefore(log', r, end)
  {
    forall i | 0 <= i < |log'| && IsAttempt(log'[i], r, SIGTERM) ensures i < end {
      assert i < |log| ==> log'[i] == log[i];
    }
  }

  lemma HalfDoneLater(policy: Policy, log: seq<Step>, log': seq<Step>, r: nat, round: Round)
    requires HalfDone(policy, log, r, round) && log <= log'
    requires forall i | |log| <= i < |log'| :: !IsAttempt(log'[i], r, SIGTERM)
    ensures HalfDone(policy, log', r, round)
  {
    hide TargetsWithin, TermsBefore;
    TermsBeforeLater(log, log', r, round.grace);
    assert log'[..round.waiting] == log[..round.waiting];
    assert Attempts(log, r, SIGTERM) <= Attempts(log', r, SIGTERM);
    ChasedGrows(policy, log, log', round.open, round.grace, Attempts(log, r, SIGTERM), Attempts(log', r, SIGTERM));
  }

  /** The second half: the grace after SIGKILL ran out, unless the table was found clear in it. */
  ghost predicate RestDone(log: seq<Step>, round: Round, timing: Timing, deadline: nat) {
    && round.grace < round.killing < round.close < |log| && log[round.close].Scanned?
    && (GraceOver(log, round.killing, round.close, timing.killGrace, deadline)
        || ConfirmedEmpty(Scans(log[..round.close + 1]), timing.poll))
  }

  lemma RestDoneLater(log: seq<Step>, log': seq<Step>, round: Round, timing: Timing, deadline: nat)
    requires RestDone(log, round, timing, deadline) && log <= log'
    ensures RestDone(log', round, timing, deadline)
  {
    hide ConfirmedEmpty, Scans;
    assert log'[..round.close + 1] == log[..round.close + 1];
  }

  lemma {:induction false} ScansUpTo(log: seq<Step>, at: nat)
    requires OnlyTimedAfter(log, at)
    ensures Scans(log[..at + 1]) == Scans(log)
  {
    if at + 1 < |log| {
      var init := log[..|log| - 1];
      ScansUpTo(init, at);
      assert init[..at + 1] == log[..at + 1];
    } else {
      assert log[..at + 1] == log;
    }
  }

  // ----- the order within a round -----

  /** The scan picked `target` as something to stop. */
  ghost predicate FoundBy(policy: Policy, scan: Step, target: ProcessIdentity) {
    scan.Scanned? && Picks(policy, scan.readings, target.pid, target)
  }

  lemma FoundIsWithin(policy: Policy, scan: Step, target: ProcessIdentity, ids: set<ProcessIdentity>)
    requires FoundBy(policy, scan, target) && TargetsWithin(policy, scan, ids)
    ensures target in ids
  {
    hide Picks;
    var targets :| NamesTargets(policy, scan.readings, targets) && targets.Values <= ids;
    PickedIsNamed(policy, scan.readings, targets, target);
  }

  /** What is attempted at `i` was found by a scan before it, at `open` or later. */
  ghost predicate FoundSince(policy: Policy, log: seq<Step>, open: nat, i: nat)
    requires i < |log| && log[i].Tried?
  {
    exists s :: open <= s < i && FoundBy(policy, log[s], log[i].target)
  }

  /** The attempts from `from` on all belong to round `r`, use `signal`, and follow a scan since `open` that found their target. */
  ghost predicate Aimed(policy: Policy, log: seq<Step>, from: nat, r: nat, signal: Signal, open: nat) {
    forall i | from <= i < |log| && log[i].Tried? :: IsAttempt(log[i], r, signal) && FoundSince(policy, log, open, i)
  }

  lemma AimedNone(policy: Policy, log: seq<Step>, r: nat, signal: Signal)
    ensures Aimed(policy, log, |log|, r, signal, |log|)
  {
  }

  /** Attempts that kept to the aim in two stretches keep to it in both together. */
  lemma AimedJoins(policy: Policy, log: seq<Step>, log': seq<Step>, from: nat, r: nat, signal: Signal, open: nat)
    requires Aimed(policy, log, from, r, signal, open) && log <= log' && open <= |log|
    requires Aimed(policy, log', |log|, r, signal, |log|)
    ensures Aimed(policy, log', from, r, signal, open)
  {
    hide FoundBy;
    forall i | from <= i < |log'| && log'[i].Tried?
      ensures IsAttempt(log'[i], r, signal) && FoundSince(policy, log', open, i)
    {
      if i < |log| {
        assert log'[i] == log[i];
        var s :| open <= s < i && FoundBy(policy, log[s], log[i].target);
        assert log'[s] == log[s];
      }
    }
  }

  lemma AimedQuiet(policy: Policy, log: seq<Step>, log': seq<Step>, from: nat, r: nat, signal: Signal, open: nat)
    requires Aimed(policy, log, from, r, signal, open) && log <= log'
    requires forall i | |log| <= i < |log'| :: !log'[i].Tried?
    ensures Aimed(policy, log', from, r, signal, open)
  {
    hide FoundBy;
    forall i | from <= i < |log'| && log'[i].Tried? ensures FoundSince(policy, log', open, i) {
      var s :| open <= s < i && FoundBy(policy, log[s], log[i].target);
      assert log'[s] == log[s];
    }
  }

  /** Attempts at what the scan at `at` found keep to the aim. */
  lemma AimedAt(policy: Policy, log: seq<Step>, log': seq<Step>, from: nat, r: nat, signal: Signal, open: nat, at: nat)
    requires Aimed(policy, log, from, r, signal, open) && log <= log' && open <= at < |log|
    requires forall i | |log| <= i < |log'| :: IsAttempt(log'[i], r, signal) && FoundBy(policy, log[at], log'[i].target)
    ensures Aimed(policy, log', from, r, signal, open)
  {
    hide FoundBy;
    forall i | from <= i < |log'| && log'[i].Tried?
      ensures IsAttempt(log'[i], r, signal) && FoundSince(policy, log', open, i)
    {
      if i < |log| {
        assert log'[i] == log[i];
        var s :| open <= s < i && FoundBy(policy, log[s], log[i].target);
        assert log'[s] == log[s];
      } else {
        assert log'[at] == log[at];
      }
    }
  }

  /**
   SIGKILL is due at `i`: the round got through its first half, its grace ran out, and
   the scan that ended the grace still found the target.
   */
  ghost predicate KillDue(policy: Policy, log: seq<Step>, r: nat, round: Round, i: nat, timing: Timing)
    requires i < |log| && log[i].Tried?
  {
    && HalfDone(policy, log, r, round) && round.grace + 1 < i
    && GraceSpent(log, round.waiting, round.grace, timing.termGrace)
    && FoundBy(policy, log[round.grace], log[i].target)
  }

  /** All attempts of round `r`, finished or cut short, lie inside it and keep its order. */
  ghost predicate Ordered(policy: Policy, log: seq<Step>, r: nat, round: Round, timing: Timing) {
    && round.open < |log| && log[round.open].Scanned?
    && forall i | 0 <= i < |log| && log[i].Tried? && log[i].round == r ::
         && round.open < i
         && match log[i].signal
            case SIGTERM => FoundSince(policy, log, round.open, i)
            case SIGKILL => KillDue(policy, log, r, round, i, timing)
  }

  /** No attempt was added to round `r` after `log`. */
  ghost predicate Untouched(log: seq<Step>, log': seq<Step>, r: nat) {
    log <= log' && forall i | |log| <= i < |log'| && log'[i].Tried? :: log'[i].round != r
  }

  lemma HalfDoneSpans(policy: Policy, log: seq<Step>, r: nat, round: Round)
    requires HalfDone(policy, log, r, round)
    ensures round.open < round.waiting < round.grace < |log| && log[round.grace].Scanned?
  {
  }

  /** One attempt keeps its place when no SIGTERM is added to its round. */
  lemma KeepsPlace(policy: Policy, log: seq<Step>, log': seq<Step>, r: nat, round: Round, i: nat, timing: Timing)
    requires Ordered(policy, log, r, round, timing) && log <= log'
    requires forall j | |log| <= j < |log'| :: !IsAttempt(log'[j], r, SIGTERM)
    requires i < |log| && log[i].Tried? && log[i].round == r
    ensures round.open < i
    ensures log[i].signal == SIGTERM ==> FoundSince(policy, log', round.open, i)
    ensures log[i].signal == SIGKILL ==> KillDue(policy, log', r, round, i, timing)
  {
    hide FoundBy, HalfDone;
    assert log'[i] == log[i];
    if log[i].signal == SIGTERM {
      var s :| round.open <= s < i && FoundBy(policy, log[s], log[i].target);
      assert log'[s] == log[s];
    } else {
      HalfDoneLater(policy, log, log', r, round);
      HalfDoneSpans(policy, log, r, round);
    }
  }

  lemma OrderedLater(policy: Policy, log: seq<Step>, log': seq<Step>, r: nat, round: Round, timing: Timing)
    requires Ordered(policy, log, r, round, timing) && Untouched(log, log', r)
    ensures Ordered(policy, log', r, round, timing)
  {
    hide FoundSince, KillDue;
    forall i | 0 <= i < |log'| && log'[i].Tried? && log'[i].round == r
      ensures round.open < i
      ensures log'[i].signal == SIGTERM ==> FoundSince(policy, log', round.open, i)
      ensures log'[i].signal == SIGKILL ==> KillDue(policy, log', r, round, i, timing)
    {
      assert i < |log| && log'[i] == log[i];
      KeepsPlace(policy, log, log', r, round, i, timing);
    }
  }

  /** A round that so far only attempted SIGTERM, at what its scans found, is in order. */
  lemma OrderedTerms(policy: Policy, log: seq<Step>, log': seq<Step>, r: nat, round: Round, timing: Timing)
    requires log <= log' && round.open < |log| && log[round.open].Scanned?
    requires forall i | 0 <= i < |log| && log[i].Tried? :: log[i].round < r
    requires Aimed(policy, log', |log|, r, SIGTERM, round.open)
    ensures Ordered(policy, log', r, round, timing)
  {
    hide FoundSince, KillDue;
    assert forall i | 0 <= i < |log| :: log'[i] == log[i];
  }

  /** SIGKILL for what the scan at the end of a spent grace found keeps the order. */
  lemma OrderedKills(policy: Policy, log: seq<Step>, log': seq<Step>, r: nat, round: Round, timing: Timing)
    requires Ordered(policy, log, r, round, timing) && log <= log'
    requires HalfDone(policy, log, r, round)
    requires GraceSpent(log, round.waiting, round.grace, timing.termGrace)
    requires forall i | |log| <= i < |log'| && log'[i].Tried? ::
               IsAttempt(log'[i], r, SIGKILL) && FoundBy(policy, log[round.grace], log'[i].target)
    ensures Ordered(policy, log', r, round, timing) && HalfDone(policy, log', r, round)
  {
    hide FoundSince, FoundBy, HalfDone;
    assert forall i | |log| <= i < |log'| :: !IsAttempt(log'[i], r, SIGTERM);
    HalfDoneLater(policy, log, log', r, round);
    HalfDoneSpans(policy, log, r, round);
    forall i | 0 <= i < |log'| && log'[i].Tried? && log'[i].round == r
      ensures round.open < i
      ensures log'[i].signal == SIGTERM ==> FoundSince(policy, log', round.open, i)
      ensures log'[i].signal == SIGKILL ==> KillDue(policy, log', r, round, i, timing)
    {
      if i < |log| {
        assert log'[i] == log[i];
        KeepsPlace(policy, log, log', r, round, i, timing);
      } else {
        assert log'[round.grace] == log[round.grace];
      }
    }
  }

  /** Only the places of the second half differ, so a round in order stays so. */
  lemma OrderedClosed(policy: Policy, log: seq<Step>, r: nat, round: Round, killing: nat, close: nat, timing: Timing)
    requires Ordered(policy, log, r, round, timing)
    ensures Ordered(policy, log, r, round.(killing := killing, close := close), timing)
  {
    hide FoundSince;
    var closed := round.(killing := killing, close := close);
    forall i | 0 <= i < |log| && log[i].Tried? && log[i].round == r && log[i].signal == SIGKILL
      ensures KillDue(policy, log, r, closed, i, timing)
    {
      assert KillDue(policy, log, r, round, i, timing);
    }
  }

  /** Every SIGKILL of round `r` was attempted before `end`. */
  ghost predicate KillsBefore(log: seq<Step>, r: nat, end: nat) {
    forall i | 0 <= i < |log| && IsAttempt(log[i], r, SIGKILL) :: i < end
  }

  /**
   The round at `r` was carried out in full: all that its opening scan and the scans
   of its grace found was tried with SIGTERM before the scan that ended the grace, the
   grace ran out, all that this scan found was tried with SIGKILL before the second
   grace began, and that ran out as well unless the table was found clear in it.
   */
  ghost predicate RoundDone(policy: Policy, log: seq<Step>, r: nat, round: Round, timing: Timing, deadline: nat) {
    && HalfDone(policy, log, r, round)
    && GraceSpent(log, round.waiting, round.grace, timing.termGrace)
    && TargetsWithin(policy, log[round.grace], Attempts(log, r, SIGKILL))
    && RestDone(log, round, timing, deadline)
    && KillsBefore(log, r, round.killing)
  }

  /**
   The first `full` rounds were carried out in full, each from where the one before it
   ended, and at most one more was begun. Every attempt lies inside the round it is
   labelled with and keeps that round's order, also in a round that was cut short.
   */
  ghost predicate Escalated(policy: Policy, log: seq<Step>, rounds: seq<Round>, full: nat, timing: Timing, deadline: nat) {
    && full <= |rounds| <= full + 1
    && (forall r | 0 <= r < full :: RoundDone(policy, log, r, rounds[r], timing, deadline))
    && (forall r | 0 <= r < |rounds| :: Ordered(policy, log, r, rounds[r], timing))
    && (forall r | 0 < r < |rounds| :: rounds[r].open == rounds[r-1].close)
    && (forall i | 0 <= i < |log| && log[i].Tried? :: log[i].round < |rounds|)
  }

  lemma EscalatedNone(policy: Policy, log: seq<Step>, timing: Timing, deadline: nat)
    requires forall i | 0 <= i < |log| :: !log[i].Tried?
    ensures Escalated(policy, log, [], 0, timing, deadline)
  {
  }

  lemma RoundDoneLater(policy: Policy, log: seq<Step>, log': seq<Step>, r: nat, round: Round, timing: Timing, deadline: nat)
    requires RoundDone(policy, log, r, round, timing, deadline) && Untouched(log, log', r)
    ensures RoundDone(policy, log', r, round, timing, deadline)
  {
    hide NamesTargets, RestDone, HalfDone;
    HalfDoneLater(policy, log, log', r, round);
    HalfDoneSpans(policy, log, r, round);
    assert Attempts(log, r, SIGKILL) <= Attempts(log', r, SIGKILL);
    RestDoneLater(log, log', round, timing, deadline);
    forall i | 0 <= i < |log'| && IsAttempt(log'[i], r, SIGKILL) ensures i < round.killing {
      assert i < |log| && log'[i] == log[i];
    }
  }

  /** The rounds so far keep their record when only a later round goes on. */
  lemma EscalatedLater(policy: Policy, log: seq<Step>, log': seq<Step>, rounds: seq<Round>, full: nat, timing: Timing, deadline: nat)
    requires Escalated(policy, log, rounds, full, timing, deadline) && log <= log'
    requires forall i | |log| <= i < |log'| && log'[i].Tried? :: log'[i].round == |rounds|
    ensures forall r | 0 <= r < full :: RoundDone(policy, log', r, rounds[r], timing, deadline)
    ensures forall r | 0 <= r < |rounds| :: Ordered(policy, log', r, rounds[r], timing)
    ensures forall i | 0 <= i < |log'| && log'[i].Tried? :: log'[i].round <= |rounds|
  {
    hide RoundDone, Ordered;
    forall r | 0 <= r < |rounds|
      ensures r < full ==> RoundDone(policy, log', r, rounds[r], timing, deadline)
      ensures Ordered(policy, log', r, rounds[r], timing)
    {
      OrderedLater(policy, log, log', r, rounds[r], timing);
      if r < full {
        RoundDoneLater(policy, log, log', r, rounds[r], timing, deadline);
      }
    }
    forall i | 0 <= i < |log'| && log'[i].Tried? ensures log'[i].round <= |rounds| {
      assert i < |log| ==> log'[i] == log[i];
    }
  }

  lemma EscalatedQuiet(policy: Policy, log: seq<Step>, log': seq<Step>, rounds: seq<Round>, full: nat, timing: Timing, deadline: nat)
    requires Escalated(policy, log, rounds, full, timing, deadline) && log <= log'
    requires forall i | |log| <= i < |log'| :: !log'[i].Tried?
    ensures Escalated(policy, log', rounds, full, timing, deadline)
  {
    hide RoundDone, Ordered;
    EscalatedLater(policy, log, log', rounds, full, timing, deadline);
    forall i | 0 <= i < |log'| && log'[i].Tried? ensures log'[i].round < |rounds| {
      assert i < |log| && log'[i] == log[i];
    }
  }

  /** One more round, in full or cut short. */
  lemma EscalatedRound(policy: Policy, log: seq<Step>, log': seq<Step>, rounds: seq<Round>, round: Round, done: bool,
                       timing: Timing, deadline: nat)
    requires Escalated(policy, log, rounds, |rounds|, timing, deadline) && log <= log'
    requires forall i | |log| <= i < |log'| && log'[i].Tried? :: log'[i].round == |rounds|
    requires Ordered(policy, log', |rounds|, round, timing)
    requires done ==> RoundDone(policy, log', |rounds|, round, timing, deadline)
    requires rounds != [] ==> rounds[|rounds|-1].close == round.open
    ensures Escalated(policy, log', rounds + [round], if done then |rounds| + 1 else |rounds|, timing, deadline)
  {
    hide RoundDone, Ordered;
    EscalatedLater(policy, log, log', rounds, |rounds|, timing, deadline);
  }

  // ----- signalling a whole group -----

  ghost function GroupSignals(log: seq<Step>): seq<Signal> {
    if log == [] then []
    else
      var last := log[|log|-1];
      GroupSignals(log[..|log|-1]) + if last.GroupSignalled? then [last.groupSignal] else []
  }

  ghost predicate Authorises(step: Step, leader: ProcessIdentity) {
    step.Attributed? && step.leader == leader && (step.finding.ByLeader? || step.finding.ByMember?)
  }

  /** No scan and no attempt was made, and every group signal directly follows a look that tied the group to the run. */
  ghost predicate Guarded(log: seq<Step>, leader: ProcessIdentity) {
    && (forall i | 0 <= i < |log| :: !IsSweepStep(log[i]))
    && (forall i | 0 <= i < |log| && log[i].GroupSignalled? ::
          log[i].pgid == leader.pid && i > 0 && Authorises(log[i-1], leader))
  }

  lemma GuardedAppend(log: seq<Step>, step: Step, leader: ProcessIdentity)
    requires Guarded(log, leader) && !IsSweepStep(step)
    requires step.GroupSignalled? ==> step.pgid == leader.pid && log != [] && Authorises(log[|log|-1], leader)
    ensures Guarded(log + [step], leader)
    ensures GroupSignals(log + [step]) == GroupSignals(log) + if step.GroupSignalled? then [step.groupSignal] else []
  {
    assert (log + [step])[..|log|] == log;
    forall i | 0 <= i < |log| + 1 && (log + [step])[i].GroupSignalled?
      ensures i > 0 && Authorises((log + [step])[i-1], leader)
    {
      assert i < |log| ==> (log + [step])[i] == log[i];
    }
  }

  lemma NoGroup(policy: Policy, leader: ProcessIdentity, listing: seq<Event>)
    ensures var step := Attributed(leader, listing, None, [], Unlisted);
            Events(step) == listing && (listing == [Listed(None)] ==> StepOk(policy, step))
    ensures var step := Attributed(leader, listing, None, [], NoMembers);
            && Events(step) == listing
            && (ListsGroup(listing) && MembersOf(leader.pid, listing[1..]) == [] ==> StepOk(policy, step))
  {
  }

  lemma GuardedNone(leader: ProcessIdentity)
    ensures Guarded([], leader) && GroupSignals([]) == []
  {
  }

  lemma NoMembersRead(pgid: Pid)
    ensures MembersOf(pgid, []) == []
  {
  }

  lemma MembersAppend(pgid: Pid, events: seq<Event>, event: Event)
    ensures MembersOf(pgid, events + [event]) == MembersOf(pgid, events) + if InGroup(pgid, event) then [event.pid] else []
  {
    assert (events + [event])[..|events|] == events;
  }

  /** The group was listed without a live member, or the kernel said, with errno 3, that it does not exist. */
  ghost predicate GroupGone(step: Step, pgid: Pid) {
    match step
    case Attributed(leader, _, _, _, finding) => leader.pid == pgid && finding == NoMembers
    case GroupPolled(group, poll) => group == pgid && ListsGroup(poll) && MembersOf(pgid, poll[1..]) == []
    case GroupSignalled(group, _, delivery) => group == pgid && delivery == Undelivered(3)
    case _ => false
  }

  ghost predicate GroupListed(step: Step, pgid: Pid) {
    step.GroupPolled? && step.group == pgid && ListsGroup(step.poll) && MembersOf(pgid, step.poll[1..]) != []
  }

  /** The last poll still found members, and the clock was read after it. */
  ghost predicate EndsListed(log: seq<Step>, pgid: Pid) {
    |log| >= 2 && log[|log|-1].Timed? && GroupListed(log[|log|-2], pgid)
  }

  /** The group was signalled at `s`; the grace that began next was over after the poll at `c`, which still found members. */
  ghost predicate GroupGrace(log: seq<Step>, pgid: Pid, signal: Signal, s: nat, c: nat, grace: nat, deadline: nat) {
    && GroupStruck(log, signal, s) && GraceOver(log, s + 1, c, grace, deadline) && GroupListed(log[c], pgid)
  }

  ghost predicate GroupStruck(log: seq<Step>, signal: Signal, s: nat) {
    s < |log| && log[s].GroupSignalled? && log[s].groupSignal == signal
  }

  /** A group was sent SIGKILL at `k` only after the grace of its SIGTERM. */
  ghost predicate KilledAfterGrace(log: seq<Step>, pgid: Pid, timing: Timing, deadline: nat) {
    exists s: nat, c: nat, k: nat :: c + 1 < k && GroupGrace(log, pgid, SIGTERM, s, c, timing.termGrace, deadline) && GroupStruck(log, SIGKILL, k)
  }

  /** The group outlived SIGKILL: its grace was over, and the last poll still found members. */
  ghost predicate Outlived(log: seq<Step>, pgid: Pid, timing: Timing, deadline: nat) {
    exists s: nat, c: nat :: c + 2 == |log| && GroupGrace(log, pgid, SIGKILL, s, c, timing.killGrace, deadline)
  }

  lemma GroupGraceLater(log: seq<Step>, log': seq<Step>, pgid: Pid, signal: Signal, s: nat, c: nat, grace: nat, deadline: nat)
    requires GroupGrace(log, pgid, signal, s, c, grace, deadline) && log <= log'
    ensures GroupGrace(log', pgid, signal, s, c, grace, deadline)
  {
    hide GroupListed;
  }
}
