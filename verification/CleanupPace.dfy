/**
 How a sweep spends its time: when it looks at the process table, how long it pauses,
 when each grace ends, and where a round stops. Together with what each round attempts,
 this leaves no place in a sweep's log without an account.
 */
module CleanupPace {
  import opened Basics
  import opened Processes
  import opened CleanupTrace

  // ----- one wait -----

  /** When a grace that began at `start` ends: after its length, or at the deadline if that is earlier. */
  ghost function Until(start: nat, grace: nat, deadline: nat): nat {
    if start + grace <= deadline then start + grace else deadline
  }

  lemma UntilIs(start: nat, grace: nat, deadline: nat)
    ensures Until(start, grace, deadline) == if start + grace < deadline then start + grace else deadline
  {
  }

  /** A pause lasts a poll, or what is left of the grace if that is less. */
  ghost function NapFor(poll: nat, now: nat, until: nat): nat {
    if now >= until then 0 else if until - now <= poll then until - now else poll
  }

  ghost predicate IsLook(step: Step) {
    step.Scanned? || step.ListingFailed? || step.GroupPolled?
  }

  /** Look `s` of a wait directly follows a clock read and the pause that this clock read calls for. */
  ghost predicate LooksAfterPause(log: seq<Step>, start: nat, s: nat, until: nat, poll: nat)
    requires s < |log|
  {
    s >= start + 3 && log[s-2].Timed? && log[s-1] == Paused(NapFor(poll, log[s-2].now, until))
  }

  /** The grace had not ended right after the look at `s`. */
  ghost predicate StillTime(log: seq<Step>, s: nat, until: nat) {
    s + 1 < |log| && log[s+1].Timed? && log[s+1].now < until
  }

  /** From `start` on every look follows its pause, every pause leads to a look, and there was still time after each look before `end`. */
  ghost predicate Paced(log: seq<Step>, start: nat, end: nat, until: nat, poll: nat) {
    && (forall s | start < s < |log| && s <= end && IsLook(log[s]) :: LooksAfterPause(log, start, s, until, poll))
    && (forall p | start < p < |log| && p <= end && log[p].Paused? :: p + 1 < |log| && p + 1 <= end && IsLook(log[p+1]))
    && (forall s | start < s < |log| && s < end && IsLook(log[s]) :: StillTime(log, s, until) && !log[s].ListingFailed?)
  }

  /** No scan between `start` and `end` confirmed an empty table, or the wait would have ended there. */
  ghost predicate UnclearUpTo(log: seq<Step>, start: nat, end: nat, poll: nat) {
    forall s | start < s < |log| && s < end && log[s].Scanned? :: !ConfirmedEmpty(Scans(log[..s+1]), poll)
  }

  /** A wait that is not over yet. */
  ghost predicate Waiting(log: seq<Step>, start: nat, until: nat, poll: nat) {
    start < |log| && Paced(log, start, |log|, until, poll) && UnclearUpTo(log, start, |log|, poll)
  }

  /** A whole wait: it began with the clock read at `start` and ended with the look at `end`. */
  ghost predicate Waited(log: seq<Step>, start: nat, end: nat, until: nat, poll: nat) {
    && start < end < |log| && log[start].Timed? && IsLook(log[end])
    && Paced(log, start, end, until, poll) && UnclearUpTo(log, start, end, poll)
  }

  lemma WaitBegins(log: seq<Step>, until: nat, poll: nat)
    requires log != []
    ensures Waiting(log, |log| - 1, until, poll)
  {
  }

  lemma PausedLook(log: seq<Step>, log': seq<Step>, start: nat, until: nat, poll: nat)
    requires start < |log| && Paced(log, start, |log|, until, poll)
    requires log <= log' && |log'| == |log| + 3
    requires log'[|log|].Timed? && log'[|log|+1] == Paused(NapFor(poll, log'[|log|].now, until)) && IsLook(log'[|log|+2])
    ensures Paced(log', start, |log'| - 1, until, poll)
  {
    var n := |log|;
    assert forall i | 0 <= i < n :: log'[i] == log[i];
    forall s | start < s < |log'| && IsLook(log'[s])
      ensures LooksAfterPause(log', start, s, until, poll)
      ensures s < |log'| - 1 ==> StillTime(log', s, until) && !log'[s].ListingFailed?
    {
      if s < n {
        assert LooksAfterPause(log, start, s, until, poll) && StillTime(log, s, until);
      } else {
        assert s == n + 2;
      }
    }
    forall p | start < p < |log'| && log'[p].Paused? ensures p + 1 < |log'| && IsLook(log'[p+1]) {
      if p < n {
        assert IsLook(log[p+1]);
      }
    }
  }

  /** A clock read, its pause and a look: the wait may end here. */
  lemma WaitLooks(log: seq<Step>, log': seq<Step>, start: nat, until: nat, poll: nat)
    requires Waiting(log, start, until, poll) && log[start].Timed?
    requires log <= log' && |log'| == |log| + 3
    requires log'[|log|].Timed? && log'[|log|+1] == Paused(NapFor(poll, log'[|log|].now, until)) && IsLook(log'[|log|+2])
    ensures Waited(log', start, |log'| - 1, until, poll)
  {
    hide ConfirmedEmpty, Scans, NapFor;
    PausedLook(log, log', start, until, poll);
    forall s | start < s < |log'| - 1 && log'[s].Scanned? ensures !ConfirmedEmpty(Scans(log'[..s+1]), poll) {
      assert s < |log| && log'[..s+1] == log[..s+1];
    }
  }

  lemma PausedOn(log: seq<Step>, log': seq<Step>, start: nat, until: nat, poll: nat)
    requires log != [] && Paced(log, start, |log| - 1, until, poll) && !log[|log|-1].ListingFailed? && IsLook(log[|log|-1])
    requires log <= log' && |log'| == |log| + 1 && log'[|log|].Timed? && log'[|log|].now < until
    ensures Paced(log', start, |log'|, until, poll)
  {
    hide NapFor;
    assert forall i | 0 <= i < |log| :: log'[i] == log[i];
    forall s | start < s < |log'| && IsLook(log'[s])
      ensures LooksAfterPause(log', start, s, until, poll) && StillTime(log', s, until) && !log'[s].ListingFailed?
    {
      assert s < |log| && LooksAfterPause(log, start, s, until, poll);
      assert s < |log| - 1 ==> StillTime(log, s, until);
    }
    forall p | start < p < |log'| && log'[p].Paused? ensures p + 1 < |log'| && IsLook(log'[p+1]) {
      assert p < |log| && p + 1 < |log| && IsLook(log[p+1]);
    }
  }

  /** It does not end if there is still time and the look confirmed nothing. */
  lemma WaitGoesOn(log: seq<Step>, log': seq<Step>, start: nat, until: nat, poll: nat)
    requires log != [] && Waited(log, start, |log| - 1, until, poll) && !log[|log|-1].ListingFailed?
    requires log[|log|-1].Scanned? ==> !ConfirmedEmpty(Scans(log), poll)
    requires log <= log' && |log'| == |log| + 1 && log'[|log|].Timed? && log'[|log|].now < until
    ensures Waiting(log', start, until, poll)
  {
    hide ConfirmedEmpty, Scans, Paced;
    PausedOn(log, log', start, until, poll);
    assert log'[..|log|] == log;
    forall s | start < s < |log'| && log'[s].Scanned? ensures !ConfirmedEmpty(Scans(log'[..s+1]), poll) {
      assert s < |log| && log'[s] == log[s] && log'[..s+1] == log[..s+1];
    }
  }

  /** Attempts to signal take no part in the pace. */
  lemma WaitSignals(log: seq<Step>, log': seq<Step>, start: nat, until: nat, poll: nat)
    requires Waiting(log, start, until, poll) && log <= log'
    requires forall i | |log| <= i < |log'| :: log'[i].Tried?
    ensures Waiting(log', start, until, poll)
  {
    hide ConfirmedEmpty, Scans, NapFor;
    assert forall i | 0 <= i < |log| :: log'[i] == log[i];
    forall s | start < s < |log'| && IsLook(log'[s])
      ensures LooksAfterPause(log', start, s, until, poll) && StillTime(log', s, until) && !log'[s].ListingFailed?
    {
      assert s < |log| && LooksAfterPause(log, start, s, until, poll) && StillTime(log, s, until);
    }
    forall p | start < p < |log'| && log'[p].Paused? ensures p + 1 < |log'| && IsLook(log'[p+1]) {
      assert p < |log| && p + 1 < |log| && IsLook(log[p+1]);
    }
    forall s | start < s < |log'| && log'[s].Scanned? ensures !ConfirmedEmpty(Scans(log'[..s+1]), poll) {
      assert s < |log| && log'[..s+1] == log[..s+1];
    }
  }

  lemma WaitedLater(log: seq<Step>, log': seq<Step>, start: nat, end: nat, until: nat, poll: nat)
    requires Waited(log, start, end, until, poll) && log <= log'
    ensures Waited(log', start, end, until, poll)
  {
    hide ConfirmedEmpty, Scans, NapFor;
    assert forall i | 0 <= i < |log| :: log'[i] == log[i];
    forall s | start < s <= end && IsLook(log'[s])
      ensures LooksAfterPause(log', start, s, until, poll)
      ensures s < end ==> StillTime(log', s, until) && !log'[s].ListingFailed?
    {
      assert LooksAfterPause(log, start, s, until, poll);
      assert s < end ==> StillTime(log, s, until);
    }
    forall p | start < p <= end && log'[p].Paused? ensures p + 1 <= end && IsLook(log'[p+1]) {
      assert p + 1 <= end && IsLook(log[p+1]);
    }
    forall s | start < s < end && log'[s].Scanned? ensures !ConfirmedEmpty(Scans(log'[..s+1]), poll) {
      assert log'[..s+1] == log[..s+1];
    }
  }

  // ----- one wait of a sweep, with what it attempts -----

  /** Which wait it is: where it began, what ends it, and whether what appears in it is sent SIGTERM. */
  datatype Wait = Wait(start: nat, until: nat, poll: nat, round: nat, terminating: bool)

  /** The attempts of a wait so far: SIGTERM for what its scans up to `end` found, or none. */
  ghost predicate Pursues(policy: Policy, log: seq<Step>, wait: Wait, end: nat, termed: set<ProcessIdentity>) {
    && Aimed(policy, log, wait.start + 1, wait.round, SIGTERM, wait.start + 1)
    && if wait.terminating then Chased(policy, log, wait.start + 1, end, termed)
       else forall i | wait.start < i < |log| :: !log[i].Tried?
  }

  ghost predicate OnTheWay(policy: Policy, log: seq<Step>, wait: Wait, termed: set<ProcessIdentity>) {
    && wait.start < |log| && log[wait.start].Timed?
    && Waiting(log, wait.start, wait.until, wait.poll) && Pursues(policy, log, wait, |log|, termed)
  }

  ghost predicate Arrived(policy: Policy, log: seq<Step>, wait: Wait, at: nat, termed: set<ProcessIdentity>) {
    Waited(log, wait.start, at, wait.until, wait.poll) && Pursues(policy, log, wait, at, termed)
  }

  lemma SetsOut(policy: Policy, log: seq<Step>, wait: Wait, termed: set<ProcessIdentity>)
    requires log != [] && wait.start == |log| - 1 && log[wait.start].Timed?
    ensures OnTheWay(policy, log, wait, termed)
  {
    WaitBegins(log, wait.until, wait.poll);
    AimedNone(policy, log, wait.round, SIGTERM);
    ChasedNone(policy, log, termed);
  }

  lemma Arrives(policy: Policy, log: seq<Step>, log': seq<Step>, wait: Wait, termed: set<ProcessIdentity>)
    requires OnTheWay(policy, log, wait, termed) && log <= log' && |log'| == |log| + 3
    requires log'[|log|].Timed? && log'[|log|+1] == Paused(NapFor(wait.poll, log'[|log|].now, wait.until)) && IsLook(log'[|log|+2])
    ensures Arrived(policy, log', wait, |log'| - 1, termed)
  {
    hide Waiting, Waited, Aimed, Chased, NapFor;
    WaitLooks(log, log', wait.start, wait.until, wait.poll);
    AimedQuiet(policy, log, log', wait.start + 1, wait.round, SIGTERM, wait.start + 1);
    if wait.terminating {
      ChasedGrows(policy, log, log', wait.start + 1, |log|, termed, termed);
      ChasedSkips(policy, log', wait.start + 1, |log|, |log'| - 1, termed);
    } else {
      assert forall i | 0 <= i < |log| :: log'[i] == log[i];
    }
  }

  lemma ArrivedLater(policy: Policy, log: seq<Step>, log': seq<Step>, wait: Wait, at: nat, termed: set<ProcessIdentity>)
    requires Arrived(policy, log, wait, at, termed) && log <= log' && |log'| == |log| + 1 && log'[|log|].Timed?
    ensures Arrived(policy, log', wait, at, termed)
  {
    hide Waited, Aimed, Chased;
    WaitedLater(log, log', wait.start, at, wait.until, wait.poll);
    AimedQuiet(policy, log, log', wait.start + 1, wait.round, SIGTERM, wait.start + 1);
    if wait.terminating {
      ChasedGrows(policy, log, log', wait.start + 1, at, termed, termed);
    } else {
      assert forall i | 0 <= i < |log| :: log'[i] == log[i];
    }
  }

  /** With time left after a look that did not clear the table, and its finds attempted, the wait goes on. */
  lemma SetsOutAgain(policy: Policy, log: seq<Step>, log': seq<Step>, log'': seq<Step>, wait: Wait, termed: set<ProcessIdentity>)
    requires log != [] && Waited(log, wait.start, |log| - 1, wait.until, wait.poll)
    requires log[|log|-1].Scanned? && !ConfirmedEmpty(Scans(log), wait.poll)
    requires log <= log' && |log'| == |log| + 1 && log'[|log|].Timed? && log'[|log|].now < wait.until
    requires log' <= log'' && forall i | |log'| <= i < |log''| :: log''[i].Tried?
    requires Pursues(policy, log'', wait, |log''|, termed)
    ensures OnTheWay(policy, log'', wait, termed)
  {
    hide Waiting, ConfirmedEmpty, Scans, Pursues;
    WaitGoesOn(log, log', wait.start, wait.until, wait.poll);
    WaitSignals(log', log'', wait.start, wait.until, wait.poll);
  }

  // ----- one round -----

  /** Between `from` and `to` the sweep only read the clock and attempted signals: it neither paused nor looked. */
  ghost predicate Busy(log: seq<Step>, from: nat, to: nat) {
    forall i | from < i < |log| && i < to :: log[i].Timed? || log[i].Tried?
  }

  /** The first half of a round in time: attempts at once, then a wait of at most the grace after SIGTERM. */
  ghost predicate TermWait(log: seq<Step>, round: Round, timing: Timing, deadline: nat) {
    && round.open < round.waiting < |log| && log[round.waiting].Timed? && Busy(log, round.open, round.waiting)
    && Waited(log, round.waiting, round.grace, Until(log[round.waiting].now, timing.termGrace, deadline), timing.poll)
  }

  /** The second half: attempts at once after the grace, then a wait of at most the grace after SIGKILL. */
  ghost predicate KillWait(log: seq<Step>, round: Round, timing: Timing, deadline: nat) {
    && round.grace < round.killing < |log| && log[round.killing].Timed? && Busy(log, round.grace, round.killing)
    && Waited(log, round.killing, round.close, Until(log[round.killing].now, timing.killGrace, deadline), timing.poll)
  }

  ghost predicate ClearAt(log: seq<Step>, at: nat, poll: nat) {
    at < |log| && ConfirmedEmpty(Scans(log[..at+1]), poll)
  }

  /** A clock read after `from` found the deadline passed. */
  ghost predicate Overdue(log: seq<Step>, from: nat, deadline: nat) {
    exists c :: from < c < |log| && log[c].Timed? && log[c].now >= deadline
  }

  /** A round begins only while the table is not clear and a clock read says there is time. */
  ghost predicate Begins(log: seq<Step>, round: Round, timing: Timing, deadline: nat) {
    && !ClearAt(log, round.open, timing.poll)
    && exists c :: round.open < c < round.waiting && c < |log| && log[c].Timed? && log[c].now < deadline
  }

  /** A full round spends its time on two waits, and goes past the first only while the table is not clear. */
  ghost predicate FullyPaced(log: seq<Step>, round: Round, timing: Timing, deadline: nat) {
    TermWait(log, round, timing, deadline) && KillWait(log, round, timing, deadline) && !ClearAt(log, round.grace, timing.poll)
  }

  /** The round stopped after its first wait: listing failed, the table was clear, or time had run out. */
  ghost predicate StopsAtTerm(policy: Policy, log: seq<Step>, r: nat, round: Round, timing: Timing, deadline: nat) {
    && OnlyTimedAfter(log, round.grace)
    && (|| log[round.grace].ListingFailed?
        || (&& HalfDone(policy, log, r, round)
            && (|| ClearAt(log, round.grace, timing.poll)
                || (GraceOver(log, round.waiting, round.grace, timing.termGrace, deadline) && Overdue(log, round.grace, deadline)))))
  }

  /** The round sent SIGKILL to what was left, and stopped in its second wait: listing failed, or time had run out. */
  ghost predicate StopsAtKill(policy: Policy, log: seq<Step>, r: nat, round: Round, timing: Timing, deadline: nat) {
    && FullyPaced(log, round, timing, deadline) && OnlyTimedAfter(log, round.close)
    && HalfDone(policy, log, r, round) && GraceSpent(log, round.waiting, round.grace, timing.termGrace)
    && TargetsWithin(policy, log[round.grace], Attempts(log, r, SIGKILL)) && KillsBefore(log, r, round.killing)
    && (|| log[round.close].ListingFailed?
        || (RestDone(log, round, timing, deadline) && Overdue(log, round.close, deadline)))
  }

  /** A round that was begun and not carried out in full stopped for one of these reasons and no other. */
  ghost predicate CutShort(policy: Policy, log: seq<Step>, r: nat, round: Round, timing: Timing, deadline: nat) {
    && TermWait(log, round, timing, deadline)
    && (StopsAtTerm(policy, log, r, round, timing, deadline) || StopsAtKill(policy, log, r, round, timing, deadline))
  }

  lemma ClearLater(log: seq<Step>, log': seq<Step>, at: nat, poll: nat)
    requires at < |log| && log <= log'
    ensures ClearAt(log', at, poll) == ClearAt(log, at, poll)
  {
    assert log'[..at+1] == log[..at+1];
  }

  lemma TermWaitLater(log: seq<Step>, log': seq<Step>, round: Round, timing: Timing, deadline: nat)
    requires TermWait(log, round, timing, deadline) && log <= log'
    ensures TermWait(log', round, timing, deadline)
  {
    hide Waited;
    WaitedLater(log, log', round.waiting, round.grace, Until(log[round.waiting].now, timing.termGrace, deadline), timing.poll);
  }

  lemma KillWaitLater(log: seq<Step>, log': seq<Step>, round: Round, timing: Timing, deadline: nat)
    requires KillWait(log, round, timing, deadline) && log <= log'
    ensures KillWait(log', round, timing, deadline)
  {
    hide Waited;
    WaitedLater(log, log', round.killing, round.close, Until(log[round.killing].now, timing.killGrace, deadline), timing.poll);
  }

  lemma TermWaitSpans(log: seq<Step>, round: Round, timing: Timing, deadline: nat)
    requires TermWait(log, round, timing, deadline)
    ensures round.open < round.waiting < round.grace < |log| && IsLook(log[round.grace])
  {
  }

  lemma FullyPacedLater(log: seq<Step>, log': seq<Step>, round: Round, timing: Timing, deadline: nat)
    requires FullyPaced(log, round, timing, deadline) && log <= log'
    ensures FullyPaced(log', round, timing, deadline)
  {
    TermWaitLater(log, log', round, timing, deadline);
    KillWaitLater(log, log', round, timing, deadline);
    TermWaitSpans(log, round, timing, deadline);
    hide TermWait, KillWait;
    ClearLater(log, log', round.grace, timing.poll);
  }

  lemma BeginsLater(log: seq<Step>, log': seq<Step>, round: Round, timing: Timing, deadline: nat)
    requires Begins(log, round, timing, deadline) && log <= log'
    ensures Begins(log', round, timing, deadline)
  {
    hide ClearAt;
    ClearLater(log, log', round.open, timing.poll);
    var c :| round.open < c < round.waiting && c < |log| && log[c].Timed? && log[c].now < deadline;
    assert log'[c] == log[c];
  }

  lemma OverdueLater(log: seq<Step>, log': seq<Step>, from: nat, deadline: nat)
    requires Overdue(log, from, deadline) && log <= log'
    ensures Overdue(log', from, deadline)
  {
    var c :| from < c < |log| && log[c].Timed? && log[c].now >= deadline;
    assert log'[c] == log[c];
  }

  /** Only clock reads may follow. */
  ghost predicate OnlyTimedAdded(log: seq<Step>, log': seq<Step>) {
    log <= log' && forall i | |log| <= i < |log'| :: log'[i].Timed?
  }

  lemma NothingAfter(log: seq<Step>)
    requires log != []
    ensures OnlyTimedAfter(log, |log| - 1)
  {
  }

  lemma OnlyTimedLater(log: seq<Step>, log': seq<Step>, at: nat)
    requires OnlyTimedAfter(log, at) && OnlyTimedAdded(log, log')
    ensures OnlyTimedAfter(log', at) && log'[at] == log[at]
  {
    assert forall i | 0 <= i < |log| :: log'[i] == log[i];
  }

  lemma CutShortLater(policy: Policy, log: seq<Step>, log': seq<Step>, r: nat, round: Round, timing: Timing, deadline: nat)
    requires CutShort(policy, log, r, round, timing, deadline) && OnlyTimedAdded(log, log')
    ensures CutShort(policy, log', r, round, timing, deadline)
  {
    hide TermWait, HalfDone, RestDone, FullyPaced, Overdue, ClearAt, TargetsWithin, Attempts;
    TermWaitLater(log, log', round, timing, deadline);
    TermWaitSpans(log, round, timing, deadline);
    ClearLater(log, log', round.grace, timing.poll);
    assert forall i | |log| <= i < |log'| :: !IsAttempt(log'[i], r, SIGTERM) && !IsAttempt(log'[i], r, SIGKILL);
    if HalfDone(policy, log, r, round) {
      HalfDoneLater(policy, log, log', r, round);
    }
    if Overdue(log, round.grace, deadline) {
      OverdueLater(log, log', round.grace, deadline);
    }
    if StopsAtTerm(policy, log, r, round, timing, deadline) {
      OnlyTimedLater(log, log', round.grace);
    } else {
      FullyPacedLater(log, log', round, timing, deadline);
      OnlyTimedLater(log, log', round.close);
      KillsLater(policy, log, log', r, round);
      if RestDone(log, round, timing, deadline) && Overdue(log, round.close, deadline) {
        RestDoneLater(log, log', round, timing, deadline);
        OverdueLater(log, log', round.close, deadline);
      }
    }
  }

  /** The clock read that ends the log found the deadline passed. */
  lemma OverdueNow(log: seq<Step>, from: nat, deadline: nat)
    requires OutOfTime(log, deadline) && from + 1 < |log|
    ensures Overdue(log, from, deadline)
  {
  }

  /** A round begins with the clock read that was last when it was entered. */
  lemma RoundBegins(log: seq<Step>, log': seq<Step>, round: Round, timing: Timing, deadline: nat)
    requires InTime(log, deadline) && log <= log' && round.open + 1 < |log| <= round.waiting && !ClearAt(log, round.open, timing.poll)
    ensures Begins(log', round, timing, deadline)
  {
    hide ClearAt;
    ClearLater(log, log', round.open, timing.poll);
    assert log'[|log|-1] == log[|log|-1];
  }

  /** The first half of a round stays what it was when the clock is read again. */
  lemma HalfLater(policy: Policy, log: seq<Step>, log': seq<Step>, r: nat, round: Round, timing: Timing, deadline: nat)
    requires OnlyTimedAdded(log, log') && OnlyTimedAfter(log, round.grace)
    requires HalfDone(policy, log, r, round) && Ordered(policy, log, r, round, timing)
    requires TermWait(log, round, timing, deadline) && Begins(log, round, timing, deadline)
    ensures HalfDone(policy, log', r, round) && Ordered(policy, log', r, round, timing)
    ensures TermWait(log', round, timing, deadline) && Begins(log', round, timing, deadline)
    ensures OnlyTimedAfter(log', round.grace) && log'[round.grace] == log[round.grace]
    ensures ClearAt(log', round.grace, timing.poll) == ClearAt(log, round.grace, timing.poll)
  {
    hide HalfDone, Ordered, TermWait, Begins, ClearAt;
    HalfDoneLater(policy, log, log', r, round);
    OrderedLater(policy, log, log', r, round, timing);
    TermWaitLater(log, log', round, timing, deadline);
    BeginsLater(log, log', round, timing, deadline);
    OnlyTimedLater(log, log', round.grace);
    ClearLater(log, log', round.grace, timing.poll);
  }

  lemma HalfDoneClosed(policy: Policy, log: seq<Step>, r: nat, half: Round, killing: nat, close: nat)
    requires HalfDone(policy, log, r, half)
    ensures HalfDone(policy, log, r, half.(killing := killing, close := close))
  {
  }

  /** What the second half of a round adds to the first. */
  lemma KillsPaced(policy: Policy, log: seq<Step>, log': seq<Step>, r: nat, half: Round, killing: nat, close: nat,
                   timing: Timing, deadline: nat)
    requires TermWait(log, half, timing, deadline) && Begins(log, half, timing, deadline) && log <= log'
    requires OnlyTimedAfter(log, half.grace) && !ClearAt(log, half.grace, timing.poll)
    requires |log| <= killing < |log'| && log'[killing].Timed? && forall i | |log| <= i < killing :: log'[i].Tried?
    requires Waited(log', killing, close, Until(log'[killing].now, timing.killGrace, deadline), timing.poll)
    ensures var round := half.(killing := killing, close := close);
            Begins(log', round, timing, deadline) && FullyPaced(log', round, timing, deadline)
  {
    hide Waited, Until, ClearAt;
    var round := half.(killing := killing, close := close);
    TermWaitLater(log, log', half, timing, deadline);
    BeginsLater(log, log', half, timing, deadline);
    ClearLater(log, log', half.grace, timing.poll);
    assert forall i | 0 <= i < |log| :: log'[i] == log[i];
    assert Busy(log', half.grace, killing);
  }

  lemma KillsLater(policy: Policy, log: seq<Step>, log': seq<Step>, r: nat, round: Round)
    requires log <= log' && round.grace < |log| && TargetsWithin(policy, log[round.grace], Attempts(log, r, SIGKILL))
    requires KillsBefore(log, r, round.killing)
    requires forall i | |log| <= i < |log'| :: !IsAttempt(log'[i], r, SIGKILL)
    ensures TargetsWithin(policy, log'[round.grace], Attempts(log', r, SIGKILL)) && KillsBefore(log', r, round.killing)
  {
    hide NamesTargets;
    assert Attempts(log, r, SIGKILL) <= Attempts(log', r, SIGKILL);
    forall i | 0 <= i < |log'| && IsAttempt(log'[i], r, SIGKILL) ensures i < round.killing {
      assert i < |log| && log'[i] == log[i];
    }
  }

  // ----- a whole sweep -----

  ghost function LastClose(rounds: seq<Round>): nat {
    if rounds == [] then 1 else rounds[|rounds|-1].close
  }

  /**
   The log from its first scan on is its rounds, one after another, and nothing else: each
   begins in time on a table that is not clear, and the last one was cut short for a reason
   or the log ends with clock reads where the next one would begin.
   */
  ghost predicate Laid(policy: Policy, log: seq<Step>, rounds: seq<Round>, full: nat, timing: Timing, deadline: nat) {
    && full <= |rounds| <= full + 1 && |rounds| <= timing.rounds
    && |log| >= 2 && IsLook(log[1])
    && (rounds != [] ==> rounds[0].open == 1)
    && (forall r | 0 <= r < |rounds| :: Begins(log, rounds[r], timing, deadline))
    && (forall r | 0 <= r < full :: FullyPaced(log, rounds[r], timing, deadline))
    && if full < |rounds| then CutShort(policy, log, full, rounds[full], timing, deadline)
       else OnlyTimedAfter(log, LastClose(rounds))
  }

  lemma LaidNone(policy: Policy, log: seq<Step>, timing: Timing, deadline: nat)
    requires |log| == 2 && IsLook(log[1])
    ensures Laid(policy, log, [], 0, timing, deadline)
  {
  }

  lemma LaidQuiet(policy: Policy, log: seq<Step>, log': seq<Step>, rounds: seq<Round>, full: nat, timing: Timing, deadline: nat)
    requires Laid(policy, log, rounds, full, timing, deadline) && OnlyTimedAdded(log, log')
    ensures Laid(policy, log', rounds, full, timing, deadline)
  {
    hide Begins, FullyPaced, CutShort;
    forall r | 0 <= r < |rounds|
      ensures Begins(log', rounds[r], timing, deadline)
      ensures r < full ==> FullyPaced(log', rounds[r], timing, deadline)
    {
      BeginsLater(log, log', rounds[r], timing, deadline);
      if r < full {
        FullyPacedLater(log, log', rounds[r], timing, deadline);
      }
    }
    if full < |rounds| {
      CutShortLater(policy, log, log', full, rounds[full], timing, deadline);
    } else {
      OnlyTimedLater(log, log', LastClose(rounds));
    }
  }

  lemma LaidRound(policy: Policy, log: seq<Step>, log': seq<Step>, rounds: seq<Round>, round: Round, done: bool,
                  timing: Timing, deadline: nat)
    requires Laid(policy, log, rounds, |rounds|, timing, deadline) && log <= log' && |rounds| < timing.rounds
    requires round.open == LastClose(rounds) && Begins(log', round, timing, deadline)
    requires done ==> FullyPaced(log', round, timing, deadline) && OnlyTimedAfter(log', round.close)
    requires !done ==> CutShort(policy, log', |rounds|, round, timing, deadline)
    ensures Laid(policy, log', rounds + [round], if done then |rounds| + 1 else |rounds|, timing, deadline)
  {
    hide Begins, FullyPaced, CutShort;
    forall r | 0 <= r < |rounds|
      ensures Begins(log', rounds[r], timing, deadline) && FullyPaced(log', rounds[r], timing, deadline)
    {
      BeginsLater(log, log', rounds[r], timing, deadline);
      FullyPacedLater(log, log', rounds[r], timing, deadline);
    }
  }

  // ----- a whole group cleanup -----

  /** The wait after the group signal at `s` ended with the poll at `c`; every poll before that found members. */
  ghost predicate GroupWaited(log: seq<Step>, pgid: Pid, s: nat, c: nat, grace: nat, deadline: nat, poll: nat) {
    && s + 1 < |log| && log[s+1].Timed?
    && Waited(log, s + 1, c, Until(log[s+1].now, grace, deadline), poll)
    && forall j | s + 1 < j < c && IsLook(log[j]) :: GroupListed(log[j], pgid)
  }

  /** A group wait that is not over yet: all its polls found members. */
  ghost predicate GroupWaiting(log: seq<Step>, pgid: Pid, start: nat, until: nat, poll: nat) {
    && start < |log| && log[start].Timed? && Waiting(log, start, until, poll)
    && forall j | start < j < |log| && IsLook(log[j]) :: GroupListed(log[j], pgid)
  }

  lemma GroupWaitBegins(log: seq<Step>, pgid: Pid, until: nat, poll: nat)
    requires log != [] && log[|log|-1].Timed?
    ensures GroupWaiting(log, pgid, |log| - 1, until, poll)
  {
    WaitBegins(log, until, poll);
  }

  lemma GroupWaitLooks(log: seq<Step>, log': seq<Step>, pgid: Pid, start: nat, until: nat, poll: nat)
    requires GroupWaiting(log, pgid, start, until, poll) && log <= log' && |log'| == |log| + 3
    requires log'[|log|].Timed? && log'[|log|+1] == Paused(NapFor(poll, log'[|log|].now, until)) && IsLook(log'[|log|+2])
    ensures Waited(log', start, |log'| - 1, until, poll)
    ensures forall j | start < j < |log'| - 1 && IsLook(log'[j]) :: GroupListed(log'[j], pgid)
  {
    hide Waiting, Waited, NapFor, GroupListed;
    WaitLooks(log, log', start, until, poll);
    assert forall i | 0 <= i < |log| :: log'[i] == log[i];
  }

  lemma GroupWaitGoesOn(log: seq<Step>, log': seq<Step>, pgid: Pid, start: nat, until: nat, poll: nat)
    requires log != [] && Waited(log, start, |log| - 1, until, poll) && GroupListed(log[|log|-1], pgid)
    requires forall j | start < j < |log| - 1 && IsLook(log[j]) :: GroupListed(log[j], pgid)
    requires log <= log' && |log'| == |log| + 1 && log'[|log|].Timed? && log'[|log|].now < until
    ensures GroupWaiting(log', pgid, start, until, poll)
  {
    hide Waiting, MembersOf, ListsGroup;
    WaitGoesOn(log, log', start, until, poll);
    assert forall i | 0 <= i < |log| :: log'[i] == log[i];
  }

  /** A look at `b` allowed the signal, the signal was sent next, and the group outlived the whole wait after it. */
  ghost predicate StruckFrom(log: seq<Step>, leader: ProcessIdentity, b: nat, signal: Signal, c: nat, grace: nat, deadline: nat, poll: nat) {
    && b + 2 < |log| && Authorises(log[b], leader)
    && log[b+1].GroupSignalled? && log[b+1].pgid == leader.pid && log[b+1].groupSignal == signal
    && log[b+1].delivery != Undelivered(3)
    && GroupWaited(log, leader.pid, b + 1, c, grace, deadline, poll)
    && c + 1 < |log| && GroupListed(log[c], leader.pid)
    && log[c+1].Timed? && log[c+1].now >= Until(log[b+2].now, grace, deadline)
  }

  /** The log ends in this part: with the look, with a signal that met no group, or with the poll that ended the wait. */
  ghost predicate EndsFrom(log: seq<Step>, leader: ProcessIdentity, b: nat, signal: Signal, grace: nat, deadline: nat, poll: nat) {
    && b < |log| && log[b].Attributed? && log[b].leader == leader
    && if |log| == b + 1 then !Authorises(log[b], leader)
       else
         && Authorises(log[b], leader)
         && log[b+1].GroupSignalled? && log[b+1].pgid == leader.pid && log[b+1].groupSignal == signal
         && if |log| == b + 2 then log[b+1].delivery == Undelivered(3)
            else
              && log[b+1].delivery != Undelivered(3)
              && GroupWaited(log, leader.pid, b + 1, |log| - 1, grace, deadline, poll) && !GroupListed(log[|log|-1], leader.pid)
  }

  /** A group cleanup is a first look and then at most two parts, SIGTERM and SIGKILL, the second right after the first. */
  ghost predicate GroupLaid(log: seq<Step>, leader: ProcessIdentity, timing: Timing, deadline: nat) {
    && |log| >= 2 && log[0].Timed? && log[1].Attributed? && log[1].leader == leader
    && if |log| == 2 then !Authorises(log[1], leader)
       else
         || EndsFrom(log, leader, 2, SIGTERM, timing.termGrace, deadline, timing.poll)
         || exists c: nat :: StruckTwice(log, leader, c, timing, deadline)
  }

  /** The group outlived SIGTERM up to `c`, and then either SIGKILL's part ended the log or it outlived that too. */
  ghost predicate StruckTwice(log: seq<Step>, leader: ProcessIdentity, c: nat, timing: Timing, deadline: nat) {
    && StruckFrom(log, leader, 2, SIGTERM, c, timing.termGrace, deadline, timing.poll)
    && (|| EndsFrom(log, leader, c + 2, SIGKILL, timing.killGrace, deadline, timing.poll)
        || (|log| >= 2 && StruckFrom(log, leader, c + 2, SIGKILL, |log| - 2, timing.killGrace, deadline, timing.poll)))
  }

  lemma FailedPollIsNotListed(pgid: Pid)
    ensures !GroupListed(GroupPolled(pgid, [Listed(None)]), pgid)
  {
  }

  lemma GoneIsNotListed(step: Step, pgid: Pid)
    requires GroupGone(step, pgid)
    ensures !GroupListed(step, pgid)
  {
  }

  /** A delivered signal and the wait after it make up one part of a group cleanup. */
  lemma PartIsWhole(log: seq<Step>, leader: ProcessIdentity, b: nat, signal: Signal, at: nat, grace: nat, deadline: nat, poll: nat)
    requires b + 2 < |log| && log[b].Attributed? && log[b].leader == leader && Authorises(log[b], leader)
    requires log[b+1].GroupSignalled? && log[b+1].pgid == leader.pid && log[b+1].groupSignal == signal
    requires log[b+1].delivery != Undelivered(3) && log[b+2].Timed?
    requires Waited(log, b + 2, at, Until(log[b+2].now, grace, deadline), poll)
    requires forall j | b + 2 < j < at && IsLook(log[j]) :: GroupListed(log[j], leader.pid)
    requires at < |log|
    ensures at == |log| - 1 && !GroupListed(log[at], leader.pid) ==> EndsFrom(log, leader, b, signal, grace, deadline, poll)
    ensures at == |log| - 2 && GroupListed(log[at], leader.pid) && log[at+1].Timed?
            && log[at+1].now >= Until(log[b+2].now, grace, deadline) ==>
              && StruckFrom(log, leader, b, signal, at, grace, deadline, poll)
              && GroupGrace(log, leader.pid, signal, b + 1, at, grace, deadline)
  {
    hide GroupListed, Authorises, Paced, UnclearUpTo;
  }

  lemma StruckLater(log: seq<Step>, log': seq<Step>, leader: ProcessIdentity, b: nat, signal: Signal, c: nat,
                    grace: nat, deadline: nat, poll: nat)
    requires StruckFrom(log, leader, b, signal, c, grace, deadline, poll) && log <= log'
    ensures StruckFrom(log', leader, b, signal, c, grace, deadline, poll)
  {
    hide Waited, Until, GroupListed, Authorises;
    WaitedLater(log, log', b + 2, c, Until(log[b+2].now, grace, deadline), poll);
    assert forall i | 0 <= i < |log| :: log'[i] == log[i];
  }
}
