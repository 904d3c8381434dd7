/**
 The raw calls of a sweep can be read in one way only: they determine every scan, every
 clock read and every signal of its log. What an outcome says about the log is therefore
 a statement about the calls themselves.
 */
module CallReading {
  import opened Basics
  import opened Processes
  import opened CleanupTrace

  // ----- the reads about one process -----

  ghost predicate IsClimb(policy: Policy, parent: Pid, walk: seq<Event>, runStart: nat) {
    ReachesOlderDaemon(policy, parent, walk, runStart) || ClimbBlocked(policy, parent, walk, runStart)
  }

  /** Every read of a climb asked about the next ancestor, and all but the last passed. */
  lemma ClimbShape(policy: Policy, parent: Pid, walk: seq<Event>, runStart: nat, k: nat)
    requires IsClimb(policy, parent, walk, runStart) && k < |walk|
    ensures |walk| <= 64 && ReadsAncestor(parent, walk, k)
    ensures k < |walk| - 1 ==> OtherUser(policy, walk[k]) && walk[k].info.value.start >= runStart
  {
  }

  /** No climb continues a finished one. */
  lemma ClimbIsPrefixFree(policy: Policy, parent: Pid, w: seq<Event>, v: seq<Event>, runStart: nat)
    requires IsClimb(policy, parent, w, runStart) && IsClimb(policy, parent, v, runStart) && w <= v
    ensures w == v
  {
    var n := |w|;
    if n < |v| {
      hide IsClimb;
      ClimbShape(policy, parent, v, runStart, n);
      assert AncestorAt(parent, v, n) == AncestorAt(parent, w, n);
      if n > 0 {
        ClimbShape(policy, parent, v, runStart, n - 1);
      }
      ClimbEnds(policy, parent, w, runStart);
      assert false;
    }
  }

  /** How a finished climb ends. */
  lemma ClimbEnds(policy: Policy, parent: Pid, walk: seq<Event>, runStart: nat)
    requires IsClimb(policy, parent, walk, runStart)
    ensures var n := |walk|;
            || n == 64 || AncestorAt(parent, walk, n).raw <= 1
            || (n > 0 && (OtherUser(policy, walk[n-1]) ==> walk[n-1].info.value.start < runStart))
  {
  }

  /** No reading continues a finished one of the same pid. */
  lemma ReadingIsPrefixFree(policy: Policy, a: Reading, b: Reading)
    requires Witnessed(policy, a) && Witnessed(policy, b) && a.pid == b.pid && a.events <= b.events
    ensures a == b
  {
    hide Carries, ReachesOlderDaemon, ClimbBlocked;
    assert forall i | 0 <= i < |a.events| :: a.events[i] == b.events[i];
    if |a.events| >= 3 && a.events[1].EnvironmentRead? && a.events[1].environment.Refused? {
      var identity := ProcessIdentity(a.pid, a.events[0].info.value.start);
      assert Refuses(policy, a.events, identity) && Refuses(policy, b.events, identity);
      if WithinRun(policy, a.events, identity) {
        ClimbIsPrefixFree(policy, a.events[0].info.value.ppid, a.events[3..], b.events[3..], policy.runStart.value);
        assert a.events == a.events[..3] + a.events[3..] && b.events == b.events[..3] + b.events[3..];
      }
    }
    assert a.events == b.events;
    VerdictIsDetermined(policy, a, b);
  }

  /** A reading is cut off the calls that follow it in one way. */
  lemma ReadingIsCutOff(policy: Policy, a: Reading, b: Reading, x: seq<Event>, y: seq<Event>)
    requires Witnessed(policy, a) && Witnessed(policy, b) && a.pid == b.pid && a.events + x == b.events + y
    ensures a == b && x == y
  {
    hide Witnessed;
    var all := a.events + x;
    assert a.events == all[..|a.events|] && b.events == all[..|b.events|];
    if |a.events| <= |b.events| {
      ReadingIsPrefixFree(policy, a, b);
    } else {
      ReadingIsPrefixFree(policy, b, a);
    }
    assert x == all[|a.events|..] && y == all[|b.events|..];
  }

  lemma {:induction false} ReadingsFromTheFront(readings: seq<Reading>)
    requires readings != []
    ensures ReadingEvents(readings) == readings[0].events + ReadingEvents(readings[1..])
  {
    var n := |readings| - 1;
    if n > 0 {
      ReadingsFromTheFront(readings[..n]);
      assert readings[..n][1..] == readings[1..][..n-1];
    }
  }

  lemma {:induction false} ReadingsAreCutOff(policy: Policy, pids: seq<Pid>, a: seq<Reading>, b: seq<Reading>, x: seq<Event>, y: seq<Event>)
    requires AllWitnessed(policy, pids, a) && AllWitnessed(policy, pids, b)
    requires ReadingEvents(a) + x == ReadingEvents(b) + y
    ensures a == b && x == y
  {
    hide Witnessed, ReadingEvents;
    if pids == [] {
      NoReadings();
      assert a == [] && b == [] && ReadingEvents(a) + x == x && ReadingEvents(b) + y == y;
    } else {
      ReadingsFromTheFront(a);
      ReadingsFromTheFront(b);
      var x', y' := ReadingEvents(a[1..]) + x, ReadingEvents(b[1..]) + y;
      assert a[0].events + x' == ReadingEvents(a) + x && b[0].events + y' == ReadingEvents(b) + y;
      ReadingIsCutOff(policy, a[0], b[0], x', y');
      ReadingsAreCutOff(policy, pids[1..], a[1..], b[1..], x, y);
      assert a == [a[0]] + a[1..] && b == [b[0]] + b[1..];
    }
  }

  lemma NoReadings()
    ensures ReadingEvents([]) == []
  {
  }

  // ----- the steps of a sweep -----

  /** A call that may begin a step of a sweep. */
  ghost predicate Begins(event: Event) {
    event.Listed? || event.Pinned? || event.ClockRead? || event.Slept?
  }

  /** The calls that follow a step of a sweep. */
  ghost predicate IsRest(events: seq<Event>) {
    events == [] || Begins(events[0])
  }

  /** Two steps differ at most in what an attempt was for: its round, and its signal and start time if nothing was sent. */
  ghost predicate SameStep(a: Step, b: Step) {
    if a.Tried? && b.Tried? then
      && a.target.pid == b.target.pid && a.pin == b.pin && a.recheck == b.recheck && a.sent == b.sent
      && (a.sent.Some? ==> a.target == b.target && a.signal == b.signal)
    else a == b
  }

  lemma StepBegins(step: Step)
    requires !IsGroupStep(step)
    ensures Events(step) != [] && Begins(Events(step)[0])
  {
  }

  /** Calls made of a first one, a middle, an end and a rest, put together from the right. */
  lemma Grouped(first: Event, middle: seq<Event>, end: seq<Event>, rest: seq<Event>)
    ensures [first] + middle + end + rest == [first] + (middle + (end + rest))
  {
  }

  lemma FirstIsCutOff(e: Event, e': Event, x: seq<Event>, y: seq<Event>)
    requires [e] + x == [e'] + y
    ensures e == e' && x == y
  {
    assert ([e] + x)[0] == e && ([e'] + y)[0] == e';
    assert ([e] + x)[1..] == x && ([e'] + y)[1..] == y;
  }

  ghost function Closing(step: Step): seq<Event>
    requires step.Scanned?
  {
    if step.closed.Some? then [ClockRead(step.closed.value)] else []
  }

  lemma ScanIsCutOff(policy: Policy, a: Step, b: Step, x: seq<Event>, y: seq<Event>)
    requires a.Scanned? && b.Scanned? && StepOk(policy, a) && StepOk(policy, b)
    requires Events(a) + x == Events(b) + y
    ensures a == b && x == y
  {
    hide AllWitnessed, ReadingEvents, Empty;
    Grouped(Listed(Some(a.pids)), ReadingEvents(a.readings), Closing(a), x);
    Grouped(Listed(Some(b.pids)), ReadingEvents(b.readings), Closing(b), y);
    FirstIsCutOff(Listed(Some(a.pids)), Listed(Some(b.pids)),
                  ReadingEvents(a.readings) + (Closing(a) + x), ReadingEvents(b.readings) + (Closing(b) + y));
    ReadingsAreCutOff(policy, a.pids, a.readings, b.readings, Closing(a) + x, Closing(b) + y);
    if a.closed.Some? {
      FirstIsCutOff(ClockRead(a.closed.value), ClockRead(b.closed.value), x, y);
    } else {
      assert Closing(a) + x == x && Closing(b) + y == y;
    }
  }

  ghost function Rechecked(step: Step): seq<Event>
    requires step.Tried?
  {
    if step.recheck.Some? then step.recheck.value.events else []
  }

  ghost function Sending(step: Step): seq<Event>
    requires step.Tried?
  {
    if step.pin.Found? && step.sent.Some? then [Sent(step.pin.value, step.signal, step.sent.value)] else []
  }

  lemma AttemptIsCutOff(policy: Policy, a: Step, b: Step, x: seq<Event>, y: seq<Event>)
    requires a.Tried? && b.Tried? && StepOk(policy, a) && StepOk(policy, b)
    requires Events(a) + x == Events(b) + y && IsRest(x) && IsRest(y)
    ensures SameStep(a, b) && x == y
  {
    hide Witnessed, IsRest;
    Grouped(Pinned(a.target.pid, a.pin), Rechecked(a), Sending(a), x);
    Grouped(Pinned(b.target.pid, b.pin), Rechecked(b), Sending(b), y);
    FirstIsCutOff(Pinned(a.target.pid, a.pin), Pinned(b.target.pid, b.pin),
                  Rechecked(a) + (Sending(a) + x), Rechecked(b) + (Sending(b) + y));
    if a.pin.Found? {
      ReadingIsCutOff(policy, a.recheck.value, b.recheck.value, Sending(a) + x, Sending(b) + y);
    } else {
      NothingBefore(Sending(a) + x);
      NothingBefore(Sending(b) + y);
    }
    SendIsCutOff(Sending(a), Sending(b), x, y);
  }

  lemma NothingBefore(rest: seq<Event>)
    ensures [] + rest == rest
  {
  }

  /** What follows an attempt never looks like its send. */
  lemma SendIsCutOff(sent: seq<Event>, sent': seq<Event>, x: seq<Event>, y: seq<Event>)
    requires sent + x == sent' + y && IsRest(x) && IsRest(y)
    requires sent == [] || (|sent| == 1 && sent[0].Sent?)
    requires sent' == [] || (|sent'| == 1 && sent'[0].Sent?)
    ensures sent == sent' && x == y
  {
    assert sent == [] ==> sent + x == x;
    assert sent' == [] ==> sent' + y == y;
    assert sent != [] ==> (sent + x)[0] == sent[0] && (sent + x)[1..] == x;
    assert sent' != [] ==> (sent' + y)[0] == sent'[0] && (sent' + y)[1..] == y;
  }

  lemma StepIsCutOff(policy: Policy, a: Step, b: Step, x: seq<Event>, y: seq<Event>)
    requires !IsGroupStep(a) && !IsGroupStep(b) && StepOk(policy, a) && StepOk(policy, b)
    requires Events(a) + x == Events(b) + y && IsRest(x) && IsRest(y)
    ensures SameStep(a, b) && x == y
  {
    hide StepOk, ReadingEvents;
    assert Events(a)[0] == (Events(a) + x)[0] == (Events(b) + y)[0] == Events(b)[0];
    if a.Scanned? && b.Scanned? {
      ScanIsCutOff(policy, a, b, x, y);
    } else if a.Tried? && b.Tried? {
      AttemptIsCutOff(policy, a, b, x, y);
    } else {
      assert |Events(a)| == 1 && |Events(b)| == 1;
      assert (Events(a) + x)[1..] == x && (Events(b) + y)[1..] == y;
    }
  }

  // ----- whole logs -----

  lemma {:induction false} FlattenFromTheFront(log: seq<Step>)
    requires log != []
    ensures Flatten(log) == Events(log[0]) + Flatten(log[1..])
  {
    var n := |log| - 1;
    if n > 0 {
      FlattenFromTheFront(log[..n]);
      assert log[..n][1..] == log[1..][..n-1];
    }
  }

  lemma LogIsRest(log: seq<Step>)
    requires IsSweepLog(log)
    ensures IsRest(Flatten(log)) && (Flatten(log) == [] <==> log == [])
  {
    hide Events;
    if log != [] {
      FlattenFromTheFront(log);
      StepBegins(log[0]);
    }
  }

  ghost predicate SameLog(a: seq<Step>, b: seq<Step>) {
    |a| == |b| && forall i | 0 <= i < |a| :: SameStep(a[i], b[i])
  }

  /** The same calls are the same steps, one by one. */
  lemma {:induction false} CallsDetermineSteps(policy: Policy, a: seq<Step>, b: seq<Step>)
    requires LogOk(policy, a) && LogOk(policy, b) && IsSweepLog(a) && IsSweepLog(b)
    requires Flatten(a) == Flatten(b)
    ensures SameLog(a, b)
  {
    hide StepOk, Flatten, Events, SameStep, IsGroupStep;
    LogIsRest(a);
    LogIsRest(b);
    if a != [] {
      FlattenFromTheFront(a);
      FlattenFromTheFront(b);
      LogIsRest(a[1..]);
      LogIsRest(b[1..]);
      StepIsCutOff(policy, a[0], b[0], Flatten(a[1..]), Flatten(b[1..]));
      CallsDetermineSteps(policy, a[1..], b[1..]);
      forall i | 0 <= i < |a| ensures SameStep(a[i], b[i]) {
        if i > 0 {
          assert a[1..][i-1] == a[i] && b[1..][i-1] == b[i];
        }
      }
    }
  }

  lemma {:induction false} SameLogSameScans(policy: Policy, a: seq<Step>, b: seq<Step>)
    requires SameLog(a, b)
    ensures Scans(a) == Scans(b) && Stopped(a) == Stopped(b) && Hits(policy, a) == Hits(policy, b)
  {
    if a != [] {
      var n := |a| - 1;
      SameLogSameScans(policy, a[..n], b[..n]);
      assert a == a[..n] + [a[n]] && b == b[..n] + [b[n]];
      StoppedAppend(a[..n], a[n]);
      StoppedAppend(b[..n], b[n]);
      HitsAppend(policy, a[..n], a[n]);
      HitsAppend(policy, b[..n], b[n]);
    }
  }

  /**
   Whatever log a sweep's calls are read as, its scans, what it stopped and the protected
   processes it met are the same, and so is whether the calls confirm an empty table.
   */
  lemma CallsDetermineTheOutcome(policy: Policy, a: seq<Step>, b: seq<Step>, poll: nat)
    requires LogOk(policy, a) && LogOk(policy, b) && IsSweepLog(a) && IsSweepLog(b)
    requires Flatten(a) == Flatten(b)
    ensures Scans(a) == Scans(b) && Stopped(a) == Stopped(b) && Hits(policy, a) == Hits(policy, b)
    ensures ConfirmedEmpty(Scans(a), poll) <==> ConfirmedEmpty(Scans(b), poll)
  {
    CallsDetermineSteps(policy, a, b);
    SameLogSameScans(policy, a, b);
  }
}
