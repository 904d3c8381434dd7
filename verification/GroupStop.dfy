/**
 Stopping a child's process group and recording why the child ended, as
 `src/runner.rs` does it around `cleanup_process_group_with` and `ChildStop`.
 */
module GroupStop {
  import opened Basics
  import opened Processes

  datatype Probe = Alive | AllExited | Unknown

  /** How a wait status decodes; a Unix status is normally one of the first two. */
  datatype WaitStatus = Exit(code: int) | Killed(signal: int) | Neither

  datatype WaitAnswer = Reaped(status: WaitStatus) | StillRunning | WaitFailed

  datatype ExitReason = Returned(code: int) | Terminated(signal: int) | Cancelled

  datatype Evidence = ConfirmedExited | Unconfirmed

  datatype GraceTiming = GraceTiming(termGrace: nat, killGrace: nat, poll: nat)

  /** One call that the stop made, with its answer. */
  datatype Call =
    | Probed(answer: Probe)
    | Killing(signal: Signal, delivered: bool)
    | Waited(wait: WaitAnswer)
    | Clocked(now: nat)
    | Napped(duration: nat)

  function ReasonOf(status: WaitStatus): Option<ExitReason> {
    match status
    case Exit(code) => Some(Returned(code))
    case Killed(signal) => Some(Terminated(signal))
    case Neither => None
  }

  /** The kernel's side: every answer is an unconstrained choice. */
  class ProcessGroup {
    var trace: seq<Call>
    var now: nat

    constructor (start: nat)
      ensures trace == [] && now == start
    {
      trace, now := [], start;
    }

    method Probe() returns (answer: Probe)
      modifies this
      ensures trace == old(trace) + [Probed(answer)] && now >= old(now)
    {
      var chosen: Probe :| true;
      answer := chosen;
      Record(Probed(answer));
    }

    method Kill(signal: Signal) returns (delivered: bool)
      modifies this
      ensures trace == old(trace) + [Killing(signal, delivered)] && now >= old(now)
    {
      var chosen: bool :| true;
      delivered := chosen;
      Record(Killing(signal, delivered));
    }

    method Wait() returns (wait: WaitAnswer)
      modifies this
      ensures trace == old(trace) + [Waited(wait)] && now >= old(now)
    {
      var chosen: WaitAnswer :| true;
      wait := chosen;
      Record(Waited(wait));
    }

    method Now() returns (t: nat)
      modifies this
      ensures trace == old(trace) + [Clocked(t)] && old(now) <= t == now
    {
      var passed: nat :| true;
      now := now + passed;
      t := now;
      trace := trace + [Clocked(t)];
    }

    /** A sleep always moves the clock. */
    method Sleep(duration: nat)
      modifies this
      ensures trace == old(trace) + [Napped(duration)] && now > old(now)
    {
      now := now + duration + 1;
      Record(Napped(duration));
    }

    method Record(call: Call)
      modifies this
      ensures trace == old(trace) + [call] && now >= old(now)
    {
      var passed: nat :| true;
      now := now + passed;
      trace := trace + [call];
    }
  }

  // ----- what a trace says -----

  ghost function Signals(trace: seq<Call>): seq<Signal> {
    if trace == [] then []
    else
      var last := trace[|trace|-1];
      Signals(trace[..|trace|-1]) + if last.Killing? then [last.signal] else []
  }

  /** No signal follows a probe that found the group gone. */
  ghost predicate SparesGone(trace: seq<Call>) {
    forall i, j | 0 <= i < j < |trace| && trace[i] == Probed(AllExited) :: !trace[j].Killing?
  }

  ghost predicate SawGone(trace: seq<Call>) {
    Probed(AllExited) in trace
  }

  ghost predicate IsReap(call: Call) {
    call.Waited? && call.wait.Reaped?
  }

  ghost predicate IsDelivery(call: Call) {
    call.Killing? && call.delivered
  }

  /** The child was reaped at `r`, and no group signal had been delivered before. */
  ghost predicate EarlyReap(trace: seq<Call>, r: nat) {
    && r < |trace| && IsReap(trace[r])
    && forall i | 0 <= i < r :: !IsDelivery(trace[i])
  }

  ghost predicate ReapedOnce(trace: seq<Call>) {
    forall i, j | 0 <= i < j < |trace| :: !(IsReap(trace[i]) && IsReap(trace[j]))
  }

  /** The fields say what the trace says. */
  ghost predicate Remembers(trace: seq<Call>, reaped: bool, signalled: bool, natural: Option<ExitReason>) {
    && ReapedOnce(trace)
    && (reaped <==> exists i :: 0 <= i < |trace| && IsReap(trace[i]))
    && (signalled <==> exists i :: 0 <= i < |trace| && IsDelivery(trace[i]))
    && (natural.Some? ==> exists r: nat :: EarlyReap(trace, r) && natural == ReasonOf(trace[r].wait.status))
    && (forall r: nat :: EarlyReap(trace, r) ==> natural == ReasonOf(trace[r].wait.status))
  }

  /** Any call but a second reap keeps the fields in step. */
  lemma RemembersNext(trace: seq<Call>, call: Call, reaped: bool, signalled: bool, natural: Option<ExitReason>)
    requires Remembers(trace, reaped, signalled, natural)
    requires IsReap(call) ==> !reaped
    ensures Remembers(trace + [call], reaped || IsReap(call), signalled || IsDelivery(call),
                      if IsReap(call) && !signalled then ReasonOf(call.wait.status) else natural)
  {
    var all := trace + [call];
    assert all[|trace|] == call;
    assert forall i | 0 <= i < |trace| :: all[i] == trace[i];
    forall r: nat | r < |trace| ensures EarlyReap(all, r) <==> EarlyReap(trace, r) {
    }
  }

  lemma SignalsNext(trace: seq<Call>, call: Call)
    ensures Signals(trace + [call]) == Signals(trace) + if call.Killing? then [call.signal] else []
    ensures SparesGone(trace) && (call.Killing? ==> !SawGone(trace)) ==> SparesGone(trace + [call])
    ensures SawGone(trace + [call]) <==> SawGone(trace) || call == Probed(AllExited)
  {
    assert (trace + [call])[..|trace|] == trace;
  }

  // ----- what a stop does, call by call -----

  /** A look at the group: a probe, with a wait for the child before it or not. */
  ghost predicate IsLook(calls: seq<Call>) {
    1 <= |calls| <= 2 && calls[|calls|-1].Probed? && (|calls| == 2 ==> calls[0].Waited?)
  }

  /** What a look answered. */
  ghost predicate Answers(calls: seq<Call>, answer: Probe) {
    IsLook(calls) && calls[|calls|-1].answer == answer
  }

  /** A nap lasts a poll, or what is left until `until` if that is less. */
  ghost function NapFor(poll: nat, now: nat, until: nat): nat {
    if now >= until then 0 else if until - now <= poll then until - now else poll
  }

  /** One turn of polling: the clock in time, a look that found something, the clock, and a nap. */
  ghost predicate IsTurn(calls: seq<Call>, until: nat, poll: nat) {
    var n := |calls|;
    && n >= 4 && calls[0].Clocked? && calls[0].now < until
    && IsLook(calls[1..n-2]) && !Answers(calls[1..n-2], AllExited)
    && calls[n-2].Clocked? && calls[n-1] == Napped(NapFor(poll, calls[n-2].now, until))
  }

  ghost predicate Turns(calls: seq<Call>, until: nat, poll: nat)
    decreases |calls|
  {
    calls == [] || exists k: nat :: k < |calls| && Turns(calls[..k], until, poll) && IsTurn(calls[k..], until, poll)
  }

  /** Turns of polling, then a look in time that found the group gone, or a clock read that found the time used up. */
  ghost predicate Awaited(calls: seq<Call>, until: nat, poll: nat, exited: bool) {
    exists k: nat :: k < |calls| && Turns(calls[..k], until, poll) && calls[k].Clocked?
      && if exited then calls[k].now < until && Answers(calls[k+1..], AllExited) else calls[k].now >= until && k + 1 == |calls|
  }

  /** A signal, with a wait for the child before it or not, and the polling of its grace. */
  ghost predicate Struck(calls: seq<Call>, signal: Signal, grace: nat, poll: nat, exited: bool) {
    exists w: nat :: w <= 1 && w + 1 < |calls| && (w == 1 ==> calls[0].Waited?)
      && calls[w].Killing? && calls[w].signal == signal && calls[w+1].Clocked?
      && Awaited(calls[w+2..], calls[w+1].now + grace, poll, exited)
  }

  /** The parts of a cleanup, in order. */
  datatype Parts = Parts(first: seq<Call>, term: seq<Call>, second: seq<Call>, kill: seq<Call>, last: seq<Call>)

  /** These parts are all the calls, each is what the one before it calls for, and the evidence is what they proved. */
  ghost predicate Plays(trace: seq<Call>, timing: GraceTiming, evidence: Evidence, parts: Parts) {
    && trace == parts.first + parts.term + parts.second + parts.kill + parts.last
    && IsLook(parts.first)
    && if Answers(parts.first, AllExited) then
         evidence == ConfirmedExited && parts.term == parts.second == parts.kill == parts.last == []
       else if Struck(parts.term, SIGTERM, timing.termGrace, timing.poll, true) then
         evidence == ConfirmedExited && parts.second == parts.kill == parts.last == []
       else
         && Struck(parts.term, SIGTERM, timing.termGrace, timing.poll, false) && IsLook(parts.second)
         && if Answers(parts.second, AllExited) then
              && parts.kill == [] && IsLook(parts.last)
              && evidence == if Answers(parts.last, AllExited) then ConfirmedExited else Unconfirmed
            else if Struck(parts.kill, SIGKILL, timing.killGrace, timing.poll, true) then
              evidence == ConfirmedExited && parts.last == []
            else
              && Struck(parts.kill, SIGKILL, timing.killGrace, timing.poll, false)
              && IsLook(parts.last) && evidence == Unconfirmed
  }

  ghost predicate PlaysOut(trace: seq<Call>, timing: GraceTiming, evidence: Evidence) {
    exists parts :: Plays(trace, timing, evidence, parts)
  }

  lemma NoTurns(until: nat, poll: nat)
    ensures Turns([], until, poll)
  {
  }

  lemma FoundSomething(look: seq<Call>, answer: Probe)
    requires Answers(look, answer) && answer != AllExited
    ensures IsLook(look) && !Answers(look, AllExited)
  {
  }

  lemma TurnsAppend(calls: seq<Call>, turn: seq<Call>, until: nat, poll: nat)
    requires Turns(calls, until, poll) && IsTurn(turn, until, poll)
    ensures Turns(calls + turn, until, poll)
  {
    var all := calls + turn;
    assert all[..|calls|] == calls && all[|calls|..] == turn;
  }

  /** A wait ends with the probe that settled it, or with the clock read that did. */
  lemma AwaitedEnds(calls: seq<Call>, until: nat, poll: nat, exited: bool)
    requires Awaited(calls, until, poll, exited)
    ensures calls != [] && if exited then calls[|calls|-1].Probed? else calls[|calls|-1].Clocked?
  {
    hide Turns;
    var k: nat :| k < |calls| && Turns(calls[..k], until, poll) && calls[k].Clocked?
      && if exited then calls[k].now < until && Answers(calls[k+1..], AllExited) else calls[k].now >= until && k + 1 == |calls|;
    if exited {
      var look := calls[k+1..];
      assert look[|look|-1] == calls[|calls|-1];
    }
  }

  lemma AwaitedOneWay(calls: seq<Call>, until: nat, poll: nat)
    requires Awaited(calls, until, poll, false)
    ensures !Awaited(calls, until, poll, true)
  {
    hide Awaited;
    AwaitedEnds(calls, until, poll, false);
    if Awaited(calls, until, poll, true) {
      AwaitedEnds(calls, until, poll, true);
      assert false;
    }
  }

  lemma StruckOneWay(calls: seq<Call>, signal: Signal, grace: nat, poll: nat)
    requires Struck(calls, signal, grace, poll, false)
    ensures !Struck(calls, signal, grace, poll, true)
  {
    hide Awaited;
    forall w: nat | w <= 1 && w + 1 < |calls| && (w == 1 ==> calls[0].Waited?) && calls[w].Killing? && calls[w+1].Clocked?
      ensures !(Awaited(calls[w+2..], calls[w+1].now + grace, poll, false) && Awaited(calls[w+2..], calls[w+1].now + grace, poll, true))
    {
      if Awaited(calls[w+2..], calls[w+1].now + grace, poll, false) {
        AwaitedOneWay(calls[w+2..], calls[w+1].now + grace, poll);
      }
    }
  }

  // How parts are put together.

  lemma Rejoins(before: seq<Call>, after: seq<Call>)
    requires before <= after
    ensures before + after[|before|..] == after
  {
  }

  lemma BuildsTurn(t: nat, look: seq<Call>, u: nat, until: nat, poll: nat)
    requires t < until && IsLook(look) && !Answers(look, AllExited)
    ensures IsTurn([Clocked(t)] + look + [Clocked(u), Napped(NapFor(poll, u, until))], until, poll)
  {
    var turn := [Clocked(t)] + look + [Clocked(u), Napped(NapFor(poll, u, until))];
    assert turn[1..|turn|-2] == look;
  }

  lemma AwaitedGone(turns: seq<Call>, t: nat, look: seq<Call>, until: nat, poll: nat)
    requires Turns(turns, until, poll) && t < until && Answers(look, AllExited)
    ensures Awaited(turns + ([Clocked(t)] + look), until, poll, true)
  {
    hide Turns, Answers;
    var calls := turns + ([Clocked(t)] + look);
    assert calls[..|turns|] == turns && calls[|turns|] == Clocked(t) && calls[|turns|+1..] == look;
  }

  lemma AwaitedOut(turns: seq<Call>, t: nat, until: nat, poll: nat)
    requires Turns(turns, until, poll) && t >= until
    ensures Awaited(turns + [Clocked(t)], until, poll, false)
  {
    hide Turns;
    var calls := turns + [Clocked(t)];
    assert calls[..|turns|] == turns && calls[|turns|] == Clocked(t);
  }

  ghost predicate IsStrike(calls: seq<Call>, signal: Signal) {
    1 <= |calls| <= 2 && calls[|calls|-1].Killing? && calls[|calls|-1].signal == signal && (|calls| == 2 ==> calls[0].Waited?)
  }

  lemma BuildsStruck(strike: seq<Call>, t: nat, calls: seq<Call>, signal: Signal, grace: nat, poll: nat, exited: bool)
    requires IsStrike(strike, signal) && Awaited(calls, t + grace, poll, exited)
    ensures Struck(strike + [Clocked(t)] + calls, signal, grace, poll, exited)
  {
    hide Awaited;
    var all, w := strike + [Clocked(t)] + calls, |strike| - 1;
    assert all[w] == strike[w] && all[w+1] == Clocked(t) && all[w+2..] == calls;
    assert w == 1 ==> all[0] == strike[0];
  }

  ghost predicate NoReap(trace: seq<Call>) {
    forall i | 0 <= i < |trace| :: !IsReap(trace[i])
  }

  /** The child is waited for right before every probe and signal until it is reaped, and never after. */
  ghost predicate ReapsFirst(trace: seq<Call>, tracked: bool) {
    && (forall i | 0 <= i < |trace| && trace[i].Waited? :: tracked && NoReap(trace[..i]))
    && (forall i | 0 <= i < |trace| && (trace[i].Probed? || trace[i].Killing?) && tracked && NoReap(trace[..i]) ::
          i > 0 && trace[i-1].Waited?)
  }

  lemma NoReapNext(trace: seq<Call>, call: Call)
    ensures NoReap(trace + [call]) <==> NoReap(trace) && !IsReap(call)
  {
    assert (trace + [call])[|trace|] == call;
    assert forall i | 0 <= i < |trace| :: (trace + [call])[i] == trace[i];
  }

  lemma NotReaped(trace: seq<Call>, reaped: bool, signalled: bool, natural: Option<ExitReason>)
    requires Remembers(trace, reaped, signalled, natural)
    ensures reaped <==> !NoReap(trace)
  {
  }

  lemma ReapsFirstNext(trace: seq<Call>, tracked: bool, call: Call)
    requires ReapsFirst(trace, tracked)
    requires call.Waited? ==> tracked && NoReap(trace)
    requires (call.Probed? || call.Killing?) && tracked && NoReap(trace) ==> trace != [] && trace[|trace|-1].Waited?
    ensures ReapsFirst(trace + [call], tracked)
    ensures NoReap(trace + [call]) <==> NoReap(trace) && !IsReap(call)
  {
    NoReapNext(trace, call);
    hide NoReap;
    var all := trace + [call];
    assert all[..|trace|] == trace;
    forall i | 0 <= i < |trace| ensures all[..i] == trace[..i] && all[i] == trace[i] {
    }
  }

  class ChildStop {
    const group: ProcessGroup
    /** Without a child to reap, only the group is stopped. */
    const tracked: bool
    var reaped: bool
    var signalled: bool
    var natural: Option<ExitReason>

    constructor (group: ProcessGroup, tracked: bool)
      requires group.trace == []
      ensures this.group == group && this.tracked == tracked && Valid()
    {
      this.group, this.tracked := group, tracked;
      reaped, signalled, natural := false, false, None;
    }

    ghost predicate Valid()
      reads this, group
    {
      && ReapsFirst(group.trace, tracked)
      && if tracked then Remembers(group.trace, reaped, signalled, natural)
         else !reaped && !signalled && natural == None && NoReap(group.trace)
    }

    method Reap()
      requires Valid()
      modifies this, group
      ensures Valid() && group.now >= old(group.now)
      ensures Quietly(old(group.trace), group.trace)
      ensures |group.trace| <= |old(group.trace)| + 1
      ensures tracked && NoReap(group.trace) ==> group.trace != [] && group.trace[|group.trace|-1].Waited?
    {
      hide Remembers, Signals, SparesGone, SawGone, ReapsFirst, NoReap;
      if tracked {
        NotReaped(group.trace, reaped, signalled, natural);
      }
      if !tracked || reaped {
        return;
      }
      var wait := group.Wait();
      ReapsFirstNext(old(group.trace), true, Waited(wait));
      RemembersNext(old(group.trace), Waited(wait), reaped, signalled, natural);
      SignalsNext(old(group.trace), Waited(wait));
      if wait.Reaped? {
        reaped := true;
        if !signalled {
          natural := ReasonOf(wait.status);
        }
      }
    }

    /** Reap first: a child that ended on its own before the signal keeps its own reason. */
    method Signal(signal: Signal)
      requires Valid() && SparesGone(group.trace) && !SawGone(group.trace)
      modifies this, group
      ensures Valid() && group.now >= old(group.now)
      ensures SparesGone(group.trace) && !SawGone(group.trace)
      ensures Signals(group.trace) == Signals(old(group.trace)) + [signal]
      ensures old(group.trace) < group.trace && group.trace[|group.trace|-1].Killing? && group.trace[|group.trace|-1].signal == signal
      ensures IsStrike(group.trace[|old(group.trace)|..], signal)
    {
      hide Remembers, Signals, SparesGone, SawGone, ReapsFirst, NoReap;
      Reap();
      ghost var before := group.trace;
      var delivered := group.Kill(signal);
      ReapsFirstNext(before, tracked, Killing(signal, delivered));
      SignalsNext(before, Killing(signal, delivered));
      if tracked {
        RemembersNext(before, Killing(signal, delivered), reaped, signalled, natural);
        if delivered {
          signalled := true;
        }
      }
    }

    /** Reap, then probe the group. */
    method Look() returns (answer: Probe)
      requires Valid()
      modifies this, group
      ensures Valid() && group.now >= old(group.now)
      ensures Looked(old(group.trace), group.trace, answer)
      ensures Answers(group.trace[|old(group.trace)|..], answer)
    {
      hide Remembers, Signals, SparesGone, SawGone, ReapsFirst, NoReap;
      Reap();
      ghost var before := group.trace;
      answer := group.Probe();
      ReapsFirstNext(before, tracked, Probed(answer));
      SignalsNext(before, Probed(answer));
      if tracked {
        RemembersNext(before, Probed(answer), reaped, signalled, natural);
      }
    }
  
    method Clock() returns (t: nat)
      requires Valid()
      modifies group
      ensures Valid() && old(group.now) <= t == group.now
      ensures group.trace == old(group.trace) + [Clocked(t)] && Unsignalled(old(group.trace), group.trace)
    {
      hide Remembers, Signals, SparesGone, SawGone, ReapsFirst, NoReap;
      t := group.Now();
      SignalsNext(old(group.trace), Clocked(t));
      ReapsFirstNext(old(group.trace), tracked, Clocked(t));
      if tracked {
        RemembersNext(old(group.trace), Clocked(t), reaped, signalled, natural);
      }
    }

    method Nap(duration: nat)
      requires Valid()
      modifies group
      ensures Valid() && old(group.now) < group.now
      ensures group.trace == old(group.trace) + [Napped(duration)] && Unsignalled(old(group.trace), group.trace)
    {
      hide Remembers, Signals, SparesGone, SawGone, ReapsFirst, NoReap;
      group.Sleep(duration);
      SignalsNext(old(group.trace), Napped(duration));
      ReapsFirstNext(old(group.trace), tracked, Napped(duration));
      if tracked {
        RemembersNext(old(group.trace), Napped(duration), reaped, signalled, natural);
      }
    }

    /** Poll until the group is gone or `deadline` passes. */
    method AwaitExit(deadline: nat, poll: nat) returns (exited: bool)
      requires Valid() && SparesGone(group.trace) && !SawGone(group.trace)
      modifies this, group
      ensures Valid() && group.now >= old(group.now)
      ensures old(group.trace) <= group.trace && SparesGone(group.trace)
      ensures Signals(group.trace) == Signals(old(group.trace))
      ensures if exited then ConfirmedBy(group.trace, deadline) else !SawGone(group.trace) && Expired(old(group.trace), group.trace, deadline)
      ensures Awaited(group.trace[|old(group.trace)|..], deadline, poll, exited)
    {
      hide Remembers, Signals, SparesGone, SawGone, ReapsFirst, NoReap, Turns, Awaited, IsTurn, Answers, Valid;
      ghost var n := |group.trace|;
      NoTurns(deadline, poll);
      assert group.trace[n..] == [];
      while true
        invariant Valid() && group.now >= old(group.now)
        invariant old(group.trace) <= group.trace && SparesGone(group.trace) && !SawGone(group.trace)
        invariant Signals(group.trace) == Signals(old(group.trace))
        invariant Turns(group.trace[n..], deadline, poll)
        decreases if group.now < deadline then deadline - group.now else 0
      {
        ghost var turns := group.trace[n..];
        var t := Clock();
        ghost var before := group.trace;
        if deadline <= t {
          assert before[n..] == turns + [Clocked(t)];
          AwaitedOut(turns, t, deadline, poll);
          return false;
        }
        var answer := Look();
        ghost var look := group.trace[|before|..];
        assert group.trace[n..] == turns + ([Clocked(t)] + look);
        if answer == AllExited {
          assert group.trace[|before|-1] == Clocked(t);
          AwaitedGone(turns, t, look, deadline, poll);
          return true;
        }
        FoundSomething(look, answer);
        var left := Clock();
        Nap(if deadline <= left then 0 else if poll < deadline - left then poll else deadline - left);
        BuildsTurn(t, look, left, deadline, poll);
        ghost var turn := [Clocked(t)] + look + [Clocked(left), Napped(NapFor(poll, left, deadline))];
        TurnsAppend(turns, turn, deadline, poll);
        assert group.trace[n..] == turns + turn;
      }
    }

    /** Signal the group and give it a grace to disappear; `at` is where the signal stands in the trace. */
    method Strike(signal: Signal, grace: nat, poll: nat) returns (exited: bool, ghost at: nat)
      requires Valid() && SparesGone(group.trace) && !SawGone(group.trace)
      modifies this, group
      ensures Valid() && SparesGone(group.trace)
      ensures Signals(group.trace) == Signals(old(group.trace)) + [signal]
      ensures StruckAt(group.trace, signal, at) && old(group.trace) <= group.trace[..at]
      ensures if exited then ConfirmedBy(group.trace, group.trace[at+1].now + grace)
              else !SawGone(group.trace) && GraceRan(group.trace, signal, grace)
      ensures old(group.trace) <= group.trace && Struck(group.trace[|old(group.trace)|..], signal, grace, poll, exited)
    {
      hide Remembers, Signals, SparesGone, SawGone, ConfirmedBy, GraceRan, ReapsFirst, NoReap, Awaited, Struck, IsStrike, Valid;
      ghost var n := |group.trace|;
      Signal(signal);
      ghost var sent := group.trace;
      at := |sent| - 1;
      var struck := Clock();
      exited := AwaitExit(struck + grace, poll);
      assert group.trace[|sent|] == Clocked(struck) && group.trace[at] == sent[at];
      assert group.trace[..at] == sent[..at];
      BuildsStruck(sent[n..], struck, group.trace[|sent|+1..], signal, grace, poll, exited);
      assert group.trace[n..] == sent[n..] + [Clocked(struck)] + group.trace[|sent|+1..];
      if !exited {
        GraceSpent(sent, struck, group.trace, signal, grace);
      }
    }

    /** Terminate the remaining members of the group and report what the probes proved. */
    method CleanupGroup(timing: GraceTiming) returns (evidence: Evidence)
      requires Valid() && group.trace == []
      modifies this, group
      ensures Valid() && Cleaned(group.trace, timing, evidence)
    {
      hide Remembers, Signals, SparesGone, SawGone, ConfirmedBy, GraceRan, ReapsFirst, NoReap, Struck, Answers, Valid, PlaysOut,
           IsLook;
      NothingSent();
      var answer := Look();
      ghost var first := group.trace;
      assert group.trace[0..] == first;
      if answer == AllExited {
        PlaysFirst(first, timing);
        return ConfirmedExited;
      }
      FoundSomething(first, answer);
      var exited;
      ghost var at;
      exited, at := Strike(SIGTERM, timing.termGrace, timing.poll);
      ghost var termed := group.trace;
      ghost var term := termed[|first|..];
      Rejoins(first, termed);
      if exited {
        ConfirmedLast(group.trace, group.trace[at+1].now + timing.termGrace);
        PlaysTerm(first, term, timing);
        return ConfirmedExited;
      }
      answer := Look();
      ghost var looked := group.trace;
      ghost var second := looked[|termed|..];
      Rejoins(termed, looked);
      if answer == AllExited {
        // The group went between the last poll and this look; one more look must still find it gone.
        answer := Look();
        GraceRanLater(termed, group.trace, SIGTERM, timing.termGrace);
        evidence := if answer == AllExited then ConfirmedExited else Unconfirmed;
        PlaysGone(first, term, second, group.trace[|looked|..], timing, answer);
        Rejoins(looked, group.trace);
        return evidence;
      }
      FoundSomething(second, answer);
      exited, at := Strike(SIGKILL, timing.killGrace, timing.poll);
      ghost var killed := group.trace;
      ghost var kill := killed[|looked|..];
      Rejoins(looked, killed);
      GraceRanLater(termed, group.trace[..at], SIGTERM, timing.termGrace);
      if exited {
        ConfirmedLast(group.trace, group.trace[at+1].now + timing.killGrace);
        assert KilledAt(group.trace, at, timing, ConfirmedExited);
        PlaysKill(first, term, second, kill, timing);
        return ConfirmedExited;
      }
      answer := Look();
      GraceRanLater(killed, group.trace, SIGKILL, timing.killGrace);
      assert group.trace[..at] == killed[..at];
      assert KilledAt(group.trace, at, timing, Unconfirmed);
      PlaysAll(first, term, second, kill, group.trace[|killed|..], timing, answer);
      Rejoins(killed, group.trace);
      evidence := Unconfirmed;
    }
  }

  lemma PlaysFirst(first: seq<Call>, timing: GraceTiming)
    requires Answers(first, AllExited)
    ensures PlaysOut(first, timing, ConfirmedExited)
  {
    assert first == first + [] + [] + [] + [];
    assert Plays(first, timing, ConfirmedExited, Parts(first, [], [], [], []));
  }

  lemma PlaysTerm(first: seq<Call>, term: seq<Call>, timing: GraceTiming)
    requires IsLook(first) && !Answers(first, AllExited)
    requires Struck(term, SIGTERM, timing.termGrace, timing.poll, true)
    ensures PlaysOut(first + term, timing, ConfirmedExited)
  {
    hide Struck;
    assert first + term == first + term + [] + [] + [];
    assert Plays(first + term, timing, ConfirmedExited, Parts(first, term, [], [], []));
  }

  lemma PlaysGone(first: seq<Call>, term: seq<Call>, second: seq<Call>, last: seq<Call>, timing: GraceTiming, answer: Probe)
    requires IsLook(first) && !Answers(first, AllExited)
    requires Struck(term, SIGTERM, timing.termGrace, timing.poll, false)
    requires Answers(second, AllExited) && Answers(last, answer)
    ensures PlaysOut(first + term + second + last, timing, if answer == AllExited then ConfirmedExited else Unconfirmed)
  {
    StruckOneWay(term, SIGTERM, timing.termGrace, timing.poll);
    hide Struck;
    var all := first + term + second + last;
    assert all == first + term + second + [] + last;
    assert Plays(all, timing, if answer == AllExited then ConfirmedExited else Unconfirmed, Parts(first, term, second, [], last));
  }

  lemma PlaysKill(first: seq<Call>, term: seq<Call>, second: seq<Call>, kill: seq<Call>, timing: GraceTiming)
    requires IsLook(first) && !Answers(first, AllExited) && IsLook(second) && !Answers(second, AllExited)
    requires Struck(term, SIGTERM, timing.termGrace, timing.poll, false)
    requires Struck(kill, SIGKILL, timing.killGrace, timing.poll, true)
    ensures PlaysOut(first + term + second + kill, timing, ConfirmedExited)
  {
    StruckOneWay(term, SIGTERM, timing.termGrace, timing.poll);
    hide Struck;
    var all := first + term + second + kill;
    assert all == first + term + second + kill + [];
    assert Plays(all, timing, ConfirmedExited, Parts(first, term, second, kill, []));
  }

  lemma PlaysAll(first: seq<Call>, term: seq<Call>, second: seq<Call>, kill: seq<Call>, last: seq<Call>, timing: GraceTiming,
                 answer: Probe)
    requires IsLook(first) && !Answers(first, AllExited) && IsLook(second) && !Answers(second, AllExited)
    requires Struck(term, SIGTERM, timing.termGrace, timing.poll, false)
    requires Struck(kill, SIGKILL, timing.killGrace, timing.poll, false) && Answers(last, answer)
    ensures PlaysOut(first + term + second + kill + last, timing, Unconfirmed)
  {
    StruckOneWay(term, SIGTERM, timing.termGrace, timing.poll);
    StruckOneWay(kill, SIGKILL, timing.killGrace, timing.poll);
    hide Struck;
    assert Plays(first + term + second + kill + last, timing, Unconfirmed, Parts(first, term, second, kill, last));
  }

  lemma NothingSent()
    ensures Signals([]) == [] && SparesGone([]) && !SawGone([])
  {
  }

  /** Clock reads and sleeps change nothing a stop depends on. */
  ghost predicate Unsignalled(before: seq<Call>, after: seq<Call>) {
    && Signals(after) == Signals(before) && (SparesGone(before) ==> SparesGone(after))
    && (SawGone(after) <==> SawGone(before))
  }

  /** The last call found the group gone, after a clock read before `deadline` and nothing but a reap in between. */
  ghost predicate ConfirmedBy(trace: seq<Call>, deadline: nat) {
    && trace != [] && trace[|trace|-1] == Probed(AllExited)
    && exists c | 0 <= c < |trace| - 1 ::
         trace[c].Clocked? && trace[c].now < deadline && forall j | c < j < |trace| - 1 :: trace[j].Waited?
  }

  lemma ConfirmedLast(trace: seq<Call>, deadline: nat)
    requires ConfirmedBy(trace, deadline)
    ensures trace != [] && trace[|trace|-1] == Probed(AllExited)
  {
  }

  /** `signal` was attempted at `k`, and the clock read next started its grace. */
  ghost predicate StruckAt(trace: seq<Call>, signal: Signal, k: nat) {
    k + 1 < |trace| && trace[k].Killing? && trace[k].signal == signal && trace[k+1].Clocked?
  }

  /** The clock was last read, at or after `deadline`, after `before`. */
  ghost predicate Expired(before: seq<Call>, trace: seq<Call>, deadline: nat) {
    before < trace && trace[|trace|-1].Clocked? && trace[|trace|-1].now >= deadline
  }

  /** `signal` was attempted at `k`, and the clock read at `c` found that its grace had run out. */
  ghost predicate RanOut(trace: seq<Call>, signal: Signal, grace: nat, k: nat, c: nat) {
    StruckAt(trace, signal, k) && k + 1 < c < |trace| && trace[c].Clocked? && trace[c].now >= trace[k+1].now + grace
  }

  ghost predicate GraceRan(trace: seq<Call>, signal: Signal, grace: nat) {
    exists k: nat, c: nat :: RanOut(trace, signal, grace, k, c)
  }

  lemma GraceSpent(sent: seq<Call>, clock: nat, trace: seq<Call>, signal: Signal, grace: nat)
    requires sent != [] && sent[|sent|-1].Killing? && sent[|sent|-1].signal == signal
    requires Expired(sent + [Clocked(clock)], trace, clock + grace)
    ensures GraceRan(trace, signal, grace)
  {
    assert trace[|sent|] == (sent + [Clocked(clock)])[|sent|];
    assert trace[|sent|-1] == (sent + [Clocked(clock)])[|sent|-1];
    assert RanOut(trace, signal, grace, |sent| - 1, |trace| - 1);
  }

  lemma GraceRanLater(trace: seq<Call>, trace': seq<Call>, signal: Signal, grace: nat)
    requires GraceRan(trace, signal, grace) && trace <= trace'
    ensures GraceRan(trace', signal, grace)
  {
    var k: nat, c: nat :| RanOut(trace, signal, grace, k, c);
    assert RanOut(trace', signal, grace, k, c);
  }

  /** SIGKILL came at `k`, only after the grace of SIGTERM, and had its own grace unless a probe in it settled things. */
  ghost predicate KilledAt(trace: seq<Call>, k: nat, timing: GraceTiming, evidence: Evidence) {
    && StruckAt(trace, SIGKILL, k) && GraceRan(trace[..k], SIGTERM, timing.termGrace)
    && match evidence
       case ConfirmedExited => ConfirmedBy(trace, trace[k+1].now + timing.killGrace)
       case Unconfirmed => GraceRan(trace, SIGKILL, timing.killGrace)
  }

  /** What a finished group cleanup guarantees. */
  ghost predicate Cleaned(trace: seq<Call>, timing: GraceTiming, evidence: Evidence) {
    && Signals(trace) <= [SIGTERM, SIGKILL]
    && SparesGone(trace) && PlaysOut(trace, timing, evidence)
    && trace != [] && trace[|trace|-1].Probed?
    && (|Signals(trace)| == 2 ==> exists k: nat :: KilledAt(trace, k, timing, evidence))
    && match evidence
       case ConfirmedExited => trace[|trace|-1] == Probed(AllExited)
       case Unconfirmed =>
         || Signals(trace) == [SIGTERM, SIGKILL]
         || (Signals(trace) == [SIGTERM] && GraceRan(trace, SIGTERM, timing.termGrace)
             && SawGone(trace) && trace[|trace|-1] != Probed(AllExited))
  }

  /** SIGKILL is spared without confirmation exactly when SIGTERM alone was sent and the last look found the group again. */
  lemma UnconfirmedWithoutKill(trace: seq<Call>, timing: GraceTiming, evidence: Evidence)
    requires Cleaned(trace, timing, evidence)
    ensures evidence == Unconfirmed && |Signals(trace)| < 2 <==>
            Signals(trace) == [SIGTERM] && trace[|trace|-1] != Probed(AllExited)
    ensures evidence == Unconfirmed && |Signals(trace)| < 2 ==>
              SawGone(trace) && GraceRan(trace, SIGTERM, timing.termGrace)
  {
    hide GraceRan, SawGone, SparesGone, KilledAt, PlaysOut;
  }

  /** Only waits were added. */
  ghost predicate Quietly(before: seq<Call>, after: seq<Call>) {
    && before <= after
    && (forall i | |before| <= i < |after| :: after[i].Waited?)
    && Signals(after) == Signals(before) && (SparesGone(before) ==> SparesGone(after))
    && (SawGone(after) <==> SawGone(before))
  }

  /** A reap and a probe were added. */
  ghost predicate Looked(before: seq<Call>, after: seq<Call>, answer: Probe) {
    && before < after && after[|after|-1] == Probed(answer)
    && (forall i | |before| <= i < |after| - 1 :: after[i].Waited?)
    && Signals(after) == Signals(before) && (SparesGone(before) ==> SparesGone(after))
    && (SawGone(after) <==> SawGone(before) || answer == AllExited)
  }

  /** What the record of a stopped child must be: its own status exactly when it was reaped before any delivered signal. */
  ghost predicate OwnReason(trace: seq<Call>, natural: Option<ExitReason>) {
    && ReapedOnce(trace)
    && (forall r: nat :: EarlyReap(trace, r) ==>
          match trace[r].wait.status
          case Exit(code) => natural == Some(Returned(code))
          case Killed(signal) => natural == Some(Terminated(signal))
          case Neither => natural == None)
    && ((forall r: nat :: !EarlyReap(trace, r)) ==> natural == None)
  }

  lemma RememberedReason(trace: seq<Call>, reaped: bool, signalled: bool, natural: Option<ExitReason>)
    requires Remembers(trace, reaped, signalled, natural)
    ensures OwnReason(trace, natural)
  {
  }

  /** Stop the group, and wait for the direct child a last time if it was not reaped. */
  method CancelChildGroup(group: ProcessGroup, timing: GraceTiming)
    returns (evidence: Evidence, natural: Option<ExitReason>, ghost cleaned: nat)
    requires group.trace == []
    modifies group
    ensures cleaned <= |group.trace| && |group.trace| == cleaned + if NoReap(group.trace[..cleaned]) then 1 else 0
    ensures ReapsFirst(group.trace, true)
    ensures Cleaned(group.trace[..cleaned], timing, evidence)
    ensures forall i | cleaned <= i < |group.trace| :: group.trace[i].Waited?
    ensures OwnReason(group.trace, natural)
  {
    hide Remembers, Cleaned, OwnReason, ReapsFirst, NoReap;
    var stop := new ChildStop(group, true);
    evidence := stop.CleanupGroup(timing);
    cleaned := |group.trace|;
    assert group.trace[..cleaned] == group.trace;
    natural := stop.natural;
    RememberedReason(group.trace, stop.reaped, stop.signalled, natural);
    NotReaped(group.trace, stop.reaped, stop.signalled, natural);
    if !stop.reaped {
      ghost var before := group.trace;
      var wait := group.Wait();
      RemembersNext(before, Waited(wait), stop.reaped, stop.signalled, stop.natural);
      ReapsFirstNext(before, true, Waited(wait));
      if wait.Reaped? && !stop.signalled {
        natural := ReasonOf(wait.status);
      }
      RememberedReason(group.trace, stop.reaped || IsReap(Waited(wait)), stop.signalled, natural);
      assert group.trace[..cleaned] == before;
    }
  }

  /** The recorded reason of a cancelled child. */
  method StopChild(group: ProcessGroup, reason: ExitReason, timing: GraceTiming)
    returns (recorded: ExitReason, evidence: Evidence)
    requires group.trace == []
    modifies group
    ensures forall r: nat :: EarlyReap(group.trace, r) ==>
              match group.trace[r].wait.status
              case Exit(code) => recorded == Returned(code)
              case Killed(signal) => recorded == Terminated(signal)
              case Neither => recorded == reason
    ensures (forall r: nat :: !EarlyReap(group.trace, r)) ==> recorded == reason
    ensures exists n :: 0 <= n <= |group.trace| && Cleaned(group.trace[..n], timing, evidence)
    ensures ReapsFirst(group.trace, true)
  {
    hide Cleaned, EarlyReap, ReapsFirst, NoReap;
    var natural;
    ghost var cleaned;
    evidence, natural, cleaned := CancelChildGroup(group, timing);
    recorded := if natural.Some? then natural.value else reason;
  }

  /** Terminate the remaining members of a child's group once the child itself is gone. */
  method CleanupProcessGroup(group: ProcessGroup, timing: GraceTiming) returns (evidence: Evidence)
    requires group.trace == []
    modifies group
    ensures Cleaned(group.trace, timing, evidence)
    ensures forall i | 0 <= i < |group.trace| :: !group.trace[i].Waited?
  {
    var stop := new ChildStop(group, false);
    evidence := stop.CleanupGroup(timing);
  }
}
