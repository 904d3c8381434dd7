/**
 The process table as the cleanup code meets it: a source of answers that nothing
 constrains, and a clock that never runs backwards.
 */
module Processes {
  import opened Basics

  datatype Pid = Pid(raw: int)

  type Errno = int

  const ESRCH: Errno := 3

  /** A pinned process; `Send` takes this and not a pid. */
  type Handle = nat

  datatype Signal = SIGTERM | SIGKILL

  /** A pid with the start time that makes it unique. */
  datatype ProcessIdentity = ProcessIdentity(pid: Pid, start: nat)

  datatype ProcessInfo = ProcessInfo(start: nat, ppid: Pid, pgid: Pid, uid: nat)

  /** The four answers a read may give; only `Found` carries a value. */
  datatype Read<+T> = Found(value: T) | Exited(identity: ProcessIdentity) | Gone | Refused(errno: Errno)

  datatype Delivery = Delivered | Undelivered(errno: Errno)

  /** One call into the kernel, with the answer it gave. */
  datatype Event =
    | Listed(pids: Option<seq<Pid>>)
    | InfoRead(pid: Pid, info: Read<ProcessInfo>)
    | EnvironmentRead(pid: Pid, environment: Read<Bytes>)
    | Pinned(pid: Pid, handle: Read<Handle>)
    | Sent(through: Handle, signal: Signal, delivery: Delivery)
    | GroupSent(pgid: Pid, signal: Signal, delivery: Delivery)
    | ClockRead(now: nat)
    | Slept(duration: nat)

  /**
   Every answer is an unconstrained choice, so whatever is proved about a client
   holds for every sequence of answers. `trace` records each call.
   */
  class ProcessTable {
    var trace: seq<Event>
    var now: nat

    constructor (start: nat)
      ensures trace == [] && now == start
    {
      trace, now := [], start;
    }

    method List() returns (pids: Option<seq<Pid>>)
      modifies this
      ensures trace == old(trace) + [Listed(pids)]
      ensures now >= old(now)
    {
      pids :| true;
      Record(Listed(pids));
    }

    method Info(pid: Pid) returns (info: Read<ProcessInfo>)
      modifies this
      ensures trace == old(trace) + [InfoRead(pid, info)]
      ensures now >= old(now)
    {
      info :| true;
      Record(InfoRead(pid, info));
    }

    method Environment(pid: Pid) returns (environment: Read<Bytes>)
      modifies this
      ensures trace == old(trace) + [EnvironmentRead(pid, environment)]
      ensures now >= old(now)
    {
      environment :| true;
      Record(EnvironmentRead(pid, environment));
    }

    method Pin(pid: Pid) returns (handle: Read<Handle>)
      modifies this
      ensures trace == old(trace) + [Pinned(pid, handle)]
      ensures now >= old(now)
    {
      handle :| true;
      Record(Pinned(pid, handle));
    }

    method Send(handle: Handle, signal: Signal) returns (delivery: Delivery)
      modifies this
      ensures trace == old(trace) + [Sent(handle, signal, delivery)]
      ensures now >= old(now)
    {
      delivery :| true;
      Record(Sent(handle, signal, delivery));
    }

    method SendGroup(pgid: Pid, signal: Signal) returns (delivery: Delivery)
      modifies this
      ensures trace == old(trace) + [GroupSent(pgid, signal, delivery)]
      ensures now >= old(now)
    {
      delivery :| true;
      Record(GroupSent(pgid, signal, delivery));
    }

    method Now() returns (t: nat)
      modifies this
      ensures trace == old(trace) + [ClockRead(t)]
      ensures old(now) <= t == now
    {
      var passed: nat :| true;
      now := now + passed;
      t := now;
      trace := trace + [ClockRead(t)];
    }

    /** A sleep lasts at least as long as asked and always moves the clock. */
    method Sleep(duration: nat)
      modifies this
      ensures trace == old(trace) + [Slept(duration)]
      ensures now > old(now) && now >= old(now) + duration
    {
      now := now + duration + 1;
      Record(Slept(duration));
    }

    /** Any amount of time may pass inside a call. */
    method Record(event: Event)
      modifies this
      ensures trace == old(trace) + [event]
      ensures now >= old(now)
    {
      var passed: nat :| true;
      now := now + passed;
      trace := trace + [event];
    }
  }
}
