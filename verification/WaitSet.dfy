/** Names shared by everything that follows a task's or a job's life. */
module TaskEvents {
  type TaskId = nat
  type JobId = nat

  datatype EventKind =
    | TaskReported | TaskCheckDue | TaskCancelled | TaskLost | TaskBlocked
    | TaskWaiting | TaskFailed | TaskSucceeded | TaskPreempted

  datatype JobEventKind =
    | JobSucceeded | JobFailed | JobCancelled | JobPreempted | JobAttention | JobBlocked | JobCheckDue
}

/**
 The targets a waiting session still waits on, as `src/task_wait.rs` keeps them:
 an ordered list that follows waiting chains and can be rebuilt from a request.
 */
module WaitSets {
  import opened Basics
  import opened TaskEvents

  const MAX_WAIT_TARGETS: nat := 16

  datatype WaitKey = Task(task: TaskId) | Job(job: JobId)

  datatype WaitEvent =
    | TaskEvent(task: TaskId, kind: EventKind, continuation: Option<TaskId>)
    | JobEvent(job: JobId, jobKind: JobEventKind)

  /** Why a list of targets is refused; a repeat is named by its position. */
  datatype WaitKeysError = Empty | Duplicate(index: nat) | TooMany(count: nat) | Mixed

  /** The targets of an accepted request: ids without a kind, or keys. */
  datatype RequestedTargets = Ids(ids: seq<nat>) | Typed(keys: seq<WaitKey>)

  datatype WaitRequest = WaitRequest(ids: seq<nat>, tasks: seq<TaskId>, jobs: seq<JobId>)

  predicate EndsWait(kind: EventKind) {
    match kind
    case TaskReported | TaskCheckDue | TaskWaiting => false
    case _ => true
  }

  predicate JobEndsWait(kind: JobEventKind) {
    match kind
    case JobSucceeded | JobFailed | JobCancelled => true
    case _ => false
  }

  ghost function Keys(s: seq<WaitKey>): set<WaitKey> {
    set key | key in s
  }

  // ----- the wait as a set -----

  /** What one event does to the set of targets, and the continuation it names. */
  ghost function SetApply(s: set<WaitKey>, event: WaitEvent): (set<WaitKey>, Option<TaskId>) {
    match event
    case JobEvent(job, kind) => (if JobEndsWait(kind) then s - {Job(job)} else s, None)
    case TaskEvent(task, kind, continuation) =>
      if Task(task) !in s then (s, None)
      else if kind == TaskWaiting && continuation.Some? && Task(continuation.value) !in s then
        (s - {Task(task)} + {Task(continuation.value)}, continuation)
      else if EndsWait(kind) || kind == TaskWaiting then (s - {Task(task)}, None)
      else (s, None)
  }

  // ----- the wait as the ordered list that is kept -----

  /** `s` without the keys equal to `key`, in order. */
  function Without(s: seq<WaitKey>, key: WaitKey): seq<WaitKey> {
    if s == [] then []
    else Without(s[..|s|-1], key) + if s[|s|-1] == key then [] else [s[|s|-1]]
  }

  function Position(s: seq<WaitKey>, key: WaitKey): (n: nat)
    requires key in s
    ensures n < |s| && s[n] == key && key !in s[..n]
  {
    if s[0] == key then 0
    else
      assert forall k :: k in s ==> k == s[0] || k in s[1..];
      var n := 1 + Position(s[1..], key);
      assert s[..n] == [s[0]] + s[1..][..n-1];
      n
  }

  /** What one event does to the list: a target leaves it or its continuation takes its place. */
  ghost function ListApply(s: seq<WaitKey>, event: WaitEvent): (seq<WaitKey>, Option<TaskId>) {
    match event
    case JobEvent(job, kind) => (if JobEndsWait(kind) then Without(s, Job(job)) else s, None)
    case TaskEvent(task, kind, continuation) =>
      if Task(task) !in s then (s, None)
      else if kind == TaskWaiting && continuation.Some? && Task(continuation.value) !in s then
        (s[Position(s, Task(task)) := Task(continuation.value)], continuation)
      else if EndsWait(kind) || kind == TaskWaiting then (Without(s, Task(task)), None)
      else (s, None)
  }

  lemma {:induction false} WithoutKeys(s: seq<WaitKey>, key: WaitKey)
    requires NoDuplicates(s)
    ensures Keys(Without(s, key)) == Keys(s) - {key} && NoDuplicates(Without(s, key))
    ensures |Without(s, key)| <= |s|
  {
    if s != [] {
      var init, last := s[..|s|-1], s[|s|-1];
      assert s == init + [last];
      WithoutKeys(init, key);
      forall k ensures k in Without(s, key) <==> k in s && k != key {
        assert k in Without(init, key) <==> k in Keys(init) - {key};
      }
      assert last !in init;
      assert last !in Keys(Without(init, key));
    }
  }

  lemma {:induction false} WithoutAbsent(s: seq<WaitKey>, key: WaitKey)
    requires key !in s
    ensures Without(s, key) == s
  {
    if s != [] {
      WithoutAbsent(s[..|s|-1], key);
    }
  }

  /** Removing the one place a key holds is removing the key. */
  lemma {:induction false} WithoutAt(s: seq<WaitKey>, n: nat)
    requires NoDuplicates(s) && n < |s|
    ensures Without(s, s[n]) == s[..n] + s[n+1..]
  {
    var init, last := s[..|s|-1], s[|s|-1];
    if n == |s| - 1 {
      WithoutAbsent(init, last);
    } else {
      WithoutAt(init, n);
      assert init[..n] + init[n+1..] + [last] == s[..n] + s[n+1..];
    }
  }

  lemma ReplacedKeys(s: seq<WaitKey>, n: nat, key: WaitKey)
    requires NoDuplicates(s) && n < |s| && key !in s
    ensures Keys(s[n := key]) == Keys(s) - {s[n]} + {key} && NoDuplicates(s[n := key])
  {
    var t := s[n := key];
    forall k ensures k in t <==> (k in s && k != s[n]) || k == key {
      if k in s && k != s[n] {
        var i :| 0 <= i < |s| && s[i] == k;
        assert t[i] == k;
      }
      assert t[n] == key;
    }
  }

  /** The list does what the set does, and stays without duplicates and no longer. */
  lemma ListRefinesSet(s: seq<WaitKey>, event: WaitEvent)
    requires NoDuplicates(s)
    ensures var (t, next) := ListApply(s, event);
            && NoDuplicates(t) && |t| <= |s|
            && (Keys(t), next) == SetApply(Keys(s), event)
  {
    match event {
      case JobEvent(job, _) => WithoutKeys(s, Job(job));
      case TaskEvent(task, _, continuation) =>
        WithoutKeys(s, Task(task));
        if Task(task) in s && continuation.Some? && Task(continuation.value) !in s {
          ReplacedKeys(s, Position(s, Task(task)), Task(continuation.value));
        }
    }
  }

  class WaitSet {
    var pending: seq<WaitKey>

    ghost predicate Valid()
      reads this
    {
      NoDuplicates(pending) && |pending| <= 16
    }

    /** Wait on every target of a validated list. */
    constructor (targets: seq<WaitKey>)
      requires Accepts(targets)
      ensures pending == targets && Valid()
    {
      pending := targets;
    }

    /** The list becomes what `ListApply` makes of it, and `next` is the key that took a parked target's place. */
    method Apply(task: TaskId, kind: EventKind, continuation: Option<TaskId>) returns (next: Option<TaskId>)
      requires Valid()
      modifies this
      ensures Valid()
      ensures (pending, next) == ListApply(old(pending), TaskEvent(task, kind, continuation))
    {
      ListRefinesSet(pending, TaskEvent(task, kind, continuation));
      if Task(task) !in pending {
        return None;
      }
      var index := Position(pending, Task(task));
      WithoutAt(pending, index);
      if kind == TaskWaiting && continuation.Some? {
        if Task(continuation.value) in pending {
          pending := pending[..index] + pending[index + 1..];
          return None;
        }
        pending := pending[index := Task(continuation.value)];
        return continuation;
      }
      if EndsWait(kind) || kind == TaskWaiting {
        pending := pending[..index] + pending[index + 1..];
      }
      next := None;
    }

    /** The list loses the job that ended, and keeps the order of the rest. */
    method ApplyJob(job: JobId, kind: JobEventKind)
      requires Valid()
      modifies this
      ensures Valid()
      ensures (pending, None) == ListApply(old(pending), JobEvent(job, kind))
    {
      ListRefinesSet(pending, JobEvent(job, kind));
      if JobEndsWait(kind) {
        var kept := [];
        for k := 0 to |pending|
          invariant kept == Without(pending[..k], Job(job))
        {
          assert pending[..k + 1][..k] == pending[..k];
          if pending[k] != Job(job) {
            kept := kept + [pending[k]];
          }
        }
        assert pending[..|pending|] == pending;
        pending := kept;
      }
    }

    /** A request that names the pending keys, reordered so that tasks come first. */
    method Request() returns (request: WaitRequest)
      ensures request.ids == [] && NamedBy(request) == Reordered(pending)
    {
      var tasks, jobs := [], [];
      for k := 0 to |pending|
        invariant TaskKeys(tasks) == Select(pending[..k], true)
        invariant JobKeys(jobs) == Select(pending[..k], false)
      {
        assert pending[..k + 1][..k] == pending[..k];
        match pending[k] {
          case Task(task) =>
            tasks := tasks + [task];
          case Job(job) =>
            jobs := jobs + [job];
        }
      }
      assert pending[..|pending|] == pending;
      request := WaitRequest([], tasks, jobs);
    }
  }

  // ----- requests -----

  ghost predicate Accepts<T>(targets: seq<T>) {
    targets != [] && |targets| <= 16 && NoDuplicates(targets)
  }

  function TaskKeys(tasks: seq<TaskId>): seq<WaitKey> {
    seq(|tasks|, i requires 0 <= i < |tasks| => Task(tasks[i]))
  }

  function JobKeys(jobs: seq<JobId>): seq<WaitKey> {
    seq(|jobs|, i requires 0 <= i < |jobs| => Job(jobs[i]))
  }

  function NamedBy(request: WaitRequest): seq<WaitKey> {
    TaskKeys(request.tasks) + JobKeys(request.jobs)
  }

  ghost function Select(s: seq<WaitKey>, tasks: bool): seq<WaitKey> {
    if s == [] then []
    else Select(s[..|s|-1], tasks) + if s[|s|-1].Task? == tasks then [s[|s|-1]] else []
  }

  /** The order a request puts targets in. */
  ghost function Reordered(s: seq<WaitKey>): seq<WaitKey> {
    Select(s, true) + Select(s, false)
  }

  /** No error exactly for a list that `Accepts` admits; a repeat is reported at its second place. */
  method CheckTargets<T(==)>(items: seq<T>) returns (error: Option<WaitKeysError>)
    ensures error.None? <==> Accepts(items)
    ensures error == Some(Empty) <==> items == []
    ensures |items| > 16 ==> error == Some(TooMany(|items|))
    ensures error.Some? && error.value.Duplicate? ==>
              var k := error.value.index;
              k < |items| && items[k] in items[..k] && NoDuplicates(items[..k])
    ensures error != Some(Mixed)
  {
    if items == [] {
      return Some(Empty);
    }
    if |items| > MAX_WAIT_TARGETS {
      return Some(TooMany(|items|));
    }
    for k := 0 to |items|
      invariant NoDuplicates(items[..k])
    {
      if items[k] in items[..k] {
        return Some(Duplicate(k));
      }
    }
    assert items[..|items|] == items;
    error := None;
  }

  /** Validated targets of a request. */
  method Targets(request: WaitRequest) returns (result: Result<RequestedTargets, WaitKeysError>)
    ensures result == Err(Mixed) <==> request.ids != [] && NamedBy(request) != []
    ensures result.Ok? <==>
            if request.ids == [] then Accepts(NamedBy(request)) else NamedBy(request) == [] && Accepts(request.ids)
    ensures result.Ok? ==> result.value == if request.ids == [] then Typed(NamedBy(request)) else Ids(request.ids)
  {
    if request.ids == [] {
      var error := CheckTargets(NamedBy(request));
      return if error.Some? then Err(error.value) else Ok(Typed(NamedBy(request)));
    }
    if request.tasks != [] || request.jobs != [] {
      return Err(Mixed);
    }
    var error := CheckTargets(request.ids);
    result := if error.Some? then Err(error.value) else Ok(Ids(request.ids));
  }

  lemma {:induction false} SelectKeys(s: seq<WaitKey>, tasks: bool)
    requires NoDuplicates(s)
    ensures NoDuplicates(Select(s, tasks))
    ensures forall key :: key in Select(s, tasks) <==> key in s && key.Task? == tasks
  {
    if s != [] {
      assert s == s[..|s|-1] + [s[|s|-1]];
      SelectKeys(s[..|s|-1], tasks);
    }
  }

  lemma {:induction false} SelectLengths(s: seq<WaitKey>)
    ensures |Select(s, true)| + |Select(s, false)| == |s|
  {
    if s != [] {
      SelectLengths(s[..|s|-1]);
    }
  }

  /** A request built from a valid wait names the same targets, and is accepted unless the wait is done. */
  lemma ReconnectKeepsTargets(s: seq<WaitKey>)
    requires NoDuplicates(s)
    ensures Keys(Reordered(s)) == Keys(s) && |Reordered(s)| == |s| && NoDuplicates(Reordered(s))
    ensures s != [] && |s| <= 16 ==> Accepts(Reordered(s))
  {
    SelectKeys(s, true);
    SelectKeys(s, false);
    SelectLengths(s);
    forall i, j | 0 <= i < j < |Reordered(s)| ensures Reordered(s)[i] != Reordered(s)[j] {
      assert i < |Select(s, true)| ==> Select(s, true)[i] in Select(s, true);
      assert j >= |Select(s, true)| ==> Select(s, false)[j - |Select(s, true)|] in Select(s, false);
    }
  }

  // ----- whole waits -----

  /** What happens to a wait: an event arrives, or the client reconnects with a request built from the list. */
  datatype Step = Arrive(event: WaitEvent) | Reconnect

  ghost function ListRun(s: seq<WaitKey>, steps: seq<Step>): (seq<WaitKey>, seq<Option<TaskId>>) {
    if steps == [] then (s, [])
    else
      var (t, outs) := ListRun(s, steps[..|steps|-1]);
      match steps[|steps|-1]
      case Reconnect => (Reordered(t), outs)
      case Arrive(event) => (ListApply(t, event).0, outs + [ListApply(t, event).1])
  }

  /** The same wait as a set, to which reconnects mean nothing. */
  ghost function SetRun(s: set<WaitKey>, steps: seq<Step>): (set<WaitKey>, seq<Option<TaskId>>) {
    if steps == [] then (s, [])
    else
      var (t, outs) := SetRun(s, steps[..|steps|-1]);
      match steps[|steps|-1]
      case Reconnect => (t, outs)
      case Arrive(event) => (SetApply(t, event).0, outs + [SetApply(t, event).1])
  }

  /**
   Over any events and any reconnects, a wait from a valid target list keeps no
   duplicates, never grows, and gives the targets and continuations of the plain set.
   */
  lemma {:induction false} WaitIsItsSet(targets: seq<WaitKey>, steps: seq<Step>)
    requires NoDuplicates(targets)
    ensures var (pending, outs) := ListRun(targets, steps);
            && NoDuplicates(pending) && |pending| <= |targets|
            && (Keys(pending), outs) == SetRun(Keys(targets), steps)
  {
    if steps != [] {
      var init := steps[..|steps|-1];
      WaitIsItsSet(targets, init);
      var t := ListRun(targets, init).0;
      match steps[|steps|-1] {
        case Reconnect => ReconnectKeepsTargets(t);
        case Arrive(event) => ListRefinesSet(t, event);
      }
    }
  }

  /** Whatever the client reconnects from is accepted, as long as something is pending. */
  lemma ReconnectIsAccepted(targets: seq<WaitKey>, steps: seq<Step>)
    requires Accepts(targets) && ListRun(targets, steps).0 != []
    ensures Accepts(Reordered(ListRun(targets, steps).0))
    ensures Keys(Reordered(ListRun(targets, steps).0)) == Keys(ListRun(targets, steps).0)
  {
    WaitIsItsSet(targets, steps);
    ReconnectKeepsTargets(ListRun(targets, steps).0);
  }

  /** Two clients that differ only in when they reconnected stay equal as sets and see the same continuations. */
  lemma ReconnectsAreInvisible(targets: seq<WaitKey>, a: seq<Step>, b: seq<Step>)
    requires NoDuplicates(targets) && Arrivals(a) == Arrivals(b)
    ensures Keys(ListRun(targets, a).0) == Keys(ListRun(targets, b).0)
    ensures ListRun(targets, a).1 == ListRun(targets, b).1
  {
    WaitIsItsSet(targets, a);
    WaitIsItsSet(targets, b);
    OnlyArrivalsMatter(Keys(targets), a);
    OnlyArrivalsMatter(Keys(targets), b);
  }

  ghost function Arrivals(steps: seq<Step>): seq<Step> {
    if steps == [] then []
    else Arrivals(steps[..|steps|-1]) + if steps[|steps|-1].Arrive? then [steps[|steps|-1]] else []
  }

  lemma {:induction false} OnlyArrivalsMatter(s: set<WaitKey>, steps: seq<Step>)
    ensures SetRun(s, steps) == SetRun(s, Arrivals(steps))
  {
    if steps != [] {
      OnlyArrivalsMatter(s, steps[..|steps|-1]);
      var init, last := steps[..|steps|-1], steps[|steps|-1];
      if last.Arrive? {
        assert Arrivals(steps) == Arrivals(init) + [last];
        assert (Arrivals(init) + [last])[..|Arrivals(init)|] == Arrivals(init);
      } else {
        assert Arrivals(steps) == Arrivals(init);
      }
    }
  }

  /** A job's success, failure or cancellation. */
  ghost predicate IsJobEnding(step: Step, job: JobId) {
    || step == Arrive(JobEvent(job, JobSucceeded)) || step == Arrive(JobEvent(job, JobFailed))
    || step == Arrive(JobEvent(job, JobCancelled))
  }

  ghost predicate JobEnded(steps: seq<Step>, job: JobId) {
    exists k :: 0 <= k < |steps| && IsJobEnding(steps[k], job)
  }

  lemma JobEndedNext(steps: seq<Step>, job: JobId)
    requires steps != []
    ensures JobEnded(steps, job) <==> JobEnded(steps[..|steps|-1], job) || IsJobEnding(steps[|steps|-1], job)
  {
    hide IsJobEnding;
    var init := steps[..|steps|-1];
    assert forall k | 0 <= k < |init| :: init[k] == steps[k];
    if k :| 0 <= k < |steps| && IsJobEnding(steps[k], job) {
      assert k < |init| ==> IsJobEnding(init[k], job);
    }
  }

  /** One step of a wait that holds nothing but one job, or nothing any more. */
  lemma JobAlone(job: JobId, event: WaitEvent)
    ensures ListApply([], event).0 == []
    ensures ListApply([Job(job)], event).0 == if IsJobEnding(Arrive(event), job) then [] else [Job(job)]
  {
    assert Without([Job(job)], Job(job)) == [] && forall key :: Without([], key) == [];
    match event {
      case JobEvent(other, kind) =>
        if other != job {
          WithoutAbsent([Job(job)], Job(other));
        } else {
          assert IsJobEnding(Arrive(event), job) <==> JobEndsWait(kind);
        }
      case TaskEvent(task, _, _) =>
        assert Task(task) !in [Job(job)];
    }
  }

  /** A wait on one job lasts until that job succeeds, fails or is cancelled, whatever else happens. */
  lemma {:induction false} JobWaitEndsWithTheJob(job: JobId, steps: seq<Step>)
    ensures ListRun([Job(job)], steps).0 == if JobEnded(steps, job) then [] else [Job(job)]
  {
    if steps != [] {
      hide ListApply, Reordered, IsJobEnding, JobEnded;
      JobWaitEndsWithTheJob(job, steps[..|steps|-1]);
      JobEndedNext(steps, job);
      match steps[|steps|-1] {
        case Arrive(event) =>
          JobAlone(job, event);
        case Reconnect =>
          JobReordered(job);
      }
    }
  }

  lemma JobReordered(job: JobId)
    ensures Reordered([Job(job)]) == [Job(job)] && Reordered([]) == [] && !IsJobEnding(Reconnect, job)
  {
    var s: seq<WaitKey> := [Job(job)];
    assert s[..|s|-1] == [];
    assert Select(s[..|s|-1], true) == [] && Select(s[..|s|-1], false) == [];
    assert Select(s, true) == [] && Select(s, false) == [s[|s|-1]];
  }
}
