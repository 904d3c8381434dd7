/** Holding a task until the tasks it depends on end, as `src/dependency.rs` decides it. */
module Dependencies {
  import opened Basics
  import opened TaskEvents

  const MAX_DEPENDENCIES: nat := 16

  datatype TaskOutcome = Succeeded | Failed | Blocked | Cancelled | Lost | Preempted

  /** An outcome that some event named, or none that can be shown. */
  datatype DependencyOutcome = Known(outcome: TaskOutcome) | Unknown

  datatype DependencyState = Pending | Ended(outcome: DependencyOutcome)

  datatype ReleaseRule = OnSuccess | OnEnd

  datatype HeldDecision = Wait | Release | Cancel(dependency: TaskId, outcome: DependencyOutcome)

  datatype DependencyListError = Empty | Duplicate(index: nat, task: TaskId) | TooMany(count: nat)

  function OutcomeOf(kind: EventKind): Option<TaskOutcome> {
    match kind
    case TaskSucceeded => Some(Succeeded)
    case TaskFailed => Some(Failed)
    case TaskBlocked => Some(Blocked)
    case TaskCancelled => Some(Cancelled)
    case TaskLost => Some(Lost)
    case TaskPreempted => Some(Preempted)
    case TaskReported | TaskCheckDue | TaskWaiting => None
  }

  predicate IsSuccess(outcome: DependencyOutcome) {
    outcome == Known(Succeeded)
  }

  // ----- the list of dependencies -----

  ghost predicate Accepts(tasks: seq<TaskId>) {
    tasks != [] && |tasks| <= 16 && NoDuplicates(tasks)
  }

  ghost predicate Ascending(s: seq<TaskId>) {
    forall i, j | 0 <= i < j < |s| :: s[i] <= s[j]
  }

  /** `s` with `x` put in its place. */
  function Insert(s: seq<TaskId>, x: TaskId): seq<TaskId> {
    if s == [] || s[|s|-1] <= x then s + [x] else Insert(s[..|s|-1], x) + [s[|s|-1]]
  }

  lemma {:induction false} InsertAdds(s: seq<TaskId>, x: TaskId)
    ensures multiset(Insert(s, x)) == multiset(s) + multiset{x}
  {
    if s != [] && s[|s|-1] > x {
      InsertAdds(s[..|s|-1], x);
      assert s == s[..|s|-1] + [s[|s|-1]];
    }
  }

  lemma {:induction false} InsertSorts(s: seq<TaskId>, x: TaskId)
    requires Ascending(s)
    ensures Ascending(Insert(s, x))
    ensures forall k | 0 <= k < |Insert(s, x)| :: Insert(s, x)[k] <= x || (s != [] && Insert(s, x)[k] <= s[|s|-1])
  {
    if s != [] && s[|s|-1] > x {
      InsertSorts(s[..|s|-1], x);
    }
  }

  /** Validate a submitted list and sort it. */
  method NewDependencies(tasks: seq<TaskId>) returns (result: Result<seq<TaskId>, DependencyListError>)
    ensures result.Ok? <==> Accepts(tasks)
    ensures result.Ok? ==> Ascending(result.value) && multiset(result.value) == multiset(tasks)
    ensures tasks == [] <==> result == Err(Empty)
    ensures |tasks| > 16 ==> result == Err(TooMany(|tasks|))
    ensures result.Err? && result.error.Duplicate? ==>
              var k := result.error.index;
              k < |tasks| && tasks[k] == result.error.task && tasks[k] in tasks[..k] && NoDuplicates(tasks[..k])
  {
    if tasks == [] {
      return Err(Empty);
    }
    if |tasks| > MAX_DEPENDENCIES {
      return Err(TooMany(|tasks|));
    }
    for k := 0 to |tasks|
      invariant NoDuplicates(tasks[..k])
    {
      if tasks[k] in tasks[..k] {
        return Err(Duplicate(k, tasks[k]));
      }
    }
    assert tasks[..|tasks|] == tasks;
    var sorted := [];
    for k := 0 to |tasks|
      invariant Ascending(sorted) && multiset(sorted) == multiset(tasks[..k])
    {
      assert tasks[..k + 1] == tasks[..k] + [tasks[k]];
      InsertAdds(sorted, tasks[k]);
      InsertSorts(sorted, tasks[k]);
      sorted := Insert(sorted, tasks[k]);
    }
    result := Ok(sorted);
  }

  lemma DropLast(s: seq<TaskId>)
    requires s != []
    ensures multiset(s[..|s|-1]) == multiset(s) - multiset{s[|s|-1]}
  {
    assert s == s[..|s|-1] + [s[|s|-1]];
  }

  lemma SameLast(a: seq<TaskId>, b: seq<TaskId>)
    requires Ascending(a) && Ascending(b) && multiset(a) == multiset(b) && a != []
    ensures b != [] && a[|a|-1] == b[|b|-1]
  {
    assert a[|a|-1] in multiset(b);
    assert b[|b|-1] in multiset(a);
  }

  lemma {:induction false} SortedIsUnique(a: seq<TaskId>, b: seq<TaskId>)
    requires Ascending(a) && Ascending(b) && multiset(a) == multiset(b)
    ensures a == b
  {
    if a == [] {
      assert |multiset(b)| == 0;
    } else {
      SameLast(a, b);
      DropLast(a);
      DropLast(b);
      SortedIsUnique(a[..|a|-1], b[..|b|-1]);
      assert a == a[..|a|-1] + [a[|a|-1]] && b == b[..|b|-1] + [b[|b|-1]];
    }
  }

  lemma {:induction false} DuplicatesByCount(s: seq<TaskId>)
    ensures NoDuplicates(s) <==> forall x :: x in multiset(s) ==> multiset(s)[x] == 1
  {
    if s != [] {
      var init, last := s[..|s|-1], s[|s|-1];
      assert s == init + [last];
      assert multiset(s) == multiset(init) + multiset{last};
      DuplicatesByCount(init);
      if NoDuplicates(s) {
        assert last !in init;
      } else if NoDuplicates(init) {
        var i :| 0 <= i < |init| && init[i] == last;
        assert last in multiset(init);
        assert multiset(s)[last] >= 2;
      } else {
        var x :| x in multiset(init) && multiset(init)[x] != 1;
        assert multiset(s)[x] >= 2;
      }
    }
  }

  /** Permuted lists are accepted alike, and have one sorted form. */
  lemma OrderDoesNotMatter(a: seq<TaskId>, b: seq<TaskId>)
    requires multiset(a) == multiset(b)
    ensures Accepts(a) <==> Accepts(b)
    ensures forall x: seq<TaskId>, y: seq<TaskId> :: Ascending(x) && multiset(x) == multiset(a) && Ascending(y) && multiset(y) == multiset(b) ==> x == y
  {
    assert |a| == |multiset(a)| == |multiset(b)| == |b|;
    DuplicatesByCount(a);
    DuplicatesByCount(b);
    forall x: seq<TaskId>, y: seq<TaskId> | Ascending(x) && multiset(x) == multiset(a) && Ascending(y) && multiset(y) == multiset(b)
      ensures x == y
    {
      SortedIsUnique(x, y);
    }
  }

  // ----- the decision -----

  type States = seq<(TaskId, DependencyState)>

  /** An ending that cancels the held task. */
  ghost predicate Fails(rule: ReleaseRule, state: DependencyState) {
    rule == OnSuccess && state.Ended? && state.outcome != Known(Succeeded)
  }

  /** An ending that lets the held task launch. */
  ghost predicate Satisfies(rule: ReleaseRule, state: DependencyState) {
    state.Ended? && (rule == OnEnd || state.outcome == Known(Succeeded))
  }

  ghost predicate FirstFailure(states: States, rule: ReleaseRule, k: nat) {
    k < |states| && Fails(rule, states[k].1) && forall i | 0 <= i < k :: !Fails(rule, states[i].1)
  }

  ghost predicate NoFailure(states: States, rule: ReleaseRule) {
    forall i | 0 <= i < |states| :: !Fails(rule, states[i].1)
  }

  /** What a decision must be, whoever made it. */
  ghost predicate Decides(states: States, rule: ReleaseRule, decision: HeldDecision) {
    match decision
    case Release => forall i | 0 <= i < |states| :: Satisfies(rule, states[i].1)
    case Cancel(dependency, outcome) =>
      exists k: nat :: FirstFailure(states, rule, k) && states[k] == (dependency, Ended(outcome))
    case Wait => NoFailure(states, rule) && exists i :: 0 <= i < |states| && states[i].1.Pending?
  }

  /** The one decision that the states and the rule admit. */
  method Decide(states: States, rule: ReleaseRule) returns (decision: HeldDecision)
    ensures Decides(states, rule, decision)
    ensures rule == OnEnd ==> !decision.Cancel?
  {
    var pending := false;
    for i := 0 to |states|
      invariant forall j | 0 <= j < i :: !Fails(rule, states[j].1)
      invariant pending <==> exists j :: 0 <= j < i && states[j].1.Pending?
    {
      match states[i].1 {
        case Ended(outcome) =>
          if rule != OnEnd && !IsSuccess(outcome) {
            assert FirstFailure(states, rule, i);
            return Cancel(states[i].0, outcome);
          }
        case Pending =>
          pending := true;
      }
    }
    decision := if pending then Wait else Release;
  }

  lemma DecisionIsDetermined(states: States, rule: ReleaseRule, a: HeldDecision, b: HeldDecision)
    requires Decides(states, rule, a) && Decides(states, rule, b)
    ensures a == b
  {
  }

  /** Dependencies only ever become ended, and then keep their ending. */
  ghost predicate Evolves(before: States, after: States) {
    && |after| == |before|
    && forall i | 0 <= i < |before| :: after[i].0 == before[i].0 && (before[i].1.Pending? || after[i].1 == before[i].1)
  }

  ghost predicate IsHistory(history: seq<States>) {
    forall k | 0 <= k < |history| - 1 :: Evolves(history[k], history[k+1])
  }

  lemma {:induction false} HistoryEvolves(history: seq<States>, i: nat, j: nat)
    requires IsHistory(history) && i <= j < |history|
    ensures Evolves(history[i], history[j])
    decreases j - i
  {
    if i < j {
      HistoryEvolves(history, i, j - 1);
    }
  }

  /** Once released or cancelled, a held task is never decided otherwise; a cancel can only name an earlier failure. */
  lemma DecisionIsFinal(history: seq<States>, rule: ReleaseRule, i: nat, j: nat, early: HeldDecision, late: HeldDecision)
    requires IsHistory(history) && i <= j < |history|
    requires Decides(history[i], rule, early) && Decides(history[j], rule, late)
    ensures early == Release ==> late == Release
    ensures early.Cancel? ==> late.Cancel?
    ensures early.Cancel? ==>
              forall k: nat, m: nat :: FirstFailure(history[i], rule, k) && FirstFailure(history[j], rule, m) ==> m <= k
  {
    HistoryEvolves(history, i, j);
    if early.Cancel? {
      var k: nat :| FirstFailure(history[i], rule, k) && history[i][k] == (early.dependency, Ended(early.outcome));
      assert Fails(rule, history[j][k].1);
    }
  }
}
