/**
 Creating one machine identity, as `load_or_create_machine_id` in `src/machine.rs`
 does it: any number of processes read, write a temporary file, hard-link it into
 place and read again, interleaved in any way.
 */
module MachineIdentity {
  import opened Basics

  type MachineId = nat
  /** One call of the loader, by any process. */
  type Caller = nat

  /** What a file holds once its text is parsed. */
  datatype Content = Id(id: MachineId) | Corrupt

  datatype Failure = InvalidContents | Vanished | Io

  datatype Outcome = Returned(id: MachineId) | Failed(failure: Failure)

  /** Where one call has got to. */
  datatype Stage =
    | Starting
    /** The first read found no file. */
    | Missing
    /** Its temporary file holds `candidate`. */
    | Prepared(candidate: MachineId)
    /** The hard link is in place, or was refused because the file exists; the temporary name is still there. */
    | Linked(candidate: MachineId)
    | LinkRefused
    | Beaten
    | Finished(outcome: Outcome)

  /** The shared directory, and where every call is; a caller not listed has not begun. */
  datatype State = State(file: Option<Content>, temporary: map<Caller, Content>, stages: map<Caller, Stage>)

  ghost function StageOf(state: State, caller: Caller): Stage {
    if caller in state.stages then state.stages[caller] else Starting
  }

  /** A read that finds a file returns its id, or refuses what it holds. */
  function ReadOutcome(content: Content): Outcome {
    match content
    case Id(id) => Returned(id)
    case Corrupt => Failed(InvalidContents)
  }

  datatype Action =
    | FirstRead
    | WriteTemporary(candidate: MachineId)
    | Link
    | RemoveTemporary
    | SecondRead
    /** Any file system call may fail for a reason of its own. */
    | Break

  /** One call takes one step; steps of different calls interleave freely. */
  ghost predicate Step(before: State, caller: Caller, action: Action, after: State) {
    var stage := StageOf(before, caller);
    match action
    case FirstRead =>
      && stage.Starting?
      && after == before.(stages := before.stages[caller :=
                    if before.file.None? then Missing else Finished(ReadOutcome(before.file.value))])
    case WriteTemporary(candidate) =>
      && stage.Missing?
      && after == before.(temporary := before.temporary[caller := Id(candidate)],
                          stages := before.stages[caller := Prepared(candidate)])
    case Link =>
      && stage.Prepared? && caller in before.temporary
      && if before.file.None? then
           after == before.(file := Some(before.temporary[caller]),
                            stages := before.stages[caller := Linked(stage.candidate)])
         else
           after == before.(stages := before.stages[caller := LinkRefused])
    case RemoveTemporary =>
      && (stage.Linked? || stage.LinkRefused?)
      && after == before.(temporary := before.temporary - {caller},
                          stages := before.stages[caller :=
                            if stage.Linked? then Finished(Returned(stage.candidate)) else Beaten])
    case SecondRead =>
      && stage.Beaten?
      && after == before.(stages := before.stages[caller :=
                    Finished(if before.file.None? then Failed(Vanished) else ReadOutcome(before.file.value))])
    case Break =>
      && !stage.Finished?
      && after.temporary - {caller} == before.temporary - {caller}
      && after == State(before.file, after.temporary, before.stages[caller := Finished(Failed(Io))])
  }

  ghost predicate Starts(state: State) {
    state.temporary == map[] && state.stages == map[]
  }

  /** A run: the states, and the call and action between each two. */
  datatype Run = Run(states: seq<State>, moves: seq<(Caller, Action)>) {
    ghost predicate Valid() {
      && |states| == |moves| + 1 && Starts(states[0])
      && forall k | 0 <= k < |moves| :: Step(states[k], moves[k].0, moves[k].1, states[k+1])
    }
  }

  /** Every call agrees with the file: ids it returned are the file's, and it only saw a refusal that the file explains. */
  ghost predicate Agrees(file: Option<Content>, stage: Stage) {
    match stage
    case Starting | Missing | Prepared(_) => true
    case Linked(candidate) => file == Some(Id(candidate))
    case LinkRefused | Beaten => file.Some?
    case Finished(Returned(id)) => file == Some(Id(id))
    case Finished(Failed(Vanished)) => false
    case Finished(Failed(InvalidContents)) => file == Some(Corrupt)
    case Finished(Failed(Io)) => true
  }

  /** A prepared call's temporary file holds its own candidate. */
  ghost predicate Inv(state: State) {
    && (forall caller :: Agrees(state.file, StageOf(state, caller)))
    && (forall caller :: StageOf(state, caller).Prepared? ==>
          caller in state.temporary && state.temporary[caller] == Id(StageOf(state, caller).candidate))
  }

  lemma StepKeepsInv(before: State, caller: Caller, action: Action, after: State)
    requires Inv(before) && Step(before, caller, action, after)
    ensures Inv(after)
    ensures before.file.Some? ==> after.file == before.file
  {
    forall other ensures Agrees(after.file, StageOf(after, other)) {
      assert Agrees(before.file, StageOf(before, other));
      if other != caller {
        assert StageOf(after, other) == StageOf(before, other);
      }
    }
    forall other | StageOf(after, other).Prepared?
      ensures other in after.temporary && after.temporary[other] == Id(StageOf(after, other).candidate)
    {
      if other != caller {
        assert StageOf(after, other) == StageOf(before, other);
        assert other in before.temporary - {caller} && other in after.temporary - {caller};
        assert (after.temporary - {caller})[other] == (before.temporary - {caller})[other];
      }
    }
  }

  lemma {:induction false} InvHolds(run: Run, k: nat)
    requires run.Valid() && k < |run.states|
    ensures Inv(run.states[k])
    decreases k
  {
    if k > 0 {
      InvHolds(run, k - 1);
      StepKeepsInv(run.states[k-1], run.moves[k-1].0, run.moves[k-1].1, run.states[k]);
    }
  }

  /** Once the file exists it never changes, so a corrupt one is never replaced. */
  lemma {:induction false} FileNeverChanges(run: Run, i: nat, j: nat)
    requires run.Valid() && i <= j < |run.states| && run.states[i].file.Some?
    ensures run.states[j].file == run.states[i].file
    decreases j - i
  {
    if i < j {
      FileNeverChanges(run, i, j - 1);
      InvHolds(run, j - 1);
      StepKeepsInv(run.states[j-1], run.moves[j-1].0, run.moves[j-1].1, run.states[j]);
    }
  }

  /** All calls that succeed, at any two times of a run, return the same id. */
  lemma OneIdentity(run: Run, i: nat, a: Caller, j: nat, b: Caller)
    requires run.Valid() && i < |run.states| && j < |run.states|
    requires StageOf(run.states[i], a).Finished? && StageOf(run.states[i], a).outcome.Returned?
    requires StageOf(run.states[j], b).Finished? && StageOf(run.states[j], b).outcome.Returned?
    ensures StageOf(run.states[i], a).outcome == StageOf(run.states[j], b).outcome
  {
    InvHolds(run, i);
    InvHolds(run, j);
    assert Agrees(run.states[i].file, StageOf(run.states[i], a));
    assert Agrees(run.states[j].file, StageOf(run.states[j], b));
    FileNeverChanges(run, if i < j then i else j, if i < j then j else i);
  }

  /** The file is never found missing after the link found it present. */
  lemma NeverVanishes(run: Run, k: nat, caller: Caller)
    requires run.Valid() && k < |run.states|
    ensures StageOf(run.states[k], caller) != Finished(Failed(Vanished))
  {
    InvHolds(run, k);
    assert Agrees(run.states[k].file, StageOf(run.states[k], caller));
  }

  /** With a corrupt file from the start, no call ever succeeds. */
  lemma CorruptIsRefused(run: Run, k: nat, caller: Caller)
    requires run.Valid() && run.states[0].file == Some(Corrupt) && k < |run.states|
    ensures StageOf(run.states[k], caller).Finished? ==> !StageOf(run.states[k], caller).outcome.Returned?
  {
    FileNeverChanges(run, 0, k);
    InvHolds(run, k);
    assert Agrees(run.states[k].file, StageOf(run.states[k], caller));
  }

  /** Creation never writes anything but an id, so a file that is corrupt was so from the start. */
  lemma {:induction false} NeverCorrupted(run: Run, k: nat)
    requires run.Valid() && k < |run.states| && run.states[k].file == Some(Corrupt)
    ensures run.states[0].file == Some(Corrupt)
    decreases k
  {
    if k > 0 {
      InvHolds(run, k - 1);
      NeverCorrupted(run, k - 1);
    }
  }

  /** Unless the file was corrupt from the start, every call that ends returns the id in the file, or met a failing file system. */
  lemma CallsSucceed(run: Run, k: nat, caller: Caller)
    requires run.Valid() && run.states[0].file != Some(Corrupt) && k < |run.states|
    requires StageOf(run.states[k], caller).Finished?
    ensures var outcome := StageOf(run.states[k], caller).outcome;
            || outcome == Failed(Io)
            || (outcome.Returned? && run.states[k].file == Some(Id(outcome.id)))
    ensures run.states[0].file.Some? ==>
              StageOf(run.states[k], caller).outcome in {Returned(run.states[0].file.value.id), Failed(Io)}
  {
    InvHolds(run, k);
    assert Agrees(run.states[k].file, StageOf(run.states[k], caller));
    if run.states[k].file == Some(Corrupt) {
      NeverCorrupted(run, k);
    }
    if run.states[0].file.Some? {
      FileNeverChanges(run, 0, k);
    }
  }

  /** A run in which somebody outside may also delete the file. */
  ghost predicate Disturbed(states: seq<State>, moves: seq<Option<(Caller, Action)>>) {
    && |states| == |moves| + 1 && Starts(states[0])
    && forall k | 0 <= k < |moves| ::
         match moves[k]
         case Some((caller, action)) => Step(states[k], caller, action, states[k+1])
         case None => states[k+1] == states[k].(file := None)
  }

  /** One call of `caller` that creates `id` where no file is. */
  lemma Creates(start: State, caller: Caller, id: MachineId) returns (states: seq<State>)
    requires start.file.None? && caller !in start.stages && caller !in start.temporary
    ensures |states| == 5 && states[0] == start
    ensures Step(states[0], caller, FirstRead, states[1]) && Step(states[1], caller, WriteTemporary(id), states[2])
    ensures Step(states[2], caller, Link, states[3]) && Step(states[3], caller, RemoveTemporary, states[4])
    ensures states[4] == State(Some(Id(id)), start.temporary, start.stages[caller := Finished(Returned(id))])
  {
    var s1 := start.(stages := start.stages[caller := Missing]);
    var s2 := s1.(temporary := s1.temporary[caller := Id(id)], stages := s1.stages[caller := Prepared(id)]);
    var s3 := s2.(file := Some(Id(id)), stages := s2.stages[caller := Linked(id)]);
    var s4 := s3.(temporary := s3.temporary - {caller}, stages := s3.stages[caller := Finished(Returned(id))]);
    assert s4.temporary == start.temporary;
    assert s4.stages == start.stages[caller := Finished(Returned(id))];
    states := [start, s1, s2, s3, s4];
  }

  /** Deletion from outside is what the guarantee excludes: with it, two calls can return different ids. */
  lemma DeletionSplitsIdentity(a: MachineId, b: MachineId)
    returns (states: seq<State>, moves: seq<Option<(Caller, Action)>>)
    ensures Disturbed(states, moves)
    ensures var last := states[|states|-1];
            StageOf(last, 0) == Finished(Returned(a)) && StageOf(last, 1) == Finished(Returned(b))
  {
    hide Step;
    var one := Creates(State(None, map[], map[]), 0, a);
    var two := Creates(one[4].(file := None), 1, b);
    states := one + two;
    moves := [Some((0, FirstRead)), Some((0, WriteTemporary(a))), Some((0, Link)), Some((0, RemoveTemporary)), None,
              Some((1, FirstRead)), Some((1, WriteTemporary(b))), Some((1, Link)), Some((1, RemoveTemporary))];
    assert states[5] == two[0] == states[4].(file := None);
  }
}
