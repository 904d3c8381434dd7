/**
 What a run left behind: the tracker's record becomes what the sweep may stop, so
 every signal of leftover cleanup reaches work that the run itself started.
 */
module Leftovers {
  import opened Basics
  import opened Processes
  import opened CleanupTrace
  import opened CleanupSafety
  import opened Descendants
  import opened DescendantRuns

  /** The calls right before a send read the marker in the process's own environment. */
  ghost predicate ReadMarker(policy: Policy, events: seq<Event>) {
    |events| == 3 && events[1].EnvironmentRead? && events[1].environment.Found?
    && Carries(events[1].environment.value, policy.marker)
  }

  /**
   Whatever the tracker's listings and the sweep's process table answered, a signal
   is sent only through a handle pinned before reads that confirm one identity, and
   that identity carries the run's marker or descends from the run's child through
   links the tracker saw, none of them past a boundary.
   */
  lemma SignalsReachOnlyRunWork(run: Run, policy: Policy, log: seq<Step>, i: nat)
    requires run.Valid() && policy.adopted <= run.records[|run.snapshots|]
    requires LogOk(policy, log) && IsSweepLog(log)
    requires i < |Flatten(log)| && IsSignal(Flatten(log)[i])
    ensures Flatten(log)[i].Sent?
    ensures exists j: nat, identity ::
              && PinnedAndMarked(policy, Flatten(log), i, j, identity)
              && (ReadMarker(policy, Flatten(log)[j+1..i]) || HasDescent(run, |run.snapshots|, identity))
  {
    hide LogOk, Flatten, Carries;
    SweepSignalsAreAuthorised(policy, log, i);
    var j: nat, identity :| PinnedAndMarked(policy, Flatten(log), i, j, identity);
    if identity in policy.adopted {
      RecordedDescends(run, |run.snapshots|, identity);
    }
  }

  /**
   With the set that the tracker hands over, a signal sent without reading the marker
   goes to a descendant that passed the boundary twice: when a listing showed it under
   its parent, and when the tracker was asked for what it adopted.
   */
  lemma UnmarkedTargetsPassedTheBoundary(run: Run, executables: map<Pid, Bytes>, policy: Policy, log: seq<Step>, i: nat)
    requires run.Valid() && IsWithoutBoundary(run.own, executables, run.records[|run.snapshots|], policy.adopted)
    requires LogOk(policy, log) && IsSweepLog(log)
    requires i < |Flatten(log)| && IsSignal(Flatten(log)[i])
    ensures Flatten(log)[i].Sent?
    ensures exists j: nat, identity ::
              && PinnedAndMarked(policy, Flatten(log), i, j, identity)
              && (|| ReadMarker(policy, Flatten(log)[j+1..i])
                  || (&& HasDescent(run, |run.snapshots|, identity)
                      && !IsBoundary(run.own, executables, identity.pid)))
  {
    hide LogOk, Flatten, Carries;
    SweepSignalsAreAuthorised(policy, log, i);
    var j: nat, identity :| PinnedAndMarked(policy, Flatten(log), i, j, identity);
    if identity in policy.adopted {
      RecordedDescends(run, |run.snapshots|, identity);
    }
  }

  /** No recorded descendant is left out for any other reason: one that is not adopted was a boundary at that check. */
  lemma OnlyBoundariesAreLeftOut(run: Run, executables: map<Pid, Bytes>, adopted: set<ProcessIdentity>, identity: ProcessIdentity)
    requires run.Valid() && IsWithoutBoundary(run.own, executables, run.records[|run.snapshots|], adopted)
    requires identity in run.records[|run.snapshots|] && identity !in adopted
    ensures IsBoundary(run.own, executables, identity.pid) && HasDescent(run, |run.snapshots|, identity)
  {
    RecordedDescends(run, |run.snapshots|, identity);
    assert NoBoundary(run.own, executables, {identity}) <==> !IsBoundary(run.own, executables, identity.pid);
    assert !({identity} <= adopted);
  }
}
