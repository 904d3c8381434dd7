/**
 The process tree below a run's child, as `src/cleanup/descendants.rs` follows it: a
 worklist computes the least set of descendants that one listing supports.
 */
module Descendants {
  import opened Basics
  import opened Processes

  /**
   What the kernel answered during one observation. Each live process is the child
   of one parent only, so its executable is read at most once per observation and
   a map holds every answer.
   */
  datatype Snapshot = Snapshot(
    listed: Option<seq<(Pid, Read<ProcessInfo>)>>,
    executables: map<Pid, Bytes>)

  type Live = map<Pid, ProcessInfo>

  const DELETED: Bytes := " (deleted)"

  /** `name` with the mark of a replaced file taken off, so that both spellings compare equal. */
  function ExecutableName(name: Bytes): Bytes {
    if |name| >= |DELETED| && name[|name| - |DELETED|..] == DELETED then name[..|name| - |DELETED|] else name
  }

  /** The tree stops here: the name is our own or unknown, or we do not know our own. */
  predicate IsBoundary(own: Option<Bytes>, executables: map<Pid, Bytes>, pid: Pid) {
    own.None? || pid !in executables || ExecutableName(executables[pid]) == own.value
  }

  /** Live processes of a listing; a pid listed twice keeps its later answer. */
  ghost function LiveOf(listed: seq<(Pid, Read<ProcessInfo>)>): Live {
    if listed == [] then map[]
    else
      var last := listed[|listed|-1];
      var before := LiveOf(listed[..|listed|-1]);
      if last.1.Found? then before[last.0 := last.1.value] else before
  }

  predicate Running(live: Live, identity: ProcessIdentity) {
    identity.pid in live && live[identity.pid].start == identity.start
  }

  ghost function LiveIdentities(live: Live): set<ProcessIdentity> {
    set pid | pid in live :: ProcessIdentity(pid, live[pid].start)
  }

  lemma LiveIsRunning(live: Live)
    ensures forall identity :: identity in LiveIdentities(live) <==> Running(live, identity)
  {
    forall identity | Running(live, identity) ensures identity in LiveIdentities(live) {
      assert identity == ProcessIdentity(identity.pid, live[identity.pid].start);
    }
  }

  /** The listing shows `child` under `parent`, and `child` is not the older of the two. */
  ghost predicate ChildOf(live: Live, parent: ProcessIdentity, child: ProcessIdentity) {
    Running(live, child) && live[child.pid].ppid == parent.pid && child.start >= parent.start
  }

  /** One listing, the boundary it was read with, and the child whose tree is tracked. */
  datatype View = View(root: ProcessIdentity, own: Option<Bytes>, live: Live, executables: map<Pid, Bytes>) {
    /** `child` must be recorded once `parent` is recorded or is the root. */
    ghost predicate Adopts(parent: ProcessIdentity, child: ProcessIdentity) {
      Running(live, parent) && ChildOf(live, parent, child) && !IsBoundary(own, executables, child.pid)
    }

    ghost predicate Closed(kept: set<ProcessIdentity>, s: set<ProcessIdentity>) {
      && kept <= s
      && forall parent, child :: (parent in s || parent == root) && Adopts(parent, child) ==> child in s
    }

    /** The least set that holds `kept` and every child it or the running root leads to. */
    ghost predicate IsLeast(kept: set<ProcessIdentity>, s: set<ProcessIdentity>) {
      && Closed(kept, s)
      && forall other :: Closed(kept, other) ==> s <= other
    }
  }

  ghost predicate NoBoundary(own: Option<Bytes>, executables: map<Pid, Bytes>, s: set<ProcessIdentity>) {
    forall identity :: identity in s ==> !IsBoundary(own, executables, identity.pid)
  }

  /** `adopted` is the greatest part of `recorded` that holds no boundary process. */
  ghost predicate IsWithoutBoundary(own: Option<Bytes>, executables: map<Pid, Bytes>,
                                    recorded: set<ProcessIdentity>, adopted: set<ProcessIdentity>)
  {
    && adopted <= recorded && NoBoundary(own, executables, adopted)
    && forall part :: part <= recorded && NoBoundary(own, executables, part) ==> part <= adopted
  }

  ghost function StillRunning(live: Live, recorded: set<ProcessIdentity>): set<ProcessIdentity> {
    set identity | identity in recorded && Running(live, identity)
  }

  class DescendantTracker {
    const root: ProcessIdentity
    /** File name of our own executable; unknown records nothing. */
    const boundary: Option<Bytes>
    var recorded: set<ProcessIdentity>

    constructor (root: ProcessIdentity, boundary: Option<Bytes>)
      ensures this.root == root && this.boundary == boundary && recorded == {}
    {
      this.root, this.boundary, this.recorded := root, boundary, {};
    }

    method ReadLive(listed: seq<(Pid, Read<ProcessInfo>)>) returns (live: Live)
      ensures live == LiveOf(listed)
    {
      live := map[];
      for k := 0 to |listed|
        invariant live == LiveOf(listed[..k])
      {
        assert listed[..k + 1][..k] == listed[..k];
        if listed[k].1.Found? {
          live := live[listed[k].0 := listed[k].1.value];
        }
      }
      assert listed[..|listed|] == listed;
    }

    /** Group the live processes by the pid of their parent. */
    method ReadChildren(live: Live) returns (children: map<Pid, set<ProcessIdentity>>)
      ensures GroupsByParent(live, LiveIdentities(live), children)
    {
      children := map[];
      ghost var read := {};
      var left := live;
      while left != map[]
        invariant left.Keys <= live.Keys && forall pid :: pid in left ==> left[pid] == live[pid]
        invariant forall identity :: identity in read <==> Running(live, identity) && identity.pid !in left
        invariant GroupsByParent(live, read, children)
        decreases |left|
      {
        var item :| item in left.Items;
        var (pid, info) := item;
        var identity := ProcessIdentity(pid, info.start);
        var siblings := if info.ppid in children then children[info.ppid] else {};
        children := children[info.ppid := siblings + {identity}];
        read := read + {identity};
        left := left - {pid};
      }
      assert read == LiveIdentities(live);
    }
  
    /** Record the children that `parent` adopts, and queue the ones that are new. */
    method Adopt(view: View, parent: ProcessIdentity, claimed: set<ProcessIdentity>, parents: seq<ProcessIdentity>)
      returns (parents': seq<ProcessIdentity>)
      requires Running(view.live, parent) && view.own == boundary
      requires forall child :: child in claimed ==> Running(view.live, child) && view.live[child.pid].ppid == parent.pid
      modifies this
      ensures recorded == old(recorded) + Adopted(view, parent, claimed)
      ensures forall p :: p in parents' <==> p in parents || p in recorded - old(recorded)
      ensures recorded == old(recorded) ==> parents' == parents
    {
      parents' := parents;
      var left := claimed;
      while left != {}
        invariant left <= claimed
        invariant recorded == old(recorded) + Adopted(view, parent, claimed - left)
        invariant forall p :: p in parents' <==> p in parents || p in recorded - old(recorded)
        invariant recorded == old(recorded) ==> parents' == parents
        decreases left
      {
        var child :| child in left;
        left := left - {child};
        assert claimed - left == (claimed - left - {child}) + {child};
        if !(child.start < parent.start || child in recorded || IsBoundary(boundary, view.executables, child.pid)) {
          recorded := recorded + {child};
          parents' := parents' + [child];
        }
      }
      assert claimed - left == claimed;
    }

    /** One observation: the record becomes the least set of its listing, or stays as it is without one. */
    method TryObserve(snapshot: Snapshot) returns (ok: bool)
      modifies this
      ensures ok <==> snapshot.listed.Some?
      ensures !ok ==> recorded == old(recorded)
      ensures ok ==>
                var live := LiveOf(snapshot.listed.value);
                View(root, boundary, live, snapshot.executables).IsLeast(StillRunning(live, old(recorded)), recorded)
    {
      hide WorklistInv, GroupsByParent;
      if snapshot.listed.None? {
        return false;
      }
      var live := ReadLive(snapshot.listed.value);
      var view := View(root, boundary, live, snapshot.executables);
      recorded := set identity | identity in recorded && Running(live, identity);
      ghost var kept := recorded;
      var children := ReadChildren(live);
      var parents := Sequence(recorded);
      if Running(live, root) {
        parents := parents + [root];
      }
      WorklistStarts(view, kept, parents, children);
      while parents != []
        invariant WorklistInv(view, kept, recorded, parents, children)
        decreases LiveIdentities(live) - recorded, |parents|
      {
        ghost var before, queued := recorded, parents;
        var parent := parents[|parents|-1];
        var claimed := if parent.pid in children then children[parent.pid] else {};
        WorklistClaims(view, kept, recorded, parents, children);
        var children' := children - {parent.pid};
        parents := Adopt(view, parent, claimed, parents[..|parents|-1]);
        LiveIsRunning(live);
        WorklistStep(view, kept, before, queued, children, claimed, recorded, parents);
        children := children';
      }
      WorklistDone(view, kept, recorded, children);
      ok := true;
    }

    /** The greatest part of the record that holds no boundary by the answers of this second check. */
    method IntoAdopted(executables: map<Pid, Bytes>) returns (adopted: set<ProcessIdentity>)
      ensures IsWithoutBoundary(boundary, executables, recorded, adopted)
    {
      adopted := set identity | identity in recorded && !IsBoundary(boundary, executables, identity.pid);
      forall part | part <= recorded && NoBoundary(boundary, executables, part) ensures part <= adopted {
      }
    }
  }

  method Sequence(s: set<ProcessIdentity>) returns (q: seq<ProcessIdentity>)
    ensures forall x :: x in q <==> x in s
  {
    q := [];
    var left := s;
    while left != {}
      invariant left <= s && forall x :: x in q <==> x in s - left
      decreases left
    {
      var x :| x in left;
      left, q := left - {x}, q + [x];
    }
  }

  ghost function Adopted(view: View, parent: ProcessIdentity, claimed: set<ProcessIdentity>): set<ProcessIdentity> {
    set child | child in claimed && child.start >= parent.start && !IsBoundary(view.own, view.executables, child.pid)
  }

  /** Every listed identity in `read` is filed under its parent's pid, and nothing else is filed. */
  ghost predicate GroupsByParent(live: Live, read: set<ProcessIdentity>, children: map<Pid, set<ProcessIdentity>>) {
    && (forall ppid, child :: ppid in children && child in children[ppid] ==>
          child in read && Running(live, child) && live[child.pid].ppid == ppid)
    && (forall child :: child in read && Running(live, child) ==>
          live[child.pid].ppid in children && child in children[live[child.pid].ppid])
  }

  // ----- the worklist -----

  /** Every child that `parent` must record is recorded. */
  ghost predicate Handled(view: View, recorded: set<ProcessIdentity>, parent: ProcessIdentity) {
    forall child :: view.Adopts(parent, child) ==> child in recorded
  }

  ghost predicate Tracked(view: View, recorded: set<ProcessIdentity>, parent: ProcessIdentity) {
    Running(view.live, parent) && (parent in recorded || parent == view.root)
  }

  ghost predicate Minimal(view: View, kept: set<ProcessIdentity>, recorded: set<ProcessIdentity>) {
    forall other :: view.Closed(kept, other) ==> recorded <= other
  }

  /** `children` still holds all children of the pids it names. */
  ghost predicate Unclaimed(live: Live, children: map<Pid, set<ProcessIdentity>>) {
    forall ppid, child :: ppid in children ==>
      (child in children[ppid] <==> Running(live, child) && live[child.pid].ppid == ppid)
  }

  ghost predicate WorklistInv(view: View, kept: set<ProcessIdentity>, recorded: set<ProcessIdentity>,
                              parents: seq<ProcessIdentity>, children: map<Pid, set<ProcessIdentity>>)
  {
    && kept <= recorded && (forall identity :: identity in recorded ==> Running(view.live, identity))
    && Minimal(view, kept, recorded)
    && Unclaimed(view.live, children)
    && (forall p :: p in parents ==> Tracked(view, recorded, p))
    && (forall p :: Tracked(view, recorded, p) && p !in parents ==> Handled(view, recorded, p))
    && (forall p :: Running(view.live, p) && p.pid !in children ==> Handled(view, recorded, p))
  }

  lemma WorklistStarts(view: View, kept: set<ProcessIdentity>, parents: seq<ProcessIdentity>,
                       children: map<Pid, set<ProcessIdentity>>)
    requires forall identity :: identity in kept ==> Running(view.live, identity)
    requires forall p :: p in parents <==> Tracked(view, kept, p)
    requires GroupsByParent(view.live, LiveIdentities(view.live), children)
    ensures WorklistInv(view, kept, kept, parents, children)
  {
  }

  /** What is claimed for the next parent is all its listed children, unless they were claimed before. */
  lemma WorklistClaims(view: View, kept: set<ProcessIdentity>, recorded: set<ProcessIdentity>,
                       parents: seq<ProcessIdentity>, children: map<Pid, set<ProcessIdentity>>)
    requires WorklistInv(view, kept, recorded, parents, children) && parents != []
    ensures Running(view.live, parents[|parents|-1])
    ensures var parent := parents[|parents|-1];
            parent.pid in children ==>
              forall child :: child in children[parent.pid] ==>
                Running(view.live, child) && view.live[child.pid].ppid == parent.pid
  {
    assert parents[|parents|-1] in parents;
  }

  lemma WorklistStep(view: View, kept: set<ProcessIdentity>, recorded: set<ProcessIdentity>,
                     parents: seq<ProcessIdentity>, children: map<Pid, set<ProcessIdentity>>,
                     claimed: set<ProcessIdentity>, recorded': set<ProcessIdentity>, parents': seq<ProcessIdentity>)
    requires WorklistInv(view, kept, recorded, parents, children) && parents != []
    requires var parent := parents[|parents|-1];
             && claimed == (if parent.pid in children then children[parent.pid] else {})
             && recorded' == recorded + Adopted(view, parent, claimed)
    requires forall p :: p in parents' <==> p in parents[..|parents|-1] || p in recorded' - recorded
    ensures WorklistInv(view, kept, recorded', parents', children - {parents[|parents|-1].pid})
  {
    var parent := parents[|parents|-1];
    assert parents == parents[..|parents|-1] + [parent];
    assert parent in parents && Tracked(view, recorded, parent);
    forall child | view.Adopts(parent, child) ensures child in recorded' {
      if parent.pid in children {
        assert child in claimed;
      } else {
        assert Handled(view, recorded, parent);
      }
    }
    assert Handled(view, recorded', parent);
    forall p | p in parents' ensures Tracked(view, recorded', p) {
      assert p in parents[..|parents|-1] ==> p in parents && Tracked(view, recorded, p);
    }
    forall p | Handled(view, recorded, p) ensures Handled(view, recorded', p) {
    }
    forall other | view.Closed(kept, other) ensures recorded' <= other {
      forall child | child in Adopted(view, parent, claimed) ensures child in other {
        assert view.Adopts(parent, child);
      }
    }
    forall p | Running(view.live, p) && p.pid !in children - {parent.pid} ensures Handled(view, recorded', p) {
      if p.pid == parent.pid {
        assert p == parent;
      }
    }
  }

  lemma WorklistDone(view: View, kept: set<ProcessIdentity>, recorded: set<ProcessIdentity>,
                     children: map<Pid, set<ProcessIdentity>>)
    requires WorklistInv(view, kept, recorded, [], children)
    ensures view.IsLeast(kept, recorded)
  {
    forall parent, child | (parent in recorded || parent == view.root) && view.Adopts(parent, child)
      ensures child in recorded
    {
      assert Handled(view, recorded, parent);
    }
  }

  // ----- what is recorded, in terms of names and listings alone -----

  /** `name` is our own file name `own`, as it is or as Linux shows it once the file is replaced. */
  ghost predicate IsOurs(own: Bytes, name: Bytes) {
    name == own + " (deleted)" || (name == own && !EndsDeleted(own))
  }

  /** A running file's own name never ends so, since the ending is taken off it as well. */
  ghost predicate EndsDeleted(own: Bytes) {
    |own| >= 10 && own[|own|-10..] == " (deleted)"
  }

  /** A process bounds the tree exactly when we do not know our own name, its name was not read, or its name is ours. */
  lemma BoundaryByName(own: Option<Bytes>, executables: map<Pid, Bytes>, pid: Pid)
    ensures IsBoundary(own, executables, pid) <==>
            own.None? || pid !in executables || IsOurs(own.value, executables[pid])
  {
    if own.Some? && pid in executables {
      var name := executables[pid];
      var stripped := own.value + " (deleted)";
      assert stripped[|stripped|-10..] == " (deleted)" && stripped[..|stripped|-10] == own.value;
      if |name| >= 10 && name[|name|-10..] == " (deleted)" {
        assert name == name[..|name|-10] + " (deleted)";
      }
    }
  }

  /** The last answer for `pid` in the listing that found a live process, if any. */
  ghost predicate LastFound(listed: seq<(Pid, Read<ProcessInfo>)>, pid: Pid, k: nat) {
    && k < |listed| && listed[k].0 == pid && listed[k].1.Found?
    && forall j | k < j < |listed| && listed[j].0 == pid :: !listed[j].1.Found?
  }

  /** The live processes are those some answer found, with what the last such answer said. */
  lemma {:induction false} LiveByListing(listed: seq<(Pid, Read<ProcessInfo>)>, pid: Pid)
    ensures pid in LiveOf(listed) <==> exists k: nat :: LastFound(listed, pid, k)
    ensures forall k: nat :: LastFound(listed, pid, k) ==> pid in LiveOf(listed) && LiveOf(listed)[pid] == listed[k].1.value
  {
    if listed != [] {
      var n := |listed| - 1;
      var init := listed[..n];
      LiveByListing(init, pid);
      if listed[n].0 == pid && listed[n].1.Found? {
        assert LastFound(listed, pid, n);
      } else {
        assert forall k: nat :: LastFound(listed, pid, k) <==> LastFound(init, pid, k);
      }
    }
  }

  /**
   What one observation does with a live child of a running parent that is the root or
   recorded, in terms of start times and names: one that is not older and not ours is
   recorded, and one that was not kept from before is recorded for no other reason.
   */
  lemma ObservationByName(view: View, kept: set<ProcessIdentity>, recorded: set<ProcessIdentity>,
                          parent: ProcessIdentity, child: ProcessIdentity)
    requires view.IsLeast(kept, recorded)
    requires parent == view.root || parent in recorded
    requires parent.pid in view.live && view.live[parent.pid].start == parent.start
    requires child.pid in view.live && view.live[child.pid].start == child.start && view.live[child.pid].ppid == parent.pid
    ensures (&& child.start >= parent.start && view.own.Some? && child.pid in view.executables
             && !IsOurs(view.own.value, view.executables[child.pid])) ==> child in recorded
  {
    BoundaryByName(view.own, view.executables, child.pid);
    assert view.Adopts(parent, child) || IsBoundary(view.own, view.executables, child.pid) || child.start < parent.start;
  }

  /** What an observation adds is live, under a tracked parent that is not younger, and has a name that was read and is not ours. */
  lemma NewlyRecordedByName(view: View, kept: set<ProcessIdentity>, recorded: set<ProcessIdentity>, child: ProcessIdentity)
    requires view.IsLeast(kept, recorded) && child in recorded && child !in kept
    ensures view.own.Some? && child.pid in view.executables && !IsOurs(view.own.value, view.executables[child.pid])
    ensures child.pid in view.live && view.live[child.pid].start == child.start
    ensures exists parent: ProcessIdentity :: (parent == view.root || parent in recorded)
              && parent.pid in view.live && view.live[parent.pid].start == parent.start
              && view.live[child.pid].ppid == parent.pid && child.start >= parent.start
  {
    BoundaryByName(view.own, view.executables, child.pid);
    if forall parent :: (parent in recorded || parent == view.root) ==> !view.Adopts(parent, child) {
      assert view.Closed(kept, recorded - {child});
      assert false;
    }
    var parent :| (parent in recorded || parent == view.root) && view.Adopts(parent, child);
  }

  /** Without a name of our own nothing new is recorded. */
  lemma UnknownNameRecordsNothing(view: View, kept: set<ProcessIdentity>, recorded: set<ProcessIdentity>)
    requires view.IsLeast(kept, recorded) && view.own.None?
    ensures recorded == kept
  {
    assert view.Closed(kept, kept);
  }

  /** The set handed over is the record without what is ours or was not read at that time. */
  lemma AdoptedByName(own: Option<Bytes>, executables: map<Pid, Bytes>, recorded: set<ProcessIdentity>,
                      adopted: set<ProcessIdentity>, identity: ProcessIdentity)
    requires IsWithoutBoundary(own, executables, recorded, adopted)
    ensures identity in adopted <==>
            && identity in recorded && own.Some? && identity.pid in executables
            && !IsOurs(own.value, executables[identity.pid])
  {
    BoundaryByName(own, executables, identity.pid);
    if identity in recorded && !IsBoundary(own, executables, identity.pid) {
      assert NoBoundary(own, executables, {identity}) && {identity} <= recorded;
      assert {identity} <= adopted;
    }
  }
}

/** What holds over any sequence of observations of one tracked child. */
module DescendantRuns {
  import opened Basics
  import opened Processes
  import opened Descendants

  /** Observations in order, and the record before the first and after each. */
  datatype Run = Run(root: ProcessIdentity, own: Option<Bytes>, snapshots: seq<Snapshot>, records: seq<set<ProcessIdentity>>) {

    ghost function ViewAt(k: nat): View
      requires k < |snapshots| && snapshots[k].listed.Some?
    {
      View(root, own, LiveOf(snapshots[k].listed.value), snapshots[k].executables)
    }

    /** Each record follows from the one before it by one observation. */
    ghost predicate Valid() {
      && |records| == |snapshots| + 1 && records[0] == {}
      && forall k | 0 <= k < |snapshots| ::
           if snapshots[k].listed.None? then records[k+1] == records[k]
           else ViewAt(k).IsLeast(StillRunning(ViewAt(k).live, records[k]), records[k+1])
    }

    /** No listing in `i..j` showed the process gone or its pid reused. */
    ghost predicate LiveThroughout(identity: ProcessIdentity, i: nat, j: nat)
      requires j <= |snapshots|
    {
      forall k | i <= k < j && snapshots[k].listed.Some? :: Running(ViewAt(k).live, identity)
    }

    /** Some observation before `k` listed `child` under `parent`, both live and `child` no boundary. */
    ghost predicate Linked(k: nat, parent: ProcessIdentity, child: ProcessIdentity)
      requires k <= |snapshots|
    {
      exists i | 0 <= i < k :: snapshots[i].listed.Some? && ViewAt(i).Adopts(parent, child)
    }

    /** `path` leads from the root to `identity` by links seen before observation `k`. */
    ghost predicate Descends(k: nat, path: seq<ProcessIdentity>, identity: ProcessIdentity)
      requires k <= |snapshots|
    {
      && |path| >= 2 && path[0] == root && path[|path|-1] == identity
      && forall n | 0 <= n < |path| - 1 :: Linked(k, path[n], path[n+1])
    }
  }

  /** The listings alone determine every record: the order in which the worklist ran leaves no trace. */
  lemma {:induction false} RecordsAreDetermined(a: Run, b: Run, k: nat)
    requires a.Valid() && b.Valid() && a.root == b.root && a.own == b.own && a.snapshots == b.snapshots
    requires k <= |a.snapshots|
    ensures a.records[k] == b.records[k]
    decreases k
  {
    if k > 0 {
      RecordsAreDetermined(a, b, k - 1);
    }
  }

  /** Everything a successful observation leaves recorded is live in its listing, so a reused pid is not mistaken. */
  lemma RecordedIsRunning(run: Run, k: nat)
    requires run.Valid() && k < |run.snapshots| && run.snapshots[k].listed.Some?
    ensures forall identity :: identity in run.records[k+1] ==> Running(run.ViewAt(k).live, identity)
    ensures forall a, b :: a in run.records[k+1] && b in run.records[k+1] && a.pid == b.pid ==> a == b
  {
    var view, record := run.ViewAt(k), run.records[k+1];
    var kept := StillRunning(view.live, run.records[k]);
    var running := set identity | identity in record && Running(view.live, identity);
    assert view.Closed(kept, running);
  }

  /** A recorded process stays recorded while its identity is live, whatever its parent becomes. */
  lemma {:induction false} StaysRecorded(run: Run, identity: ProcessIdentity, i: nat, j: nat)
    requires run.Valid() && i <= j <= |run.snapshots|
    requires identity in run.records[i] && run.LiveThroughout(identity, i, j)
    ensures identity in run.records[j]
    decreases j - i
  {
    if i < j {
      assert identity in run.records[i+1];
      StaysRecorded(run, identity, i + 1, j);
    }
  }

  lemma LinkedLater(run: Run, k: nat, parent: ProcessIdentity, child: ProcessIdentity)
    requires k < |run.snapshots| && run.Linked(k, parent, child)
    ensures run.Linked(k + 1, parent, child)
  {
  }

  lemma DescendsLater(run: Run, k: nat, path: seq<ProcessIdentity>, identity: ProcessIdentity)
    requires k < |run.snapshots| && run.Descends(k, path, identity)
    ensures run.Descends(k + 1, path, identity)
  {
    forall n | 0 <= n < |path| - 1 ensures run.Linked(k + 1, path[n], path[n+1]) {
      LinkedLater(run, k, path[n], path[n+1]);
    }
  }

  ghost predicate HasDescent(run: Run, k: nat, identity: ProcessIdentity)
    requires k <= |run.snapshots|
  {
    exists path :: run.Descends(k, path, identity)
  }

  /** A child adopted by the root or by a descendant is a descendant. */
  lemma DescentExtends(run: Run, k: nat, parent: ProcessIdentity, child: ProcessIdentity)
    requires k < |run.snapshots| && run.snapshots[k].listed.Some? && run.ViewAt(k).Adopts(parent, child)
    requires parent == run.root || HasDescent(run, k + 1, parent)
    ensures HasDescent(run, k + 1, child)
  {
    assert run.Linked(k + 1, parent, child);
    if parent == run.root {
      assert run.Descends(k + 1, [parent, child], child);
    } else {
      var path :| run.Descends(k + 1, path, parent);
      assert run.Descends(k + 1, path + [child], child);
    }
  }

  /** Nothing is ever recorded without a chain of links down from the root, each of them past no boundary. */
  lemma {:induction false} RecordedDescends(run: Run, k: nat, identity: ProcessIdentity)
    requires run.Valid() && k <= |run.snapshots| && identity in run.records[k]
    ensures HasDescent(run, k, identity)
    decreases k
  {
    if k > 0 {
      var before := run.records[k-1];
      forall earlier | earlier in before ensures HasDescent(run, k, earlier) {
        RecordedDescends(run, k - 1, earlier);
        var path :| run.Descends(k - 1, path, earlier);
        DescendsLater(run, k - 1, path, earlier);
      }
      if run.snapshots[k-1].listed.Some? {
        var view := run.ViewAt(k - 1);
        var kept := StillRunning(view.live, before);
        var descended := set x | x in run.records[k] && HasDescent(run, k, x);
        forall parent, child | (parent in descended || parent == view.root) && view.Adopts(parent, child)
          ensures child in descended
        {
          DescentExtends(run, k - 1, parent, child);
        }
        assert view.Closed(kept, descended);
      }
    }
  }
}
