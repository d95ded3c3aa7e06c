/** `ProcessTree::{build, roots, family, aggregate}`. */
module Traversal {
  import opened Results
  import opened Model
  import opened Seqs
  import opened Forest

  // ---- build and roots --------------------------------------------------------------

  /** Collecting into a map by pid: the last snapshot of a pid wins. */
  function NodesOf(snapshots: seq<Snapshot>): Nodes {
    if snapshots == [] then map[]
    else NodesOf(Front(snapshots))[Last(snapshots).pid := Last(snapshots)]
  }

  /** Linking the processes in `done` to their parents. */
  ghost predicate Linked(nodes: Nodes, children: map<Pid, seq<Pid>>, done: set<Pid>) {
    && (forall p :: p in children <==> Kids(nodes, p) * done != {})
    && (forall p :: p in children ==> Enumerates(children[p], Kids(nodes, p) * done))
  }

  method Link(nodes: Nodes, children: map<Pid, seq<Pid>>, pid: Pid, ghost done: set<Pid>)
    returns (linked: map<Pid, seq<Pid>>)
    requires pid in nodes && nodes[pid].pid == pid && pid !in done && Linked(nodes, children, done)
    ensures Linked(nodes, linked, done + {pid})
  {
    var snap := nodes[pid];
    linked := children;
    forall p: Pid ensures Kids(nodes, p) * (done + {pid}) ==
                     if Parent(nodes, pid) == Some(p) then Kids(nodes, p) * done + {pid} else Kids(nodes, p) * done {}
    if snap.ppid in nodes && snap.ppid != snap.pid {
      var siblings := if snap.ppid in children then children[snap.ppid] else [];
      assert Enumerates(siblings, Kids(nodes, snap.ppid) * done);
      assert Elements(siblings + [pid]) == Elements(siblings) + {pid};
      assert pid !in Elements(siblings);
      linked := children[snap.ppid := siblings + [pid]];
      assert pid in Kids(nodes, snap.ppid) * (done + {pid});
    }
  }

  /** The last snapshot of a pid is the pid's node, and there are no other nodes. */
  lemma {:induction false} NodesAreLatest(snapshots: seq<Snapshot>, p: Pid)
    ensures p in NodesOf(snapshots) <==> exists i :: 0 <= i < |snapshots| && snapshots[i].pid == p
    ensures forall i :: 0 <= i < |snapshots| && snapshots[i].pid == p
                        && (forall j :: i < j < |snapshots| ==> snapshots[j].pid != p) ==>
              p in NodesOf(snapshots) && NodesOf(snapshots)[p] == snapshots[i]
  {
    if snapshots != [] {
      var f := Front(snapshots);
      NodesAreLatest(f, p);
      assert forall i :: 0 <= i < |f| ==> f[i] == snapshots[i];
      assert snapshots[|f|] == Last(snapshots);
    }
  }

  method Build(snapshots: seq<Snapshot>) returns (t: Tree)
    ensures Built(t) && t.nodes == NodesOf(snapshots)
    ensures forall p: Pid, c: Pid :: c in ChildList(t, p) <==> ChildOf(t.nodes, p, c)
  {
    var nodes: Nodes := map[];
    for i := 0 to |snapshots|
      invariant nodes == NodesOf(snapshots[..i])
      invariant forall p :: p in nodes ==> nodes[p].pid == p
    {
      assert Front(snapshots[..i + 1]) == snapshots[..i];
      nodes := nodes[snapshots[i].pid := snapshots[i]];
    }
    assert snapshots[..|snapshots|] == snapshots;
    var order := Iterate(nodes.Keys);
    var children: map<Pid, seq<Pid>> := map[];
    for i := 0 to |order|
      invariant Linked(nodes, children, Elements(order[..i]))
    {
      assert order[i] in Elements(order);
      assert Elements(order[..i + 1]) == Elements(order[..i]) + {order[i]};
      children := Link(nodes, children, order[i], Elements(order[..i]));
    }
    assert order[..|order|] == order;
    hide ChildList;
    forall p: Pid ensures Kids(nodes, p) * Elements(order) == Kids(nodes, p) {}
    t := Tree(nodes, children);
    hide Built;
    forall p: Pid, c: Pid ensures c in ChildList(t, p) <==> ChildOf(t.nodes, p, c) {
      ChildByParent(t, p, c);
    }
  }

  predicate ChildOf(nodes: Nodes, p: Pid, c: Pid) {
    p in nodes && c in nodes && nodes[c].ppid == p && c != p
  }

  lemma ChildByParent(t: Tree, p: Pid, c: Pid)
    requires Built(t)
    ensures c in ChildList(t, p) <==> ChildOf(t.nodes, p, c)
  {
    hide Built, ChildList;
    ChildrenAreKids(t, p);
  }

  method RootsOf(t: Tree) returns (roots: seq<Pid>)
    ensures Enumerates(roots, Roots(t.nodes))
    ensures forall p :: p in roots <==>
              p in t.nodes && (t.nodes[p].ppid == p || t.nodes[p].ppid !in t.nodes)
  {
    var order := Iterate(t.nodes.Keys);
    roots := [];
    for i := 0 to |order|
      invariant Enumerates(roots, Roots(t.nodes) * Elements(order[..i]))
    {
      var pid := order[i];
      assert pid in Elements(order);
      assert Elements(order[..i + 1]) == Elements(order[..i]) + {pid} && pid !in Elements(order[..i]);
      if t.nodes[pid].ppid == pid || t.nodes[pid].ppid !in t.nodes {
        assert pid !in Elements(roots);
        assert Elements(roots + [pid]) == Elements(roots) + {pid};
        roots := roots + [pid];
      }
    }
    assert order[..|order|] == order;
    assert forall p :: p in roots <==> p in Elements(roots);
  }

  // ---- family: breadth first, without a visited set -----------------------------------

  datatype Bfs = Bfs(family: seq<Pid>, queue: seq<Pid>)

  function BfsStep(t: Tree, b: Bfs): Bfs {
    if b.queue == [] then b
    else Bfs(b.family + [b.queue[0]], b.queue[1..] + ChildList(t, b.queue[0]))
  }

  function BfsAfter(t: Tree, pid: Pid, n: nat): Bfs
    decreases n
  {
    if n == 0 then Bfs([], [pid]) else BfsStep(t, BfsAfter(t, pid, n - 1))
  }

  /** Everything met so far is met once, through its parent, and the children of
      everything visited have been met. */
  ghost predicate Met(t: Tree, pid: Pid, b: Bfs) {
    var found := b.family + b.queue;
    && NoDup(found)
    && pid in found
    && (forall q :: q in found ==> q in t.nodes)
    && (forall q :: q in b.family ==> Kids(t.nodes, q) <= Elements(found))
    && (forall q :: q in found && q != pid ==> Parent(t.nodes, q).Some? && Parent(t.nodes, q).value in b.family)
  }

  /** levels[i] is the distance of the i-th met pid from the start; distances never
      decrease and the queue spans at most two of them. */
  ghost predicate Levelled(nodes: Nodes, pid: Pid, b: Bfs, levels: seq<nat>) {
    var found := b.family + b.queue;
    && |levels| == |found|
    && (forall i :: 0 <= i < |found| ==> Anc(nodes, found[i], levels[i]) == Some(pid))
    && (forall i, j :: 0 <= i < j < |found| ==> levels[i] <= levels[j])
    && (b.queue != [] ==> forall i :: 0 <= i < |found| ==> levels[i] <= levels[|b.family|] + 1)
  }

  /** The children of the pid at the head of the queue have not been met before. */
  lemma KidIsNew(t: Tree, pid: Pid, b: Bfs, levels: seq<nat>, c: Pid)
    requires !OnCycle(t.nodes, pid) && Met(t, pid, b) && Levelled(t.nodes, pid, b, levels) && b.queue != []
    requires c in Kids(t.nodes, b.queue[0])
    ensures c !in b.family + b.queue
    ensures Anc(t.nodes, c, levels[|b.family|] + 1) == Some(pid)
  {
    var found, n := b.family + b.queue, |b.family|;
    assert found[n] == b.queue[0];
    assert Anc(t.nodes, c, levels[n] + 1) == Some(pid);
    assert c != pid by {
      if c == pid { assert OnCycle(t.nodes, pid); }
    }
    assert b.queue[0] !in b.family by {
      assert forall j :: 0 <= j < n ==> b.family[j] == found[j];
    }
  }

  lemma NoDupJoin<T>(a: seq<T>, b: seq<T>)
    requires NoDup(a) && NoDup(b) && forall x :: x in b ==> x !in a
    ensures NoDup(a + b)
  {
    forall i, j | 0 <= i < j < |a + b| ensures (a + b)[i] != (a + b)[j] {
      if i < |a| <= j {
        assert (a + b)[j] in b;
      }
    }
  }

  lemma StepFinds(t: Tree, b: Bfs)
    requires b.queue != []
    ensures BfsStep(t, b).family + BfsStep(t, b).queue == b.family + b.queue + ChildList(t, b.queue[0])
  {
    hide ChildList;
  }

  lemma ChildrenAreKids(t: Tree, p: Pid)
    requires Built(t)
    ensures NoDup(ChildList(t, p))
    ensures forall c :: c in ChildList(t, p) <==> c in Kids(t.nodes, p)
  {
    var kids := ChildList(t, p);
    forall c ensures c in kids <==> c in Kids(t.nodes, p) {
      assert c in kids <==> c in Elements(kids);
    }
  }

  lemma StepKeepsMet(t: Tree, pid: Pid, b: Bfs, levels: seq<nat>)
    requires Built(t) && !OnCycle(t.nodes, pid)
    requires Met(t, pid, b) && Levelled(t.nodes, pid, b, levels) && b.queue != []
    ensures Met(t, pid, BfsStep(t, b))
  {
    hide Anc, Levelled, OnCycle, ChildList, Built;
    var head, kids := b.queue[0], ChildList(t, b.queue[0]);
    var found, b' := b.family + b.queue, BfsStep(t, b);
    var found' := found + kids;
    StepFinds(t, b);
    ChildrenAreKids(t, head);
    forall c | c in kids ensures c !in found {
      KidIsNew(t, pid, b, levels, c);
    }
    NoDupJoin(found, kids);
    forall q | q in b'.family ensures Kids(t.nodes, q) <= Elements(found') {
      if q == head {
        forall c | c in Kids(t.nodes, q) ensures c in Elements(found') { assert c in kids; }
      } else {
        assert q in b.family;
        assert Elements(found) <= Elements(found');
      }
    }
  }

  lemma StepKeepsLevels(t: Tree, pid: Pid, b: Bfs, levels: seq<nat>) returns (levels': seq<nat>)
    requires Built(t) && !OnCycle(t.nodes, pid)
    requires Met(t, pid, b) && Levelled(t.nodes, pid, b, levels) && b.queue != []
    ensures Levelled(t.nodes, pid, BfsStep(t, b), levels')
  {
    hide Anc, Met, OnCycle, ChildList, Built;
    var head, kids := b.queue[0], ChildList(t, b.queue[0]);
    var found, n, b' := b.family + b.queue, |b.family|, BfsStep(t, b);
    StepFinds(t, b);
    ChildrenAreKids(t, head);
    levels' := levels + seq(|kids|, i => levels[n] + 1);
    forall c | c in kids ensures Anc(t.nodes, c, levels[n] + 1) == Some(pid) {
      KidIsNew(t, pid, b, levels, c);
    }
    var found' := found + kids;
    forall i | 0 <= i < |found'| ensures Anc(t.nodes, found'[i], levels'[i]) == Some(pid) {
      if i >= |found| {
        assert found'[i] == kids[i - |found|] && kids[i - |found|] in kids;
        assert levels'[i] == levels[n] + 1;
      }
    }
    assert forall i :: 0 <= i < |found| ==> levels[i] <= levels[n] + 1;
    assert forall i :: n <= i < |levels'| ==> levels[n] <= levels'[i] <= levels[n] + 1;
  }

  lemma StartMet(t: Tree, pid: Pid)
    requires pid in t.nodes
    ensures Met(t, pid, Bfs([], [pid])) && Levelled(t.nodes, pid, Bfs([], [pid]), [0])
  {
    assert Anc(t.nodes, pid, 0) == Some(pid);
  }

  /** With an empty queue, everything below the start has been visited. */
  lemma {:induction false} DescendantVisited(t: Tree, pid: Pid, b: Bfs, q: Pid, n: nat)
    requires Met(t, pid, b) && b.queue == [] && q in t.nodes && Anc(t.nodes, q, n) == Some(pid)
    ensures q in b.family
    decreases n
  {
    assert b.family + b.queue == b.family;
    if n > 0 {
      var p := Parent(t.nodes, q).value;
      DescendantVisited(t, pid, b, p, n - 1);
      assert q in Kids(t.nodes, p);
    }
  }

  lemma MetInFamily(t: Tree, pid: Pid, b: Bfs, levels: seq<nat>)
    requires Met(t, pid, b) && Levelled(t.nodes, pid, b, levels)
    ensures Elements(b.family + b.queue) <= Family(t.nodes, pid)
  {
    var found := b.family + b.queue;
    forall q | q in found ensures q in Family(t.nodes, pid) {
      var i :| 0 <= i < |found| && found[i] == q;
      assert Anc(t.nodes, q, levels[i]) == Some(pid);
    }
  }

  lemma QueueEmptyIsFamily(t: Tree, pid: Pid, b: Bfs, levels: seq<nat>)
    requires Met(t, pid, b) && Levelled(t.nodes, pid, b, levels) && b.queue == []
    ensures Enumerates(b.family, Family(t.nodes, pid))
  {
    assert b.family + b.queue == b.family;
    MetInFamily(t, pid, b, levels);
    forall q | q in Family(t.nodes, pid) ensures q in b.family {
      var n: nat :| Anc(t.nodes, q, n) == Some(pid);
      DescendantVisited(t, pid, b, q, n);
    }
  }

  /** Pids appear in order of distance from pid. */
  ghost predicate BreadthFirst(nodes: Nodes, pid: Pid, family: seq<Pid>) {
    forall i, j, m: nat, n: nat | 0 <= i < j < |family| ::
      Anc(nodes, family[i], m) == Some(pid) && Anc(nodes, family[j], n) == Some(pid) ==> m <= n
  }

  lemma LevelledIsBreadthFirst(nodes: Nodes, pid: Pid, b: Bfs, levels: seq<nat>)
    requires !OnCycle(nodes, pid) && Levelled(nodes, pid, b, levels)
    ensures BreadthFirst(nodes, pid, b.family)
  {
    var found := b.family + b.queue;
    forall i, j, m: nat, n: nat | 0 <= i < j < |b.family|
                                  && Anc(nodes, b.family[i], m) == Some(pid) && Anc(nodes, b.family[j], n) == Some(pid)
      ensures m <= n
    {
      assert found[i] == b.family[i] && found[j] == b.family[j];
      LevelUnique(nodes, pid, b.family[i], m, levels[i]);
      LevelUnique(nodes, pid, b.family[j], n, levels[j]);
    }
  }

  lemma ChildListIs(t: Tree, p: Pid)
    ensures ChildList(t, p) == if p in t.children then t.children[p] else []
  {
  }

  /** `family`. On a pid that lies on a ppid cycle the source's loop never ends
      (see FamilyTerminatesIffOffCycle), so such a pid cannot be asked for here. */
  method FamilyOf(t: Tree, pid: Pid) returns (family: seq<Pid>)
    requires Built(t) && !OnCycle(t.nodes, pid)
    ensures pid !in t.nodes ==> family == []
    ensures pid in t.nodes ==> Enumerates(family, Family(t.nodes, pid)) && BreadthFirst(t.nodes, pid, family)
  {
    hide Met, Levelled, Anc, ChildList;
    if pid !in t.nodes {
      return [];
    }
    family := [];
    var queue := [pid];
    ghost var levels := [0];
    StartMet(t, pid);
    while queue != []
      invariant Met(t, pid, Bfs(family, queue)) && Levelled(t.nodes, pid, Bfs(family, queue), levels)
      decreases |t.nodes| - |family|
    {
      ghost var next := BfsStep(t, Bfs(family, queue));
      VisitedFewer(t, pid, Bfs(family, queue));
      StepKeepsMet(t, pid, Bfs(family, queue), levels);
      levels := StepKeepsLevels(t, pid, Bfs(family, queue), levels);
      var current := queue[0];
      queue := queue[1..];
      family := family + [current];
      if current in t.children {
        queue := queue + t.children[current];
      }
      ChildListIs(t, current);
      assert queue + [] == queue;
      assert Bfs(family, queue) == next;
    }
    QueueEmptyIsFamily(t, pid, Bfs(family, queue), levels);
    LevelledIsBreadthFirst(t.nodes, pid, Bfs(family, queue), levels);
  }

  lemma VisitedFewer(t: Tree, pid: Pid, b: Bfs)
    requires Met(t, pid, b) && b.queue != []
    ensures |b.family| < |t.nodes|
  {
    var found := b.family + b.queue;
    EnumeratesBound(found, t.nodes.Keys);
    assert |t.nodes.Keys| == |t.nodes|;
  }

  // ---- When the search ends ---------------------------------------------------------

  /** Off cycles, the search is done after visiting the whole family. */
  lemma {:induction false} SearchProgress(t: Tree, pid: Pid, n: nat) returns (levels: seq<nat>)
    requires Built(t) && pid in t.nodes && !OnCycle(t.nodes, pid)
    requires n > 0 ==> BfsAfter(t, pid, n - 1).queue != []
    ensures Met(t, pid, BfsAfter(t, pid, n)) && Levelled(t.nodes, pid, BfsAfter(t, pid, n), levels)
    ensures |BfsAfter(t, pid, n).family| == n
    decreases n
  {
    hide Met, Levelled;
    if n == 0 {
      StartMet(t, pid);
      levels := [0];
    } else {
      var before := SearchProgress(t, pid, n - 1);
      StepKeepsMet(t, pid, BfsAfter(t, pid, n - 1), before);
      levels := StepKeepsLevels(t, pid, BfsAfter(t, pid, n - 1), before);
    }
  }

  /** On a cycle, some member of the cycle is always waiting in the queue. */
  lemma {:induction false} CycleStaysQueued(t: Tree, pid: Pid, n: nat) returns (i: nat, q: Pid)
    requires Built(t) && OnCycle(t.nodes, pid)
    ensures Anc(t.nodes, pid, i) == Some(q) && q in BfsAfter(t, pid, n).queue
    decreases n
  {
    hide ChildList, Built, Kids;
    if n == 0 {
      i, q := 0, pid;
    } else {
      i, q := CycleStaysQueued(t, pid, n - 1);
      var b := BfsAfter(t, pid, n - 1);
      if q == b.queue[0] {
        var below := CycleChild(t, pid, i, q);
        i, q := below.0, below.1;
        assert q in b.queue[1..] + ChildList(t, b.queue[0]);
      } else {
        assert q in b.queue[1..];
      }
    }
  }

  lemma FirstAncIsParent(nodes: Nodes, c: Pid)
    ensures Anc(nodes, c, 1) == Parent(nodes, c)
  {
    if Parent(nodes, c).Some? {
      assert Anc(nodes, Parent(nodes, c).value, 0) == Parent(nodes, c);
    }
  }

  lemma ParentHasKid(t: Tree, c: Pid, p: Pid)
    requires Built(t) && Parent(t.nodes, c) == Some(p)
    ensures c in ChildList(t, p)
  {
    assert c in Kids(t.nodes, p);
    assert c in Elements(ChildList(t, p));
  }

  lemma CycleChild(t: Tree, pid: Pid, i: nat, q: Pid) returns (below: (nat, Pid))
    requires Built(t) && OnCycle(t.nodes, pid) && Anc(t.nodes, pid, i) == Some(q)
    ensures Anc(t.nodes, pid, below.0) == Some(below.1) && below.1 in ChildList(t, q)
  {
    hide ChildList, Kids;
    var l: nat :| l > 0 && Anc(t.nodes, pid, l) == Some(pid);
    var up := if i > 0 then i else l;
    assert Anc(t.nodes, pid, up) == Some(q);
    AncShorter(t.nodes, pid, up - 1, up);
    AncAdd(t.nodes, pid, up - 1, 1);
    below := (up - 1, Anc(t.nodes, pid, up - 1).value);
    FirstAncIsParent(t.nodes, below.1);
    ParentHasKid(t, below.1, q);
  }

  /** The loop of `family` stops before its (n+1)-th iteration. */
  predicate SearchDone(t: Tree, pid: Pid, n: nat) {
    BfsAfter(t, pid, n).queue == []
  }

  /** The visited-set-free loop of `family` ends exactly for the pids that do not
      lie on a ppid cycle; whether cycles exist elsewhere does not matter. */
  lemma FamilyTerminatesIffOffCycle(t: Tree, pid: Pid)
    requires Built(t) && pid in t.nodes
    ensures (exists n: nat :: SearchDone(t, pid, n)) <==> !OnCycle(t.nodes, pid)
  {
    hide Met, Levelled, Built, BfsAfter;
    if OnCycle(t.nodes, pid) {
      forall n: nat ensures !SearchDone(t, pid, n) {
        var i, q := CycleStaysQueued(t, pid, n);
      }
    } else if forall n: nat :: !SearchDone(t, pid, n) {
      var n := |t.nodes|;
      assert !SearchDone(t, pid, n) && (n > 0 ==> !SearchDone(t, pid, n - 1));
      var levels := SearchProgress(t, pid, n);
      VisitedFewer(t, pid, BfsAfter(t, pid, n));
    }
  }

  // ---- aggregate ----------------------------------------------------------------------

  datatype Rollup = Rollup(processes: nat, percent: real, rss: nat, threads: nat, openFiles: nat)
  {
    function Plus(other: Rollup): Rollup {
      Rollup(processes + other.processes, percent + other.percent, rss + other.rss,
             threads + other.threads, openFiles + other.openFiles)
    }
  }

  const NOTHING := Rollup(0, 0.0, 0, 0, 0)

  function Of(snap: Snapshot): Rollup {
    Rollup(1, snap.percent, snap.rss, snap.threads, snap.openFiles)
  }

  function Totals(nodes: Nodes, pids: seq<Pid>): Rollup {
    if pids == [] then NOTHING
    else
      var rest := Totals(nodes, Front(pids));
      if Last(pids) in nodes then rest.Plus(Of(nodes[Last(pids)])) else rest
  }

  lemma {:induction false} TotalsAppend(nodes: Nodes, a: seq<Pid>, b: seq<Pid>)
    ensures Totals(nodes, a + b) == Totals(nodes, a).Plus(Totals(nodes, b))
  {
    if b == [] {
      assert a + b == a;
    } else {
      assert Front(a + b) == a + Front(b);
      TotalsAppend(nodes, a, Front(b));
    }
  }

  lemma TotalsMoveLast(nodes: Nodes, a: seq<Pid>, x: Pid, b: seq<Pid>)
    ensures Totals(nodes, a + [x] + b) == Totals(nodes, a + b + [x])
  {
    hide Totals;
    TotalsAppend(nodes, a + [x], b);
    TotalsAppend(nodes, a, [x]);
    TotalsAppend(nodes, a, b);
    TotalsAppend(nodes, a + b, [x]);
  }

  /** The sums do not depend on the order of visiting. */
  lemma {:induction false} TotalsPermute(nodes: Nodes, a: seq<Pid>, b: seq<Pid>)
    requires multiset(a) == multiset(b)
    ensures Totals(nodes, a) == Totals(nodes, b)
  {
    hide Totals;
    if a == [] {
      assert |b| == |multiset(b)| == |multiset(a)| == 0;
    } else {
      var x := Last(a);
      var i := TakeOut(a, b);
      var b1, b2 := b[..i], b[i + 1..];
      TotalsPermute(nodes, Front(a), b1 + b2);
      TotalsMoveLast(nodes, b1, x, b2);
      TotalsAppend(nodes, Front(a), [x]);
      TotalsAppend(nodes, b1 + b2, [x]);
      assert a == Front(a) + [x] && b == b1 + [x] + b2;
    }
  }

  /** Nothing adds up to nothing, and one process to its own figures. */
  lemma TotalsOfOne(nodes: Nodes, p: Pid)
    requires p in nodes
    ensures Totals(nodes, []) == Rollup(0, 0.0, 0, 0, 0)
    ensures var n, r := nodes[p], Totals(nodes, [p]);
            && r.processes == 1 && r.percent == n.percent && r.rss == n.rss
            && r.threads == n.threads && r.openFiles == n.openFiles
  {
    assert Front([p]) == [];
  }

  lemma {:induction false} TotalsCount(nodes: Nodes, pids: seq<Pid>)
    requires Elements(pids) <= nodes.Keys
    ensures Totals(nodes, pids).processes == |pids|
  {
    if pids != [] {
      assert Last(pids) in Elements(pids);
      TotalsCount(nodes, Front(pids));
    }
  }

  /** Each figure of b exceeds that of a by what the figure of y exceeds that of x. */
  predicate Differs(a: Rollup, b: Rollup, x: Snapshot, y: Snapshot) {
    && b.processes == a.processes && b.percent - a.percent == y.percent - x.percent
    && b.rss - a.rss == y.rss - x.rss && b.threads - a.threads == y.threads - x.threads
    && b.openFiles - a.openFiles == y.openFiles - x.openFiles
  }

  lemma {:induction false} TotalsReplace(nodes: Nodes, pids: seq<Pid>, p: Pid, snap: Snapshot)
    requires p in nodes && NoDup(pids)
    ensures if p in pids then Differs(Totals(nodes, pids), Totals(nodes[p := snap], pids), nodes[p], snap)
            else Totals(nodes[p := snap], pids) == Totals(nodes, pids)
  {
    if pids != [] {
      assert pids == Front(pids) + [Last(pids)];
      TotalsReplace(nodes, Front(pids), p, snap);
    }
  }

  lemma {:induction false} SameAncestors(nodes: Nodes, p: Pid, snap: Snapshot, q: Pid, n: nat)
    requires p in nodes && snap.ppid == nodes[p].ppid
    ensures Anc(nodes[p := snap], q, n) == Anc(nodes, q, n)
    decreases n
  {
    var changed := nodes[p := snap];
    assert Parent(changed, q) == Parent(nodes, q);
    if n > 0 && Parent(nodes, q).Some? {
      SameAncestors(nodes, p, snap, Parent(nodes, q).value, n - 1);
    }
  }

  /** A change in what a process uses shows in the rollups of the families it belongs to,
      figure by figure and in full, and in no other rollup. */
  lemma RollupFollowsUsage(nodes: Nodes, p: Pid, snap: Snapshot, top: Pid, family: seq<Pid>)
    requires p in nodes && snap.ppid == nodes[p].ppid && Enumerates(family, Family(nodes, top))
    ensures Family(nodes[p := snap], top) == Family(nodes, top)
    ensures Totals(nodes, family).processes == |Family(nodes, top)|
    ensures if p in Family(nodes, top)
            then Differs(Totals(nodes, family), Totals(nodes[p := snap], family), nodes[p], snap)
            else Totals(nodes[p := snap], family) == Totals(nodes, family)
  {
    forall q, n: nat ensures Anc(nodes[p := snap], q, n) == Anc(nodes, q, n) {
      SameAncestors(nodes, p, snap, q, n);
    }
    SameFamily(nodes, nodes[p := snap], top);
    assert p in family <==> p in Elements(family);
    TotalsReplace(nodes, family, p, snap);
    NoDupCardinality(family);
    TotalsCount(nodes, family);
  }

  lemma SameFamily(nodes: Nodes, changed: Nodes, top: Pid)
    requires changed.Keys == nodes.Keys
    requires forall q, n: nat :: Anc(changed, q, n) == Anc(nodes, q, n)
    ensures Family(changed, top) == Family(nodes, top)
  {
    hide Anc;
    forall q ensures Under(changed, q, top) <==> Under(nodes, q, top) {
      if n: nat :| Anc(nodes, q, n) == Some(top) { assert Anc(changed, q, n) == Some(top); }
      if n: nat :| Anc(changed, q, n) == Some(top) { assert Anc(nodes, q, n) == Some(top); }
    }
  }

  method Aggregate(t: Tree, pid: Pid) returns (r: Option<Rollup>)
    requires Built(t) && !OnCycle(t.nodes, pid)
    ensures pid !in t.nodes ==> r == None
    ensures pid in t.nodes ==>
              r.Some? && forall family :: Enumerates(family, Family(t.nodes, pid)) ==>
                                        r.value == Totals(t.nodes, family)
    ensures pid in t.nodes ==> r.value.processes == |Family(t.nodes, pid)|
  {
    if pid !in t.nodes {
      return None;
    }
    var family := FamilyOf(t, pid);
    var rollup := NOTHING;
    for i := 0 to |family|
      invariant rollup == Totals(t.nodes, family[..i])
    {
      assert Front(family[..i + 1]) == family[..i];
      if family[i] in t.nodes {
        var snap := t.nodes[family[i]];
        rollup := Rollup(rollup.processes + 1, rollup.percent + snap.percent, rollup.rss + snap.rss,
                         rollup.threads + snap.threads, rollup.openFiles + snap.openFiles);
      }
    }
    assert family[..|family|] == family;
    forall other | Enumerates(other, Family(t.nodes, pid)) ensures rollup == Totals(t.nodes, other) {
      EnumerationsPermute(family, other);
      TotalsPermute(t.nodes, family, other);
    }
    NoDupCardinality(family);
    TotalsCount(t.nodes, family);
    r := Some(rollup);
  }

  // ---- Conservation over the roots ------------------------------------------------------

  function Concat(parts: seq<seq<Pid>>): seq<Pid> {
    if parts == [] then [] else Concat(Front(parts)) + Last(parts)
  }

  function SumOf(nodes: Nodes, parts: seq<seq<Pid>>): Rollup {
    if parts == [] then NOTHING else SumOf(nodes, Front(parts)).Plus(Totals(nodes, Last(parts)))
  }

  lemma {:induction false} SumIsTotalOfConcat(nodes: Nodes, parts: seq<seq<Pid>>)
    ensures SumOf(nodes, parts) == Totals(nodes, Concat(parts))
  {
    if parts != [] {
      SumIsTotalOfConcat(nodes, Front(parts));
      TotalsAppend(nodes, Concat(Front(parts)), Last(parts));
    }
  }

  /** families[i] lists the family of roots[i]. */
  ghost predicate FamiliesOf(nodes: Nodes, roots: seq<Pid>, families: seq<seq<Pid>>) {
    && |families| == |roots|
    && forall i :: 0 <= i < |roots| ==> Enumerates(families[i], Family(nodes, roots[i]))
  }

  lemma {:induction false} ConcatFamilies(nodes: Nodes, roots: seq<Pid>, families: seq<seq<Pid>>)
    requires NoDup(roots) && Elements(roots) <= Roots(nodes) && FamiliesOf(nodes, roots, families)
    ensures NoDup(Concat(families))
    ensures forall q :: q in Concat(families) <==> exists i :: 0 <= i < |roots| && q in Family(nodes, roots[i])
  {
    hide Family, Roots;
    if roots != [] {
      var n := |roots| - 1;
      assert forall r :: r in Front(roots) ==> r in roots;
      ConcatFamilies(nodes, Front(roots), Front(families));
      assert roots[n] in Elements(roots);
      forall q | q in Last(families) ensures q !in Concat(Front(families)) {
        assert q in Elements(families[n]);
        if i :| 0 <= i < n && q in Family(nodes, roots[i]) {
          assert roots[i] in Elements(roots);
          RootFamiliesDisjoint(nodes, roots[i], roots[n]);
        }
      }
      NoDupJoin(Concat(Front(families)), Last(families));
      forall q ensures q in Concat(families) <==> exists i :: 0 <= i < |roots| && q in Family(nodes, roots[i]) {
        assert q in Last(families) <==> q in Elements(families[n]);
        if i :| 0 <= i < |roots| && q in Family(nodes, roots[i]) {
          assert i < n ==> q in Family(nodes, Front(roots)[i]);
        }
        if q in Concat(Front(families)) {
          var i :| 0 <= i < |Front(roots)| && q in Family(nodes, Front(roots)[i]);
          assert q in Family(nodes, roots[i]);
        }
      }
    }
  }

  /** The families of the roots partition the pids whose parent chain ends at a
      root, so the roots' rollups add up to the totals over exactly those pids. */
  lemma RootRollupsConserve(nodes: Nodes, roots: seq<Pid>, families: seq<seq<Pid>>, all: seq<Pid>)
    requires Enumerates(roots, Roots(nodes)) && FamiliesOf(nodes, roots, families)
    requires Enumerates(all, Rooted(nodes))
    ensures multiset(Concat(families)) == multiset(all)
    ensures SumOf(nodes, families) == Totals(nodes, all)
  {
    ConcatFamilies(nodes, roots, families);
    forall q ensures q in Concat(families) <==> q in all {
      assert q in all <==> q in Elements(all);
      if q in Rooted(nodes) {
        var r :| r in Roots(nodes) && Under(nodes, q, r);
        assert r in Elements(roots);
        var i :| 0 <= i < |roots| && roots[i] == r;
        assert q in Family(nodes, roots[i]);
      }
      if i :| 0 <= i < |roots| && q in Family(nodes, roots[i]) {
        assert roots[i] in Elements(roots);
      }
    }
    EnumerationsPermute(Concat(families), all);
    TotalsPermute(nodes, Concat(families), all);
    SumIsTotalOfConcat(nodes, families);
  }

  /** The roots' rollups account for every process exactly when no ppid cycle exists. */
  lemma RootsCoverIffAcyclic(nodes: Nodes)
    ensures Rooted(nodes) == nodes.Keys <==> forall p :: p in nodes ==> !OnCycle(nodes, p)
  {
    hide Rooted, OnCycle, Anc;
    assert Rooted(nodes) <= nodes.Keys by { RootedAreNodes(nodes); }
    if forall p :: p in nodes ==> !OnCycle(nodes, p) {
      forall q | q in nodes ensures q in Rooted(nodes) {
        RootedIffNoCycleAbove(nodes, q);
        forall i: nat | Anc(nodes, q, i).Some? ensures !OnCycle(nodes, Anc(nodes, q, i).value) {
          AncInNodes(nodes, q, i);
        }
      }
    }
    if Rooted(nodes) == nodes.Keys {
      forall p | p in nodes ensures !OnCycle(nodes, p) {
        RootedIffNoCycleAbove(nodes, p);
        SelfAnc(nodes, p);
      }
    }
  }

  lemma SelfAnc(nodes: Nodes, p: Pid)
    ensures Anc(nodes, p, 0) == Some(p)
  {
  }

  lemma RootedAreNodes(nodes: Nodes)
    ensures Rooted(nodes) <= nodes.Keys
  {
  }

  lemma {:induction false} AncInNodes(nodes: Nodes, q: Pid, i: nat)
    requires q in nodes && Anc(nodes, q, i).Some?
    ensures Anc(nodes, q, i).value in nodes
    decreases i
  {
    if i > 0 {
      AncInNodes(nodes, Parent(nodes, q).value, i - 1);
    }
  }
}
