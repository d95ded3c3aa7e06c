/** How a ppid cycle arises: the processes of one listing are read one after another.
    Process 10 is read while 20 is its parent; 20 then exits, and 10 forks a child that
    gets the recycled pid 20 and is read next. */
module RacyCycle {
  import opened Results
  import opened Model
  import opened Seqs
  import opened Tick
  import opened Runs
  import opened Forest
  import opened Traversal

  const PARENT := Snapshot(10, 20, "parent", 5, 0, 0, 0.0, 100, 1, 0)
  const CHILD := Snapshot(20, 10, "child", 9, 0, 0, 0.0, 100, 1, 0)

  const RACY := Refresh(100, Listed([10, 20], map[10 := PARENT, 20 := CHILD], map[]), Orders(map[], [], []))

  const CYCLE := Tree(map[10 := PARENT, 20 := CHILD], map[10 := [20], 20 := [10]])

  lemma CycleIsTracked()
    ensures Possible([RACY]) && StateAfter([RACY]).current == CYCLE.nodes
  {
    hide HistoryAfter, SeenAfter, Emitted;
    assert Front([RACY]) == [];
    var s := Pruned(EMPTY_STATE);
    assert s == EMPTY_STATE;
    assert StateAfter([]) == EMPTY_STATE;
    assert KeysOf(EMPTY_STATE.current) == {};
    assert Gone(EMPTY_STATE, RACY.now, RACY.ans) == {};
    assert StateAfter([RACY]).current == CurrentAfter(s, RACY.now, RACY.ans, 2);
    assert RACY.ans.pids[..2] == RACY.ans.pids;
  }

  lemma CycleIsBuilt()
    ensures Built(CYCLE)
  {
    var nodes := CYCLE.nodes;
    assert Parent(nodes, 10) == Some(20) && Parent(nodes, 20) == Some(10);
    assert Kids(nodes, 10) == {20} && Kids(nodes, 20) == {10};
    forall p | p !in nodes ensures Kids(nodes, p) == {} {}
  }

  /** A possible refresh leaves two processes that are each other's ancestor: the tree
      built from it has no root, and asked for the family of either the breadth-first
      search never empties its queue. */
  lemma RacyListingMakesCycle(pid: Pid)
    requires pid in {10, 20}
    ensures Possible([RACY]) && Built(CYCLE) && CYCLE.nodes == StateAfter([RACY]).current
    ensures OnCycle(CYCLE.nodes, pid) && Roots(CYCLE.nodes) == {}
    ensures forall n: nat :: !SearchDone(CYCLE, pid, n)
  {
    hide StateAfter, Possible, SearchDone, Built;
    CycleIsTracked();
    CycleIsBuilt();
    var nodes := CYCLE.nodes;
    assert Parent(nodes, 10) == Some(20) && Parent(nodes, 20) == Some(10);
    assert Anc(nodes, pid, 2) == Some(pid);
    FamilyTerminatesIffOffCycle(CYCLE, pid);
  }
}
