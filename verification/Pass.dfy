/** How one step of the pass over the listing changes its partial results. */
module Pass {
  import opened Model
  import opened Seqs
  import opened Tick

  function KeyAt(ans: Answer, n: nat): Key
    requires ans.Listed? && n < |ans.pids| && ans.pids[n] in ans.procs
  {
    Key(ans.pids[n], ans.procs[ans.pids[n]].startTime)
  }

  lemma ReadStep(ans: Answer, n: nat)
    requires ans.Listed? && n < |ans.pids|
    ensures ReadPids(ans, n + 1) == ReadPids(ans, n) + if ans.pids[n] in ans.procs then {ans.pids[n]} else {}
    ensures NoDup(ans.pids) ==> ans.pids[n] !in ReadPids(ans, n)
  {
    assert ans.pids[..n + 1] == ans.pids[..n] + [ans.pids[n]];
  }

  lemma SkipStep(s: State, now: int, ans: Answer, addrs: map<Pid, seq<string>>, n: nat)
    requires ans.Listed? && n < |ans.pids| && ans.pids[n] !in ans.procs
    ensures CurrentAfter(s, now, ans, n + 1) == CurrentAfter(s, now, ans, n)
    ensures HistoryAfter(s, now, ans, n + 1) == HistoryAfter(s, now, ans, n)
    ensures SeenAfter(s, now, ans, n + 1) == SeenAfter(s, now, ans, n)
    ensures EventsAfter(s, now, ans, addrs, n + 1) == EventsAfter(s, now, ans, addrs, n)
  {
    ReadStep(ans, n);
    assert ReadPids(ans, n + 1) == ReadPids(ans, n);
  }

  lemma CurrentStep(s: State, now: int, ans: Answer, n: nat)
    requires ans.Listed? && n < |ans.pids| && NoDup(ans.pids) && ans.pids[n] in ans.procs
    ensures var k := KeyAt(ans, n);
            && CurrentAfter(s, now, ans, n + 1) ==
               CurrentAfter(s, now, ans, n)[k.pid := Rated(HistoryOf(s, k), now, ans.procs[k.pid])]
            && k.pid !in CurrentAfter(s, now, ans, n)
            && forall other :: Live(CurrentAfter(s, now, ans, n + 1), other) <==>
                 other == k || Live(CurrentAfter(s, now, ans, n), other)
  {
    ReadStep(ans, n);
    var k, cur' := KeyAt(ans, n), CurrentAfter(s, now, ans, n + 1);
    assert cur'[k.pid].startTime == k.start;
    forall other ensures Live(cur', other) <==> other == k || Live(CurrentAfter(s, now, ans, n), other) {
      if other.pid == k.pid {
        assert Live(cur', other) <==> other.start == k.start;
      }
    }
  }

  lemma HistoryStep(s: State, now: int, ans: Answer, n: nat)
    requires ans.Listed? && n < |ans.pids| && NoDup(ans.pids) && ans.pids[n] in ans.procs
    ensures var k := KeyAt(ans, n);
            var h := HistoryAfter(s, now, ans, n);
            && (k in h <==> k in s.history) && (k in h ==> h[k] == s.history[k])
            && HistoryAfter(s, now, ans, n + 1) ==
               h[k := LastN(HISTORY_CAPACITY,
                            HistoryOf(s, k) + [Sample(now, Rated(HistoryOf(s, k), now, ans.procs[k.pid]))])]
  {
    hide CurrentAfter, Rated, LastN, Remotes;
    CurrentStep(s, now, ans, n);
    var k := KeyAt(ans, n);
    var cur, cur' := CurrentAfter(s, now, ans, n), CurrentAfter(s, now, ans, n + 1);
    assert k !in KeysOf(cur) && KeysOf(cur') == KeysOf(cur) + {k};
  }

  lemma SeenStep(s: State, now: int, ans: Answer, n: nat)
    requires ans.Listed? && n < |ans.pids| && NoDup(ans.pids) && ans.pids[n] in ans.procs
    ensures var k := KeyAt(ans, n);
            var h := SeenAfter(s, now, ans, n);
            && (k in h <==> k in s.seen) && (k in h ==> h[k] == s.seen[k])
            && SeenAfter(s, now, ans, n + 1) ==
               if k.pid in ans.conns then h[k := Remotes(ans.conns[k.pid])] else h
  {
    hide CurrentAfter, Rated, LastN, Remotes;
    CurrentStep(s, now, ans, n);
    var k := KeyAt(ans, n);
    var cur, cur' := CurrentAfter(s, now, ans, n), CurrentAfter(s, now, ans, n + 1);
    assert k !in KeysOf(cur) && KeysOf(cur') == KeysOf(cur) + {k};
  }

  /** Recording the iteration order used for a later pid changes no earlier event. */
  lemma {:induction false} EventsKept(s: State, now: int, ans: Answer, addrs: map<Pid, seq<string>>, n: nat,
                                      pid: Pid, order: seq<string>)
    requires ans.Listed? && n <= |ans.pids| && pid !in ans.pids[..n]
    ensures EventsAfter(s, now, ans, addrs[pid := order], n) == EventsAfter(s, now, ans, addrs, n)
  {
    hide StartEvents, GrowthEvents, CurrentAfter, Baseline;
    if n > 0 {
      assert ans.pids[n - 1] == ans.pids[..n][n - 1];
      EventsKept(s, now, ans, addrs, n - 1, pid, order);
    }
  }
}
