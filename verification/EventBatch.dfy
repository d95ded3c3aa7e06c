/** One refresh's events, exactly: which, how often and in what order, told from the
    adapter's answers and the readings before. */
module EventBatch {
  import opened Results
  import opened Model
  import opened Seqs
  import opened Tick
  import opened Runs
  import opened Lifecycle
  import opened Connections

  /** The listed process an event comes from. */
  function Subject(e: Event): Pid {
    if e.kind.NewChild? then e.kind.child else e.key.pid
  }

  /** The generation of the pid read at an earlier place in the listing than the child,
      or else the one live before the refresh. */
  ghost predicate KnownParent(run: Run, child: Pid, parent: Key)
    requires run != [] && Last(run).ans.Listed?
  {
    var ans := Last(run).ans;
    if exists i, j :: 0 <= i < j < |ans.pids| && ans.pids[i] == parent.pid && ans.pids[j] == child
                      && parent.pid in ans.procs
    then parent.start == ans.procs[parent.pid].startTime
    else Samples(Front(run), parent) != []
  }

  /** What the refresh must log. */
  ghost predicate Due(run: Run, e: Event)
    requires run != []
  {
    var f, ans := Front(run), Last(run).ans;
    && ans.Listed? && e.at == Last(run).now
    && match e.kind
       case Started => ans.Reports(e.key) && Samples(f, e.key) == []
       case Exited(reason) => !ans.Reports(e.key) && Samples(f, e.key) != [] && reason == None
       case NewChild(child) =>
         && child in ans.pids && child in ans.procs
         && Samples(f, Key(child, ans.procs[child].startTime)) == []
         && e.key.pid == ans.procs[child].ppid && KnownParent(run, child, e.key)
       case MemoryGrowth(percent, window) =>
         && ans.Reports(e.key) && window == GROWTH_WINDOW_SECS
         && var baseline := Baseline(LastN(HISTORY_CAPACITY, Samples(f, e.key)), e.at);
         && baseline.Some? && baseline.value.snap.rss > 0
         && percent == GrowthPercent(ans.procs[e.key.pid].rss, baseline.value.snap.rss)
         && percent >= GROWTH_THRESHOLD_PERCENT
       case NewConnection(addr) =>
         && ans.Reports(e.key) && e.key.pid in ans.conns
         && ConnectedTo(ans.conns[e.key.pid], addr) && !ConnectedTo(LastRead(f, e.key), addr)
  }

  // ---- One process ----------------------------------------------------------------------

  lemma SubjectsOfPid(s: State, now: int, ans: Answer, addrs: map<Pid, seq<string>>, n: nat, e: Event)
    requires ans.Listed? && n < |ans.pids| && e in PidEvents(s, now, ans, addrs, n)
    ensures Subject(e) == ans.pids[n] && !e.kind.Exited?
  {
    hide CurrentAfter, Baseline;
  }

  lemma {:induction false} CountInPass(s: State, now: int, ans: Answer, addrs: map<Pid, seq<string>>, n: nat,
                                       i: nat, e: Event)
    requires ans.Listed? && NoDup(ans.pids) && n <= |ans.pids| && i < |ans.pids| && ans.pids[i] == Subject(e)
    ensures multiset(EventsAfter(s, now, ans, addrs, n))[e] ==
            if i < n then multiset(PidEvents(s, now, ans, addrs, i))[e] else 0
  {
    hide PidEvents;
    if n > 0 {
      CountInPass(s, now, ans, addrs, n - 1, i, e);
      var last := PidEvents(s, now, ans, addrs, n - 1);
      if e in multiset(last) {
        assert e in last;
        SubjectsOfPid(s, now, ans, addrs, n - 1, e);
      }
    }
  }

  lemma {:induction false} NotInPass(s: State, now: int, ans: Answer, addrs: map<Pid, seq<string>>, n: nat, e: Event)
    requires ans.Listed? && n <= |ans.pids| && (e.kind.Exited? || Subject(e) !in ans.pids)
    ensures e !in EventsAfter(s, now, ans, addrs, n)
  {
    hide PidEvents;
    if n > 0 {
      NotInPass(s, now, ans, addrs, n - 1, e);
      if e in PidEvents(s, now, ans, addrs, n - 1) {
        SubjectsOfPid(s, now, ans, addrs, n - 1, e);
      }
    }
  }

  function ConnectionsOf(now: int, ans: Answer, addrs: map<Pid, seq<string>>, k: Key): seq<Event>
    requires ans.Listed?
  {
    if k.pid in ans.conns && k.pid in addrs then ConnectionEvents(now, k, addrs[k.pid]) else []
  }

  lemma CountParts<T>(a: seq<T>, b: seq<T>, c: seq<T>, x: T)
    ensures multiset(a + b + c)[x] == multiset(a)[x] + multiset(b)[x] + multiset(c)[x]
  {
  }

  lemma PidParts(s: State, now: int, ans: Answer, addrs: map<Pid, seq<string>>, n: nat, e: Event)
    requires ans.Listed? && n < |ans.pids| && ans.pids[n] in ans.procs
    ensures var pid := ans.pids[n];
            var k := Key(pid, ans.procs[pid].startTime);
            multiset(PidEvents(s, now, ans, addrs, n))[e] ==
            multiset(StartEvents(s, now, ans, n))[e]
            + multiset(GrowthEvents(HistoryOf(s, k), now, k, ans.procs[pid].rss))[e]
            + multiset(ConnectionsOf(now, ans, addrs, k))[e]
  {
    hide StartEvents, GrowthEvents, ConnectionEvents;
    var pid := ans.pids[n];
    var k := Key(pid, ans.procs[pid].startTime);
    CountParts(StartEvents(s, now, ans, n), GrowthEvents(HistoryOf(s, k), now, k, ans.procs[pid].rss),
               ConnectionsOf(now, ans, addrs, k), e);
  }

  lemma StartCount(s: State, now: int, ans: Answer, n: nat, e: Event)
    requires ans.Listed? && n < |ans.pids| && ans.pids[n] in ans.procs
    ensures var pid, snap := ans.pids[n], ans.procs[ans.pids[n]];
            var earlier := CurrentAfter(s, now, ans, n);
            var started := !Live(s.current, Key(pid, snap.startTime));
            multiset(StartEvents(s, now, ans, n))[e] ==
            if e.at == now && started
               && ((e.kind == Started && e.key == Key(pid, snap.startTime))
                   || (e.kind == NewChild(pid) && e.key.pid == snap.ppid
                       && if snap.ppid in earlier then e.key.start == earlier[snap.ppid].startTime
                          else Live(s.current, e.key)))
            then 1 else 0
  {
    hide CurrentAfter;
  }

  lemma GrowthCount(hist: seq<Sample>, now: int, k: Key, rss: nat, e: Event)
    ensures multiset(GrowthEvents(hist, now, k, rss))[e] ==
            if e.key == k && e.at == now && e.kind.MemoryGrowth? && e.kind.windowSecs == GROWTH_WINDOW_SECS
               && Baseline(hist, now).Some? && Baseline(hist, now).value.snap.rss > 0
               && e.kind.percentGrowth == GrowthPercent(rss, Baseline(hist, now).value.snap.rss)
               && e.kind.percentGrowth >= GROWTH_THRESHOLD_PERCENT
            then 1 else 0
  {
    hide Baseline;
  }

  lemma ConnectionCount(now: int, k: Key, addrs: seq<string>, e: Event)
    requires NoDup(addrs)
    ensures multiset(ConnectionEvents(now, k, addrs))[e] ==
            if e.key == k && e.at == now && e.kind.NewConnection? && e.kind.addr in addrs then 1 else 0
  {
    var cn := ConnectionEvents(now, k, addrs);
    forall i, j | 0 <= i < j < |cn| ensures cn[i] != cn[j] {
      assert addrs[i] != addrs[j];
    }
    NoDupMultiset(cn);
    if e.key == k && e.at == now && e.kind.NewConnection? && e.kind.addr in addrs {
      var i :| 0 <= i < |addrs| && addrs[i] == e.kind.addr;
      assert cn[i] == e;
    }
  }

  // ---- The whole batch ---------------------------------------------------------------------

  /** Reading i of the listing, if its process was read, is in the pass just before
      place n exactly when it comes earlier. */
  lemma EarlierRead(s: State, now: int, ans: Answer, n: nat, p: Pid)
    requires ans.Listed? && ans.Distinct() && n < |ans.pids|
    ensures p in CurrentAfter(s, now, ans, n) <==>
            p in ans.procs
            && exists i, j :: 0 <= i < j < |ans.pids| && ans.pids[i] == p && ans.pids[j] == ans.pids[n]
    ensures p in CurrentAfter(s, now, ans, n) ==>
              CurrentAfter(s, now, ans, n)[p].startTime == ans.procs[p].startTime
  {
    if p in ans.pids[..n] {
      var i :| 0 <= i < n && ans.pids[i] == p;
    }
    if i, j :| 0 <= i < j < |ans.pids| && ans.pids[i] == p && ans.pids[j] == ans.pids[n] {
      assert j == n;
      assert ans.pids[..n][i] == p;
    }
  }

  lemma ChildDue(run: Run, i: nat, e: Event)
    requires Possible(run) && run != [] && Last(run).ans.Listed?
    requires i < |Last(run).ans.pids| && Last(run).ans.pids[i] in Last(run).ans.procs
    requires e.kind.NewChild? && Subject(e) == Last(run).ans.pids[i]
    ensures var t := Last(run);
            multiset(StartEvents(Pruned(StateAfter(Front(run))), t.now, t.ans, i))[e] == if Due(run, e) then 1 else 0
  {
    hide StateAfter, CurrentAfter, Samples, Possible, StartEvents;
    PossibleFront(run);
    var f, t := Front(run), Last(run);
    var s, pid, snap := Pruned(StateAfter(f)), t.ans.pids[i], t.ans.procs[t.ans.pids[i]];
    StartCount(s, t.now, t.ans, i, e);
    assert t.ans.Distinct() by { DistinctListing(run); }
    EarlierRead(s, t.now, t.ans, i, snap.ppid);
    StateMatchesAnswers(f, Key(pid, snap.startTime));
    StateMatchesAnswers(f, e.key);
  }

  lemma DistinctListing(run: Run)
    requires Possible(run) && run != []
    ensures Last(run).ans.Distinct()
    ensures OrdersFit(StateAfter(Front(run)), Last(run).now, Last(run).ans, Last(run).ord)
  {
  }

  lemma PidDue(run: Run, i: nat, e: Event)
    requires Possible(run) && run != [] && Last(run).ans.Listed?
    requires i < |Last(run).ans.pids| && Subject(e) == Last(run).ans.pids[i] && !e.kind.Exited?
    ensures var t := Last(run);
            multiset(PidEvents(Pruned(StateAfter(Front(run))), t.now, t.ans, t.ord.addrs, i))[e] ==
            if Due(run, e) then 1 else 0
  {
    hide StateAfter, CurrentAfter, Samples, Possible, StartEvents, GrowthEvents, ConnectionEvents, Known, Step;
    var f, t := Front(run), Last(run);
    var s, pid := Pruned(StateAfter(f)), t.ans.pids[i];
    if pid in t.ans.procs {
      var k := Key(pid, t.ans.procs[pid].startTime);
      PossibleFront(run);
      DistinctListing(run);
      PidParts(s, t.now, t.ans, t.ord.addrs, i, e);
      StartCount(s, t.now, t.ans, i, e);
      GrowthCount(HistoryOf(s, k), t.now, k, t.ans.procs[pid].rss, e);
      StateMatchesAnswers(f, k);
      PrunedAgrees(f, k);
      ConnectionsDue(run, k, e);
      if e.kind.NewChild? {
        ChildDue(run, i, e);
      }
    } else {
      NothingUnread(s, t.now, t.ans, t.ord.addrs, i);
    }
  }

  lemma NothingUnread(s: State, now: int, ans: Answer, addrs: map<Pid, seq<string>>, n: nat)
    requires ans.Listed? && n < |ans.pids| && ans.pids[n] !in ans.procs
    ensures PidEvents(s, now, ans, addrs, n) == []
  {
  }

  lemma ConnectionsDue(run: Run, k: Key, e: Event)
    requires Possible(run) && run != [] && Last(run).ans.Reports(k)
    ensures var t := Last(run);
            multiset(ConnectionsOf(t.now, t.ans, t.ord.addrs, k))[e] ==
            if e.key == k && e.kind.NewConnection? && Due(run, e) then 1 else 0
  {
    hide StateAfter, Samples, Possible, ConnectionEvents, Gone;
    var f, t := Front(run), Last(run);
    PossibleFront(run);
    DistinctListing(run);
    SeenIsKnown(f, k);
    if k.pid in t.ans.conns {
      var order := t.ord.addrs[k.pid];
      ConnectionCount(t.now, k, order, e);
      if e.kind.NewConnection? {
        assert e.kind.addr in order <==> e.kind.addr in Elements(order);
      }
    }
  }

  lemma ExitsDue(run: Run, e: Event)
    requires Possible(run) && run != [] && Last(run).ans.Listed?
    ensures multiset(ExitEvents(Last(run).now, Last(run).ord.exits))[e] ==
            if e.kind.Exited? && Due(run, e) then 1 else 0
  {
    hide StateAfter, Samples, Possible, CurrentAfter;
    var f, t := Front(run), Last(run);
    PossibleFront(run);
    DistinctListing(run);
    StateMatchesAnswers(f, e.key);
    CurrentAtEnd(Pruned(StateAfter(f)), t.now, t.ans, e.key);
    var exits := ExitEvents(t.now, t.ord.exits);
    forall i, j | 0 <= i < j < |exits| ensures exits[i] != exits[j] {
      assert t.ord.exits[i] != t.ord.exits[j];
    }
    NoDupMultiset(exits);
    assert e.key in t.ord.exits <==> e.key in Elements(t.ord.exits);
    if i :| 0 <= i < |t.ord.exits| && t.ord.exits[i] == e.key {
      assert exits[i] == Event(e.key, t.now, Exited(None));
    }
  }

  /** A refresh logs exactly the events that are due, each once. */
  lemma EmittedExactly(run: Run, e: Event)
    requires Possible(run) && run != []
    ensures multiset(LastEmitted(run))[e] == if Due(run, e) then 1 else 0
  {
    hide StateAfter, Samples, Possible, EventsAfter, PidEvents, ExitEvents, Due;
    var t := Last(run);
    if t.ans.Listed? {
      var s := Pruned(StateAfter(Front(run)));
      var pass := EventsAfter(s, t.now, t.ans, t.ord.addrs, |t.ans.pids|);
      DistinctListing(run);
      ExitsDue(run, e);
      DueIsListed(run, e);
      if e.kind.Exited? || Subject(e) !in t.ans.pids {
        NotInPass(s, t.now, t.ans, t.ord.addrs, |t.ans.pids|, e);
        assert multiset(pass)[e] == 0;
      } else {
        var i :| 0 <= i < |t.ans.pids| && t.ans.pids[i] == Subject(e);
        CountInPass(s, t.now, t.ans, t.ord.addrs, |t.ans.pids|, i, e);
        PidDue(run, i, e);
      }
    } else {
      NothingDue(run, e);
    }
  }

  lemma DueIsListed(run: Run, e: Event)
    requires run != []
    ensures Due(run, e) ==> e.kind.Exited? || Subject(e) in Last(run).ans.pids
  {
  }

  lemma NothingDue(run: Run, e: Event)
    requires run != [] && Last(run).ans.ListFailed?
    ensures !Due(run, e) && LastEmitted(run) == []
  {
  }

  // ---- Order ---------------------------------------------------------------------------------

  function Rank(kind: EventKind): nat {
    match kind
    case Started => 0
    case NewChild(_) => 1
    case MemoryGrowth(_, _) => 2
    case NewConnection(_) => 3
    case Exited(_) => 4
  }

  /** a comes before b: earlier in the listing, or from the same process and of an
      earlier kind; exits come last. */
  predicate InOrder(pids: seq<Pid>, a: Event, b: Event) {
    || b.kind.Exited?
    || (!a.kind.Exited?
        && exists i, j :: 0 <= i <= j < |pids| && pids[i] == Subject(a) && pids[j] == Subject(b)
                          && (i == j ==> Rank(a.kind) <= Rank(b.kind)))
  }

  lemma PidInOrder(s: State, now: int, ans: Answer, addrs: map<Pid, seq<string>>, n: nat, i: nat, j: nat)
    requires ans.Listed? && n < |ans.pids| && i < j < |PidEvents(s, now, ans, addrs, n)|
    ensures var es := PidEvents(s, now, ans, addrs, n); InOrder(ans.pids, es[i], es[j])
  {
    hide CurrentAfter, Baseline, InOrder;
    var es := PidEvents(s, now, ans, addrs, n);
    SubjectsOfPid(s, now, ans, addrs, n, es[i]);
    SubjectsOfPid(s, now, ans, addrs, n, es[j]);
    assert Rank(es[i].kind) <= Rank(es[j].kind);
    SamePid(ans.pids, n, es[i], es[j]);
  }

  lemma SamePid(pids: seq<Pid>, n: nat, a: Event, b: Event)
    requires n < |pids| && Subject(a) == Subject(b) == pids[n] && Rank(a.kind) <= Rank(b.kind)
    ensures InOrder(pids, a, b)
  {
  }

  lemma {:induction false} PassSubject(s: State, now: int, ans: Answer, addrs: map<Pid, seq<string>>, n: nat,
                                       e: Event) returns (i: nat)
    requires ans.Listed? && n <= |ans.pids| && e in EventsAfter(s, now, ans, addrs, n)
    ensures i < n && ans.pids[i] == Subject(e) && !e.kind.Exited?
  {
    hide PidEvents;
    if e in PidEvents(s, now, ans, addrs, n - 1) {
      i := n - 1;
      SubjectsOfPid(s, now, ans, addrs, n - 1, e);
    } else {
      i := PassSubject(s, now, ans, addrs, n - 1, e);
    }
  }

  lemma {:induction false} PassInOrder(s: State, now: int, ans: Answer, addrs: map<Pid, seq<string>>, n: nat,
                                       i: nat, j: nat)
    requires ans.Listed? && n <= |ans.pids| && i < j < |EventsAfter(s, now, ans, addrs, n)|
    ensures var es := EventsAfter(s, now, ans, addrs, n); InOrder(ans.pids, es[i], es[j])
  {
    hide PidEvents, InOrder;
    var before, last := EventsAfter(s, now, ans, addrs, n - 1), PidEvents(s, now, ans, addrs, n - 1);
    if j < |before| {
      PassInOrder(s, now, ans, addrs, n - 1, i, j);
    } else if i >= |before| {
      PidInOrder(s, now, ans, addrs, n - 1, i - |before|, j - |before|);
    } else {
      var m := PassSubject(s, now, ans, addrs, n - 1, before[i]);
      SubjectsOfPid(s, now, ans, addrs, n - 1, last[j - |before|]);
      EarlierPid(ans.pids, m, n - 1, before[i], last[j - |before|]);
    }
  }

  lemma EarlierPid(pids: seq<Pid>, m: nat, n: nat, a: Event, b: Event)
    requires m < n < |pids| && Subject(a) == pids[m] && Subject(b) == pids[n] && !a.kind.Exited?
    ensures InOrder(pids, a, b)
  {
  }

  /** A refresh logs its events in the order of the listing, of each process its start,
      its parent's news of it, its growth and its connections, and the exits at the end. */
  lemma EmittedInOrder(run: Run, i: nat, j: nat)
    requires Possible(run) && run != [] && i < j < |LastEmitted(run)|
    ensures Last(run).ans.Listed?
    ensures InOrder(Last(run).ans.pids, LastEmitted(run)[i], LastEmitted(run)[j])
  {
    hide StateAfter, EventsAfter, Possible;
    var t := Last(run);
    var pass := EventsAfter(Pruned(StateAfter(Front(run))), t.now, t.ans, t.ord.addrs, |t.ans.pids|);
    if j < |pass| {
      PassInOrder(Pruned(StateAfter(Front(run))), t.now, t.ans, t.ord.addrs, |t.ans.pids|, i, j);
    }
  }
}
