/** When a new-connection event fires, told from the adapter's answers alone. */
module Connections {
  import opened Results
  import opened Model
  import opened Seqs
  import opened Tick
  import opened Runs
  import opened Emission
  import opened Lifecycle

  /** Reference: what the latest successful connection read of k in its current streak
      found; nothing if there was no such read. */
  function LastRead(run: Run, k: Key): seq<Connection> {
    if run == [] then []
    else
      var ans := Last(run).ans;
      if ans.ListFailed? then LastRead(Front(run), k)
      else if !ans.Reports(k) then []
      else if k.pid !in ans.conns then LastRead(Front(run), k)
      else ans.conns[k.pid]
  }

  /** The remote addresses of that read. */
  function Known(run: Run, k: Key): set<string> { Remotes(LastRead(run, k)) }

  lemma {:induction false} SeenIsKnown(run: Run, k: Key)
    requires Possible(run)
    ensures SeenBy(Pruned(StateAfter(run)), k) == Known(run, k)
  {
    if run != [] {
      var f, t := Front(run), Last(run);
      var s, s' := StateAfter(f), StateAfter(run);
      SeenIsKnown(f, k);
      TrackedKeys(f, k);
      StateMatchesAnswers(run, k);
      TrackedKeys(run, k);
      assert k in Elements(s'.stale) <==> k in s'.stale;
      assert k in Elements(s.stale) <==> k in s.stale;
      if t.ans.Listed? {
        CurrentAtEnd(Pruned(s), t.now, t.ans, k);
        StepSeen(s, t.now, t.ans, t.ord, k);
      }
    }
  }

  lemma StepSeen(s: State, now: int, ans: Answer, ord: Orders, k: Key)
    requires ans.Listed?
    ensures SeenBy(Step(s, now, ans, ord), k) ==
            if ans.Reports(k) && k.pid in ans.conns then Remotes(ans.conns[k.pid]) else SeenBy(Pruned(s), k)
  {
    CurrentAtEnd(Pruned(s), now, ans, k);
    var cur := CurrentAfter(Pruned(s), now, ans, |ans.pids|);
    assert k in KeysOf(cur) <==> Live(cur, k);
  }

  /** A refresh announces a connection of k to `addr` exactly when it reads k and its
      connections successfully, one of them goes to the address, which is not empty, and
      none of the previous successful read of this streak does. A failed read announces
      and forgets nothing. */
  lemma ConnectionAnnounced(run: Run, k: Key, addr: string)
    requires Possible(run) && run != []
    ensures var t := Last(run);
            Event(k, t.now, NewConnection(addr)) in LastEmitted(run) <==>
            && t.ans.Reports(k) && k.pid in t.ans.conns
            && ConnectedTo(t.ans.conns[k.pid], addr) && !ConnectedTo(LastRead(Front(run), k), addr)
  {
    var f, t := Front(run), Last(run);
    var e := Event(k, t.now, NewConnection(addr));
    SeenIsKnown(f, k);
    if e in LastEmitted(run) {
      LastEmittedJustified(run, e);
    }
    if t.ans.Reports(k) && k.pid in t.ans.conns && addr in Remotes(t.ans.conns[k.pid]) - Known(f, k) {
      var i :| 0 <= i < |t.ans.pids| && t.ans.pids[i] == k.pid;
      var order := t.ord.addrs[k.pid];
      assert addr in Elements(order);
      var j :| 0 <= j < |order| && order[j] == addr;
      assert ConnectionEvents(t.now, k, order)[j] == e;
      PassIncludes(Pruned(StateAfter(f)), t.now, t.ans, t.ord.addrs, |t.ans.pids|, i, e);
    }
  }

  /** Connections without a remote address are never announced. */
  lemma {:induction false} NoEmptyAddress(run: Run, e: Event)
    requires Possible(run) && e in Log(run)
    ensures e.kind != NewConnection("")
  {
    hide LastEmitted;
    if e in Log(Front(run)) {
      NoEmptyAddress(Front(run), e);
    } else if e.kind == NewConnection("") {
      LastEmittedJustified(run, e);
    }
  }

  /** Refresh m of the run read k's connections and did not find the address, or
      logged that k exited. */
  ghost predicate ForgetsAt(run: Run, m: nat, k: Key, addr: string)
    requires m < |run|
  {
    var t := run[m];
    || (t.ans.Reports(k) && k.pid in t.ans.conns && !ConnectedTo(t.ans.conns[k.pid], addr))
    || Event(k, t.now, Exited(None)) in LastEmitted(run[..m + 1])
  }

  lemma ExitLogged(run: Run, k: Key)
    requires Possible(run) && run != [] && JustEnded(run, k)
    ensures Event(k, Last(run).now, Exited(None)) in LastEmitted(run)
  {
    var t := Last(run);
    StateMatchesAnswers(Front(run), k);
    StateMatchesAnswers(run, k);
    StepCurrent(StateAfter(Front(run)), t.now, t.ans, t.ord);
    assert k in Elements(t.ord.exits);
    var i :| 0 <= i < |t.ord.exits| && t.ord.exits[i] == k;
    assert ExitEvents(t.now, t.ord.exits)[i] == Event(k, t.now, Exited(None));
  }

  lemma {:induction false} KnownPersists(run: Run, i: nat, j: nat, k: Key, addr: string)
    requires 0 < i <= j <= |run| && Possible(run[..j])
    requires addr in Known(run[..i], k) && Samples(run[..i], k) != []
    requires forall m :: i <= m < j ==> !ForgetsAt(run, m, k, addr)
    ensures addr in Known(run[..j], k) && Samples(run[..j], k) != []
    decreases j - i
  {
    hide Possible, LastEmitted;
    if i < j {
      var r := run[..j];
      assert Front(r) == run[..j - 1] && Last(r) == run[j - 1];
      PossiblePrefix(r, j - 1);
      KnownPersists(run, i, j - 1, k, addr);
      assert !ForgetsAt(run, j - 1, k, addr);
      if JustEnded(r, k) {
        ExitLogged(r, k);
      }
    }
  }

  lemma {:induction false} PossiblePrefix(run: Run, n: nat)
    requires Possible(run) && n <= |run|
    ensures Possible(run[..n])
  {
    if n < |run| {
      PossiblePrefix(Front(run), n);
      assert Front(run)[..n] == run[..n];
    } else {
      assert run[..n] == run;
    }
  }

  /** Between two announcements of one address for one generation some refresh
      successfully read the generation's connections without the address, or
      logged its exit. */
  lemma NoRefire(run: Run, i: nat, j: nat, k: Key, addr: string)
    requires Possible(run) && i < j < |run|
    requires Event(k, run[i].now, NewConnection(addr)) in LastEmitted(run[..i + 1])
    requires Event(k, run[j].now, NewConnection(addr)) in LastEmitted(run[..j + 1])
    ensures exists m :: i < m < j && ForgetsAt(run, m, k, addr)
  {
    hide LastRead, Samples, ForgetsAt, LastEmitted, Possible;
    PossiblePrefix(run, i + 1);
    PossiblePrefix(run, j);
    PossiblePrefix(run, j + 1);
    ConnectionAnnounced(run[..i + 1], k, addr);
    ConnectionAnnounced(run[..j + 1], k, addr);
    assert Front(run[..j + 1]) == run[..j];
    AnnouncedIsKnown(run[..i + 1], k, addr);
    if forall m :: i < m < j ==> !ForgetsAt(run, m, k, addr) {
      KnownPersists(run, i + 1, j, k, addr);
    }
  }

  lemma AnnouncedIsKnown(run: Run, k: Key, addr: string)
    requires run != [] && Last(run).ans.Reports(k) && k.pid in Last(run).ans.conns
    requires addr in Remotes(Last(run).ans.conns[k.pid])
    ensures addr in Known(run, k) && Samples(run, k) != []
  {
  }

  // ---- At most once per refresh ---------------------------------------------------------------

  lemma AnnouncedOnceInList(now: int, own: Key, addrs: seq<string>, e: Event)
    requires NoDup(addrs)
    ensures multiset(ConnectionEvents(now, own, addrs))[e] <= 1
    ensures e.key != own ==> multiset(ConnectionEvents(now, own, addrs))[e] == 0
  {
    var cn := ConnectionEvents(now, own, addrs);
    forall i, j | 0 <= i < j < |cn| ensures cn[i] != cn[j] {
      assert addrs[i] != addrs[j];
    }
    NoDupMultiset(cn);
  }

  lemma AnnouncedOncePerPid(s: State, now: int, ans: Answer, addrs: map<Pid, seq<string>>, n: nat, k: Key, addr: string)
    requires ans.Listed? && n < |ans.pids| && AddrsFit(s, ans, addrs)
    ensures multiset(PidEvents(s, now, ans, addrs, n))[Event(k, now, NewConnection(addr))] <=
            if ans.pids[n] == k.pid then 1 else 0
  {
    hide StartEvents, GrowthEvents, ConnectionEvents;
    var e, pid := Event(k, now, NewConnection(addr)), ans.pids[n];
    if pid in ans.procs {
      var own := Key(pid, ans.procs[pid].startTime);
      var cn := if pid in ans.conns && pid in addrs then ConnectionEvents(now, own, addrs[pid]) else [];
      OnlyConnectionsAnnounce(s, now, ans, n, HistoryOf(s, own), own, ans.procs[pid].rss, e);
      CountLast(StartEvents(s, now, ans, n), GrowthEvents(HistoryOf(s, own), now, own, ans.procs[pid].rss), cn, e);
      if pid in ans.conns {
        AnnouncedOnceInList(now, own, addrs[pid], e);
      }
    }
  }

  lemma OnlyConnectionsAnnounce(s: State, now: int, ans: Answer, n: nat, hist: seq<Sample>, own: Key, rss: nat,
                                e: Event)
    requires ans.Listed? && n < |ans.pids| && ans.pids[n] in ans.procs && e.kind.NewConnection?
    ensures e !in StartEvents(s, now, ans, n) && e !in GrowthEvents(hist, now, own, rss)
  {
  }

  lemma CountLast<T>(a: seq<T>, b: seq<T>, c: seq<T>, x: T)
    requires x !in a && x !in b
    ensures multiset(a + b + c)[x] == multiset(c)[x]
  {
    assert x !in multiset(a) && x !in multiset(b);
  }

  lemma {:induction false} AnnouncedOncePerPass(s: State, now: int, ans: Answer, addrs: map<Pid, seq<string>>,
                                                n: nat, k: Key, addr: string)
    requires ans.Listed? && n <= |ans.pids| && NoDup(ans.pids) && AddrsFit(s, ans, addrs)
    ensures multiset(EventsAfter(s, now, ans, addrs, n))[Event(k, now, NewConnection(addr))] <=
            if k.pid in ans.pids[..n] then 1 else 0
  {
    hide PidEvents;
    if n > 0 {
      AnnouncedOncePerPass(s, now, ans, addrs, n - 1, k, addr);
      AnnouncedOncePerPid(s, now, ans, addrs, n - 1, k, addr);
      assert ans.pids[..n] == ans.pids[..n - 1] + [ans.pids[n - 1]];
    }
  }

  /** One refresh never announces the same address of the same generation twice. */
  lemma AnnouncedOnce(run: Run, k: Key, addr: string)
    requires Possible(run) && run != []
    ensures multiset(LastEmitted(run))[Event(k, Last(run).now, NewConnection(addr))] <= 1
  {
    hide EventsAfter;
    var t := Last(run);
    if t.ans.Listed? {
      AnnouncedOncePerPass(Pruned(StateAfter(Front(run))), t.now, t.ans, t.ord.addrs, |t.ans.pids|, k, addr);
      assert Event(k, t.now, NewConnection(addr)) !in ExitEvents(t.now, t.ord.exits);
    }
  }
}
