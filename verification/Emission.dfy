/** Which events one tick emits, read off the batch as a whole. */
module Emission {
  import opened Model
  import opened Seqs
  import opened Tick

  /** What an event from the pass over the listing says about its generation.
      `s` is the pruned state. */
  predicate Justified(s: State, now: int, ans: Answer, e: Event)
    requires ans.Listed?
  {
    && e.at == now
    && match e.kind
       case Started => ans.Reports(e.key) && !Live(s.current, e.key)
       case Exited(_) => false
       case MemoryGrowth(g, w) =>
         && ans.Reports(e.key)
         && w == GROWTH_WINDOW_SECS
         && var b := Baseline(HistoryOf(s, e.key), now);
         && b.Some?
         && b.value.snap.rss > 0
         && g == GrowthPercent(ans.procs[e.key.pid].rss, b.value.snap.rss) >= GROWTH_THRESHOLD_PERCENT
       case NewChild(child) => (ans.Reports(e.key) || Live(s.current, e.key)) && child in ans.procs
       case NewConnection(a) =>
         && ans.Reports(e.key)
         && e.key.pid in ans.conns
         && ConnectedTo(ans.conns[e.key.pid], a)
         && a !in SeenBy(s, e.key)
  }

  predicate AddrsFit(s: State, ans: Answer, addrs: map<Pid, seq<string>>)
    requires ans.Listed?
  {
    forall p :: p in ans.pids && p in ans.procs && p in ans.conns ==>
      p in addrs
      && Enumerates(addrs[p], Remotes(ans.conns[p]) - SeenBy(s, Key(p, ans.procs[p].startTime)))
  }

  lemma PidEventsJustified(s: State, now: int, ans: Answer, addrs: map<Pid, seq<string>>, n: nat, e: Event)
    requires ans.Listed? && n < |ans.pids| && AddrsFit(s, ans, addrs)
    requires e in PidEvents(s, now, ans, addrs, n)
    ensures Justified(s, now, ans, e)
  {
    var pid := ans.pids[n];
    var k := Key(pid, ans.procs[pid].startTime);
    assert ans.Reports(k);
    var growth := GrowthEvents(HistoryOf(s, k), now, k, ans.procs[pid].rss);
    if e in StartEvents(s, now, ans, n) {
      if e.kind.NewChild? {
        var earlier := CurrentAfter(s, now, ans, n);
        if ans.procs[pid].ppid in earlier {
          assert ans.Reports(e.key);
        }
      }
    } else if e in growth {
    } else {
      assert pid in ans.conns && pid in addrs && e in ConnectionEvents(now, k, addrs[pid]);
      var i :| 0 <= i < |addrs[pid]| && e == ConnectionEvents(now, k, addrs[pid])[i];
      assert addrs[pid][i] in Elements(addrs[pid]);
    }
  }

  lemma {:induction false} EventsJustified(s: State, now: int, ans: Answer, addrs: map<Pid, seq<string>>,
                                           n: nat, e: Event)
    requires ans.Listed? && n <= |ans.pids| && AddrsFit(s, ans, addrs)
    requires e in EventsAfter(s, now, ans, addrs, n)
    ensures Justified(s, now, ans, e)
  {
    if e in PidEvents(s, now, ans, addrs, n - 1) {
      PidEventsJustified(s, now, ans, addrs, n - 1, e);
    } else {
      EventsJustified(s, now, ans, addrs, n - 1, e);
    }
  }

  /** Every event of a tick is stamped with the tick's time and justified by the
      state it started from, its answers, or an actual disappearance. */
  lemma EmittedJustified(s: State, now: int, ans: Answer, ord: Orders, e: Event)
    requires OrdersFit(s, now, ans, ord) && e in Emitted(s, now, ans, ord)
    ensures ans.Listed? && e.at == now
    ensures if e.kind.Exited? then e.key in Gone(s, now, ans) else Justified(Pruned(s), now, ans, e)
  {
    if e in ExitEvents(now, ord.exits) {
      assert e.key in Elements(ord.exits);
    } else {
      assert AddrsFit(Pruned(s), ans, ord.addrs);
      EventsJustified(Pruned(s), now, ans, ord.addrs, |ans.pids|, e);
    }
  }

  lemma {:induction false} PassIncludes(s: State, now: int, ans: Answer, addrs: map<Pid, seq<string>>, n: nat,
                                        i: nat, e: Event)
    requires ans.Listed? && i < n <= |ans.pids| && e in PidEvents(s, now, ans, addrs, i)
    ensures e in EventsAfter(s, now, ans, addrs, n)
  {
    hide PidEvents;
    if i < n - 1 {
      PassIncludes(s, now, ans, addrs, n - 1, i, e);
    }
  }

  // ---- Children ---------------------------------------------------------------------

  lemma PidChildEvent(s: State, now: int, ans: Answer, addrs: map<Pid, seq<string>>, n: nat, e: Event)
    requires ans.Listed? && n < |ans.pids| && e in PidEvents(s, now, ans, addrs, n) && e.kind.NewChild?
    ensures ans.pids[n] in ans.procs && e in StartEvents(s, now, ans, n) && e.kind.child == ans.pids[n]
  {
    hide CurrentAfter;
  }

  lemma {:induction false} ChildEventOrigin(s: State, now: int, ans: Answer, addrs: map<Pid, seq<string>>,
                                            n: nat, e: Event)
    returns (i: nat)
    requires ans.Listed? && n <= |ans.pids| && e in EventsAfter(s, now, ans, addrs, n) && e.kind.NewChild?
    ensures i < n && ans.pids[i] == e.kind.child && ans.pids[i] in ans.procs && e in StartEvents(s, now, ans, i)
  {
    hide PidEvents, StartEvents;
    if e in PidEvents(s, now, ans, addrs, n - 1) {
      i := n - 1;
      PidChildEvent(s, now, ans, addrs, i, e);
    } else {
      i := ChildEventOrigin(s, now, ans, addrs, n - 1, e);
    }
  }

  /** A tick reports a listed pid as a new child exactly when its generation has just
      become live and its parent pid was live before the tick or was read earlier in
      the listing; the event names that parent pid. */
  lemma ChildAnnounced(s: State, now: int, ans: Answer, ord: Orders, i: nat)
    requires ans.Listed? && ans.Distinct() && i < |ans.pids| && ans.pids[i] in ans.procs
    ensures var pid, snap := ans.pids[i], ans.procs[ans.pids[i]];
            && ((exists e :: e in Emitted(s, now, ans, ord) && e.kind == NewChild(pid)) <==>
                && !Live(s.current, Key(pid, snap.startTime))
                && (snap.ppid in s.current || snap.ppid in ReadPids(ans, i)))
            && (forall e :: e in Emitted(s, now, ans, ord) && e.kind == NewChild(pid) ==> e.key.pid == snap.ppid)
  {
    hide EventsAfter, GrowthEvents, ReadPids;
    var p, pid := Pruned(s), ans.pids[i];
    var st := StartEvents(p, now, ans, i);
    forall e | e in Emitted(s, now, ans, ord) && e.kind == NewChild(pid) ensures e in st {
      assert e !in ExitEvents(now, ord.exits);
      var j := ChildEventOrigin(p, now, ans, ord.addrs, |ans.pids|, e);
    }
    forall e | e in st ensures e in Emitted(s, now, ans, ord) {
      assert e in PidEvents(p, now, ans, ord.addrs, i);
      PassIncludes(p, now, ans, ord.addrs, |ans.pids|, i, e);
    }
    if |st| == 2 {
      assert st[1] in st;
    }
  }

  // ---- Lifecycle events -------------------------------------------------------

  /** k's lifecycle events in log order: true for Started, false for Exited. */
  function Life(log: seq<Event>, k: Key): (r: seq<bool>)
    ensures |r| <= |log|
  {
    if log == [] then []
    else Life(Front(log), k) + LifeOf(Last(log), k)
  }

  function LifeOf(e: Event, k: Key): seq<bool> {
    if e.key == k && e.Lifecycle() then [e.kind.Started?] else []
  }

  lemma {:induction false} LifeAppend(a: seq<Event>, b: seq<Event>, k: Key)
    ensures Life(a + b, k) == Life(a, k) + Life(b, k)
  {
    hide LifeOf;
    if b == [] {
      assert a + b == a;
    } else {
      LifeAppend(a, Front(b), k);
      assert Front(a + b) == a + Front(b) && Last(a + b) == Last(b);
      assert Life(a + b, k) == Life(a, k) + (Life(Front(b), k) + LifeOf(Last(b), k));
    }
  }

  lemma LifeNone(log: seq<Event>, k: Key)
    requires forall i :: 0 <= i < |log| ==> log[i].key == k ==> !log[i].Lifecycle()
    ensures Life(log, k) == []
  {
  }

  lemma LifeSingle(e: Event, k: Key)
    ensures Life([e], k) == LifeOf(e, k)
  {
    assert Front([e]) == [];
  }

  /** An empty life means no lifecycle event of k anywhere in the log. */
  lemma {:induction false} NoLife(log: seq<Event>, k: Key, i: nat)
    requires Life(log, k) == [] && i < |log|
    ensures log[i].key == k ==> !log[i].Lifecycle()
  {
    if i < |log| - 1 {
      NoLife(Front(log), k, i);
    }
  }

  lemma StartLife(s: State, now: int, ans: Answer, n: nat, k: Key)
    requires ans.Listed? && n < |ans.pids| && ans.pids[n] in ans.procs
    ensures Life(StartEvents(s, now, ans, n), k) ==
            if ans.pids[n] == k.pid && ans.Reports(k) && !Live(s.current, k) then [true] else []
  {
    var st := StartEvents(s, now, ans, n);
    if st != [] {
      assert st == [st[0]] + st[1..];
      LifeAppend([st[0]], st[1..], k);
      LifeSingle(st[0], k);
      LifeNone(st[1..], k);
    }
  }

  lemma GrowthLife(hist: seq<Sample>, now: int, own: Key, rss: nat, k: Key)
    ensures Life(GrowthEvents(hist, now, own, rss), k) == []
  {
    LifeNone(GrowthEvents(hist, now, own, rss), k);
  }

  lemma ConnectionLife(now: int, own: Key, addrs: seq<string>, k: Key)
    ensures Life(ConnectionEvents(now, own, addrs), k) == []
  {
    LifeNone(ConnectionEvents(now, own, addrs), k);
  }

  lemma LifeQuiet(a: seq<Event>, b: seq<Event>, c: seq<Event>, k: Key)
    requires Life(b, k) == [] && Life(c, k) == []
    ensures Life(a + b + c, k) == Life(a, k)
  {
    LifeAppend(a, b, k);
    LifeAppend(a + b, c, k);
  }

  lemma PidLife(s: State, now: int, ans: Answer, addrs: map<Pid, seq<string>>, n: nat, k: Key)
    requires ans.Listed? && n < |ans.pids|
    ensures Life(PidEvents(s, now, ans, addrs, n), k) ==
            if ans.pids[n] == k.pid && ans.Reports(k) && !Live(s.current, k) then [true] else []
  {
    var pid := ans.pids[n];
    if pid in ans.procs {
      var own := Key(pid, ans.procs[pid].startTime);
      var cn := if pid in ans.conns && pid in addrs then ConnectionEvents(now, own, addrs[pid]) else [];
      StartLife(s, now, ans, n, k);
      GrowthLife(HistoryOf(s, own), now, own, ans.procs[pid].rss, k);
      assert Life(cn, k) == [] by {
        if cn != [] { ConnectionLife(now, own, addrs[pid], k); }
      }
      LifeQuiet(StartEvents(s, now, ans, n), GrowthEvents(HistoryOf(s, own), now, own, ans.procs[pid].rss), cn, k);
    }
  }

  lemma {:induction false} PassLife(s: State, now: int, ans: Answer, addrs: map<Pid, seq<string>>, n: nat, k: Key)
    requires ans.Listed? && n <= |ans.pids| && NoDup(ans.pids)
    ensures Life(EventsAfter(s, now, ans, addrs, n), k) ==
            if k.pid in ans.pids[..n] && ans.Reports(k) && !Live(s.current, k) then [true] else []
  {
    hide PidEvents, Life;
    if n > 0 {
      PassLife(s, now, ans, addrs, n - 1, k);
      PidLife(s, now, ans, addrs, n - 1, k);
      LifeAppend(EventsAfter(s, now, ans, addrs, n - 1), PidEvents(s, now, ans, addrs, n - 1), k);
      assert ans.pids[..n] == ans.pids[..n - 1] + [ans.pids[n - 1]];
    } else {
      LifeNone([], k);
    }
  }

  lemma {:induction false} ExitLife(now: int, exits: seq<Key>, k: Key)
    requires NoDup(exits)
    ensures Life(ExitEvents(now, exits), k) == if k in exits then [false] else []
  {
    if exits != [] {
      ExitLife(now, Front(exits), k);
      assert Front(ExitEvents(now, exits)) == ExitEvents(now, Front(exits));
      assert exits == Front(exits) + [Last(exits)];
    }
  }

  /** A tick emits one Started for each generation that becomes live, one Exited
      for each that ceases to be, and no other lifecycle event. */
  lemma EmittedLife(s: State, now: int, ans: Answer, ord: Orders, k: Key)
    requires ans.Distinct() && OrdersFit(s, now, ans, ord)
    ensures var before, after := Live(s.current, k), Live(NewCurrent(s, now, ans), k);
            Life(Emitted(s, now, ans, ord), k) == if before == after then [] else [after]
  {
    if ans.Listed? {
      var p := Pruned(s);
      PassLife(p, now, ans, ord.addrs, |ans.pids|, k);
      assert ans.pids[..|ans.pids|] == ans.pids;
      ExitLife(now, ord.exits, k);
      LifeAppend(EventsAfter(p, now, ans, ord.addrs, |ans.pids|), ExitEvents(now, ord.exits), k);
      CurrentAtEnd(p, now, ans, k);
      assert k in ord.exits <==> k in Elements(ord.exits);
    }
  }
}
