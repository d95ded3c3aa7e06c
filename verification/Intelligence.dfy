/** `ProcessIntelligence`: the object every front end polls. Each refresh updates
    the tracked maps and deques in place; `Valid` ties them to the run so far, so
    every theorem about runs is a theorem about the object. */
module Intelligence {
  import opened Results
  import opened Model
  import opened Seqs
  import opened Tick
  import opened Runs
  import opened Emission
  import opened Pass
  import Forest
  import Traversal
  import Investigation

  /** The newest retained sample at least a growth window old, searched from the back. */
  method FindBaseline(hist: seq<Sample>, now: int) returns (b: Option<Sample>)
    ensures b == Baseline(hist, now)
  {
    var i := |hist|;
    assert hist[..i] == hist;
    while i > 0
      invariant 0 <= i <= |hist|
      invariant Baseline(hist, now) == Baseline(hist[..i], now)
    {
      assert Last(hist[..i]) == hist[i - 1] && Front(hist[..i]) == hist[..i - 1];
      if now - hist[i - 1].at >= GROWTH_WINDOW_SECS {
        return Some(hist[i - 1]);
      }
      i := i - 1;
    }
    return None;
  }

  /** `push_back`, then `pop_front` while over capacity. */
  method PushCapped<T>(deque: seq<T>, items: seq<T>, capacity: nat) returns (r: seq<T>)
    ensures r == LastN(capacity, deque + items)
  {
    r := deque;
    for i := 0 to |items|
      invariant r == deque + items[..i]
    {
      r := r + [items[i]];
    }
    ghost var all := deque + items;
    while |r| > capacity
      invariant |r| <= |all| && r == all[|all| - |r|..]
      invariant |r| < |all| ==> |r| >= capacity
    {
      r := r[1..];
    }
  }

  class ProcessIntelligence {
    var current: map<Pid, Snapshot>
    var history: map<Key, seq<Sample>>
    var connectionsSeen: map<Key, set<string>>
    var timeline: seq<Event>
    var staleKeys: seq<Key>
    ghost var run: Run

    ghost function Contents(): State
      reads this
    {
      State(current, history, connectionsSeen, timeline, staleKeys)
    }

    ghost predicate Valid()
      reads this
    {
      Possible(run) && Contents() == StateAfter(run)
    }

    constructor ()
      ensures Valid() && run == []
    {
      current, history, connectionsSeen := map[], map[], map[];
      timeline, staleKeys := [], [];
      run := [];
    }

    method DropStale()
      modifies `history, `connectionsSeen, `staleKeys
      ensures Contents() == Pruned(old(Contents()))
    {
      var i := 0;
      while i < |staleKeys|
        invariant 0 <= i <= |staleKeys| && staleKeys == old(staleKeys)
        invariant history == old(history) - Elements(staleKeys[..i])
        invariant connectionsSeen == old(connectionsSeen) - Elements(staleKeys[..i])
      {
        assert Elements(staleKeys[..i + 1]) == Elements(staleKeys[..i]) + {staleKeys[i]};
        history := history - {staleKeys[i]};
        connectionsSeen := connectionsSeen - {staleKeys[i]};
        i := i + 1;
      }
      assert staleKeys[..i] == staleKeys;
      staleKeys := [];
    }

    method StartedEvents(now: int, ans: Answer, n: nat, newCurrent: map<Pid, Snapshot>, ghost s: State)
      returns (events: seq<Event>)
      requires ans.Listed? && n < |ans.pids| && ans.pids[n] in ans.procs
      requires current == s.current && newCurrent == CurrentAfter(s, now, ans, n)
      ensures events == StartEvents(s, now, ans, n)
    {
      var pid := ans.pids[n];
      var snap := ans.procs[pid];
      events := [];
      if !(pid in current && current[pid].startTime == snap.startTime) {
        events := [Event(Key(pid, snap.startTime), now, Started)];
        var parent := if snap.ppid in newCurrent then Some(newCurrent[snap.ppid].startTime)
                      else if snap.ppid in current then Some(current[snap.ppid].startTime)
                      else None;
        if parent.Some? {
          events := events + [Event(Key(snap.ppid, parent.value), now, NewChild(pid))];
        }
      }
    }

    method GrewEvents(now: int, key: Key, rss: nat, hist: seq<Sample>) returns (events: seq<Event>)
      ensures events == GrowthEvents(hist, now, key, rss)
    {
      events := [];
      var b := FindBaseline(hist, now);
      if b.Some? && b.value.snap.rss > 0 {
        var growth := (rss as real - b.value.snap.rss as real) / b.value.snap.rss as real * 100.0;
        if growth >= GROWTH_THRESHOLD_PERCENT {
          events := [Event(key, now, MemoryGrowth(growth, GROWTH_WINDOW_SECS))];
        }
      }
    }

    /** The body of the loop over the listed pids, for a pid whose read succeeded. */
    method TrackPid(now: int, ans: Answer, n: nat, newCurrent: map<Pid, Snapshot>, ghost s: State)
      returns (events: seq<Event>, snap: Snapshot, ghost order: seq<string>)
      requires ans.Listed? && NoDup(ans.pids) && n < |ans.pids| && ans.pids[n] in ans.procs
      requires current == s.current && newCurrent == CurrentAfter(s, now, ans, n)
      requires history == HistoryAfter(s, now, ans, n) && connectionsSeen == SeenAfter(s, now, ans, n)
      modifies `history, `connectionsSeen
      ensures history == HistoryAfter(s, now, ans, n + 1)
      ensures connectionsSeen == SeenAfter(s, now, ans, n + 1)
      ensures newCurrent[ans.pids[n] := snap] == CurrentAfter(s, now, ans, n + 1)
      ensures events == PidEvents(s, now, ans, map[ans.pids[n] := order], n)
      ensures ans.pids[n] in ans.conns ==>
                Enumerates(order, Remotes(ans.conns[ans.pids[n]]) - SeenBy(s, KeyAt(ans, n)))
    {
      hide HistoryAfter, SeenAfter, CurrentAfter, StartEvents, GrowthEvents, LastN;
      CurrentStep(s, now, ans, n);
      HistoryStep(s, now, ans, n);
      SeenStep(s, now, ans, n);
      var pid := ans.pids[n];
      snap := ans.procs[pid];
      var key := Key(pid, snap.startTime);
      events := StartedEvents(now, ans, n, newCurrent, s);
      var hist := [];
      var grew := [];
      if key in history {
        hist := history[key];
        if hist != [] {
          var prev := Last(hist);
          snap := snap.(percent := CpuPercent(prev.snap.TotalTicks(), snap.TotalTicks(), now - prev.at));
        }
      }
      assert hist == HistoryOf(s, key);
      grew := GrewEvents(now, key, snap.rss, hist);
      order := [];
      var connected := [];
      if pid in ans.conns {
        var addrs := Remotes(ans.conns[pid]);
        var seen := if key in connectionsSeen then connectionsSeen[key] else {};
        var added := Iterate(addrs - seen);
        order := added;
        for i := 0 to |added|
          invariant connected == ConnectionEvents(now, key, added[..i])
        {
          connected := connected + [Event(key, now, NewConnection(added[i]))];
        }
        assert added[..|added|] == added;
        connectionsSeen := connectionsSeen[key := addrs];
      }
      events := events + grew + connected;
      var deque := PushCapped(hist, [Sample(now, snap)], HISTORY_CAPACITY);
      history := history[key := deque];
    }

    /** The loop over the listed pids. */
    method TrackListed(now: int, ans: Answer, ghost s: State)
      returns (newCurrent: map<Pid, Snapshot>, newKeys: set<Key>, pending: seq<Event>,
               ghost addrs: map<Pid, seq<string>>)
      requires ans.Listed? && NoDup(ans.pids)
      requires current == s.current && history == s.history && connectionsSeen == s.seen
      modifies `history, `connectionsSeen
      ensures newCurrent == CurrentAfter(s, now, ans, |ans.pids|) && newKeys == KeysOf(newCurrent)
      ensures history == HistoryAfter(s, now, ans, |ans.pids|)
      ensures connectionsSeen == SeenAfter(s, now, ans, |ans.pids|)
      ensures pending == EventsAfter(s, now, ans, addrs, |ans.pids|)
      ensures AddrsFitUpTo(s, ans, addrs, |ans.pids|)
    {
      hide HistoryAfter, SeenAfter, CurrentAfter, PidEvents, LastN;
      newCurrent, newKeys, pending, addrs := map[], {}, [], map[];
      StartOfPass(s, now, ans);
      for n := 0 to |ans.pids|
        invariant newCurrent == CurrentAfter(s, now, ans, n)
        invariant newKeys == KeysOf(newCurrent)
        invariant history == HistoryAfter(s, now, ans, n)
        invariant connectionsSeen == SeenAfter(s, now, ans, n)
        invariant pending == EventsAfter(s, now, ans, addrs, n)
        invariant AddrsFitUpTo(s, ans, addrs, n)
      {
        var pid := ans.pids[n];
        if pid !in ans.procs {
          SkipStep(s, now, ans, addrs, n);
          continue;
        }
        CurrentStep(s, now, ans, n);
        var events, snap, order := TrackPid(now, ans, n, newCurrent, s);
        EventsStep(s, now, ans, addrs, n, order);
        AddrsStep(s, ans, addrs, n, order);
        newKeys := newKeys + {Key(pid, ans.procs[pid].startTime)};
        newCurrent := newCurrent[pid := snap];
        addrs := addrs[pid := order];
        pending := pending + events;
      }
    }

    /** One tick. `ord` records the hash-set iteration orders it happened to use. */
    method RefreshAt(now: int, ans: Answer) returns (ok: bool, ghost ord: Orders)
      requires Valid() && ans.Distinct()
      modifies this
      ensures Valid()
      ensures run == old(run) + [Refresh(now, ans, ord)]
      ensures OrdersFit(old(Contents()), now, ans, ord)
      ensures Contents() == Step(old(Contents()), now, ans, ord)
      ensures ok == ans.Listed?
    {
      hide HistoryAfter, SeenAfter, CurrentAfter, EventsAfter, LastN;
      ghost var s := Pruned(Contents());
      ord := Orders(map[], [], []);
      DropStale();
      if ans.ListFailed? {
        run := run + [Refresh(now, ans, ord)];
        assert Front(run) == old(run);
        return false, ord;
      }
      var oldKeys := KeysOf(current);
      var newCurrent, newKeys, pending, addrs := TrackListed(now, ans, s);
      var exits := Iterate(oldKeys - newKeys);
      for i := 0 to |exits|
        invariant pending == EventsAfter(s, now, ans, addrs, |ans.pids|) + ExitEvents(now, exits[..i])
      {
        pending := pending + [Event(exits[i], now, Exited(None))];
      }
      assert exits[..|exits|] == exits;
      staleKeys := Iterate(oldKeys - newKeys);
      timeline := PushCapped(timeline, pending, TIMELINE_CAPACITY);
      current := newCurrent;
      ord := Orders(addrs, exits, staleKeys);
      AddrsComplete(s, ans, addrs);
      run := run + [Refresh(now, ans, ord)];
      assert Front(run) == old(run);
      ok := true;
    }

    /** The full hierarchy as of the last refresh. */
    method Tree() returns (t: Forest.Tree)
      requires forall p :: p in current ==> current[p].pid == p
      ensures Forest.Built(t) && t.nodes == current
    {
      var order := Iterate(current.Keys);
      var snapshots := [];
      for i := 0 to |order|
        invariant Traversal.NodesOf(snapshots) == Among(current, order[..i])
      {
        assert order[i] in Elements(order);
        ListNext(current, order[..i], order[i], snapshots);
        assert order[..i + 1] == order[..i] + [order[i]];
        snapshots := snapshots + [current[order[i]]];
      }
      assert order[..|order|] == order;
      assert forall p :: p in current ==> p in Elements(order);
      t := Traversal.Build(snapshots);
    }

    /** Every retained sample of the pid's current run, or of the run that has just
        ended. The search over the map is by bare pid, yet its result is unique. */
    method History(pid: Pid) returns (samples: seq<Sample>)
      requires Valid()
      ensures forall k: Key :: k.pid == pid && k in history && (pid in current ==> Live(current, k)) ==>
                samples == history[k] == LastN(HISTORY_CAPACITY, Tracked(run, k))
      ensures (forall k: Key :: k.pid == pid ==> k !in history) ==> samples == []
    {
      samples := [];
      ghost var chosen := None;
      if pid in current {
        TrackedKeys(run, Key(pid, current[pid].startTime));
        samples := history[Key(pid, current[pid].startTime)];
      } else {
        var candidates := set k | k in history && k.pid == pid;
        if candidates != {} {
          var k :| k in candidates;
          samples, chosen := history[k], Some(k);
        } else {
          assert forall k: Key :: k in history && k.pid == pid ==> k in candidates;
        }
      }
      forall k: Key | k.pid == pid && k in history && (pid in current ==> Live(current, k))
        ensures samples == history[k] == LastN(HISTORY_CAPACITY, Tracked(run, k))
      {
        StateMatchesAnswers(run, k);
        if pid !in current {
          ExitedHistoryUnique(run, k, chosen.value);
        }
      }
    }

    /** The retained events of a bare pid. */
    method Timeline(pid: Pid) returns (events: seq<Event>)
      ensures events == Investigation.EventsOf(timeline, pid)
    {
      events := Keep((e: Event) => e.key.pid == pid, timeline);
    }

    /** The retained events at or after `since`. */
    method RecentTimelineEvents(since: int) returns (events: seq<Event>)
      ensures events == Filter((e: Event) => e.at >= since, timeline)
    {
      events := Keep((e: Event) => e.at >= since, timeline);
    }
  }

  /** The part of `current` about the listed pids. */
  function Among(current: map<Pid, Snapshot>, pids: seq<Pid>): map<Pid, Snapshot> {
    map p | p in current && p in pids :: current[p]
  }

  lemma ListNext(current: map<Pid, Snapshot>, pids: seq<Pid>, p: Pid, snapshots: seq<Snapshot>)
    requires p in current && current[p].pid == p && Traversal.NodesOf(snapshots) == Among(current, pids)
    ensures Traversal.NodesOf(snapshots + [current[p]]) == Among(current, pids + [p])
  {
    assert Front(snapshots + [current[p]]) == snapshots;
    assert Among(current, pids + [p]) == Among(current, pids)[p := current[p]];
  }

  method Keep<T(!new)>(p: T -> bool, s: seq<T>) returns (r: seq<T>)
    ensures r == Filter(p, s)
  {
    r := [];
    for i := 0 to |s|
      invariant r == Filter(p, s[..i])
    {
      assert Front(s[..i + 1]) == s[..i];
      if p(s[i]) {
        r := r + [s[i]];
      }
    }
    assert s[..|s|] == s;
  }

  ghost predicate AddrsFitUpTo(s: State, ans: Answer, addrs: map<Pid, seq<string>>, n: nat)
    requires ans.Listed? && n <= |ans.pids|
  {
    forall i :: 0 <= i < n && ans.pids[i] in ans.procs && ans.pids[i] in ans.conns ==>
      ans.pids[i] in addrs
      && Enumerates(addrs[ans.pids[i]], Remotes(ans.conns[ans.pids[i]]) - SeenBy(s, KeyAt(ans, i)))
  }

  lemma StartOfPass(s: State, now: int, ans: Answer)
    requires ans.Listed?
    ensures CurrentAfter(s, now, ans, 0) == map[] && HistoryAfter(s, now, ans, 0) == s.history
    ensures SeenAfter(s, now, ans, 0) == s.seen
  {
  }

  lemma EventsStep(s: State, now: int, ans: Answer, addrs: map<Pid, seq<string>>, n: nat, order: seq<string>)
    requires ans.Listed? && NoDup(ans.pids) && n < |ans.pids|
    ensures EventsAfter(s, now, ans, addrs[ans.pids[n] := order], n + 1) ==
            EventsAfter(s, now, ans, addrs, n) + PidEvents(s, now, ans, map[ans.pids[n] := order], n)
  {
    hide StartEvents, GrowthEvents;
    EventsKept(s, now, ans, addrs, n, ans.pids[n], order);
  }

  lemma AddrsStep(s: State, ans: Answer, addrs: map<Pid, seq<string>>, n: nat, order: seq<string>)
    requires ans.Listed? && NoDup(ans.pids) && n < |ans.pids| && AddrsFitUpTo(s, ans, addrs, n)
    requires ans.pids[n] in ans.procs
    requires ans.pids[n] in ans.conns ==>
               Enumerates(order, Remotes(ans.conns[ans.pids[n]]) - SeenBy(s, KeyAt(ans, n)))
    ensures AddrsFitUpTo(s, ans, addrs[ans.pids[n] := order], n + 1)
  {
  }

  lemma AddrsComplete(s: State, ans: Answer, addrs: map<Pid, seq<string>>)
    requires ans.Listed? && AddrsFitUpTo(s, ans, addrs, |ans.pids|)
    ensures AddrsFit(s, ans, addrs)
  {
    forall p | p in ans.pids && p in ans.procs && p in ans.conns
      ensures p in addrs
      ensures Enumerates(addrs[p], Remotes(ans.conns[p]) - SeenBy(s, Key(p, ans.procs[p].startTime)))
    {
      var i :| 0 <= i < |ans.pids| && ans.pids[i] == p;
      assert KeyAt(ans, i) == Key(p, ans.procs[p].startTime);
    }
  }
}
