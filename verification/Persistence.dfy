/** What the daemon writes, over whole runs: the events stored are events of the
    log, each at most once, and the stored snapshots continue the in-memory deque. */
module Persistence {
  import opened Model
  import opened Seqs
  import opened Tick
  import opened Runs
  import opened Lifecycle
  import opened Growth
  import opened Investigation
  import opened Store
  import opened Daemon

  /** Successful refreshes happen at strictly increasing times. */
  predicate Ticking(run: Run) {
    run == []
    || (Ticking(Front(run))
        && (Last(run).ans.Listed? && LastSuccess(Front(run)).Some? ==> LastSuccess(Front(run)).value < Last(run).now))
  }

  // ---- Events -------------------------------------------------------------------------

  lemma {:induction false} LogBefore(run: Run, i: nat)
    requires Possible(run) && Ticking(run) && i < |Log(run)|
    ensures LastSuccess(run).Some? && Log(run)[i].at <= LastSuccess(run).value
  {
    hide Emitted;
    var f := Front(run);
    if i < |Log(f)| {
      LogBefore(f, i);
    } else {
      LastEmittedJustified(run, Log(run)[i]);
    }
  }

  lemma {:induction false} FilterEmptyIff<T(!new)>(p: T -> bool, s: seq<T>)
    ensures Filter(p, s) == [] <==> forall i :: 0 <= i < |s| ==> !p(s[i])
  {
    if forall i :: 0 <= i < |s| ==> !p(s[i]) {
      FilterNone(p, s);
    } else {
      var i :| 0 <= i < |s| && p(s[i]);
      assert s[i] in Filter(p, s);
    }
  }

  /** Filtering the newest n of a + b, where all of b passes, gives the newest n of b
      exactly when nothing of a that is still among them passes. */
  lemma FilterSuffixIff<T(!new)>(p: T -> bool, a: seq<T>, b: seq<T>, n: nat)
    requires forall x :: x in b ==> p(x)
    ensures Filter(p, LastN(n, a + b)) == LastN(n, b)
            <==> forall i :: 0 <= i < |a| && |a| + |b| - n <= i ==> !p(a[i])
    ensures |Filter(p, LastN(n, a + b))| >= |LastN(n, b)|
    ensures |Filter(p, LastN(n, a + b))| == |LastN(n, b)| ==> Filter(p, LastN(n, a + b)) == LastN(n, b)
  {
    hide Filter;
    if |b| >= n {
      assert LastN(n, a + b) == LastN(n, b);
      FilterAll(p, LastN(n, b));
    } else {
      var a' := LastN(n - |b|, a);
      assert LastN(n, a + b) == a' + b;
      FilterAppend(p, a', b);
      FilterAll(p, b);
      FilterEmptyIff(p, a');
      assert |Filter(p, a') + b| == |Filter(p, a')| + |b|;
      assert forall i :: 0 <= i < |a'| ==> a'[i] == a[|a| - |a'| + i];
      assert forall i :: |a| - |a'| <= i < |a| ==> a[i] == a'[i - (|a| - |a'|)];
    }
  }

  /** Every earlier event still in the timeline is stamped before the last refresh. */
  predicate OthersEarlier(run: Run)
    requires run != []
  {
    forall i :: Evicted(run) <= i < |Log(Front(run))| ==> Log(Front(run))[i].at < Last(run).now
  }

  /** What the daemon picks up after a refresh is exactly that refresh's own events, at
      most the newest 1000 of them, if and only if every earlier event the timeline still
      holds is stamped before it; otherwise it picks up more. */
  lemma RecentIsEmitted(run: Run)
    requires Possible(run) && run != [] && Last(run).ans.Listed?
    ensures var recent, own := RecentEvents(run, Last(run).now), LastN(TIMELINE_CAPACITY, LastEmitted(run));
            && (recent == own <==> OthersEarlier(run))
            && (recent == own || |recent| > |own|)
  {
    hide Emitted, StateAfter, LastEmitted, Filter;
    var f, now := Front(run), Last(run).now;
    TimelineIsLogTail(run);
    var recent := (e: Event) => e.at >= now;
    forall e | e in LastEmitted(run) ensures recent(e) {
      LastEmittedJustified(run, e);
    }
    FilterSuffixIff(recent, Log(f), LastEmitted(run), TIMELINE_CAPACITY);
  }

  /** Every successful refresh of the run is stamped after what the timeline then holds. */
  predicate OwnEventsOnly(run: Run) {
    run == [] || (OwnEventsOnly(Front(run)) && (Last(run).ans.Listed? ==> OthersEarlier(run)))
  }

  /** A clock that moves between successful refreshes is more than enough. */
  lemma {:induction false} TickingSuffices(run: Run)
    requires Possible(run) && Ticking(run)
    ensures OwnEventsOnly(run)
  {
    if run != [] {
      TickingSuffices(Front(run));
      forall i | 0 <= i < |Log(Front(run))| && Last(run).ans.Listed?
        ensures Log(Front(run))[i].at < Last(run).now
      {
        LogBefore(Front(run), i);
      }
    }
  }

  /** The event rows one iteration inserts. */
  function EventsStored(d: Sherd, t: Turn): seq<Event> {
    if t.ans.ListFailed? then []
    else Take(t.writes - |t.order|, RecentEvents(d.run + [RefreshOf(t)], t.now))
  }

  /** Every event row ever inserted, pruned since or not. */
  function AllStored(start: Sherd, turns: seq<Turn>, retention: int): seq<Event>
    requires AllFit(start, turns, retention)
    decreases |turns|
  {
    if turns == [] then []
    else AllStored(start, Front(turns), retention)
         + EventsStored(After(start, Front(turns), retention), Last(turns))
  }

  /** Inserted event rows are the encodings of the stored events, in order. */
  lemma StoredAreRows(d: Sherd, t: Turn)
    requires Fits(d, t)
    ensures PersistedBy(d, t).events == d.db.events + EventRows(EventsStored(d, t))
  {
    hide OrdersFit, SnapshotRows, StateAfter, RecentEvents, Carried;
    if t.ans.Listed? {
      var events := RecentEvents(d.run + [RefreshOf(t)], t.now);
      forall p | p in t.order ensures p in StateAfter(d.run + [RefreshOf(t)]).current { assert p in Elements(t.order); }
      RowsLength(StateAfter(d.run + [RefreshOf(t)]).current, t.order, t.now);
      assert Take(t.writes - |t.order|, EventRows(events)) == EventRows(Take(t.writes - |t.order|, events));
    }
  }

  lemma {:induction false} RunPossible(start: Sherd, turns: seq<Turn>, retention: int)
    requires AllFit(start, turns, retention) && Possible(start.run)
    ensures Possible(After(start, turns, retention).run)
    ensures |After(start, turns, retention).run| == |start.run| + |turns|
  {
    hide Possible, OrdersFit;
    if turns != [] {
      RunPossible(start, Front(turns), retention);
      Snoc(After(start, Front(turns), retention).run, RefreshOf(Last(turns)));
    }
  }

  /** Where in the log the events stored by one iteration come from. */
  function PositionsStored(d: Sherd, t: Turn): seq<nat> {
    var emitted := LastEmitted(d.run + [RefreshOf(t)]);
    var evicted: nat := if |emitted| <= TIMELINE_CAPACITY then 0 else |emitted| - TIMELINE_CAPACITY;
    var from: nat := |Log(d.run)| + evicted;
    seq(|EventsStored(d, t)|, i requires 0 <= i => from + i)
  }

  /** Where in the log each stored event comes from. */
  function Positions(start: Sherd, turns: seq<Turn>, retention: int): seq<nat>
    requires AllFit(start, turns, retention)
    decreases |turns|
  {
    if turns == [] then []
    else
      Positions(start, Front(turns), retention)
      + PositionsStored(After(start, Front(turns), retention), Last(turns))
  }

  ghost predicate StoredFrom(log: seq<Event>, stored: seq<Event>, positions: seq<nat>) {
    && |stored| == |positions|
    && (forall i, j :: 0 <= i < j < |positions| ==> positions[i] < positions[j])
    && (forall i :: 0 <= i < |positions| ==> positions[i] < |log| && stored[i] == log[positions[i]])
  }

  lemma TurnStores(d: Sherd, t: Turn, stored: seq<Event>, positions: seq<nat>)
    requires Fits(d, t) && Possible(d.run + [RefreshOf(t)]) && OwnEventsOnly(d.run + [RefreshOf(t)])
    requires StoredFrom(Log(d.run), stored, positions)
    ensures StoredFrom(Log(d.run + [RefreshOf(t)]), stored + EventsStored(d, t), positions + PositionsStored(d, t))
  {
    hide Fits, Possible, LastEmitted, Take, StoredFrom, OwnEventsOnly, RecentEvents, OthersEarlier;
    Snoc(d.run, RefreshOf(t));
    if t.ans.Listed? {
      OwnEventsFront(d.run, RefreshOf(t));
      RecentIsEmitted(d.run + [RefreshOf(t)]);
      StoredExtends(Log(d.run), stored, positions,
                    LastEmitted(d.run + [RefreshOf(t)]), EventsStored(d, t), t.writes - |t.order|);
    } else {
      NothingEmitted(d.run + [RefreshOf(t)]);
      assert stored + EventsStored(d, t) == stored && positions + PositionsStored(d, t) == positions;
      assert Log(d.run) + [] == Log(d.run);
    }
  }

  /** The daemon stores events of the log, in log order, no occurrence twice. */
  lemma {:induction false} StoredAtMostOnce(start: Sherd, turns: seq<Turn>, retention: int)
    requires AllFit(start, turns, retention) && start.run == []
    requires OwnEventsOnly(After(start, turns, retention).run)
    ensures StoredFrom(Log(After(start, turns, retention).run), AllStored(start, turns, retention),
                       Positions(start, turns, retention))
  {
    hide Fits, Possible, StoredFrom, After, OwnEventsOnly, EventsStored, PositionsStored;
    FreshRun();
    RunPossible(start, turns, retention);
    AfterRun(start, turns, retention);
    if turns == [] {
      NothingStored();
    } else {
      var f, t := Front(turns), Last(turns);
      var d := After(start, f, retention);
      OwnEventsFront(d.run, RefreshOf(t));
      StoredAtMostOnce(start, f, retention);
      TurnStores(d, t, AllStored(start, f, retention), Positions(start, f, retention));
    }
  }

  lemma NothingStored()
    ensures StoredFrom([], [], [])
  {
  }

  lemma AfterRun(start: Sherd, turns: seq<Turn>, retention: int)
    requires AllFit(start, turns, retention)
    ensures After(start, turns, retention).run ==
            if turns == [] then start.run
            else After(start, Front(turns), retention).run + [RefreshOf(Last(turns))]
  {
  }

  lemma NothingEmitted(run: Run)
    requires run != [] && Last(run).ans.ListFailed?
    ensures LastEmitted(run) == []
  {
  }

  lemma StoredExtends(log: seq<Event>, stored: seq<Event>, positions: seq<nat>, emitted: seq<Event>,
                      more: seq<Event>, n: int)
    requires StoredFrom(log, stored, positions)
    requires more == Take(n, LastN(TIMELINE_CAPACITY, emitted))
    ensures var evicted: nat := if |emitted| <= TIMELINE_CAPACITY then 0 else |emitted| - TIMELINE_CAPACITY;
            var from: nat := |log| + evicted;
            StoredFrom(log + emitted, stored + more, positions + seq(|more|, i requires 0 <= i => from + i))
  {
  }

  lemma FreshRun()
    ensures Possible([]) && OwnEventsOnly([]) && Log([]) == []
  {
  }

  /** The iteration stored all it emitted: no INSERT failed and no event had been
      evicted from the timeline by its own tick. */
  predicate Complete(d: Sherd, t: Turn) {
    t.ans.Listed? ==>
      var n := |LastEmitted(d.run + [RefreshOf(t)])|;
      n == 0 || (n <= TIMELINE_CAPACITY && t.writes >= |t.order| + n)
  }

  predicate AllComplete(start: Sherd, turns: seq<Turn>, retention: int)
    requires AllFit(start, turns, retention)
    decreases |turns|
  {
    turns == []
    || (AllComplete(start, Front(turns), retention) && Complete(After(start, Front(turns), retention), Last(turns)))
  }

  lemma StoredCount(d: Sherd, t: Turn)
    requires Fits(d, t) && Possible(d.run + [RefreshOf(t)]) && OwnEventsOnly(d.run + [RefreshOf(t)])
    ensures var emitted := LastEmitted(d.run + [RefreshOf(t)]);
            && |EventsStored(d, t)| <= |emitted|
            && (|EventsStored(d, t)| == |emitted| <==> Complete(d, t))
            && (Complete(d, t) ==> EventsStored(d, t) == emitted)
  {
    hide Fits, Possible, LastEmitted, OwnEventsOnly, OthersEarlier;
    Snoc(d.run, RefreshOf(t));
    if t.ans.Listed? {
      OwnEventsFront(d.run, RefreshOf(t));
      RecentIsEmitted(d.run + [RefreshOf(t)]);
    } else {
      NothingEmitted(d.run + [RefreshOf(t)]);
    }
  }

  lemma OwnEventsFront(run: Run, r: Refresh)
    requires OwnEventsOnly(run + [r])
    ensures OwnEventsOnly(run) && (r.ans.Listed? ==> OthersEarlier(run + [r]))
  {
    Snoc(run, r);
    hide OthersEarlier;
  }

  lemma {:induction false} StoredCounts(start: Sherd, turns: seq<Turn>, retention: int)
    requires AllFit(start, turns, retention) && start.run == []
    requires OwnEventsOnly(After(start, turns, retention).run)
    ensures var log, stored := Log(After(start, turns, retention).run), AllStored(start, turns, retention);
            && |stored| <= |log|
            && (|stored| == |log| <==> AllComplete(start, turns, retention))
            && (AllComplete(start, turns, retention) ==> stored == log)
  {
    hide Fits, Possible, LastEmitted, EventsStored, Complete, OwnEventsOnly;
    FreshRun();
    if turns != [] {
      var f, t := Front(turns), Last(turns);
      var d := After(start, f, retention);
      Snoc(d.run, RefreshOf(t));
      OwnEventsFront(d.run, RefreshOf(t));
      RunPossible(start, turns, retention);
      StoredCounts(start, f, retention);
      StoredCount(d, t);
    }
  }

  /** The daemon has stored exactly the full event log if and only if every INSERT of an
      event succeeded and no tick emitted more than 1000 events. */
  lemma StoredExactlyLog(start: Sherd, turns: seq<Turn>, retention: int)
    requires AllFit(start, turns, retention) && start.run == []
    requires OwnEventsOnly(After(start, turns, retention).run)
    ensures AllStored(start, turns, retention) == Log(After(start, turns, retention).run)
            <==> AllComplete(start, turns, retention)
  {
    StoredCounts(start, turns, retention);
  }

  /** No INSERT fails and no tick emits more events than the timeline holds. */
  predicate Unhindered(start: Sherd, turns: seq<Turn>, retention: int)
    requires AllFit(start, turns, retention)
    decreases |turns|
  {
    turns == []
    || var t, run := Last(turns), After(start, turns, retention).run;
       && Unhindered(start, Front(turns), retention)
       && (t.ans.Listed? && run != [] ==>
             && |LastEmitted(run)| <= TIMELINE_CAPACITY
             && t.writes >= |t.order| + |RecentEvents(run, t.now)|)
  }

  lemma {:induction false} StoredCountsUnhindered(start: Sherd, turns: seq<Turn>, retention: int)
    requires AllFit(start, turns, retention) && start.run == [] && Unhindered(start, turns, retention)
    ensures var run := After(start, turns, retention).run;
            && |AllStored(start, turns, retention)| >= |Log(run)|
            && (|AllStored(start, turns, retention)| == |Log(run)| ==> OwnEventsOnly(run))
  {
    hide Fits, Possible, LastEmitted, EventsStored, OthersEarlier, PersistedBy, RecentEvents;
    FreshRun();
    if turns != [] {
      var f, t := Front(turns), Last(turns);
      var d := After(start, f, retention);
      StoredCountsUnhindered(start, f, retention);
      RunPossible(start, turns, retention);
      AfterRun(start, turns, retention);
      Snoc(d.run, RefreshOf(t));
      StoresAllRecent(d, t);
    }
  }

  /** With nothing in its way an iteration stores at least what it emitted, and more if
      the timeline still holds an event not stamped before it. */
  lemma StoresAllRecent(d: Sherd, t: Turn)
    requires Possible(d.run + [RefreshOf(t)])
    requires var run := d.run + [RefreshOf(t)];
             t.ans.Listed? ==>
               |LastEmitted(run)| <= TIMELINE_CAPACITY && t.writes >= |t.order| + |RecentEvents(run, t.now)|
    ensures var run := d.run + [RefreshOf(t)];
            && |EventsStored(d, t)| >= |LastEmitted(run)|
            && (|EventsStored(d, t)| == |LastEmitted(run)| && t.ans.Listed? ==> OthersEarlier(run))
  {
    hide Possible, LastEmitted, OthersEarlier, RecentEvents;
    if t.ans.Listed? {
      RecentIsEmitted(d.run + [RefreshOf(t)]);
    } else {
      NothingEmitted(d.run + [RefreshOf(t)]);
    }
  }

  /** When no INSERT fails and no tick emits more than 1000 events, the daemon stores
      exactly the full log if and only if every successful refresh is stamped after all
      events the timeline then holds. Otherwise it stores some event again. */
  lemma StoresLogIffOwnEvents(start: Sherd, turns: seq<Turn>, retention: int)
    requires AllFit(start, turns, retention) && start.run == [] && Unhindered(start, turns, retention)
    ensures var run := After(start, turns, retention).run;
            && (AllStored(start, turns, retention) == Log(run) <==> OwnEventsOnly(run))
            && (!OwnEventsOnly(run) ==> |AllStored(start, turns, retention)| > |Log(run)|)
  {
    hide After, Log, OwnEventsOnly, AllStored, Unhindered;
    StoredCountsUnhindered(start, turns, retention);
    if OwnEventsOnly(After(start, turns, retention).run) {
      UnhinderedIsComplete(start, turns, retention);
      StoredExactlyLog(start, turns, retention);
    }
  }

  lemma {:induction false} UnhinderedIsComplete(start: Sherd, turns: seq<Turn>, retention: int)
    requires AllFit(start, turns, retention) && start.run == [] && Unhindered(start, turns, retention)
    requires OwnEventsOnly(After(start, turns, retention).run)
    ensures AllComplete(start, turns, retention)
  {
    hide Fits, Possible, LastEmitted, OthersEarlier, PersistedBy, RecentEvents;
    FreshRun();
    if turns != [] {
      var f, t := Front(turns), Last(turns);
      var d := After(start, f, retention);
      RunPossible(start, turns, retention);
      AfterRun(start, turns, retention);
      OwnEventsFront(d.run, RefreshOf(t));
      UnhinderedIsComplete(start, f, retention);
      Snoc(d.run, RefreshOf(t));
      if t.ans.Listed? {
        RecentIsEmitted(d.run + [RefreshOf(t)]);
      }
    }
  }

  // ---- The event table ------------------------------------------------------------------

  function EventRowsFrom(rows: seq<EventRow>, from: int): seq<EventRow> {
    Filter((r: EventRow) => r.at >= from, rows)
  }

  lemma PruneKeepsEvents(db: Tables, cutoff: int, deletes: nat, from: int)
    requires cutoff <= from
    ensures EventRowsFrom(PrunedTables(db, cutoff, deletes).events, from) == EventRowsFrom(db.events, from)
  {
    FilterTwice((r: EventRow) => r.at >= from, (r: EventRow) => r.at >= cutoff, db.events);
  }

  lemma EventRowsAppend(a: seq<Event>, b: seq<Event>, from: int)
    ensures EventRowsFrom(EventRows(a + b), from) ==
            EventRowsFrom(EventRows(a), from) + EventRowsFrom(EventRows(b), from)
  {
    assert EventRows(a + b) == EventRows(a) + EventRows(b);
    FilterAppend((r: EventRow) => r.at >= from, EventRows(a), EventRows(b));
  }

  /** From any moment no prune has reached, the event table holds exactly the encodings
      of the events stored, in the order they were stored. */
  lemma {:induction false} TableHoldsStored(start: Sherd, turns: seq<Turn>, retention: int, from: int)
    requires AllFit(start, turns, retention) && PrunesBelow(start, turns, retention, from)
    requires forall r :: r in start.db.events ==> r.at < from
    ensures EventRowsFrom(After(start, turns, retention).db.events, from) ==
            EventRowsFrom(EventRows(AllStored(start, turns, retention)), from)
  {
    hide Fits, PersistedBy, EventsStored, EventRows, EventRowsFrom, PrunedTables;
    if turns == [] {
      NoEventRowsYet(start.db, from);
    } else {
      var f, t := Front(turns), Last(turns);
      var d := After(start, f, retention);
      TableHoldsStored(start, f, retention, from);
      StoredAreRows(d, t);
      TableAppend(d.db.events, EventRows(EventsStored(d, t)), from);
      EventRowsAppend(AllStored(start, f, retention), EventsStored(d, t), from);
      if Prunes(d, t) {
        PruneKeepsEvents(PersistedBy(d, t), t.now - retention, t.deletes, from);
      }
    }
  }

  lemma TableAppend(a: seq<EventRow>, b: seq<EventRow>, from: int)
    ensures EventRowsFrom(a + b, from) == EventRowsFrom(a, from) + EventRowsFrom(b, from)
  {
    FilterAppend((r: EventRow) => r.at >= from, a, b);
  }

  lemma NoEventRowsYet(db: Tables, from: int)
    requires forall r :: r in db.events ==> r.at < from
    ensures EventRowsFrom(db.events, from) == EventRowsFrom(EventRows([]), from)
  {
    FilterNone((r: EventRow) => r.at >= from, db.events);
  }

  /** If every event INSERT succeeded and no tick emitted more than 1000 events, then from
      any moment no prune has reached the event table is the full log, row for event. */
  lemma EventTableIsLog(start: Sherd, turns: seq<Turn>, retention: int, from: int)
    requires AllFit(start, turns, retention) && start.run == []
    requires OwnEventsOnly(After(start, turns, retention).run) && AllComplete(start, turns, retention)
    requires PrunesBelow(start, turns, retention, from) && forall r :: r in start.db.events ==> r.at < from
    ensures var d := After(start, turns, retention);
            EventRowsFrom(d.db.events, from) == EventRowsFrom(EventRows(Log(d.run)), from)
  {
    StoredExactlyLog(start, turns, retention);
    TableHoldsStored(start, turns, retention, from);
  }

  // ---- Snapshots ------------------------------------------------------------------------

  /** Reference: every reading of k the run ever took. */
  function AllReadings(run: Run, k: Key): seq<Sample> {
    if run == [] then []
    else
      AllReadings(Front(run), k)
      + if Last(run).ans.Reports(k) then [Last(Samples(run, k))] else []
  }

  lemma {:induction false} StreakIsSuffix(run: Run, k: Key)
    ensures |Samples(run, k)| <= |AllReadings(run, k)|
    ensures Samples(run, k) == AllReadings(run, k)[|AllReadings(run, k)| - |Samples(run, k)|..]
  {
    if run != [] {
      StreakIsSuffix(Front(run), k);
    }
  }

  /** What is still tracked about k is the newest part of all its readings. */
  lemma TrackedIsSuffix(run: Run, k: Key)
    ensures |Tracked(run, k)| <= |AllReadings(run, k)|
    ensures Tracked(run, k) == AllReadings(run, k)[|AllReadings(run, k)| - |Tracked(run, k)|..]
  {
    hide Samples, AllReadings;
    StreakIsSuffix(run, k);
    if run != [] {
      StreakIsSuffix(Front(run), k);
      if Last(run).ans.Listed? && Samples(run, k) == [] {
        NotReported(run, k);
      }
    }
  }

  lemma NotReported(run: Run, k: Key)
    requires run != [] && Last(run).ans.Listed? && Samples(run, k) == []
    ensures AllReadings(run, k) == AllReadings(Front(run), k)
  {
  }

  lemma {:induction false} ReadingsBefore(run: Run, k: Key, i: nat)
    requires Ticking(run) && i < |AllReadings(run, k)|
    ensures LastSuccess(run).Some? && AllReadings(run, k)[i].at <= LastSuccess(run).value
  {
    var before := AllReadings(Front(run), k);
    if i < |before| {
      ReadingsBefore(Front(run), k, i);
      assert AllReadings(run, k)[i] == before[i];
    }
  }

  lemma {:induction false} ReadingsIncrease(run: Run, k: Key)
    requires Ticking(run)
    ensures forall i, j :: 0 <= i < j < |AllReadings(run, k)| ==> AllReadings(run, k)[i].at < AllReadings(run, k)[j].at
  {
    if run != [] {
      var before := AllReadings(Front(run), k);
      ReadingsIncrease(Front(run), k);
      forall i | 0 <= i < |before|
        ensures LastSuccess(Front(run)).Some? && before[i].at <= LastSuccess(Front(run)).value
      {
        ReadingsBefore(Front(run), k, i);
      }
    }
  }

  function RowsSince(db: Tables, k: Key, from: int): seq<SnapshotRow> {
    Filter((r: SnapshotRow) => OfGeneration(r, k, from), db.snapshots)
  }

  function ReadingsSince(run: Run, k: Key, from: int): seq<Sample> {
    Filter((s: Sample) => s.at >= from, AllReadings(run, k))
  }

  lemma RowNext(current: map<Pid, Snapshot>, order: seq<Pid>, now: int, k: Key, from: int)
    requires order != [] && forall p :: p in order ==> p in current && current[p].pid == p
    ensures forall p :: p in Front(order) ==> p in order
    ensures var ofK := (r: SnapshotRow) => OfGeneration(r, k, from);
            Filter(ofK, SnapshotRows(current, order, now)) ==
            Filter(ofK, SnapshotRows(current, Front(order), now))
            + if Last(order) == k.pid && Live(current, k) && now >= from
              then [RowOfSnapshot(current[k.pid], now)] else []
  {
    hide AsI64;
    var rows := SnapshotRows(current, order, now);
    assert Front(rows) == SnapshotRows(current, Front(order), now);
    AsI64Injective(current[Last(order)].startTime, k.start);
  }

  /** Of the rows one iteration inserts, exactly one is of k if the iteration read k,
      and it holds that reading. */
  lemma {:induction false} OneRowPerReading(current: map<Pid, Snapshot>, order: seq<Pid>, now: int, k: Key, from: int)
    requires NoDup(order) && (forall p :: p in order ==> p in current && current[p].pid == p)
    ensures Filter((r: SnapshotRow) => OfGeneration(r, k, from), SnapshotRows(current, order, now)) ==
            if k.pid in order && Live(current, k) && now >= from then [RowOfSnapshot(current[k.pid], now)] else []
  {
    hide Filter, OfGeneration, RowOfSnapshot;
    if order != [] {
      RowNext(current, order, now, k, from);
      OneRowPerReading(current, Front(order), now, k, from);
      assert order == Front(order) + [Last(order)];
    } else {
      FilterNone((r: SnapshotRow) => OfGeneration(r, k, from), SnapshotRows(current, order, now));
    }
  }

  /** Every prune so far had its cutoff at or before `from`. */
  predicate PrunesBelow(start: Sherd, turns: seq<Turn>, retention: int, from: int)
    requires AllFit(start, turns, retention)
    decreases |turns|
  {
    turns == []
    || (PrunesBelow(start, Front(turns), retention, from)
        && (Prunes(After(start, Front(turns), retention), Last(turns)) ==> Last(turns).now - retention <= from))
  }

  predicate SnapshotsComplete(turns: seq<Turn>) {
    forall i :: 0 <= i < |turns| ==> turns[i].writes >= |turns[i].order|
  }

  lemma PruneKeepsRows(db: Tables, cutoff: int, deletes: nat, k: Key, from: int)
    requires cutoff <= from
    ensures RowsSince(PrunedTables(db, cutoff, deletes), k, from) == RowsSince(db, k, from)
  {
    if deletes >= 1 {
      FilterTwice((r: SnapshotRow) => OfGeneration(r, k, from), (r: SnapshotRow) => r.sampledAt >= cutoff,
                  db.snapshots);
    }
  }

  lemma PersistAddsRow(d: Sherd, t: Turn, k: Key, from: int)
    requires Fits(d, t) && Possible(d.run) && t.ans.Listed? && t.writes >= |t.order|
    requires forall p :: p in StateAfter(d.run).current ==> StateAfter(d.run).current[p].pid == p
    ensures var run := d.run + [RefreshOf(t)];
            RowsSince(PersistedBy(d, t), k, from) ==
            RowsSince(d.db, k, from)
            + if t.ans.Reports(k) && t.now >= from then [RowOfSnapshot(Last(Samples(run, k)).snap, t.now)] else []
  {
    hide OrdersFit, SnapshotRows, EventRows, StateAfter, RecentEvents, Samples, OfGeneration;
    var run := d.run + [RefreshOf(t)];
    Snoc(d.run, RefreshOf(t));
    CurrentCarries(d, t);
    LiveIsReported(run, k);
    var current := StateAfter(run).current;
    forall p ensures p in t.order <==> p in current { assert p in t.order <==> p in Elements(t.order); }
    var rows := SnapshotRows(current, t.order, t.now);
    RowsLength(current, t.order, t.now);
    assert Take(t.writes, rows) == rows;
    FilterAppend((r: SnapshotRow) => OfGeneration(r, k, from), d.db.snapshots, rows);
    OneRowPerReading(current, t.order, t.now, k, from);
  }

  /** One iteration keeps the stored rows of k from `from` on in step with its readings. */
  lemma TurnKeepsRows(d: Sherd, t: Turn, retention: int, k: Key, from: int)
    requires Fits(d, t) && Possible(d.run)
    requires forall p :: p in StateAfter(d.run).current ==> StateAfter(d.run).current[p].pid == p
    requires t.writes >= |t.order|
    requires Prunes(d, t) ==> t.now - retention <= from
    ensures var run := d.run + [RefreshOf(t)];
            SamplesOf(RowsSince(TurnAfter(d, t, retention).db, k, from)) ==
            SamplesOf(RowsSince(d.db, k, from))
            + if t.ans.Reports(k) && t.now >= from then [Last(Samples(run, k))] else []
  {
    hide Fits, StateAfter, RowsSince, PersistedBy, PrunedTables, Samples, SamplesOf, Possible, OrdersFit;
    var run, db := d.run + [RefreshOf(t)], PersistedBy(d, t);
    if Prunes(d, t) {
      PruneKeepsRows(db, t.now - retention, t.deletes, k, from);
    }
    assert RowsSince(TurnAfter(d, t, retention).db, k, from) == RowsSince(db, k, from);
    if t.ans.Listed? {
      PersistAddsRow(d, t, k, from);
      RunFits(d, t);
      SnapshotRowHoldsReading(run, k);
      SamplesAppend(RowsSince(d.db, k, from),
                    if t.ans.Reports(k) && t.now >= from then [RowOfSnapshot(Last(Samples(run, k)).snap, t.now)]
                    else []);
    } else {
      NothingPersisted(d, t);
    }
  }

  lemma SnapshotRowHoldsReading(run: Run, k: Key)
    requires Possible(run) && run != [] && Last(run).ans.Listed?
    ensures SamplesOf([]) == []
    ensures Last(run).ans.Reports(k) ==> Samples(run, k) != []
    ensures Last(run).ans.Reports(k) ==>
              SamplesOf([RowOfSnapshot(Last(Samples(run, k)).snap, Last(run).now)]) == [Last(Samples(run, k))]
  {
    LiveIsReported(run, k);
  }

  lemma SamplesAppend(a: seq<SnapshotRow>, b: seq<SnapshotRow>)
    ensures SamplesOf(a + b) == SamplesOf(a) + SamplesOf(b)
  {
  }

  lemma RunFits(d: Sherd, t: Turn)
    requires Fits(d, t) && Possible(d.run)
    ensures Possible(d.run + [RefreshOf(t)])
  {
    Snoc(d.run, RefreshOf(t));
  }

  lemma NothingPersisted(d: Sherd, t: Turn)
    requires Fits(d, t) && t.ans.ListFailed?
    ensures PersistedBy(d, t) == d.db
  {
  }

  lemma RowsLength(current: map<Pid, Snapshot>, order: seq<Pid>, now: int)
    requires forall p :: p in order ==> p in current
    ensures |SnapshotRows(current, order, now)| == |order|
  {
  }

  lemma LiveIsReported(run: Run, k: Key)
    requires Possible(run) && run != [] && Last(run).ans.Listed?
    ensures Live(StateAfter(run).current, k) <==> Last(run).ans.Reports(k)
    ensures Live(StateAfter(run).current, k) ==>
              Last(Samples(run, k)) == Sample(Last(run).now, StateAfter(run).current[k.pid])
  {
    hide Step, OrdersFit;
    StateMatchesAnswers(run, k);
  }

  lemma {:induction false} AllCarried(start: Sherd, turns: seq<Turn>, retention: int)
    requires AllFit(start, turns, retention) && start.run == []
    ensures var s := StateAfter(After(start, turns, retention).run);
            forall p :: p in s.current ==> s.current[p].pid == p
  {
    hide Fits, StateAfter, After;
    AfterRun(start, turns, retention);
    if turns == [] {
      assert StateAfter([]).current == map[] by { NothingTracked(); }
    } else {
      AllCarried(start, Front(turns), retention);
      CurrentCarries(After(start, Front(turns), retention), Last(turns));
    }
  }

  lemma NothingTracked()
    ensures StateAfter([]).current == map[]
  {
  }

  /** From any moment no prune has reached, the stored rows of a generation are
      exactly its readings. */
  lemma {:induction false} StoredRowsAreReadings(start: Sherd, turns: seq<Turn>, retention: int, k: Key, from: int)
    requires AllFit(start, turns, retention) && start.run == []
    requires SnapshotsComplete(turns) && PrunesBelow(start, turns, retention, from)
    requires forall r :: r in start.db.snapshots ==> r.sampledAt < from
    ensures var d := After(start, turns, retention);
            SamplesOf(RowsSince(d.db, k, from)) == ReadingsSince(d.run, k, from)
  {
    hide Fits, Possible, TurnAfter, RowsSince, Samples, SamplesOf, Step;
    if turns == [] {
      NoRowsYet(start.db, k, from);
    } else {
      var f, t := Front(turns), Last(turns);
      var d := After(start, f, retention);
      StoredRowsAreReadings(start, f, retention, k, from);
      AllCarried(start, f, retention);
      FreshRun();
      RunPossible(start, f, retention);
      TurnKeepsRows(d, t, retention, k, from);
      AfterRun(start, turns, retention);
      Snoc(d.run, RefreshOf(t));
      ReadingsNext(d.run + [RefreshOf(t)], k, from);
    }
  }

  lemma NoRowsYet(db: Tables, k: Key, from: int)
    requires forall r :: r in db.snapshots ==> r.sampledAt < from
    ensures SamplesOf(RowsSince(db, k, from)) == []
  {
    FilterNone((r: SnapshotRow) => OfGeneration(r, k, from), db.snapshots);
  }

  lemma ReadingsNext(run: Run, k: Key, from: int)
    requires run != []
    ensures ReadingsSince(run, k, from) ==
            ReadingsSince(Front(run), k, from)
            + if Last(run).ans.Reports(k) && Last(run).now >= from then [Last(Samples(run, k))] else []
  {
    var since := (s: Sample) => s.at >= from;
    if Last(run).ans.Reports(k) {
      var x := Last(Samples(run, k));
      FilterAppend(since, AllReadings(Front(run), k), [x]);
      assert Front([x]) == [];
    } else {
      assert AllReadings(run, k) == AllReadings(Front(run), k);
    }
  }

  lemma FilterSplit<T(!new)>(p: T -> bool, s: seq<T>, n: nat)
    requires n <= |s|
    requires forall i :: 0 <= i < n ==> !p(s[i])
    requires forall i :: n <= i < |s| ==> p(s[i])
    ensures Filter(p, s) == s[n..]
  {
    assert s == s[..n] + s[n..];
    FilterAppend(p, s[..n], s[n..]);
    FilterNone(p, s[..n]);
    FilterAll(p, s[n..]);
  }

  lemma FilterFrom(readings: seq<Sample>, n: nat, from: int)
    requires n <= |readings|
    requires forall i :: 0 <= i < n ==> readings[i].at < from
    requires forall i :: n <= i < |readings| ==> readings[i].at >= from
    ensures Filter((s: Sample) => s.at >= from, readings) == readings[n..]
  {
    hide Filter;
    FilterSplit((s: Sample) => s.at >= from, readings, n);
  }

  lemma DequeIsLateReadings(run: Run, k: Key)
    requires Possible(run) && Ticking(run) && k in StateAfter(run).history
    ensures var hist := StateAfter(run).history[k];
            hist != [] && ReadingsSince(run, k, hist[0].at) == hist
            && forall i, j :: 0 <= i < j < |hist| ==> hist[i].at < hist[j].at
  {
    hide StateAfter, Samples, Tracked, AllReadings, Filter;
    StateMatchesAnswers(run, k);
    TrackedKeys(run, k);
    TrackedIsSuffix(run, k);
    ReadingsIncrease(run, k);
    var hist, all := StateAfter(run).history[k], AllReadings(run, k);
    var n := |all| - |hist|;
    assert hist == all[n..] && hist[0] == all[n];
    assert forall i :: n < i < |all| ==> all[n].at < all[i].at;
    FilterFrom(all, n, hist[0].at);
  }

  /** The deque and the store agree. For any tracked generation, live or in its grace
      tick: if every snapshot INSERT succeeded, refresh times strictly increase and no
      prune cutoff has passed the deque's oldest sample, then every time-ordered answer
      of the generation query that reaches back that far ends with exactly the deque. */
  lemma StoreEndsWithDeque(start: Sherd, turns: seq<Turn>, retention: int, k: Key, since: int, rows: seq<SnapshotRow>)
    requires AllFit(start, turns, retention) && start.run == [] && SnapshotsComplete(turns)
    requires var d := After(start, turns, retention);
             && Ticking(d.run) && k in StateAfter(d.run).history && StateAfter(d.run).history[k] != []
             && var oldest := StateAfter(d.run).history[k][0].at;
             && since <= oldest && PrunesBelow(start, turns, retention, oldest)
             && (forall r :: r in start.db.snapshots ==> r.sampledAt < oldest)
             && TimeOrdered((x: SnapshotRow) => x.sampledAt, rows,
                            Filter((x: SnapshotRow) => OfGeneration(x, k, since), d.db.snapshots))
    ensures var hist := StateAfter(After(start, turns, retention).run).history[k];
            |hist| <= |rows| && SamplesOf(rows[|rows| - |hist|..]) == hist
  {
    hide Possible, After, StateAfter, TimeOrdered, SamplesOf;
    var d := After(start, turns, retention);
    FreshRun();
    RunPossible(start, turns, retention);
    var hist := StateAfter(d.run).history[k];
    var oldest := hist[0].at;
    DequeIsLateReadings(d.run, k);
    StoredRowsAreReadings(start, turns, retention, k, oldest);
    LateRows(d.db, k, since, oldest, hist, rows);
  }

  lemma LateRows(db: Tables, k: Key, since: int, oldest: int, hist: seq<Sample>, rows: seq<SnapshotRow>)
    requires since <= oldest && SamplesOf(RowsSince(db, k, oldest)) == hist
    requires forall i, j :: 0 <= i < j < |hist| ==> hist[i].at < hist[j].at
    requires TimeOrdered((x: SnapshotRow) => x.sampledAt, rows,
                         Filter((x: SnapshotRow) => OfGeneration(x, k, since), db.snapshots))
    ensures |hist| <= |rows| && SamplesOf(rows[|rows| - |hist|..]) == hist
  {
    var at := (x: SnapshotRow) => x.sampledAt;
    var ofK := (x: SnapshotRow) => OfGeneration(x, k, since);
    var late := (r: SnapshotRow) => r.sampledAt >= oldest;
    var found := Filter(ofK, db.snapshots);
    FilterBoth(db.snapshots, k, since, oldest);
    var kept := RowsSince(db, k, oldest);
    assert |kept| == |hist|;
    forall i, j | 0 <= i < j < |kept| ensures at(kept[i]) < at(kept[j]) {
      assert hist[i] == SampleOf(kept[i]) && hist[j] == SampleOf(kept[j]);
    }
    assert Filter(late, found) == kept;
    AnswerTail(at, late, rows, found);
  }

  lemma {:induction false} FilterBoth(rows: seq<SnapshotRow>, k: Key, since: int, oldest: int)
    requires since <= oldest
    ensures Filter((r: SnapshotRow) => r.sampledAt >= oldest,
                   Filter((x: SnapshotRow) => OfGeneration(x, k, since), rows)) ==
            Filter((r: SnapshotRow) => OfGeneration(r, k, oldest), rows)
  {
    if rows != [] {
      FilterBoth(Front(rows), k, since, oldest);
      var f := Filter((x: SnapshotRow) => OfGeneration(x, k, since), Front(rows));
      if OfGeneration(Last(rows), k, since) {
        assert Front(f + [Last(rows)]) == f;
      }
    }
  }
}
