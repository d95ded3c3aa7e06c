/** The smallest input on which the daemon stores an event twice: a process is read once
    and gone at the next refresh, which is not stamped later. */
module StoredTwice {
  import opened Results
  import opened Seqs
  import opened Tick
  import opened Runs
  import opened Lifecycle
  import opened Investigation
  import opened Store
  import opened Daemon
  import opened ShortLife
  import opened Persistence

  lemma LivedOwnEvents(born: int, died: int)
    ensures OwnEventsOnly(Lived(born, died)) <==> born < died
  {
    hide LastEmitted, Possible;
    LivedPossible(born, died);
    LivedSamples(born, died, TWELVE);
    LivedStart(born);
    LivedExit(born, died);
    var run, first := Lived(born, died), [Born(born)];
    assert Log([]) == [];
    assert OthersEarlier(first);
    assert OwnEventsOnly([]) && OwnEventsOnly(first);
    assert Log(run) == Log(first) + LastEmitted(run);
    var last := |Log(first)| - 1;
    assert Evicted(run) <= last;
    assert Log(first)[last].at == born;
  }

  const EMPTY_STORE := Sherd([], Tables([], []), 0)
  const ENOUGH: nat := 2000

  function BornTurn(at: int): Turn { Turn(at, Born(at).ans, Born(at).ord, [12], ENOUGH, 0) }

  function DiedTurn(at: int): Turn { Turn(at, Died(at).ans, Died(at).ord, [], ENOUGH, 0) }

  function LivedTurns(born: int, died: int): seq<Turn> { [BornTurn(born), DiedTurn(died)] }

  lemma BornCurrent(born: int)
    ensures StateAfter([Born(born)]).current.Keys == {12}
    ensures |LastEmitted([Born(born)])| <= 2
  {
    hide HistoryAfter, SeenAfter, Baseline;
    var ans := Born(born).ans;
    assert Front([Born(born)]) == [];
    assert Pruned(EMPTY_STATE) == EMPTY_STATE;
    assert ans.pids[..1] == ans.pids;
    assert GrowthEvents([], born, TWELVE, 100) == [] by { NothingGrown(born); }
    assert EventsAfter(EMPTY_STATE, born, ans, map[], 1) == PidEvents(EMPTY_STATE, born, ans, map[], 0);
  }

  lemma NothingGrown(now: int)
    ensures Baseline([], now) == None
  {
  }

  lemma DiedCurrent(born: int, died: int)
    ensures StateAfter(Lived(born, died)).current == map[]
  {
    hide HistoryAfter, SeenAfter, Emitted;
    assert Front(Lived(born, died)) == [Born(born)];
  }

  lemma RecentIsBounded(run: Run, now: int)
    ensures |RecentEvents(run, now)| <= TIMELINE_CAPACITY
  {
    TimelineIsLogTail(run);
  }

  lemma BornFits(born: int)
    ensures Fits(EMPTY_STORE, BornTurn(born))
  {
    hide StateAfter, Possible, OrdersFit;
    LivedPossible(born, born);
    Snoc([], Born(born));
    assert [] + [Born(born)] == [Born(born)];
    BornCurrent(born);
    assert Elements([12]) == {12};
  }

  lemma DiedFits(d: Sherd, born: int, died: int)
    requires d.run == [Born(born)]
    ensures Fits(d, DiedTurn(died))
  {
    hide StateAfter, Possible, OrdersFit;
    LivedPossible(born, died);
    Snoc([Born(born)], Died(died));
    assert [Born(born)] + [Died(died)] == Lived(born, died);
    DiedCurrent(born, died);
  }

  lemma UnhinderedNext(start: Sherd, turns: seq<Turn>, retention: int, t: Turn, run: Run)
    requires AllFit(start, turns, retention) && Fits(After(start, turns, retention), t)
    requires run == After(start, turns, retention).run + [RefreshOf(t)]
    requires Unhindered(start, turns, retention)
    requires |LastEmitted(run)| <= TIMELINE_CAPACITY && t.writes >= |t.order| + TIMELINE_CAPACITY
    ensures AllFit(start, turns + [t], retention) && After(start, turns + [t], retention).run == run
    ensures Unhindered(start, turns + [t], retention)
  {
    hide StateAfter, LastEmitted, RecentEvents, PersistedBy, Fits;
    NextTurn(start, turns, retention, t);
    RecentIsBounded(run, t.now);
  }

  /** The daemon can be given that life, with nothing in its way. */
  lemma LivedIsServed(born: int, died: int, retention: int)
    ensures AllFit(EMPTY_STORE, LivedTurns(born, died), retention)
    ensures After(EMPTY_STORE, LivedTurns(born, died), retention).run == Lived(born, died)
    ensures Unhindered(EMPTY_STORE, LivedTurns(born, died), retention)
  {
    hide StateAfter, LastEmitted, Fits, TurnAfter;
    BornFits(born);
    BornCurrent(born);
    assert [] + [Born(born)] == [Born(born)] && [Born(born)] + [Died(died)] == Lived(born, died);
    UnhinderedNext(EMPTY_STORE, [], retention, BornTurn(born), [Born(born)]);
    assert [] + [BornTurn(born)] == [BornTurn(born)];
    var d := After(EMPTY_STORE, [BornTurn(born)], retention);
    DiedFits(d, born, died);
    LivedExit(born, died);
    UnhinderedNext(EMPTY_STORE, [BornTurn(born)], retention, DiedTurn(died), Lived(born, died));
    assert [BornTurn(born)] + [DiedTurn(died)] == LivedTurns(born, died);
  }

  /** The daemon stores the log of that life exactly if the second refresh is stamped
      later than the first, and otherwise more than the log. */
  lemma LivedStoredOnce(born: int, died: int, retention: int)
    ensures AllFit(EMPTY_STORE, LivedTurns(born, died), retention)
    ensures AllStored(EMPTY_STORE, LivedTurns(born, died), retention) == Log(Lived(born, died)) <==> born < died
    ensures born >= died ==> |AllStored(EMPTY_STORE, LivedTurns(born, died), retention)| > |Log(Lived(born, died))|
  {
    hide After, AllStored, Log, OwnEventsOnly, Unhindered;
    LivedIsServed(born, died, retention);
    LivedOwnEvents(born, died);
    StoresLogIffOwnEvents(EMPTY_STORE, LivedTurns(born, died), retention);
  }
}
