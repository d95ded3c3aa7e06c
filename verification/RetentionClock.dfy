/** Exactly how far the clock may step back before a stored row can outlive the retention
    period by more than an hour: no further than that period. */
module RetentionClock {
  import opened Model
  import opened Seqs
  import opened Tick
  import opened Runs
  import opened Store
  import opened Daemon
  import opened Retention

  function StaleTurn(retention: nat, i: nat): Turn
    requires i < 3
  {
    var none := Orders(map[], [], []);
    var snap := Snapshot(1, 0, "p", 0, 0, 0, 0.0, 0, 1, 0);
    if i == 0 then Turn(10 * retention, ListFailed, none, [], 0, 2)
    else if i == 1 then Turn(9 * retention - 1, Listed([1], map[1 := snap], map[]), none, [1], 1, 0)
    else Turn(10 * retention + PRUNE_EVERY_SECS - 1, ListFailed, none, [], 0, 0)
  }

  /** The daemon prunes; the clock steps back by a second more than the retention period
      and a row is stored; the clock returns and the next prune is a second away. */
  function StaleTurns(retention: nat): seq<Turn> {
    [StaleTurn(retention, 0), StaleTurn(retention, 1), StaleTurn(retention, 2)]
  }

  const FRESH_START := Sherd([], Tables([], []), 0)

  lemma NothingReadYet(retention: nat)
    ensures var s := StateAfter([RefreshOf(StaleTurn(retention, 0))]); s == EMPTY_STATE
  {
    assert Front([RefreshOf(StaleTurn(retention, 0))]) == [];
    assert Pruned(EMPTY_STATE) == EMPTY_STATE;
  }

  lemma StaleReadFits(d: Sherd, retention: nat)
    requires StateAfter(d.run) == EMPTY_STATE
    ensures Fits(d, StaleTurn(retention, 1))
    ensures exists r :: r in PersistedBy(d, StaleTurn(retention, 1)).snapshots && r.sampledAt == 9 * retention - 1
  {
    hide HistoryAfter, SeenAfter, Emitted, RecentEvents;
    var t := StaleTurn(retention, 1);
    Snoc(d.run, RefreshOf(t));
    assert Pruned(EMPTY_STATE) == EMPTY_STATE;
    var current := StateAfter(d.run + [RefreshOf(t)]).current;
    assert t.ans.pids[..1] == t.ans.pids;
    assert current.Keys == {1};
    assert Elements(t.order) == {1};
    assert KeysOf(EMPTY_STATE.current) == {};
    assert Gone(EMPTY_STATE, t.now, t.ans) == {};
    assert OrdersFit(EMPTY_STATE, t.now, t.ans, t.ord);
    var row := RowOfSnapshot(current[1], t.now);
    assert Take(t.writes, SnapshotRows(current, t.order, t.now)) == [row];
    assert row in PersistedBy(d, t).snapshots;
  }

  lemma NextPrune(start: Sherd, turns: seq<Turn>, retention: int, t: Turn)
    requires AllFit(start, turns, retention) && Fits(After(start, turns, retention), t)
    ensures AllFit(start, turns + [t], retention)
    ensures After(start, turns + [t], retention) == TurnAfter(After(start, turns, retention), t, retention)
    ensures LatestPruneSucceeded(start, turns + [t], retention) <==>
            if Prunes(After(start, turns, retention), t) then t.deletes >= 2
            else LatestPruneSucceeded(start, turns, retention)
  {
    hide Fits, TurnAfter;
    NextTurn(start, turns, retention, t);
  }

  lemma StaleRowStays(retention: nat)
    requires retention >= PRUNE_EVERY_SECS
    ensures AllFit(FRESH_START, StaleTurns(retention), retention)
    ensures LatestPruneSucceeded(FRESH_START, StaleTurns(retention), retention)
    ensures exists r :: r in After(FRESH_START, StaleTurns(retention), retention).db.snapshots
                        && r.sampledAt == 9 * retention - 1
  {
    hide PersistedBy, StateAfter, Fits, OrdersFit, LatestPruneSucceeded;
    var t, u, v := StaleTurn(retention, 0), StaleTurn(retention, 1), StaleTurn(retention, 2);
    FailedFits(FRESH_START, t);
    NextPrune(FRESH_START, [], retention, t);
    var d := TurnAfter(FRESH_START, t, retention);
    assert d.run == [RefreshOf(t)];
    NothingReadYet(retention);
    StaleReadFits(d, retention);
    NextPrune(FRESH_START, [] + [t], retention, u);
    var e := TurnAfter(d, u, retention);
    FailedFits(e, v);
    NextPrune(FRESH_START, [] + [t] + [u], retention, v);
    assert StaleTurns(retention) == [] + [t] + [u] + [v];
  }

  lemma FailedFits(d: Sherd, t: Turn)
    requires t.ans.ListFailed?
    ensures Fits(d, t) && PersistedBy(d, t) == d.db
  {
  }

  /** An hour up and after a successful latest prune, some row is older than the retention
      period plus an hour. */
  ghost predicate KeepsOldRow(start: Sherd, turns: seq<Turn>, retention: int) {
    && turns != [] && AllFit(start, turns, retention)
    && UpAnHour(start.lastPrune, turns) && LatestPruneSucceeded(start, turns, retention)
    && !NoOlderThan(After(start, turns, retention).db, Last(turns).now, retention + PRUNE_EVERY_SECS - 1)
  }

  lemma StaleTurnsKeepOldRow(days: U64, back: nat)
    requires back > RetentionSecs(days)
    ensures var turns := StaleTurns(RetentionSecs(days));
            TurnsStepBack(turns, back) && KeepsOldRow(FRESH_START, turns, RetentionSecs(days))
  {
    hide AllFit, After, LatestPruneSucceeded, RetentionSecs;
    var r: nat := RetentionSecs(days);
    StaleRowStays(r);
    var turns := StaleTurns(r);
    assert turns[0].now - FRESH_START.lastPrune >= PRUNE_EVERY_SECS;
  }

  /** Exact tolerance: with a clock that never steps back by more than `back` seconds a
      row can outlive the retention period plus an hour, in spite of a successful latest
      prune, if and only if `back` exceeds the retention period. */
  lemma OldRowNeedsRetentionStep(days: U64, back: nat)
    ensures (exists start, turns :: TurnsStepBack(turns, back) && KeepsOldRow(start, turns, RetentionSecs(days)))
            <==> back > RetentionSecs(days)
  {
    hide AllFit, After, LatestPruneSucceeded, UpAnHour, NoOlderThan, RetentionSecs;
    if back > RetentionSecs(days) {
      StaleTurnsKeepOldRow(days, back);
    } else {
      forall start, turns | TurnsStepBack(turns, back) ensures !KeepsOldRow(start, turns, RetentionSecs(days)) {
        if KeepsOldRow(start, turns, RetentionSecs(days)) {
          RowsStayYoung(start, turns, days);
        }
      }
    }
  }
}
