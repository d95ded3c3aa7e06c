/** When the daemon's prunes leave alone what memory still holds, in terms of the times
    of its iterations only. */
module DequeKept {
  import opened Results
  import opened Model
  import opened Seqs
  import opened Tick
  import opened Runs
  import opened Growth
  import opened Store
  import opened Daemon
  import opened Persistence

  /** The retained readings of k reach back at most one gap per slot of the deque. */
  lemma DequeSpan(run: Run, k: Key, gap: nat)
    requires Possible(run) && Spaced(run, gap) && k in StateAfter(run).history
    ensures var hist := StateAfter(run).history[k];
            hist != [] && LastSuccess(run).Some? && LastSuccess(run).value - hist[0].at <= HISTORY_CAPACITY * gap
  {
    hide StateAfter, Samples, Possible;
    StateMatchesAnswers(run, k);
    var kept := Tracked(run, k);
    var last := if kept == Samples(run, k) then run else Front(run);
    StreakSpacing(last, k, gap);
    var hist := LastN(HISTORY_CAPACITY, kept);
    assert hist[0] == kept[|kept| - |hist|];
    ProductBound(|hist| - 1, gap, HISTORY_CAPACITY - 1, gap);
  }

  /** Prunes stay below any moment that is within the retention period at every iteration. */
  lemma {:induction false} YoungIsUnpruned(start: Sherd, turns: seq<Turn>, retention: int, from: int)
    requires AllFit(start, turns, retention)
    requires forall i :: 0 <= i < |turns| ==> turns[i].now - retention <= from
    ensures PrunesBelow(start, turns, retention, from)
  {
    hide Fits, TurnAfter;
    if turns != [] {
      assert forall i :: 0 <= i < |turns| - 1 ==> Front(turns)[i] == turns[i];
      YoungIsUnpruned(start, Front(turns), retention, from);
    }
  }

  /** The times of the refreshes are the times of the iterations. */
  lemma {:induction false} TurnTimes(start: Sherd, turns: seq<Turn>, retention: int, i: nat)
    requires AllFit(start, turns, retention) && start.run == [] && i < |turns|
    ensures var run := After(start, turns, retention).run; i < |run| == |turns| && run[i].now == turns[i].now
  {
    hide Fits, PersistedBy;
    FreshRun();
    RunPossible(start, turns, retention);
    AfterRun(start, turns, retention);
    if i < |turns| - 1 {
      TurnTimes(start, Front(turns), retention, i);
    } else {
      RunPossible(start, Front(turns), retention);
    }
  }

  /** Every reading is stamped with the time of some refresh. */
  lemma {:induction false} SampleTime(run: Run, k: Key, j: nat) returns (i: nat)
    requires j < |Samples(run, k)|
    ensures i < |run| && run[i].now == Samples(run, k)[j].at
  {
    if j < |Samples(Front(run), k)| {
      i := SampleTime(Front(run), k, j);
    } else {
      i := |run| - 1;
    }
  }

  lemma OldestTime(run: Run, k: Key) returns (i: nat)
    requires Possible(run) && k in StateAfter(run).history
    ensures StateAfter(run).history[k] != [] && i < |run| && run[i].now == StateAfter(run).history[k][0].at
  {
    hide StateAfter, Samples, Possible;
    StateMatchesAnswers(run, k);
    var kept := Tracked(run, k);
    var last := if kept == Samples(run, k) then run else Front(run);
    i := SampleTime(last, k, |kept| - |LastN(HISTORY_CAPACITY, kept)|);
  }

  /** The deque and the store agree whenever 121 gaps between successful refreshes fit in
      the retention period: with at most `gap` seconds between successful refreshes, and
      from the last of them to any iteration, no prune reaches the in-memory deque of any
      tracked generation, and every answer that reaches back that far ends with exactly
      it. For the shortest retention, one day, gaps of 714 seconds will do. */
  lemma PolledStoreEndsWithDeque(start: Sherd, turns: seq<Turn>, days: U64, gap: nat, k: Key, since: int,
                                 rows: seq<SnapshotRow>)
    requires (HISTORY_CAPACITY + 1) * gap <= RetentionSecs(days)
    requires AllFit(start, turns, RetentionSecs(days)) && start.run == [] && SnapshotsComplete(turns)
    requires forall r, i :: r in start.db.snapshots && 0 <= i < |turns| ==> r.sampledAt < turns[i].now
    requires var run := After(start, turns, RetentionSecs(days)).run;
             && Ticking(run) && Spaced(run, gap) && k in StateAfter(run).history
             && forall i, at :: 0 <= i < |turns| && LastSuccess(run) == Some(at) ==> turns[i].now <= at + gap
    requires var d := After(start, turns, RetentionSecs(days));
             var hist := StateAfter(d.run).history[k];
             && (hist != [] ==> since <= hist[0].at)
             && TimeOrdered((x: SnapshotRow) => x.sampledAt, rows,
                            Filter((x: SnapshotRow) => OfGeneration(x, k, since), d.db.snapshots))
    ensures var hist := StateAfter(After(start, turns, RetentionSecs(days)).run).history[k];
            hist != [] && |hist| <= |rows| && SamplesOf(rows[|rows| - |hist|..]) == hist
  {
    hide After, StateAfter, Possible, TimeOrdered, SamplesOf, Ticking, Spaced, Fits, AllFit, RetentionSecs;
    var retention := RetentionSecs(days);
    var run := After(start, turns, retention).run;
    FreshRun();
    RunPossible(start, turns, retention);
    DequeSpan(run, k, gap);
    var oldest := StateAfter(run).history[k][0].at;
    forall i | 0 <= i < |turns| ensures turns[i].now - retention <= oldest {
      assert turns[i].now <= LastSuccess(run).value + gap;
    }
    YoungIsUnpruned(start, turns, retention, oldest);
    var i := OldestTime(run, k);
    TurnTimes(start, turns, retention, i);
    StoreEndsWithDeque(start, turns, retention, k, since, rows);
  }
}
