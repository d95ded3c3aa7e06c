/** What the daemon's pruning promises over whole runs of its loop. */
module Retention {
  import opened Model
  import opened Seqs
  import opened Tick
  import opened Store
  import opened Daemon

  /** Every row is at most `age` seconds old at time `now`. */
  predicate NoOlderThan(db: Tables, now: int, age: int) {
    && (forall r :: r in db.snapshots ==> now - r.sampledAt <= age)
    && (forall r :: r in db.events ==> now - r.at <= age)
  }

  /** The rows stamped `from` or later, as they stand in the tables. */
  function RowsFrom(db: Tables, from: int): Tables {
    Tables(Filter((r: SnapshotRow) => r.sampledAt >= from, db.snapshots),
           Filter((r: EventRow) => r.at >= from, db.events))
  }

  /** Both tables continue with what was there before. */
  predicate Extends(before: Tables, after: Tables) {
    before.snapshots <= after.snapshots && before.events <= after.events
  }

  lemma PruneKeepsYoung(db: Tables, cutoff: int, deletes: nat, from: int)
    requires cutoff <= from
    ensures RowsFrom(PrunedTables(db, cutoff, deletes), from) == RowsFrom(db, from)
  {
    FilterTwice((r: SnapshotRow) => r.sampledAt >= from, (r: SnapshotRow) => r.sampledAt >= cutoff, db.snapshots);
    FilterTwice((r: EventRow) => r.at >= from, (r: EventRow) => r.at >= cutoff, db.events);
  }

  lemma ExtendsFrom(before: Tables, after: Tables, from: int)
    requires Extends(before, after)
    ensures Extends(RowsFrom(before, from), RowsFrom(after, from))
  {
    hide Filter;
    var n, m := |before.snapshots|, |before.events|;
    assert after.snapshots == before.snapshots + after.snapshots[n..];
    assert after.events == before.events + after.events[m..];
    FilterAppend((r: SnapshotRow) => r.sampledAt >= from, before.snapshots, after.snapshots[n..]);
    FilterAppend((r: EventRow) => r.at >= from, before.events, after.events[m..]);
  }

  /** An iteration only appends to the rows within the retention period: it neither
      drops, duplicates nor reorders any of them, and without a prune none at all. */
  lemma OnlyOldRowsDeleted(d: Sherd, t: Turn, retention: int, from: int)
    requires Fits(d, t) && (Prunes(d, t) ==> t.now - retention <= from)
    ensures Extends(RowsFrom(d.db, from), RowsFrom(TurnAfter(d, t, retention).db, from))
    ensures !Prunes(d, t) ==> Extends(d.db, TurnAfter(d, t, retention).db)
  {
    hide Fits, PrunedTables, RowsFrom;
    PersistExtends(d, t);
    ExtendsFrom(d.db, PersistedBy(d, t), from);
    if Prunes(d, t) {
      PruneKeepsYoung(PersistedBy(d, t), t.now - retention, t.deletes, from);
    }
  }

  lemma PersistExtends(d: Sherd, t: Turn)
    requires Fits(d, t)
    ensures Extends(d.db, PersistedBy(d, t))
  {
    hide Fits, SnapshotRows, EventRows;
  }

  /** Rows written in an iteration carry its time. */
  lemma WrittenRowsAreNow(d: Sherd, t: Turn)
    requires Fits(d, t)
    ensures forall r :: r in PersistedBy(d, t).snapshots ==> r in d.db.snapshots || r.sampledAt == t.now
    ensures forall r :: r in PersistedBy(d, t).events ==> r in d.db.events || r.at >= t.now
  {
    hide Fits, OrdersFit, Step;
    if t.ans.Listed? {
      var run := d.run + [RefreshOf(t)];
      var events := RecentEvents(run, t.now);
      var rows := EventRows(events);
      forall r | r in PersistedBy(d, t).events ensures r in d.db.events || r.at >= t.now {
        if r !in d.db.events {
          assert r in Take(t.writes - |t.order|, rows);
          var i :| 0 <= i < |rows| && rows[i] == r;
          assert events[i] in events;
        }
      }
    }
  }

  /** No iteration is stamped more than `back` seconds before an earlier one. */
  predicate TurnsStepBack(turns: seq<Turn>, back: int) {
    forall i, j :: 0 <= i < j < |turns| ==> turns[i].now <= turns[j].now + back
  }

  /** Some iteration pruned. */
  ghost predicate HasPruned(start: Sherd, turns: seq<Turn>, retention: int)
    requires AllFit(start, turns, retention)
  {
    turns != []
    && (HasPruned(start, Front(turns), retention)
        || Prunes(After(start, Front(turns), retention), Last(turns)))
  }

  /** Some iteration ran an hour or more after the daemon's start. */
  predicate UpAnHour(startedAt: int, turns: seq<Turn>) {
    exists i :: 0 <= i < |turns| && turns[i].now - startedAt >= 3600
  }

  lemma {:induction false} NotPrunedYet(start: Sherd, turns: seq<Turn>, retention: int)
    requires AllFit(start, turns, retention) && !HasPruned(start, turns, retention)
    ensures After(start, turns, retention).lastPrune == start.lastPrune
  {
    hide Fits, PersistedBy;
    if turns != [] {
      NotPrunedYet(start, Front(turns), retention);
    }
  }

  lemma UpAnHourByNow(startedAt: int, turns: seq<Turn>)
    requires turns != []
    ensures UpAnHour(startedAt, turns) <==>
            UpAnHour(startedAt, Front(turns)) || Last(turns).now - startedAt >= PRUNE_EVERY_SECS
  {
    if UpAnHour(startedAt, Front(turns)) {
      var i :| 0 <= i < |Front(turns)| && Front(turns)[i].now - startedAt >= PRUNE_EVERY_SECS;
      assert turns[i].now - startedAt >= PRUNE_EVERY_SECS;
    }
  }

  /** The daemon prunes exactly when it stays up for an hour: some iteration prunes if
      and only if some iteration runs an hour or more after the start, whatever the
      clock does in between. */
  lemma {:induction false} PrunesIffUpAnHour(start: Sherd, turns: seq<Turn>, retention: int)
    requires AllFit(start, turns, retention)
    ensures HasPruned(start, turns, retention) <==> UpAnHour(start.lastPrune, turns)
  {
    hide Fits, PersistedBy;
    if turns != [] {
      PrunesIffUpAnHour(start, Front(turns), retention);
      UpAnHourByNow(start.lastPrune, turns);
      if !HasPruned(start, Front(turns), retention) {
        NotPrunedYet(start, Front(turns), retention);
      }
    }
  }

  /** The latest prune, if there was one, ran both DELETEs. */
  ghost predicate LatestPruneSucceeded(start: Sherd, turns: seq<Turn>, retention: int)
    requires AllFit(start, turns, retention)
  {
    turns == []
    || if Prunes(After(start, Front(turns), retention), Last(turns)) then Last(turns).deletes >= 2
       else LatestPruneSucceeded(start, Front(turns), retention)
  }

  /** The latest prune was stamped with the time of its iteration. */
  lemma {:induction false} PrunedInATurn(start: Sherd, turns: seq<Turn>, retention: int) returns (i: nat)
    requires AllFit(start, turns, retention) && HasPruned(start, turns, retention)
    ensures i < |turns| && After(start, turns, retention).lastPrune == turns[i].now
  {
    hide Fits, PersistedBy;
    var f := Front(turns);
    if Prunes(After(start, f, retention), Last(turns)) {
      i := |f|;
    } else {
      i := PrunedInATurn(start, f, retention);
    }
  }

  /** No row is older, at the time of the latest prune, than the retention period. */
  lemma {:induction false} AgesSincePrune(start: Sherd, turns: seq<Turn>, retention: int)
    requires AllFit(start, turns, retention) && TurnsStepBack(turns, retention) && retention >= 0
    requires LatestPruneSucceeded(start, turns, retention) && HasPruned(start, turns, retention)
    ensures var d := After(start, turns, retention); NoOlderThan(d.db, d.lastPrune, retention)
  {
    hide Fits, PersistedBy;
    var f, t := Front(turns), Last(turns);
    var d := After(start, f, retention);
    WrittenRowsAreNow(d, t);
    if !Prunes(d, t) {
      AgesSincePrune(start, f, retention);
      var i := PrunedInATurn(start, f, retention);
      assert turns[i].now <= turns[|f|].now + retention;
    }
  }

  /** Once the daemon has been up for an hour, and its latest prune succeeded, every
      iteration of the loop ends with all rows younger than the retention period plus
      an hour, even if the clock steps back by as much as that period. */
  lemma RowsStayYoung(start: Sherd, turns: seq<Turn>, days: U64)
    requires AllFit(start, turns, RetentionSecs(days)) && TurnsStepBack(turns, RetentionSecs(days))
    requires UpAnHour(start.lastPrune, turns) && LatestPruneSucceeded(start, turns, RetentionSecs(days))
    ensures NoOlderThan(After(start, turns, RetentionSecs(days)).db, Last(turns).now,
                        RetentionSecs(days) + PRUNE_EVERY_SECS - 1)
  {
    hide Fits, PersistedBy, RetentionSecs;
    RetentionPositive(days);
    PrunesIffUpAnHour(start, turns, RetentionSecs(days));
    AgesSincePrune(start, turns, RetentionSecs(days));
  }

  lemma RetentionPositive(days: U64)
    ensures RetentionSecs(days) >= 0
  {
  }

  lemma {:induction false} FitPrefix(start: Sherd, turns: seq<Turn>, retention: int, n: nat)
    requires AllFit(start, turns, retention) && n <= |turns|
    ensures AllFit(start, turns[..n], retention)
  {
    if n < |turns| {
      FitPrefix(start, Front(turns), retention, n);
      assert Front(turns)[..n] == turns[..n];
    } else {
      assert turns[..n] == turns;
    }
  }

  /** No row is ever lost while it is within the retention period: of the rows stored
      after n iterations, those within it at every later iteration are all still there,
      each as often as before and in their order, ahead of anything added since. */
  lemma {:induction false} YoungRowsSurvive(start: Sherd, turns: seq<Turn>, retention: int, n: nat, from: int)
    requires AllFit(start, turns, retention) && n <= |turns| && AllFit(start, turns[..n], retention)
    requires forall i :: n <= i < |turns| ==> turns[i].now - retention <= from
    ensures Extends(RowsFrom(After(start, turns[..n], retention).db, from),
                    RowsFrom(After(start, turns, retention).db, from))
  {
    hide Fits, PersistedBy, TurnAfter, RowsFrom;
    if n == |turns| {
      assert turns[..n] == turns;
    } else {
      var f, t := Front(turns), Last(turns);
      OnlyOldRowsDeleted(After(start, f, retention), t, retention, from);
      assert f[..n] == turns[..n];
      assert forall i :: n <= i < |f| ==> turns[i] == f[i];
      YoungRowsSurvive(start, f, retention, n, from);
    }
  }

  /** A daemon that is always stopped within an hour of starting deletes nothing, whatever
      the retention period: its tables only grow. */
  lemma {:induction false} ShortLivedDaemonNeverPrunes(start: Sherd, turns: seq<Turn>, retention: int)
    requires AllFit(start, turns, retention) && !UpAnHour(start.lastPrune, turns)
    ensures Extends(start.db, After(start, turns, retention).db)
  {
    hide Fits, PersistedBy;
    PrunesIffUpAnHour(start, turns, retention);
    if turns != [] {
      var f, t := Front(turns), Last(turns);
      assert forall i :: 0 <= i < |f| ==> f[i] == turns[i];
      ShortLivedDaemonNeverPrunes(start, f, retention);
      OnlyOldRowsDeleted(After(start, f, retention), t, retention, 0);
    }
  }
}
