/** The persistent store (sher-pe-history): two append-only tables, queried in time
    order and pruned by age. Encoding a value to JSON and back is the identity, so
    rows hold the value. */
module Store {
  import opened Results
  import opened Model
  import opened Seqs

  /** Rust's `as i64` on a u64: the same 64 bits. */
  function AsI64(x: U64): I64 {
    if x < 0x8000_0000_0000_0000 then x else x - 0x1_0000_0000_0000_0000
  }

  /** Distinct start times stay distinct columns, so generations never merge. */
  lemma AsI64Injective(a: U64, b: U64)
    ensures AsI64(a) == AsI64(b) <==> a == b
  {
  }

  datatype SnapshotRow = SnapshotRow(pid: Pid, startTime: I64, sampledAt: int, snap: Snapshot)
  datatype EventRow = EventRow(pid: Pid, startTime: I64, at: int, event: Event)

  function RowOfSnapshot(snap: Snapshot, at: int): SnapshotRow {
    SnapshotRow(snap.pid, AsI64(snap.startTime), at, snap)
  }

  function RowOfEvent(e: Event): EventRow {
    EventRow(e.key.pid, AsI64(e.key.start), e.at, e)
  }

  datatype Tables = Tables(snapshots: seq<SnapshotRow>, events: seq<EventRow>)
  {
    /** Every row was written by `record_snapshot` or `record_event`. */
    predicate Recorded() {
      && (forall r :: r in snapshots ==> r == RowOfSnapshot(r.snap, r.sampledAt))
      && (forall r :: r in events ==> r == RowOfEvent(r.event))
    }
  }

  // ---- Queries --------------------------------------------------------------------------

  /** `out` is a possible answer to SELECT ... ORDER BY time over the rows: the same
      rows in time order, ties in any order. */
  ghost predicate TimeOrdered<R(!new)>(at: R -> int, out: seq<R>, rows: seq<R>) {
    && multiset(out) == multiset(rows)
    && forall i, j :: 0 <= i < j < |out| ==> at(out[i]) <= at(out[j])
  }

  predicate Increasing<R(!new)>(at: R -> int, rows: seq<R>) {
    forall i, j :: 0 <= i < j < |rows| ==> at(rows[i]) < at(rows[j])
  }

  lemma SameLength<R(!new)>(at: R -> int, out: seq<R>, rows: seq<R>)
    requires TimeOrdered(at, out, rows)
    ensures |out| == |rows|
  {
    assert |out| == |multiset(out)| == |multiset(rows)|;
  }

  lemma LatestIsLast<R(!new)>(at: R -> int, out: seq<R>, rows: seq<R>)
    requires TimeOrdered(at, out, rows) && Increasing(at, rows) && rows != [] && out != []
    ensures Last(out) == Last(rows)
  {
    assert Last(out) in multiset(out) && Last(rows) in multiset(rows);
    assert Last(out) in rows && Last(rows) in out;
    var i :| 0 <= i < |rows| && rows[i] == Last(out);
    var j :| 0 <= j < |out| && out[j] == Last(rows);
    assert at(Last(rows)) <= at(Last(out));
  }

  lemma FrontTimeOrdered<R(!new)>(at: R -> int, out: seq<R>, rows: seq<R>)
    requires TimeOrdered(at, out, rows) && Increasing(at, rows) && rows != [] && out != [] && Last(out) == Last(rows)
    ensures TimeOrdered(at, Front(out), Front(rows)) && Increasing(at, Front(rows))
  {
    FrontMultiset(out);
    FrontMultiset(rows);
  }

  /** When no two rows share a time the answer is unique: the rows as they stand. */
  lemma {:induction false} DistinctTimesFixOrder<R(!new)>(at: R -> int, out: seq<R>, rows: seq<R>)
    requires TimeOrdered(at, out, rows) && Increasing(at, rows)
    ensures out == rows
  {
    hide TimeOrdered, Increasing;
    SameLength(at, out, rows);
    if rows != [] {
      LatestIsLast(at, out, rows);
      FrontTimeOrdered(at, out, rows);
      DistinctTimesFixOrder(at, Front(out), Front(rows));
      assert out == Front(out) + [Last(out)] && rows == Front(rows) + [Last(rows)];
    }
  }

  lemma FrontMultiset<T>(s: seq<T>)
    requires s != []
    ensures multiset(Front(s)) == multiset(s) - multiset{Last(s)}
  {
    assert s == Front(s) + [Last(s)];
  }

  lemma InsertedIsPermutation<T>(s: seq<T>, n: nat, x: T)
    requires n <= |s|
    ensures multiset(s[..n] + [x] + s[n..]) == multiset(s + [x])
  {
    assert s == s[..n] + s[n..];
  }

  lemma {:induction false} LateRowsLast<R(!new)>(late: R -> bool, rows: seq<R>)
    requires forall i, j :: 0 <= i < j < |rows| && late(rows[i]) ==> late(rows[j])
    ensures Filter(late, rows) == rows[|rows| - |Filter(late, rows)|..]
  {
    if rows != [] {
      if late(Last(rows)) {
        LateRowsLast(late, Front(rows));
        SuffixNext(rows, |Front(rows)| - |Filter(late, Front(rows))|);
      } else {
        NoneLate(late, rows);
        assert rows[|rows|..] == [];
      }
    }
  }

  lemma SuffixNext<T>(s: seq<T>, n: nat)
    requires s != [] && n < |s|
    ensures s[n..] == Front(s)[n..] + [Last(s)]
  {
  }

  lemma NoneLate<R(!new)>(late: R -> bool, rows: seq<R>)
    requires rows != [] && !late(Last(rows))
    requires forall i, j :: 0 <= i < j < |rows| && late(rows[i]) ==> late(rows[j])
    ensures Filter(late, rows) == []
  {
    hide Filter;
    assert forall i :: 0 <= i < |rows| ==> !late(rows[i]);
    FilterNone(late, rows);
  }

  lemma FilterPermutes<R(!new)>(p: R -> bool, a: seq<R>, b: seq<R>)
    requires multiset(a) == multiset(b)
    ensures multiset(Filter(p, a)) == multiset(Filter(p, b))
  {
    forall x ensures multiset(Filter(p, a))[x] == multiset(Filter(p, b))[x] {
      FilterCount(p, a, x);
      FilterCount(p, b, x);
    }
  }

  /** In any time-ordered answer, rows from some moment on that all have different
      times come last and in the order they were stored. */
  lemma AnswerTail<R(!new)>(at: R -> int, late: R -> bool, out: seq<R>, rows: seq<R>)
    requires TimeOrdered(at, out, rows) && Increasing(at, Filter(late, rows))
    requires forall a, b :: late(a) && at(a) <= at(b) ==> late(b)
    ensures |Filter(late, rows)| <= |out| && out[|out| - |Filter(late, rows)|..] == Filter(late, rows)
  {
    LateRowsLast(late, out);
    FilterPermutes(late, out, rows);
    LateInOrder(at, late, out);
    DistinctTimesFixOrder(at, Filter(late, out), Filter(late, rows));
  }

  lemma LateInOrder<R(!new)>(at: R -> int, late: R -> bool, out: seq<R>)
    requires forall i, j :: 0 <= i < j < |out| ==> at(out[i]) <= at(out[j])
    requires Filter(late, out) == out[|out| - |Filter(late, out)|..]
    ensures forall i, j :: 0 <= i < j < |Filter(late, out)| ==> at(Filter(late, out)[i]) <= at(Filter(late, out)[j])
  {
  }

  /** Collects the rows satisfying p, in time order. */
  method Select<R(!new)>(p: R -> bool, at: R -> int, table: seq<R>) returns (out: seq<R>)
    ensures TimeOrdered(at, out, Filter(p, table))
  {
    out := [];
    for i := 0 to |table|
      invariant TimeOrdered(at, out, Filter(p, table[..i]))
    {
      assert Front(table[..i + 1]) == table[..i];
      if p(table[i]) {
        out := InsertByTime(at, out, table[i]);
      }
    }
    assert table[..|table|] == table;
  }

  method InsertByTime<R(!new)>(at: R -> int, rows: seq<R>, row: R) returns (out: seq<R>)
    requires forall i, j :: 0 <= i < j < |rows| ==> at(rows[i]) <= at(rows[j])
    ensures TimeOrdered(at, out, rows + [row])
  {
    var n := |rows|;
    while n > 0 && at(rows[n - 1]) > at(row)
      invariant 0 <= n <= |rows|
      invariant forall i :: n <= i < |rows| ==> at(rows[i]) > at(row)
    {
      n := n - 1;
    }
    out := rows[..n] + [row] + rows[n..];
    InsertedIsPermutation(rows, n, row);
    forall i, j | 0 <= i < j < |out| ensures at(out[i]) <= at(out[j]) {
      assert i < n ==> out[i] == rows[i];
      assert i > n ==> out[i] == rows[i - 1];
      assert j < n ==> out[j] == rows[j];
      assert j > n ==> out[j] == rows[j - 1];
    }
  }

  function SampleOf(r: SnapshotRow): Sample { Sample(r.sampledAt, r.snap) }

  function SamplesOf(rows: seq<SnapshotRow>): seq<Sample> {
    seq(|rows|, i requires 0 <= i < |rows| => SampleOf(rows[i]))
  }

  function EventsIn(rows: seq<EventRow>): seq<Event> {
    seq(|rows|, i requires 0 <= i < |rows| => rows[i].event)
  }

  predicate OfGeneration(r: SnapshotRow, k: Key, since: int) {
    r.pid == k.pid && r.startTime == AsI64(k.start) && r.sampledAt >= since
  }

  predicate EventOfGeneration(r: EventRow, k: Key, since: int) {
    r.pid == k.pid && r.startTime == AsI64(k.start) && r.at >= since
  }

  class HistoryStore {
    var snapshots: seq<SnapshotRow>
    var events: seq<EventRow>

    ghost function Contents(): Tables
      reads this
    {
      Tables(snapshots, events)
    }

    constructor ()
      ensures Contents() == Tables([], [])
    {
      snapshots, events := [], [];
    }

    /** One INSERT; a failing statement writes nothing. */
    method RecordSnapshot(snap: Snapshot, sampledAt: int, fails: bool) returns (ok: bool)
      modifies `snapshots
      ensures ok == !fails
      ensures snapshots == if fails then old(snapshots) else old(snapshots) + [RowOfSnapshot(snap, sampledAt)]
      ensures old(Contents()).Recorded() ==> Contents().Recorded()
    {
      ok := !fails;
      if ok {
        snapshots := snapshots + [SnapshotRow(snap.pid, AsI64(snap.startTime), sampledAt, snap)];
      }
    }

    method RecordEvent(e: Event, fails: bool) returns (ok: bool)
      modifies `events
      ensures ok == !fails
      ensures events == if fails then old(events) else old(events) + [RowOfEvent(e)]
      ensures old(Contents()).Recorded() ==> Contents().Recorded()
    {
      ok := !fails;
      if ok {
        events := events + [EventRow(e.key.pid, AsI64(e.key.start), e.at, e)];
      }
    }

    /** Everything about a bare pid. */
    method SnapshotsFor(pid: Pid, since: int) returns (r: seq<Sample>)
      ensures exists rows :: r == SamplesOf(rows) &&
                TimeOrdered((x: SnapshotRow) => x.sampledAt, rows,
                            Filter((x: SnapshotRow) => x.pid == pid && x.sampledAt >= since, snapshots))
    {
      var rows := Select((x: SnapshotRow) => x.pid == pid && x.sampledAt >= since,
                         (x: SnapshotRow) => x.sampledAt, snapshots);
      r := Decode(rows);
    }

    /** Exactly one generation. */
    method SnapshotsForGeneration(k: Key, since: int) returns (r: seq<Sample>)
      ensures exists rows :: r == SamplesOf(rows) &&
                TimeOrdered((x: SnapshotRow) => x.sampledAt, rows,
                            Filter((x: SnapshotRow) => OfGeneration(x, k, since), snapshots))
    {
      var rows := Select((x: SnapshotRow) => OfGeneration(x, k, since),
                         (x: SnapshotRow) => x.sampledAt, snapshots);
      r := Decode(rows);
    }

    method EventsFor(pid: Pid, since: int) returns (r: seq<Event>)
      ensures exists rows :: r == EventsIn(rows) &&
                TimeOrdered((x: EventRow) => x.at, rows,
                            Filter((x: EventRow) => x.pid == pid && x.at >= since, events))
    {
      var rows := Select((x: EventRow) => x.pid == pid && x.at >= since, (x: EventRow) => x.at, events);
      r := DecodeEvents(rows);
    }

    method EventsForGeneration(k: Key, since: int) returns (r: seq<Event>)
      ensures exists rows :: r == EventsIn(rows) &&
                TimeOrdered((x: EventRow) => x.at, rows,
                            Filter((x: EventRow) => EventOfGeneration(x, k, since), events))
    {
      var rows := Select((x: EventRow) => EventOfGeneration(x, k, since), (x: EventRow) => x.at, events);
      r := DecodeEvents(rows);
    }

    /** Two DELETE statements, of which the first `deletes` succeed. */
    method PruneOlderThan(cutoff: int, deletes: nat) returns (removed: Option<nat>)
      modifies `snapshots, `events
      ensures Contents() == PrunedTables(old(Contents()), cutoff, deletes)
      ensures removed == if deletes < 2 then None
                         else Some(|old(snapshots)| - |snapshots| + |old(events)| - |events|)
    {
      var total := 0;
      if deletes < 1 { return None; }
      var kept := Filter((r: SnapshotRow) => r.sampledAt >= cutoff, snapshots);
      total := |snapshots| - |kept|;
      snapshots := kept;
      if deletes < 2 { return None; }
      var keptEvents := Filter((r: EventRow) => r.at >= cutoff, events);
      total := total + |events| - |keptEvents|;
      events := keptEvents;
      removed := Some(total);
    }
  }

  function PrunedTables(db: Tables, cutoff: int, deletes: nat): Tables {
    Tables(
      if deletes >= 1 then Filter((r: SnapshotRow) => r.sampledAt >= cutoff, db.snapshots) else db.snapshots,
      if deletes >= 2 then Filter((r: EventRow) => r.at >= cutoff, db.events) else db.events)
  }

  method Decode(rows: seq<SnapshotRow>) returns (r: seq<Sample>)
    ensures r == SamplesOf(rows)
  {
    r := [];
    for i := 0 to |rows|
      invariant r == SamplesOf(rows[..i])
    {
      r := r + [Sample(rows[i].sampledAt, rows[i].snap)];
    }
    assert rows[..|rows|] == rows;
  }

  method DecodeEvents(rows: seq<EventRow>) returns (r: seq<Event>)
    ensures r == EventsIn(rows)
  {
    r := [];
    for i := 0 to |rows|
      invariant r == EventsIn(rows[..i])
    {
      r := r + [rows[i].event];
    }
    assert rows[..|rows|] == rows;
  }
}
