/** `sher history`'s grouping of a bare-pid query by process generation. */
module Render {
  import opened Model
  import opened Seqs
  import opened Store
  import opened Queries

  datatype Group = Group(snapshots: seq<Sample>, events: seq<Event>)

  function GroupSnapshots(start: U64, snapshots: seq<Sample>): seq<Sample> {
    Filter((s: Sample) => s.snap.startTime == start, snapshots)
  }

  function GroupEvents(start: U64, events: seq<Event>): seq<Event> {
    Filter((e: Event) => e.key.start == start, events)
  }

  function StartsOf(snapshots: seq<Sample>, events: seq<Event>): set<U64> {
    (set s | s in snapshots :: s.snap.startTime) + (set e | e in events :: e.key.start)
  }

  function GroupOf(groups: map<U64, Group>, start: U64): Group {
    if start in groups then groups[start] else Group([], [])
  }

  /** One group per start time present, holding exactly its rows in answer order. */
  ghost predicate Grouped(groups: map<U64, Group>, snapshots: seq<Sample>, events: seq<Event>) {
    && groups.Keys == StartsOf(snapshots, events)
    && forall start :: GroupOf(groups, start) == Group(GroupSnapshots(start, snapshots), GroupEvents(start, events))
  }

  lemma AddSnapshot(groups: map<U64, Group>, snapshots: seq<Sample>, events: seq<Event>, s: Sample)
    requires Grouped(groups, snapshots, events)
    ensures var g := GroupOf(groups, s.snap.startTime);
            Grouped(groups[s.snap.startTime := Group(g.snapshots + [s], g.events)], snapshots + [s], events)
  {
    assert Front(snapshots + [s]) == snapshots;
    assert StartsOf(snapshots + [s], events) == StartsOf(snapshots, events) + {s.snap.startTime};
  }

  lemma AddEvent(groups: map<U64, Group>, snapshots: seq<Sample>, events: seq<Event>, e: Event)
    requires Grouped(groups, snapshots, events)
    ensures var g := GroupOf(groups, e.key.start);
            Grouped(groups[e.key.start := Group(g.snapshots, g.events + [e])], snapshots, events + [e])
  {
    assert Front(events + [e]) == events;
    assert StartsOf(snapshots, events + [e]) == StartsOf(snapshots, events) + {e.key.start};
  }

  method GroupByGeneration(snapshots: seq<Sample>, events: seq<Event>) returns (groups: map<U64, Group>)
    ensures Grouped(groups, snapshots, events)
  {
    groups := map[];
    NoGroups();
    hide Grouped;
    for i := 0 to |snapshots|
      invariant Grouped(groups, snapshots[..i], [])
    {
      var s := snapshots[i];
      AddSnapshot(groups, snapshots[..i], [], s);
      assert snapshots[..i + 1] == snapshots[..i] + [s];
      var g := GroupOf(groups, s.snap.startTime);
      groups := groups[s.snap.startTime := Group(g.snapshots + [s], g.events)];
    }
    assert snapshots[..|snapshots|] == snapshots;
    for i := 0 to |events|
      invariant Grouped(groups, snapshots, events[..i])
    {
      var e := events[i];
      AddEvent(groups, snapshots, events[..i], e);
      assert events[..i + 1] == events[..i] + [e];
      var g := GroupOf(groups, e.key.start);
      groups := groups[e.key.start := Group(g.snapshots, g.events + [e])];
    }
    assert events[..|events|] == events;
  }

  lemma NoGroups()
    ensures Grouped(map[], [], [])
  {
  }

  // ---- Nothing lost, nothing duplicated -------------------------------------------------

  /** The groups of xs by start time, one after the other. */
  function Regrouped<T(!new)>(starts: seq<U64>, startOf: T -> U64, xs: seq<T>): seq<T> {
    if starts == [] then []
    else Regrouped(Front(starts), startOf, xs) + Filter((x: T) => startOf(x) == Last(starts), xs)
  }

  lemma {:induction false} RegroupedCount<T(!new)>(starts: seq<U64>, startOf: T -> U64, xs: seq<T>, x: T)
    requires NoDup(starts)
    ensures multiset(Regrouped(starts, startOf, xs))[x] == if startOf(x) in starts then multiset(xs)[x] else 0
  {
    if starts != [] {
      RegroupedCount(Front(starts), startOf, xs, x);
      FilterCount((y: T) => startOf(y) == Last(starts), xs, x);
      assert starts == Front(starts) + [Last(starts)];
    }
  }

  lemma RegroupedPermutes<T(!new)>(starts: seq<U64>, startOf: T -> U64, xs: seq<T>)
    requires NoDup(starts) && forall x :: x in xs ==> startOf(x) in starts
    ensures multiset(Regrouped(starts, startOf, xs)) == multiset(xs)
  {
    forall x ensures multiset(Regrouped(starts, startOf, xs))[x] == multiset(xs)[x] {
      RegroupedCount(starts, startOf, xs, x);
    }
  }

  /** Printing the groups one after the other, in any order of generations, prints
      every row of the two queries exactly as often as the query returned it. */
  lemma GroupsPartitionRows(starts: seq<U64>, snapshots: seq<Sample>, events: seq<Event>)
    requires Enumerates(starts, StartsOf(snapshots, events))
    ensures multiset(Regrouped(starts, (s: Sample) => s.snap.startTime, snapshots)) == multiset(snapshots)
    ensures multiset(Regrouped(starts, (e: Event) => e.key.start, events)) == multiset(events)
  {
    forall x | x in snapshots ensures x.snap.startTime in starts {
      assert x.snap.startTime in Elements(starts);
    }
    forall e | e in events ensures e.key.start in starts {
      assert e.key.start in Elements(starts);
    }
    RegroupedPermutes(starts, (s: Sample) => s.snap.startTime, snapshots);
    RegroupedPermutes(starts, (e: Event) => e.key.start, events);
  }

  /** Rows come out of each group in time order. */
  lemma GroupsKeepTimeOrder(start: U64, snapshots: seq<Sample>, events: seq<Event>)
    requires forall i, j :: 0 <= i < j < |snapshots| ==> snapshots[i].at <= snapshots[j].at
    requires forall i, j :: 0 <= i < j < |events| ==> events[i].at <= events[j].at
    ensures var g := GroupSnapshots(start, snapshots);
            forall i, j :: 0 <= i < j < |g| ==> g[i].at <= g[j].at
    ensures var g := GroupEvents(start, events);
            forall i, j :: 0 <= i < j < |g| ==> g[i].at <= g[j].at
  {
    var g, h := GroupSnapshots(start, snapshots), GroupEvents(start, events);
    forall i, j | 0 <= i < j < |g| ensures g[i].at <= g[j].at {
      var k, l := FilterPositions((s: Sample) => s.snap.startTime == start, snapshots, i, j);
    }
    forall i, j | 0 <= i < j < |h| ensures h[i].at <= h[j].at {
      var k, l := FilterPositions((e: Event) => e.key.start == start, events, i, j);
    }
  }

  // ---- Agreement with the generation-scoped query -----------------------------------------

  lemma {:induction false} FilterSamples(start: U64, rows: seq<SnapshotRow>)
    ensures GroupSnapshots(start, SamplesOf(rows)) ==
            SamplesOf(Filter((r: SnapshotRow) => r.snap.startTime == start, rows))
  {
    if rows != [] {
      FilterSamples(start, Front(rows));
      assert Front(SamplesOf(rows)) == SamplesOf(Front(rows));
      SamplesNext(Filter((r: SnapshotRow) => r.snap.startTime == start, Front(rows)), Last(rows));
    }
  }

  lemma {:induction false} FilterEvents(start: U64, rows: seq<EventRow>)
    ensures GroupEvents(start, EventsIn(rows)) == EventsIn(Filter((r: EventRow) => r.event.key.start == start, rows))
  {
    if rows != [] {
      FilterEvents(start, Front(rows));
      assert Front(EventsIn(rows)) == EventsIn(Front(rows));
    }
  }

  /** For tables written by `record_*`: the snapshots of one group of the bare-pid
      answer are those of the generation-scoped answer, neither more nor fewer. */
  lemma GroupIsGenerationQuery(db: Tables, k: Key, since: int, bare: seq<SnapshotRow>, scoped: seq<SnapshotRow>)
    requires db.Recorded()
    requires TimeOrdered((x: SnapshotRow) => x.sampledAt, bare,
                         Filter((x: SnapshotRow) => x.pid == k.pid && x.sampledAt >= since, db.snapshots))
    requires TimeOrdered((x: SnapshotRow) => x.sampledAt, scoped,
                         Filter((x: SnapshotRow) => OfGeneration(x, k, since), db.snapshots))
    ensures multiset(GroupSnapshots(k.start, SamplesOf(bare))) == multiset(SamplesOf(scoped))
  {
    var ofPid := (x: SnapshotRow) => x.pid == k.pid && x.sampledAt >= since;
    var ofGen := (x: SnapshotRow) => OfGeneration(x, k, since);
    var ofStart := (x: SnapshotRow) => x.snap.startTime == k.start;
    forall x ensures multiset(Filter(ofStart, bare))[x] == multiset(scoped)[x] {
      FilterCount(ofStart, bare, x);
      FilterCount(ofPid, db.snapshots, x);
      FilterCount(ofGen, db.snapshots, x);
      if x in db.snapshots {
        AsI64Injective(x.snap.startTime, k.start);
      }
    }
    SamplesPermute(Filter(ofStart, bare), scoped);
    FilterSamples(k.start, bare);
  }

  /** The same for events. */
  lemma GroupIsGenerationEvents(db: Tables, k: Key, since: int, bare: seq<EventRow>, scoped: seq<EventRow>)
    requires db.Recorded()
    requires TimeOrdered((x: EventRow) => x.at, bare,
                         Filter((x: EventRow) => x.pid == k.pid && x.at >= since, db.events))
    requires TimeOrdered((x: EventRow) => x.at, scoped,
                         Filter((x: EventRow) => EventOfGeneration(x, k, since), db.events))
    ensures multiset(GroupEvents(k.start, EventsIn(bare))) == multiset(EventsIn(scoped))
  {
    var ofPid := (x: EventRow) => x.pid == k.pid && x.at >= since;
    var ofGen := (x: EventRow) => EventOfGeneration(x, k, since);
    var ofStart := (x: EventRow) => x.event.key.start == k.start;
    forall x ensures multiset(Filter(ofStart, bare))[x] == multiset(scoped)[x] {
      FilterCount(ofStart, bare, x);
      FilterCount(ofPid, db.events, x);
      FilterCount(ofGen, db.events, x);
      if x in db.events {
        AsI64Injective(x.event.key.start, k.start);
      }
    }
    EventsPermute(Filter(ofStart, bare), scoped);
    FilterEvents(k.start, bare);
  }
}
