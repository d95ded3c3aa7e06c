/** What the store's answers say about what was recorded, in terms of the snapshots and
    events themselves. */
module Queries {
  import opened Model
  import opened Seqs
  import opened Store

  // ---- Answers are permutations -------------------------------------------------------------

  lemma {:induction false} SamplesPermute(a: seq<SnapshotRow>, b: seq<SnapshotRow>)
    requires multiset(a) == multiset(b)
    ensures multiset(SamplesOf(a)) == multiset(SamplesOf(b))
  {
    assert |a| == |multiset(a)| == |multiset(b)| == |b|;
    if a != [] {
      var i := TakeOut(a, b);
      var rest := b[..i] + b[i + 1..];
      SamplesPermute(Front(a), rest);
      assert SamplesOf(a) == SamplesOf(Front(a)) + [SampleOf(Last(a))];
      assert SamplesOf(b) == SamplesOf(b[..i]) + [SampleOf(b[i])] + SamplesOf(b[i + 1..]);
      assert SamplesOf(rest) == SamplesOf(b[..i]) + SamplesOf(b[i + 1..]);
    }
  }

  lemma {:induction false} EventsPermute(a: seq<EventRow>, b: seq<EventRow>)
    requires multiset(a) == multiset(b)
    ensures multiset(EventsIn(a)) == multiset(EventsIn(b))
  {
    assert |a| == |multiset(a)| == |multiset(b)| == |b|;
    if a != [] {
      var i := TakeOut(a, b);
      var rest := b[..i] + b[i + 1..];
      EventsPermute(Front(a), rest);
      assert EventsIn(a) == EventsIn(Front(a)) + [Last(a).event];
      assert EventsIn(b) == EventsIn(b[..i]) + [b[i].event] + EventsIn(b[i + 1..]);
      assert EventsIn(rest) == EventsIn(b[..i]) + EventsIn(b[i + 1..]);
    }
  }

  lemma SamplesNext(rows: seq<SnapshotRow>, row: SnapshotRow)
    ensures SamplesOf(rows + [row]) == SamplesOf(rows) + [SampleOf(row)]
  {
  }

  // ---- A generation's answer is the generation's -----------------------------------------------

  /** For tables written by `record_*`, the columns a generation query compares single
      out the rows of that generation. */
  lemma GenerationColumns(db: Tables, k: Key, since: int)
    requires db.Recorded()
    ensures forall r :: r in db.snapshots ==>
              (OfGeneration(r, k, since) <==>
               r.snap.pid == k.pid && r.snap.startTime == k.start && r.sampledAt >= since)
    ensures forall r :: r in db.events ==>
              (EventOfGeneration(r, k, since) <==> r.event.key == k && r.event.at >= since)
  {
    forall r | r in db.snapshots
      ensures OfGeneration(r, k, since) <==>
              r.snap.pid == k.pid && r.snap.startTime == k.start && r.sampledAt >= since
    {
      AsI64Injective(r.snap.startTime, k.start);
    }
    forall r | r in db.events ensures EventOfGeneration(r, k, since) <==> r.event.key == k && r.event.at >= since {
      AsI64Injective(r.event.key.start, k.start);
    }
  }

  lemma {:induction false} FilterDecodedEvents(rows: seq<EventRow>, k: Key, since: int)
    requires forall r :: r in rows ==>
               (EventOfGeneration(r, k, since) <==> r.event.key == k && r.event.at >= since)
    ensures EventsIn(Filter((r: EventRow) => EventOfGeneration(r, k, since), rows)) ==
            Filter((e: Event) => e.key == k && e.at >= since, EventsIn(rows))
  {
    if rows != [] {
      assert Last(rows) in rows;
      FilterDecodedEvents(Front(rows), k, since);
      assert Front(EventsIn(rows)) == EventsIn(Front(rows));
    }
  }

  lemma {:induction false} FilterDecodedSamples(rows: seq<SnapshotRow>, k: Key, since: int)
    requires forall r :: r in rows ==>
               (OfGeneration(r, k, since) <==>
                r.snap.pid == k.pid && r.snap.startTime == k.start && r.sampledAt >= since)
    ensures SamplesOf(Filter((r: SnapshotRow) => OfGeneration(r, k, since), rows)) ==
            Filter((x: Sample) => x.snap.pid == k.pid && x.snap.startTime == k.start && x.at >= since, SamplesOf(rows))
  {
    hide SamplesOf, OfGeneration;
    if rows != [] {
      var f := Front(rows);
      assert Last(rows) in rows && forall r :: r in f ==> r in rows;
      FilterDecodedSamples(f, k, since);
      SamplesNext(f, Last(rows));
      assert rows == f + [Last(rows)];
      assert Front(SamplesOf(f) + [SampleOf(Last(rows))]) == SamplesOf(f);
      SamplesNext(Filter((r: SnapshotRow) => OfGeneration(r, k, since), f), Last(rows));
    } else {
      NoSamples();
    }
  }

  lemma NoSamples()
    ensures SamplesOf([]) == []
  {
  }

  /** The event answer of a generation is exactly the recorded events with its key, each
      as often as it was recorded, in time order. */
  lemma EventAnswerIsGenerations(db: Tables, k: Key, since: int, rows: seq<EventRow>)
    requires db.Recorded()
    requires TimeOrdered((x: EventRow) => x.at, rows,
                         Filter((x: EventRow) => EventOfGeneration(x, k, since), db.events))
    ensures multiset(EventsIn(rows)) ==
            multiset(Filter((e: Event) => e.key == k && e.at >= since, EventsIn(db.events)))
    ensures forall i, j :: 0 <= i < j < |rows| ==> EventsIn(rows)[i].at <= EventsIn(rows)[j].at
  {
    hide EventOfGeneration;
    GenerationColumns(db, k, since);
    var found := Filter((x: EventRow) => EventOfGeneration(x, k, since), db.events);
    EventsPermute(rows, found);
    FilterDecodedEvents(db.events, k, since);
    forall i | 0 <= i < |rows| ensures rows[i].at == rows[i].event.at {
      assert rows[i] in multiset(found);
      assert rows[i] in found;
    }
  }

  /** The snapshot answer likewise. */
  lemma SnapshotAnswerIsGenerations(db: Tables, k: Key, since: int, rows: seq<SnapshotRow>)
    requires db.Recorded()
    requires TimeOrdered((x: SnapshotRow) => x.sampledAt, rows,
                         Filter((x: SnapshotRow) => OfGeneration(x, k, since), db.snapshots))
    ensures multiset(SamplesOf(rows)) ==
            multiset(Filter((x: Sample) => x.snap.pid == k.pid && x.snap.startTime == k.start && x.at >= since,
                            SamplesOf(db.snapshots)))
    ensures forall i, j :: 0 <= i < j < |rows| ==> SamplesOf(rows)[i].at <= SamplesOf(rows)[j].at
  {
    hide OfGeneration;
    GenerationColumns(db, k, since);
    SamplesPermute(rows, Filter((x: SnapshotRow) => OfGeneration(x, k, since), db.snapshots));
    FilterDecodedSamples(db.snapshots, k, since);
  }

  /** What a successful write adds to what the tables hold. */
  lemma RecordedIsHeld(db: Tables, snap: Snapshot, at: int, e: Event)
    ensures SamplesOf(db.snapshots + [RowOfSnapshot(snap, at)]) == SamplesOf(db.snapshots) + [Sample(at, snap)]
    ensures EventsIn(db.events + [RowOfEvent(e)]) == EventsIn(db.events) + [e]
  {
  }

  // ---- Pruning --------------------------------------------------------------------------------

  /** Pruning removes every copy of exactly the rows stamped before the cutoff, first from
      the snapshots, then from the events, as far as the statements succeed. */
  lemma PruneRemovesOld(db: Tables, cutoff: int, deletes: nat, r: SnapshotRow, e: EventRow)
    ensures var after := PrunedTables(db, cutoff, deletes);
            && multiset(after.snapshots)[r] ==
               (if deletes >= 1 && r.sampledAt < cutoff then 0 else multiset(db.snapshots)[r])
            && multiset(after.events)[e] ==
               if deletes >= 2 && e.at < cutoff then 0 else multiset(db.events)[e]
  {
    FilterCount((x: SnapshotRow) => x.sampledAt >= cutoff, db.snapshots, r);
    FilterCount((x: EventRow) => x.at >= cutoff, db.events, e);
  }

  /** The column holds the same 64 bits as the start time. */
  lemma ColumnKeepsBits(x: U64)
    ensures (AsI64(x) - x) % 0x1_0000_0000_0000_0000 == 0
    ensures x < 0x8000_0000_0000_0000 ==> AsI64(x) == x
  {
  }
}
