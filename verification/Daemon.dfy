/** `sherd`: refresh, persist, prune, repeat. The pure `TurnAfter` describes one
    iteration of the loop, `RunTurn` performs it on the live objects. */
module Daemon {
  import opened Model
  import opened Seqs
  import opened Tick
  import opened Runs
  import opened Intelligence
  import opened Store
  import opened Forest

  const PRUNE_EVERY_SECS: nat := 3600

  // ---- Retention arithmetic ----------------------------------------------------------------

  function SaturatingMul(a: U64, b: U64): U64 {
    if a * b < 0x1_0000_0000_0000_0000 then a * b else 0xFFFF_FFFF_FFFF_FFFF
  }

  function RetentionSecs(days: U64): (r: I64)
    ensures 86_400 <= r
    ensures r == 86_400 * days || days == 0 || 86_400 * days > 0x7FFF_FFFF_FFFF_FFFF
    ensures days == 0 ==> r == 86_400
    ensures 86_400 * days > 0x7FFF_FFFF_FFFF_FFFF ==> r == 0x7FFF_FFFF_FFFF_FFFF
  {
    var secs := SaturatingMul(if days < 1 then 1 else days, 86_400);
    if secs < 0x7FFF_FFFF_FFFF_FFFF then secs else 0x7FFF_FFFF_FFFF_FFFF
  }

  /** Computing the prune cutoff stays within an i64 for every --retention-days exactly
      when the clock is not more than a second before the epoch. */
  lemma CutoffFits(now: I64)
    ensures (forall days: U64 :: -0x8000_0000_0000_0000 <= now - RetentionSecs(days) < 0x8000_0000_0000_0000)
            <==> now >= -1
  {
    if now < -1 {
      assert RetentionSecs(0xFFFF_FFFF_FFFF_FFFF) == 0x7FFF_FFFF_FFFF_FFFF;
    }
  }

  // ---- Sleeping -------------------------------------------------------------------------------

  const SLEEP_STEP_MILLIS: nat := 200

  /** Sleeps in short steps; `shutdownAt` is when the flag is raised, in milliseconds
      from the start of the sleep. A stop is noticed within one step. */
  method SleepInterruptible(total: nat, shutdownAt: nat) returns (slept: nat)
    ensures slept <= total
    ensures slept < total ==> shutdownAt <= slept < shutdownAt + 200
    ensures slept == total ==> total < shutdownAt + 200
  {
    slept := 0;
    var remaining := total;
    while remaining > 0 && slept < shutdownAt
      invariant slept + remaining == total && remaining >= 0
      invariant slept > 0 ==> slept < shutdownAt + SLEEP_STEP_MILLIS
    {
      var step := if SLEEP_STEP_MILLIS < remaining then SLEEP_STEP_MILLIS else remaining;
      slept := slept + step;
      remaining := remaining - step;
    }
  }

  // ---- One iteration -------------------------------------------------------------------------

  /** What the outside decides in one iteration: the time, the adapter's answers, the
      map iteration orders, how many INSERTs succeed before one fails, and how many of
      the two DELETEs succeed if the iteration prunes. */
  datatype Turn = Turn(now: int, ans: Answer, ord: Orders, order: seq<Pid>, writes: nat, deletes: nat)

  datatype Sherd = Sherd(run: Run, db: Tables, lastPrune: int)

  /** A snapshot read for a pid carries that pid. */
  predicate Carried(ans: Answer) {
    ans.Listed? ==> forall p :: p in ans.procs ==> ans.procs[p].pid == p
  }

  function RefreshOf(t: Turn): Refresh { Refresh(t.now, t.ans, t.ord) }

  function RecentEvents(run: Run, since: int): seq<Event> {
    Filter((e: Event) => e.at >= since, StateAfter(run).timeline)
  }

  predicate Listing(order: seq<Pid>, current: map<Pid, Snapshot>) {
    Enumerates(order, current.Keys)
  }

  function SnapshotRows(current: map<Pid, Snapshot>, order: seq<Pid>, now: int): seq<SnapshotRow>
    requires forall p :: p in order ==> p in current
  {
    seq(|order|, i requires 0 <= i < |order| => RowOfSnapshot(current[order[i]], now))
  }

  function EventRows(events: seq<Event>): seq<EventRow> {
    seq(|events|, i requires 0 <= i < |events| => RowOfEvent(events[i]))
  }

  /** The snapshots, then the events, stopping at the first INSERT that fails. */
  function Persisted(db: Tables, snapshots: seq<SnapshotRow>, events: seq<EventRow>, writes: nat): Tables {
    Tables(db.snapshots + Take(writes, snapshots), db.events + Take(writes - |snapshots|, events))
  }

  predicate Fits(d: Sherd, t: Turn) {
    && t.ans.Distinct() && Carried(t.ans)
    && OrdersFit(StateAfter(d.run), t.now, t.ans, t.ord)
    && (t.ans.Listed? ==> Listing(t.order, StateAfter(d.run + [RefreshOf(t)]).current))
  }

  function PersistedBy(d: Sherd, t: Turn): Tables
    requires Fits(d, t)
  {
    var run := d.run + [RefreshOf(t)];
    if t.ans.ListFailed? then d.db
    else
      assert forall p :: p in t.order ==> p in Elements(t.order);
      Persisted(d.db, SnapshotRows(StateAfter(run).current, t.order, t.now),
                EventRows(RecentEvents(run, t.now)), t.writes)
  }

  predicate Prunes(d: Sherd, t: Turn) { t.now - d.lastPrune >= PRUNE_EVERY_SECS }

  function TurnAfter(d: Sherd, t: Turn, retention: int): Sherd
    requires Fits(d, t)
  {
    var db := PersistedBy(d, t);
    Sherd(d.run + [RefreshOf(t)],
          if Prunes(d, t) then PrunedTables(db, t.now - retention, t.deletes) else db,
          if Prunes(d, t) then t.now else d.lastPrune)
  }

  predicate AllFit(start: Sherd, turns: seq<Turn>, retention: int)
    decreases |turns|, 0
  {
    turns == []
    || (AllFit(start, Front(turns), retention) && Fits(After(start, Front(turns), retention), Last(turns)))
  }

  /** The daemon after any number of iterations. */
  function After(start: Sherd, turns: seq<Turn>, retention: int): Sherd
    requires AllFit(start, turns, retention)
    decreases |turns|, 1
  {
    if turns == [] then start
    else TurnAfter(After(start, Front(turns), retention), Last(turns), retention)
  }

  lemma NextTurn(start: Sherd, turns: seq<Turn>, retention: int, t: Turn)
    requires AllFit(start, turns, retention) && Fits(After(start, turns, retention), t)
    ensures Front(turns + [t]) == turns && AllFit(start, turns + [t], retention)
    ensures After(start, turns + [t], retention) == TurnAfter(After(start, turns, retention), t, retention)
  {
    hide Fits, TurnAfter;
    assert Front(turns + [t]) == turns;
  }

  // ---- The loop on the live objects --------------------------------------------------------------

  /** Inserts the rows one by one until the first failure. */
  method PersistSnapshots(nodes: Nodes, pids: seq<Pid>, store: HistoryStore, now: int, writes: nat) returns (ok: bool)
    requires forall p :: p in pids ==> p in nodes
    modifies store
    ensures store.events == old(store.events)
    ensures store.snapshots == old(store.snapshots) + Take(writes, SnapshotRows(nodes, pids, now))
    ensures ok <==> writes >= |pids|
  {
    ghost var rows := SnapshotRows(nodes, pids, now);
    for i := 0 to |pids|
      invariant i <= writes
      invariant store.snapshots == old(store.snapshots) + rows[..i] && store.events == old(store.events)
    {
      ok := store.RecordSnapshot(nodes[pids[i]], now, i == writes);
      if !ok {
        return;
      }
    }
    ok := true;
    assert rows[..|pids|] == rows;
  }

  method PersistEvents(events: seq<Event>, store: HistoryStore, writes: nat) returns (ok: bool)
    modifies store
    ensures store.snapshots == old(store.snapshots)
    ensures store.events == old(store.events) + Take(writes, EventRows(events))
    ensures ok <==> writes >= |events|
  {
    ghost var rows := EventRows(events);
    for i := 0 to |events|
      invariant i <= writes
      invariant store.snapshots == old(store.snapshots) && store.events == old(store.events) + rows[..i]
    {
      ok := store.RecordEvent(events[i], i == writes);
      if !ok {
        return;
      }
    }
    ok := true;
    assert rows[..|events|] == rows;
  }

  /** `persist_tick`: false once an INSERT failed, the rest is skipped. */
  method PersistTick(intel: ProcessIntelligence, store: HistoryStore, now: int, writes: nat)
    returns (ok: bool, ghost order: seq<Pid>)
    requires forall p :: p in intel.current ==> intel.current[p].pid == p
    modifies store
    ensures Listing(order, intel.current) && forall p :: p in order ==> p in intel.current
    ensures store.Contents() ==
            Persisted(old(store.Contents()), SnapshotRows(intel.current, order, now),
                      EventRows(Filter((e: Event) => e.at >= now, intel.timeline)), writes)
    ensures ok <==> writes >= |order| + |Filter((e: Event) => e.at >= now, intel.timeline)|
  {
    var tree := intel.Tree();
    var pids := Iterate(tree.nodes.Keys);
    order := pids;
    forall p | p in pids ensures p in intel.current { assert p in Elements(pids); }
    ok := PersistSnapshots(tree.nodes, pids, store, now, writes);
    if ok {
      var events := intel.RecentTimelineEvents(now);
      ok := PersistEvents(events, store, writes - |pids|);
    }
  }

  /** Every snapshot a listing carries ends up under its own pid. */
  lemma CurrentCarries(d: Sherd, t: Turn)
    requires Fits(d, t)
    requires forall p :: p in StateAfter(d.run).current ==> StateAfter(d.run).current[p].pid == p
    ensures var s := StateAfter(d.run + [RefreshOf(t)]);
            forall p :: p in s.current ==> s.current[p].pid == p
  {
    Snoc(d.run, RefreshOf(t));
  }

  lemma Snoc(run: Run, r: Refresh)
    ensures Front(run + [r]) == run && Last(run + [r]) == r
    ensures StateAfter(run + [r]) == Step(StateAfter(run), r.now, r.ans, r.ord)
    ensures Log(run + [r]) == Log(run) + LastEmitted(run + [r])
    ensures LastEmitted(run + [r]) == Emitted(StateAfter(run), r.now, r.ans, r.ord)
    ensures Possible(run + [r]) <==>
            Possible(run) && r.ans.Distinct() && OrdersFit(StateAfter(run), r.now, r.ans, r.ord)
  {
    assert Front(run + [r]) == run;
  }

  /** What the environment supplies to one iteration. */
  datatype Input = Input(now: int, ans: Answer, writes: nat, deletes: nat)

  function InputOf(t: Turn): Input { Input(t.now, t.ans, t.writes, t.deletes) }

  ghost predicate InSync(d: Sherd, intel: ProcessIntelligence, store: HistoryStore, lastPrune: int)
    reads intel, store
  {
    && intel.Valid() && d.run == intel.run
    && (forall p :: p in intel.current ==> intel.current[p].pid == p)
    && d.db == store.Contents() && d.lastPrune == lastPrune
  }

  /** One iteration of the loop: refresh, persist unless the refresh failed, prune if
      an hour has passed since the last attempt, successful or not. */
  method RunTurn(intel: ProcessIntelligence, store: HistoryStore, lastPrune: int, retention: int,
                 input: Input, ghost d: Sherd)
    returns (newLastPrune: int, ghost t: Turn)
    requires InSync(d, intel, store, lastPrune)
    requires input.ans.Distinct() && Carried(input.ans)
    modifies intel, store
    ensures InputOf(t) == input
    ensures Fits(d, t) && InSync(TurnAfter(d, t, retention), intel, store, newLastPrune)
  {
    hide Step, OrdersFit, SnapshotRows, EventRows, PrunedTables, StateAfter;
    var now := input.now;
    var refreshed, ord := intel.RefreshAt(now, input.ans);
    t := Turn(now, input.ans, ord, [], input.writes, input.deletes);
    Snoc(d.run, RefreshOf(t));
    forall p | p in intel.current ensures intel.current[p].pid == p {
      CarriedStep(StateAfter(d.run), now, input.ans, ord);
    }
    if refreshed {
      var persisted, order := PersistTick(intel, store, now, input.writes);
      t := t.(order := order);
    }
    assert Fits(d, t);
    assert store.Contents() == PersistedBy(d, t);
    newLastPrune := lastPrune;
    if now - lastPrune >= PRUNE_EVERY_SECS {
      var removed := store.PruneOlderThan(now - retention, input.deletes);
      newLastPrune := now;
    }
  }

  lemma CarriedStep(s: State, now: int, ans: Answer, ord: Orders)
    requires Carried(ans) && forall p :: p in s.current ==> s.current[p].pid == p
    ensures forall p :: p in Step(s, now, ans, ord).current ==> Step(s, now, ans, ord).current[p].pid == p
  {
  }

  /** The daemon's main loop, one iteration per input until shutdown. */
  method Serve(intel: ProcessIntelligence, store: HistoryStore, startedAt: int, retentionDays: U64, inputs: seq<Input>)
    returns (lastPrune: int, ghost turns: seq<Turn>)
    requires InSync(Sherd(intel.run, store.Contents(), startedAt), intel, store, startedAt)
    requires forall i :: 0 <= i < |inputs| ==> inputs[i].ans.Distinct() && Carried(inputs[i].ans)
    modifies intel, store
    ensures |turns| == |inputs| && forall i :: 0 <= i < |inputs| ==> InputOf(turns[i]) == inputs[i]
    ensures var start := Sherd(old(intel.run), old(store.Contents()), startedAt);
            && AllFit(start, turns, RetentionSecs(retentionDays))
            && InSync(After(start, turns, RetentionSecs(retentionDays)), intel, store, lastPrune)
  {
    hide InSync, Fits, TurnAfter;
    var retention := RetentionSecs(retentionDays);
    lastPrune := startedAt;
    ghost var start := Sherd(intel.run, store.Contents(), startedAt);
    turns := [];
    for i := 0 to |inputs|
      invariant |turns| == i && forall j :: 0 <= j < i ==> InputOf(turns[j]) == inputs[j]
      invariant AllFit(start, turns, retention)
      invariant InSync(After(start, turns, retention), intel, store, lastPrune)
    {
      ghost var t;
      ghost var d := After(start, turns, retention);
      lastPrune, t := RunTurn(intel, store, lastPrune, retention, inputs[i], d);
      assert Front(turns + [t]) == turns;
      turns := turns + [t];
    }
  }
}
