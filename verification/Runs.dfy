/** Whole runs: any finite sequence of refreshes from a fresh start. The
    reference `Samples` reads a generation's readings straight off the adapter's
    answers; the theorems say the tracked state agrees with it. */
module Runs {
  import opened Model
  import opened Seqs
  import opened Tick

  datatype Refresh = Refresh(now: int, ans: Answer, ord: Orders)

  type Run = seq<Refresh>

  function StateAfter(run: Run): State {
    if run == [] then EMPTY_STATE
    else var t := Last(run); Step(StateAfter(Front(run)), t.now, t.ans, t.ord)
  }

  /** The unbounded log of every event any refresh of the run emitted. */
  function Log(run: Run): seq<Event> {
    if run == [] then [] else Log(Front(run)) + LastEmitted(run)
  }

  function LastEmitted(run: Run): seq<Event>
    requires run != []
  {
    var t := Last(run);
    Emitted(StateAfter(Front(run)), t.now, t.ans, t.ord)
  }

  /** Listings name no pid twice and the recorded iteration orders are orders of
      the sets actually iterated. */
  predicate Possible(run: Run) {
    run == []
    || (Possible(Front(run)) && Last(run).ans.Distinct()
        && OrdersFit(StateAfter(Front(run)), Last(run).now, Last(run).ans, Last(run).ord))
  }

  /** No refresh is stamped more than `back` seconds before an earlier one. */
  predicate StepsBack(run: Run, back: nat) {
    forall i, j :: 0 <= i < j < |run| ==> run[i].now <= run[j].now + back
  }

  /** Reference: the readings of k in the successful refreshes since k was last
      absent from one. No deque, no pruning, no keys: only the answers. */
  function Samples(run: Run, k: Key): seq<Sample> {
    if run == [] then []
    else
      var t := Last(run);
      var before := Samples(Front(run), k);
      if t.ans.ListFailed? then before
      else if !t.ans.Reports(k) then []
      else before + [Sample(t.now, Rated(before, t.now, t.ans.procs[k.pid]))]
  }

  /** What is still kept about k: its current streak, or for the one refresh
      after it ended, the streak that just ended. */
  function Tracked(run: Run, k: Key): seq<Sample> {
    if Samples(run, k) != [] || run == [] || Last(run).ans.ListFailed? then Samples(run, k)
    else Samples(Front(run), k)
  }

  /** k was live just before the last refresh of the run and not after it. */
  predicate JustEnded(run: Run, k: Key) {
    run != [] && Last(run).ans.Listed? && Samples(run, k) == [] && Samples(Front(run), k) != []
  }

  /** The same key in the tracked state and in the reference. */
  ghost predicate Agrees(run: Run, k: Key) {
    var s := StateAfter(run);
    && (Live(s.current, k) <==> Samples(run, k) != [])
    && (Live(s.current, k) ==> s.current[k.pid] == Last(Samples(run, k)).snap)
    && (k in s.stale <==> JustEnded(run, k))
    && (k in s.history <==> Tracked(run, k) != [])
    && (k in s.history ==> s.history[k] == LastN(HISTORY_CAPACITY, Tracked(run, k)))
    && (k in s.seen ==> k in s.history)
  }

  lemma PrunedAgrees(run: Run, k: Key)
    requires Agrees(run, k)
    ensures HistoryOf(Pruned(StateAfter(run)), k) == LastN(HISTORY_CAPACITY, Samples(run, k))
    ensures k in Pruned(StateAfter(run)).history <==> Live(StateAfter(run).current, k)
    ensures k in Pruned(StateAfter(run)).seen ==> Live(StateAfter(run).current, k)
  {
    var s := StateAfter(run);
    assert k in Elements(s.stale) <==> k in s.stale;
  }

  lemma RatedByTail(n: nat, before: seq<Sample>, now: int, snap: Snapshot)
    requires n > 0
    ensures Rated(LastN(n, before), now, snap) == Rated(before, now, snap)
  {
  }

  lemma StepAgrees(run: Run, k: Key)
    requires run != [] && Last(run).ans.Listed? && Possible(run)
    requires Agrees(Front(run), k)
    ensures Agrees(run, k)
  {
    var f, t := Front(run), Last(run);
    var s, p, s' := StateAfter(f), Pruned(StateAfter(f)), StateAfter(run);
    PrunedAgrees(f, k);
    CurrentAtEnd(p, t.now, t.ans, k);
    assert k in Elements(s'.stale) <==> k in s'.stale;
    assert k in s'.stale <==> JustEnded(run, k);
    if t.ans.Reports(k) {
      RatedByTail(HISTORY_CAPACITY, Samples(f, k), t.now, t.ans.procs[k.pid]);
      var x := Sample(t.now, s'.current[k.pid]);
      assert Samples(run, k) == Samples(f, k) + [x];
      LastNAppend(HISTORY_CAPACITY, Samples(f, k), [x]);
    }
  }

  /** For every run: the live generations, `current`, the stale keys and every
      retained history are exactly what the adapter's answers dictate, and
      nothing else is kept. */
  lemma {:induction false} StateMatchesAnswers(run: Run, k: Key)
    requires Possible(run)
    ensures Agrees(run, k)
  {
    if run != [] {
      StateMatchesAnswers(Front(run), k);
      if Last(run).ans.Listed? {
        StepAgrees(run, k);
      } else {
        PrunedAgrees(Front(run), k);
      }
    }
  }

  /** Looking an exited pid's history up by bare pid is unambiguous: at most one
      of its generations is still tracked. */
  lemma ExitedHistoryUnique(run: Run, a: Key, b: Key)
    requires Possible(run) && a.pid == b.pid && a.pid !in StateAfter(run).current
    requires a in StateAfter(run).history && b in StateAfter(run).history
    ensures a == b && JustEnded(run, a)
  {
    hide Step, OrdersFit, Samples;
    StateMatchesAnswers(run, a);
    StateMatchesAnswers(run, b);
    if run != [] {
      StateMatchesAnswers(Front(run), a);
      StateMatchesAnswers(Front(run), b);
    }
  }

  /** Every tracked generation is either live or waiting out its one grace refresh,
      never both, and its history never exceeds the capacity. */
  lemma TrackedKeys(run: Run, k: Key)
    requires Possible(run)
    ensures var s := StateAfter(run);
            && (k in s.history <==> Live(s.current, k) || k in s.stale)
            && !(Live(s.current, k) && k in s.stale)
            && (k in s.seen ==> k in s.history)
            && (k in s.history ==> 1 <= |s.history[k]| <= HISTORY_CAPACITY)
  {
    hide StateAfter, Samples;
    StateMatchesAnswers(run, k);
  }

  /** Every reading but a streak's first carries the CPU rate since the reading before
      it, whatever failed in between. */
  lemma {:induction false} PercentIsRate(run: Run, k: Key, i: nat)
    requires 0 < i < |Samples(run, k)|
    ensures CarriesRate(Samples(run, k)[i - 1], Samples(run, k)[i])
  {
    hide CarriesRate, Rated;
    var before := Samples(Front(run), k);
    if i < |before| {
      PercentIsRate(Front(run), k, i);
    } else {
      RatedCarriesRate(before, Last(run).now, Last(run).ans.procs[k.pid]);
    }
  }

  /** So do all retained readings but the first, across failed refreshes and eviction. */
  lemma HistoryCarriesRate(run: Run, k: Key, i: nat)
    requires Possible(run) && k in StateAfter(run).history && 0 < i < |StateAfter(run).history[k]|
    ensures CarriesRate(StateAfter(run).history[k][i - 1], StateAfter(run).history[k][i])
  {
    hide StateAfter, Samples, CarriesRate, Possible;
    StateMatchesAnswers(run, k);
    var n := |Tracked(run, k)| - |StateAfter(run).history[k]|;
    PercentIsRate(if Tracked(run, k) == Samples(run, k) then run else Front(run), k, n + i);
  }

  // ---- The total bound ------------------------------------------------------------

  /** How many readings are stored for the listed keys. */
  function Stored(history: map<Key, seq<Sample>>, order: seq<Key>): nat
    requires Elements(order) <= history.Keys
  {
    if order == [] then 0
    else
      assert forall k :: k in Front(order) ==> k in order;
      assert Last(order) in Elements(order);
      Stored(history, Front(order)) + |history[Last(order)]|
  }

  lemma {:induction false} StoredBound(history: map<Key, seq<Sample>>, order: seq<Key>)
    requires Elements(order) <= history.Keys
    requires forall k :: k in history ==> 1 <= |history[k]| <= HISTORY_CAPACITY
    ensures |order| <= Stored(history, order) <= HISTORY_CAPACITY * |order|
  {
    if order != [] {
      assert Last(order) in Elements(order);
      StoredBound(history, Front(order));
    }
  }

  lemma KeysWithout(current: map<Pid, Snapshot>, p: Pid)
    requires p in current
    ensures var k := Key(p, current[p].startTime);
            KeysOf(current) == KeysOf(current - {p}) + {k} && k !in KeysOf(current - {p})
  {
    hide KeysOf;
  }

  /** Each live process has one key. */
  lemma {:induction false} OneKeyPerPid(current: map<Pid, Snapshot>)
    ensures |KeysOf(current)| == |current|
    decreases |current|
  {
    hide KeysOf, Live;
    if p :| p in current {
      KeysWithout(current, p);
      assert current.Keys == (current - {p}).Keys + {p};
      OneKeyPerPid(current - {p});
    } else {
      NoKeys(current);
    }
  }

  lemma NoKeys(current: map<Pid, Snapshot>)
    requires current == map[]
    ensures KeysOf(current) == {}
  {
  }

  lemma StaleIsDistinct(run: Run)
    requires Possible(run)
    ensures NoDup(StateAfter(run).stale)
  {
    hide CurrentAfter, HistoryAfter, SeenAfter, Emitted;
  }

  /** Memory is bounded by what is running: over all keys at most 120 readings are
      stored per live process and per process that vanished in the last refresh. */
  lemma TotalSamplesBound(run: Run, order: seq<Key>)
    requires Possible(run) && Enumerates(order, StateAfter(run).history.Keys)
    ensures var s := StateAfter(run);
            && |order| == |s.current| + |s.stale|
            && Stored(s.history, order) <= HISTORY_CAPACITY * (|s.current| + |s.stale|)
  {
    hide StateAfter, Possible;
    var s := StateAfter(run);
    var live, stale := KeysOf(s.current), Elements(s.stale);
    forall k ensures k in s.history <==> k in live + stale
             ensures !(k in live && k in stale)
             ensures k in s.history ==> 1 <= |s.history[k]| <= HISTORY_CAPACITY {
      TrackedKeys(run, k);
    }
    assert s.history.Keys == live + stale && live !! stale;
    assert |live + stale| == |live| + |stale|;
    OneKeyPerPid(s.current);
    StaleIsDistinct(run);
    NoDupCardinality(s.stale);
    NoDupCardinality(order);
    StoredBound(s.history, order);
  }
}
