/** How far the memory-growth rules can reach with a bounded history. */
module Growth {
  import opened Results
  import opened Model
  import opened Seqs
  import opened Tick
  import opened Runs
  import opened Emission
  import opened Lifecycle
  import opened Investigation

  /** The time of the latest successful refresh. */
  function LastSuccess(run: Run): Option<int> {
    if run == [] then None
    else if Last(run).ans.Listed? then Some(Last(run).now)
    else LastSuccess(Front(run))
  }

  /** Consecutive successful refreshes are at most `gap` seconds apart. */
  predicate Spaced(run: Run, gap: nat) {
    run == []
    || (Spaced(Front(run), gap)
        && (Last(run).ans.Listed? && LastSuccess(Front(run)).Some? ==>
              Last(run).now - LastSuccess(Front(run)).value <= gap))
  }

  /** The times of a streak: each reading at most a gap after the one before. */
  predicate Close(s: seq<Sample>, gap: nat) {
    forall i :: 0 <= i < |s| ==> Last(s).at - s[i].at <= (|s| - 1 - i) * gap
  }

  lemma CloseNext(s: seq<Sample>, x: Sample, gap: nat)
    requires Close(s, gap) && (s != [] ==> x.at - Last(s).at <= gap)
    ensures Close(s + [x], gap)
  {
    forall i | 0 <= i < |s| ensures x.at - s[i].at <= (|s| - i) * gap {
      assert (|s| - i) * gap == (|s| - 1 - i) * gap + gap;
    }
  }

  /** A streak spans at most one gap per reading. */
  lemma {:induction false} StreakSpacing(run: Run, k: Key, gap: nat)
    requires Spaced(run, gap)
    ensures Samples(run, k) != [] ==> LastSuccess(run) == Some(Last(Samples(run, k)).at)
    ensures Close(Samples(run, k), gap)
  {
    hide Close;
    if run != [] {
      StreakSpacing(Front(run), k, gap);
      var before, after := Samples(Front(run), k), Samples(run, k);
      if after != [] && Last(run).ans.Listed? {
        CloseNext(before, Last(after), gap);
        assert after == before + [Last(after)];
      } else {
        CloseEmpty(gap);
      }
    } else {
      CloseEmpty(gap);
    }
  }

  lemma CloseEmpty(gap: nat)
    ensures Close([], gap)
  {
  }

  lemma NoBaseline(hist: seq<Sample>, now: int)
    requires forall i :: 0 <= i < |hist| ==> now - hist[i].at < GROWTH_WINDOW_SECS
    ensures Baseline(hist, now) == None
  {
  }

  lemma ProductBound(a: nat, b: nat, aMax: nat, bMax: nat)
    requires a <= aMax && b <= bMax
    ensures a * b <= aMax * bMax
  {
    assert a * b <= a * bMax;
  }

  /** No retained reading is as old as the growth window. */
  lemma WindowOutOfReach(run: Run, k: Key, gap: nat, now: int)
    requires Spaced(run, gap) && gap < 30
    requires LastSuccess(run).Some? ==> now - LastSuccess(run).value <= gap
    ensures Baseline(LastN(HISTORY_CAPACITY, Samples(run, k)), now) == None
  {
    var all := Samples(run, k);
    var hist := LastN(HISTORY_CAPACITY, all);
    StreakSpacing(run, k, gap);
    forall i | 0 <= i < |hist| ensures now - hist[i].at < GROWTH_WINDOW_SECS {
      var j := |all| - |hist| + i;
      assert hist[i] == all[j];
      var n := |all| - 1 - j;
      ProductBound(n, gap, 119, 29);
    }
    NoBaseline(hist, now);
  }

  /** If successful refreshes are always less than 30 seconds apart, no growth
      event is ever emitted, whatever any process does. */
  lemma {:induction false} FrequentRefreshesMissGrowth(run: Run, gap: nat, e: Event)
    requires Possible(run) && Spaced(run, gap) && gap < 30
    requires e in Log(run)
    ensures !e.kind.MemoryGrowth?
  {
    hide Emitted, Samples;
    var f := Front(run);
    if e in Log(f) {
      FrequentRefreshesMissGrowth(f, gap, e);
    } else {
      LastEmittedJustified(run, e);
      StateMatchesAnswers(f, e.key);
      PrunedAgrees(f, e.key);
      WindowOutOfReach(f, e.key, gap, Last(run).now);
    }
  }

  /** The same for why_memory's own window, which runs between retained readings
      and so is one gap shorter: with gaps of at most 30 seconds it never warns. */
  lemma FrequentRefreshesNeverWarn(run: Run, gap: nat, k: Key)
    requires Possible(run) && Spaced(run, gap) && gap <= 30 && Live(StateAfter(run).current, k)
    ensures !WhyMemory(StateAfter(run).current, HistoryOf(StateAfter(run), k), k.pid).severity.Warning?
  {
    hide StateAfter, Samples, WhyMemory;
    WhyMemoryStaysInStreak(run, k);
    var all := Samples(run, k);
    var kept := LastN(HISTORY_CAPACITY, all);
    StreakSpacing(run, k, gap);
    assert kept[0] == all[|all| - |kept|];
    ProductBound(|kept| - 1, gap, 119, 30);
  }

  /** A refresh emits a growth event of k exactly when k is read, the newest of its
      last 120 earlier readings that is a full window old has a nonzero RSS, and the
      RSS has grown by half since: readings of the current streak only. */
  lemma GrowthAnnounced(run: Run, k: Key, percent: real)
    requires Possible(run) && run != []
    ensures var t := Last(run);
            var baseline := Baseline(LastN(HISTORY_CAPACITY, Samples(Front(run), k)), t.now);
            Event(k, t.now, MemoryGrowth(percent, GROWTH_WINDOW_SECS)) in LastEmitted(run) <==>
            && t.ans.Reports(k) && baseline.Some? && baseline.value.snap.rss > 0
            && percent == GrowthPercent(t.ans.procs[k.pid].rss, baseline.value.snap.rss)
            && percent >= GROWTH_THRESHOLD_PERCENT
  {
    hide Samples, StateAfter;
    var f, t := Front(run), Last(run);
    var e := Event(k, t.now, MemoryGrowth(percent, GROWTH_WINDOW_SECS));
    StateMatchesAnswers(f, k);
    PrunedAgrees(f, k);
    if e in LastEmitted(run) {
      LastEmittedJustified(run, e);
    }
    var s := Pruned(StateAfter(f));
    if t.ans.Reports(k) && e in GrowthEvents(HistoryOf(s, k), t.now, k, t.ans.procs[k.pid].rss) {
      var i :| 0 <= i < |t.ans.pids| && t.ans.pids[i] == k.pid;
      assert e in PidEvents(s, t.now, t.ans, t.ord.addrs, i);
      PassIncludes(s, t.now, t.ans, t.ord.addrs, |t.ans.pids|, i, e);
    }
  }

  // ---- The bound is tight ---------------------------------------------------------

  const WITNESS_KEY := Key(1, 0)

  function WitnessSnapshot(rss: nat): Snapshot {
    Snapshot(1, 0, "p", 0, 0, 0, 0.0, rss, 1, 0)
  }

  function WitnessRefresh(i: nat, gap: nat): Refresh {
    Refresh(i * gap,
            Listed([1], map[1 := WitnessSnapshot(if i < 120 then 100 else 150)], map[]),
            Orders(map[], [], []))
  }

  /** One process refreshed n times, every `gap` seconds, growing by half at the 121st. */
  function WitnessRun(n: nat, gap: nat): Run {
    seq(n, i requires 0 <= i < n => WitnessRefresh(i, gap))
  }

  lemma {:induction false} WitnessSpaced(n: nat, gap: nat)
    ensures Spaced(WitnessRun(n, gap), gap)
    ensures n > 0 ==> LastSuccess(WitnessRun(n, gap)) == Some((n - 1) * gap)
  {
    if n > 0 {
      WitnessSpaced(n - 1, gap);
      assert Front(WitnessRun(n, gap)) == WitnessRun(n - 1, gap);
      assert (n - 1) * gap == (n - 2) * gap + gap;
    }
  }

  lemma {:induction false} WitnessSamples(n: nat, gap: nat)
    ensures |Samples(WitnessRun(n, gap), WITNESS_KEY)| == n
    ensures forall i :: 0 <= i < n ==>
              var x := Samples(WitnessRun(n, gap), WITNESS_KEY)[i];
              x.at == i * gap && x.snap.rss == if i < 120 then 100 else 150
  {
    if n > 0 {
      WitnessSamples(n - 1, gap);
      assert Front(WitnessRun(n, gap)) == WitnessRun(n - 1, gap);
      assert WitnessRefresh(n - 1, gap).ans.Reports(WITNESS_KEY);
    }
  }

  lemma {:induction false} WitnessPossible(n: nat, gap: nat)
    ensures Possible(WitnessRun(n, gap))
  {
    hide OrdersFit;
    if n > 0 {
      WitnessPossible(n - 1, gap);
      assert Front(WitnessRun(n, gap)) == WitnessRun(n - 1, gap);
      WitnessOrdersFit(n, gap);
    }
  }

  lemma WitnessOrdersFit(n: nat, gap: nat)
    requires n > 0 && Possible(WitnessRun(n - 1, gap))
    ensures var t := WitnessRefresh(n - 1, gap);
            OrdersFit(StateAfter(WitnessRun(n - 1, gap)), t.now, t.ans, t.ord)
  {
    hide StateAfter;
    var t := WitnessRefresh(n - 1, gap);
    var f := WitnessRun(n - 1, gap);
    var s := StateAfter(f);
    forall k ensures k !in Gone(s, t.now, t.ans) {
      CurrentAtEnd(Pruned(s), t.now, t.ans, k);
      OnlyWitnessLive(n - 1, gap, k);
    }
  }

  lemma OnlyWitnessLive(n: nat, gap: nat, k: Key)
    requires Possible(WitnessRun(n, gap))
    ensures Live(StateAfter(WitnessRun(n, gap)).current, k) ==> k == WITNESS_KEY
  {
    hide StateAfter;
    var run := WitnessRun(n, gap);
    StateMatchesAnswers(run, k);
    assert n > 0 ==> Last(run) == WitnessRefresh(n - 1, gap);
  }

  lemma WitnessGrows(gap: nat)
    requires gap >= 30
    ensures Event(WITNESS_KEY, 120 * gap, MemoryGrowth(GrowthPercent(150, 100), GROWTH_WINDOW_SECS))
            in Log(WitnessRun(121, gap))
  {
    hide Samples, Baseline, LastEmitted, Possible;
    var run := WitnessRun(121, gap);
    WitnessPossible(121, gap);
    WitnessSamples(120, gap);
    assert Front(run) == WitnessRun(120, gap) && Last(run) == WitnessRefresh(120, gap);
    var hist := Samples(Front(run), WITNESS_KEY);
    BaselineExists(hist, 120 * gap, 0);
    BaselineInHistory(hist, 120 * gap);
    var i :| 0 <= i < |hist| && hist[i] == Baseline(hist, 120 * gap).value;
    assert hist[i].snap.rss == 100;
    GrowthAnnounced(run, WITNESS_KEY, GrowthPercent(150, 100));
  }

  /** Exact reach of the growth rule: some run with successful refreshes at most
      `gap` seconds apart emits a growth event if and only if the gap allows 30. */
  lemma GrowthNeedsThirtySecondGaps(gap: nat)
    ensures (exists run, e :: Possible(run) && Spaced(run, gap) && e in Log(run) && e.kind.MemoryGrowth?)
            <==> gap >= 30
  {
    hide Possible, Spaced, Log, WitnessRun;
    if gap >= 30 {
      WitnessPossible(121, gap);
      WitnessSpaced(121, gap);
      WitnessGrows(gap);
    } else {
      forall run, e | Possible(run) && Spaced(run, gap) && e in Log(run) ensures !e.kind.MemoryGrowth? {
        FrequentRefreshesMissGrowth(run, gap, e);
      }
    }
  }

  predicate Warns(run: Run, k: Key) {
    && Live(StateAfter(run).current, k)
    && WhyMemory(StateAfter(run).current, HistoryOf(StateAfter(run), k), k.pid).severity.Warning?
  }

  lemma WitnessWarns(gap: nat)
    requires gap >= 31
    ensures Warns(WitnessRun(121, gap), WITNESS_KEY)
  {
    hide Samples, StateAfter, Possible, WitnessRun, WhyMemory;
    var run := WitnessRun(121, gap);
    WitnessPossible(121, gap);
    WitnessSamples(121, gap);
    StateMatchesAnswers(run, WITNESS_KEY);
    WhyMemoryStaysInStreak(run, WITNESS_KEY);
    var streak := Samples(run, WITNESS_KEY);
    assert LastN(HISTORY_CAPACITY, streak)[0] == streak[1];
    assert Last(streak).at - streak[1].at == 119 * gap;
  }

  /** Exact reach of why_memory: it warns after some run with successful refreshes at
      most `gap` seconds apart if and only if the gap allows 31, one second more than
      the growth rule needs. */
  lemma WarningNeedsThirtyOneSecondGaps(gap: nat)
    ensures (exists run, k :: Possible(run) && Spaced(run, gap) && Warns(run, k)) <==> gap >= 31
  {
    hide Possible, Spaced, StateAfter, WhyMemory, WitnessRun;
    if gap >= 31 {
      WitnessPossible(121, gap);
      WitnessSpaced(121, gap);
      WitnessWarns(gap);
    } else {
      forall run, k | Possible(run) && Spaced(run, gap) ensures !Warns(run, k) {
        if Live(StateAfter(run).current, k) {
          FrequentRefreshesNeverWarn(run, gap, k);
        }
      }
    }
  }

  lemma {:induction false} BaselineExists(hist: seq<Sample>, now: int, i: nat)
    requires i < |hist| && now - hist[i].at >= GROWTH_WINDOW_SECS
    ensures Baseline(hist, now).Some?
  {
    if now - Last(hist).at < GROWTH_WINDOW_SECS {
      BaselineExists(Front(hist), now, i);
    }
  }
}
