/** Exactly how far the wall clock may step back before crash_analysis can blame one
    run's exit on another's growth: less than the hour of the growth window. */
module ClockStep {
  import opened Results
  import opened Model
  import opened Seqs
  import opened Tick
  import opened Runs
  import opened Lifecycle
  import opened Investigation
  import Growth
  import Connections

  const OLD := Key(1, 100)
  const NEW := Key(1, 200)

  function Seen(k: Key, rss: nat): Answer {
    Listed([1], map[1 := Snapshot(1, 0, "p", k.start, 0, 0, 0.0, rss, 1, 0)], map[])
  }

  function Quiet(exits: seq<Key>): Orders { Orders(map[], exits, exits) }

  /** A process exits at 10000; the clock is set back an hour; its successor under the
      same pid is seen at 6400 and has doubled its memory by 10000. */
  function Stepped(n: nat): Run
    requires n <= 4
  {
    [Refresh(10000, Seen(OLD, 100), Quiet([])),
     Refresh(10000, Listed([], map[], map[]), Quiet([OLD])),
     Refresh(6400, Seen(NEW, 100), Quiet([])),
     Refresh(10000, Seen(NEW, 200), Quiet([]))][..n]
  }

  lemma SteppedFront(n: nat)
    requires 0 < n <= 4
    ensures Front(Stepped(n)) == Stepped(n - 1)
    ensures Last(Stepped(n)) == Stepped(4)[n - 1]
  {
  }

  /** Which generation is live after each refresh. */
  lemma {:induction false} SteppedSamples(n: nat, k: Key)
    requires n <= 4
    ensures Samples(Stepped(n), k) != [] <==> (n == 1 && k == OLD) || (n >= 3 && k == NEW)
    ensures n == 3 && k == NEW ==> |Samples(Stepped(3), NEW)| == 1
                                   && Samples(Stepped(3), NEW)[0].at == 6400
                                   && Samples(Stepped(3), NEW)[0].snap.rss == 100
  {
    if n > 0 {
      SteppedFront(n);
      SteppedSamples(n - 1, k);
      if n == 3 && k == NEW {
        assert Samples(Stepped(2), NEW) == [];
      }
    }
  }

  lemma {:induction false} SteppedPossible(n: nat)
    requires n <= 4
    ensures Possible(Stepped(n))
  {
    hide StateAfter, NewCurrent;
    if n > 0 {
      SteppedFront(n);
      SteppedPossible(n - 1);
      var t := Last(Stepped(n));
      var gone := Gone(StateAfter(Stepped(n - 1)), t.now, t.ans);
      forall k ensures k in gone <==> n == 2 && k == OLD {
        StateMatchesAnswers(Stepped(n - 1), k);
        SteppedSamples(n - 1, k);
        ReportedIsNew(StateAfter(Stepped(n - 1)), t.now, t.ans, k);
      }
      assert gone == if n == 2 then {OLD} else {};
    }
  }

  lemma ReportedIsNew(s: State, now: int, ans: Answer, k: Key)
    requires ans.Listed?
    ensures Live(NewCurrent(s, now, ans), k) <==> ans.Reports(k)
  {
    CurrentAtEnd(Pruned(s), now, ans, k);
  }

  lemma {:induction false} SteppedEvents(n: nat, e: Event)
    requires n <= 4 && e in Log(Stepped(n))
    ensures e.kind.Exited? ==> e.key == OLD && e.at == 10000
    ensures e.kind.MemoryGrowth? ==> e.key == NEW && e.at == 10000
    ensures e.key.pid == 1 || e.kind.NewChild?
  {
    hide LastEmitted, StateAfter, Samples;
    SteppedFront(n);
    SteppedPossible(n);
    SteppedPossible(n - 1);
    if e in Log(Stepped(n - 1)) {
      SteppedEvents(n - 1, e);
    } else {
      LastEmittedJustified(Stepped(n), e);
      SteppedSamples(n - 1, e.key);
      StateMatchesAnswers(Stepped(n - 1), e.key);
      PrunedAgrees(Stepped(n - 1), e.key);
      ReportedIsNew(StateAfter(Stepped(n - 1)), Last(Stepped(n)).now, Last(Stepped(n)).ans, e.key);
    }
  }

  lemma SteppedExit()
    ensures Event(OLD, 10000, Exited(None)) in Log(Stepped(4))
  {
    hide LastEmitted, Samples;
    SteppedPossible(2);
    SteppedSamples(1, OLD);
    SteppedSamples(2, OLD);
    SteppedFront(2);
    SteppedFront(3);
    SteppedFront(4);
    Connections.ExitLogged(Stepped(2), OLD);
  }

  lemma SteppedGrowth()
    ensures Event(NEW, 10000, MemoryGrowth(GrowthPercent(200, 100), GROWTH_WINDOW_SECS)) in Log(Stepped(4))
  {
    hide LastEmitted, Samples;
    SteppedPossible(4);
    SteppedSamples(3, NEW);
    SteppedFront(4);
    var hist := Samples(Stepped(3), NEW);
    assert Baseline(hist, 10000) == Some(hist[0]);
    Growth.GrowthAnnounced(Stepped(4), NEW, GrowthPercent(200, 100));
  }

  lemma EmittedShort(s: State, now: int, ans: Answer, ord: Orders)
    requires ans.Listed? && |ans.pids| <= 1 && ans.conns == map[] && |ord.exits| <= 1
    ensures |Emitted(s, now, ans, ord)| <= 4
  {
    hide CurrentAfter, Baseline;
    var p := Pruned(s);
    if |ans.pids| == 1 {
      assert |PidEvents(p, now, ans, ord.addrs, 0)| <= 3;
      assert EventsAfter(p, now, ans, ord.addrs, 0) == [];
      assert EventsAfter(p, now, ans, ord.addrs, 1) == [] + PidEvents(p, now, ans, ord.addrs, 0);
    } else {
      assert EventsAfter(p, now, ans, ord.addrs, |ans.pids|) == [];
    }
  }

  lemma {:induction false} SteppedShort(n: nat)
    requires n <= 4
    ensures |Log(Stepped(n))| <= 4 * n
  {
    hide Emitted, StateAfter;
    if n > 0 {
      SteppedFront(n);
      SteppedShort(n - 1);
      var t := Last(Stepped(n));
      EmittedShort(StateAfter(Stepped(n - 1)), t.now, t.ans, t.ord);
    }
  }

  /** In this possible run, whose clock steps back by exactly an hour, crash_analysis
      reads from the timeline the exit of one generation and the memory growth of
      another that started later, and cites them together. */
  lemma BackwardClockMispairs()
    ensures Possible(Stepped(4)) && StepsBack(Stepped(4), GROWTH_WINDOW_SECS)
    ensures var f := CrashAnalysis(EventsOf(StateAfter(Stepped(4)).timeline, 1), 1, []);
            && f.severity == Notice && |f.evidence| == 2
            && f.evidence[0].TimelineEvidence? && f.evidence[1].TimelineEvidence?
            && f.evidence[0].event.key == OLD && f.evidence[0].event.kind.Exited?
            && f.evidence[1].event.key == NEW && f.evidence[1].event.kind.MemoryGrowth?
  {
    hide Log, LastEmitted, StateAfter, Filter, FirstIndex, LastIndex, Possible;
    SteppedPossible(4);
    TimelineIsLogTail(Stepped(4));
    SteppedShort(4);
    var log := Log(Stepped(4));
    var events := EventsOf(log, 1);
    assert StateAfter(Stepped(4)).timeline == log;
    SteppedExit();
    SteppedGrowth();
    assert Event(OLD, 10000, Exited(None)) in events;
    assert Event(NEW, 10000, MemoryGrowth(GrowthPercent(200, 100), GROWTH_WINDOW_SECS)) in events;
    forall e | e in events
      ensures e.kind.Exited? ==> e.key == OLD && e.at == 10000
      ensures e.kind.MemoryGrowth? ==> e.key == NEW && e.at == 10000
    {
      SteppedEvents(4, e);
    }
    var exit := ExitEvent(events).value;
    assert exit in events && exit.key == OLD && exit.at == 10000;
    var growth := GrowthBeforeExit(events, exit).value;
    assert growth in events && growth.key == NEW;
  }

  // ---- The exact bound ------------------------------------------------------------------

  /** The finding cites, as its exit and growth, the events at log positions x and g. */
  ghost predicate CitesPair(run: Run, f: Finding, x: nat, g: nat) {
    x < |Log(run)| && g < |Log(run)| && |f.evidence| >= 2
    && f.evidence[..2] == [TimelineEvidence(Log(run)[x]), TimelineEvidence(Log(run)[g])]
  }

  /** crash_analysis blames memory growth, but no growth of the run that ended in the
      exit it cites. */
  ghost predicate BlamesOtherRun(run: Run, pid: Pid, oomLines: seq<string>) {
    var f := CrashAnalysis(EventsOf(StateAfter(run).timeline, pid), pid, oomLines);
    && f.severity in {Critical, Notice}
    && forall x, g :: CitesPair(run, f, x, g) ==> !GrewInRunEndingAt(Log(run), g, x)
  }

  lemma SteppedBlamesOther()
    ensures BlamesOtherRun(Stepped(4), 1, [])
  {
    hide Log, StateAfter, CrashAnalysis, Opened, EventsOf;
    BackwardClockMispairs();
    var f := CrashAnalysis(EventsOf(StateAfter(Stepped(4)).timeline, 1), 1, []);
    forall x, g | CitesPair(Stepped(4), f, x, g) ensures !GrewInRunEndingAt(Log(Stepped(4)), g, x) {
      assert f.evidence[..2][0] == f.evidence[0] && f.evidence[..2][1] == f.evidence[1];
    }
  }

  lemma SmallStepsBlameRight(run: Run, pid: Pid, oomLines: seq<string>, back: nat)
    requires Possible(run) && StepsBack(run, back) && back < GROWTH_WINDOW_SECS
    ensures !BlamesOtherRun(run, pid, oomLines)
  {
    hide Log, StateAfter, Possible, StepsBack, Opened, EventsOf, GrewInRunEndingAt, FirstExitFrom;
    var events := EventsOf(StateAfter(run).timeline, pid);
    var f := CrashAnalysis(events, pid, oomLines);
    if f.severity in {Critical, Notice} {
      assert ExitEvent(events).Some?;
      hide CrashAnalysis, ExitEvent;
      var x, g := CrashAnalysisBlamesOneRun(run, pid, oomLines, back);
      GrewIsInLog(Log(run), g, x);
      assert CitesPair(run, f, x, g);
    }
  }

  lemma GrewIsInLog(log: seq<Event>, g: nat, x: nat)
    requires GrewInRunEndingAt(log, g, x)
    ensures g < |log| && x < |log|
  {
  }

  lemma SteppedStepsBack(back: nat)
    requires back >= GROWTH_WINDOW_SECS
    ensures StepsBack(Stepped(4), back)
  {
  }

  /** Exact tolerance of the pairing: some possible run whose clock never steps back by
      more than `back` seconds has an exit blamed on another run's growth if and only
      if `back` allows the hour of the growth window. */
  lemma MispairingNeedsHourStep(back: nat)
    ensures (exists run, pid, oomLines ::
               Possible(run) && StepsBack(run, back) && BlamesOtherRun(run, pid, oomLines))
            <==> back >= GROWTH_WINDOW_SECS
  {
    hide Possible, BlamesOtherRun, StepsBack, Stepped;
    if back >= GROWTH_WINDOW_SECS {
      SteppedPossible(4);
      SteppedBlamesOther();
      SteppedStepsBack(back);
    } else {
      forall run, pid, oomLines | Possible(run) && StepsBack(run, back) ensures !BlamesOtherRun(run, pid, oomLines) {
        SmallStepsBlameRight(run, pid, oomLines, back);
      }
    }
  }
}
