/** Facts about the complete event log of any possible run: lifecycle events
    alternate, growth events belong to a run that is old enough, and an exit
    shares its tick with any successor of the same pid. */
module Lifecycle {
  import opened Results
  import opened Model
  import opened Seqs
  import opened Tick
  import opened Runs
  import opened Emission

  predicate Alternates(life: seq<bool>) {
    forall i :: 0 <= i < |life| ==> life[i] == (i % 2 == 0)
  }

  /** Started and Exited of every generation strictly alternate beginning with
      Started, and the generation is live exactly when one more Started than
      Exited has been emitted: across failed refreshes and missed reads. */
  lemma {:induction false} LifecycleAlternates(run: Run, k: Key)
    requires Possible(run)
    ensures Alternates(Life(Log(run), k))
    ensures Live(StateAfter(run).current, k) <==> |Life(Log(run), k)| % 2 == 1
  {
    hide Step, Emitted, OrdersFit, Live, Life, NewCurrent;
    if run != [] {
      var f, t := Front(run), Last(run);
      LifecycleAlternates(f, k);
      EmittedLife(StateAfter(f), t.now, t.ans, t.ord, k);
      LifeAppend(Log(f), LastEmitted(run), k);
      StepCurrent(StateAfter(f), t.now, t.ans, t.ord);
      assert Log(run) == Log(f) + LastEmitted(run);
    } else {
      NothingLive(k);
      LifeNone([], k);
    }
  }

  lemma NothingLive(k: Key)
    ensures !Live(StateAfter([]).current, k)
  {
  }

  lemma StepCurrent(s: State, now: int, ans: Answer, ord: Orders)
    ensures Step(s, now, ans, ord).current == NewCurrent(s, now, ans)
  {
  }

  /** A refresh logs a Started of k exactly when it begins a streak of readings
      of k, and an Exited exactly when it ends one. */
  lemma StreaksAreLogged(run: Run, k: Key)
    requires Possible(run) && run != []
    ensures var before, after := Samples(Front(run), k) != [], Samples(run, k) != [];
            Life(LastEmitted(run), k) == if before == after then [] else [after]
  {
    var t := Last(run);
    StateMatchesAnswers(run, k);
    StateMatchesAnswers(Front(run), k);
    EmittedLife(StateAfter(Front(run)), t.now, t.ans, t.ord, k);
    StepCurrent(StateAfter(Front(run)), t.now, t.ans, t.ord);
  }

  /** The in-memory timeline is the newest part of the full log, never a
      different or reordered one. */
  lemma {:induction false} TimelineIsLogTail(run: Run)
    ensures StateAfter(run).timeline == LastN(1000, Log(run))
  {
    if run != [] {
      var f, t := Front(run), Last(run);
      TimelineIsLogTail(f);
      LastNAppend(TIMELINE_CAPACITY, Log(f), LastEmitted(run));
      StepTimeline(StateAfter(f), t.now, t.ans, t.ord);
      if t.ans.ListFailed? {
        assert Log(run) == Log(f);
      }
    }
  }

  lemma StepTimeline(s: State, now: int, ans: Answer, ord: Orders)
    ensures Step(s, now, ans, ord).timeline ==
            if ans.ListFailed? then s.timeline
            else LastN(TIMELINE_CAPACITY, s.timeline + Emitted(s, now, ans, ord))
  {
  }

  // ---- Which run an event falls in --------------------------------------------

  /** Where in the log the run of k that is still open at its end was started;
      None when k has no open run there. */
  function Opened(log: seq<Event>, k: Key): (r: Option<nat>)
    ensures r.Some? ==> r.value < |log| && log[r.value].key == k && log[r.value].kind.Started?
  {
    if log == [] then None
    else
      var e := Last(log);
      if e.key != k || !e.Lifecycle() then Opened(Front(log), k)
      else if e.kind.Started? then Some(|log| - 1)
      else None
  }

  /** Appending events that do not start or end a run of k moves nothing. */
  lemma {:induction false} OpenedQuiet(a: seq<Event>, b: seq<Event>, k: Key)
    requires Life(b, k) == []
    ensures Opened(a + b, k) == Opened(a, k)
  {
    if b == [] {
      assert a + b == a;
    } else {
      assert Front(a + b) == a + Front(b);
      OpenedQuiet(a, Front(b), k);
    }
  }

  /** An open run at the end of a + b was opened in b, or was open after a. */
  lemma {:induction false} OpenedWhere(a: seq<Event>, b: seq<Event>, k: Key)
    requires Opened(a + b, k).Some?
    ensures var o := Opened(a + b, k).value; o >= |a| || Opened(a, k) == Some(o)
  {
    if b == [] {
      assert a + b == a;
    } else {
      assert Front(a + b) == a + Front(b);
      if Last(b).key != k || !Last(b).Lifecycle() {
        OpenedWhere(a, Front(b), k);
      }
    }
  }

  /** Nothing that ends or restarts the run lies between its start and the end. */
  lemma {:induction false} OpenedUnbroken(log: seq<Event>, k: Key, i: nat)
    requires Opened(log, k).Some? && Opened(log, k).value < i < |log|
    ensures log[i].key == k ==> !log[i].Lifecycle()
  {
    if i < |log| - 1 {
      OpenedUnbroken(Front(log), k, i);
    }
  }

  /** Without an Exited of k in between, an open run stays the open run, unless
      a Started begins another. */
  lemma {:induction false} OpenedStays(a: seq<Event>, b: seq<Event>, k: Key)
    requires Opened(a, k).Some?
    requires forall i :: 0 <= i < |b| ==> b[i].key == k ==> !b[i].kind.Exited?
    ensures Opened(a + b, k).Some?
  {
    if b == [] {
      assert a + b == a;
    } else {
      assert Front(a + b) == a + Front(b);
      OpenedStays(a, Front(b), k);
    }
  }

  /** If b contains lifecycle events of k, its last one decides. */
  lemma {:induction false} OpenedDecided(a: seq<Event>, b: seq<Event>, k: Key)
    requires Life(b, k) != []
    ensures Opened(a + b, k).Some? <==> Last(Life(b, k))
    ensures Opened(a + b, k).Some? ==> Opened(a + b, k).value >= |a|
  {
    assert Front(a + b) == a + Front(b);
    if Last(b).key != k || !Last(b).Lifecycle() {
      OpenedDecided(a, Front(b), k);
    }
  }

  lemma LifeBefore(a: seq<Event>, e: Event, c: seq<Event>, k: Key)
    requires e.key == k && e.Lifecycle() && |Life(a + [e] + c, k)| <= 1
    ensures Life(a, k) == []
  {
    LifeAppend(a + [e], c, k);
    LifeAppend(a, [e], k);
    LifeSingle(e, k);
  }

  /** A generation has an open run in the log exactly while it has a streak of
      readings, and the run was opened when the streak's first reading was taken. */
  lemma {:induction false} OpenRunIsStreak(run: Run, k: Key)
    requires Possible(run)
    ensures Opened(Log(run), k).Some? <==> Samples(run, k) != []
    ensures Opened(Log(run), k).Some? ==>
              Log(run)[Opened(Log(run), k).value].at == Samples(run, k)[0].at
  {
    hide Opened, Life, Emitted;
    if run != [] {
      var f, t := Front(run), Last(run);
      var e := LastEmitted(run);
      OpenRunIsStreak(f, k);
      StreaksAreLogged(run, k);
      if Life(e, k) == [] {
        OpenedQuiet(Log(f), e, k);
      } else {
        OpenedDecided(Log(f), e, k);
        if Samples(run, k) != [] {
          var o := Opened(Log(run), k).value;
          assert Log(run)[o] == e[o - |Log(f)|];
          LastEmittedJustified(run, Log(run)[o]);
        }
      }
    } else {
      NothingOpened(k);
    }
  }

  lemma NothingOpened(k: Key)
    ensures Opened([], k) == None
  {
  }

  lemma LastEmittedJustified(run: Run, e: Event)
    requires Possible(run) && run != [] && e in LastEmitted(run)
    ensures Last(run).ans.Listed? && e.at == Last(run).now
    ensures if e.kind.Exited? then e.key in Gone(StateAfter(Front(run)), Last(run).now, Last(run).ans)
            else Justified(Pruned(StateAfter(Front(run))), Last(run).now, Last(run).ans, e)
  {
    var t := Last(run);
    EmittedJustified(StateAfter(Front(run)), t.now, t.ans, t.ord, e);
  }

  lemma BaselineInHistory(hist: seq<Sample>, now: int)
    ensures Baseline(hist, now).Some? ==>
              Baseline(hist, now).value in hist && now - Baseline(hist, now).value.at >= GROWTH_WINDOW_SECS
  {
  }

  /** Every event is stamped with the time of the refresh that logged it. */
  lemma {:induction false} LogTime(run: Run, i: nat) returns (r: nat)
    requires Possible(run) && i < |Log(run)|
    ensures r < |run| && run[r].now == Log(run)[i].at
  {
    hide Emitted;
    var f := Front(run);
    if i < |Log(f)| {
      r := LogTime(f, i);
    } else {
      r := |run| - 1;
      LastEmittedJustified(run, LastEmitted(run)[i - |Log(f)|]);
    }
  }

  /** Whatever was logged up to the opening of k's current run is stamped at most
      `back` seconds after any reading taken in that run. */
  lemma {:induction false} OpeningPrecedesReadings(run: Run, k: Key, i: nat, j: nat, back: nat)
    requires Possible(run) && StepsBack(run, back)
    requires Opened(Log(run), k).Some? && i <= Opened(Log(run), k).value && j < |Samples(run, k)|
    ensures Log(run)[i].at <= Samples(run, k)[j].at + back
  {
    hide Opened, Life, Emitted, Possible;
    if run == [] {
      NothingOpened(k);
    } else {
      var f, t, e := Front(run), Last(run), LastEmitted(run);
      PossibleFront(run);
      StreaksAreLogged(run, k);
      if Life(e, k) == [] {
        OpenedQuiet(Log(f), e, k);
      } else {
        OpenedDecided(Log(f), e, k);
      }
      if Life(e, k) == [] && j < |Samples(f, k)| {
        OpeningPrecedesReadings(f, k, i, j, back);
      } else {
        assert Samples(run, k)[j].at == t.now;
        var r := LogTime(run, i);
      }
    }
  }

  lemma PossibleFront(run: Run)
    requires Possible(run) && run != []
    ensures Possible(Front(run))
  {
  }

  /** A growth event is emitted only while its generation has an open run, and then
      logging it ends nothing. */
  lemma GrowthWhileOpen(run: Run, j: nat)
    requires Possible(run) && run != [] && j < |LastEmitted(run)| && LastEmitted(run)[j].kind.MemoryGrowth?
    ensures var k, before := LastEmitted(run)[j].key, Log(Front(run));
            && Opened(before, k).Some?
            && Opened(before + LastEmitted(run)[..j], k) == Opened(before, k)
            && var b := Baseline(LastN(HISTORY_CAPACITY, Samples(Front(run), k)), Last(run).now);
            && b.Some? && b.value in Samples(Front(run), k) && Last(run).now - b.value.at >= GROWTH_WINDOW_SECS
  {
    hide Opened, Life, Emitted, Step, OrdersFit;
    var f, t, e := Front(run), Last(run), LastEmitted(run);
    var k := e[j].key;
    LastEmittedJustified(run, e[j]);
    StateMatchesAnswers(f, k);
    PrunedAgrees(f, k);
    BaselineInHistory(LastN(HISTORY_CAPACITY, Samples(f, k)), t.now);
    assert Samples(run, k) != [];
    StreaksAreLogged(run, k);
    LifeAppend(e[..j], e[j..], k);
    assert e == e[..j] + e[j..];
    OpenedQuiet(Log(f), e[..j], k);
    OpenRunIsStreak(f, k);
  }

  /** A growth event always falls in an open run of its own generation. If the clock
      never steps back by more than `back` seconds, the event is stamped at least a
      growth window, less those seconds, after everything logged up to the opening. */
  lemma {:induction false} GrowthFallsInRun(run: Run, i: nat)
    requires Possible(run)
    requires i < |Log(run)| && Log(run)[i].kind.MemoryGrowth?
    ensures Opened(Log(run)[..i], Log(run)[i].key).Some?
    ensures forall h: nat, back: nat :: StepsBack(run, back) && h <= Opened(Log(run)[..i], Log(run)[i].key).value ==>
              Log(run)[h].at + GROWTH_WINDOW_SECS <= Log(run)[i].at + back
  {
    hide Opened, Life, Emitted, Baseline, Possible, Samples;
    var f, t, e := Front(run), Last(run), LastEmitted(run);
    PossibleFront(run);
    if i < |Log(f)| {
      GrowthFallsInRun(f, i);
      assert Log(run)[..i] == Log(f)[..i];
      assert forall back: nat :: StepsBack(run, back) ==> StepsBack(f, back);
    } else {
      var k := Log(run)[i].key;
      GrowthWhileOpen(run, i - |Log(f)|);
      LastEmittedJustified(run, e[i - |Log(f)|]);
      assert Log(run)[..i] == Log(f) + e[..i - |Log(f)|];
      var b := Baseline(LastN(HISTORY_CAPACITY, Samples(f, k)), t.now).value;
      var j :| 0 <= j < |Samples(f, k)| && Samples(f, k)[j] == b;
      forall h: nat, back: nat | StepsBack(run, back) && h <= Opened(Log(f), k).value
        ensures Log(run)[h].at + GROWTH_WINDOW_SECS <= Log(run)[i].at + back
      {
        assert StepsBack(f, back);
        OpeningPrecedesReadings(f, k, h, j, back);
      }
    }
  }

  /** When a generation exits, its own run is open, and a run of another
      generation of the same pid can only have been opened in that very tick. */
  lemma {:induction false} ExitIsAlone(run: Run, x: nat, other: Key)
    requires Possible(run)
    requires x < |Log(run)| && Log(run)[x].kind.Exited? && other.pid == Log(run)[x].key.pid
    ensures other == Log(run)[x].key ==> Opened(Log(run)[..x], other).Some?
    ensures var o := Opened(Log(run)[..x], other);
            other != Log(run)[x].key && o.Some? ==> Log(run)[o.value].at == Log(run)[x].at
  {
    hide Opened, Life, Emitted, Step, OrdersFit, Justified;
    var f, t, e := Front(run), Last(run), LastEmitted(run);
    if x < |Log(f)| {
      ExitIsAlone(f, x, other);
      assert Log(run)[..x] == Log(f)[..x];
    } else {
      var j := x - |Log(f)|;
      var k := Log(run)[x].key;
      LastEmittedJustified(run, e[j]);
      assert Live(StateAfter(f).current, k);
      assert Log(run)[..x] == Log(f) + e[..j];
      OpenRunIsStreak(f, other);
      StateMatchesAnswers(f, other);
      if other == k {
        StateMatchesAnswers(f, k);
        StateMatchesAnswers(run, k);
        StreaksAreLogged(run, k);
        assert e == e[..j] + [e[j]] + e[j + 1..];
        LifeBefore(e[..j], e[j], e[j + 1..], k);
        OpenedQuiet(Log(f), e[..j], k);
      } else if Opened(Log(run)[..x], other).Some? {
        OpenedWhere(Log(f), e[..j], other);
        var o := Opened(Log(run)[..x], other).value;
        assert Log(run)[o] == e[o - |Log(f)|];
        LastEmittedJustified(run, Log(run)[o]);
      }
    }
  }

  /** A Started is never logged while the generation already has an open run. */
  lemma {:induction false} StartIsFresh(run: Run, m: nat)
    requires Possible(run)
    requires m < |Log(run)| && Log(run)[m].kind.Started?
    ensures Opened(Log(run)[..m], Log(run)[m].key).None?
  {
    hide Opened, Life, Emitted, Step, OrdersFit, Justified;
    var f, t, e := Front(run), Last(run), LastEmitted(run);
    if m < |Log(f)| {
      StartIsFresh(f, m);
      assert Log(run)[..m] == Log(f)[..m];
    } else {
      var j := m - |Log(f)|;
      var k := Log(run)[m].key;
      LastEmittedJustified(run, e[j]);
      StateMatchesAnswers(f, k);
      OpenRunIsStreak(f, k);
      StreaksAreLogged(run, k);
      assert e == e[..j] + [e[j]] + e[j + 1..];
      LifeBefore(e[..j], e[j], e[j + 1..], k);
      assert Log(run)[..m] == Log(f) + e[..j];
      OpenedQuiet(Log(f), e[..j], k);
    }
  }
}
