/** The rules that read the tracked state: `crash_analysis` and `why_memory`. */
module Investigation {
  import opened Results
  import opened Model
  import opened Seqs
  import opened Tick
  import opened Runs
  import opened Lifecycle
  import Numerals

  datatype Severity = Info | Notice | Warning | Critical
  datatype Confidence = Unknown | Likely | Correlated | Observed

  datatype Evidence =
    | TimelineEvidence(event: Event)
    | KernelLogLine(line: string, collectedAt: int)
    | SnapshotEvidence(snap: Snapshot)
    | WindowStart(baseline: Sample, collectedAt: int)

  datatype Finding = Finding(severity: Severity, title: string, confidence: Confidence, evidence: seq<Evidence>)
  {
    /** `Finding::new`'s debug assertion: no claim above Unknown without evidence. */
    predicate Honest() { confidence.Unknown? || evidence != [] }
  }

  predicate IsExit(e: Event) { e.kind.Exited? }

  predicate IsGrowthBy(e: Event, at: int) { e.kind.MemoryGrowth? && e.at <= at }

  /** `ProcessIntelligence::timeline`: the retained events of a bare pid. */
  function EventsOf(timeline: seq<Event>, pid: Pid): seq<Event> {
    Filter((e: Event) => e.key.pid == pid, timeline)
  }

  function ExitEvent(events: seq<Event>): Option<Event> {
    Find(IsExit, events)
  }

  function GrowthBeforeExit(events: seq<Event>, exit: Event): Option<Event> {
    RFind((e: Event) => IsGrowthBy(e, exit.at), events)
  }

  function CrashAnalysis(events: seq<Event>, pid: Pid, oomLines: seq<string>): (f: Finding)
    ensures f.Honest()
    ensures f.severity.Critical? ==> Likely == f.confidence
    ensures f == Finding(Info, "Crash analysis", Unknown, []) <==> forall e :: e in events ==> !IsExit(e)
  {
    match ExitEvent(events)
    case None => Finding(Info, "Crash analysis", Unknown, [])
    case Some(exit) =>
      var growth := GrowthBeforeExit(events, exit);
      var oom := Find((l: string) => Contains(l, Numerals.IntText(pid)), oomLines);
      match (growth, oom)
      case (Some(g), Some(l)) =>
        Finding(Critical, "Likely OOM kill", Likely,
                [TimelineEvidence(exit), TimelineEvidence(g), KernelLogLine(l, exit.at)])
      case (None, Some(l)) =>
        Finding(Warning, "Possible OOM kill", Correlated,
                [TimelineEvidence(exit), KernelLogLine(l, exit.at)])
      case (Some(g), None) =>
        Finding(Notice, "Exit preceded by memory growth", Correlated,
                [TimelineEvidence(exit), TimelineEvidence(g)])
      case (None, None) => Finding(Info, "Exit, cause unclear", Unknown, [])
  }

  /** Log position g holds a growth event of the very run that ends at position x. */
  ghost predicate GrewInRunEndingAt(log: seq<Event>, g: nat, x: nat) {
    && g < x < |log|
    && log[g].kind.MemoryGrowth?
    && log[g].key == log[x].key
    && Opened(log[..g], log[g].key).Some?
    && Opened(log[..g], log[g].key) == Opened(log[..x], log[x].key)
  }

  /** First position at or after `from` of an exit of the bare pid. */
  ghost predicate FirstExitFrom(log: seq<Event>, from: nat, pid: Pid, x: nat) {
    && from <= x < |log|
    && log[x].key.pid == pid && IsExit(log[x])
    && forall i :: from <= i < x && log[i].key.pid == pid ==> !IsExit(log[i])
  }

  /** From a retained growth event of the pid to the pid's first retained exit no
      run of the growing generation starts or ends. */
  lemma QuietBetween(run: Run, from: nat, g: nat, x: nat)
    requires Possible(run)
    requires from <= g < x && x < |Log(run)|
    requires FirstExitFrom(Log(run), from, Log(run)[g].key.pid, x)
    requires Opened(Log(run)[..g], Log(run)[g].key).Some?
    ensures Opened(Log(run)[..x], Log(run)[g].key) == Opened(Log(run)[..g], Log(run)[g].key)
  {
    hide Opened, Emission.Life, Possible, Log;
    var log, k := Log(run), Log(run)[g].key;
    forall m | g <= m < x ensures log[m].key == k ==> !log[m].Lifecycle() {
      if log[m].key == k && log[m].kind.Started? {
        assert log[..m] == log[..g] + log[g..m];
        OpenedStays(log[..g], log[g..m], k);
        StartIsFresh(run, m);
      }
    }
    Emission.LifeNone(log[g..x], k);
    assert log[..x] == log[..g] + log[g..x];
    OpenedQuiet(log[..g], log[g..x], k);
  }

  /** The heart of the pairing: among retained events, a growth event of the pid
      stamped no later than the pid's first retained exit precedes it in the log and
      belongs to the same generation and the same unbroken run, even though both were
      looked up by bare pid, as long as the clock never steps back by a growth window. */
  lemma GrowthIsOfExitingRun(run: Run, from: nat, g: nat, x: nat, back: nat)
    requires Possible(run) && StepsBack(run, back) && back < GROWTH_WINDOW_SECS
    requires from <= g < |Log(run)| && x < |Log(run)|
    requires IsGrowthBy(Log(run)[g], Log(run)[x].at)
    requires FirstExitFrom(Log(run), from, Log(run)[g].key.pid, x)
    ensures GrewInRunEndingAt(Log(run), g, x)
  {
    hide Opened, Emission.Life, Possible, Log, StepsBack;
    var log, k := Log(run), Log(run)[g].key;
    GrowthFallsInRun(run, g);
    var o := Opened(log[..g], k).value;
    assert log[o].at < log[x].at;
    ExitIsAlone(run, x, k);
    if g < x {
      QuietBetween(run, from, g, x);
    } else {
      assert !(x <= o);
      assert log[..g] == log[..x] + log[x..g];
      if k == log[x].key {
        OpenedUnbroken(log[..g], k, x);
      } else {
        OpenedWhere(log[..x], log[x..g], k);
      }
      assert false;
    }
  }

  /** How many of the run's events the bounded timeline has evicted. */
  function Evicted(run: Run): nat {
    if |Log(run)| <= TIMELINE_CAPACITY then 0 else |Log(run)| - TIMELINE_CAPACITY
  }

  /** Searching the events of the pid finds its first retained exit. */
  lemma ExitIsFirstRetained(log: seq<Event>, from: nat, pid: Pid) returns (x: nat)
    requires from <= |log| && ExitEvent(EventsOf(log[from..], pid)).Some?
    ensures FirstExitFrom(log, from, pid, x)
    ensures log[x] == ExitEvent(EventsOf(log[from..], pid)).value
  {
    hide FirstIndex, Filter;
    var tl := log[from..];
    var ofPid := (e: Event) => e.key.pid == pid;
    FindInFilter(ofPid, IsExit, tl);
    var both := (e: Event) => ofPid(e) && IsExit(e);
    assert Find(both, tl) == ExitEvent(EventsOf(tl, pid));
    x := from + FirstIndex(both, tl).value;
    forall j | from <= j < x && log[j].key.pid == pid ensures !IsExit(log[j]) {
      assert !both(tl[j - from]);
    }
  }

  /** Searching backwards finds a retained growth event of the pid no later than
      the exit, if there is one. */
  lemma GrowthIsRetained(log: seq<Event>, from: nat, pid: Pid, exit: Event) returns (g: nat)
    requires from <= |log|
    ensures var growth := GrowthBeforeExit(EventsOf(log[from..], pid), exit);
            if growth.Some? then
              && from <= g < |log| && log[g] == growth.value
              && log[g].key.pid == pid && IsGrowthBy(log[g], exit.at)
            else
              forall i :: from <= i < |log| && log[i].key.pid == pid ==> !IsGrowthBy(log[i], exit.at)
  {
    hide LastIndex, Filter;
    var tl := log[from..];
    var ofPid, growing := (e: Event) => e.key.pid == pid, (e: Event) => IsGrowthBy(e, exit.at);
    FindInFilter(ofPid, growing, tl);
    var both := (e: Event) => ofPid(e) && growing(e);
    assert RFind(both, tl) == GrowthBeforeExit(EventsOf(tl, pid), exit);
    g := 0;
    if LastIndex(both, tl).Some? {
      g := from + LastIndex(both, tl).value;
    } else {
      forall i | from <= i < |log| && log[i].key.pid == pid ensures !IsGrowthBy(log[i], exit.at) {
        assert !both(tl[i - from]);
      }
    }
  }

  /** Retained log position i holds growth of the run ending at x, stamped in time. */
  ghost predicate BlamableGrowth(run: Run, i: nat, x: nat) {
    Evicted(run) <= i && GrewInRunEndingAt(Log(run), i, x) && Log(run)[i].at <= Log(run)[x].at
  }

  /** Unless the clock steps back by an hour or more, crash_analysis blames memory
      growth exactly when a growth event of the run that ended in the pid's first
      retained exit is itself still retained and not stamped after the exit, and the
      event it cites is such an event, despite lookup by bare pid, pid reuse within one
      tick and eviction from the timeline. */
  lemma CrashAnalysisBlamesOneRun(run: Run, pid: Pid, oomLines: seq<string>, back: nat) returns (x: nat, g: nat)
    requires Possible(run) && StepsBack(run, back) && back < GROWTH_WINDOW_SECS
    requires ExitEvent(EventsOf(StateAfter(run).timeline, pid)).Some?
    ensures FirstExitFrom(Log(run), Evicted(run), pid, x)
    ensures var finding := CrashAnalysis(EventsOf(StateAfter(run).timeline, pid), pid, oomLines);
            && (finding.severity in {Critical, Notice} <==> exists i :: BlamableGrowth(run, i, x))
            && (finding.severity in {Critical, Notice} ==>
                BlamableGrowth(run, g, x)
                && finding.evidence[..2] == [TimelineEvidence(Log(run)[x]), TimelineEvidence(Log(run)[g])])
  {
    hide Log, Possible, Opened, StateAfter, EventsOf, GrowthBeforeExit, ExitEvent, StepsBack, CrashAnalysis;
    var events, log, from := EventsOf(StateAfter(run).timeline, pid), Log(run), Evicted(run);
    TimelineIsLogTail(run);
    assert StateAfter(run).timeline == log[from..];
    x := ExitIsFirstRetained(log, from, pid);
    g := GrowthIsRetained(log, from, pid, log[x]);
    if GrowthBeforeExit(events, log[x]).Some? {
      GrowthIsOfExitingRun(run, from, g, x, back);
      assert BlamableGrowth(run, g, x);
    } else {
      NoneBlamable(run, pid, x);
    }
    VerdictOnGrowth(events, pid, oomLines);
  }

  lemma NoneBlamable(run: Run, pid: Pid, x: nat)
    requires x < |Log(run)| && Log(run)[x].key.pid == pid
    requires forall i :: Evicted(run) <= i < |Log(run)| && Log(run)[i].key.pid == pid ==>
               !IsGrowthBy(Log(run)[i], Log(run)[x].at)
    ensures forall i :: !BlamableGrowth(run, i, x)
  {
    hide Log, Opened;
  }

  /** The verdict blames growth exactly when the backward search found some, and then
      cites the exit first and that growth second. */
  lemma VerdictOnGrowth(events: seq<Event>, pid: Pid, oomLines: seq<string>)
    requires ExitEvent(events).Some?
    ensures var exit, f := ExitEvent(events).value, CrashAnalysis(events, pid, oomLines);
            && (f.severity in {Critical, Notice} <==> GrowthBeforeExit(events, exit).Some?)
            && (f.severity in {Critical, Notice} ==>
                f.evidence[..2] ==
                [TimelineEvidence(exit), TimelineEvidence(GrowthBeforeExit(events, exit).value)])
  {
    hide ExitEvent, GrowthBeforeExit, Find, Seqs.Contains;
  }

  // ---- why_memory ---------------------------------------------------------------

  /** `history` is what `ProcessIntelligence::history` answers for the pid. */
  function WhyMemory(current: map<Pid, Snapshot>, history: seq<Sample>, pid: Pid): (f: Finding)
    ensures f.Honest()
  {
    if pid !in current then Finding(Info, "Process not found", Unknown, [])
    else
      var process := current[pid];
      var evidence := [SnapshotEvidence(process)];
      if |history| < 2 then Finding(Info, "Memory usage", Observed, evidence)
      else
        var baseline, latest := history[0], Last(history);
        if baseline.snap.rss == 0 then Finding(Info, "Memory usage", Observed, evidence)
        else
          var growth := GrowthPercent(process.rss, baseline.snap.rss);
          var withWindow := evidence + [WindowStart(baseline, latest.at)];
          if latest.at - baseline.at >= GROWTH_WINDOW_SECS && growth >= GROWTH_THRESHOLD_PERCENT then
            Finding(Warning, "Sustained memory growth", Likely, withWindow)
          else
            Finding(Info, "Memory usage", Correlated, withWindow)
  }

  /** While a pid is live, why_memory compares two readings of one unbroken streak of one
      generation, never across a gap in the readings nor across pid reuse: the oldest it
      still has and the latest. It warns exactly if they are an hour apart and the RSS has
      grown by half, and says nothing worse or milder than Info otherwise. */
  lemma WhyMemoryStaysInStreak(run: Run, k: Key)
    requires Possible(run) && Live(StateAfter(run).current, k)
    ensures var s, streak := StateAfter(run), Samples(run, k);
            var f := WhyMemory(s.current, HistoryOf(s, k), k.pid);
            && streak != []
            && var kept, last := LastN(HISTORY_CAPACITY, streak), Last(streak);
            var warns := && kept[0].snap.rss > 0 && last.at - kept[0].at >= GROWTH_WINDOW_SECS
                         && 2 * last.snap.rss >= 3 * kept[0].snap.rss;
            var unassessed := |kept| < 2 || kept[0].snap.rss == 0;
            && f.severity == (if warns then Warning else Info)
            && f.confidence == (if warns then Likely else if unassessed then Observed else Correlated)
            && f.title == (if warns then "Sustained memory growth" else "Memory usage")
            && f.evidence == [SnapshotEvidence(last.snap)]
                             + if unassessed then [] else [WindowStart(kept[0], last.at)]
  {
    hide StateAfter, Samples, GrowthPercent;
    StateMatchesAnswers(run, k);
    assert Tracked(run, k) == Samples(run, k);
    var base := LastN(HISTORY_CAPACITY, Samples(run, k))[0].snap.rss;
    if base > 0 {
      ThresholdIsHalf(Last(Samples(run, k)).snap.rss, base);
    }
  }

  /** Of a pid with no live generation it says that it is not there, without evidence. */
  lemma WhyMemoryOfAbsent(run: Run, pid: Pid, history: seq<Sample>)
    requires Possible(run) && forall k: Key :: k.pid == pid ==> Samples(run, k) == []
    ensures WhyMemory(StateAfter(run).current, history, pid) == Finding(Info, "Process not found", Unknown, [])
  {
    hide StateAfter, Samples, Possible;
    var s := StateAfter(run);
    if pid in s.current {
      StateMatchesAnswers(run, Key(pid, s.current[pid].startTime));
    }
  }
}
