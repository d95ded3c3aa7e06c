/** One `refresh_at` call as a transformation of plain values: what a tick makes
    of the tracked state and of the adapter's answers. The mutable object that
    performs it is `ProcessIntelligence` in Intelligence.dfy. */
module Tick {
  import opened Results
  import opened Model
  import opened Seqs

  const HISTORY_CAPACITY: nat := 120
  const TIMELINE_CAPACITY: nat := 1000
  const GROWTH_WINDOW_SECS: nat := 3600
  const GROWTH_THRESHOLD_PERCENT := 50.0
  const CLK_TCK := 100.0

  datatype State = State(
    current: map<Pid, Snapshot>,
    history: map<Key, seq<Sample>>,
    seen: map<Key, set<string>>,
    timeline: seq<Event>,
    stale: seq<Key>)

  const EMPTY_STATE := State(map[], map[], map[], [], [])

  /** Everything the adapter says during one tick. A pid without an entry in
      `procs` is a failed process read, one without an entry in `conns` a failed
      connection read. */
  datatype Answer =
    | ListFailed
    | Listed(pids: seq<Pid>, procs: map<Pid, Snapshot>, conns: map<Pid, seq<Connection>>)
  {
    /** A directory listing names no pid twice. */
    predicate Distinct() { Listed? ==> NoDup(pids) }

    /** The tick listed k's pid and read it with k's start time. */
    predicate Reports(k: Key) {
      Listed? && k.pid in pids && k.pid in procs && procs[k.pid].startTime == k.start
    }
  }

  /** The hash-set iteration orders one tick happens to use. */
  datatype Orders = Orders(addrs: map<Pid, seq<string>>, exits: seq<Key>, stale: seq<Key>)

  predicate Live(current: map<Pid, Snapshot>, k: Key) {
    k.pid in current && current[k.pid].startTime == k.start
  }

  function KeysOf(current: map<Pid, Snapshot>): (keys: set<Key>)
    ensures forall k :: k in keys <==> Live(current, k)
  {
    set p | p in current :: Key(p, current[p].startTime)
  }

  /** The deferred removal of last tick's exits, done first thing every tick. */
  function Pruned(s: State): State {
    var dead := Elements(s.stale);
    s.(history := s.history - dead, seen := s.seen - dead, stale := [])
  }

  function CpuPercent(prevTicks: nat, ticks: nat, elapsed: int): real {
    if elapsed <= 0 then 0.0
    else (if ticks > prevTicks then ticks - prevTicks else 0) as real / CLK_TCK / elapsed as real * 100.0
  }

  /** A reading of a process whose earlier readings are `before`: the first keeps
      the adapter's percentage, later ones get the rate since the previous one. */
  function Rated(before: seq<Sample>, now: int, snap: Snapshot): Snapshot {
    if before == [] then snap
    else snap.(percent := CpuPercent(Last(before).snap.TotalTicks(), snap.TotalTicks(), now - Last(before).at))
  }

  /** The newest entry at least a growth window old. */
  function Baseline(hist: seq<Sample>, now: int): Option<Sample> {
    if hist == [] then None
    else if now - Last(hist).at >= GROWTH_WINDOW_SECS then Some(Last(hist))
    else Baseline(Front(hist), now)
  }

  function HistoryOf(s: State, k: Key): seq<Sample> {
    if k in s.history then s.history[k] else []
  }

  function SeenBy(s: State, k: Key): set<string> {
    if k in s.seen then s.seen[k] else {}
  }

  /** Some of the connections goes to the address, which is not empty. */
  predicate ConnectedTo(conns: seq<Connection>, addr: string) {
    addr != "" && exists c :: c in conns && c.remoteAddr == addr
  }

  function Remotes(conns: seq<Connection>): (addrs: set<string>)
    ensures forall addr :: addr in addrs <==> ConnectedTo(conns, addr)
  {
    set c | c in conns && c.remoteAddr != "" :: c.remoteAddr
  }

  // The functions below describe the pass over the listing: `s` is the pruned
  // state the pass starts from, `n` how many listed pids it has dealt with.

  function ReadPids(ans: Answer, n: nat): set<Pid>
    requires ans.Listed? && n <= |ans.pids|
  {
    set p | p in ans.pids[..n] && p in ans.procs
  }

  function CurrentAfter(s: State, now: int, ans: Answer, n: nat): map<Pid, Snapshot>
    requires ans.Listed? && n <= |ans.pids|
  {
    map p | p in ReadPids(ans, n) ::
      Rated(HistoryOf(s, Key(p, ans.procs[p].startTime)), now, ans.procs[p])
  }

  function HistoryAfter(s: State, now: int, ans: Answer, n: nat): map<Key, seq<Sample>>
    requires ans.Listed? && n <= |ans.pids|
  {
    var cur := CurrentAfter(s, now, ans, n);
    map k | k in s.history.Keys + KeysOf(cur) ::
      if Live(cur, k) then LastN(HISTORY_CAPACITY, HistoryOf(s, k) + [Sample(now, cur[k.pid])])
      else HistoryOf(s, k)
  }

  function SeenAfter(s: State, now: int, ans: Answer, n: nat): map<Key, set<string>>
    requires ans.Listed? && n <= |ans.pids|
  {
    var cur := CurrentAfter(s, now, ans, n);
    map k | k in s.seen.Keys + (set k' | k' in KeysOf(cur) && k'.pid in ans.conns) ::
      if Live(cur, k) && k.pid in ans.conns then Remotes(ans.conns[k.pid]) else SeenBy(s, k)
  }

  function StartEvents(s: State, now: int, ans: Answer, n: nat): seq<Event>
    requires ans.Listed? && n < |ans.pids| && ans.pids[n] in ans.procs
  {
    var pid := ans.pids[n];
    var snap := ans.procs[pid];
    var earlier := CurrentAfter(s, now, ans, n);
    if Live(s.current, Key(pid, snap.startTime)) then []
    else
      [Event(Key(pid, snap.startTime), now, Started)] +
      if snap.ppid in earlier then
        [Event(Key(snap.ppid, earlier[snap.ppid].startTime), now, NewChild(pid))]
      else if snap.ppid in s.current then
        [Event(Key(snap.ppid, s.current[snap.ppid].startTime), now, NewChild(pid))]
      else []
  }

  function GrowthPercent(rss: nat, base: nat): real
    requires base > 0
  {
    (rss as real - base as real) / base as real * 100.0
  }

  function GrowthEvents(hist: seq<Sample>, now: int, k: Key, rss: nat): seq<Event> {
    match Baseline(hist, now)
    case None => []
    case Some(b) =>
      if b.snap.rss > 0 && GrowthPercent(rss, b.snap.rss) >= GROWTH_THRESHOLD_PERCENT then
        [Event(k, now, MemoryGrowth(GrowthPercent(rss, b.snap.rss), GROWTH_WINDOW_SECS))]
      else []
  }

  function ConnectionEvents(now: int, k: Key, addrs: seq<string>): seq<Event> {
    seq(|addrs|, i requires 0 <= i < |addrs| => Event(k, now, NewConnection(addrs[i])))
  }

  function PidEvents(s: State, now: int, ans: Answer, addrs: map<Pid, seq<string>>, n: nat): seq<Event>
    requires ans.Listed? && n < |ans.pids|
  {
    var pid := ans.pids[n];
    if pid !in ans.procs then []
    else
      var k := Key(pid, ans.procs[pid].startTime);
      StartEvents(s, now, ans, n)
      + GrowthEvents(HistoryOf(s, k), now, k, ans.procs[pid].rss)
      + if pid in ans.conns && pid in addrs then ConnectionEvents(now, k, addrs[pid]) else []
  }

  function EventsAfter(s: State, now: int, ans: Answer, addrs: map<Pid, seq<string>>, n: nat): seq<Event>
    requires ans.Listed? && n <= |ans.pids|
  {
    if n == 0 then []
    else EventsAfter(s, now, ans, addrs, n - 1) + PidEvents(s, now, ans, addrs, n - 1)
  }

  function ExitEvents(now: int, exits: seq<Key>): seq<Event> {
    seq(|exits|, i requires 0 <= i < |exits| => Event(exits[i], now, Exited(None)))
  }

  function NewCurrent(s: State, now: int, ans: Answer): map<Pid, Snapshot> {
    if ans.ListFailed? then s.current else CurrentAfter(Pruned(s), now, ans, |ans.pids|)
  }

  /** The generations that were live before the tick and are not after it. */
  function Gone(s: State, now: int, ans: Answer): set<Key> {
    KeysOf(s.current) - KeysOf(NewCurrent(s, now, ans))
  }

  /** `ord` is a possible outcome of iterating the three hash-set differences. */
  predicate OrdersFit(s: State, now: int, ans: Answer, ord: Orders) {
    ans.Listed? ==>
      && Enumerates(ord.exits, Gone(s, now, ans))
      && Enumerates(ord.stale, Gone(s, now, ans))
      && forall p :: p in ans.pids && p in ans.procs && p in ans.conns ==>
           p in ord.addrs
           && Enumerates(ord.addrs[p],
                         Remotes(ans.conns[p]) - SeenBy(Pruned(s), Key(p, ans.procs[p].startTime)))
  }

  /** Everything the tick appends to the event log, in order. */
  function Emitted(s: State, now: int, ans: Answer, ord: Orders): seq<Event> {
    if ans.ListFailed? then []
    else EventsAfter(Pruned(s), now, ans, ord.addrs, |ans.pids|) + ExitEvents(now, ord.exits)
  }

  /** The whole tick. A failed listing has already pruned and changes nothing else. */
  function Step(s: State, now: int, ans: Answer, ord: Orders): State {
    var p := Pruned(s);
    if ans.ListFailed? then p
    else
      State(
        CurrentAfter(p, now, ans, |ans.pids|),
        HistoryAfter(p, now, ans, |ans.pids|),
        SeenAfter(p, now, ans, |ans.pids|),
        LastN(TIMELINE_CAPACITY, s.timeline + Emitted(s, now, ans, ord)),
        ord.stale)
  }

  /** After the whole pass, exactly the generations the answers report are live. */
  lemma CurrentAtEnd(s: State, now: int, ans: Answer, k: Key)
    requires ans.Listed?
    ensures Live(CurrentAfter(s, now, ans, |ans.pids|), k) <==> ans.Reports(k)
    ensures ans.Reports(k) ==>
              CurrentAfter(s, now, ans, |ans.pids|)[k.pid] == Rated(HistoryOf(s, k), now, ans.procs[k.pid])
  {
    assert ans.pids[..|ans.pids|] == ans.pids;
  }

  // ---- What the rates and thresholds mean -------------------------------------------

  /** At 100 clock ticks a second the percentage is the ticks used per second elapsed;
      counters running backwards and times standing still give zero. */
  lemma CpuPercentIsRate(prevTicks: nat, ticks: nat, elapsed: int)
    ensures elapsed <= 0 || ticks <= prevTicks ==> CpuPercent(prevTicks, ticks, elapsed) == 0.0
    ensures elapsed > 0 && ticks > prevTicks ==>
              CpuPercent(prevTicks, ticks, elapsed) * elapsed as real == (ticks - prevTicks) as real
  {
    if elapsed > 0 && ticks > prevTicks {
      var used, secs := (ticks - prevTicks) as real, elapsed as real;
      DivideBack(used / CLK_TCK, secs);
      var r := used / CLK_TCK / secs;
      assert CpuPercent(prevTicks, ticks, elapsed) * secs == r * 100.0 * secs == r * secs * 100.0;
    }
  }

  /** x's percentage times the seconds since prev is the ticks used since prev; it is
      zero for a clock or counter that did not advance. */
  predicate CarriesRate(prev: Sample, x: Sample) {
    var elapsed, used := x.at - prev.at, x.snap.TotalTicks() - prev.snap.TotalTicks();
    if elapsed > 0 && used > 0 then x.snap.percent * elapsed as real == used as real
    else x.snap.percent == 0.0
  }

  lemma RatedCarriesRate(before: seq<Sample>, now: int, snap: Snapshot)
    requires before != []
    ensures CarriesRate(Last(before), Sample(now, Rated(before, now, snap)))
  {
    hide CpuPercent;
    CpuPercentIsRate(Last(before).snap.TotalTicks(), snap.TotalTicks(), now - Last(before).at);
  }

  lemma DivideBack(d: real, b: real)
    requires b > 0.0
    ensures d / b * b == d
  {
  }

  lemma ScaleOrder(x: real, y: real, b: real)
    requires b > 0.0
    ensures x <= y <==> x * b <= y * b
  {
    assert (y - x) * b == y * b - x * b;
  }

  /** The growth percentage is the part of the baseline by which the RSS differs. */
  lemma GrowthPercentIsShare(rss: nat, base: nat)
    requires base > 0
    ensures GrowthPercent(rss, base) * base as real == 100.0 * (rss as real - base as real)
  {
    var d, b := rss as real - base as real, base as real;
    DivideBack(d, b);
    assert d / b * 100.0 * b == d / b * b * 100.0;
  }

  lemma HalfShare(d: real, b: real)
    requires b > 0.0
    ensures d / b * 100.0 >= 50.0 <==> 2.0 * d >= b
  {
    var q := d / b;
    DivideBack(d, b);
    ScaleOrder(0.5, q, b);
    assert q * 100.0 >= 50.0 <==> q >= 0.5;
  }

  /** Crossing the threshold means having grown by at least half. */
  lemma ThresholdIsHalf(rss: nat, base: nat)
    requires base > 0
    ensures GrowthPercent(rss, base) >= GROWTH_THRESHOLD_PERCENT <==> 2 * rss >= 3 * base
  {
    HalfShare(rss as real - base as real, base as real);
  }

  /** The baseline is the newest retained reading a full window old, if any is. */
  lemma {:induction false} BaselineIsNewest(hist: seq<Sample>, now: int)
    ensures Baseline(hist, now).None? <==>
            forall i :: 0 <= i < |hist| ==> now - hist[i].at < GROWTH_WINDOW_SECS
    ensures Baseline(hist, now).Some? ==>
              exists i :: 0 <= i < |hist| && hist[i] == Baseline(hist, now).value
                          && now - hist[i].at >= GROWTH_WINDOW_SECS
                          && forall j :: i < j < |hist| ==> now - hist[j].at < GROWTH_WINDOW_SECS
  {
    if hist != [] {
      if now - Last(hist).at >= GROWTH_WINDOW_SECS {
        assert hist[|hist| - 1] == Last(hist);
      } else {
        BaselineIsNewest(Front(hist), now);
        if Baseline(hist, now).Some? {
          var i :| 0 <= i < |Front(hist)| && Front(hist)[i] == Baseline(hist, now).value
                   && now - Front(hist)[i].at >= GROWTH_WINDOW_SECS
                   && forall j :: i < j < |Front(hist)| ==> now - Front(hist)[j].at < GROWTH_WINDOW_SECS;
          assert hist[i] == Front(hist)[i];
          forall j | i < j < |hist| ensures now - hist[j].at < GROWTH_WINDOW_SECS {
            assert j < |hist| - 1 ==> hist[j] == Front(hist)[j];
          }
        }
      }
    }
  }
}
