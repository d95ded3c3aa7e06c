/** Which kernel-log line `crash_analysis` cites. It accepts a line that contains the
    pid's digits anywhere: also in a time, in a size, or inside a longer number. */
module KernelLog {
  import opened Results
  import opened Model
  import opened Seqs
  import opened Numerals
  import opened Investigation

  /** line[i..j] is a whole number of the line: digits, with no digit on either side. */
  predicate Number(line: string, i: nat, j: nat) {
    && i < j <= |line|
    && (forall n :: i <= n < j ==> IsDigit(line[n]))
    && (i > 0 ==> !IsDigit(line[i - 1]))
    && (j < |line| ==> !IsDigit(line[j]))
  }

  /** The line records the pid's own kill: the pid is the number right after these words. */
  const KILLED := "Killed process "

  ghost predicate Records(line: string, pid: nat) {
    exists i: nat, j: nat ::
      Number(line, i, j) && line[i..j] == NatText(pid) && |KILLED| <= i && line[i - |KILLED|..i] == KILLED
  }

  /** Some number of the line is the pid, whatever the number stands for. */
  ghost predicate Names(line: string, pid: nat) {
    exists i: nat, j: nat :: Number(line, i, j) && line[i..j] == NatText(pid)
  }

  /** Some longer number of the line has the pid's digits within it. */
  ghost predicate NamesLonger(line: string, pid: nat) {
    exists i: nat, j: nat :: Number(line, i, j) && |NatText(pid)| < j - i && Contains(line[i..j], NatText(pid))
  }

  predicate At<T(==)>(s: seq<T>, part: seq<T>, i: nat) {
    i + |part| <= |s| && forall n :: 0 <= n < |part| ==> s[i + n] == part[n]
  }

  lemma AtStart<T>(s: seq<T>, part: seq<T>)
    ensures At(s, part, 0) <==> part <= s
  {
  }

  lemma AtLater<T>(s: seq<T>, part: seq<T>, i: nat)
    requires s != []
    ensures At(s, part, i + 1) <==> At(s[1..], part, i)
  {
    if At(s, part, i + 1) {
      forall n | 0 <= n < |part| ensures s[1..][i + n] == part[n] {
        assert s[i + 1 + n] == part[n];
      }
    }
    if At(s[1..], part, i) {
      forall n | 0 <= n < |part| ensures s[i + 1 + n] == part[n] {
        assert s[1..][i + n] == part[n];
      }
    }
  }

  lemma {:induction false} ContainsIffAt<T>(s: seq<T>, part: seq<T>)
    ensures Contains(s, part) <==> exists i: nat :: At(s, part, i)
  {
    hide At;
    AtStart(s, part);
    if s == [] {
      forall i: nat | At(s, part, i) ensures part <= s {
        AtLength(s, part, i);
      }
    } else {
      ContainsIffAt(s[1..], part);
      forall i: nat ensures At(s, part, i + 1) <==> At(s[1..], part, i) {
        AtLater(s, part, i);
      }
      forall i: nat | At(s, part, i) ensures Contains(s, part) {
        assert i > 0 ==> At(s[1..], part, i - 1);
      }
    }
  }

  lemma AtLength<T>(s: seq<T>, part: seq<T>, i: nat)
    requires At(s, part, i)
    ensures i + |part| <= |s|
  {
  }

  /** The start and the end of the number around a stretch of digits. */
  function Leftmost(line: string, i: nat): (r: nat)
    requires i <= |line|
    ensures r <= i && (forall n :: r <= n < i ==> IsDigit(line[n])) && (r > 0 ==> !IsDigit(line[r - 1]))
  {
    if i > 0 && IsDigit(line[i - 1]) then Leftmost(line, i - 1) else i
  }

  function Rightmost(line: string, j: nat): (r: nat)
    requires j <= |line|
    ensures j <= r <= |line| && (forall n :: j <= n < r ==> IsDigit(line[n])) && (r < |line| ==> !IsDigit(line[r]))
    decreases |line| - j
  {
    if j < |line| && IsDigit(line[j]) then Rightmost(line, j + 1) else j
  }

  /** Digits found in a line are found in the number around them. */
  lemma AroundDigits(line: string, digits: string, at: nat) returns (i: nat, j: nat)
    requires digits != [] && AllDigits(digits) && At(line, digits, at)
    ensures Number(line, i, j) && i <= at && At(line[i..j], digits, at - i)
  {
    i, j := Leftmost(line, at), Rightmost(line, at + |digits|);
    forall n | at <= n < at + |digits| ensures IsDigit(line[n]) {
      assert line[n] == digits[n - at];
    }
    forall n | 0 <= n < |digits| ensures line[i..j][at - i + n] == digits[n] {}
  }

  lemma AtInPart<T>(s: seq<T>, part: seq<T>, i: nat, j: nat, n: nat)
    requires i <= j <= |s| && At(s[i..j], part, n)
    ensures At(s, part, i + n)
  {
    forall m | 0 <= m < |part| ensures s[i + n + m] == part[m] {
      assert s[i..j][n + m] == s[i + n + m];
    }
  }

  /** A stretch of digits occurs in a line exactly when it occurs in one of its numbers. */
  lemma ContainsInNumber(line: string, digits: string)
    requires digits != [] && AllDigits(digits)
    ensures Contains(line, digits) <==> exists i: nat, j: nat :: Number(line, i, j) && Contains(line[i..j], digits)
  {
    hide At, Contains;
    ContainsIffAt(line, digits);
    if at: nat :| At(line, digits, at) {
      var i, j := AroundDigits(line, digits, at);
      ContainsIffAt(line[i..j], digits);
      assert Contains(line[i..j], digits);
    }
    if i: nat, j: nat :| Number(line, i, j) && Contains(line[i..j], digits) {
      ContainsIffAt(line[i..j], digits);
      var n: nat :| At(line[i..j], digits, n);
      AtInPart(line, digits, i, j, n);
    }
  }

  /** Exactly the lines the substring test accepts: those that name the pid and those
      that have its digits in a longer number. */
  lemma MatchesIffNamed(line: string, pid: nat)
    ensures Contains(line, IntText(pid)) <==> Names(line, pid) || NamesLonger(line, pid)
  {
    var digits := NatText(pid);
    ContainsInNumber(line, digits);
    if i: nat, j: nat :| Number(line, i, j) && Contains(line[i..j], digits) {
      ContainsIffAt(line[i..j], digits);
      var n: nat :| At(line[i..j], digits, n);
      if |digits| == j - i {
        assert line[i..j] == digits;
      }
    }
    if i: nat, j: nat :| Number(line, i, j) && line[i..j] == digits {
      ContainsIffAt(line[i..j], digits);
      assert At(line[i..j], digits, 0);
    }
  }

  /** The substring test on kernel lines. */
  predicate Matches(line: string, pid: Pid) { Contains(line, IntText(pid)) }

  /** x is the first exit among the events. */
  predicate FirstExit(events: seq<Event>, x: nat) {
    x < |events| && IsExit(events[x]) && forall i :: 0 <= i < x ==> !IsExit(events[i])
  }

  /** g is the last growth among the events stamped no later than `at`. */
  predicate LastGrowth(events: seq<Event>, at: int, g: nat) {
    g < |events| && IsGrowthBy(events[g], at) && forall i :: g < i < |events| ==> !IsGrowthBy(events[i], at)
  }

  /** l is the first line that matches the pid. */
  predicate FirstMatch(lines: seq<string>, pid: Pid, l: nat) {
    l < |lines| && Matches(lines[l], pid) && forall i :: 0 <= i < l ==> !Matches(lines[i], pid)
  }

  /** What crash_analysis concludes once the events hold an exit. The kernel log is
      blamed exactly when some line matches and the first such line is cited last;
      growth is blamed exactly when some is stamped no later than the exit and the last
      such event is cited second; the first exit is cited first, and nothing else is. */
  lemma CrashVerdict(events: seq<Event>, pid: Pid, lines: seq<string>, x: nat)
    requires FirstExit(events, x)
    ensures var f, exit := CrashAnalysis(events, pid, lines), events[x];
            var killed, grew := f.severity in {Critical, Warning}, f.severity in {Critical, Notice};
            && (killed <==> exists l :: 0 <= l < |lines| && Matches(lines[l], pid))
            && (grew <==> exists g :: 0 <= g < |events| && IsGrowthBy(events[g], exit.at))
            && (|f.evidence| == if killed && grew then 3 else if killed || grew then 2 else 0)
            && (f.evidence != [] ==> f.evidence[0] == TimelineEvidence(exit))
            && (forall l: nat :: FirstMatch(lines, pid, l) ==>
                  killed && Last(f.evidence) == KernelLogLine(lines[l], exit.at))
            && (forall g: nat :: LastGrowth(events, exit.at, g) ==>
                  grew && f.evidence[1] == TimelineEvidence(events[g]))
            && (f.confidence == if killed && grew then Likely else if killed || grew then Correlated else Unknown)
            && (f.title == "Likely OOM kill" <==> killed && grew)
            && (f.title == "Possible OOM kill" <==> killed && !grew)
            && (f.title == "Exit preceded by memory growth" <==> !killed && grew)
            && (f.title == "Exit, cause unclear" <==> !killed && !grew)
  {
    hide Contains, IntText;
    assert FirstIndex(IsExit, events) == Some(x);
    var matching := (l: string) => Contains(l, IntText(pid));
    var growing := (e: Event) => IsGrowthBy(e, events[x].at);
    var line, growth := FirstIndex(matching, lines), LastIndex(growing, events);
    assert ExitEvent(events) == Some(events[x]);
    forall l: nat | FirstMatch(lines, pid, l) ensures line == Some(l) {
      assert matching(lines[l]);
    }
    forall g: nat | LastGrowth(events, events[x].at, g) ensures growth == Some(g) {
      assert growing(events[g]);
    }
  }

  /** A line that records the pid's kill names the pid, and so matches. */
  lemma RecordsMatch(line: string, pid: Pid)
    requires pid >= 0
    ensures Matches(line, pid) <==> Names(line, pid) || NamesLonger(line, pid)
    ensures Records(line, pid) ==> Names(line, pid)
  {
    hide NatText, Contains;
    MatchesIffNamed(line, pid);
  }

  /** Exactly when an exit is put down to an out-of-memory kill if and only if the log
      records one of that pid: when it does, or else when no line has the pid's digits
      in any number. */
  lemma KillBlamedRightly(events: seq<Event>, pid: Pid, lines: seq<string>)
    requires pid >= 0 && ExitEvent(events).Some?
    ensures var killed := CrashAnalysis(events, pid, lines).severity in {Critical, Warning};
            var recorded := exists line :: line in lines && Records(line, pid);
            (killed <==> recorded)
            <==> (recorded || forall line :: line in lines ==> !Names(line, pid) && !NamesLonger(line, pid))
  {
    hide Contains, Names, NamesLonger, Records, CrashAnalysis;
    CrashVerdict(events, pid, lines, FirstIndex(IsExit, events).value);
    forall line ensures Matches(line, pid) <==> Names(line, pid) || NamesLonger(line, pid)
                ensures Records(line, pid) ==> Names(line, pid) {
      RecordsMatch(line, pid);
    }
    assert forall line :: line in lines <==> exists l :: 0 <= l < |lines| && lines[l] == line;
  }

  /** The finding cites, last, a kernel line that records the pid's kill. */
  ghost predicate CitesRecord(f: Finding, pid: nat) {
    && f.severity in {Critical, Warning} && f.evidence != []
    && Last(f.evidence).KernelLogLine? && Records(Last(f.evidence).line, pid)
  }

  /** Line l records the pid's kill and no earlier line has its digits in any number. */
  ghost predicate RecordsFirst(lines: seq<string>, pid: nat, l: nat) {
    && l < |lines| && Records(lines[l], pid)
    && forall i :: 0 <= i < l ==> !Names(lines[i], pid) && !NamesLonger(lines[i], pid)
  }

  /** Exactly when the line cited records the kill of the pid itself: when a line that
      does comes before every other line with the pid's digits in it. */
  lemma KillCitedRightly(events: seq<Event>, pid: Pid, lines: seq<string>)
    requires pid >= 0 && ExitEvent(events).Some?
    ensures CitesRecord(CrashAnalysis(events, pid, lines), pid) <==> exists l :: RecordsFirst(lines, pid, l)
  {
    hide Contains, Names, NamesLonger, Records, CrashAnalysis, Matches;
    CrashVerdict(events, pid, lines, FirstIndex(IsExit, events).value);
    forall line ensures Matches(line, pid) <==> Names(line, pid) || NamesLonger(line, pid)
                ensures Records(line, pid) ==> Names(line, pid) {
      RecordsMatch(line, pid);
    }
    var matching := (line: string) => Matches(line, pid);
    if l: nat :| RecordsFirst(lines, pid, l) {
      assert FirstMatch(lines, pid, l);
    }
    if FirstIndex(matching, lines).Some? {
      var l := FirstIndex(matching, lines).value;
      assert matching(lines[l]) && forall i :: 0 <= i < l ==> !matching(lines[i]);
      assert FirstMatch(lines, pid, l);
      if CitesRecord(CrashAnalysis(events, pid, lines), pid) {
        assert RecordsFirst(lines, pid, l);
      }
    } else {
      assert forall i :: 0 <= i < |lines| ==> !matching(lines[i]);
    }
  }
}
