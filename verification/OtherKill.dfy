/** Two kernel lines about the kill of process 123 that are blamed for the exit of
    process 12: one has 12 inside the longer pid, the other as a size. */
module OtherKill {
  import opened Results
  import opened Model
  import opened Seqs
  import opened Numerals
  import opened Tick
  import opened Runs
  import opened Lifecycle
  import opened Investigation
  import opened KernelLog
  import opened ShortLife

  const LONGER_LINE := "Killed process 123"
  const SIZE_LINE := "Killed process 123 total-vm:12kB"

  // ---- The lines ----------------------------------------------------------------------

  lemma Texts()
    ensures NatText(12) == "12" && NatText(123) == "123"
  {
    assert NatText(1) == "1";
  }

  /** Where the numbers of the two lines are. */
  lemma LongerLineNumbers(i: nat, j: nat)
    ensures Number(LONGER_LINE, i, j) <==> i == 15 && j == 18
  {
    assert forall n :: 0 <= n < 18 ==> (IsDigit(LONGER_LINE[n]) <==> 15 <= n);
    if Number(LONGER_LINE, i, j) {
      assert IsDigit(LONGER_LINE[i]) && IsDigit(LONGER_LINE[j - 1]);
    }
  }

  lemma SizeLineNumbers(i: nat, j: nat)
    ensures Number(SIZE_LINE, i, j) <==> (i == 15 && j == 18) || (i == 28 && j == 30)
  {
    assert !IsDigit(SIZE_LINE[20]);
    assert forall n :: 0 <= n < 32 ==> (IsDigit(SIZE_LINE[n]) <==> 15 <= n < 18 || 28 <= n < 30);
    if Number(SIZE_LINE, i, j) {
      assert IsDigit(SIZE_LINE[i]) && IsDigit(SIZE_LINE[j - 1]);
    }
  }

  lemma LongerLine()
    ensures Records(LONGER_LINE, 123)
    ensures NamesLonger(LONGER_LINE, 12) && !Names(LONGER_LINE, 12) && !Records(LONGER_LINE, 12)
  {
    hide Contains, NatText, Number;
    Texts();
    assert LONGER_LINE[15..18] == "123" && LONGER_LINE[0..15] == KILLED;
    forall i: nat, j: nat ensures Number(LONGER_LINE, i, j) <==> i == 15 && j == 18 {
      LongerLineNumbers(i, j);
    }
    ContainsIffAt("123", "12");
    assert At("123", "12", 0);
  }

  lemma SizeLineParts()
    ensures |SIZE_LINE| == 32 && |KILLED| == 15
    ensures SIZE_LINE[0..15] == KILLED && SIZE_LINE[15..18] == "123"
    ensures SIZE_LINE[13..28] != KILLED && SIZE_LINE[28..30] == "12"
  {
    assert SIZE_LINE[13..28][0] == 's';
  }

  lemma SizeLine()
    ensures Records(SIZE_LINE, 123)
    ensures Names(SIZE_LINE, 12) && !Records(SIZE_LINE, 12)
  {
    hide NatText, Number, SIZE_LINE, KILLED;
    Texts();
    SizeLineParts();
    forall i: nat, j: nat ensures Number(SIZE_LINE, i, j) <==> (i == 15 && j == 18) || (i == 28 && j == 30) {
      SizeLineNumbers(i, j);
    }
  }

  // ---- The verdicts ---------------------------------------------------------------------

  lemma TwelveExits(born: int, died: int)
    ensures ExitEvent(EventsOf(StateAfter(Lived(born, died)).timeline, 12)).Some?
  {
    hide StateAfter, LastEmitted;
    var run := Lived(born, died);
    TimelineIsLogTail(run);
    LivedExit(born, died);
    var exit := Event(TWELVE, died, Exited(None));
    assert Last(LastN(TIMELINE_CAPACITY, Log(run))) == exit;
    assert exit in EventsOf(StateAfter(run).timeline, 12);
  }

  /** A kernel line with the digits 12 in it is cited for any exit of process 12. */
  lemma LineIsCited(events: seq<Event>, line: string)
    requires ExitEvent(events).Some? && (Names(line, 12) || NamesLonger(line, 12))
    ensures var f := CrashAnalysis(events, 12, [line]);
            && f.severity in {Critical, Warning} && f.evidence != []
            && Last(f.evidence) == KernelLogLine(line, ExitEvent(events).value.at)
  {
    hide Contains, Names, NamesLonger, CrashAnalysis;
    MatchesIffNamed(line, 12);
    assert FirstMatch([line], 12, 0);
    CrashVerdict(events, 12, [line], FirstIndex(IsExit, events).value);
  }

  /** Both lines record the kill of process 123 only. Over any run whose timeline holds
      an exit of process 12, either makes that exit an out-of-memory kill and is cited
      for it; and there are such runs. */
  lemma OtherKillBlamed(run: Run, line: string, born: int, died: int)
    requires Possible(run) && ExitEvent(EventsOf(StateAfter(run).timeline, 12)).Some?
    requires line in {LONGER_LINE, SIZE_LINE}
    ensures Records(line, 123) && !Records(line, 12)
    ensures var events := EventsOf(StateAfter(run).timeline, 12);
            var f := CrashAnalysis(events, 12, [line]);
            && f.severity in {Critical, Warning} && f.evidence != []
            && Last(f.evidence) == KernelLogLine(line, ExitEvent(events).value.at)
    ensures Possible(Lived(born, died))
    ensures ExitEvent(EventsOf(StateAfter(Lived(born, died)).timeline, 12)).Some?
  {
    hide StateAfter, Possible, CrashAnalysis, Names, NamesLonger, Records, EventsOf, ExitEvent;
    LongerLine();
    SizeLine();
    LivedPossible(born, died);
    TwelveExits(born, died);
    LineIsCited(EventsOf(StateAfter(run).timeline, 12), line);
  }
}
