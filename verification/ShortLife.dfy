/** The shortest life a run can record: process 12 is read once and is gone at the next
    refresh, with any two times. */
module ShortLife {
  import opened Results
  import opened Model
  import opened Seqs
  import opened Tick
  import opened Runs
  import opened Emission
  import opened Lifecycle

  const TWELVE := Key(12, 100)

  function Born(at: int): Refresh {
    Refresh(at, Listed([12], map[12 := Snapshot(12, 1, "p", 100, 0, 0, 0.0, 100, 1, 0)], map[]),
            Orders(map[], [], []))
  }

  function Died(at: int): Refresh {
    Refresh(at, Listed([], map[], map[]), Orders(map[], [TWELVE], [TWELVE]))
  }

  function Lived(born: int, died: int): Run { [Born(born), Died(died)] }

  lemma LivedSamples(born: int, died: int, k: Key)
    ensures Front([Born(born)]) == [] && Front(Lived(born, died)) == [Born(born)]
    ensures Samples([], k) == [] && Samples(Lived(born, died), k) == []
    ensures Samples([Born(born)], k) != [] <==> k == TWELVE
  {
  }

  lemma LivedPossible(born: int, died: int)
    ensures Possible([Born(born)]) && Possible(Lived(born, died))
  {
    hide StateAfter, NewCurrent, Samples;
    LivedSamples(born, died, TWELVE);
    forall k ensures k !in Gone(StateAfter([]), born, Born(born).ans) {
      StateMatchesAnswers([], k);
      LivedSamples(born, died, k);
    }
    assert Possible([Born(born)]);
    var before := StateAfter([Born(born)]);
    forall k ensures k in Gone(before, died, Died(died).ans) <==> k == TWELVE {
      StateMatchesAnswers([Born(born)], k);
      LivedSamples(born, died, k);
      NobodyLeft(before, died, k);
    }
    assert Gone(before, died, Died(died).ans) == {TWELVE};
  }

  lemma NobodyLeft(s: State, died: int, k: Key)
    ensures !Live(NewCurrent(s, died, Died(died).ans), k)
  {
    CurrentAtEnd(Pruned(s), died, Died(died).ans, k);
  }

  /** The second refresh logs the exit and nothing else. */
  lemma LivedExit(born: int, died: int)
    ensures LastEmitted(Lived(born, died)) == [Event(TWELVE, died, Exited(None))]
  {
    hide StateAfter;
  }

  /** Everything the first refresh logs is stamped with its time, and it does log. */
  lemma LivedStart(born: int)
    ensures Log([Born(born)]) != [] && forall i :: 0 <= i < |Log([Born(born)])| ==> Log([Born(born)])[i].at == born
  {
    hide StateAfter, Emitted, Samples, Life;
    LivedPossible(born, born);
    LivedSamples(born, born, TWELVE);
    StreaksAreLogged([Born(born)], TWELVE);
    LifeNone([], TWELVE);
    assert Log([]) == [];
    var log := Log([Born(born)]);
    assert log == LastEmitted([Born(born)]);
    forall i | 0 <= i < |log| ensures log[i].at == born {
      LastEmittedJustified([Born(born)], log[i]);
    }
  }
}
