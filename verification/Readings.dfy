/** What a tracked reading is, told from the adapter's answers: the snapshot the adapter
    gave for the pid, with nothing but the CPU percentage replaced. */
module Readings {
  import opened Model
  import opened Seqs
  import opened Tick
  import opened Runs

  /** x was taken by refresh r of the run: everything but the percentage is the adapter's. */
  predicate TakenAt(run: Run, k: Key, r: nat, x: Sample) {
    && r < |run| && run[r].ans.Reports(k) && x.at == run[r].now
    && x.snap == run[r].ans.procs[k.pid].(percent := x.snap.percent)
  }

  /** The readings were taken by the refreshes at `taken`, in that order, and no other
      refresh between the first of them and refresh `to` succeeded. */
  predicate TakenInTurn(run: Run, k: Key, taken: seq<nat>, xs: seq<Sample>, to: nat) {
    && |taken| == |xs| && to <= |run|
    && (forall i :: 0 <= i < |taken| ==> taken[i] < to && TakenAt(run, k, taken[i], xs[i]))
    && (forall i, j :: 0 <= i < j < |taken| ==> taken[i] < taken[j])
    && (taken != [] ==> forall r :: taken[0] <= r < to && run[r].ans.Listed? ==> r in taken)
  }

  lemma TakenInLonger(run: Run, k: Key, taken: seq<nat>, xs: seq<Sample>, to: nat)
    requires run != [] && to < |run| && TakenInTurn(Front(run), k, taken, xs, to)
    ensures TakenInTurn(run, k, taken, xs, to)
  {
    assert forall r :: 0 <= r < |run| - 1 ==> Front(run)[r] == run[r];
    forall i | 0 <= i < |taken| ensures TakenAt(run, k, taken[i], xs[i]) {
      assert TakenAt(Front(run), k, taken[i], xs[i]);
    }
  }

  lemma StillNone(run: Run, k: Key, taken: seq<nat>, xs: seq<Sample>)
    requires run != [] && Last(run).ans.ListFailed? && TakenInTurn(run, k, taken, xs, |run| - 1)
    ensures TakenInTurn(run, k, taken, xs, |run|)
  {
    hide TakenAt;
  }

  lemma OneMoreTaken(run: Run, k: Key, taken: seq<nat>, xs: seq<Sample>, x: Sample)
    requires run != [] && TakenInTurn(run, k, taken, xs, |run| - 1) && TakenAt(run, k, |run| - 1, x)
    ensures TakenInTurn(run, k, taken + [|run| - 1], xs + [x], |run|)
  {
    hide TakenAt;
    var all, to: nat := taken + [|run| - 1], |run| - 1;
    forall r | all[0] <= r < |run| && run[r].ans.Listed? ensures r in all {
      assert r == to || r in taken;
      assert all[|taken|] == to;
    }
  }

  lemma NoneTaken(run: Run, k: Key)
    ensures TakenInTurn(run, k, [], [], |run|)
  {
  }

  /** The current streak: a reading per successful refresh, each the adapter's own
      snapshot up to the percentage, and its first with the adapter's percentage too. */
  lemma {:induction false} StreakIsTaken(run: Run, k: Key) returns (taken: seq<nat>)
    ensures TakenInTurn(run, k, taken, Samples(run, k), |run|)
    ensures Samples(run, k) != [] ==> Samples(run, k)[0].snap == run[taken[0]].ans.procs[k.pid]
  {
    hide TakenInTurn;
    if run == [] {
      taken := [];
      NoneTaken(run, k);
    } else {
      var f, before, after := Front(run), Samples(Front(run), k), Samples(run, k);
      taken := StreakIsTaken(f, k);
      TakenInLonger(run, k, taken, before, |f|);
      FirstTaken(f, k, taken, before, |f|);
      if Last(run).ans.ListFailed? {
        StillNone(run, k, taken, before);
      } else if !Last(run).ans.Reports(k) {
        taken := [];
        NoneTaken(run, k);
      } else {
        OneMoreTaken(run, k, taken, before, Last(after));
        taken := taken + [|f|];
      }
    }
  }

  lemma FirstTaken(run: Run, k: Key, taken: seq<nat>, xs: seq<Sample>, to: nat)
    requires TakenInTurn(run, k, taken, xs, to)
    ensures |taken| == |xs| && (xs != [] ==> taken[0] < |run| && run[taken[0]].ans.Reports(k))
  {
    if xs != [] {
      assert TakenAt(run, k, taken[0], xs[0]);
    }
  }

  /** A live process is shown as it was last read: the adapter's snapshot of the latest
      successful listing, parent, name, memory and all, with only the percentage computed;
      and on first sight the percentage is the adapter's as well. */
  lemma CurrentIsRead(run: Run, k: Key)
    requires Possible(run) && run != [] && Last(run).ans.Reports(k)
    ensures var s, read := StateAfter(run), Last(run).ans.procs[k.pid];
            && k.pid in s.current
            && s.current[k.pid] == read.(percent := s.current[k.pid].percent)
            && (!Live(StateAfter(Front(run)).current, k) ==> s.current[k.pid] == read)
  {
    hide StateAfter, Possible;
    StateMatchesAnswers(run, k);
    StateMatchesAnswers(Front(run), k) by { assert Possible(Front(run)) by { PossibleBefore(run); } }
  }

  lemma PossibleBefore(run: Run)
    requires Possible(run) && run != []
    ensures Possible(Front(run))
  {
  }

  lemma LaterTaken(run: Run, k: Key, taken: seq<nat>, xs: seq<Sample>, d: nat)
    requires TakenInTurn(run, k, taken, xs, |run|) && d <= |xs|
    ensures |taken| == |xs| && TakenInTurn(run, k, taken[d..], xs[d..], |run|)
  {
    hide TakenAt;
    var t := taken[d..];
    if t != [] {
      forall r | t[0] <= r < |run| && run[r].ans.Listed? ensures r in t {
        assert taken[0] <= t[0] && r in taken;
        StillIn(taken, d, r);
      }
    }
  }

  lemma StillIn(taken: seq<nat>, d: nat, r: nat)
    requires forall i, j :: 0 <= i < j < |taken| ==> taken[i] < taken[j]
    requires d < |taken| && r in taken && taken[d] <= r
    ensures r in taken[d..]
  {
    var j :| 0 <= j < |taken| && taken[j] == r;
    assert taken[d..][j - d] == r;
  }

  /** Every retained reading is the adapter's snapshot from its own refresh, and the
      retained readings miss no successful refresh in between. The readings of a
      generation that has just ended stop one refresh earlier. */
  lemma HistoryIsTaken(run: Run, k: Key) returns (taken: seq<nat>)
    requires Possible(run) && k in StateAfter(run).history
    ensures var s := StateAfter(run);
            && (k in s.stale ==> run != [])
            && TakenInTurn(if k in s.stale then Front(run) else run, k, taken, s.history[k],
                           if k in s.stale then |run| - 1 else |run|)
            && (0 < |s.history[k]| < HISTORY_CAPACITY ==>
                  taken[0] < |run| && k.pid in run[taken[0]].ans.procs
                  && s.history[k][0].snap == run[taken[0]].ans.procs[k.pid])
  {
    hide StateAfter, Possible, Samples, TakenInTurn;
    StateMatchesAnswers(run, k);
    var of := if k in StateAfter(run).stale then Front(run) else run;
    var all := StreakIsTaken(of, k);
    assert Tracked(run, k) == Samples(of, k);
    var kept := LastN(HISTORY_CAPACITY, Samples(of, k));
    var d := |Samples(of, k)| - |kept|;
    assert kept == Samples(of, k)[d..];
    LaterTaken(of, k, all, Samples(of, k), d);
    FirstTaken(of, k, all, Samples(of, k), |of|);
    taken := all[d..];
  }
}
