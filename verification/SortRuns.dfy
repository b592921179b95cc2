/** How long the sorting program runs, and how long a coroutine waits for its turn. */
module SortRuns {
  import opened Sums
  import opened QuickSort
  import opened RoundRobin
  import opened SortProgram

  // ---------- the program goes on until it is back in main ----------

  lemma {:induction false} Largest(a: seq<int>, l: nat, r: nat) returns (m: nat)
    requires l <= r < |a|
    ensures l <= m <= r && forall k | l <= k <= r :: a[k] <= a[m]
    decreases r - l
  {
    if l == r {
      m := l;
    } else {
      m := Largest(a, l + 1, r);
      if a[m] < a[l] {
        m := l;
      }
    }
  }

  /** Every range can be partitioned, for instance around its largest element. */
  lemma SomePartition(a: seq<int>, l: nat, r: nat) returns (after: seq<int>)
    requires l <= r < |a|
    ensures Partitioned(a, after, l, r, r)
  {
    var m := Largest(a, l, r);
    after := Swapped(a, m, r);
    Unmoved(a, l, r);
    SwappedIsRearranged(a, a, l, r, m, r);
  }

  lemma SomeWork(w: Worker) returns (w': Worker)
    requires WorkerOk(w) && w.phase != Closing && w.phase != Ended
    ensures Works(w, w')
  {
    match w.phase
    case Reading(rest) =>
      w' := if rest != [] then w.(buf := w.buf + [rest[0]], phase := Reading(rest[1..]), owed := 1)
            else w.(phase := Sorting([Range(0, |w.buf| - 1, 1)]), owed := 1);
    case Sorting(pending) =>
      if pending == [] {
        w' := w.(phase := Writing(0), owed := 1);
      } else if pending[0].l < pending[0].r {
        var after := SomePartition(w.buf, pending[0].l, pending[0].r);
        w' := w.(buf := after, phase := Sorting(Halves(pending[0], pending[0].r) + pending[1..]), owed := 1);
      } else {
        w' := w.(phase := Sorting(pending[1..]), owed := pending[0].due);
      }
    case Writing(count) =>
      w' := if count < |w.buf| then w.(written := w.written + [w.buf[count]], phase := Writing(count + 1), owed := 1)
            else w.(phase := Closing, owed := 1);
  }

  /** As long as control is not back in main the running coroutine can make a step. */
  lemma NeverStuck(s: State, inputs: seq<seq<int>>) returns (s': State)
    requires Inv(s, inputs) && s.running != MAIN
    ensures Step(s, s')
  {
    hide WorkerOk, Works;
    var w := s.workers[s.running];
    if w.owed > 0 {
      s' := State(s.workers[s.running := w.(owed := w.owed - 1)], s.running);
    } else if w.phase == Closing {
      s' := State(s.workers[s.running := w.(phase := Ended)], Next(Finished(s.workers), s.running));
    } else {
      var w' := SomeWork(w);
      s' := State(s.workers[s.running := w'], s.running);
    }
  }

  // ---------- and that is not long ----------

  function InputWork(input: seq<int>): nat {
    9 * |input| + 9
  }

  /** A bound on the steps of the whole program. */
  function Bound(inputs: seq<seq<int>>): nat {
    Sum(inputs, InputWork)
  }

  lemma {:induction false} WorkAtStart(ws: seq<Worker>, inputs: seq<seq<int>>)
    requires |ws| == |inputs| && forall i | 0 <= i < |inputs| ::
             ws[i] == Worker(inputs[i], [], Reading(inputs[i]), [], 0)
    ensures Sum(ws, Left) == Bound(inputs)
  {
    if ws == [] {
    } else {
      WorkAtStart(ws[1..], inputs[1..]);
    }
  }

  lemma PrefixIsRun(run: seq<State>, inputs: seq<seq<int>>, n: nat)
    requires SortProgram.IsRun(run, inputs) && 1 <= n <= |run|
    ensures SortProgram.IsRun(run[..n], inputs)
  {
    forall t | 0 <= t < n - 1
      ensures Step(run[..n][t], run[..n][t + 1])
    {
      assert Step(run[t], run[t + 1]);
    }
  }

  lemma {:induction false} StepsAreCounted(run: seq<State>, inputs: seq<seq<int>>)
    requires SortProgram.IsRun(run, inputs)
    ensures |run| + Sum(run[|run| - 1].workers, Left) <= Bound(inputs) + 1
  {
    if |run| == 1 {
      WorkAtStart(run[0].workers, inputs);
    } else {
      var front := run[..|run| - 1];
      PrefixIsRun(run, inputs, |run| - 1);
      StepsAreCounted(front, inputs);
      RunKeepsInv(front, inputs);
      assert Step(run[|run| - 2], run[|run| - 1]);
      StepGoesDown(run[|run| - 2], run[|run| - 1], inputs);
    }
  }

  /** Whatever the pivots and the time slices, no run has more steps than the lengths of the inputs
      allow, and a run can be continued exactly as long as control is not back in main: so every
      run ends there. */
  lemma RunIsShort(run: seq<State>, inputs: seq<seq<int>>)
    requires SortProgram.IsRun(run, inputs)
    ensures |run| <= Bound(inputs) + 1
    ensures run[|run| - 1].running == MAIN <==> !exists s :: SortProgram.IsRun(run + [s], inputs)
  {
    var last := run[|run| - 1];
    StepsAreCounted(run, inputs);
    RunKeepsInv(run, inputs);
    if last.running != MAIN {
      var s := NeverStuck(last, inputs);
      OneStepMore(run, inputs, s);
    } else {
      forall s
        ensures !SortProgram.IsRun(run + [s], inputs)
      {
        if SortProgram.IsRun(run + [s], inputs) {
          LastStep(run, inputs, s);
        }
      }
    }
  }

  lemma LastStep(run: seq<State>, inputs: seq<seq<int>>, s: State)
    requires run != [] && SortProgram.IsRun(run + [s], inputs)
    ensures Step(run[|run| - 1], s)
  {
    assert Step((run + [s])[|run| - 1], (run + [s])[|run|]);
  }

  lemma OneStepMore(run: seq<State>, inputs: seq<seq<int>>, s: State)
    requires SortProgram.IsRun(run, inputs) && Step(run[|run| - 1], s)
    ensures SortProgram.IsRun(run + [s], inputs)
  {
    var longer := run + [s];
    forall t | 0 <= t < |longer| - 1
      ensures Step(longer[t], longer[t + 1])
    {
      if t < |run| - 1 {
        assert Step(run[t], run[t + 1]);
      }
    }
  }

  // ---------- turns ----------

  /** How often control passes on. */
  function Changes(run: seq<State>): nat {
    if |run| <= 1 then 0 else (if run[1].running != run[0].running then 1 else 0) + Changes(run[1..])
  }

  lemma StepForOthers(s: State, s': State, x: nat)
    requires Step(s, s') && x < |s.workers| && s.workers[x].phase != Ended && s.running != x
    ensures s'.workers[x].phase != Ended && s'.running != MAIN
    ensures s'.running == s.running ==> Finished(s'.workers) == Finished(s.workers)
  {
    hide Works, Next;
    var finished := Finished(s.workers);
    NextIsNearest(finished, s.running);
    assert !finished[x];
    if Works(s.workers[s.running], s'.workers[s.running]) {
      WorksOn(s.workers[s.running], s'.workers[s.running]);
      WorkerWorks(s.workers[s.running], s'.workers[s.running]);
    }
  }

  lemma WorkerWorks(w: Worker, w': Worker)
    requires Works(w, w')
    ensures w.phase != Ended
  {
  }

  /** In any stretch of a run, a coroutine that is not finished is running again before control
      has passed on more often than there are unfinished ones ahead of it, and once more. */
  lemma {:induction false} TurnComesInRun(run: seq<State>, x: nat) returns (t: nat)
    requires run != [] && forall i | 0 <= i < |run| - 1 :: Step(run[i], run[i + 1])
    requires x < |run[0].workers| && run[0].workers[x].phase != Ended && 0 <= run[0].running < |run[0].workers|
    requires run[0].running != x && Changes(run) > |Ahead(Finished(run[0].workers), run[0].running, x)|
    ensures t < |run| && run[t].running == x
    ensures Changes(run[..t + 1]) <= |Ahead(Finished(run[0].workers), run[0].running, x)| + 1
    decreases |run|
  {
    hide Step, Ahead;
    assert Step(run[0], run[1]);
    StepForOthers(run[0], run[1], x);
    StepIsStep(run[0], run[1]);
    if run[1].running == x {
      t := 1;
      assert run[..2][1..] == [run[1]];
    } else {
      if run[1].running != run[0].running {
        OneLess(run[0], run[1], x);
      }
      forall i | 0 <= i < |run[1..]| - 1
        ensures Step(run[1..][i], run[1..][i + 1])
      {
        assert Step(run[i + 1], run[i + 2]);
      }
      var u := TurnComesInRun(run[1..], x);
      t := u + 1;
      assert run[..t + 1][1..] == run[1..][..u + 1];
    }
  }

  lemma StepIsStep(s: State, s': State)
    requires Step(s, s')
    ensures |s'.workers| == |s.workers| && -1 <= s'.running < |s.workers| && 0 <= s.running < |s.workers|
  {
    NextIsNearest(Finished(s.workers), s.running);
  }

  lemma OneLess(s: State, s': State, x: nat)
    requires Step(s, s') && x < |s.workers| && s.workers[x].phase != Ended && s.running != x
    requires s'.running != s.running && s'.running != x && s'.running != MAIN
    ensures |Ahead(Finished(s'.workers), s'.running, x)| < |Ahead(Finished(s.workers), s.running, x)|
  {
    hide Ahead, Step, Next;
    ControlGoesRound(s, s');
    StepIsStep(s, s');
    assert !Finished(s.workers)[x];
    OneLessAhead(Finished(s.workers), s.running, x, Finished(s'.workers));
  }
}
