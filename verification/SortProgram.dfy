/** The sorting program: coroutines that each read, sort and write back one file, and main,
    which merges what they leave.

    A coroutine may lose control after any of its steps, also in the middle of the recursion
    of quick_sort, whose frames are a stack of ranges still to be sorted. */
module SortProgram {
  import opened QuickSort
  import opened RoundRobin
  import opened Sums

  /** A range that quick_sort is still to be called for, and how often swap is called behind it
      before anything else is done: once, and once more for every call that ends with this one. */
  datatype Range = Range(l: nat, r: int, due: nat)

  datatype Phase =
    | Reading(rest: seq<int>)
    | Sorting(pending: seq<Range>)
    | Writing(count: nat)
    | Closing
    | Ended

  /** One coroutine: its file, its buffer, where it is, what it has written, and how often it calls
      swap before it works on. */
  datatype Worker = Worker(input: seq<int>, buf: seq<int>, phase: Phase, written: seq<int>, owed: nat)

  datatype State = State(workers: seq<Worker>, running: int)

  // ---------- the steps ----------

  /** The two halves of a range once it is partitioned. */
  function Halves(range: Range, p: nat): seq<Range> {
    [Range(range.l, p - 1, 1), Range(p + 1, range.r, 1 + range.due)]
  }

  /** What a coroutine does between two calls of swap. */
  ghost predicate Works(w: Worker, w': Worker) {
    match w.phase
    case Reading(rest) =>
      if rest != [] then w' == w.(buf := w.buf + [rest[0]], phase := Reading(rest[1..]), owed := 1)
      else w' == w.(phase := Sorting([Range(0, |w.buf| - 1, 1)]), owed := 1)
    case Sorting(pending) =>
      if pending == [] then w' == w.(phase := Writing(0), owed := 1)
      else if pending[0].l < pending[0].r then
        exists p: nat, buf': seq<int> ::
          && Partitioned(w.buf, buf', pending[0].l, pending[0].r, p)
          && w' == w.(buf := buf', phase := Sorting(Halves(pending[0], p) + pending[1..]), owed := 1)
      else w' == w.(phase := Sorting(pending[1..]), owed := pending[0].due)
    case Writing(count) =>
      if count < |w.buf| then w' == w.(written := w.written + [w.buf[count]], phase := Writing(count + 1), owed := 1)
      else w' == w.(phase := Closing, owed := 1)
    case Closing => false
    case Ended => false
  }

  function Finished(ws: seq<Worker>): seq<bool> {
    seq(|ws|, i requires 0 <= i < |ws| => ws[i].phase == Ended)
  }

  /** The running coroutine works, or calls swap, which may find that its time slice is over, or
      comes to its end. */
  ghost predicate Step(s: State, s': State) {
    && 0 <= s.running < |s.workers| && |s'.workers| == |s.workers|
    && (forall i | 0 <= i < |s.workers| && i != s.running :: s'.workers[i] == s.workers[i])
    && var (w, w') := (s.workers[s.running], s'.workers[s.running]);
       var next := Next(Finished(s.workers), s.running);
       || (w.owed == 0 && Works(w, w') && s'.running == s.running)
       || (w.owed > 0 && w' == w.(owed := w.owed - 1)
           && (s'.running == s.running || (next != MAIN && s'.running == next)))
       || (w.owed == 0 && w.phase == Closing && w' == w.(phase := Ended) && s'.running == next)
  }

  /** main starts the first coroutine. */
  predicate Init(s: State, inputs: seq<seq<int>>) {
    && inputs != [] && |s.workers| == |inputs| && s.running == 0
    && forall i | 0 <= i < |inputs| :: s.workers[i] == Worker(inputs[i], [], Reading(inputs[i]), [], 0)
  }

  // ---------- the invariant ----------

  predicate Sorted(a: seq<int>) {
    forall x, y | 0 <= x < y < |a| :: a[x] <= a[y]
  }

  predicate InOneOf(pending: seq<Range>, x: int, y: int) {
    exists i | 0 <= i < |pending| :: pending[i].l <= x && y <= pending[i].r
  }

  /** The ranges lie one behind the other. */
  predicate Apart(pending: seq<Range>, len: nat) {
    && (forall i | 0 <= i < |pending| :: pending[i].l <= pending[i].r + 1 <= len)
    && (forall i, j | 0 <= i < j < |pending| :: pending[i].r < pending[j].l)
  }

  /** The buffer is sorted but for what is out of order within one pending range. */
  predicate SortedBut(a: seq<int>, pending: seq<Range>) {
    forall x, y | 0 <= x < y < |a| :: InOneOf(pending, x, y) || a[x] <= a[y]
  }

  predicate WorkerOk(w: Worker) {
    match w.phase
    case Reading(rest) => w.buf + rest == w.input && w.written == []
    case Sorting(pending) =>
      multiset(w.buf) == multiset(w.input) && w.written == [] && Apart(pending, |w.buf|) && SortedBut(w.buf, pending)
    case Writing(count) =>
      multiset(w.buf) == multiset(w.input) && Sorted(w.buf) && count <= |w.buf| && w.written == w.buf[..count]
    case _ => multiset(w.buf) == multiset(w.input) && Sorted(w.buf) && w.written == w.buf
  }

  lemma PartitionKeepsOrder(before: seq<int>, after: seq<int>, pending: seq<Range>, p: nat)
    requires pending != [] && Apart(pending, |before|) && SortedBut(before, pending)
    requires pending[0].l < pending[0].r && Partitioned(before, after, pending[0].l, pending[0].r, p)
    ensures var pending' := Halves(pending[0], p) + pending[1..];
            Apart(pending', |after|) && SortedBut(after, pending')
  {
    var (l, r) := (pending[0].l, pending[0].r);
    var pending' := Halves(pending[0], p) + pending[1..];
    forall x, y | 0 <= x < y < |after| && !InOneOf(pending', x, y)
      ensures after[x] <= after[y]
    {
      PairStaysInOrder(before, after, pending, p, x, y);
    }
  }

  lemma PairStaysInOrder(before: seq<int>, after: seq<int>, pending: seq<Range>, p: nat, x: nat, y: nat)
    requires pending != [] && Apart(pending, |before|) && SortedBut(before, pending)
    requires pending[0].l < pending[0].r && Partitioned(before, after, pending[0].l, pending[0].r, p)
    requires x < y < |after| && !InOneOf(Halves(pending[0], p) + pending[1..], x, y)
    ensures after[x] <= after[y]
  {
    var (l, r) := (pending[0].l, pending[0].r);
    var pending' := Halves(pending[0], p) + pending[1..];
    if l <= x && y <= r {
      assert pending'[0].r == p - 1 && pending'[1].l == p + 1;
    } else {
      forall i | 0 <= i < |pending|
        ensures !(pending[i].l <= x && y <= pending[i].r)
      {
        if i > 0 {
          assert pending'[i + 1] == pending[i];
        }
      }
      var (u, v) := (x, y);
      if l <= x <= r {
        u := ComesFromThere(before, after, l, r, x);
      }
      if l <= y <= r {
        v := ComesFromThere(before, after, l, r, y);
      }
      NotInOne(pending, x, y, u, v);
    }
  }

  /** Moving within the first range does not bring two places into one range. */
  lemma NotInOne(pending: seq<Range>, x: nat, y: nat, u: nat, v: nat)
    requires pending != [] && x < y && !InOneOf(pending, x, y) && !(pending[0].l <= x && y <= pending[0].r)
    requires forall i, j | 0 <= i < j < |pending| :: pending[i].r < pending[j].l
    requires if pending[0].l <= x <= pending[0].r then pending[0].l <= u <= pending[0].r else u == x
    requires if pending[0].l <= y <= pending[0].r then pending[0].l <= v <= pending[0].r else v == y
    ensures u < v && !InOneOf(pending, u, v)
  {
  }

  lemma WholeRange(a: seq<int>, pending: seq<Range>)
    requires |pending| == 1 && pending[0].l == 0 && pending[0].r == |a| - 1
    ensures Apart(pending, |a|) && SortedBut(a, pending)
  {
    forall x, y | 0 <= x < y < |a|
      ensures InOneOf(pending, x, y) || a[x] <= a[y]
    {
      assert pending[0].l <= x && y <= pending[0].r;
    }
  }

  lemma SortingKeepsOk(w: Worker, w': Worker)
    requires w.phase.Sorting? && w.phase.pending != [] && WorkerOk(w) && Works(w, w')
    ensures WorkerOk(w')
  {
    hide Partitioned, Apart, SortedBut;
    var pending := w.phase.pending;
    var (l, r) := (pending[0].l, pending[0].r);
    if l < r {
      var p: nat, buf': seq<int> :| Partitioned(w.buf, buf', l, r, p)
        && w' == w.(buf := buf', phase := Sorting(Halves(pending[0], p) + pending[1..]), owed := 1);
      PartitionKeepsOrder(w.buf, buf', pending, p);
      PartitionKeepsElements(w.buf, buf', l, r, p);
    } else {
      SmallRangeIsSorted(w.buf, pending);
    }
  }

  lemma PartitionKeepsElements(before: seq<int>, after: seq<int>, l: nat, r: int, p: nat)
    requires Partitioned(before, after, l, r, p)
    ensures multiset(after) == multiset(before) && |after| == |before|
  {
  }

  /** With nothing pending the buffer is sorted. */
  lemma NothingPending(a: seq<int>)
    requires SortedBut(a, [])
    ensures Sorted(a)
  {
  }

  lemma WorkKeepsOk(w: Worker, w': Worker)
    requires WorkerOk(w) && Works(w, w')
    ensures WorkerOk(w')
  {
    hide Partitioned, Apart, SortedBut, Sorted;
    match w.phase
    case Reading(rest) =>
      if rest == [] {
        assert w.buf == w.input;
        WholeRange(w.buf, [Range(0, |w.buf| - 1, 1)]);
      }
    case Sorting(pending) =>
      if pending == [] {
        NothingPending(w.buf);
      } else {
        SortingKeepsOk(w, w');
      }
    case Writing(count) =>
  }

  lemma SmallRangeIsSorted(a: seq<int>, pending: seq<Range>)
    requires pending != [] && pending[0].l >= pending[0].r && Apart(pending, |a|) && SortedBut(a, pending)
    ensures Apart(pending[1..], |a|) && SortedBut(a, pending[1..])
  {
    forall x, y | 0 <= x < y < |a| && InOneOf(pending, x, y)
      ensures InOneOf(pending[1..], x, y)
    {
      var i :| 0 <= i < |pending| && pending[i].l <= x && y <= pending[i].r;
      assert pending[1..][i - 1] == pending[i];
    }
  }

  // ---------- whole runs ----------

  ghost predicate Inv(s: State, inputs: seq<seq<int>>) {
    && |s.workers| == |inputs| && -1 <= s.running < |s.workers|
    && (forall i | 0 <= i < |inputs| :: s.workers[i].input == inputs[i] && WorkerOk(s.workers[i]))
    && (if s.running == MAIN then forall i | 0 <= i < |inputs| :: s.workers[i].phase == Ended
        else s.workers[s.running].phase != Ended)
  }

  lemma StepKeepsInv(s: State, s': State, inputs: seq<seq<int>>)
    requires Inv(s, inputs) && Step(s, s')
    ensures Inv(s', inputs)
  {
    hide WorkerOk, Works, Next;
    var (w, w') := (s.workers[s.running], s'.workers[s.running]);
    var finished := Finished(s.workers);
    NextIsNearest(finished, s.running);
    if w.owed == 0 && Works(w, w') {
      WorkKeepsOk(w, w');
      WorksOn(w, w');
    } else {
      OthersKeepOk(w, w');
      forall k | 0 <= k < |s.workers| && s'.running == MAIN && k != s.running
        ensures s'.workers[k].phase == Ended
      {
        assert finished[k];
      }
    }
    if s'.running != MAIN && s'.running != s.running {
      assert !finished[s'.running];
    }
  }

  lemma WorksOn(w: Worker, w': Worker)
    requires Works(w, w')
    ensures w'.input == w.input && w'.phase != Ended
  {
  }

  /** Calls of swap and the end keep what the invariant says of a coroutine. */
  lemma OthersKeepOk(w: Worker, w': Worker)
    requires WorkerOk(w) && (w' == w.(owed := w'.owed) || (w.phase == Closing && w' == w.(phase := Ended)))
    ensures WorkerOk(w')
  {
  }

  ghost predicate IsRun(run: seq<State>, inputs: seq<seq<int>>) {
    run != [] && Init(run[0], inputs) && forall t | 0 <= t < |run| - 1 :: Step(run[t], run[t + 1])
  }

  lemma {:induction false} RunKeepsInv(run: seq<State>, inputs: seq<seq<int>>)
    requires IsRun(run, inputs)
    ensures Inv(run[|run| - 1], inputs)
  {
    if |run| == 1 {
    } else {
      var before := run[..|run| - 1];
      forall t | 0 <= t < |before| - 1
        ensures Step(before[t], before[t + 1])
      {
        assert Step(run[t], run[t + 1]);
      }
      RunKeepsInv(before, inputs);
      StepKeepsInv(run[|run| - 2], run[|run| - 1], inputs);
    }
  }

  /** Whatever the pivots, the time slices and the interleaving: when control is back in main,
      every coroutine has ended, and its buffer and what it has written are its input, sorted. */
  lemma MainFindsSorted(run: seq<State>, inputs: seq<seq<int>>, i: nat)
    requires IsRun(run, inputs) && run[|run| - 1].running == MAIN && i < |inputs|
    ensures var ws := run[|run| - 1].workers;
            && |ws| == |inputs| && ws[i].phase == Ended
            && Sorted(ws[i].buf) && multiset(ws[i].buf) == multiset(inputs[i]) && ws[i].written == ws[i].buf
  {
    RunKeepsInv(run, inputs);
  }

  /** Control passes between coroutines only as the circle demands, so TurnComes applies. */
  lemma ControlGoesRound(s: State, s': State)
    requires Step(s, s') && s'.running != s.running && s'.running != MAIN
    ensures Switched(Moment(Finished(s.workers), s.running), Moment(Finished(s'.workers), s'.running))
  {
    var (f, f') := (Finished(s.workers), Finished(s'.workers));
    var (w, w') := (s.workers[s.running], s'.workers[s.running]);
    NextIsNearest(f, s.running);
    assert forall k | 0 <= k < |f| && k != s.running :: f'[k] == f[k];
    if w'.phase == w.phase {
      assert f' == f;
    } else {
      assert f' == f[s.running := true];
    }
  }

  // ---------- how much is left ----------

  function RangeWork(range: Range): nat {
    (if range.r < range.l then 1 else 5 * (range.r - range.l + 1) + 1) + range.due
  }

  /** A bound on the steps that a coroutine still makes, calls of swap among them. */
  function Left(w: Worker): nat {
    w.owed + match w.phase
             case Reading(rest) => 2 * |rest| + 7 * (|w.buf| + |rest|) + 9
             case Sorting(pending) => Sum(pending, RangeWork) + 2 * |w.buf| + 5
             case Writing(count) => if count <= |w.buf| then 2 * (|w.buf| - count) + 3 else 0
             case Closing => 1
             case Ended => 0
  }

  /** No pivot and no interleaving makes a coroutine run for ever. */
  lemma WorkGoesDown(w: Worker, w': Worker)
    requires WorkerOk(w) && Works(w, w') && w.owed == 0
    ensures Left(w') < Left(w)
  {
    if w.phase.Reading? && w.phase.rest == [] {
      var whole := Range(0, |w.buf| - 1, 1);
      assert Sum([whole], RangeWork) == RangeWork(whole) + Sum([], RangeWork);
    }
    if w.phase.Sorting? && w.phase.pending != [] && w.phase.pending[0].l < w.phase.pending[0].r {
      var pending := w.phase.pending;
      var p: nat, buf': seq<int> :| Partitioned(w.buf, buf', pending[0].l, pending[0].r, p)
        && w' == w.(buf := buf', phase := Sorting(Halves(pending[0], p) + pending[1..]), owed := 1);
      HalvesWork(pending[0], p, pending[1..]);
    }
  }

  lemma HalvesWork(range: Range, p: nat, rest: seq<Range>)
    requires range.l <= p <= range.r
    ensures Sum(Halves(range, p) + rest, RangeWork) + 2 == RangeWork(range) + Sum(rest, RangeWork)
  {
    var (a, b) := (Halves(range, p)[0], Halves(range, p)[1]);
    assert (Halves(range, p) + rest)[1..] == [b] + rest;
    assert ([b] + rest)[1..] == rest;
  }

  /** Every step, whichever it is, brings the end nearer. */
  lemma StepGoesDown(s: State, s': State, inputs: seq<seq<int>>)
    requires Inv(s, inputs) && Step(s, s')
    ensures Sum(s'.workers, Left) < Sum(s.workers, Left)
  {
    hide Sum, Works, Next;
    var (w, w') := (s.workers[s.running], s'.workers[s.running]);
    assert s'.workers == s.workers[s.running := w'];
    SumUpdate(s.workers, s.running, w', Left);
    if w.owed == 0 && Works(w, w') {
      WorkGoesDown(w, w');
    }
  }
}
