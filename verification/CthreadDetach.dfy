/** Detached threads that free each other's stacks.

    Each thread has a runner, which ends it, and a detacher; whichever of the two comes second
    hands the thread's stack to a common list, and on that occasion frees the stacks at the
    head of the list whose threads the kernel has reported as gone. */
module CthreadDetach {
  import opened Sums

  /** Where a runner or a detacher is: not yet begun; in front of the thread's lock; at the test
      of the other one's flag; in cthread_destroy in front of the list's lock, at the head of
      the loop, at the push, at the unlock; at the store of its own flag; at the unlock; behind. */
  datatype Pc = Begin | Lock | Test | ListLock | Sweep | Push | ListUnlock | Mark | Unlock | Done

  /** The tid in a stack's list node: written by clone, zeroed by the kernel when the thread is gone. */
  datatype Tid = Unset | Alive | Zero

  /** destroyed: calls of cthread_destroy for this thread; freed: how often its stack was freed. */
  datatype Thread = Thread(
    locked: bool, finished: bool, detached: bool, tid: Tid, runner: Pc, detacher: Pc, destroyed: nat, freed: nat)

  /** stacks: the list, as the threads whose stacks are in it; rest: what the thread that holds
      the list's lock has not looked at yet. */
  datatype State = State(listLocked: bool, stacks: seq<nat>, rest: seq<nat>, threads: seq<Thread>)

  datatype Action = Run(i: nat) | Detach(i: nat) | Gone(i: nat)

  predicate InLock(pc: Pc) {
    pc != Begin && pc != Lock && pc != Done
  }

  predicate InList(pc: Pc) {
    pc == Sweep || pc == Push || pc == ListUnlock
  }

  predicate InDestroy(pc: Pc) {
    InList(pc) || pc == ListLock
  }

  predicate Tested(pc: Pc) {
    pc == Done || (InLock(pc) && pc != Test)
  }

  function Locks(t: Thread): nat {
    (if InLock(t.runner) then 1 else 0) + if InLock(t.detacher) then 1 else 0
  }

  function ListLocks(t: Thread): nat {
    (if InList(t.runner) then 1 else 0) + if InList(t.detacher) then 1 else 0
  }

  /** Between taking the list apart and putting it together again. */
  function Sweeps(t: Thread): nat {
    (if t.runner == Sweep || t.runner == Push then 1 else 0) +
        if t.detacher == Sweep || t.detacher == Push then 1 else 0
  }

  /** The stack was put into the list. */
  predicate Pushed(t: Thread) {
    t.destroyed > 0 && !Before(t.runner) && !Before(t.detacher)
  }

  predicate Before(pc: Pc) {
    InDestroy(pc) && pc != ListUnlock
  }

  // ---------- the steps ----------

  function With(t: Thread, runs: bool, pc: Pc): Thread {
    if runs then t.(runner := pc) else t.(detacher := pc)
  }

  predicate CanGo(s: State, i: nat, pc: Pc) {
    i < |s.threads| && pc != Done && (pc == Lock ==> !s.threads[i].locked) && (pc == ListLock ==> !s.listLocked)
  }

  predicate Enabled(s: State, a: Action) {
    match a
    case Run(i) => i < |s.threads| && CanGo(s, i, s.threads[i].runner)
    case Detach(i) => i < |s.threads| && CanGo(s, i, s.threads[i].detacher)
    case Gone(i) => i < |s.threads| && s.threads[i].runner == Done && s.threads[i].tid == Alive
  }

  function At(t: Thread, runs: bool): Pc {
    if runs then t.runner else t.detacher
  }

  /** A step of the runner if runs, else of the detacher: they differ in the flags only. */
  function Next(t: Thread, runs: bool): Thread {
    match At(t, runs)
    case Begin => With(if runs then t.(tid := Alive) else t, runs, Lock)
    case Lock => With(t.(locked := true), runs, Test)
    case Test =>
      if (if runs then t.detached else t.finished) then With(t.(destroyed := t.destroyed + 1), runs, ListLock)
      else With(t, runs, Mark)
    case ListLock => With(t, runs, Sweep)
    case Sweep => With(t, runs, Push)
    case Push => With(t, runs, ListUnlock)
    case ListUnlock => With(t, runs, Mark)
    case Mark => With(if runs then t.(finished := true) else t.(detached := true), runs, Unlock)
    case Unlock => With(t.(locked := false), runs, Done)
    case Done => t
  }

  /** The stack at the head of the rest of the list belongs to a thread that is gone. */
  predicate Frees(s: State, i: nat, runs: bool)
    requires i < |s.threads|
  {
    At(s.threads[i], runs) == Sweep && s.rest != [] && s.rest[0] < |s.threads| && s.threads[s.rest[0]].tid == Zero
  }

  function Go(s: State, i: nat, runs: bool): State
    requires i < |s.threads|
  {
    var pc := At(s.threads[i], runs);
    if Frees(s, i, runs) then
      var k := s.rest[0];
      s.(rest := s.rest[1..], threads := s.threads[k := s.threads[k].(freed := s.threads[k].freed + 1)])
    else
      s.(listLocked := pc == ListLock || (s.listLocked && pc != ListUnlock),
         rest := if pc == ListLock then s.stacks else s.rest,
         stacks := if pc == Push then [i] + s.rest else s.stacks,
         threads := s.threads[i := Next(s.threads[i], runs)])
  }

  function Step(s: State, a: Action): State
    requires Enabled(s, a)
  {
    match a
    case Run(i) => Go(s, i, true)
    case Detach(i) => Go(s, i, false)
    case Gone(i) => s.(threads := s.threads[i := s.threads[i].(tid := Zero)])
  }

  // ---------- the invariant ----------

  predicate ThreadOk(t: Thread) {
    && Locks(t) == (if t.locked then 1 else 0)
    && (t.finished <==> t.runner == Unlock || t.runner == Done)
    && (t.detached <==> t.detacher == Unlock || t.detacher == Done)
    && (InDestroy(t.runner) ==> t.detached) && (InDestroy(t.detacher) ==> t.finished)
    && t.destroyed == (if Tested(t.runner) && Tested(t.detacher) then 1 else 0)
    && (t.tid == Unset <==> t.runner == Begin)
    && (t.tid == Zero ==> t.runner == Done)
    && (t.freed > 0 ==> t.tid == Zero && Pushed(t))
  }

  /** The list as it is, or as far as it is not taken apart. */
  function Listed(s: State): seq<nat> {
    if Sum(s.threads, Sweeps) > 0 then s.rest else s.stacks
  }

  /** Each stack in the list was pushed and not freed, each stack pushed and not in the list was freed once. */
  predicate ListOk(listed: seq<nat>, threads: seq<Thread>) {
    && (forall i, j | 0 <= i < j < |listed| :: listed[i] != listed[j])
    && (forall k | k in listed :: k < |threads| && Pushed(threads[k]) && threads[k].freed == 0)
    && (forall k | 0 <= k < |threads| && k !in listed :: threads[k].freed == if Pushed(threads[k]) then 1 else 0)
  }

  predicate Inv(s: State) {
    && (forall i | 0 <= i < |s.threads| :: ThreadOk(s.threads[i]))
    && Sum(s.threads, ListLocks) == (if s.listLocked then 1 else 0)
    && ListOk(Listed(s), s.threads)
  }

  lemma Moved(ts: seq<Thread>, i: nat, t: Thread)
    requires i < |ts|
    ensures Sum(ts[i := t], ListLocks) + ListLocks(ts[i]) == Sum(ts, ListLocks) + ListLocks(t)
    ensures Sum(ts[i := t], Sweeps) + Sweeps(ts[i]) == Sum(ts, Sweeps) + Sweeps(t)
  {
    SumUpdate(ts, i, t, ListLocks);
    SumUpdate(ts, i, t, Sweeps);
  }

  lemma {:induction false} SweepsHoldTheLock(ts: seq<Thread>)
    ensures Sum(ts, Sweeps) <= Sum(ts, ListLocks)
  {
    if ts == [] {
    } else {
      SweepsHoldTheLock(ts[1..]);
    }
  }

  lemma FreeKeepsList(listed: seq<nat>, ts: seq<Thread>)
    requires ListOk(listed, ts) && listed != [] && listed[0] < |ts|
    ensures var k := listed[0]; ListOk(listed[1..], ts[k := ts[k].(freed := ts[k].freed + 1)])
  {
    assert listed[0] in listed;
    assert forall k :: k in listed <==> k == listed[0] || k in listed[1..];
  }

  lemma FreeKeepsInv(s: State, i: nat, runs: bool)
    requires Inv(s) && i < |s.threads| && Frees(s, i, runs)
    ensures Inv(Go(s, i, runs)) && |Go(s, i, runs).threads| == |s.threads|
  {
    hide Sum, ListOk;
    SumOfOne(s.threads, i, Sweeps);
    Moved(s.threads, s.rest[0], Go(s, i, runs).threads[s.rest[0]]);
    FreeKeepsList(s.rest, s.threads);
    ListOkIs(s.rest, s.threads);
  }

  lemma ListOkIs(listed: seq<nat>, ts: seq<Thread>)
    requires ListOk(listed, ts)
    ensures forall k | k in listed :: k < |ts| && Pushed(ts[k]) && ts[k].freed == 0
  {
  }

  lemma NextIsOk(t: Thread, runs: bool)
    requires ThreadOk(t) && At(t, runs) != Done && (At(t, runs) == Lock ==> !t.locked)
    ensures ThreadOk(Next(t, runs))
  {
  }

  /** What a step means for the list. */
  lemma NextForList(t: Thread, runs: bool)
    requires ThreadOk(t)
    ensures var (t', pc) := (Next(t, runs), At(t, runs));
            && t'.freed == t.freed && (Pushed(t') <==> Pushed(t) || pc == Push) && (pc == Push ==> !Pushed(t))
            && Sweeps(t') - Sweeps(t) == (if pc == ListLock then 1 else if pc == Push then -1 else 0)
            && ListLocks(t') - ListLocks(t) == (if pc == ListLock then 1 else if pc == ListUnlock then -1 else 0)
            && (pc == Sweep || pc == Push ==> Sweeps(t) > 0)
            && (pc == Sweep || pc == Push || pc == ListUnlock ==> ListLocks(t) > 0)
  {
  }

  lemma InvIs(s: State)
    requires Inv(s)
    ensures Sum(s.threads, ListLocks) == (if s.listLocked then 1 else 0) && ListOk(Listed(s), s.threads)
    ensures Sum(s.threads, Sweeps) <= Sum(s.threads, ListLocks)
  {
    SweepsHoldTheLock(s.threads);
  }

  lemma GoKeepsList(s: State, i: nat, runs: bool)
    requires Inv(s) && i < |s.threads| && CanGo(s, i, At(s.threads[i], runs))
    requires !Frees(s, i, runs) && ThreadOk(s.threads[i])
    ensures ListOk(Listed(Go(s, i, runs)), Go(s, i, runs).threads)
    ensures Sum(Go(s, i, runs).threads, ListLocks) == (if Go(s, i, runs).listLocked then 1 else 0)
  {
    hide Sum, Inv, ThreadOk, Next, Pushed, Sweeps, ListLocks;
    InvIs(s);
    NextForList(s.threads[i], runs);
    SumOfOne(s.threads, i, Sweeps);
    SumOfOne(s.threads, i, ListLocks);
    Moved(s.threads, i, Next(s.threads[i], runs));
  }

  lemma GoKeepsInv(s: State, i: nat, runs: bool)
    requires Inv(s) && i < |s.threads| && CanGo(s, i, At(s.threads[i], runs))
    ensures Inv(Go(s, i, runs)) && |Go(s, i, runs).threads| == |s.threads|
  {
    hide Sum, ListOk, ThreadOk, Listed, Next;
    if Frees(s, i, runs) {
      FreeKeepsInv(s, i, runs);
    } else {
      NextIsOk(s.threads[i], runs);
      GoKeepsList(s, i, runs);
    }
  }

  lemma GoneKeepsInv(s: State, i: nat)
    requires Inv(s) && Enabled(s, Gone(i))
    ensures Inv(Step(s, Gone(i)))
  {
    hide Sum;
    Moved(s.threads, i, Step(s, Gone(i)).threads[i]);
  }

  lemma StepKeepsInv(s: State, a: Action)
    requires Inv(s) && Enabled(s, a)
    ensures Inv(Step(s, a)) && |Step(s, a).threads| == |s.threads|
  {
    hide Go, Inv;
    match a
    case Run(i) => GoKeepsInv(s, i, true);
    case Detach(i) => GoKeepsInv(s, i, false);
    case Gone(i) => GoneKeepsInv(s, i);
  }

  // ---------- every run ----------

  /** n threads are created; nothing has run yet. */
  function Start(n: nat): State {
    State(false, [], [], seq(n, _ => Thread(false, false, false, Unset, Begin, Begin, 0, 0)))
  }

  lemma StartHolds(n: nat)
    ensures Inv(Start(n))
  {
    var t := Thread(false, false, false, Unset, Begin, Begin, 0, 0);
    SumOfEqual(n, t, ListLocks);
    SumOfEqual(n, t, Sweeps);
  }

  /** The state n steps after the step number from of the schedule. */
  function After(s: State, schedule: nat -> Action, from: nat, n: nat): State
    decreases n
  {
    if n == 0 then s
    else After(if Enabled(s, schedule(from)) then Step(s, schedule(from)) else s, schedule, from + 1, n - 1)
  }

  lemma {:induction false} RunKeepsInv(s: State, schedule: nat -> Action, from: nat, n: nat)
    requires Inv(s)
    ensures Inv(After(s, schedule, from, n)) && |After(s, schedule, from, n).threads| == |s.threads|
    decreases n
  {
    hide Inv, Go, Step;
    if n == 0 {
    } else {
      var a := schedule(from);
      if Enabled(s, a) {
        StepKeepsInv(s, a);
      }
      RunKeepsInv(if Enabled(s, a) then Step(s, a) else s, schedule, from + 1, n - 1);
    }
  }

  /** In every run: cthread_destroy is called at most once for a thread, and then the runner has
      decided to finish and the detacher to detach; a stack is freed at most once, and only when
      the kernel has zeroed the thread's tid; and the list of stacks never holds a freed one. */
  lemma AlwaysFreedOnce(n: nat, schedule: nat -> Action, steps: nat, i: nat)
    requires i < n
    ensures var s := After(Start(n), schedule, 0, steps);
            && |s.threads| == n && s.threads[i].destroyed <= 1 && s.threads[i].freed <= 1
            && (s.threads[i].destroyed == 1 ==> Tested(s.threads[i].runner) && Tested(s.threads[i].detacher))
            && (s.threads[i].freed == 1 ==>
                s.threads[i].destroyed == 1 && s.threads[i].tid == Zero && s.threads[i].runner == Done)
            && (!s.listLocked && i in s.stacks ==> s.threads[i].freed == 0)
  {
    StartHolds(n);
    RunKeepsInv(Start(n), schedule, 0, steps);
    var s := After(Start(n), schedule, 0, steps);
    SweepsHoldTheLock(s.threads);
  }

  /** The node that a step of the list's owner or of the kernel reads or writes is not freed. */
  lemma NoUseAfterFree(s: State, i: nat)
    requires Inv(s) && i < |s.threads|
    ensures (s.threads[i].runner == Sweep || s.threads[i].detacher == Sweep) && s.rest != [] ==>
              s.rest[0] < |s.threads| && s.threads[s.rest[0]].freed == 0
    ensures s.threads[i].runner == Push || s.threads[i].detacher == Push ==> s.threads[i].freed == 0
    ensures s.threads[i].tid == Alive ==> s.threads[i].freed == 0
  {
    SumOfOne(s.threads, i, Sweeps);
    if s.rest != [] {
      assert s.rest[0] in s.rest;
    }
  }

  /** One step of whoever sweeps the list: the head is freed if its thread is gone, and else, or if
      there is none, the sweep ends there. */
  lemma SweepIs(s: State, i: nat, runs: bool)
    requires Inv(s) && i < |s.threads| && At(s.threads[i], runs) == Sweep
    ensures s.rest != [] ==> s.rest[0] < |s.threads|
    ensures var s' := Go(s, i, runs);
            && |s'.threads| == |s.threads| && s'.stacks == s.stacks
            && if s.rest != [] && s.threads[s.rest[0]].tid == Zero
               then
                 && s'.rest == s.rest[1..] && At(s'.threads[i], runs) == Sweep
                 && s'.threads[s.rest[0]].freed == s.threads[s.rest[0]].freed + 1
                 && forall k | 0 <= k < |s.threads| && k != s.rest[0] :: s'.threads[k] == s.threads[k]
               else
                 && s'.rest == s.rest && At(s'.threads[i], runs) == Push
                 && forall k | 0 <= k < |s.threads| :: s'.threads[k].freed == s.threads[k].freed
  {
    NoUseAfterFree(s, i);
  }

  /** The sweep begins with the whole list; behind it the own stack is put in front of what is left;
      and no other step frees anything or changes the list. */
  lemma ListIs(s: State, i: nat, runs: bool)
    requires i < |s.threads| && At(s.threads[i], runs) != Sweep
    ensures var (s', pc) := (Go(s, i, runs), At(s.threads[i], runs));
            && |s'.threads| == |s.threads|
            && (pc == ListLock ==> s'.rest == s.stacks && At(s'.threads[i], runs) == Sweep)
            && s'.stacks == (if pc == Push then [i] + s.rest else s.stacks)
            && forall k | 0 <= k < |s.threads| :: s'.threads[k].freed == s.threads[k].freed
  {
  }

  // ---------- every run ends ----------

  predicate Finished(s: State) {
    forall i | 0 <= i < |s.threads| ::
        s.threads[i].runner == Done && s.threads[i].detacher == Done && s.threads[i].tid == Zero
  }

  /** The two nested locks cannot deadlock. */
  lemma NeverStuck(s: State) returns (a: Action)
    requires Inv(s) && !Finished(s)
    ensures Enabled(s, a)
  {
    hide Sum, ListOk;
    if s.listLocked {
      var i := SumIsPositive(s.threads, ListLocks);
      a := if InList(s.threads[i].runner) then Run(i) else Detach(i);
    } else {
      var i: nat :| i < |s.threads|
          && !(s.threads[i].runner == Done && s.threads[i].detacher == Done && s.threads[i].tid == Zero);
      assert ThreadOk(s.threads[i]);
      a := if CanGo(s, i, s.threads[i].runner) then Run(i) else if CanGo(s, i, s.threads[i].detacher) then Detach(i)
          else Gone(i);
    }
  }

  function Ahead(pc: Pc): nat {
    match pc
    case Begin => 9
    case Lock => 8
    case Test => 7
    case ListLock => 6
    case Sweep => 5
    case Push => 4
    case ListUnlock => 3
    case Mark => 2
    case Unlock => 1
    case Done => 0
  }

  function Work(t: Thread): nat {
    Ahead(t.runner) + Ahead(t.detacher) + if t.tid == Zero then 0 else 1
  }

  /** Below in the lexicographic order of the work left and the stacks not looked at. */
  predicate Nearer(s': State, s: State) {
    Sum(s'.threads, Work) < Sum(s.threads, Work)
        || (Sum(s'.threads, Work) == Sum(s.threads, Work) && |s'.rest| < |s.rest|)
  }

  lemma LessAhead(t: Thread, runs: bool)
    requires At(t, runs) != Done && (t.tid == Unset <==> t.runner == Begin)
    ensures Work(Next(t, runs)) < Work(t)
  {
  }

  lemma GoGoesDown(s: State, i: nat, runs: bool)
    requires i < |s.threads| && CanGo(s, i, At(s.threads[i], runs))
    requires s.threads[i].tid == Unset <==> s.threads[i].runner == Begin
    ensures Nearer(Go(s, i, runs), s)
  {
    hide Sum, Next, Work;
    if Frees(s, i, runs) {
      var k := s.rest[0];
      FreedIsWork(s.threads[k]);
      SumUpdate(s.threads, k, Go(s, i, runs).threads[k], Work);
    } else {
      LessAhead(s.threads[i], runs);
      SumUpdate(s.threads, i, Next(s.threads[i], runs), Work);
    }
  }

  lemma FreedIsWork(t: Thread)
    ensures Work(t.(freed := t.freed + 1)) == Work(t)
  {
  }

  /** A step that is not spent spinning brings the end nearer. */
  lemma StepGoesDown(s: State, a: Action)
    requires Inv(s) && Enabled(s, a)
    ensures Nearer(Step(s, a), s)
  {
    hide Sum, Go, ListOk;
    match a
    case Run(i) => GoGoesDown(s, i, true);
    case Detach(i) => GoGoesDown(s, i, false);
    case Gone(i) => SumUpdate(s.threads, i, Step(s, a).threads[i], Work);
  }

  /** At this point of the run the schedule takes an enabled step, if there is one left to take. */
  predicate GoesOn(s: State, schedule: nat -> Action, from: nat, n: nat) {
    var r := After(s, schedule, from, n);
    Finished(r) || Enabled(r, schedule(from + n))
  }

  lemma {:induction false} Ends(s: State, schedule: nat -> Action, from: nat) returns (n: nat)
    requires Inv(s) && forall m: nat :: GoesOn(s, schedule, from, m)
    ensures Finished(After(s, schedule, from, n))
    decreases Sum(s.threads, Work), |s.rest|
  {
    hide Inv, Go, Step, Finished;
    if Finished(s) {
      n := 0;
    } else {
      var a := schedule(from);
      assert GoesOn(s, schedule, from, 0);
      StepKeepsInv(s, a);
      StepGoesDown(s, a);
      var s', next := Step(s, a), from + 1;
      forall m: nat
        ensures GoesOn(s', schedule, next, m)
      {
        assert GoesOn(s, schedule, from, m + 1);
        assert next + m == from + (m + 1);
      }
      var m := Ends(s', schedule, next);
      n := m + 1;
    }
  }

  /** Every run ends; then each thread was destroyed exactly once, and each stack was either
      freed or is still in the list. */
  lemma AllDestroyedOnce(n: nat, schedule: nat -> Action) returns (steps: nat)
    requires forall m: nat :: GoesOn(Start(n), schedule, 0, m)
    ensures var s := After(Start(n), schedule, 0, steps);
            && Finished(s) && |s.threads| == n && !s.listLocked
            && forall i | 0 <= i < n ::
               s.threads[i].destroyed == 1 && (s.threads[i].freed == if i in s.stacks then 0 else 1)
  {
    StartHolds(n);
    steps := Ends(Start(n), schedule, 0);
    RunKeepsInv(Start(n), schedule, 0, steps);
    var s := After(Start(n), schedule, 0, steps);
    SumIsZero(s.threads, ListLocks);
    SumIsZero(s.threads, Sweeps);
  }
}
