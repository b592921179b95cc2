/** A lock of one futex word, and threads that increment a counter under it. */
module Futex {
  import opened Sums

  /** Where a thread is: at the compare-and-swap of futex_lock; in front of futex_wait; asleep
      in it; at the load and the store of counter = counter + 1; at the compare-and-swap and at
      the wake-up of futex_unlock; behind the loop. */
  datatype Pc = Try | Wait | Asleep | Load | Store | Unlock | Wake | Done

  /** left: iterations whose store is still to come; tmp: the value loaded. */
  datatype Thread = Thread(pc: Pc, left: nat, tmp: nat)

  datatype State = State(futex: nat, counter: nat, threads: seq<Thread>)

  /** The step of thread i; at its wake-up the kernel wakes the sleeper j, if there is one. */
  datatype Action = Go(i: nat) | WakeOther(i: nat, j: nat) | Spurious(j: nat)

  function InSection(t: Thread): nat {
    if t.pc == Load || t.pc == Store || t.pc == Unlock then 1 else 0
  }

  function Left(t: Thread): nat {
    t.left
  }

  function Sleeping(t: Thread): nat {
    if t.pc == Asleep then 1 else 0
  }

  /** Awake, and about to try the lock again or to wake somebody. */
  function Alert(t: Thread): nat {
    if t.pc == Try || t.pc == Wait || t.pc == Wake then 1 else 0
  }

  predicate Finished(s: State) {
    forall i | 0 <= i < |s.threads| :: s.threads[i].pc == Done
  }

  predicate Enabled(s: State, a: Action) {
    match a
    case Go(i) =>
      && i < |s.threads| && s.threads[i].pc != Asleep && s.threads[i].pc != Done
      && (s.threads[i].pc == Wake ==> forall j | 0 <= j < |s.threads| :: s.threads[j].pc != Asleep)
    case WakeOther(i, j) => i < |s.threads| && j < |s.threads| && s.threads[i].pc == Wake && s.threads[j].pc == Asleep
    case Spurious(j) => j < |s.threads| && s.threads[j].pc == Asleep
  }

  /** Behind an iteration: the next one, or the end. */
  function Looped(t: Thread): Thread {
    t.(pc := if t.left == 0 then Done else Try)
  }

  function Step(s: State, a: Action): State
    requires Enabled(s, a)
  {
    match a
    case Go(i) =>
      var t := s.threads[i];
      (match t.pc
       case Try => if s.futex == 0 then State(1, s.counter, s.threads[i := t.(pc := Load)])
                   else s.(threads := s.threads[i := t.(pc := Wait)])
       case Wait => s.(threads := s.threads[i := t.(pc := if s.futex == 1 then Asleep else Try)])
       case Load => s.(threads := s.threads[i := t.(pc := Store, tmp := s.counter)])
       case Store => s.(counter := t.tmp + 1,
           threads := s.threads[i := t.(pc := Unlock, left := if t.left > 0 then t.left - 1 else 0)])
       case Unlock => s.(futex := if s.futex == 1 then 0 else s.futex, threads := s.threads[i := t.(pc := Wake)])
       case _ => s.(threads := s.threads[i := Looped(t)]))
    case WakeOther(i, j) =>
      s.(threads := s.threads[i := Looped(s.threads[i])][j := s.threads[j].(pc := Try)])
    case Spurious(j) =>
      s.(threads := s.threads[j := s.threads[j].(pc := Try)])
  }

  /** n threads with k iterations each. */
  function Start(n: nat, k: nat): State {
    State(0, 0, seq(n, _ => Looped(Thread(Done, k, 0))))
  }

  // ---------- the invariant ----------

  predicate ThreadOk(t: Thread, counter: nat) {
    && (t.pc == Try || t.pc == Wait || t.pc == Asleep || t.pc == Load || t.pc == Store ==> t.left > 0)
    && (t.pc == Done ==> t.left == 0)
    && (t.pc == Store ==> t.tmp == counter)
  }

  /** The word says whether somebody is in the critical section; nobody sleeps while the lock is
      free and nobody is about to notice. */
  predicate Inv(s: State, total: nat) {
    && s.futex == Sum(s.threads, InSection) <= 1
    && s.counter + Sum(s.threads, Left) == total
    && (forall i | 0 <= i < |s.threads| :: ThreadOk(s.threads[i], s.counter))
    && (s.futex == 0 && Sum(s.threads, Sleeping) > 0 ==> Sum(s.threads, Alert) > 0)
  }

  lemma StartHolds(n: nat, k: nat)
    ensures Inv(Start(n, k), n * k)
  {
    var t := Looped(Thread(Done, k, 0));
    SumOfEqual(n, t, InSection);
    SumOfEqual(n, t, Left);
    SumOfEqual(n, t, Sleeping);
  }

  /** How the sums change when one thread moves. */
  lemma Moved(ts: seq<Thread>, i: nat, t: Thread)
    requires i < |ts|
    ensures Sum(ts[i := t], InSection) + InSection(ts[i]) == Sum(ts, InSection) + InSection(t)
    ensures Sum(ts[i := t], Left) + Left(ts[i]) == Sum(ts, Left) + Left(t)
    ensures Sum(ts[i := t], Sleeping) + Sleeping(ts[i]) == Sum(ts, Sleeping) + Sleeping(t)
    ensures Sum(ts[i := t], Alert) + Alert(ts[i]) == Sum(ts, Alert) + Alert(t)
  {
    SumUpdate(ts, i, t, InSection);
    SumUpdate(ts, i, t, Left);
    SumUpdate(ts, i, t, Sleeping);
    SumUpdate(ts, i, t, Alert);
  }

  /** At most one thread is in the critical section. */
  lemma Exclusion(s: State, total: nat, i: nat, j: nat)
    requires Inv(s, total) && i < |s.threads| && j < |s.threads| && i != j
    ensures !(InSection(s.threads[i]) == 1 && InSection(s.threads[j]) == 1)
  {
    SumOfTwo(s.threads, if i < j then i else j, if i < j then j else i, InSection);
  }

  /** Only the thread in the critical section changes the counter. */
  lemma GoKeepsThreads(s: State, i: nat, total: nat)
    requires Inv(s, total) && Enabled(s, Go(i))
    ensures var s' := Step(s, Go(i)); forall k | 0 <= k < |s.threads| :: ThreadOk(s'.threads[k], s'.counter)
  {
    hide Sum;
    forall k | 0 <= k < |s.threads| && k != i
      ensures !(InSection(s.threads[i]) == 1 && InSection(s.threads[k]) == 1)
    {
      Exclusion(s, total, i, k);
    }
  }

  lemma GoKeepsInv(s: State, i: nat, total: nat)
    requires Inv(s, total) && Enabled(s, Go(i))
    ensures Inv(Step(s, Go(i)), total)
  {
    hide Sum;
    GoKeepsThreads(s, i, total);
    Moved(s.threads, i, Step(s, Go(i)).threads[i]);
    SumOfOne(s.threads, i, InSection);
    if s.threads[i].pc == Wake {
      SumIsZero(s.threads, Sleeping);
    }
  }

  lemma StepKeepsInv(s: State, a: Action, total: nat)
    requires Inv(s, total) && Enabled(s, a)
    ensures Inv(Step(s, a), total)
  {
    hide Sum;
    var s' := Step(s, a);
    match a
    case Go(i) =>
      GoKeepsInv(s, i, total);
    case WakeOther(i, j) =>
      Moved(s.threads, i, s'.threads[i]);
      Moved(s.threads[i := s'.threads[i]], j, s'.threads[j]);
    case Spurious(j) =>
      Moved(s.threads, j, s'.threads[j]);
  }

  // ---------- every run ends ----------

  /** Acquisitions still to come. */
  function ToAcquire(t: Thread): nat {
    if (t.pc == Load || t.pc == Store) && t.left > 0 then t.left - 1 else t.left
  }

  /** Steps to the end of this iteration. */
  function ToRelease(t: Thread): nat {
    match t.pc
    case Load => 4
    case Store => 3
    case Unlock => 2
    case Wake => 1
    case _ => 0
  }

  /** Steps to sleep while the lock is taken. */
  function ToSleep(t: Thread): nat {
    match t.pc
    case Try => 2
    case Wait => 1
    case _ => 0
  }

  /** Steps to the next attempt while the lock is free. */
  function ToRetry(t: Thread): nat {
    if t.pc == Wait then 1 else 0
  }

  lemma MovedRanks(ts: seq<Thread>, i: nat, t: Thread)
    requires i < |ts|
    ensures Sum(ts[i := t], ToAcquire) + ToAcquire(ts[i]) == Sum(ts, ToAcquire) + ToAcquire(t)
    ensures Sum(ts[i := t], ToRelease) + ToRelease(ts[i]) == Sum(ts, ToRelease) + ToRelease(t)
    ensures Sum(ts[i := t], ToSleep) + ToSleep(ts[i]) == Sum(ts, ToSleep) + ToSleep(t)
    ensures Sum(ts[i := t], ToRetry) + ToRetry(ts[i]) == Sum(ts, ToRetry) + ToRetry(t)
  {
    SumUpdate(ts, i, t, ToAcquire);
    SumUpdate(ts, i, t, ToRelease);
    SumUpdate(ts, i, t, ToSleep);
    SumUpdate(ts, i, t, ToRetry);
  }

  function Ranks(s: State): (nat, nat, nat, nat) {
    (Sum(s.threads, ToAcquire), s.futex, Sum(s.threads, ToRelease),
        Sum(s.threads, if s.futex == 1 then ToSleep else ToRetry))
  }

  predicate Below(a: (nat, nat, nat, nat), b: (nat, nat, nat, nat)) {
    a.0 < b.0 || (a.0 == b.0 && (a.1 < b.1 || (a.1 == b.1 && (a.2 < b.2 || (a.2 == b.2 && a.3 < b.3)))))
  }

  /** No step is spent waiting: all bring the end nearer, unless the kernel wakes without reason. */
  lemma StepGoesDown(s: State, a: Action, total: nat)
    requires Inv(s, total) && Enabled(s, a) && !a.Spurious?
    ensures Below(Ranks(Step(s, a)), Ranks(s))
  {
    hide Sum;
    var s' := Step(s, a);
    SumOfOne(s.threads, a.i, InSection);
    MovedRanks(s.threads, a.i, if a.Go? then s'.threads[a.i] else Looped(s.threads[a.i]));
    if a.WakeOther? {
      MovedRanks(s.threads[a.i := Looped(s.threads[a.i])], a.j, s'.threads[a.j]);
    }
  }

  /** As long as some thread is not done, some thread can go on: no sleeper is stranded. */
  lemma NeverStuck(s: State, total: nat) returns (a: Action)
    requires Inv(s, total) && !Finished(s)
    ensures Enabled(s, a) && !a.Spurious?
  {
    var i: nat :| i < |s.threads| && s.threads[i].pc != Done;
    if s.futex == 1 {
      i := SumIsPositive(s.threads, InSection);
    } else if s.threads[i].pc == Asleep {
      SumOfOne(s.threads, i, Sleeping);
      i := SumIsPositive(s.threads, Alert);
    }
    a := Go(i);
    if !Enabled(s, a) {
      var j: nat :| j < |s.threads| && s.threads[j].pc == Asleep;
      a := WakeOther(i, j);
    }
  }

  lemma FinishedCounts(s: State, total: nat)
    requires Inv(s, total) && Finished(s)
    ensures s.counter == total
  {
    SumIsZero(s.threads, Left);
  }

  /** The state n steps after the step number from of the schedule. */
  function After(s: State, schedule: nat -> Action, from: nat, n: nat): State
    decreases n
  {
    if n == 0 then s
    else After(if Enabled(s, schedule(from)) then Step(s, schedule(from)) else s, schedule, from + 1, n - 1)
  }

  /** In every run, with whatever wake-ups, the critical section holds at most one thread and
      the counter is the number of iterations whose store was made. */
  lemma {:induction false} AlwaysExclusive(s: State, total: nat, schedule: nat -> Action, from: nat, n: nat, i: nat,
                                           j: nat)
    requires Inv(s, total) && i < |s.threads| && j < |s.threads| && i != j
    ensures var r := After(s, schedule, from, n);
            && Inv(r, total) && |r.threads| == |s.threads| && r.counter + Sum(r.threads, Left) == total
            && !(InSection(r.threads[i]) == 1 && InSection(r.threads[j]) == 1)
    decreases n
  {
    if n == 0 {
      Exclusion(s, total, i, j);
    } else {
      var a := schedule(from);
      if Enabled(s, a) {
        StepKeepsInv(s, a, total);
      }
      AlwaysExclusive(if Enabled(s, a) then Step(s, a) else s, total, schedule, from + 1, n - 1, i, j);
    }
  }

  /** At this point of the run the schedule takes an enabled step, if there is one left to take. */
  predicate GoesOn(s: State, schedule: nat -> Action, from: nat, n: nat) {
    var r := After(s, schedule, from, n);
    Finished(r) || (Enabled(r, schedule(from + n)) && !schedule(from + n).Spurious?)
  }

  lemma {:induction false} Ends(s: State, total: nat, schedule: nat -> Action, from: nat) returns (n: nat)
    requires Inv(s, total)
    requires forall m: nat :: GoesOn(s, schedule, from, m)
    ensures Finished(After(s, schedule, from, n)) && After(s, schedule, from, n).counter == total
    decreases Ranks(s).0, Ranks(s).1, Ranks(s).2, Ranks(s).3
  {
    if Finished(s) {
      FinishedCounts(s, total);
      n := 0;
    } else {
      var a := schedule(from);
      assert GoesOn(s, schedule, from, 0);
      StepKeepsInv(s, a, total);
      StepGoesDown(s, a, total);
      var s', next := Step(s, a), from + 1;
      forall m: nat
        ensures GoesOn(s', schedule, next, m)
      {
        assert GoesOn(s, schedule, from, m + 1);
        assert next + m == from + (m + 1);
      }
      var m := Ends(s', total, schedule, next);
      n := m + 1;
    }
  }

  /** n threads with k iterations each: whatever enabled steps are taken in whatever order, the
      program ends, and no increment is lost. */
  lemma CounterIsExact(n: nat, k: nat, schedule: nat -> Action)
    requires forall m: nat :: GoesOn(Start(n, k), schedule, 0, m)
    ensures exists m: nat ::
            Finished(After(Start(n, k), schedule, 0, m)) && After(Start(n, k), schedule, 0, m).counter == n * k
  {
    StartHolds(n, k);
    var m := Ends(Start(n, k), n * k, schedule, 0);
    assert Finished(After(Start(n, k), schedule, 0, m));
  }
}
