/** A counting semaphore of a counter, a mutex and a condition variable.

    A thread may get and put in any order, any number of times.  Waiting on the condition
    gives up the mutex and falls asleep in one step; a signal wakes one sleeper, if there is
    one; a sleeper may also wake up without a signal. */
module Semaphore {
  import opened Sums

  /** Outside; in front of the lock of get; at its first check; asleep; woken, in front of the
      mutex; at a check after being woken; at the decrement; in front of the lock of put; at the
      increment; at the signal; at the unlock. */
  datatype Pc = Idle | GetLock | Check | Asleep | Woken | Recheck | Take | PutLock | Add | Signal | Unlock

  datatype State = State(counter: int, locked: bool, gets: nat, puts: nat, threads: seq<Pc>)

  /** Idle threads choose between get and put; a signal wakes the sleeper j. */
  datatype Action = StartGet(i: nat) | StartPut(i: nat) | Go(i: nat) | SignalTo(i: nat, j: nat) | Spurious(j: nat)

  function Holding(pc: Pc): nat {
    if pc == Check || pc == Recheck || pc == Take || pc == Add || pc == Signal || pc == Unlock then 1 else 0
  }

  function Sleeping(pc: Pc): nat {
    if pc == Asleep then 1 else 0
  }

  /** Woken and yet to retry, or about to wake somebody. */
  function Pending(pc: Pc): nat {
    if pc == Woken || pc == Recheck || pc == Signal then 1 else 0
  }

  /** Has seen a positive counter under the mutex. */
  function Taking(pc: Pc): nat {
    if pc == Take then 1 else 0
  }

  predicate Enabled(s: State, a: Action) {
    match a
    case StartGet(i) => i < |s.threads| && s.threads[i] == Idle
    case StartPut(i) => i < |s.threads| && s.threads[i] == Idle
    case Go(i) =>
      && i < |s.threads| && s.threads[i] != Idle && s.threads[i] != Asleep
      && (s.threads[i] == GetLock || s.threads[i] == PutLock || s.threads[i] == Woken ==> !s.locked)
      && (s.threads[i] == Signal ==> forall j | 0 <= j < |s.threads| :: s.threads[j] != Asleep)
    case SignalTo(i, j) => i < |s.threads| && j < |s.threads| && s.threads[i] == Signal && s.threads[j] == Asleep
    case Spurious(j) => j < |s.threads| && s.threads[j] == Asleep
  }

  function Step(s: State, a: Action): State
    requires Enabled(s, a)
  {
    match a
    case StartGet(i) => s.(threads := s.threads[i := GetLock])
    case StartPut(i) => s.(threads := s.threads[i := PutLock])
    case SignalTo(i, j) => s.(threads := s.threads[i := Unlock][j := Woken])
    case Spurious(j) => s.(threads := s.threads[j := Woken])
    case Go(i) =>
      match s.threads[i]
      case GetLock => s.(locked := true, threads := s.threads[i := Check])
      case PutLock => s.(locked := true, threads := s.threads[i := Add])
      case Woken => s.(locked := true, threads := s.threads[i := Recheck])
      case Take => s.(counter := s.counter - 1, gets := s.gets + 1, threads := s.threads[i := Unlock])
      case Add => s.(counter := s.counter + 1, puts := s.puts + 1, threads := s.threads[i := Signal])
      case Signal => s.(threads := s.threads[i := Unlock])
      case Unlock => s.(locked := false, threads := s.threads[i := Idle])
      case _ =>
        if s.counter == 0 then s.(locked := false, threads := s.threads[i := Asleep])
        else s.(threads := s.threads[i := Take])
  }

  /** One thread at most holds the mutex; units are neither lost nor made; and while somebody
      sleeps, for every unit somebody is still on the way who was woken or is going to wake. */
  predicate Inv(s: State, initial: nat) {
    && Sum(s.threads, Holding) == (if s.locked then 1 else 0)
    && s.counter + s.gets == initial + s.puts
    && Sum(s.threads, Taking) <= s.counter
    && (Sum(s.threads, Sleeping) > 0 ==> s.counter <= Sum(s.threads, Pending) + Sum(s.threads, Taking))
  }

  lemma Moved(ts: seq<Pc>, i: nat, t: Pc)
    requires i < |ts|
    ensures Sum(ts[i := t], Holding) + Holding(ts[i]) == Sum(ts, Holding) + Holding(t)
    ensures Sum(ts[i := t], Sleeping) + Sleeping(ts[i]) == Sum(ts, Sleeping) + Sleeping(t)
    ensures Sum(ts[i := t], Pending) + Pending(ts[i]) == Sum(ts, Pending) + Pending(t)
    ensures Sum(ts[i := t], Taking) + Taking(ts[i]) == Sum(ts, Taking) + Taking(t)
  {
    SumUpdate(ts, i, t, Holding);
    SumUpdate(ts, i, t, Sleeping);
    SumUpdate(ts, i, t, Pending);
    SumUpdate(ts, i, t, Taking);
  }

  lemma NobodyElseTakes(ts: seq<Pc>, i: nat)
    requires i < |ts| && Holding(ts[i]) == 1 && Sum(ts, Holding) <= 1 && ts[i] != Take
    ensures Sum(ts, Taking) == 0
  {
    forall k | 0 <= k < |ts|
      ensures Taking(ts[k]) == 0
    {
      if k != i {
        SumOfTwo(ts, if i < k then i else k, if i < k then k else i, Holding);
      }
    }
    SumIsZero(ts, Taking);
  }

  lemma GoKeepsInv(s: State, i: nat, initial: nat)
    requires Inv(s, initial) && Enabled(s, Go(i))
    ensures Inv(Step(s, Go(i)), initial)
  {
    hide Sum;
    Moved(s.threads, i, Step(s, Go(i)).threads[i]);
    SumOfOne(s.threads, i, Holding);
    match s.threads[i]
    case Check => NobodyElseTakes(s.threads, i);
    case Recheck => NobodyElseTakes(s.threads, i);
    case Signal => SumIsZero(s.threads, Sleeping);
    case _ =>
  }

  lemma StepKeepsInv(s: State, a: Action, initial: nat)
    requires Inv(s, initial) && Enabled(s, a)
    ensures Inv(Step(s, a), initial)
  {
    hide Sum;
    match a
    case StartGet(i) =>
      Moved(s.threads, i, GetLock);
    case StartPut(i) =>
      Moved(s.threads, i, PutLock);
    case Go(i) =>
      GoKeepsInv(s, i, initial);
    case SignalTo(i, j) =>
      Moved(s.threads, i, Unlock);
      Moved(s.threads[i := Unlock], j, Woken);
    case Spurious(j) =>
      Moved(s.threads, j, Woken);
  }

  function Start(n: nat, initial: nat): State {
    State(initial, false, 0, 0, seq(n, _ => Idle))
  }

  lemma StartHolds(n: nat, initial: nat)
    ensures Inv(Start(n, initial), initial)
  {
    SumOfEqual(n, Idle, Holding);
    SumOfEqual(n, Idle, Sleeping);
    SumOfEqual(n, Idle, Taking);
  }

  /** The state after n steps of a schedule; steps that are not enabled are skipped. */
  function After(s: State, schedule: nat -> Action, n: nat): State {
    if n == 0 then s
    else
      var r := After(s, schedule, n - 1);
      if Enabled(r, schedule(n - 1)) then Step(r, schedule(n - 1)) else r
  }

  /** In every run the counter is what was there, plus the puts, minus the gets, and never
      negative; and nobody sleeps while there are more units than threads on their way to them. */
  lemma {:induction false} AlwaysBalanced(n: nat, initial: nat, schedule: nat -> Action, steps: nat)
    ensures var r := After(Start(n, initial), schedule, steps);
            && Inv(r, initial)
            && 0 <= r.counter == initial + r.puts - r.gets
            && (Sum(r.threads, Sleeping) > 0 ==> r.counter <= Sum(r.threads, Pending) + Sum(r.threads, Taking))
  {
    if steps == 0 {
      StartHolds(n, initial);
    } else {
      var r := After(Start(n, initial), schedule, steps - 1);
      AlwaysBalanced(n, initial, schedule, steps - 1);
      if Enabled(r, schedule(steps - 1)) {
        StepKeepsInv(r, schedule(steps - 1), initial);
      }
    }
  }

  // ---------- a get returns with a unit, a put after adding one ----------

  /** In semaphore_get, and without a unit so far. */
  function Getting(pc: Pc): nat {
    if pc == GetLock || pc == Check || pc == Asleep || pc == Woken || pc == Recheck || pc == Take then 1 else 0
  }

  /** In semaphore_put, and not yet behind the increment. */
  function Putting(pc: Pc): nat {
    if pc == PutLock || pc == Add then 1 else 0
  }

  /** How many calls of semaphore_get were started in the first n steps. */
  function GetsStarted(s: State, schedule: nat -> Action, n: nat): nat {
    if n == 0 then 0
    else
      var a := schedule(n - 1);
      GetsStarted(s, schedule, n - 1) + if a.StartGet? && Enabled(After(s, schedule, n - 1), a) then 1 else 0
  }

  function PutsStarted(s: State, schedule: nat -> Action, n: nat): nat {
    if n == 0 then 0
    else
      var a := schedule(n - 1);
      PutsStarted(s, schedule, n - 1) + if a.StartPut? && Enabled(After(s, schedule, n - 1), a) then 1 else 0
  }

  lemma StepCountsCalls(s: State, a: Action)
    requires Enabled(s, a)
    ensures var s' := Step(s, a);
            && s'.gets + Sum(s'.threads, Getting) == s.gets + Sum(s.threads, Getting) + (if a.StartGet? then 1 else 0)
            && s'.puts + Sum(s'.threads, Putting) == s.puts + Sum(s.threads, Putting) + (if a.StartPut? then 1 else 0)
  {
    hide Sum;
    var i, ts := if a.Spurious? then a.j else a.i, s.threads;
    var t := if a.SignalTo? then Unlock else Step(s, a).threads[i];
    SumUpdate(ts, i, t, Getting);
    SumUpdate(ts, i, t, Putting);
    if a.SignalTo? {
      SumUpdate(ts[i := t], a.j, Woken, Getting);
      SumUpdate(ts[i := t], a.j, Woken, Putting);
    }
  }

  /** In every run each call that was started has either taken or added its unit, or is on its way to
      that: no get comes back without a unit, and no call does its work twice. */
  lemma {:induction false} EveryCallCounts(n: nat, initial: nat, schedule: nat -> Action, steps: nat)
    ensures var (s, r) := (Start(n, initial), After(Start(n, initial), schedule, steps));
            && GetsStarted(s, schedule, steps) == r.gets + Sum(r.threads, Getting)
            && PutsStarted(s, schedule, steps) == r.puts + Sum(r.threads, Putting)
  {
    hide Sum, Step, Enabled;
    if steps == 0 {
      SumOfEqual(n, Idle, Getting);
      SumOfEqual(n, Idle, Putting);
    } else {
      EveryCallCounts(n, initial, schedule, steps - 1);
      var r := After(Start(n, initial), schedule, steps - 1);
      if Enabled(r, schedule(steps - 1)) {
        StepCountsCalls(r, schedule(steps - 1));
      }
    }
  }

  /** Nothing goes on unless an idle thread starts something, or a sleeper wakes for no reason. */
  ghost predicate Quiet(s: State) {
    forall a | Enabled(s, a) :: a.StartGet? || a.StartPut? || a.Spurious?
  }

  /** When nothing goes on, every thread is idle or asleep, and nobody sleeps on a unit: the
      mutex is not stuck, and no wake-up was lost. */
  lemma QuietMeansServed(s: State, initial: nat)
    requires Inv(s, initial) && Quiet(s)
    ensures !s.locked && forall i | 0 <= i < |s.threads| ::
            s.threads[i] == Idle || (s.threads[i] == Asleep && s.counter == 0)
  {
    if s.locked {
      var i := SumIsPositive(s.threads, Holding);
      HolderGoesOn(s, i);
    }
    forall i | 0 <= i < |s.threads|
      ensures Pending(s.threads[i]) == 0 && Taking(s.threads[i]) == 0
              && (s.threads[i] == Idle || s.threads[i] == Asleep)
    {
      SumOfOne(s.threads, i, Holding);
      if s.threads[i] != Idle && s.threads[i] != Asleep {
        assert Enabled(s, Go(i));
      }
    }
    SumIsZero(s.threads, Pending);
    SumIsZero(s.threads, Taking);
    forall i | 0 <= i < |s.threads| && s.threads[i] == Asleep
      ensures s.counter == 0
    {
      SumOfOne(s.threads, i, Sleeping);
    }
  }

  lemma HolderGoesOn(s: State, i: nat)
    requires i < |s.threads| && Holding(s.threads[i]) == 1
    ensures !Quiet(s)
  {
    if !Enabled(s, Go(i)) {
      var j: nat :| j < |s.threads| && s.threads[j] == Asleep;
      assert Enabled(s, SignalTo(i, j));
    }
  }

  // ---------- and soon nothing goes on ----------

  /** Steps until a thread is idle or asleep again; a signal may give a sleeper four more. */
  function ToDo(pc: Pc): nat {
    match pc
    case Idle => 0
    case Asleep => 0
    case Unlock => 1
    case Take => 2
    case Check => 3
    case Recheck => 3
    case GetLock => 4
    case Woken => 4
    case Signal => 6
    case Add => 7
    case PutLock => 8
  }

  /** No step is spent waiting: all but new calls and wake-ups without reason bring the end nearer. */
  lemma StepGoesDown(s: State, a: Action)
    requires Enabled(s, a) && (a.Go? || a.SignalTo?)
    ensures Sum(Step(s, a).threads, ToDo) < Sum(s.threads, ToDo)
  {
    hide Sum;
    if a.Go? {
      SumUpdate(s.threads, a.i, Step(s, a).threads[a.i], ToDo);
    } else {
      SumUpdate(s.threads, a.i, Unlock, ToDo);
      SumUpdate(s.threads[a.i := Unlock], a.j, Woken, ToDo);
    }
  }

  /** From s on these steps can be taken one after the other; no thread starts a new call, and
      no sleeper wakes for no reason. */
  predicate Possible(s: State, steps: seq<Action>)
    decreases |steps|
  {
    steps == [] || (Enabled(s, steps[0]) && (steps[0].Go? || steps[0].SignalTo?)
        && Possible(Step(s, steps[0]), steps[1..]))
  }

  function Taken(s: State, steps: seq<Action>): State
    requires Possible(s, steps)
    decreases |steps|
  {
    if steps == [] then s else Taken(Step(s, steps[0]), steps[1..])
  }

  /** Whoever goes next, the threads come to rest after a number of steps that is known before:
      until then there is a step to take, and then nobody sleeps on a unit. */
  lemma {:induction false} ComesToRest(s: State, initial: nat, steps: seq<Action>)
    requires Inv(s, initial) && Possible(s, steps)
    ensures |steps| + Sum(Taken(s, steps).threads, ToDo) <= Sum(s.threads, ToDo)
    ensures Quiet(Taken(s, steps)) <==> !exists a :: Possible(s, steps + [a])
    ensures Quiet(Taken(s, steps)) ==>
              var r := Taken(s, steps);
              && !r.locked && r.counter == initial + r.puts - r.gets
              && forall i | 0 <= i < |r.threads| :: r.threads[i] == Idle || (r.threads[i] == Asleep && r.counter == 0)
    decreases |steps|
  {
    hide Sum, Step;
    if steps == [] {
      if Quiet(s) {
        QuietMeansServed(s, initial);
      } else {
        var a :| Enabled(s, a) && (a.Go? || a.SignalTo?);
        assert Possible(s, [] + [a]);
      }
    } else {
      var s' := Step(s, steps[0]);
      StepKeepsInv(s, steps[0], initial);
      StepGoesDown(s, steps[0]);
      ComesToRest(s', initial, steps[1..]);
      assert forall a :: (steps + [a])[1..] == steps[1..] + [a];
      assert forall a :: Possible(s, steps + [a]) <==> Possible(s', steps[1..] + [a]);
    }
  }
}
