/** A hand-made condition variable: a mutex, an event flag and a counter of waiters.

    One thread signals, again and again; any number of threads wait, again and again.  The
    signaller holds the mutex except while it waits for its event to be consumed. */
module CondVar {
  import opened Sums

  /** A waiter: outside; in front of the mutex; at the test of the flag; at its reset; at the
      decrement of the counter; at the unlock before the return; at the one before the next try. */
  datatype WaiterPc = Out | Lock | Check | Consume | Leave | Return | Retry

  /** The signaller: in front of condvar_signal; at the store of the flag; at the unlock; in the
      loop that waits for the flag; in front of the mutex; at its own reset of the flag. */
  datatype SignalPc = Idle | Publish | Release | Spin | Relock | Reset

  datatype State = State(
    locked: bool, event: bool, waitCount: int, signaller: SignalPc, waiters: seq<WaiterPc>, published: nat,
    consumed: nat)

  datatype Action = Signal | Enter(i: nat) | Go(i: nat)

  function Holding(pc: WaiterPc): nat {
    if pc == Out || pc == Lock then 0 else 1
  }

  function Counted(pc: WaiterPc): nat {
    if pc == Out || pc == Return then 0 else 1
  }

  /** Bound to consume the next event. */
  function Committed(pc: WaiterPc): nat {
    if pc == Lock || pc == Check || pc == Consume then 1 else 0
  }

  function Consuming(pc: WaiterPc): nat {
    if pc == Consume then 1 else 0
  }

  /** Behind its own test of the flag. */
  function Behind(pc: WaiterPc): nat {
    if pc == Leave || pc == Return || pc == Retry then 1 else 0
  }

  predicate Enabled(s: State, a: Action) {
    match a
    case Signal => s.signaller == Relock ==> !s.locked
    case Enter(i) => i < |s.waiters| && s.waiters[i] == Out
    case Go(i) => i < |s.waiters| && s.waiters[i] != Out && (s.waiters[i] == Lock ==> !s.locked)
  }

  function Step(s: State, a: Action): State
    requires Enabled(s, a)
  {
    match a
    case Signal =>
      (match s.signaller
       case Idle => if s.waitCount == 0 then s else s.(signaller := Publish)
       case Publish => s.(event := true, published := s.published + 1, signaller := Release)
       case Release => s.(locked := false, signaller := Spin)
       case Spin => if s.event then s else s.(signaller := Relock)
       case Relock => s.(locked := true, signaller := Reset)
       case Reset => s.(event := false, signaller := Idle))
    case Enter(i) =>
      s.(waitCount := s.waitCount + 1, waiters := s.waiters[i := Lock])
    case Go(i) =>
      match s.waiters[i]
      case Lock => s.(locked := true, waiters := s.waiters[i := Check])
      case Check => s.(waiters := s.waiters[i := if s.event then Consume else Retry])
      case Consume => s.(event := false, consumed := s.consumed + 1, waiters := s.waiters[i := Leave])
      case Leave => s.(waitCount := s.waitCount - 1, waiters := s.waiters[i := Return])
      case Return => s.(locked := false, waiters := s.waiters[i := Out])
      case _ => s.(locked := false, waiters := s.waiters[i := Lock])
  }

  function SignallerHolds(s: State): nat {
    if s.signaller == Spin || s.signaller == Relock then 0 else 1
  }

  /** Every event is consumed once, by a waiter that is there to consume it. */
  predicate Inv(s: State) {
    && Sum(s.waiters, Holding) + SignallerHolds(s) == (if s.locked then 1 else 0)
    && s.waitCount == Sum(s.waiters, Counted)
    && s.published == s.consumed + (if s.event then 1 else 0)
    && (s.event ==> s.signaller == Release || s.signaller == Spin)
    && (s.signaller == Release ==> s.event)
    && (s.signaller == Publish ==> s.waitCount > 0)
    && (s.event ==> Sum(s.waiters, Committed) > 0 && Sum(s.waiters, Behind) == 0)
    && (Sum(s.waiters, Consuming) > 0 ==> s.event)
  }

  lemma Moved(ws: seq<WaiterPc>, i: nat, w: WaiterPc)
    requires i < |ws|
    ensures Sum(ws[i := w], Holding) + Holding(ws[i]) == Sum(ws, Holding) + Holding(w)
    ensures Sum(ws[i := w], Counted) + Counted(ws[i]) == Sum(ws, Counted) + Counted(w)
    ensures Sum(ws[i := w], Committed) + Committed(ws[i]) == Sum(ws, Committed) + Committed(w)
    ensures Sum(ws[i := w], Consuming) + Consuming(ws[i]) == Sum(ws, Consuming) + Consuming(w)
    ensures Sum(ws[i := w], Behind) + Behind(ws[i]) == Sum(ws, Behind) + Behind(w)
  {
    SumUpdate(ws, i, w, Holding);
    SumUpdate(ws, i, w, Counted);
    SumUpdate(ws, i, w, Committed);
    SumUpdate(ws, i, w, Consuming);
    SumUpdate(ws, i, w, Behind);
  }

  /** While nobody but possibly waiter i holds the mutex, all the others are outside or in front of it. */
  lemma OthersWait(ws: seq<WaiterPc>, i: nat, k: nat)
    requires i < |ws| && k < |ws| && k != i && Sum(ws, Holding) <= Holding(ws[i])
    ensures Holding(ws[k]) == 0
  {
    SumOfTwo(ws, if i < k then i else k, if i < k then k else i, Holding);
  }

  /** While the signaller holds the mutex, its count is exact: who is counted is in front of the mutex. */
  lemma CountIsExact(s: State)
    requires Inv(s) && SignallerHolds(s) == 1
    ensures forall i | 0 <= i < |s.waiters| :: s.waiters[i] == Out || s.waiters[i] == Lock
    ensures Sum(s.waiters, Behind) == 0 && (s.waitCount > 0 ==> Sum(s.waiters, Committed) > 0)
    ensures s.waitCount == 0 <==> forall i | 0 <= i < |s.waiters| :: s.waiters[i] == Out
  {
    forall i | 0 <= i < |s.waiters|
      ensures s.waiters[i] == Out || s.waiters[i] == Lock
      ensures s.waitCount == 0 ==> s.waiters[i] == Out
    {
      SumOfOne(s.waiters, i, Holding);
      SumOfOne(s.waiters, i, Counted);
    }
    SumIsZero(s.waiters, Behind);
    if s.waitCount > 0 {
      var i := SumIsPositive(s.waiters, Counted);
      SumOfOne(s.waiters, i, Committed);
    }
  }

  lemma SignalKeepsInv(s: State)
    requires Inv(s) && Enabled(s, Signal)
    ensures Inv(Step(s, Signal))
  {
    hide Sum;
    if SignallerHolds(s) == 1 {
      CountIsExact(s);
    }
  }

  lemma GoKeepsInv(s: State, i: nat)
    requires Inv(s) && Enabled(s, Go(i))
    ensures Inv(Step(s, Go(i)))
  {
    hide Sum;
    Moved(s.waiters, i, Step(s, Go(i)).waiters[i]);
    SumOfOne(s.waiters, i, Holding);
    SumOfOne(s.waiters, i, Behind);
    SumOfOne(s.waiters, i, Consuming);
    if s.waiters[i] == Consume {
      AloneInside(s, i);
    }
  }

  lemma AloneInside(s: State, i: nat)
    requires Inv(s) && i < |s.waiters| && Holding(s.waiters[i]) == 1
    ensures Sum(s.waiters, Consuming) == Consuming(s.waiters[i]) && Sum(s.waiters, Behind) == Behind(s.waiters[i])
  {
    SumOfOne(s.waiters, i, Holding);
    var ws := s.waiters[i := Out];
    forall k | 0 <= k < |ws|
      ensures Consuming(ws[k]) == 0 && Behind(ws[k]) == 0
    {
      if k != i {
        OthersWait(s.waiters, i, k);
      }
    }
    SumIsZero(ws, Consuming);
    SumIsZero(ws, Behind);
    Moved(s.waiters, i, Out);
  }

  lemma StepKeepsInv(s: State, a: Action)
    requires Inv(s) && Enabled(s, a)
    ensures Inv(Step(s, a))
  {
    match a
    case Signal => SignalKeepsInv(s);
    case Enter(i) => Moved(s.waiters, i, Lock);
    case Go(i) => GoKeepsInv(s, i);
  }

  /** condvar_create locks the mutex. */
  function Start(n: nat): State {
    State(true, false, 0, Idle, seq(n, _ => Out), 0, 0)
  }

  lemma StartHolds(n: nat)
    ensures Inv(Start(n))
  {
    SumOfEqual(n, Out, Holding);
    SumOfEqual(n, Out, Counted);
    SumOfEqual(n, Out, Consuming);
  }

  /** The state after n steps of a schedule; steps that are not enabled are skipped. */
  function After(s: State, schedule: nat -> Action, n: nat): State {
    if n == 0 then s
    else
      var r := After(s, schedule, n - 1);
      if Enabled(r, schedule(n - 1)) then Step(r, schedule(n - 1)) else r
  }

  /** In every run each published event is consumed once, by a waiter and not by the
      signaller's own reset; while it is not, somebody is bound to consume it; and nobody who
      is counted when condvar_signal looks has left already. */
  lemma {:induction false} AlwaysConsumedOnce(n: nat, schedule: nat -> Action, steps: nat)
    ensures var r := After(Start(n), schedule, steps);
            && Inv(r)
            && r.published == r.consumed + (if r.event then 1 else 0)
            && (r.signaller == Reset || r.signaller == Idle ==> !r.event && r.published == r.consumed)
            && (r.event ==> exists i: nat :: i < |r.waiters| && Committed(r.waiters[i]) == 1)
            && (r.signaller == Idle ==> (r.waitCount == 0 <==> forall i | 0 <= i < |r.waiters| :: r.waiters[i] == Out))
  {
    var r := After(Start(n), schedule, steps);
    if steps == 0 {
      StartHolds(n);
    } else {
      var q := After(Start(n), schedule, steps - 1);
      AlwaysConsumedOnce(n, schedule, steps - 1);
      if Enabled(q, schedule(steps - 1)) {
        StepKeepsInv(q, schedule(steps - 1));
      }
    }
    if r.event {
      var i := SumIsPositive(r.waiters, Committed);
      assert Committed(r.waiters[i]) == 1;
    }
    if r.signaller == Idle {
      CountIsExact(r);
    }
  }

  /** Steps of condvar_signal until it returns. */
  function SignalSteps(pc: SignalPc): nat {
    match pc
    case Idle => 0
    case Publish => 5
    case Release => 4
    case Spin => 3
    case Relock => 2
    case Reset => 1
  }

  /** Unless it spins on an event that nobody has consumed yet, every step of a signaller takes it one
      step nearer to its return; it returns with the mutex, and no event is left over. */
  lemma SignalReturns(s: State)
    requires Inv(s) && Enabled(s, Signal) && s.signaller != Idle
    ensures var s' := Step(s, Signal);
            && SignalSteps(s'.signaller) + (if s.signaller == Spin && s.event then 0 else 1) == SignalSteps(s.signaller)
            && (s'.signaller == Idle ==> s'.locked && !s'.event)
  {
    hide Sum;
  }

  /** Steps of a waiter until it gives up the mutex. */
  function HoldSteps(pc: WaiterPc): nat {
    match pc
    case Check => 4
    case Consume => 3
    case Leave => 2
    case Return => 1
    case Retry => 1
    case _ => 0
  }

  /** A waiter that holds the mutex can always go on, and each of its steps takes it nearer to giving
      it up: after the return, or for the next try. */
  lemma WaiterReleases(s: State, i: nat)
    requires Inv(s) && i < |s.waiters| && Holding(s.waiters[i]) == 1
    ensures Enabled(s, Go(i)) && s.locked
    ensures var s' := Step(s, Go(i));
            && HoldSteps(s'.waiters[i]) < HoldSteps(s.waiters[i])
            && (HoldSteps(s'.waiters[i]) == 0 <==> !s'.locked)
            && (!s'.locked ==> s'.waiters[i] == if s.waiters[i] == Return then Out else Lock)
  {
    SumOfOne(s.waiters, i, Holding);
  }

  // ---------- a wait returns with an event, a signal to waiters publishes one ----------

  /** In condvar_wait, and without an event so far. */
  function Waiting(pc: WaiterPc): nat {
    if pc == Lock || pc == Check || pc == Consume || pc == Retry then 1 else 0
  }

  /** How many calls of condvar_wait were started in the first n steps. */
  function WaitsStarted(s: State, schedule: nat -> Action, n: nat): nat {
    if n == 0 then 0
    else
      var a := schedule(n - 1);
      WaitsStarted(s, schedule, n - 1) + if a.Enter? && Enabled(After(s, schedule, n - 1), a) then 1 else 0
  }

  /** The signaller is in front of condvar_signal, and somebody is waiting. */
  predicate SignalsTo(s: State, a: Action) {
    a == Signal && s.signaller == Idle && Sum(s.waiters, Counted) > 0
  }

  /** How many calls of condvar_signal found somebody waiting in the first n steps. */
  function SignalsStarted(s: State, schedule: nat -> Action, n: nat): nat {
    if n == 0 then 0
    else
      SignalsStarted(s, schedule, n - 1) + if SignalsTo(After(s, schedule, n - 1), schedule(n - 1)) then 1 else 0
  }

  lemma StepCountsCalls(s: State, a: Action)
    requires Inv(s) && Enabled(s, a)
    ensures var s' := Step(s, a);
            && s'.consumed + Sum(s'.waiters, Waiting)
               == s.consumed + Sum(s.waiters, Waiting) + (if a.Enter? then 1 else 0)
            && s'.published + (if s'.signaller == Publish then 1 else 0)
               == s.published + (if s.signaller == Publish then 1 else 0) + (if SignalsTo(s, a) then 1 else 0)
  {
    hide Sum;
    if !a.Signal? {
      SumUpdate(s.waiters, a.i, Step(s, a).waiters[a.i], Waiting);
    }
  }

  lemma StartIsEnabled(s: State, a: Action)
    requires SignalsTo(s, a)
    ensures Enabled(s, a)
  {
  }

  /** In every run each wait that was started has either consumed its event or still waits, and each
      signal that found somebody waiting has published its event or is about to. */
  lemma {:induction false} EveryCallCounts(n: nat, schedule: nat -> Action, steps: nat)
    ensures var (s, r) := (Start(n), After(Start(n), schedule, steps));
            && Inv(r)
            && WaitsStarted(s, schedule, steps) == r.consumed + Sum(r.waiters, Waiting)
            && SignalsStarted(s, schedule, steps) == r.published + if r.signaller == Publish then 1 else 0
  {
    hide Sum, Step, Enabled, Inv, SignalsTo;
    if steps == 0 {
      StartHolds(n);
      SumOfEqual(n, Out, Waiting);
    } else {
      EveryCallCounts(n, schedule, steps - 1);
      var r, a := After(Start(n), schedule, steps - 1), schedule(steps - 1);
      if Enabled(r, a) {
        StepKeepsInv(r, a);
        StepCountsCalls(r, a);
      } else if SignalsTo(r, a) {
        StartIsEnabled(r, a);
      }
    }
  }

  /** The steps of waiters until the event is consumed. */
  function Distance(s: State): nat {
    if !s.event then 0 else if !s.locked then 3 else if Sum(s.waiters, Consuming) > 0 then 1 else 2
  }

  /** While the signaller spins on its event, some waiter can make a step, and whichever waiter
      does, the event is one step nearer to being consumed; waiters that come in do not delay it. */
  lemma SpinEnds(s: State, a: Action)
    requires Inv(s) && s.signaller == Spin && s.event
    ensures exists i: nat :: Enabled(s, Go(i))
    ensures Enabled(s, a) ==> Distance(Step(s, a)) == Distance(s) - if a.Go? then 1 else 0
  {
    hide Sum;
    if s.locked {
      var i := SumIsPositive(s.waiters, Holding);
      assert Enabled(s, Go(i));
    } else {
      var i := SumIsPositive(s.waiters, Committed);
      SumOfOne(s.waiters, i, Holding);
      assert Enabled(s, Go(i));
    }
    if Enabled(s, a) && a.Go? {
      Moved(s.waiters, a.i, Step(s, a).waiters[a.i]);
      SumOfOne(s.waiters, a.i, Holding);
      SumOfOne(s.waiters, a.i, Behind);
      if s.waiters[a.i] == Lock {
        NobodyInside(s);
      } else {
        AloneInside(s, a.i);
      }
    }
    if Enabled(s, a) && a.Enter? {
      Moved(s.waiters, a.i, Lock);
    }
  }

  lemma NobodyInside(s: State)
    requires Inv(s) && !s.locked
    ensures Sum(s.waiters, Consuming) == 0
  {
    forall k | 0 <= k < |s.waiters|
      ensures Consuming(s.waiters[k]) == 0
    {
      SumOfOne(s.waiters, k, Holding);
    }
    SumIsZero(s.waiters, Consuming);
  }

  // ---------- fair runs ----------

  function RunAll(s: State, round: seq<Action>): State
    decreases |round|
  {
    if round == [] then s else RunAll(if Enabled(s, round[0]) then Step(s, round[0]) else s, round[1..])
  }

  function RunRounds(s: State, rounds: seq<seq<Action>>): State
    decreases |rounds|
  {
    if rounds == [] then s else RunRounds(RunAll(s, rounds[0]), rounds[1..])
  }

  /** The signaller and every waiter get a turn. */
  predicate Fair(round: seq<Action>, n: nat) {
    Signal in round && forall i: nat | i < n :: Go(i) in round
  }

  /** s is on the way from s0: no event comes back, no waiter goes. */
  predicate Later(s0: State, s: State) {
    Inv(s) && s.consumed >= s0.consumed && |s.waiters| == |s0.waiters|
  }

  lemma StepIsLater(s: State, a: Action)
    requires Inv(s) && Enabled(s, a)
    ensures Later(s, Step(s, a))
  {
    StepKeepsInv(s, a);
  }

  lemma {:induction false} RunAllIsLater(s: State, round: seq<Action>)
    requires Inv(s)
    ensures Later(s, RunAll(s, round))
    decreases |round|
  {
    hide Inv, Step;
    if round == [] {
    } else if Enabled(s, round[0]) {
      StepIsLater(s, round[0]);
      RunAllIsLater(Step(s, round[0]), round[1..]);
    } else {
      RunAllIsLater(s, round[1..]);
    }
  }

  lemma {:induction false} RunRoundsIsLater(s: State, rounds: seq<seq<Action>>)
    requires Inv(s)
    ensures Later(s, RunRounds(s, rounds))
    decreases |rounds|
  {
    hide Inv, RunAll;
    if rounds == [] {
    } else {
      RunAllIsLater(s, rounds[0]);
      RunRoundsIsLater(RunAll(s, rounds[0]), rounds[1..]);
    }
  }

  /** The event of s0 is consumed, or still there with the signaller spinning on it. */
  predicate ConsumedOrSpinning(s0: State, s: State) {
    s.consumed > s0.consumed || (s.consumed == s0.consumed && s.event && s.signaller == Spin)
  }

  /** What one step means while the signaller spins. */
  lemma SpinStep(s: State, a: Action, i: nat)
    requires Inv(s) && s.signaller == Spin && s.event && Enabled(s, a) && Enabled(s, Go(i))
    ensures ConsumedOrSpinning(s, Step(s, a))
    ensures Step(s, a).consumed == s.consumed ==> Distance(Step(s, a)) == Distance(s) - if a.Go? then 1 else 0
    ensures !a.Go? ==> Enabled(Step(s, a), Go(i))
  {
    SpinEnds(s, a);
  }

  /** While the signaller spins a round does not take the event away from its consumer, and if
      it lets a waiter move that can, the event is nearer to being consumed, or is. */
  lemma {:induction false} RoundHelps(s: State, round: seq<Action>, i: nat)
    requires Inv(s) && s.signaller == Spin && s.event && Enabled(s, Go(i))
    ensures var r := RunAll(s, round);
            && ConsumedOrSpinning(s, r)
            && (r.consumed == s.consumed ==>
                Distance(r) <= Distance(s) && (Go(i) in round ==> Distance(r) < Distance(s)))
    decreases |round|
  {
    hide Inv, Step, Distance;
    if round == [] {
    } else {
      var (a, rest) := (round[0], round[1..]);
      assert forall b :: b in round <==> b == a || b in rest;
      if Enabled(s, a) {
        var s' := Step(s, a);
        StepIsLater(s, a);
        SpinStep(s, a, i);
        RunAllIsLater(s', rest);
        if s'.consumed == s.consumed {
          var j := Helper(s', a, i);
          RoundHelps(s', rest, j);
        }
      } else {
        RoundHelps(s, rest, i);
      }
    }
  }

  /** Some waiter can go on, the same one unless a waiter has moved. */
  lemma Helper(s: State, a: Action, i: nat) returns (j: nat)
    requires Inv(s) && s.signaller == Spin && s.event && (!a.Go? ==> Enabled(s, Go(i)))
    ensures Enabled(s, Go(j)) && (!a.Go? ==> j == i)
  {
    if a.Go? {
      SpinEnds(s, Signal);
      j :| Enabled(s, Go(j));
    } else {
      j := i;
    }
  }

  lemma {:induction false} ConsumedWithin(s: State, rounds: seq<seq<Action>>)
    requires Inv(s) && s.signaller == Spin && s.event && |rounds| >= Distance(s)
    requires forall round | round in rounds :: Fair(round, |s.waiters|)
    ensures RunRounds(s, rounds).consumed > s.consumed
    decreases |rounds|
  {
    hide Inv, RunAll;
    assert Distance(s) > 0;
    var i := Helper(s, Go(0), 0);
    var r := RunAll(s, rounds[0]);
    assert Fair(rounds[0], |s.waiters|);
    RoundHelps(s, rounds[0], i);
    RunAllIsLater(s, rounds[0]);
    RunRoundsIsLater(r, rounds[1..]);
    if r.consumed == s.consumed {
      ConsumedWithin(r, rounds[1..]);
    }
  }

  lemma {:induction false} ReleaseLeadsToSpin(s: State, round: seq<Action>)
    requires Inv(s) && s.signaller == Release && s.event && Signal in round
    ensures ConsumedOrSpinning(s, RunAll(s, round))
    decreases |round|
  {
    var (a, rest) := (round[0], round[1..]);
    assert forall b :: b in round <==> b == a || b in rest;
    CountIsExact(s);
    if a == Signal {
      var s' := Step(s, a);
      StepKeepsInv(s, a);
      var i := Helper(s', Go(0), 0);
      RoundHelps(s', rest, i);
    } else if Enabled(s, a) {
      StepKeepsInv(s, a);
      ReleaseLeadsToSpin(Step(s, a), rest);
    } else {
      ReleaseLeadsToSpin(s, rest);
    }
  }

  /** If the signaller and the waiters keep getting their turns, a published event is consumed
      within four rounds, whoever else comes in meanwhile. */
  lemma FairRunConsumes(s: State, rounds: seq<seq<Action>>)
    requires Inv(s) && s.event && |rounds| >= 4 && forall round | round in rounds :: Fair(round, |s.waiters|)
    ensures RunRounds(s, rounds).consumed > s.consumed && RunRounds(s, rounds).consumed >= s.published
  {
    if s.signaller == Spin {
      ConsumedWithin(s, rounds);
    } else {
      var r := RunAll(s, rounds[0]);
      assert Fair(rounds[0], |s.waiters|);
      ReleaseLeadsToSpin(s, rounds[0]);
      RunAllIsLater(s, rounds[0]);
      RunRoundsIsLater(r, rounds[1..]);
      if r.consumed == s.consumed {
        ConsumedWithin(r, rounds[1..]);
      }
    }
  }
}
