/** Who runs next among coroutines in a circle, and how long one waits for its turn. */
module RoundRobin {

  /** What the scheduler knows of a coroutine; link says where control goes when it returns. */
  datatype Context = Context(finished: bool, swapCount: nat, link: int)

  /** Control goes back to main. */
  const MAIN := -1

  function Flags(data: seq<Context>): seq<bool> {
    seq(|data|, i requires 0 <= i < |data| => data[i].finished)
  }

  /** The first unfinished one from i on, or end. */
  function FirstFrom(finished: seq<bool>, i: nat, end: nat): (r: nat)
    requires i <= end <= |finished|
    ensures i <= r <= end && (r < end ==> !finished[r])
    ensures forall k | i <= k < r :: finished[k]
    decreases end - i
  {
    if i == end || !finished[i] then i else FirstFrom(finished, i + 1, end)
  }

  /** The unfinished one that comes after n in the circle, other than n. */
  function Next(finished: seq<bool>, n: nat): int
    requires n < |finished|
  {
    var behind := FirstFrom(finished, n + 1, |finished|);
    var before := FirstFrom(finished, 0, n);
    if behind < |finished| then behind else if before < n then before else MAIN
  }

  /** How far m is from n when one goes around. */
  function Offset(size: nat, n: nat, m: nat): int {
    if m > n then m - n else m - n + size
  }

  /** Next goes to the nearest unfinished one, and to main only if there is none. */
  lemma NextIsNearest(finished: seq<bool>, n: nat)
    requires n < |finished|
    ensures var m := Next(finished, n);
            && (m == MAIN <==> forall k | 0 <= k < |finished| && k != n :: finished[k])
            && (m != MAIN ==> 0 <= m < |finished| && m != n && !finished[m])
            && (m != MAIN ==> forall k | 0 <= k < |finished| && k != n && !finished[k] ::
                                Offset(|finished|, n, m) <= Offset(|finished|, n, k))
            && (m > n ==> forall k | n < k < m :: finished[k])
            && (MAIN != m < n ==> forall k | 0 <= k < |finished| && (k > n || k < m) :: finished[k])
  {
  }

  /** The two loops of swap and of terminate. */
  method FindNext(data: array<Context>, n: nat) returns (to: int)
    requires n < data.Length
    ensures to == Next(Flags(data[..]), n)
  {
    ghost var finished := Flags(data[..]);
    for i := n + 1 to data.Length
      invariant FirstFrom(finished, n + 1, data.Length) == FirstFrom(finished, i, data.Length)
    {
      if !data[i].finished {
        return i;
      }
    }
    for i := 0 to n
      invariant FirstFrom(finished, 0, n) == FirstFrom(finished, i, n)
    {
      if !data[i].finished {
        return i;
      }
    }
    to := MAIN;
  }

  /** swap: if the time slice is over, control goes on to another coroutine, if there is one. */
  method Swap(data: array<Context>, n: nat, expired: bool) returns (to: int)
    requires n < data.Length
    modifies data
    ensures Flags(data[..]) == old(Flags(data[..]))
    ensures to == if expired && Next(old(Flags(data[..])), n) != MAIN then Next(old(Flags(data[..])), n) else n
    ensures forall k | 0 <= k < data.Length ::
              data[k] == if k == n && to != n then old(data[k]).(swapCount := old(data[k]).swapCount + 1)
                         else old(data[k])
  {
    to := n;
    if !expired {
      return;
    }
    NextIsNearest(Flags(data[..]), n);
    var next := FindNext(data, n);
    if next != MAIN {
      data[n] := data[n].(swapCount := data[n].swapCount + 1);
      to := next;
    }
  }

  /** terminate: control goes on to another coroutine, or back to main after the last one. */
  method Terminate(data: array<Context>, n: nat)
    requires n < data.Length
    modifies data
    ensures Flags(data[..]) == old(Flags(data[..]))[n := true]
    ensures data[n].link == Next(old(Flags(data[..])), n)
    ensures forall k | 0 <= k < data.Length && k != n :: data[k] == old(data[k])
  {
    data[n] := data[n].(finished := true);
    assert Flags(data[..]) == old(Flags(data[..]))[n := true];
    var to := FindNext(data, n);
    data[n] := data[n].(link := to);
    OwnFlagDoesNotMatter(old(Flags(data[..])), n);
  }

  lemma OwnFlagDoesNotMatter(finished: seq<bool>, n: nat)
    requires n < |finished|
    ensures Next(finished[n := true], n) == Next(finished, n)
  {
    SameFirst(finished, n, n + 1, |finished|);
    SameFirst(finished, n, 0, n);
  }

  lemma {:induction false} SameFirst(finished: seq<bool>, n: nat, i: nat, end: nat)
    requires i <= end <= |finished| && n < |finished| && !(i <= n < end)
    ensures FirstFrom(finished[n := true], i, end) == FirstFrom(finished, i, end)
    decreases end - i
  {
    if i == end {
    } else {
      SameFirst(finished, n, i + 1, end);
    }
  }

  // ---------- nobody waits long ----------

  /** The unfinished ones that come before x when one goes around from n. */
  function Ahead(finished: seq<bool>, n: nat, x: nat): set<nat> {
    set k: nat | k < |finished| && !finished[k] && k != n && Offset(|finished|, n, k) < Offset(|finished|, n, x)
  }

  /** With every switch of control one fewer is ahead of x. */
  lemma OneLessAhead(finished: seq<bool>, n: nat, x: nat, finished': seq<bool>)
    requires n < |finished| && x < |finished| && x != n && !finished[x]
    requires finished' == finished || finished' == finished[n := true]
    ensures Next(finished, n) != MAIN
    ensures Next(finished, n) != x ==> |Ahead(finished', Next(finished, n), x)| < |Ahead(finished, n, x)|
  {
    var m := Next(finished, n);
    NextIsNearest(finished, n);
    if m != x {
      assert m in Ahead(finished, n, x);
      assert Ahead(finished', m, x) <= Ahead(finished, n, x) - {m};
      Smaller(Ahead(finished', m, x), Ahead(finished, n, x) - {m});
    }
  }

  lemma {:induction false} Smaller(a: set<nat>, b: set<nat>)
    requires a <= b
    ensures |a| <= |b|
  {
    if a == {} {
    } else {
      var k :| k in a;
      Smaller(a - {k}, b - {k});
    }
  }

  /** The flags, and who runs, from one switch of control to the next. */
  datatype Moment = Moment(finished: seq<bool>, running: nat)

  /** Control passed on as swap or terminate pass it on. */
  predicate Switched(a: Moment, b: Moment) {
    && a.running < |a.finished|
    && (b.finished == a.finished || b.finished == a.finished[a.running := true])
    && b.running == Next(a.finished, a.running)
  }

  predicate IsRun(run: seq<Moment>) {
    run != [] && forall t | 0 <= t < |run| - 1 :: Switched(run[t], run[t + 1])
  }

  /** Whoever is not finished runs before the others that were ahead of it run a second time. */
  lemma {:induction false} TurnComes(run: seq<Moment>, x: nat) returns (t: nat)
    requires IsRun(run) && x < |run[0].finished| && !run[0].finished[x] && run[0].running < |run[0].finished|
    requires x != run[0].running && |run| > |Ahead(run[0].finished, run[0].running, x)| + 1
    ensures 1 <= t <= |Ahead(run[0].finished, run[0].running, x)| + 1
    ensures run[t].running == x && x < |run[t].finished| && !run[t].finished[x]
    decreases |run|
  {
    assert Switched(run[0], run[1]);
    OneLessAhead(run[0].finished, run[0].running, x, run[1].finished);
    if run[1].running == x {
      t := 1;
    } else {
      NextIsNearest(run[0].finished, run[0].running);
      assert forall i | 0 <= i < |run[1..]| - 1 :: Switched(run[1..][i], run[1..][i + 1]) by {
        forall i | 0 <= i < |run[1..]| - 1
          ensures Switched(run[1..][i], run[1..][i + 1])
        {
          assert Switched(run[i + 1], run[i + 2]);
        }
      }
      var u := TurnComes(run[1..], x);
      t := u + 1;
    }
  }

  /** So at most as many switches pass as there are others that are not finished. */
  lemma AheadAreOthers(finished: seq<bool>, n: nat, x: nat)
    requires n < |finished| && x < |finished| && x != n && !finished[x] && !finished[n]
    ensures |Ahead(finished, n, x)| + 1 <= |set k: nat | k < |finished| && !finished[k] && k != x|
  {
    var others := set k: nat | k < |finished| && !finished[k] && k != x;
    assert n in others;
    Smaller(Ahead(finished, n, x), others - {n});
  }
}
