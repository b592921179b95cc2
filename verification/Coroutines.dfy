/** A coroutine library: a list of coroutines, a scheduler that hands out the finished ones.

    What a coroutine does is a finite script; a saved context is the rest of the script.
    A jump to a context lets that coroutine go on where it left. */
module Coroutines {
  import opened Basics
  import opened Sums

  /** Return with a status, yield, or create another coroutine and go on. */
  datatype Script = Finish(status: int) | Yield(rest: Script) | New(child: Script, rest: Script)

  function Status(s: Script): int {
    match s
    case Finish(status) => status
    case Yield(rest) => Status(rest)
    case New(_, rest) => Status(rest)
  }

  function Size(s: Script): nat {
    match s
    case Finish(_) => 1
    case Yield(rest) => 1 + Size(rest)
    case New(child, rest) => 1 + Size(child) + Size(rest)
  }

  /** How many coroutines the script leads to, not counting its own. */
  function Spawns(s: Script): nat {
    match s
    case Finish(_) => 0
    case Yield(rest) => Spawns(rest)
    case New(child, rest) => 1 + Spawns(child) + Spawns(rest)
  }

  class Coro {
    var ret: int
    var finished: bool
    var next: Coro?
    var prev: Coro?
    var script: Script
    /** The local variable of its context from which it sets coro_this_ptr when it goes on; null
        while it has no context that can be jumped to. */
    var saved: Coro?
    ghost const whole: Script

    constructor (script: Script)
      ensures !finished && next == null && prev == null && this.script == script == whole && Ok()
    {
      ret, finished, next, prev, saved := 0, false, null, null, null;
      this.script, this.whole := script, script;
    }

    /** Either it still has to go on to its script's status, or it has returned it. */
    ghost predicate Ok()
      reads this`ret, this`finished, this`script
    {
      Status(script) == Status(whole) && (finished ==> script.Finish? && ret == Status(whole))
    }
  }

  class CoroList {
    var first: Coro?
    ghost var items: seq<Coro>

    ghost predicate Ok()
      reads this, items`next, items`prev
    {
      && first == (if items == [] then null else items[0])
      && (forall i {:trigger items[i].next} | 0 <= i < |items| ::
          items[i].next == if i + 1 < |items| then items[i + 1] else null)
      && (forall i {:trigger items[i].prev} | 0 <= i < |items| :: items[i].prev == if i > 0 then items[i - 1] else null)
      && (forall i, j | 0 <= i < j < |items| :: items[i] != items[j])
    }

    constructor ()
      ensures Ok() && items == []
    {
      first, items := null, [];
    }

    /** coro_list_add */
    method Add(c: Coro)
      requires Ok() && c !in items
      modifies this, items`prev, c`next, c`prev
      ensures Ok() && items == [c] + old(items)
    {
      c.next := first;
      c.prev := null;
      if first != null {
        first.prev := c;
      }
      first := c;
      items := [c] + items;
    }

    /** coro_list_delete */
    method Delete(c: Coro, ghost k: nat)
      requires Ok() && k < |items| && items[k] == c
      modifies this, items`next, items`prev
      ensures Ok() && items == old(items)[..k] + old(items)[k + 1..]
    {
      var prev, next := c.prev, c.next;
      if prev != null {
        prev.next := next;
      }
      if next != null {
        next.prev := prev;
      }
      if prev == null {
        first := next;
      }
      items := items[..k] + items[k + 1..];
    }

    /** The first finished coroutine. */
    method FindFinished() returns (c: Coro?, ghost k: nat)
      requires Ok()
      ensures c == null ==> forall i | 0 <= i < |items| :: !items[i].finished
      ensures c != null ==> k < |items| && items[k] == c && c.finished && forall i | 0 <= i < k :: !items[i].finished
    {
      c, k := first, 0;
      while c != null
        invariant k <= |items| && c == if k < |items| then items[k] else null
        invariant forall i | 0 <= i < k :: !items[i].finished
        decreases |items| - k
      {
        if c.finished {
          return;
        }
        c, k := c.next, k + 1;
      }
    }

    /** Who comes behind the k-th. */
    lemma NextIs(k: nat)
      requires Ok() && k < |items|
      ensures items[k].next == if k + 1 < |items| then items[k + 1] else null
    {
    }

    lemma FirstIs()
      requires Ok()
      ensures first == null <==> items == []
      ensures items != [] ==> first == items[0]
    {
    }

    lemma Distinct()
      requires Ok()
      ensures forall i, j | 0 <= i < j < |items| :: items[i] != items[j]
    {
    }
  }

  /** A coroutine at the moment when it is about to make a step: whether it is finished, what
      coro_this_ptr says, and who is behind it in the list. */
  datatype Turn = Turn(running: Coro, finished: bool, current: Coro?, next: Coro?)

  /** Only unfinished coroutines run, and coro_this_ptr is the one that runs. */
  ghost predicate InControl(turns: seq<Turn>) {
    forall t | t in turns :: !t.finished && t.current == t.running
  }

  /** Control stays where it is or goes to the next in the list. */
  ghost predicate GoesDown(turns: seq<Turn>) {
    forall i | 0 <= i < |turns| - 1 :: turns[i + 1].running == turns[i].running || turns[i + 1].running == turns[i].next
  }

  predicate Ran(turns: seq<Turn>, c: Coro) {
    exists t :: t in turns && t.running == c
  }

  /** Of the coroutines in first, all are in the list, and those in front of place k have run. */
  ghost predicate RanTo(first: seq<Coro>, items: seq<Coro>, k: nat, turns: seq<Turn>) {
    && (forall c | c in first :: c in items)
    && (forall i | 0 <= i < k && i < |items| && items[i] in first :: Ran(turns, items[i]))
  }

  lemma RanFurther(first: seq<Coro>, items: seq<Coro>, k: nat, turns: seq<Turn>, turn: Turn)
    requires RanTo(first, items, k, turns) && k < |items| && turn.running == items[k]
    ensures RanTo(first, items, k + 1, turns + [turn])
  {
    forall i | 0 <= i <= k && items[i] in first
      ensures Ran(turns + [turn], items[i])
    {
      var t := if i == k then turn else var u :| u in turns && u.running == items[i]; u;
      assert t in turns + [turn];
    }
  }

  lemma RanWithNew(first: seq<Coro>, items: seq<Coro>, after: seq<Coro>, k: nat, turns: seq<Turn>)
    requires RanTo(first, items, k, turns) && after != [] && after[1..] == items && after[0] !in items
    ensures RanTo(first, after, k, turns)
  {
    assert after == [after[0]] + items;
  }

  lemma AllRan(first: seq<Coro>, items: seq<Coro>, turns: seq<Turn>)
    requires RanTo(first, items, |items|, turns)
    ensures forall c | c in first :: Ran(turns, c)
  {
  }

  lemma NoneRanYet(items: seq<Coro>)
    ensures RanTo(items, items, 0, [])
  {
  }

  class Library {
    const list: CoroList
    /** coro_this_ptr; the scheduler is null. */
    var current: Coro?
    var schedWaiting: bool
    /** The local variable of the scheduler's context, once it has one. */
    var schedSaved: Option<Coro?>
    ghost var scripts: seq<Script>   // what the listed coroutines still have to do
    ghost var handedOut: seq<Coro>   // what coro_sched_wait has returned
    ghost var created: set<Coro>     // what coro_new has returned
    ghost var turns: seq<Turn>       // who has run

    ghost predicate Valid()
      reads this`scripts, this`handedOut, this`created, list, list.items`next, list.items`prev
      reads list.items`script, list.items`ret, list.items`finished, handedOut`finished, handedOut`ret
    {
      && created == (set c | c in list.items) + (set c | c in handedOut)
      && list.Ok() && |scripts| == |list.items|
      && (forall i | 0 <= i < |scripts| ::
          list.items[i].script == scripts[i] && list.items[i].Ok() && list.items[i] !in handedOut)
      && (forall i | 0 <= i < |handedOut| :: handedOut[i].finished && handedOut[i].ret == Status(handedOut[i].whole))
      && (forall i, j | 0 <= i < j < |handedOut| :: handedOut[i] != handedOut[j])
    }

    /** Steps that all coroutines together still have to make. */
    ghost function Work(): nat
      reads this`scripts
    {
      Sum(scripts, Size)
    }

    /** Coroutines that were created or will be. */
    ghost function Total(): nat
      reads this`scripts, this`handedOut
    {
      |handedOut| + |scripts| + Sum(scripts, Spawns)
    }

    /** The scheduler has given control away and can be jumped back to. */
    ghost predicate SchedWaits()
      reads this`schedWaiting, this`schedSaved
    {
      schedWaiting && schedSaved == Some(null)
    }

    /** Whoever is not finished and does not run has a context, which knows whose it is. */
    ghost predicate Suspended()
      reads this`current, list, list.items`finished, list.items`saved
    {
      forall c | c in list.items && c != current && !c.finished :: c.saved == c
    }

    ghost predicate NoneFinished()
      reads list, list.items
    {
      forall c | c in list.items :: !c.finished
    }

    ghost function Repr(): set<object>
      reads this, list
    {
      {this, list} + (set c | c in list.items)
    }

    /** coro_sched_init */
    constructor ()
      ensures Valid() && NoneFinished() && Total() == 0 && current == null && !schedWaiting && handedOut == []
      ensures fresh(list) && list.items == [] && created == {} && turns == [] && Suspended()
    {
      list := new CoroList();
      current, schedWaiting, schedSaved := null, false, None;
      scripts, handedOut, created, turns := [], [], {}, [];
    }

    /** coro_new: the new coroutine stands at the front; coro_this_ptr is as before. */
    method Create(script: Script) returns (c: Coro)
      requires Valid() && NoneFinished() && Suspended()
      modifies this`current, this`scripts, this`created, list, list.items`prev
      ensures Valid() && NoneFinished() && Suspended() && fresh(c) && c.whole == script && created == old(created) + {c}
      ensures list.items == [c] + old(list.items) && scripts == [script] + old(scripts)
      ensures current == old(current)
    {
      hide CoroList.Ok, Coro.Ok;
      c := NewContext(script);
      list.Add(c);
      scripts, created := [script] + scripts, created + {c};
    }

    /** Up to the point where the new context is saved and coro_new goes on. */
    method NewContext(script: Script) returns (c: Coro)
      modifies this`current
      ensures fresh(c) && c.Ok() && c.saved == c && !c.finished && c.script == script == c.whole
              && current == old(current)
    {
      c := new Coro(script);
      var oldThis := current;
      current := c;
      c.saved := current;  // coro_body, on the new stack
      current := null;
      current := oldThis;
    }

    /** The k-th coroutine goes on to this point of its script. */
    method Advance(c: Coro, ghost k: nat, script: Script)
      requires Valid() && k < |scripts| && list.items[k] == c && Status(script) == Status(c.script) && !c.finished
      modifies this`scripts, c`script
      ensures Valid() && scripts == old(scripts)[k := script] && c.script == script
    {
      hide CoroList.Ok;
      list.Distinct();
      c.script := script;
      scripts := scripts[k := script];
    }

    /** The coroutine returns: its status is kept, and the scheduler goes on, which must be waiting. */
    method Return(c: Coro, ghost k: nat)
      requires Valid() && NoneFinished() && k < |scripts| && list.items[k] == c && c.script.Finish? && current == c
               && SchedWaits()
      requires Suspended()
      modifies this`current, this`schedSaved, c`ret, c`finished
      ensures Valid() && Suspended() && c.finished && current == null
      ensures forall d | d in list.items && d != c :: !d.finished
    {
      hide CoroList.Ok;
      c.ret := c.script.status;
      c.finished := true;
      if !schedWaiting {
        assert false;  // no place to return
      }
      Resume(null);
    }

    /** siglongjmp: the context that goes on sets coro_this_ptr from its own local variable. */
    method Resume(to: Coro?)
      requires if to == null then schedSaved.Some? else to.saved != null
      modifies this`current, this`schedSaved, (if to == null then {} else {to})`saved
      ensures current == old(if to == null then schedSaved.value else to.saved)
      ensures if to == null then schedSaved == None else schedSaved == old(schedSaved)
    {
      if to == null {
        current, schedSaved := schedSaved.value, None;
      } else {
        current, to.saved := to.saved, null;
      }
    }

    /** The coroutine creates another one and goes on. */
    method Spawn(c: Coro, ghost k: nat)
      requires Valid() && NoneFinished() && k < |list.items| && list.items[k] == c && current == c && c.script.New?
      requires Suspended()
      modifies this`current, this`scripts, this`created, list, list.items
      ensures Valid() && NoneFinished() && Suspended() && current == c && Total() == old(Total())
              && Work() < old(Work())
      ensures |list.items| == |old(list.items)| + 1 && list.items[1..] == old(list.items) && fresh(list.items[0])
      ensures list.items[0].whole == old(c.script).child
      ensures old(created) <= created && fresh(created - old(created))
    {
      hide CoroList.Ok, Valid, Size, Spawns;
      ScriptIs(k);
      StepCounts(scripts, k, c.script.rest);
      CreateCounts(scripts[k := c.script.rest], c.script.child);
      var child := c.script.child;
      Advance(c, k, c.script.rest);
      var other := Create(child);
    }

    /** coro_yield: control goes to the next coroutine, or from the last one to the scheduler; and
        whoever goes on finds in its own context that it is the one. */
    method YieldFrom(ghost k: nat) returns (to: Coro?)
      requires Valid() && NoneFinished() && k < |list.items| && list.items[k] == current && SchedWaits() && Suspended()
      modifies this`current, this`schedSaved, list.items`saved
      ensures Valid() && Suspended() && current == to == if k + 1 < |list.items| then list.items[k + 1] else null
      ensures to != null ==> SchedWaits()
    {
      hide CoroList.Ok, Valid;
      ListIsOk();
      list.NextIs(k);
      list.Distinct();
      var from := current;
      to := from.next;
      from.saved := from;
      Resume(to);
    }

    /** The coroutine yields, and is at the rest of its script from then on. */
    method PassOn(c: Coro, ghost k: nat) returns (to: Coro?)
      requires Valid() && NoneFinished() && k < |list.items| && list.items[k] == c && current == c && c.script.Yield?
      requires Suspended() && SchedWaits()
      modifies this`current, this`schedSaved, this`scripts, list.items`script, list.items`saved
      ensures Valid() && Suspended() && (to != null ==> SchedWaits())
      ensures current == to == if k + 1 < |list.items| then list.items[k + 1] else null
      ensures Total() == old(Total()) && Work() < old(Work())
    {
      hide CoroList.Ok, Valid, Suspended, SchedWaits, Size, Spawns;
      ScriptIs(k);
      StepCounts(scripts, k, c.script.rest);
      Advance(c, k, c.script.rest);
      to := YieldFrom(k);
    }

    ghost function Behind(k: nat): Coro?
      reads list
    {
      if k + 1 < |list.items| then list.items[k + 1] else null
    }

    /** A step of the one at place k leaves the list as it is, or puts a new one in front of it; the
        next one to run is one place further behind, and control is back only behind the last
        place or when somebody has finished. */
    ghost predicate OneRound(before: seq<Coro>, after: seq<Coro>, k: nat, to: Coro?, k': nat)
      reads before`finished
    {
      && (after == before || (|after| > 0 && after[1..] == before && after[0] !in before && k' == k + 1 && to != null))
      && (to != null ==> k' == k + 1)
      && (to == null ==> after == before && (k + 1 == |before| || (k < |before| && before[k].finished)))
    }

    /** One step of the running coroutine; it says who runs next, and null for the scheduler. */
    method Step(c: Coro, ghost k: nat) returns (to: Coro?, ghost k': nat)
      requires Valid() && NoneFinished() && k < |list.items| && list.items[k] == c && current == c && SchedWaits()
      requires Suspended()
      modifies this`current, this`schedSaved, this`scripts, this`created, this`turns, list, list.items
      ensures Valid() && Suspended() && AtMostOneFinished() && current == to && Total() == old(Total())
      ensures to != null ==> SchedWaits()
      ensures match old(c.script)
              case Finish(status) => to == null && c.finished && list.items == old(list.items)
              case New(child, rest) =>
                to == c && |list.items| == |old(list.items)| + 1 && list.items[1..] == old(list.items)
                    && list.items[0].whole == child
              case Yield(rest) =>
                && to == old(if k + 1 < |list.items| then list.items[k + 1] else null) && list.items == old(list.items)
      ensures turns == old(turns) + [Turn(c, false, c, old(Behind(k)))]
      ensures old(created) <= created && fresh(created - old(created))
      ensures Work() < old(Work()) || (to == null && Work() == old(Work()) && !NoneFinished())
      ensures to != null ==> k' < |list.items| && list.items[k'] == to && NoneFinished()
      ensures OneRound(old(list.items), list.items, k, to, k')
      ensures fresh(Repr() - old(Repr()))
    {
      hide CoroList.Ok, Valid, Suspended, SchedWaits;
      ScriptIs(k);
      list.NextIs(k);
      turns := turns + [Turn(c, c.finished, current, c.next)];
      match c.script {
        case Finish(status) =>
          Return(c, k);
          to, k' := null, k;
        case New(child, rest) =>
          Spawn(c, k);
          to, k' := c, k + 1;
        case Yield(rest) =>
          to := PassOn(c, k);
          k' := k + 1;
      }
    }

    /** coro_yield_to(coro_list): the scheduler's context is saved, and the first coroutine goes on. */
    method YieldToFirst() returns (c: Coro)
      requires Valid() && NoneFinished() && list.items != [] && schedWaiting && current == null && Suspended()
      modifies this`current, this`schedSaved, list.items`saved
      ensures Valid() && Suspended() && SchedWaits() && current == c == list.items[0]
    {
      hide CoroList.Ok, Valid;
      ListIsOk();
      list.FirstIs();
      list.Distinct();
      c := list.first;
      schedSaved := Some(current);
      Resume(c);
    }

    /** The scheduler gives control away: beginning with the first, coroutines run down
        the list until one of them returns or the last one yields. */
    method RunUntilBack()
      requires Valid() && NoneFinished() && list.items != [] && schedWaiting && current == null && Suspended()
      modifies this`current, this`schedSaved, this`scripts, this`created, this`turns, list, list.items
      ensures Valid() && Suspended() && AtMostOneFinished() && current == null && Total() == old(Total())
      ensures |old(turns)| < |turns| && turns[..|old(turns)|] == old(turns)
      ensures var now := turns[|old(turns)|..];
              && InControl(now) && GoesDown(now) && now[0].running == old(list.items[0])
              && (turns[|turns| - 1].running.finished || turns[|turns| - 1].next == null)
      ensures NoneFinished() ==> forall c | c in old(list.items) :: Ran(turns[|old(turns)|..], c)
      ensures old(created) <= created && fresh(created - old(created))
      ensures Work() < old(Work()) || (Work() == old(Work()) && !NoneFinished())
      ensures fresh(Repr() - old(Repr()))
    {
      hide CoroList.Ok, Valid, Total, Work, InControl, GoesDown, Suspended, SchedWaits, RanTo, Ran;
      ghost var k: nat, now: seq<Turn> := 0, [];
      NoTurnYet();
      NoneRanYet(list.items);
      var c: Coro? := YieldToFirst();
      while c != null
        invariant Valid() && Suspended() && (c != null ==> SchedWaits()) && current == c && Total() == old(Total())
                  && AtMostOneFinished()
        invariant c != null ==> k < |list.items| && list.items[k] == c && NoneFinished() && Work() <= old(Work())
        invariant c == null ==> Work() < old(Work()) || (Work() == old(Work()) && !NoneFinished())
        invariant fresh(Repr() - old(Repr()))
        invariant old(created) <= created && fresh(created - old(created))
        invariant turns == old(turns) + now && InControl(now) && GoesDown(now)
        invariant if now == [] then c == old(list.items[0]) else now[0].running == old(list.items[0])
        invariant now != [] ==> ControlAt(now[|now| - 1], c)
        invariant RanTo(old(list.items), list.items, k, now)
        invariant c == null && NoneFinished() ==> k == |list.items|
        decreases Work(), c != null
      {
        ghost var items := list.items;
        RanFurther(old(list.items), items, k, now, Turn(c, false, c, Behind(k)));
        OneMoreTurn(now, Turn(c, false, c, Behind(k)));
        now := now + [Turn(c, false, c, Behind(k))];
        ghost var place, k' := k, 0;
        c, k' := Step(c, k);
        if list.items != items {
          RanWithNew(old(list.items), items, list.items, place + 1, now);
        }
        k := place + 1;
      }
      if NoneFinished() {
        AllRan(old(list.items), list.items, now);
      }
    }

    /** One more turn of whoever had control after the last one. */
    lemma OneMoreTurn(now: seq<Turn>, turn: Turn)
      requires InControl(now) && GoesDown(now) && !turn.finished && turn.current == turn.running
      requires now != [] ==> turn.running == now[|now| - 1].running || turn.running == now[|now| - 1].next
      ensures InControl(now + [turn]) && GoesDown(now + [turn])
    {
    }

    lemma NoTurnYet()
      ensures InControl([]) && GoesDown([])
    {
    }

    /** After that turn control is with c, or with the scheduler if c is null. */
    ghost predicate ControlAt(turn: Turn, c: Coro?)
      reads turn.running`finished
    {
      if c == null then turn.running.finished || turn.next == null else c == turn.running || c == turn.next
    }

    ghost predicate AtMostOneFinished()
      reads list, list.items
    {
      forall c, d | c in list.items && d in list.items && c.finished && d.finished :: c == d
    }

    lemma ListIsOk()
      requires Valid()
      ensures list.Ok() && |scripts| == |list.items|
    {
    }

    lemma ScriptIs(k: nat)
      requires Valid() && k < |list.items|
      ensures |scripts| == |list.items| && scripts[k] == list.items[k].script && list.Ok()
    {
    }

    lemma StepCounts(before: seq<Script>, k: nat, rest: Script)
      requires k < |before| && (before[k] == Yield(rest) || (before[k].New? && before[k].rest == rest))
      ensures var (cost, spawned) :=
              if before[k].New? then (1 + Size(before[k].child), 1 + Spawns(before[k].child)) else (1, 0);
              && Sum(before[k := rest], Size) == Sum(before, Size) - cost
              && Sum(before[k := rest], Spawns) == Sum(before, Spawns) - spawned
    {
      SumUpdate(before, k, rest, Size);
      SumUpdate(before, k, rest, Spawns);
    }

    lemma CreateCounts(before: seq<Script>, child: Script)
      ensures Sum([child] + before, Size) == Size(child) + Sum(before, Size)
      ensures Sum([child] + before, Spawns) == Spawns(child) + Sum(before, Spawns)
    {
      assert ([child] + before)[1..] == before;
    }

    /** The scheduler gives control away and is waiting until it has it back. */
    method RunWhileWaiting()
      requires Valid() && NoneFinished() && list.items != [] && current == null && Suspended() && InControl(turns)
      modifies this, list, list.items
      ensures Valid() && Suspended() && AtMostOneFinished() && current == null && !schedWaiting
              && Total() == old(Total())
      ensures Work() < old(Work()) || (Work() == old(Work()) && !NoneFinished())
      ensures handedOut == old(handedOut) && InControl(turns)
      ensures old(created) <= created && fresh(created - old(created))
      ensures fresh(Repr() - old(Repr()))
    {
      hide CoroList.Ok, Valid, Total, Work;
      ghost var earlier := turns;
      schedWaiting := true;
      RunUntilBack();
      schedWaiting := false;
      assert turns == earlier + turns[|earlier|..];
    }

    /** coro_sched_wait: a finished coroutine, or null once there are none at all. */
    method SchedWait() returns (c: Coro?)
      requires Valid() && AtMostOneFinished() && current == null && !schedWaiting && Suspended() && InControl(turns)
      modifies this, list, list.items
      ensures Valid() && Suspended() && NoneFinished() && current == null && !schedWaiting && Total() == old(Total())
      ensures c == null ==> list.items == [] && handedOut == old(handedOut) && Work() <= old(Work())
      ensures c != null ==> handedOut == old(handedOut) + [c] && Work() < old(Work())
      ensures c != null ==> c in created && c.finished && c.ret == Status(c.whole)
      ensures old(created) <= created && fresh(created - old(created)) && InControl(turns)
      ensures fresh(Repr() - old(Repr()))
    {
      hide CoroList.Ok, Valid, Total, Work, InControl, AtMostOneFinished, Status;
      ListIsOk();
      list.FirstIs();
      while list.first != null
        invariant Valid() && Suspended() && AtMostOneFinished() && current == null && !schedWaiting
                  && Total() == old(Total())
        invariant old(created) <= created && fresh(created - old(created)) && InControl(turns)
        invariant handedOut == old(handedOut) && Work() <= old(Work()) && (list.first == null <==> list.items == [])
        invariant fresh(Repr() - old(Repr()))
        decreases Work(), NoneFinished()
      {
        c := TakeFinished();
        if c != null {
          return;
        }
        RunWhileWaiting();
        ListIsOk();
        list.FirstIs();
      }
      c := null;
    }

    /** The first finished coroutine, if there is one, leaves the list. */
    method TakeFinished() returns (c: Coro?)
      requires Valid() && AtMostOneFinished() && Suspended()
      modifies this`scripts, this`handedOut, list, list.items`next, list.items`prev
      ensures Valid() && Suspended() && NoneFinished() && Total() == old(Total()) && fresh(Repr() - old(Repr()))
      ensures c == null ==> unchanged(this`handedOut) && unchanged(this`scripts) && unchanged(list)
      ensures c != null ==> handedOut == old(handedOut) + [c] && Work() < old(Work())
      ensures c != null ==> c in created && c.finished && c.ret == Status(c.whole)
    {
      hide CoroList.Ok, Valid, Total, Work;
      ListIsOk();
      ghost var k;
      c, k := list.FindFinished();
      if c != null {
        HandOut(c, k);
      }
    }

    method HandOut(c: Coro, ghost k: nat)
      requires Valid() && AtMostOneFinished() && k < |list.items| && list.items[k] == c && c.finished
      requires Suspended()
      modifies this`scripts, this`handedOut, list, list.items`next, list.items`prev
      ensures Valid() && Suspended() && NoneFinished() && handedOut == old(handedOut) + [c] && Work() < old(Work())
              && Total() == old(Total())
      ensures list.items == old(list.items)[..k] + old(list.items)[k + 1..]
      ensures c in created && c.finished && c.ret == Status(c.whole)
      ensures fresh(Repr() - old(Repr()))
    {
      hide CoroList.Ok, Coro.Ok, Sum;
      list.Distinct();
      CoroIs(k);
      RemoveCounts(scripts, k);
      Without(list.items, k);
      Without(scripts, k);
      list.Delete(c, k);
      scripts, handedOut := scripts[..k] + scripts[k + 1..], handedOut + [c];
    }

    lemma Without<T>(xs: seq<T>, k: nat)
      requires k < |xs|
      ensures var left := xs[..k] + xs[k + 1..];
              |left| == |xs| - 1 && forall i | 0 <= i < |left| :: left[i] == xs[if i < k then i else i + 1]
    {
    }

    lemma CoroIs(k: nat)
      requires Valid() && k < |list.items| && list.items[k].finished
      ensures list.items[k].ret == Status(list.items[k].whole) && |scripts| == |list.items| && scripts[k].Finish?
      ensures list.items[k] !in handedOut && list.items[k] in created
    {
    }

    lemma {:induction false} RemoveCounts(before: seq<Script>, k: nat)
      requires k < |before| && before[k].Finish?
      ensures Sum(before[..k] + before[k + 1..], Size) == Sum(before, Size) - 1
      ensures Sum(before[..k] + before[k + 1..], Spawns) == Sum(before, Spawns)
    {
      if k == 0 {
        assert before[..0] + before[1..] == before[1..];
      } else {
        RemoveCounts(before[1..], k - 1);
        assert (before[..k] + before[k + 1..])[1..] == before[1..][..k - 1] + before[1..][k..];
      }
    }

    lemma AllHandedOut()
      requires Valid() && list.items == []
      ensures created == (set c | c in handedOut) && |handedOut| == Total()
      ensures forall i, j | 0 <= i < j < |handedOut| :: handedOut[i] != handedOut[j]
      ensures forall c | c in handedOut :: c.finished && c.ret == Status(c.whole)
    {
    }

    /** The loop of a program that waits for all its coroutines: it ends, and each coroutine that
        was ever created was handed out once, finished, with the status of its own script. */
    method WaitForAll()
      requires Valid() && NoneFinished() && current == null && !schedWaiting && handedOut == []
      requires Suspended() && InControl(turns)
      modifies Repr()
      ensures created == (set c | c in handedOut) && old(created) <= created && fresh(created - old(created))
      ensures list.items == [] && |handedOut| == old(Total())
      ensures forall i, j | 0 <= i < j < |handedOut| :: handedOut[i] != handedOut[j]
      ensures forall c | c in handedOut :: c.finished && c.ret == Status(c.whole)
      ensures fresh(Repr() - old(Repr())) && InControl(turns)
    {
      hide CoroList.Ok, Work, Valid, Total, InControl, Status;
      var c := SchedWait();
      while c != null
        invariant Valid() && Suspended() && NoneFinished() && current == null && !schedWaiting
                  && Total() == old(Total())
        invariant old(created) <= created && fresh(created - old(created)) && InControl(turns)
        invariant c == null ==> list.items == []
        invariant fresh(Repr() - old(Repr()))
        decreases Work(), c != null
      {
        c := SchedWait();
      }
      AllHandedOut();
    }
  }
}
