/** Merging the sorted buffers into one file. */
module Merge {
  import opened SortProgram

  const INT_MAX: int := 0x7fff_ffff

  /** What all buffers hold together. */
  function All(runs: seq<seq<int>>): multiset<int> {
    if runs == [] then multiset{} else multiset(runs[0]) + All(runs[1..])
  }

  function Length(runs: seq<seq<int>>): nat {
    if runs == [] then 0 else |runs[0]| + Length(runs[1..])
  }

  lemma {:induction false} TakeFirst(runs: seq<seq<int>>, i: nat)
    requires i < |runs| && runs[i] != []
    ensures All(runs) == All(runs[i := runs[i][1..]]) + multiset{runs[i][0]}
    ensures Length(runs) == Length(runs[i := runs[i][1..]]) + 1
  {
    if i == 0 {
      assert runs[0] == [runs[0][0]] + runs[0][1..];
    } else {
      TakeFirst(runs[1..], i - 1);
      assert runs[i := runs[i][1..]][1..] == runs[1..][i - 1 := runs[i][1..]];
    }
  }

  lemma {:induction false} NothingLeft(runs: seq<seq<int>>)
    requires forall i | 0 <= i < |runs| :: runs[i] == []
    ensures All(runs) == multiset{}
  {
    if runs == [] {
    } else {
      NothingLeft(runs[1..]);
    }
  }

  /** v is at most everything that is left. */
  predicate AtMostAll(v: int, runs: seq<seq<int>>) {
    forall i, k | 0 <= i < |runs| && 0 <= k < |runs[i]| :: v <= runs[i][k]
  }

  predicate AllSorted(runs: seq<seq<int>>) {
    forall i | 0 <= i < |runs| :: Sorted(runs[i])
  }

  /** The inner loop: the last buffer whose first element is smallest, or -1 if all are empty. */
  method FindMin(data: array<seq<int>>) returns (flag: int)
    requires forall i | 0 <= i < data.Length && data[i] != [] :: data[i][0] <= INT_MAX
    ensures flag == -1 ==> forall i | 0 <= i < data.Length :: data[i] == []
    ensures flag != -1 ==> 0 <= flag < data.Length && data[flag] != []
    ensures flag != -1 ==> forall i | 0 <= i < data.Length && data[i] != [] ::
              data[flag][0] <= data[i][0] && (i > flag ==> data[flag][0] < data[i][0])
  {
    var min := INT_MAX;
    flag := -1;
    for i := 0 to data.Length
      invariant flag == -1 ==> min == INT_MAX && forall k | 0 <= k < i :: data[k] == []
      invariant flag != -1 ==> 0 <= flag < i && data[flag] != [] && data[flag][0] == min
      invariant flag != -1 ==> forall k | 0 <= k < i && data[k] != [] ::
                min <= data[k][0] && (k > flag ==> min < data[k][0])
    {
      if data[i] != [] {
        var v := data[i][0];
        if min >= v {
          min := v;
          flag := i;
        }
      }
    }
  }

  /** One round of the outer loop: the least element is taken out, unless there is none. */
  method TakeMin(data: array<seq<int>>) returns (done: bool, v: int)
    requires Bounded(data[..])
    modifies data
    ensures done ==> data[..] == old(data[..]) && All(data[..]) == multiset{}
    ensures !done ==>
              && old(All(data[..])) == All(data[..]) + multiset{v} && Bounded(data[..])
              && Length(data[..]) < old(Length(data[..]))
    ensures !done && old(AllSorted(data[..])) ==> AllSorted(data[..]) && AtMostAll(v, data[..])
    ensures forall u | old(AtMostAll(u, data[..])) :: AtMostAll(u, data[..]) && (!done ==> u <= v)
  {
    ghost var before := data[..];
    var flag := FindMin(data);
    done, v := flag == -1, 0;
    if done {
      NothingLeft(data[..]);
    } else {
      TakeFirst(data[..], flag);
      v := data[flag][0];
      data[flag] := data[flag][1..];
      if AllSorted(before) {
        MinIsAtMostAll(before, flag);
      }
    }
  }

  predicate Bounded(runs: seq<seq<int>>) {
    forall i, k | 0 <= i < |runs| && 0 <= k < |runs[i]| :: runs[i][k] <= INT_MAX
  }

  /** merge_files: all elements are written, in order if the buffers were. */
  method MergeFiles(data: array<seq<int>>) returns (out: seq<int>)
    requires Bounded(data[..])
    modifies data
    ensures multiset(out) == old(All(data[..]))
    ensures old(AllSorted(data[..])) ==> Sorted(out)
  {
    hide Bounded, All, AtMostAll, AllSorted, Length;
    ghost var sorted := AllSorted(data[..]);
    out := [];
    while true
      invariant Bounded(data[..]) && multiset(out) + All(data[..]) == old(All(data[..]))
      invariant sorted ==> AllSorted(data[..]) && Sorted(out) && (out != [] ==> AtMostAll(out[|out| - 1], data[..]))
      decreases Length(data[..])
    {
      var done, v := TakeMin(data);
      if done {
        break;
      }
      out := out + [v];
    }
  }

  lemma MinIsAtMostAll(runs: seq<seq<int>>, flag: nat)
    requires AllSorted(runs) && flag < |runs| && runs[flag] != []
    requires forall i | 0 <= i < |runs| && runs[i] != [] :: runs[flag][0] <= runs[i][0]
    ensures AtMostAll(runs[flag][0], runs) && AtMostAll(runs[flag][0], runs[flag := runs[flag][1..]])
    ensures AllSorted(runs[flag := runs[flag][1..]])
  {
  }

  lemma {:induction false} AllIsAll(ws: seq<Worker>, inputs: seq<seq<int>>)
    requires |ws| == |inputs| && forall i | 0 <= i < |ws| :: multiset(ws[i].buf) == multiset(inputs[i])
    ensures All(Buffers(ws)) == All(inputs)
  {
    if ws == [] {
    } else {
      AllIsAll(ws[1..], inputs[1..]);
      assert Buffers(ws)[1..] == Buffers(ws[1..]);
    }
  }

  function Buffers(ws: seq<Worker>): seq<seq<int>> {
    seq(|ws|, i requires 0 <= i < |ws| => ws[i].buf)
  }

  /** The whole program: after any run of the coroutines, what main writes is all inputs
      together, sorted. */
  method MergeAfterRun(ghost run: seq<State>, inputs: seq<seq<int>>, data: array<seq<int>>) returns (out: seq<int>)
    requires IsRun(run, inputs) && run[|run| - 1].running == -1 && data[..] == Buffers(run[|run| - 1].workers)
    requires Bounded(inputs)
    modifies data
    ensures Sorted(out) && multiset(out) == All(inputs)
  {
    ghost var ws := run[|run| - 1].workers;
    RunKeepsInv(run, inputs);
    forall i | 0 <= i < |ws|
      ensures Sorted(ws[i].buf) && multiset(ws[i].buf) == multiset(inputs[i])
      ensures forall k | 0 <= k < |ws[i].buf| :: ws[i].buf[k] <= INT_MAX
    {
      MainFindsSorted(run, inputs, i);
      forall k | 0 <= k < |ws[i].buf|
        ensures ws[i].buf[k] <= INT_MAX
      {
        assert ws[i].buf[k] in multiset(inputs[i]);
      }
    }
    AllIsAll(ws, inputs);
    out := MergeFiles(data);
  }
}
