/** The lock-free maximum: any number of threads, each of which loads the shared value and then
    compares and exchanges until it is at least its argument. */
module AtomicMax {

  // ---- one call among interfering ones ------------------------------------------------------------

  class Atomic {
    var value: int

    constructor (value: int)
      ensures this.value == value
    {
      this.value := value;
    }

    method CompareExchange(expected: int, desired: int) returns (ok: bool, actual: int)
      modifies this
      ensures actual == old(value) && ok == (old(value) == expected)
      ensures value == if ok then desired else old(value)
    {
      actual, ok := value, value == expected;
      if ok {
        value := desired;
      }
    }

    // Another thread raises the value, or tries to.
    method Interfere(to: int)
      modifies this
      ensures value == if to > old(value) then to else old(value)
    {
      if to > value {
        value := to;
      }
    }
  }

  /** The loop of one call, with the raises that other threads make before each exchange. */
  method StoreIfGreater(cell: Atomic, arg: int, raises: seq<int>) returns (r: int)
    modifies cell
    ensures arg <= r <= cell.value && old(cell.value) <= cell.value
    ensures cell.value in [old(cell.value), arg] + raises
    ensures raises == [] ==> r == cell.value == if arg > old(cell.value) then arg else old(cell.value)
  {
    var seen := cell.value;
    var k := 0;
    while true
      invariant 0 <= k <= |raises| && seen == cell.value && old(cell.value) <= seen
      invariant seen in [old(cell.value), arg] + raises && (k == 0 ==> seen == old(cell.value))
      decreases |raises| - k
    {
      if !(arg > seen) {
        return seen;
      }
      if k < |raises| {
        assert raises[k] in raises;
        cell.Interfere(raises[k]);
      }
      var ok, actual := cell.CompareExchange(seen, arg);
      if ok {
        return arg;
      }
      seen := actual;
      k := k + 1;
    }
  }

  // ---- all calls -------------------------------------------------------------------------------------

  datatype Thread =
    | Start(arg: int)
    | Loaded(arg: int, seen: int)
    | Done(arg: int, result: int)

  datatype World = World(value: int, threads: seq<Thread>)

  predicate Failing(w: World, i: nat)
    requires i < |w.threads|
  {
    w.threads[i].Loaded? && w.threads[i].arg > w.threads[i].seen && w.value != w.threads[i].seen
  }

  predicate Raising(w: World, i: nat)
    requires i < |w.threads|
  {
    w.threads[i].Loaded? && w.threads[i].arg > w.threads[i].seen && w.value == w.threads[i].seen
  }

  // Thread i takes its next step: the load, the return without a store, or a compare-exchange.
  function Step(w: World, i: nat): World
    requires i < |w.threads|
  {
    match w.threads[i]
    case Start(arg) => w.(threads := w.threads[i := Loaded(arg, w.value)])
    case Loaded(arg, seen) =>
      if !(arg > seen) then w.(threads := w.threads[i := Done(arg, seen)])
      else if w.value == seen then World(arg, w.threads[i := Done(arg, arg)])
      else w.(threads := w.threads[i := Loaded(arg, w.value)])
    case Done(_, _) => w
  }

  function Begin(init: int, args: seq<int>): World {
    World(init, seq(|args|, i requires 0 <= i < |args| => Start(args[i])))
  }

  predicate Scheduled(schedule: seq<nat>, n: nat) {
    forall k :: 0 <= k < |schedule| ==> schedule[k] < n
  }

  function After(init: int, args: seq<int>, schedule: seq<nat>): (w: World)
    requires Scheduled(schedule, |args|)
    ensures |w.threads| == |args|
  {
    if schedule == [] then Begin(init, args)
    else Step(After(init, args, schedule[..|schedule| - 1]), schedule[|schedule| - 1])
  }

  // Every scheduled thread still had a step to take.
  predicate Schedule(init: int, args: seq<int>, schedule: seq<nat>) {
    && Scheduled(schedule, |args|)
    && (schedule == [] ||
        var front, last := schedule[..|schedule| - 1], schedule[|schedule| - 1];
        Schedule(init, args, front) && !After(init, args, front).threads[last].Done?)
  }

  predicate AllDone(w: World) {
    forall i :: 0 <= i < |w.threads| ==> w.threads[i].Done?
  }

  // ---- safety -------------------------------------------------------------------------------------------

  ghost predicate ThreadOk(value: int, arg: int, t: Thread) {
    && t.arg == arg
    && (t.Loaded? ==> t.seen <= value)
    && (t.Done? ==> arg <= t.result <= value)
  }

  ghost predicate Invariant(init: int, args: seq<int>, w: World) {
    && |w.threads| == |args| && init <= w.value && w.value in [init] + args
    && forall i :: 0 <= i < |args| ==> ThreadOk(w.value, args[i], w.threads[i])
  }

  lemma StepKeeps(init: int, args: seq<int>, w: World, i: nat)
    requires Invariant(init, args, w) && i < |args|
    ensures Invariant(init, args, Step(w, i)) && w.value <= Step(w, i).value
    ensures w.value < Step(w, i).value <==> Raising(w, i)
  {
    assert ThreadOk(w.value, args[i], w.threads[i]);
    assert args[i] in args;
  }

  lemma {:induction false} Reachable(init: int, args: seq<int>, schedule: seq<nat>)
    requires Scheduled(schedule, |args|)
    ensures Invariant(init, args, After(init, args, schedule))
  {
    if schedule != [] {
      Reachable(init, args, schedule[..|schedule| - 1]);
      StepKeeps(init, args, After(init, args, schedule[..|schedule| - 1]), schedule[|schedule| - 1]);
    }
  }

  /** The value never decreases along a run. */
  lemma {:induction false} NeverDecreases(init: int, args: seq<int>, schedule: seq<nat>, k: nat)
    requires Scheduled(schedule, |args|) && k <= |schedule|
    ensures After(init, args, schedule[..k]).value <= After(init, args, schedule).value
  {
    if k == |schedule| {
      assert schedule[..k] == schedule;
    } else {
      var front, last := schedule[..|schedule| - 1], schedule[|schedule| - 1];
      assert front[..k] == schedule[..k];
      NeverDecreases(init, args, front, k);
      Reachable(init, args, front);
      StepKeeps(init, args, After(init, args, front), last);
    }
  }

  /** A call that has returned left the value at or above its argument and its result, whatever the
      other threads did and do. */
  lemma ReturnedMeans(init: int, args: seq<int>, schedule: seq<nat>, k: nat, i: nat)
    requires Scheduled(schedule, |args|) && k <= |schedule| && i < |args|
    requires After(init, args, schedule[..k]).threads[i].Done?
    ensures var r := After(init, args, schedule[..k]).threads[i].result;
            args[i] <= r <= After(init, args, schedule).value
  {
    Reachable(init, args, schedule[..k]);
    NeverDecreases(init, args, schedule, k);
    var w := After(init, args, schedule[..k]);
    assert ThreadOk(w.value, args[i], w.threads[i]);
  }

  /** Once all calls have returned, the value is the maximum of the initial value and the arguments. */
  lemma FinallyMaximum(init: int, args: seq<int>, schedule: seq<nat>)
    requires Scheduled(schedule, |args|) && AllDone(After(init, args, schedule))
    ensures var v := After(init, args, schedule).value;
            v in [init] + args && forall x :: x in [init] + args ==> x <= v
  {
    Reachable(init, args, schedule);
    var w := After(init, args, schedule);
    forall i | 0 <= i < |args| ensures args[i] <= w.value {
      assert ThreadOk(w.value, args[i], w.threads[i]);
    }
  }

  // ---- progress ---------------------------------------------------------------------------------------------

  function Active(threads: seq<Thread>): (n: nat)
    ensures n <= |threads|
  {
    if threads == [] then 0 else Active(threads[1..]) + if threads[0].Done? then 0 else 1
  }

  // Work a thread must do before it can return, other than returning.
  function Weight(t: Thread, value: int): nat {
    if t.Start? || (t.Loaded? && t.seen != value) then 1 else 0
  }

  function TotalWeight(threads: seq<Thread>, value: int): (n: nat)
    ensures n <= Active(threads)
  {
    if threads == [] then 0 else TotalWeight(threads[1..], value) + Weight(threads[0], value)
  }

  lemma {:induction false} UpdateActive(threads: seq<Thread>, i: nat, t: Thread, value: int)
    requires i < |threads|
    ensures Active(threads[i := t]) == Active(threads) - (if threads[i].Done? then 0 else 1) + (if t.Done? then 0 else 1)
    ensures TotalWeight(threads[i := t], value) == TotalWeight(threads, value) - Weight(threads[i], value) + Weight(t, value)
  {
    if i == 0 {
      assert threads[i := t][1..] == threads[1..];
    } else {
      assert threads[i := t][1..] == threads[1..][i - 1 := t];
      UpdateActive(threads[1..], i - 1, t, value);
    }
  }

  // An upper bound on the steps that are left.
  function Potential(w: World): nat {
    |w.threads| * Active(w.threads) + TotalWeight(w.threads, w.value)
  }

  /** Every step that a thread can take uses up potential. */
  lemma StepsCost(w: World, i: nat)
    requires i < |w.threads| && !w.threads[i].Done?
    ensures Potential(Step(w, i)) < Potential(w)
  {
    var u := Step(w, i);
    UpdateActive(w.threads, i, u.threads[i], w.value);
    assert u.threads == w.threads[i := u.threads[i]];
    hide Active, TotalWeight;
    if u.threads[i].Done? {
      OneReturned(|w.threads|, Active(w.threads));
    }
  }

  lemma OneReturned(n: nat, active: nat)
    requires 1 <= active <= n
    ensures n * (active - 1) + (active - 1) < n * active
  {
  }

  lemma {:induction false} BeginActive(args: seq<int>, threads: seq<Thread>, value: int)
    requires |threads| == |args| && forall i :: 0 <= i < |threads| ==> threads[i].Start?
    ensures Active(threads) == |threads| && TotalWeight(threads, value) == |threads|
  {
    if args != [] {
      BeginActive(args[1..], threads[1..], value);
    }
  }

  /** Every run of n calls ends within n * n + n steps, however the threads are scheduled. */
  lemma {:induction false} RunsEnd(init: int, args: seq<int>, schedule: seq<nat>)
    requires Schedule(init, args, schedule)
    ensures |schedule| + Potential(After(init, args, schedule)) <= |args| * |args| + |args|
  {
    if schedule == [] {
      BeginActive(args, Begin(init, args).threads, init);
    } else {
      var front, last := schedule[..|schedule| - 1], schedule[|schedule| - 1];
      RunsEnd(init, args, front);
      StepsCost(After(init, args, front), last);
    }
  }

  /** A run that cannot be continued is one in which every call has returned. */
  lemma NoDeadlock(init: int, args: seq<int>, schedule: seq<nat>)
    requires Schedule(init, args, schedule)
    ensures (forall i :: 0 <= i < |args| ==> !Schedule(init, args, schedule + [i])) <==> AllDone(After(init, args, schedule))
  {
    forall i | 0 <= i < |args|
      ensures Schedule(init, args, schedule + [i]) <==> !After(init, args, schedule).threads[i].Done?
    {
      assert (schedule + [i])[..|schedule|] == schedule;
    }
  }

  // ---- who pays for a failed exchange ---------------------------------------------------------------------------

  function Failures(init: int, args: seq<int>, schedule: seq<nat>, i: nat): nat
    requires Scheduled(schedule, |args|)
  {
    if schedule == [] then 0
    else
      var front, last := schedule[..|schedule| - 1], schedule[|schedule| - 1];
      Failures(init, args, front, i) + if last == i && Failing(After(init, args, front), last) then 1 else 0
  }

  // Strict increases made by threads other than i.
  function RaisesByOthers(init: int, args: seq<int>, schedule: seq<nat>, i: nat): nat
    requires Scheduled(schedule, |args|)
  {
    if schedule == [] then 0
    else
      var front, last := schedule[..|schedule| - 1], schedule[|schedule| - 1];
      RaisesByOthers(init, args, front, i) + if last != i && Raising(After(init, args, front), last) then 1 else 0
  }

  /** Each failed exchange of a thread is paid for by a strict increase that another thread made
      since the failing thread last looked; one that is about to fail is paid for already. */
  lemma {:induction false} FailuresCharged(init: int, args: seq<int>, schedule: seq<nat>, i: nat)
    requires Scheduled(schedule, |args|) && i < |args|
    ensures Failures(init, args, schedule, i) + (if Failing(After(init, args, schedule), i) then 1 else 0)
            <= RaisesByOthers(init, args, schedule, i)
    ensures After(init, args, schedule).threads[i].Start? ==> Failures(init, args, schedule, i) == 0
  {
    if schedule != [] {
      var front, last := schedule[..|schedule| - 1], schedule[|schedule| - 1];
      FailuresCharged(init, args, front, i);
    }
  }
}
