/** The supervisor of the three pressure workloads: its child table, its running flags and its restart count. */
module BakingSupervisor {
  const WORKLOAD_COUNT := 3
  const K_CYCLE_SECONDS := 30 * 60
  const K_METRIC_POINT_COUNT := 120

  datatype Child = Child(pid: int, workload: nat)

  /** How many table entries a workload has. */
  function Entries(children: seq<Child>, w: nat): nat {
    if children == [] then 0 else (if children[0].workload == w then 1 else 0) + Entries(children[1..], w)
  }

  function Times(exited: seq<nat>, w: nat): nat {
    if exited == [] then 0 else (if exited[0] == w then 1 else 0) + Times(exited[1..], w)
  }

  lemma {:induction false} EntriesAppend(a: seq<Child>, b: seq<Child>, w: nat)
    ensures Entries(a + b, w) == Entries(a, w) + Entries(b, w)
    decreases a
  {
    if a == [] {
      assert a + b == b;
    } else {
      EntriesAppend(a[1..], b, w);
      assert (a + b)[0] == a[0] && (a + b)[1..] == a[1..] + b;
    }
  }

  lemma {:induction false} TimesSnoc(exited: seq<nat>, last: nat, w: nat)
    ensures Times(exited + [last], w) == Times(exited, w) + if last == w then 1 else 0
  {
    if exited == [] {
      assert [last][1..] == [];
    } else {
      TimesSnoc(exited[1..], last, w);
      assert (exited + [last])[0] == exited[0] && (exited + [last])[1..] == exited[1..] + [last];
    }
  }

  lemma EntriesSnoc(children: seq<Child>, last: Child, w: nat)
    ensures Entries(children + [last], w) == Entries(children, w) + if last.workload == w then 1 else 0
  {
    EntriesAppend(children, [last], w);
    assert [last][1..] == [];
  }

  lemma EntriesErase(children: seq<Child>, i: nat, w: nat)
    requires i < |children|
    ensures Entries(children, w)
            == Entries(children[..i] + children[i + 1..], w) + if children[i].workload == w then 1 else 0
  {
    EntriesAppend(children[..i], children[i + 1..], w);
    EntriesAppend(children[..i], children[i..], w);
    assert children == children[..i] + children[i..];
    assert children[i..][0] == children[i] && children[i..][1..] == children[i + 1..];
  }

  lemma EmptyTable(children: seq<Child>)
    requires forall i :: 0 <= i < |children| ==> children[i].workload < WORKLOAD_COUNT
    ensures children == [] <==> forall w :: 0 <= w < WORKLOAD_COUNT ==> Entries(children, w) == 0
  {
    if children != [] {
      assert Entries(children, children[0].workload) >= 1;
    }
  }

  predicate Known(children: seq<Child>) {
    forall i :: 0 <= i < |children| ==> children[i].workload < WORKLOAD_COUNT
  }

  /** One entry for each workload that is flagged as running, none for the others. */
  ghost predicate Agreement(children: seq<Child>, running: seq<bool>) {
    && |running| == WORKLOAD_COUNT && Known(children)
    && forall w :: 0 <= w < WORKLOAD_COUNT ==> Entries(children, w) == if running[w] then 1 else 0
  }

  /** Agreement, and the workloads still to be restarted have no entry. */
  ghost predicate Restartable(children: seq<Child>, running: seq<bool>, exited: seq<nat>) {
    && Agreement(children, running)
    && (forall i :: 0 <= i < |exited| ==> exited[i] < WORKLOAD_COUNT)
    && forall w :: 0 <= w < WORKLOAD_COUNT ==> Entries(children, w) + Times(exited, w) <= 1
  }

  datatype Sample = Sample(elapsed: int, running: seq<bool>)

  function Newest(samples: seq<Sample>): seq<Sample> {
    if |samples| <= K_METRIC_POINT_COUNT then samples else samples[|samples| - K_METRIC_POINT_COUNT..]
  }

  class BakingPiService {
    var stopRequested: bool
    var childProcesses: seq<Child>
    var running: seq<bool>
    var restartCount: nat
    var elapsedSeconds: int
    var inGap: bool
    var cycle: nat
    var metricHistory: seq<Sample>
    /** The workloads that a launch was meant to bring back, in order. */
    ghost var relaunched: seq<nat>
    ghost var samples: seq<Sample>

    constructor ()
      ensures childProcesses == [] && running == [false, false, false] && restartCount == 0 && relaunched == []
      ensures metricHistory == samples == []
    {
      stopRequested, childProcesses, running := false, [], [false, false, false];
      restartCount, elapsedSeconds, inGap, cycle, relaunched := 0, 0, false, 0, [];
      metricHistory, samples := [], [];
    }

    method ObserveStop() returns (stop: bool)
      modifies this`stopRequested
      ensures stop == stopRequested && (old(stopRequested) ==> stop)
    {
      if * {
        stopRequested := true;
      }
      return stopRequested;
    }

    method SetWorkloadRunning(w: nat, value: bool)
      requires w < WORKLOAD_COUNT == |running|
      modifies this`running
      ensures running == old(running)[w := value]
    {
      running := running[w := value];
    }

    /** A failed launch clears the flag, except when it was not tried because of a stop request. */
    method LaunchWorkload(w: nat, append: bool) returns (started: bool)
      requires w < WORKLOAD_COUNT == |running|
      modifies this`stopRequested, this`childProcesses, this`running, this`relaunched
      ensures started ==>
                && running == old(running)[w := true]
                && exists pid :: childProcesses == old(childProcesses) + [Child(pid, w)]
      ensures !started ==>
                && childProcesses == old(childProcesses)
                && (running == old(running)[w := false] || (running == old(running) && stopRequested))
      ensures relaunched == old(relaunched) + if append then [w] else []
      ensures old(stopRequested) ==> stopRequested && !started
    {
      relaunched := relaunched + if append then [w] else [];
      var stop := ObserveStop();
      if stop {
        return false;
      }
      var spawned: bool, pid: int := *, *;
      if !spawned {
        SetWorkloadRunning(w, false);
        return false;
      }
      childProcesses := childProcesses + [Child(pid, w)];
      SetWorkloadRunning(w, true);
      return true;
    }

    /** After the flags were cleared, flags and table agree exactly if the table was empty before. */
    method LaunchWorkloads() returns (allStarted: bool)
      requires running == [false, false, false] && Known(childProcesses)
      modifies this`stopRequested, this`childProcesses, this`running, this`relaunched
      ensures Known(childProcesses) && |running| == WORKLOAD_COUNT && relaunched == old(relaunched)
      ensures old(stopRequested) ==> stopRequested
      ensures Agreement(childProcesses, running) <==> old(childProcesses) == []
      ensures allStarted ==> running == [true, true, true]
    {
      ghost var before := childProcesses;
      allStarted := true;
      for index := 0 to WORKLOAD_COUNT
        invariant |running| == WORKLOAD_COUNT && Known(childProcesses) && relaunched == old(relaunched)
        invariant old(stopRequested) ==> stopRequested
        invariant forall w :: 0 <= w < WORKLOAD_COUNT ==>
                    Entries(childProcesses, w) == Entries(before, w) + if running[w] then 1 else 0
        invariant forall w :: index <= w < WORKLOAD_COUNT ==> !running[w]
        invariant allStarted ==> forall w :: 0 <= w < index ==> running[w]
      {
        ghost var table := childProcesses;
        var started := LaunchWorkload(index, false);
        if started {
          forall w
            ensures Entries(childProcesses, w) == Entries(table, w) + if index == w then 1 else 0
          {
            EntriesSnoc(table, childProcesses[|table|], w);
          }
        }
        allStarted := started && allStarted;
      }
      EmptyTable(before);
    }

    method RelaunchWorkload(w: nat, ghost exited: seq<nat>) returns (started: bool)
      requires w < WORKLOAD_COUNT == |running| && restartCount == |relaunched|
      modifies this`stopRequested, this`childProcesses, this`running, this`relaunched, this`restartCount
      ensures |running| == WORKLOAD_COUNT && restartCount == |relaunched| && relaunched == old(relaunched) + [w]
      ensures old(childProcesses) <= childProcesses
      ensures old(stopRequested) ==> stopRequested
      ensures old(Restartable(childProcesses, running, [w] + exited)) ==>
                Restartable(childProcesses, running, exited)
      ensures old(Known(childProcesses)) ==> Known(childProcesses)
    {
      ghost var table, flags := childProcesses, running;
      restartCount := restartCount + 1;
      started := LaunchWorkload(w, true);
      if Restartable(table, flags, [w] + exited) {
        RelaunchKeeps(table, flags, childProcesses, running, w, exited, started);
      }
    }

    /** Every child that has ended leaves the table, and its flag is cleared. */
    method ReapChildren() returns (exited: seq<nat>)
      requires |running| == WORKLOAD_COUNT && Known(childProcesses)
      modifies this`childProcesses, this`running
      ensures |running| == WORKLOAD_COUNT && Known(childProcesses)
      ensures Agreement(old(childProcesses), old(running)) ==> Restartable(childProcesses, running, exited)
      ensures forall i :: 0 <= i < |exited| ==> exited[i] < WORKLOAD_COUNT
      ensures forall w :: Entries(old(childProcesses), w) == Entries(childProcesses, w) + Times(exited, w)
      ensures exited == [] ==> childProcesses == old(childProcesses) && running == old(running)
    {
      ghost var agreed := Agreement(childProcesses, running);
      exited := [];
      var i := 0;
      while i < |childProcesses|
        invariant i <= |childProcesses| && |running| == WORKLOAD_COUNT && Known(childProcesses)
        invariant agreed ==> Restartable(childProcesses, running, exited)
        invariant forall k :: 0 <= k < |exited| ==> exited[k] < WORKLOAD_COUNT
        invariant forall w :: Entries(old(childProcesses), w) == Entries(childProcesses, w) + Times(exited, w)
        invariant exited == [] ==> childProcesses == old(childProcesses) && running == old(running)
        decreases |childProcesses| - i
      {
        var gone: bool := *;
        if !gone {
          i := i + 1;
          continue;
        }
        var w := childProcesses[i].workload;
        if agreed {
          EraseKeeps(childProcesses, running, exited, i);
        }
        Moved(childProcesses, exited, i);
        exited := exited + [w];
        SetWorkloadRunning(w, false);
        childProcesses := childProcesses[..i] + childProcesses[i + 1..];
      }
    }

    method RestartExited(exited: seq<nat>)
      requires |running| == WORKLOAD_COUNT && Known(childProcesses) && restartCount == |relaunched|
      requires forall i :: 0 <= i < |exited| ==> exited[i] < WORKLOAD_COUNT
      modifies this`stopRequested, this`childProcesses, this`running, this`relaunched, this`restartCount
      ensures |running| == WORKLOAD_COUNT && Known(childProcesses)
      ensures restartCount == |relaunched| && relaunched == old(relaunched) + exited
      ensures old(childProcesses) <= childProcesses && (old(stopRequested) ==> stopRequested)
      ensures exited == [] ==> childProcesses == old(childProcesses) && running == old(running)
      ensures old(Restartable(childProcesses, running, exited)) ==> Agreement(childProcesses, running)
    {
      ghost var agreed := Restartable(childProcesses, running, exited);
      assert exited[0..] == exited;
      for i := 0 to |exited|
        invariant |running| == WORKLOAD_COUNT && Known(childProcesses)
        invariant restartCount == |relaunched| && relaunched == old(relaunched) + exited[..i]
        invariant old(childProcesses) <= childProcesses && (old(stopRequested) ==> stopRequested)
        invariant i == 0 ==> childProcesses == old(childProcesses) && running == old(running)
        invariant agreed ==> Restartable(childProcesses, running, exited[i..])
      {
        assert exited[i..] == [exited[i]] + exited[i + 1..];
        assert exited[..i + 1] == exited[..i] + [exited[i]];
        var _ := RelaunchWorkload(exited[i], exited[i + 1..]);
      }
      assert exited[..|exited|] == exited;
    }

    /** Each workload without a child is tried once more, unless a stop is requested on the way. */
    method RetryMissing()
      requires |running| == WORKLOAD_COUNT && Known(childProcesses) && restartCount == |relaunched|
      modifies this`stopRequested, this`childProcesses, this`running, this`relaunched, this`restartCount
      ensures |running| == WORKLOAD_COUNT && Known(childProcesses)
      ensures restartCount == |relaunched| && (old(stopRequested) ==> stopRequested)
      ensures old(relaunched) <= relaunched <= old(relaunched) + Missing(old(running), WORKLOAD_COUNT)
      ensures !stopRequested ==> relaunched == old(relaunched) + Missing(old(running), WORKLOAD_COUNT)
      ensures old(childProcesses) <= childProcesses
      ensures Agreement(old(childProcesses), old(running)) ==> Agreement(childProcesses, running)
    {
      ghost var agreed := Agreement(childProcesses, running);
      ghost var flags := running;
      var index := 0;
      while index < WORKLOAD_COUNT
        invariant index <= WORKLOAD_COUNT == |running| && Known(childProcesses)
        invariant restartCount == |relaunched| && relaunched == old(relaunched) + Missing(flags, index)
        invariant old(childProcesses) <= childProcesses && (old(stopRequested) ==> stopRequested)
        invariant forall w :: index <= w < WORKLOAD_COUNT ==> running[w] == flags[w]
        invariant agreed ==> Agreement(childProcesses, running)
      {
        var stop := ObserveStop();
        if stop {
          MissingGrows(flags, index, WORKLOAD_COUNT);
          return;
        }
        if !running[index] {
          ghost var table, before := childProcesses, running;
          restartCount := restartCount + 1;
          var started := LaunchWorkload(index, true);
          if agreed {
            OneMissing(table, before, index);
            RelaunchKeeps(table, before, childProcesses, running, index, [], started);
          }
        }
        index := index + 1;
      }
    }

    /** The history is the newest samples, and a sample shows the flags of its moment. */
    method AppendMetricSample(elapsed: int)
      requires metricHistory == Newest(samples)
      modifies this`metricHistory, this`samples
      ensures samples == old(samples) + [Sample(elapsed, running)] && metricHistory == Newest(samples)
    {
      var sample := Sample(elapsed, running);
      ghost var gone := |samples| - |metricHistory|;
      samples := samples + [sample];
      metricHistory := metricHistory + [sample];
      assert metricHistory == samples[gone..];
      while |metricHistory| > K_METRIC_POINT_COUNT
        invariant samples == old(samples) + [sample]
        invariant 0 <= gone <= |samples| && metricHistory == samples[gone..]
        invariant gone == 0 || |metricHistory| >= K_METRIC_POINT_COUNT
      {
        metricHistory := metricHistory[1..];
        gone := gone + 1;
      }
    }

    /** What every loop head of a cycle keeps; agreement only if the cycle began with an empty table. */
    ghost predicate Supervised(emptyAtStart: bool)
      reads this
    {
      && |running| == WORKLOAD_COUNT && Known(childProcesses) && restartCount == |relaunched|
      && metricHistory == Newest(samples)
      && (emptyAtStart ==> Agreement(childProcesses, running))
    }

    /**
     Reap, and bring back what is gone unless the cycle or the service is at its end: each workload that was
     reaped is relaunched once, or if none was, each one that is missing. `left` is the table in between.
     */
    method Maintain(inCycle: bool) returns (ghost exited: seq<nat>, ghost left: seq<Child>)
      requires |running| == WORKLOAD_COUNT && Known(childProcesses) && restartCount == |relaunched|
      modifies this`stopRequested, this`childProcesses, this`running, this`relaunched, this`restartCount
      ensures |running| == WORKLOAD_COUNT && Known(childProcesses) && restartCount == |relaunched|
      ensures forall w :: Entries(old(childProcesses), w) == Entries(left, w) + Times(exited, w)
      ensures left <= childProcesses && old(relaunched) <= relaunched
      ensures inCycle && !stopRequested ==>
                relaunched == old(relaunched) + if exited != [] then exited else Missing(old(running), WORKLOAD_COUNT)
      ensures !inCycle || old(stopRequested) ==> relaunched == old(relaunched)
      ensures old(stopRequested) ==> stopRequested
      ensures Agreement(old(childProcesses), old(running)) ==> Agreement(childProcesses, running)
    {
      var gone := ReapChildren();
      exited, left := gone, childProcesses;
      var stop := ObserveStop();
      if !stop && inCycle {
        RestartExited(gone);
        if gone == [] {
          RetryMissing();
        }
      }
    }

    /** One turn of the inner loop. */
    method Turn(elapsed: int, sampleDue: bool, ghost emptyAtStart: bool)
      returns (ghost exited: seq<nat>, ghost left: seq<Child>)
      requires Supervised(emptyAtStart)
      modifies this
      ensures Supervised(emptyAtStart)
      ensures forall w :: Entries(old(childProcesses), w) == Entries(left, w) + Times(exited, w)
      ensures left <= childProcesses && old(relaunched) <= relaunched
      ensures elapsed < K_CYCLE_SECONDS && !stopRequested ==>
                relaunched == old(relaunched) + if exited != [] then exited else Missing(old(running), WORKLOAD_COUNT)
      ensures elapsed >= K_CYCLE_SECONDS || old(stopRequested) ==> relaunched == old(relaunched)
      ensures 0 <= elapsedSeconds <= K_CYCLE_SECONDS && cycle == old(cycle)
      ensures old(stopRequested) ==> stopRequested
      ensures samples == old(samples) + if sampleDue then [Sample(elapsed, running)] else []
    {
      elapsedSeconds := if elapsed < 0 then 0 else if elapsed > K_CYCLE_SECONDS then K_CYCLE_SECONDS else elapsed;
      exited, left := Maintain(elapsed < K_CYCLE_SECONDS);
      if sampleDue {
        AppendMetricSample(elapsed);
      }
    }

    method WaitChildren()
      requires |running| == WORKLOAD_COUNT && Known(childProcesses)
      modifies this`childProcesses, this`running
      ensures |running| == WORKLOAD_COUNT && Known(childProcesses)
      ensures Agreement(old(childProcesses), old(running)) ==> Agreement(childProcesses, running)
    {
      ghost var agreed := Agreement(childProcesses, running);
      var patience: int := *;
      while true
        invariant |running| == WORKLOAD_COUNT && Known(childProcesses)
        invariant agreed ==> Agreement(childProcesses, running)
        decreases patience
      {
        var _ := ReapChildren();
        if childProcesses == [] || patience <= 0 {
          return;
        }
        patience := patience - 1;
      }
    }

    /**
     A cycle from launch to the last reap. Flags and table agree once the workloads are launched exactly if
     the cycle started with an empty table, and then at every loop head and at the end. `heads` lists the
     table and the flags at the loop heads.
     */
    method RunCycle() returns (ghost heads: seq<(seq<Child>, seq<bool>)>)
      requires |running| == WORKLOAD_COUNT && Known(childProcesses) && restartCount == |relaunched|
      requires metricHistory == Newest(samples)
      modifies this
      ensures Supervised(old(childProcesses) == []) && old(relaunched) <= relaunched
      ensures cycle == old(cycle) + 1 && (old(stopRequested) ==> stopRequested)
      ensures heads != [] && (Agreement(heads[0].0, heads[0].1) <==> old(childProcesses) == [])
      ensures old(childProcesses) == [] ==> forall i :: 0 <= i < |heads| ==> Agreement(heads[i].0, heads[i].1)
    {
      ghost var emptyAtStart := childProcesses == [];
      cycle := cycle + 1;
      elapsedSeconds, inGap, running := 0, false, [false, false, false];
      var _ := LaunchWorkloads();
      heads := [(childProcesses, running)];
      var turns: int := *;
      while turns > 0
        invariant Supervised(emptyAtStart) && old(relaunched) <= relaunched && cycle == old(cycle) + 1
        invariant old(stopRequested) ==> stopRequested
        invariant heads != [] && heads[|heads| - 1] == (childProcesses, running)
        invariant Agreement(heads[0].0, heads[0].1) <==> emptyAtStart
        invariant emptyAtStart ==> forall i :: 0 <= i < |heads| ==> Agreement(heads[i].0, heads[i].1)
      {
        var stop := ObserveStop();
        if stop {
          break;
        }
        var elapsed: int, sampleDue: bool := *, *;
        var _, _ := Turn(elapsed, sampleDue, emptyAtStart);
        heads := heads + [(childProcesses, running)];
        if elapsed >= K_CYCLE_SECONDS {
          break;
        }
        turns := turns - 1;
      }
      WaitChildren();
      WaitChildren();
    }

    /** Cycles until a stop; a child that would not die leaves the next cycle without the guarantee. */
    method WorkerLoop()
      requires |running| == WORKLOAD_COUNT && Known(childProcesses) && restartCount == |relaunched|
      requires metricHistory == Newest(samples)
      modifies this
      ensures restartCount == |relaunched| && metricHistory == Newest(samples)
    {
      var cycles: int := *;
      while cycles > 0
        invariant Supervised(false)
      {
        var stop := ObserveStop();
        if stop {
          break;
        }
        var _ := RunCycle();
        if stopRequested {
          break;
        }
        inGap, elapsedSeconds := true, K_CYCLE_SECONDS;
        cycles := cycles - 1;
      }
      WaitChildren();
    }
  }

  lemma RelaunchKeeps(table: seq<Child>, flags: seq<bool>, table': seq<Child>, flags': seq<bool>,
                      w: nat, exited: seq<nat>, started: bool)
    requires w < WORKLOAD_COUNT && Restartable(table, flags, [w] + exited)
    requires started ==> flags' == flags[w := true] && exists pid :: table' == table + [Child(pid, w)]
    requires !started ==> table' == table && (flags' == flags[w := false] || flags' == flags)
    ensures Restartable(table', flags', exited)
  {
    var all := [w] + exited;
    assert all[0] == w && all[1..] == exited;
    assert forall i :: 0 <= i < |exited| ==> exited[i] == all[i + 1];
    forall v | 0 <= v < WORKLOAD_COUNT
      ensures Times(all, v) == Times(exited, v) + if v == w then 1 else 0
      ensures started ==> Entries(table', v) == Entries(table, v) + if v == w then 1 else 0
    {
      if started {
        EntriesSnoc(table, table'[|table|], v);
      }
    }
  }

  lemma EraseKeeps(table: seq<Child>, flags: seq<bool>, exited: seq<nat>, i: nat)
    requires Restartable(table, flags, exited) && i < |table|
    ensures Restartable(table[..i] + table[i + 1..], flags[table[i].workload := false], exited + [table[i].workload])
  {
    var w := table[i].workload;
    forall v | 0 <= v < WORKLOAD_COUNT
      ensures Entries(table, v) == Entries(table[..i] + table[i + 1..], v) + if v == w then 1 else 0
      ensures Times(exited + [w], v) == Times(exited, v) + if v == w then 1 else 0
    {
      EntriesErase(table, i, v);
      TimesSnoc(exited, w, v);
    }
  }

  /** The workloads not flagged as running, among the first n. */
  function Missing(running: seq<bool>, n: nat): seq<nat>
    requires n <= |running|
    decreases n
  {
    if n == 0 then [] else Missing(running, n - 1) + if running[n - 1] then [] else [n - 1]
  }

  lemma {:induction false} MissingGrows(running: seq<bool>, n: nat, m: nat)
    requires n <= m <= |running|
    ensures Missing(running, n) <= Missing(running, m)
    decreases m
  {
    if n < m {
      MissingGrows(running, n, m - 1);
    }
  }

  /** An entry that is erased is one more exit. */
  lemma Moved(table: seq<Child>, exited: seq<nat>, i: nat)
    requires i < |table|
    ensures forall w ::
              Entries(table[..i] + table[i + 1..], w) + Times(exited + [table[i].workload], w)
              == Entries(table, w) + Times(exited, w)
  {
    forall w: nat
      ensures Entries(table[..i] + table[i + 1..], w) + Times(exited + [table[i].workload], w)
              == Entries(table, w) + Times(exited, w)
    {
      EntriesErase(table, i, w);
      TimesSnoc(exited, table[i].workload, w);
    }
  }

  lemma OneMissing(table: seq<Child>, flags: seq<bool>, w: nat)
    requires Agreement(table, flags) && w < WORKLOAD_COUNT && !flags[w]
    ensures Restartable(table, flags, [w] + [])
  {
    assert [w] + [] == [w] && [w][1..] == [];
  }
}
