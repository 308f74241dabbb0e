/** Between a successful clone preparation and its completion the table stands still. */
module HandleFreeze {
  import opened Bytes
  import opened HandleTable
  import opened HandleInvariant
  import opened HandleRuns

  /** Outside every operation, or waiting for the lock. */
  predicate Waiting(pc: Pc) {
    pc.Idle? || pc.InsertWait? || pc.AcquireWait? || pc.CloseWait? || pc.PrepareWait?
  }

  ghost predicate StandsStill(s: State, i: nat) {
    && i < |s.threads| && s.threads[i] == Frozen
    && s.locked && !s.closing && !s.tableFreed && !s.destroying
    && s.leases == multiset{}
    && forall j :: 0 <= j < |s.threads| && j != i ==> Waiting(s.threads[j])
  }

  lemma FrozenStandsStill(s: State, i: nat)
    requires Inv(s) && i < |s.threads| && s.threads[i] == Frozen
    ensures StandsStill(s, i)
  {
    hide RefsOk, LifeOk, SlotsOk, IssuedOk, Sum, SlotCount, References;
    assert Checked(s, s.threads[i]) && Phased(s, s.threads[i]);
    SumCovers(s.threads, i, Locks);
    forall j | 0 <= j < |s.threads| && j != i
      ensures Waiting(s.threads[j])
    {
      OnlyHolder(s, i, j);
      SumCovers(s.threads, j, Acts);
      assert Phased(s, s.threads[j]);
    }
  }

  lemma StillStep(s: State, i: nat, e: Event)
    requires StandsStill(s, i) && Enabled(s, e) && e != Begin(i, CompleteClone)
    ensures Apply(s, e) == s.(threads := Apply(s, e).threads)
    ensures |Apply(s, e).threads| == |s.threads| && Apply(s, e).threads[i] == Frozen
  {
    if e.thread == i {
      assert e.Proceed?;
    } else {
      assert Waiting(s.threads[e.thread]);
      assert !OffTable(s.threads[i]);
    }
  }

  /** No lease exists, no destructor runs, and only waiting threads move while a thread holds the freeze. */
  lemma {:induction false} NothingMovesWhileFrozen(run: seq<State>, events: seq<Event>, i: nat, a: nat, b: nat)
    requires IsRun(run, events) && a <= b < |run|
    requires i < |run[a].threads| && run[a].threads[i] == Frozen
    requires forall k :: a <= k < b ==> events[k] != Begin(i, CompleteClone)
    ensures run[b] == run[a].(threads := run[b].threads)
    ensures StandsStill(run[b], i)
  {
    hide Inv, Apply, Enabled, Initial, StandsStill;
    if a == b {
      RunKeepsInv(run, events, a);
      FrozenStandsStill(run[a], i);
    } else {
      NothingMovesWhileFrozen(run, events, i, a, b - 1);
      StillStep(run[b - 1], i, events[b - 1]);
      RunKeepsInv(run, events, b);
      StillThread(run[b - 1], i);
      FrozenStandsStill(run[b], i);
    }
  }

  lemma StillThread(s: State, i: nat)
    requires StandsStill(s, i)
    ensures i < |s.threads|
  {
  }
}
