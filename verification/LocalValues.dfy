/** What a thread's own array of values holds: only what it successfully set, and nothing at an index it freed. */
module LocalValues {
  import opened Bytes
  import opened LocalSlots
  import opened LocalInvariant
  import opened LocalSteps
  import opened LocalCalls

  /** Past clearing its value, a freeing thread. */
  predicate PastClearing(pc: Pc, x: nat) {
    (pc.FreeClear? || pc.FreeNotify? || pc.FreePublish?) && pc.index == x
  }

  ghost predicate StoredAt(log: seq<Entry>, j: nat, th: Thread, x: nat)
    requires x < |th.values|
  {
    && (!Storing(th.pc, x) && th.values[x].value != NULL ==> th.values[x].value == Held(log, j, x, th.values[x].generation))
    && (PastClearing(th.pc, x) ==> th.values[x] == LocalValue(NULL, 0))
  }

  ghost predicate StoredOk(s: State) {
    forall j: nat, x: nat :: j < |s.threads| && x < |s.threads[j].values| ==> StoredAt(s.log, j, s.threads[j], x)
  }

  lemma HeldWithout(log: seq<Entry>, e: Entry, j: nat, th: Thread, x: nat)
    requires x < |th.values| && StoredAt(log, j, th, x) && (e.DidSet? ==> e.thread != j)
    ensures StoredAt(log + [e], j, th, x)
  {
    hide Held;
    Appended(log, e);
  }

  /** A step of another thread. */
  lemma OthersKeepStored(s: State, i: nat, j: nat, x: nat)
    requires WellShaped(s) && i < |s.threads| && j < |s.threads| && i != j && x < SLOT_COUNT && StoredAt(s.log, j, s.threads[j], x)
    ensures StoredAt(Next(s, i).log, j, s.threads[j], x)
  {
    hide StoredAt;
    LogsOwn(s, i);
    var after := Next(s, i).log;
    if |after| > |s.log| {
      assert after == s.log + [after[|s.log|]];
      HeldWithout(s.log, after[|s.log|], j, s.threads[j], x);
    }
  }

  lemma LogsOwn(s: State, i: nat)
    requires WellShaped(s) && i < |s.threads|
    ensures var after := Next(s, i).log;
            after == s.log || (|after| == |s.log| + 1 && after == s.log + [after[|s.log|]] && after[|s.log|].thread == i)
  {
  }

  /** A step that stores nothing and frees nothing at the index. */
  lemma StaysStored(s: State, i: nat, x: nat)
    requires WellShaped(s) && i < |s.threads| && x < SLOT_COUNT && StoredAt(s.log, i, s.threads[i], x)
    requires !s.threads[i].pc.FreeCallback? && !s.threads[i].pc.ReadAfter? && !s.threads[i].pc.Claim? && !s.threads[i].pc.Confirm?
    ensures |Next(s, i).threads| == |s.threads| && x < |Next(s, i).threads[i].values|
    ensures StoredAt(Next(s, i).log, i, Next(s, i).threads[i], x)
  {
    hide Held;
    LogsOwn(s, i);
    var after := Next(s, i).log;
    if |after| > |s.log| {
      Appended(s.log, after[|s.log|]);
    }
  }

  lemma FreeClears(s: State, i: nat, x: nat)
    requires WellShaped(s) && i < |s.threads| && x < SLOT_COUNT && StoredAt(s.log, i, s.threads[i], x) && s.threads[i].pc.FreeCallback?
    ensures |Next(s, i).threads| == |s.threads| && x < |Next(s, i).threads[i].values|
    ensures StoredAt(Next(s, i).log, i, Next(s, i).threads[i], x)
  {
    hide Held;
  }

  lemma AccessStores(s: State, i: nat, x: nat)
    requires WellShaped(s) && i < |s.threads| && x < SLOT_COUNT && StoredAt(s.log, i, s.threads[i], x)
    requires s.threads[i].pc.ReadAfter?
    ensures |Next(s, i).threads| == |s.threads| && x < |Next(s, i).threads[i].values|
    ensures StoredAt(Next(s, i).log, i, Next(s, i).threads[i], x)
  {
    hide Held;
  }

  /** The final check: a set that passes it says so in the log, one that does not takes its value back. */
  lemma CheckStores(s: State, i: nat, x: nat)
    requires WellShaped(s) && i < |s.threads| && x < SLOT_COUNT && StoredAt(s.log, i, s.threads[i], x)
    requires PcOk(s, i, s.threads[i]) && (s.threads[i].pc.Claim? || s.threads[i].pc.Confirm?)
    ensures |Next(s, i).threads| == |s.threads| && x < |Next(s, i).threads[i].values|
    ensures StoredAt(Next(s, i).log, i, Next(s, i).threads[i], x)
  {
    hide Held, SetsUpTo;
    LogsOwn(s, i);
    var after := Next(s, i).log;
    if |after| > |s.log| {
      Appended(s.log, after[|s.log|]);
    }
  }

  lemma NextKeepsStored(s: State, i: nat)
    requires Inv(s) && StoredOk(s) && i < |s.threads|
    ensures StoredOk(Next(s, i))
  {
    hide Next, StoredAt, PcOk, ValueOk, SeenOk, HoldersOk, SlotOk, Orderly;
    var t := Next(s, i);
    NextKeepsCount(s, i);
    assert ThreadOk(s, i);
    forall j: nat, x: nat | j < |t.threads| && x < |t.threads[j].values|
      ensures StoredAt(t.log, j, t.threads[j], x)
    {
      if j != i {
        OthersUntouched(s, i, j);
        OthersKeepStored(s, i, j, x);
      } else {
        ValuesStay(s, i);
        if s.threads[i].pc.FreeCallback? {
          FreeClears(s, i, x);
        } else if s.threads[i].pc.ReadAfter? {
          AccessStores(s, i, x);
        } else if s.threads[i].pc.Claim? || s.threads[i].pc.Confirm? {
          CheckStores(s, i, x);
        } else {
          StaysStored(s, i, x);
        }
      }
    }
  }

  lemma ValuesStay(s: State, i: nat)
    requires WellShaped(s) && i < |s.threads|
    ensures |Next(s, i).threads| == |s.threads| && |Next(s, i).threads[i].values| == SLOT_COUNT
  {
  }

  lemma StartKeepsStored(s: State, i: nat, call: Call)
    requires WellShaped(s) && StoredOk(s) && i < |s.threads| && s.threads[i].pc.Idle?
    ensures StoredOk(Start(s, i, call))
  {
    hide Held;
    var t := Start(s, i, call);
    forall j: nat, x: nat | j < |t.threads| && x < |t.threads[j].values|
      ensures StoredAt(t.log, j, t.threads[j], x)
    {
      assert StoredAt(s.log, j, s.threads[j], x);
      if t.log != s.log {
        HeldWithout(s.log, Refused(i, call.index, {None}), j, s.threads[j], x);
      }
    }
  }

  lemma WatchKeepsStored(s: State)
    requires StoredOk(s)
    ensures StoredOk(Observe(s))
  {
    hide Held, Live;
    var t := Observe(s);
    forall j: nat, x: nat | j < |t.threads| && x < |t.threads[j].values|
      ensures StoredAt(t.log, j, t.threads[j], x)
    {
      assert StoredAt(s.log, j, s.threads[j], x);
    }
  }

  lemma {:induction false} RunKeepsStored(run: seq<State>, events: seq<Event>, k: nat)
    requires IsRun(run, events) && k < |run|
    ensures StoredOk(run[k])
  {
    hide Inv, Next, Start, Initial, StoredOk, Observe;
    if k == 0 {
      StoredAtFirst(run[0]);
    } else {
      var s, e := run[k - 1], events[k - 1];
      RunKeepsStored(run, events, k - 1);
      RunKeepsInv(run, events, k - 1);
      assert Enabled(s, e) && run[k] == Apply(s, e);
      if e.Proceed? {
        NextKeepsStored(s, e.thread);
        WatchKeepsStored(Next(s, e.thread));
      } else {
        StartKeepsStored(s, e.thread, e.call);
        WatchKeepsStored(Start(s, e.thread, e.call));
      }
    }
  }

  lemma StoredAtFirst(s: State)
    requires exists threads: nat :: s == Initial(threads)
    ensures StoredOk(s)
  {
  }

  /**
   * Between its calls a thread's array holds at an index only what the thread last set
   * there under the value's generation: a refused set has left nothing behind.
   */
  lemma StoredWasSet(run: seq<State>, events: seq<Event>, k: nat, i: nat, x: nat)
    requires IsRun(run, events) && k < |run| && i < |run[k].threads| && run[k].threads[i].pc.Idle? && x < |run[k].threads[i].values|
    ensures var v := run[k].threads[i].values[x];
            v.value != NULL ==> v.value == Held(run[k].log, i, x, v.generation)
  {
    hide IsRun, Held;
    RunKeepsStored(run, events, k);
    assert StoredAt(run[k].log, i, run[k].threads[i], x);
  }

  /** A free gives the index up only once the freeing thread's own value there is gone. */
  lemma FreeEmptiesItsValue(run: seq<State>, events: seq<Event>, k: nat, i: nat)
    requires IsRun(run, events) && k < |run| && i < |run[k].threads| && run[k].threads[i].pc.FreePublish?
    requires run[k].threads[i].pc.index < |run[k].threads[i].values|
    ensures run[k].threads[i].values[run[k].threads[i].pc.index] == LocalValue(NULL, 0)
  {
    hide IsRun, Held;
    RunKeepsStored(run, events, k);
    assert StoredAt(run[k].log, i, run[k].threads[i], run[k].threads[i].pc.index);
  }
}
