/** What the handle table guarantees over every run, for any number of threads and any interleaving. */
module HandleRuns {
  import opened Bytes
  import opened HandleTokens
  import opened HandleTable
  import opened HandleInvariant
  import opened HandleSteps

  lemma LockingSteps(s: State, i: nat)
    requires Inv(s) && i < |s.threads|
    requires var pc := s.threads[i]; pc.InsertWait? || pc.AcquireWait? || pc.CloseWait? || pc.DestroyWait? || pc.PrepareWait?
    ensures Inv(Next(s, i))
  {
    hide LockOk, DestroyOk, RefsOk, TrackerOk, LifeOk, IssuedOk;
    assert Phased(s, s.threads[i]);
    match s.threads[i]
    case InsertWait(kind, item) => TakeLockSteps(s, i, InsertScan(kind, item));
    case AcquireWait(place, kind) => TakeLockSteps(s, i, AcquireCheck(place, kind));
    case CloseWait(place, kind) => TakeLockSteps(s, i, CloseCheck(place, kind));
    case DestroyWait => TakeLockSteps(s, i, DestroyTake);
    case PrepareWait => TakeLockSteps(s, i, PrepareCheck);
  }

  lemma NextKeepsInv(s: State, i: nat)
    requires Inv(s) && i < |s.threads|
    ensures Inv(Next(s, i))
  {
    hide LockOk, DestroyOk, RefsOk, TrackerOk, LifeOk, IssuedOk, ChecksOk, Next;
    match s.threads[i]
    case Idle => NothingNext(s, i);
    case Frozen => NothingNext(s, i);
    case InsertScan(kind, item) => InsertScanSteps(s, i, kind, item);
    case InsertRetain(kind, item, slot) => InsertRetainSteps(s, i, kind, item, slot);
    case InsertPublish(kind, item, slot) => InsertPublishSteps(s, i, kind, item, slot);
    case AcquireCheck(place, kind) => AcquireCheckSteps(s, i, place, kind);
    case AcquireBegin(r, slot) => AcquireBeginSteps(s, i, r, slot);
    case AcquireAdd(r, slot) => AcquireAddSteps(s, i, r, slot);
    case AcquireRef(r, slot) => AcquireRefSteps(s, i, r, slot);
    case CloseCheck(place, kind) => CloseCheckSteps(s, i, place, kind);
    case CloseAdd(r, slot) => CloseAddSteps(s, i, r, slot);
    case CloseInvalidate(r, slot) => CloseInvalidateSteps(s, i, r, slot);
    case DestroyTake => DestroyTakeSteps(s, i);
    case PrepareCheck => PrepareCheckSteps(s, i);
    case Unlocking(after) => UnlockSteps(s, i, after);
    case Dropping(r, cont) =>
      DropSteps(s, i, r, cont);
      if s.records[r].refs == 1 {
        LastDropSteps(s, i, r, cont);
      }
    case Destructing(r, cont) => DestructingSteps(s, i, r, cont);
    case ReleasingTracker(cont) => ReleasingTrackerSteps(s, i, cont);
    case EndingActivity => EndingActivitySteps(s, i);
    case FreeingTable => FreeingTableSteps(s, i);
    case FinalRelease => FinalReleaseSteps(s, i);
    case _ => LockingSteps(s, i);
  }

  lemma NothingNext(s: State, i: nat)
    requires i < |s.threads| && |s.slots| == CAPACITY && (s.threads[i].Idle? || s.threads[i].Frozen?)
    ensures Next(s, i) == s
  {
  }

  lemma StartKeepsInv(s: State, i: nat, call: Call)
    requires Inv(s) && i < |s.threads| && MayCall(s, i, call)
    ensures Inv(Start(s, i, call))
  {
    hide LockOk, DestroyOk, RefsOk, TrackerOk, LifeOk, IssuedOk;
    assert Phased(s, s.threads[i]);
    match call
    case Insert(kind, item) => MoveOnly(s, i, InsertWait(kind, item));
    case Acquire(handle, kind) =>
      if Decode(handle).Some? {
        MoveOnly(s, i, AcquireWait(Decode(handle).value, kind));
      }
    case Close(handle, kind) =>
      if Decode(handle).Some? {
        MoveOnly(s, i, CloseWait(Decode(handle).value, kind));
      }
    case ReleaseLease(r) => ReleaseStarts(s, i, r);
    case DestroyTable => DestroyStarts(s, i);
    case PrepareClone => MoveOnly(s, i, PrepareWait);
    case CompleteClone => MoveOnly(s, i, Unlocking(Return(Success)));
  }

  lemma StepKeepsInv(s: State, e: Event)
    requires Inv(s) && Enabled(s, e)
    ensures Inv(Apply(s, e))
  {
    match e
    case Proceed(i) => NextKeepsInv(s, i);
    case Begin(i, call) => StartKeepsInv(s, i, call);
  }

  lemma {:induction false} RunKeepsInv(run: seq<State>, events: seq<Event>, k: nat)
    requires IsRun(run, events) && k < |run|
    ensures Inv(run[k])
  {
    hide Inv, Apply, Enabled, Initial;
    if k == 0 {
      var threads: nat :| run[0] == Initial(threads);
      InitialInv(threads);
    } else {
      RunKeepsInv(run, events, k - 1);
      StepKeepsInv(run[k - 1], events[k - 1]);
    }
  }

  /** No abort and no use of freed memory is reachable. */
  lemma NeverFaults(run: seq<State>, events: seq<Event>, k: nat)
    requires IsRun(run, events) && k < |run|
    ensures !run[k].faulted
  {
    RunKeepsInv(run, events, k);
  }
}
