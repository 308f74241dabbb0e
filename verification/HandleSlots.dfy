/** Which steps write the slots of the table: all others leave slots, issued handles and the destruction mark alone. */
module HandleSlots {
  import opened HandleTable
  import opened HandleTokens

  predicate WritesSlots(pc: Pc) {
    pc.InsertPublish? || pc.CloseInvalidate? || pc.DestroyTake?
  }

  predicate SameSlots(s: State, t: State) {
    s.slots == t.slots && s.destroying == t.destroying && s.issued == t.issued
  }

  predicate Marks(s: State, destroying: bool) {
    s.destroying == destroying
  }

  predicate Same<T(==)>(a: T, b: T) {
    a == b
  }

  lemma AtKeeps(s: State, i: nat)
    requires i < |s.threads|
    ensures forall u: State, pc: Pc :: u.threads == s.threads && u.slots == s.slots ==> Same(s.slots, At(u, i, pc).slots)
    ensures Same(s.slots, Fault(s).slots) && Same(s.slots, s.slots)
    ensures forall u: State, pc: Pc :: u.threads == s.threads && u.issued == s.issued ==> Same(s.issued, At(u, i, pc).issued)
    ensures Same(s.issued, Fault(s).issued) && Same(s.issued, s.issued)
    ensures forall u: State, pc: Pc :: u.threads == s.threads && u.destroying == s.destroying ==> Marks(s, At(u, i, pc).destroying)
    ensures Marks(s, Fault(s).destroying) && Marks(s, s.destroying)
  {
  }

  /** Past the lock-holding part of an operation. */
  predicate Leaving(pc: Pc) {
    pc.Unlocking? || pc.Dropping? || pc.Destructing? || pc.ReleasingTracker? || pc.EndingActivity? || pc.FreeingTable? || pc.FinalRelease?
  }

  lemma WorkKeeps(s: State, i: nat)
    requires i < |s.threads| && |s.slots| == CAPACITY && !WritesSlots(s.threads[i]) && !Leaving(s.threads[i])
    ensures var t := Next(s, i); Same(s.slots, t.slots) && Same(s.issued, t.issued) && Marks(s, t.destroying)
  {
    hide At, Fault, Same, Marks, References, Activities, FindEmpty, Unlock, DropRecord, TrackerDrop;
    AtKeeps(s, i);
  }

  lemma LeavingKeeps(s: State, i: nat)
    requires i < |s.threads| && |s.slots| == CAPACITY && Leaving(s.threads[i])
    ensures var t := Next(s, i); Same(s.slots, t.slots) && Same(s.issued, t.issued) && Marks(s, t.destroying)
  {
    hide At, Fault, Same, Marks, References, Activities, Continue, TakeLock, TrackerAdd;
    AtKeeps(s, i);
  }

  lemma OthersKeepSlots(s: State, i: nat)
    requires i < |s.threads| && |s.slots| == CAPACITY && !WritesSlots(s.threads[i])
    ensures SameSlots(s, Next(s, i))
  {
    hide Next;
    if Leaving(s.threads[i]) {
      LeavingKeeps(s, i);
    } else {
      WorkKeeps(s, i);
    }
  }

  lemma StartsKeepSlots(s: State, i: nat, call: Call)
    requires i < |s.threads| && MayCall(s, i, call)
    ensures SameSlots(s, Start(s, i, call))
  {
  }
}
