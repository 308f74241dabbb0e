/** The slot interface is linearizable: each call takes effect at one instant between its beginning and its return. */
module LocalLinear {
  import opened Bytes
  import opened LocalSlots
  import opened LocalInvariant
  import opened LocalSteps
  import opened LocalCalls
  import opened LocalGuarantees

  // The sequential interface

  /**
   * What a call may do after a sequential history. Only an allocation that finds no
   * index looks at anything else: the indexes that calls under way hold, being given
   * out or taken back.
   */
  ghost predicate Allowed(log: seq<Entry>, e: Entry, held: set<nat>) {
    match e
    case DidAlloc(_, x, g, _) =>
      !Owned(log, x) && Latest(log, x).generation < g && forall t: nat :: Held(log, t, x, g) == NULL
    case DidFree(_, x, g) => Owned(log, x) && Latest(log, x).generation == g
    case DidNotify(t, x, g, callback, v) =>
      !Owned(log, x) && Latest(log, x) == Allocation(g, callback) && callback != 0 && v != NULL && v == Held(log, t, x, g)
    case DidSet(_, x, g, _, _) => Owned(log, x) && Latest(log, x).generation == g
    case DidGet(t, x, g, v, _) => Owned(log, x) && Latest(log, x).generation == g && v == Held(log, t, x, g)
    case Refused(_, x, _) => x >= SLOT_COUNT || !Owned(log, x)
    case OutOfIndexes(_) => forall x: nat :: x < SLOT_COUNT ==> Owned(log, x) || x in held
  }

  // The order of the instants

  /**
   * An entry, the instant it takes effect at, the event that logged it and the indexes
   * held at that instant. Instant 2 k is in state k of the run, instant 2 k + 1 at
   * event k, between states k and k + 1.
   */
  datatype Timed = Timed(entry: Entry, time: nat, event: nat, held: set<nat>)

  predicate Sorted(l: seq<Timed>) {
    forall p, q :: 0 <= p < q < |l| ==> l[p].time <= l[q].time
  }

  function Entries(l: seq<Timed>): (r: seq<Entry>)
    ensures |r| == |l|
  {
    seq(|l|, p requires 0 <= p < |l| => l[p].entry)
  }

  ghost predicate Sequential(l: seq<Timed>) {
    forall k :: 0 <= k < |l| ==> Allowed(Entries(l[..k]), l[k].entry, l[k].held)
  }

  lemma EntriesAppend(a: seq<Timed>, b: seq<Timed>)
    ensures Entries(a + b) == Entries(a) + Entries(b)
  {
  }

  /** How many entries have happened by an instant. */
  function Cut(l: seq<Timed>, time: nat): (c: nat)
    ensures c <= |l|
  {
    if l == [] then 0 else if l[|l| - 1].time <= time then |l| else Cut(l[..|l| - 1], time)
  }

  predicate Splits(l: seq<Timed>, time: nat, c: nat) {
    && c <= |l| && (forall p :: 0 <= p < c ==> l[p].time <= time) && (forall p :: c <= p < |l| ==> l[p].time > time)
  }

  lemma {:induction false} CutSplits(l: seq<Timed>, time: nat)
    requires Sorted(l)
    ensures Splits(l, time, Cut(l, time))
  {
    if l != [] && l[|l| - 1].time > time {
      CutSplits(l[..|l| - 1], time);
    }
  }

  lemma SplitsAgree(l: seq<Timed>, time: nat, c: nat, d: nat)
    requires Splits(l, time, c) && Splits(l, time, d)
    ensures c <= d
  {
    if d < |l| {
      assert l[d].time > time;
    }
  }

  lemma SplitsOnce(l: seq<Timed>, time: nat, c: nat)
    requires Sorted(l) && Splits(l, time, c)
    ensures Cut(l, time) == c
  {
    CutSplits(l, time);
    SplitsAgree(l, time, c, Cut(l, time));
    SplitsAgree(l, time, Cut(l, time), c);
  }

  function By(l: seq<Timed>, time: nat): seq<Entry> {
    Entries(l[..Cut(l, time)])
  }

  function Insert(l: seq<Timed>, t: Timed): seq<Timed> {
    var p := Cut(l, t.time);
    l[..p] + [t] + l[p..]
  }

  lemma InsertSorts(l: seq<Timed>, t: Timed)
    requires Sorted(l)
    ensures Sorted(Insert(l, t))
  {
    CutSplits(l, t.time);
  }

  // Inserting an entry into a sequential history

  predicate Inert(e: Entry) {
    e.DidSet? || e.DidGet? || e.Refused? || e.OutOfIndexes?
  }

  predicate SetsAt(e: Entry, t: nat, x: nat, g: nat) {
    e.DidSet? && e.thread == t && e.index == x && e.generation == g
  }

  lemma {:induction false} InsertKeeps(a: seq<Entry>, e: Entry, b: seq<Entry>)
    requires Inert(e) && forall k :: 0 <= k < |b| ==> b[k].thread != e.thread
    ensures forall x: nat :: Owned(a + [e] + b, x) == Owned(a + b, x) && Latest(a + [e] + b, x) == Latest(a + b, x)
    ensures forall t: nat, x: nat, g: nat ::
              Held(a + [e] + b, t, x, g) == if SetsAt(e, t, x, g) then e.value else Held(a + b, t, x, g)
    ensures forall x: nat, g: nat :: Held(a + b, e.thread, x, g) == Held(a, e.thread, x, g)
  {
    if b == [] {
      assert a + b == a && a + [e] + b == a + [e];
      Appended(a, e);
    } else {
      var rest, last := b[..|b| - 1], b[|b| - 1];
      InsertKeeps(a, e, rest);
      assert a + [e] + b == (a + [e] + rest) + [last] && a + b == (a + rest) + [last];
      Appended(a + [e] + rest, last);
      Appended(a + rest, last);
    }
  }

  lemma EntriesSnoc(l: seq<Timed>, n: nat)
    requires 0 < n <= |l|
    ensures Entries(l[..n]) == Entries(l[..n - 1]) + [l[n - 1].entry]
  {
    assert l[..n] == l[..n - 1] + [l[n - 1]];
  }

  lemma {:induction false} LatestGrows(l: seq<Timed>, m: nat, n: nat, x: nat)
    requires Sequential(l) && m <= n <= |l|
    ensures Latest(Entries(l[..m]), x).generation <= Latest(Entries(l[..n]), x).generation
    decreases n
  {
    hide Owned, Held, Latest, Entries;
    if m < n {
      LatestGrows(l, m, n - 1, x);
      assert Allowed(Entries(l[..n - 1]), l[n - 1].entry, l[n - 1].held);
      EntriesSnoc(l, n);
      Appended(Entries(l[..n - 1]), l[n - 1].entry);
    }
  }

  lemma StillAllowed(a: seq<Entry>, e: Entry, b: seq<Entry>, next: Entry, held: set<nat>)
    requires Inert(e) && Allowed(a + b, next, held) && next.thread != e.thread
    requires forall k :: 0 <= k < |b| ==> b[k].thread != e.thread
    requires e.DidSet? ==> e.generation <= Latest(a + b, e.index).generation
    ensures Allowed(a + [e] + b, next, held)
  {
    hide Owned, Latest, Held;
    InsertKeeps(a, e, b);
  }

  /** A call that is allowed where it is inserted disturbs nothing after it, if what follows is other threads' work. */
  lemma InsertIsSequential(a: seq<Timed>, t: Timed, b: seq<Timed>)
    requires Sequential(a + b) && Inert(t.entry) && Allowed(Entries(a), t.entry, t.held)
    requires forall k :: 0 <= k < |b| ==> b[k].entry.thread != t.entry.thread
    ensures Sequential(a + [t] + b)
  {
    hide Allowed, Owned, Latest, Held, Entries;
    var all, before := a + [t] + b, a + b;
    forall k | 0 <= k < |all|
      ensures Allowed(Entries(all[..k]), all[k].entry, all[k].held)
    {
      if k < |a| {
        assert all[..k] == before[..k] && all[k] == before[k];
      } else if k == |a| {
        assert all[..k] == a;
      } else {
        var j := k - |a| - 1;
        assert all[..k] == a + [t] + b[..j] && before[..k - 1] == a + b[..j] && before[k - 1] == b[j];
        StillAllowedLater(a, t, b, j);
      }
    }
  }

  lemma StillAllowedLater(a: seq<Timed>, t: Timed, b: seq<Timed>, j: nat)
    requires Sequential(a + b) && Inert(t.entry) && Allowed(Entries(a), t.entry, t.held) && j < |b|
    requires forall k :: 0 <= k < |b| ==> b[k].entry.thread != t.entry.thread
    ensures Allowed(Entries(a + [t] + b[..j]), b[j].entry, b[j].held)
  {
    hide Owned, Latest, Held, Allowed;
    var before, n, rest := a + b, |a| + j, Entries(b[..j]);
    assert before[..|a|] == a && before[..n] == a + b[..j] && before[n] == b[j];
    EntriesAppend(a, b[..j]);
    EntriesAppend(a + [t], b[..j]);
    EntriesAppend(a, [t]);
    assert Entries([t]) == [t.entry];
    assert Allowed(Entries(before[..n]), before[n].entry, before[n].held);
    if t.entry.DidSet? {
      LatestGrows(before, |a|, n, t.entry.index);
      SetIsLatest(Entries(a), t.entry, t.held);
    }
    assert forall k :: 0 <= k < j ==> rest[k] == b[k].entry;
    StillAllowed(Entries(a), t.entry, rest, b[j].entry, b[j].held);
  }

  lemma SetIsLatest(a: seq<Entry>, e: Entry, held: set<nat>)
    requires Allowed(a, e, held) && e.DidSet?
    ensures Latest(a, e.index).generation == e.generation
  {
  }

  // Calls and their instants

  /**
   * The entry is the answer of one call of its thread, with the arguments of that call,
   * and the instant lies between that call's beginning and the event that logged it.
   */
  ghost predicate InItsCall(run: seq<State>, events: seq<Event>, t: Timed) {
    && LoggedAt(run, events, t.event, t.entry)
    && (exists a: nat :: AnswersCall(run, events, t.entry, a, t.event) && (t.time == 2 * t.event + 1 || CalledAt(run, events, t, a)))
    && (t.entry.OutOfIndexes? ==> t.time % 2 == 0 && t.time / 2 < |run| && t.held == HeldAt(run[t.time / 2]))
  }

  ghost predicate CalledAt(run: seq<State>, events: seq<Event>, t: Timed, a: nat) {
    Inert(t.entry) && Calls(run, events, t.entry, a, t.event) && 2 * a < t.time <= 2 * t.event
  }

  /** From event a, its beginning, up to state b, the entry's thread is inside the call that will log it. */
  ghost predicate Calls(run: seq<State>, events: seq<Event>, e: Entry, a: nat, b: nat)
    requires Inert(e)
  {
    if e.OutOfIndexes? then Scanning(run, events, e.thread, a, b) else Inside(run, events, e.thread, e.index, a, b)
  }

  predicate Waits(pc: Pc) {
    Accesses(pc) || pc.AllocScan?
  }

  /** What the two kinds of call have in common. */
  ghost predicate Within(run: seq<State>, events: seq<Event>, i: nat, a: nat, b: nat) {
    && IsRun(run, events) && a < b < |run| && events[a].Begin? && events[a].thread == i
    && forall k :: a < k <= b ==> i < |run[k].threads| && Waits(run[k].threads[i].pc)
  }

  lemma CallsWithin(run: seq<State>, events: seq<Event>, e: Entry, a: nat, b: nat)
    requires Inert(e) && Calls(run, events, e, a, b)
    ensures Within(run, events, e.thread, a, b)
  {
    hide IsRun, Accesses;
  }

  /** The indexes that calls under way hold: claimed by an allocation or a free that has not finished. */
  ghost function HeldAt(s: State): set<nat> {
    set x: nat | x < SLOT_COUNT && HeldByCall(s, x)
  }

  ghost predicate HeldByCall(s: State, x: nat) {
    exists j: nat :: j < |s.threads| && Holds(s.threads[j].pc, x)
  }

  lemma {:induction false} CallBegan(run: seq<State>, events: seq<Event>, i: nat, b: nat) returns (a: nat)
    requires IsRun(run, events) && b < |run| && i < |run[b].threads| && Accesses(run[b].threads[i].pc)
    ensures Inside(run, events, i, run[b].threads[i].pc.index, a, b)
  {
    hide Initial, Next;
    if b == 0 {
      NobodyCalls(run);
    } else {
      var s, e := run[b - 1], events[b - 1];
      assert Enabled(s, e) && run[b] == Apply(s, e);
      EntersOrStays(s, e, i);
      if Accesses(s.threads[i].pc) {
        a := CallBegan(run, events, i, b - 1);
        StepWatches(s, e, i);
      } else {
        a := b - 1;
      }
    }
  }

  lemma NobodyCalls(run: seq<State>)
    requires |run| > 0 && exists threads: nat :: run[0] == Initial(threads)
    ensures forall i: nat :: i < |run[0].threads| ==> run[0].threads[i].pc.Idle?
  {
  }

  /** A thread enters an access only at the beginning of its call. */
  lemma EntersOrStays(s: State, e: Event, i: nat)
    requires Enabled(s, e) && i < |Apply(s, e).threads| && Accesses(Apply(s, e).threads[i].pc)
    ensures i < |s.threads|
    ensures Accesses(s.threads[i].pc) ||
            (e.Begin? && e.thread == i && !e.call.Alloc? && e.call.index == Apply(s, e).threads[i].pc.index < SLOT_COUNT)
  {
    hide Live;
    if e.Proceed? {
      NextAdds(s, e.thread);
      if e.thread != i {
        OthersUntouched(s, e.thread, i);
      }
    }
  }

  /** The entry a step may add: its own thread's, and that of the call the thread was in. */
  ghost predicate Adds(s: State, i: nat, log: seq<Entry>, pc: Pc)
    requires i < |s.threads|
  {
    log == s.log ||
    (|log| == |s.log| + 1 && log == s.log + [log[|s.log|]] && !Waits(pc) &&
     var y := log[|s.log|];
     y.thread == i && (Inert(y) ==> if y.OutOfIndexes? then s.threads[i].pc.AllocScan?
                                    else Accesses(s.threads[i].pc) && y.index == s.threads[i].pc.index))
  }

  lemma NextAdds(s: State, i: nat)
    requires WellShaped(s) && i < |s.threads|
    ensures |Next(s, i).threads| == |s.threads| && Adds(s, i, Next(s, i).log, Next(s, i).threads[i].pc)
  {
  }

  /** An event adds at most one entry: a step its own thread's, a beginning only the refusal of an index out of range. */
  lemma EntryIsOwn(s: State, e: Event)
    requires Enabled(s, e)
    ensures e.thread < |Apply(s, e).threads|
    ensures var after := Apply(s, e).log;
            after == s.log ||
            (|after| == |s.log| + 1 && after == s.log + [after[|s.log|]] &&
             var y := after[|s.log|];
             && y.thread == e.thread && !Waits(Apply(s, e).threads[e.thread].pc)
             && (e.Begin? ==> y.Refused? && y.index >= SLOT_COUNT)
             && (e.Proceed? && Inert(y) ==>
                   if y.OutOfIndexes? then s.threads[e.thread].pc.AllocScan?
                   else Accesses(s.threads[e.thread].pc) && y.index == s.threads[e.thread].pc.index))
  {
    hide Live, Next;
    if e.Proceed? {
      NextAdds(s, e.thread);
    }
  }

  /** While it is inside an access a thread logs nothing. */
  lemma {:induction false} QuietInside(run: seq<State>, events: seq<Event>, i: nat, x: nat, a: nat, k: nat, b: nat)
    requires Inside(run, events, i, x, a, b) && a < k <= b
    ensures forall y: nat, g: nat :: Held(run[b].log, i, y, g) == Held(run[k].log, i, y, g)
    decreases b
  {
    hide Initial, Next, Held, Enabled, Apply, Accesses;
    if k < b {
      QuietInside(run, events, i, x, a, k, b - 1);
      var s, e := run[b - 1], events[b - 1];
      assert Enabled(s, e) && run[b] == Apply(s, e);
      EntryIsOwn(s, e);
      if run[b].log != s.log {
        Appended(s.log, run[b].log[|s.log|]);
      }
    }
  }

  lemma LoggedBefore(run: seq<State>, events: seq<Event>, i: nat, a: nat, b: nat, m: nat, y: Entry)
    requires Within(run, events, i, a, b) && LoggedAt(run, events, m, y) && m < b && y.thread == i
    ensures m < a
  {
    hide Initial, Next, Apply, Waits;
    var s, e := run[m], events[m];
    assert Enabled(s, e) && run[m + 1] == Apply(s, e);
    EntryIsOwn(s, e);
    assert (s.log + [y])[|s.log|] == y;
  }

  /** At the final check of a successful access the index is owned under its generation, and a get finds its value. */
  lemma CheckedEntry(run: seq<State>, events: seq<Event>, i: nat, x: nat, a: nat, b: nat) returns (k: nat)
    requires Inside(run, events, i, x, a, b) && Returns(run, events, i, b)
    requires var e := run[b + 1].log[|run[b].log|]; e.DidGet? || e.DidSet?
    ensures a < k < b && ChecksLive(run, events, i, x, run[b + 1].log[|run[b].log|].generation, k)
    ensures var e := run[b + 1].log[|run[b].log|];
            && e.thread == i && e.index == x
            && Owned(run[k].log, x) && Latest(run[k].log, x).generation == e.generation
            && (e.DidGet? ==> e.value == Held(run[k].log, i, x, e.generation))
  {
    hide Initial, Next, Apply, Inv, Held, Owned, Latest;
    AccessIsExact(run, events, i, x, a, b);
    var e := run[b + 1].log[|run[b].log|];
    k :| a < k < b && ChecksLive(run, events, i, x, e.generation, k);
    QuietInside(run, events, i, x, a, k, b);
    RunKeepsInv(run, events, k);
    LiveIsOwned(run[k], x);
  }

  lemma LiveIsOwned(s: State, x: nat)
    requires Inv(s) && x < SLOT_COUNT
    ensures Live(s.slots, x).Some? <==> Owned(s.log, x)
    ensures Live(s.slots, x).Some? ==> Latest(s.log, x).generation == Live(s.slots, x).value
  {
    hide HoldersOk, Orderly, ThreadOk, Latest, Owned;
    assert SlotOk(s.slots, s.log, x);
  }

  // The linear order of a run

  ghost predicate SameOwners(a: seq<Entry>, b: seq<Entry>) {
    forall x: nat :: Owned(a, x) == Owned(b, x) && Latest(a, x) == Latest(b, x)
  }

  ghost predicate SameValues(a: seq<Entry>, b: seq<Entry>) {
    forall t: nat, x: nat, g: nat :: Held(a, t, x, g) == Held(b, t, x, g)
  }

  /** An allocation that logs at event b met, at some instant of its call, every index taken. */
  ghost predicate MetFull(run: seq<State>, events: seq<Event>, i: nat, b: nat) {
    exists a: nat, k: nat :: FullAt(run, events, i, a, k, b)
  }

  ghost predicate FullAt(run: seq<State>, events: seq<Event>, i: nat, a: nat, k: nat, b: nat) {
    Scanning(run, events, i, a, b) && a < k <= b && AllTaken(run[k])
  }

  /** The log without the allocations that found no index though at every instant of their call one was free. */
  ghost function Kept(run: seq<State>, events: seq<Event>, n: nat): seq<Entry>
    requires n < |run|
  {
    if n == 0 then []
    else
      var before, m := Kept(run, events, n - 1), |run[n - 1].log|;
      if |run[n].log| <= m then before
      else if run[n].log[m].OutOfIndexes? && !MetFull(run, events, run[n].log[m].thread, n - 1) then before
      else before + [run[n].log[m]]
  }

  /** At the instant of every state the linear history has the same owners as the log had. */
  ghost predicate Tracks(run: seq<State>, n: nat, l: seq<Timed>)
    requires n < |run|
  {
    && (forall k :: 0 <= k <= n ==> SameOwners(By(l, 2 * k), run[k].log))
    && SameValues(Entries(l), run[n].log)
  }

  ghost predicate Placed(run: seq<State>, events: seq<Event>, n: nat, l: seq<Timed>) {
    forall p :: 0 <= p < |l| ==> l[p].event < n && InItsCall(run, events, l[p])
  }

  /**
   * The entries of the log so far, each at an instant of its call, in the order of
   * their instants, form a sequential history.
   */
  ghost predicate Linearizes(run: seq<State>, events: seq<Event>, n: nat, l: seq<Timed>)
    requires n < |run|
  {
    && Sorted(l) && Placed(run, events, n, l) && Sequential(l)
    && multiset(Entries(l)) == multiset(Kept(run, events, n))
  }

  lemma AllPast(run: seq<State>, events: seq<Event>, n: nat, l: seq<Timed>)
    requires Sorted(l) && Placed(run, events, n, l)
    ensures forall p :: 0 <= p < |l| ==> l[p].time < 2 * n
    ensures forall time: nat :: time >= 2 * n ==> By(l, time) == Entries(l)
  {
    forall p | 0 <= p < |l|
      ensures l[p].time < 2 * n
    {
      assert InItsCall(run, events, l[p]);
    }
    forall time: nat | time >= 2 * n
      ensures By(l, time) == Entries(l)
    {
      SplitsOnce(l, time, |l|);
      assert l[..|l|] == l;
    }
  }

  lemma KeptAdds(run: seq<State>, events: seq<Event>, n: nat, e: Entry)
    requires n + 1 < |run| && run[n + 1].log == run[n].log + [e]
    ensures Kept(run, events, n + 1) ==
            if e.OutOfIndexes? && !MetFull(run, events, e.thread, n) then Kept(run, events, n) else Kept(run, events, n) + [e]
  {
    hide MetFull;
    assert run[n + 1].log[|run[n].log|] == e;
  }

  /** An event that logs nothing, or only an allocation that found no index and never met them all taken. */
  lemma NothingAdded(run: seq<State>, events: seq<Event>, n: nat, l: seq<Timed>)
    requires n + 1 < |run| && Linearizes(run, events, n, l) && Tracks(run, n, l)
    requires run[n + 1].log == run[n].log ||
             exists i: nat :: run[n + 1].log == run[n].log + [OutOfIndexes(i)] && !MetFull(run, events, i, n)
    ensures Linearizes(run, events, n + 1, l) && Tracks(run, n + 1, l)
  {
    hide Sequential, Owned, Latest, Held, By, Sorted, InItsCall, MetFull;
    AllPast(run, events, n, l);
    if run[n + 1].log != run[n].log {
      var i: nat :| run[n + 1].log == run[n].log + [OutOfIndexes(i)] && !MetFull(run, events, i, n);
      Appended(run[n].log, OutOfIndexes(i));
      KeptAdds(run, events, n, OutOfIndexes(i));
    }
    assert SameOwners(By(l, 2 * n), run[n].log);
    assert By(l, 2 * (n + 1)) == By(l, 2 * n);
  }

  lemma AllowedBySame(a: seq<Entry>, b: seq<Entry>, e: Entry, held: set<nat>)
    requires SameOwners(a, b) && SameValues(a, b) && Fits(a, e)
    requires e.DidAlloc? || e.DidFree? || e.DidNotify? || (e.Refused? && e.index >= SLOT_COUNT)
    ensures Allowed(b, e, held)
  {
    hide Owned, Latest, Held;
  }

  lemma SequentialSnoc(l: seq<Timed>, t: Timed)
    requires Sequential(l) && Allowed(Entries(l), t.entry, t.held)
    ensures Sequential(l + [t])
  {
    hide Allowed, Entries;
    var all := l + [t];
    forall k | 0 <= k < |all|
      ensures Allowed(Entries(all[..k]), all[k].entry, all[k].held)
    {
      if k < |l| {
        assert all[..k] == l[..k];
      } else {
        assert all[..k] == l;
      }
    }
  }

  /** What happens at an event itself comes last. */
  lemma AddedAtEnd(run: seq<State>, events: seq<Event>, n: nat, l: seq<Timed>, e: Entry) returns (after: seq<Timed>)
    requires IsRun(run, events) && n + 1 < |run| && Linearizes(run, events, n, l) && Tracks(run, n, l)
    requires LoggedAt(run, events, n, e) && Fits(run[n].log, e)
    requires e.DidAlloc? || e.DidFree? || e.DidNotify? || (e.Refused? && e.index >= SLOT_COUNT)
    ensures Linearizes(run, events, n + 1, after) && Tracks(run, n + 1, after)
  {
    hide Sequential, Owned, Latest, Held, Fits, Allowed, Kept, Entries, By, InItsCall, IsRun;
    var t := Timed(e, 2 * n + 1, n, {});
    after := l + [t];
    AllPast(run, events, n, l);
    EntriesAppend(l, [t]);
    EntriesOfOne(t);
    assert SameOwners(By(l, 2 * n), run[n].log);
    AllowedBySame(run[n].log, Entries(l), e, t.held);
    SequentialSnoc(l, t);
    KeptAdds(run, events, n, e);
    Appended(run[n].log, e);
    Appended(Entries(l), e);
    forall k | 0 <= k <= n + 1
      ensures SameOwners(By(after, 2 * k), run[k].log)
    {
      TracksAtEnd(run, n, l, t, k);
    }
    ByAtEnd(l, t, 0);
    assert InItsCall(run, events, t) by { HappensAtEvent(run, events, t); }
    PlacedSnoc(run, events, n, l, t);
  }

  lemma HappensAtEvent(run: seq<State>, events: seq<Event>, t: Timed)
    requires IsRun(run, events) && LoggedAt(run, events, t.event, t.entry) && t.time == 2 * t.event + 1 && !t.entry.OutOfIndexes?
    ensures InItsCall(run, events, t)
  {
    hide IsRun, AnswersCall, CalledAt;
    var a := EntryAnswersItsCall(run, events, t.event, t.entry);
  }

  lemma TracksAtEnd(run: seq<State>, n: nat, l: seq<Timed>, t: Timed, k: nat)
    requires n + 1 < |run| && Sorted(l) && Tracks(run, n, l) && k <= n + 1
    requires t.time == 2 * n + 1 && forall p :: 0 <= p < |l| ==> l[p].time <= t.time
    requires By(l, 2 * n) == Entries(l) && run[n + 1].log == run[n].log + [t.entry]
    ensures SameOwners(By(l + [t], 2 * k), run[k].log)
  {
    hide Owned, Latest, Held, By, Entries;
    ByAtEnd(l, t, 2 * k);
    var m := if k <= n then k else n;
    assert SameOwners(By(l, 2 * m), run[m].log);
    Appended(run[n].log, t.entry);
    Appended(Entries(l), t.entry);
  }

  lemma PlacedSnoc(run: seq<State>, events: seq<Event>, n: nat, l: seq<Timed>, t: Timed)
    requires Placed(run, events, n, l) && t.event == n && InItsCall(run, events, t)
    ensures Placed(run, events, n + 1, l + [t])
  {
    hide InItsCall;
  }

  lemma ByAtEnd(l: seq<Timed>, t: Timed, time: nat)
    requires Sorted(l) && forall p :: 0 <= p < |l| ==> l[p].time <= t.time
    ensures Sorted(l + [t])
    ensures By(l + [t], time) == if time < t.time then By(l, time) else Entries(l) + [t.entry]
  {
    hide Entries, Cut;
    CutSplits(l, time);
    if time < t.time {
      SplitsOnce(l + [t], time, Cut(l, time));
      assert (l + [t])[..Cut(l, time)] == l[..Cut(l, time)];
    } else {
      SplitsOnce(l + [t], time, |l| + 1);
      assert (l + [t])[..|l| + 1] == l + [t];
      EntriesAppend(l, [t]);
      EntriesOfOne(t);
    }
  }

  lemma EntriesOfOne(t: Timed)
    ensures Entries([t]) == [t.entry]
  {
  }

  /** An insertion does not change the history before an earlier instant. */
  lemma ByBefore(l: seq<Timed>, t: Timed, time: nat)
    requires Sorted(l) && time < t.time
    ensures By(Insert(l, t), time) == By(l, time)
  {
    hide Entries, Cut;
    var c, p, after := Cut(l, time), Cut(l, t.time), Insert(l, t);
    CutSplits(l, time);
    CutSplits(l, t.time);
    InsertSorts(l, t);
    CutOrder(l, time, t.time);
    assert after[..c] == l[..c];
    InsertSplitsBefore(l, t, time);
    SplitsOnce(after, time, c);
  }

  lemma InsertSplitsBefore(l: seq<Timed>, t: Timed, time: nat)
    requires Sorted(l) && time < t.time
    ensures Splits(Insert(l, t), time, Cut(l, time))
  {
    hide Cut;
    CutOrder(l, time, t.time);
    CutSplits(l, time);
    var c, p, after := Cut(l, time), Cut(l, t.time), Insert(l, t);
    forall q | 0 <= q < |after|
      ensures q < c <==> after[q].time <= time
    {
      if q < p {
        assert after[q] == l[q];
      } else if q > p {
        assert after[q] == l[q - 1];
      }
    }
  }

  /** It adds its entry to the history before a later one. */
  lemma ByAfter(l: seq<Timed>, t: Timed, time: nat)
    requires Sorted(l) && t.time <= time
    ensures var c, p := Cut(l, time), Cut(l, t.time);
            && p <= c
            && By(Insert(l, t), time) == Entries(l[..p]) + [t.entry] + Entries(l[p..c])
            && By(l, time) == Entries(l[..p]) + Entries(l[p..c])
  {
    hide Entries, Cut;
    var c, p, after := Cut(l, time), Cut(l, t.time), Insert(l, t);
    CutOrder(l, t.time, time);
    InsertSorts(l, t);
    InsertSplits(l, t, time);
    SplitsOnce(after, time, c + 1);
    assert after[..c + 1] == l[..p] + [t] + l[p..c];
    EntriesAppend(l[..p] + [t], l[p..c]);
    EntriesAppend(l[..p], [t]);
    EntriesOfOne(t);
    EntriesAppend(l[..p], l[p..c]);
    assert l[..c] == l[..p] + l[p..c];
  }

  lemma CutOrder(l: seq<Timed>, earlier: nat, later: nat)
    requires Sorted(l) && earlier <= later
    ensures Cut(l, earlier) <= Cut(l, later)
  {
    CutSplits(l, earlier);
    CutSplits(l, later);
    var c, d := Cut(l, earlier), Cut(l, later);
    if d < |l| {
      assert l[d].time > later;
    }
  }

  lemma InsertSplits(l: seq<Timed>, t: Timed, time: nat)
    requires Sorted(l) && t.time <= time
    ensures Splits(Insert(l, t), time, Cut(l, time) + 1)
  {
    CutOrder(l, t.time, time);
    CutSplits(l, time);
    var c, p, after := Cut(l, time), Cut(l, t.time), Insert(l, t);
    forall q | 0 <= q < |after|
      ensures q < c + 1 <==> after[q].time <= time
    {
      if q < p {
        assert after[q] == l[q];
      } else if q > p {
        assert after[q] == l[q - 1];
      }
    }
  }

  /** From a position on, the entries are those of other threads. */
  ghost predicate OthersFrom(l: seq<Timed>, c: nat, i: nat) {
    forall q :: c <= q < |l| ==> l[q].entry.thread != i
  }

  /** The entries after the instant of a call are those of other threads. */
  lemma OthersFollow(run: seq<State>, events: seq<Event>, n: nat, l: seq<Timed>, i: nat, a: nat, k: nat)
    requires Sorted(l) && Placed(run, events, n, l) && Within(run, events, i, a, n) && a < k <= n
    ensures OthersFrom(l, Cut(l, 2 * k), i)
  {
    hide Within, CalledAt;
    CutSplits(l, 2 * k);
    var c := Cut(l, 2 * k);
    forall q | c <= q < |l|
      ensures l[q].entry.thread != i
    {
      assert InItsCall(run, events, l[q]) && l[q].time > 2 * k;
      InstantInCall(run, events, l[q]);
      if l[q].entry.thread == i {
        LoggedBefore(run, events, i, a, n, l[q].event, l[q].entry);
      }
    }
  }

  lemma InstantInCall(run: seq<State>, events: seq<Event>, t: Timed)
    requires InItsCall(run, events, t)
    ensures t.time <= 2 * t.event + 1
  {
  }

  /** A call takes effect at an instant inside it: between what happened before that state and what happened after. */
  lemma AddedInside(run: seq<State>, events: seq<Event>, n: nat, l: seq<Timed>, e: Entry, a: nat, k: nat) returns (after: seq<Timed>)
    requires n + 1 < |run| && Linearizes(run, events, n, l) && Tracks(run, n, l)
    requires LoggedAt(run, events, n, e) && Inert(e)
    requires Calls(run, events, e, a, n) && a < k <= n && (e.OutOfIndexes? ==> MetFull(run, events, e.thread, n))
    requires forall past: seq<Entry> :: SameOwners(past, run[k].log) && SameValuesOf(e.thread, past, run[n].log) ==>
               Allowed(past, e, HeldAt(run[k]))
    ensures Linearizes(run, events, n + 1, after) && Tracks(run, n + 1, after)
  {
    hide Sequential, Owned, Latest, Held, Allowed, Kept, Calls, Within, Cut, MetFull, HeldAt, Entries, Sorted, Placed, AnswersCall;
    var t := Timed(e, 2 * k, n, HeldAt(run[k]));
    after := Insert(l, t);
    var p := Cut(l, 2 * k);
    var past, rest := Entries(l[..p]), Entries(l[p..]);
    CallsWithin(run, events, e, a, n);
    OthersFollow(run, events, n, l, e.thread, a, k);
    InsertSorts(l, t);
    SplitEntries(l, t);
    RestIsOthers(l, p, e.thread);
    InsertKeeps(past, e, rest);
    assert SameOwners(By(l, 2 * k), run[k].log) && By(l, 2 * k) == past;
    assert SameValuesOf(e.thread, past, run[n].log);
    assert l == l[..p] + l[p..];
    InsertIsSequential(l[..p], t, l[p..]);
    assert run[n + 1].log == run[n].log + [e] by { LogAfter(run, events, n, e); }
    KeptAdds(run, events, n, e);
    Appended(run[n].log, e);
    CallAnswers(run, events, e, a, n);
    PlacedInsert(run, events, n, l, t, a);
    AllPast(run, events, n, l);
    forall j | 0 <= j <= n + 1
      ensures SameOwners(By(after, 2 * j), run[j].log)
    {
      TracksInsert(run, n, l, t, j);
    }
  }

  lemma CallAnswers(run: seq<State>, events: seq<Event>, e: Entry, a: nat, n: nat)
    requires LoggedAt(run, events, n, e) && Inert(e) && Calls(run, events, e, a, n)
    ensures AnswersCall(run, events, e, a, n)
  {
    hide IsRun, AnswersCall;
    assert InCall(run, events, e.thread, a, n);
    AnswersTheCallUnderWay(run, events, e, a, n);
  }

  lemma RestIsOthers(l: seq<Timed>, p: nat, i: nat)
    requires p <= |l| && OthersFrom(l, p, i)
    ensures forall q :: 0 <= q < |l[p..]| ==> l[p..][q].entry.thread != i
    ensures forall q :: 0 <= q < |Entries(l[p..])| ==> Entries(l[p..])[q].thread != i
  {
    assert forall q :: 0 <= q < |l[p..]| ==> l[p..][q] == l[p + q];
  }

  ghost predicate SameValuesOf(t: nat, a: seq<Entry>, b: seq<Entry>) {
    forall x: nat, g: nat :: Held(a, t, x, g) == Held(b, t, x, g)
  }

  lemma LogAfter(run: seq<State>, events: seq<Event>, n: nat, e: Entry)
    requires LoggedAt(run, events, n, e)
    ensures n + 1 < |run| && run[n + 1].log == run[n].log + [e]
  {
  }

  lemma SplitEntries(l: seq<Timed>, t: Timed)
    ensures var p := Cut(l, t.time);
            && Entries(Insert(l, t)) == Entries(l[..p]) + [t.entry] + Entries(l[p..])
            && Entries(l) == Entries(l[..p]) + Entries(l[p..])
            && multiset(Entries(Insert(l, t))) == multiset(Entries(l)) + multiset{t.entry}
  {
    var p := Cut(l, t.time);
    EntriesAppend(l[..p] + [t], l[p..]);
    EntriesAppend(l[..p], [t]);
    EntriesAppend(l[..p], l[p..]);
    assert l == l[..p] + l[p..];
    assert Entries([t]) == [t.entry];
  }

  lemma PlacedInsert(run: seq<State>, events: seq<Event>, n: nat, l: seq<Timed>, t: Timed, a: nat)
    requires Placed(run, events, n, l) && t.event == n && LoggedAt(run, events, n, t.entry) && CalledAt(run, events, t, a)
    requires AnswersCall(run, events, t.entry, a, n)
    requires t.entry.OutOfIndexes? ==> t.time % 2 == 0 && t.time / 2 < |run| && t.held == HeldAt(run[t.time / 2])
    ensures Placed(run, events, n + 1, Insert(l, t))
  {
    hide LoggedAt, CalledAt, HeldAt, AnswersCall;
    var after, p := Insert(l, t), Cut(l, t.time);
    assert InItsCall(run, events, t);
    forall q | 0 <= q < |after|
      ensures after[q].event < n + 1 && InItsCall(run, events, after[q])
    {
      if q < p {
        assert after[q] == l[q];
      } else if q > p {
        assert after[q] == l[q - 1];
      }
    }
  }

  lemma TracksInsert(run: seq<State>, n: nat, l: seq<Timed>, t: Timed, k: nat)
    requires n + 1 < |run| && Sorted(l) && Tracks(run, n, l) && run[n + 1].log == run[n].log + [t.entry] && Inert(t.entry)
    requires OthersFrom(l, Cut(l, t.time), t.entry.thread)
    requires By(l, 2 * (n + 1)) == By(l, 2 * n) && k <= n + 1
    ensures SameOwners(By(Insert(l, t), 2 * k), run[k].log)
  {
    hide Owned, Latest, Held, Cut, Insert, By;
    Appended(run[n].log, t.entry);
    var m := if k <= n then k else n;
    assert SameOwners(By(l, 2 * m), run[m].log);
    if 2 * k < t.time {
      ByBefore(l, t, 2 * k);
    } else {
      ByAfter(l, t, 2 * k);
      var c, p := Cut(l, 2 * k), Cut(l, t.time);
      var rest := Entries(l[p..c]);
      assert forall q :: 0 <= q < |rest| ==> rest[q] == l[p + q].entry;
      InsertKeeps(Entries(l[..p]), t.entry, rest);
    }
  }

  // Every run

  /** How one event of a run extends the linear order. */
  lemma EventExtends(run: seq<State>, events: seq<Event>, n: nat, l: seq<Timed>) returns (after: seq<Timed>)
    requires IsRun(run, events) && n < |events| && Linearizes(run, events, n, l) && Tracks(run, n, l)
    ensures Linearizes(run, events, n + 1, after) && Tracks(run, n + 1, after)
  {
    hide Linearizes, Tracks, Initial, Next, Start, Observe, Fits, Inv, Orderly, Inside, Accesses, Allowed, Owned, Latest, Held, MetFull;
    var s, e := run[n], events[n];
    assert Enabled(s, e) && run[n + 1] == Apply(s, e);
    EntryIsOwn(s, e);
    if run[n + 1].log == s.log {
      NothingAdded(run, events, n, l);
      after := l;
    } else {
      var y := run[n + 1].log[|s.log|];
      EntryFits(run, events, n, y);
      if y.OutOfIndexes? {
        assert run[n + 1].log == run[n].log + [OutOfIndexes(y.thread)];
        if MetFull(run, events, y.thread, n) {
          after := ExhaustedExtends(run, events, n, l, y.thread);
        } else {
          NothingAdded(run, events, n, l);
          after := l;
        }
      } else if Inert(y) && e.Proceed? {
        after := AccessExtends(run, events, n, l, y);
      } else {
        after := AddedAtEnd(run, events, n, l, y);
      }
    }
  }

  lemma EntryFits(run: seq<State>, events: seq<Event>, n: nat, y: Entry)
    requires IsRun(run, events) && LoggedAt(run, events, n, y)
    ensures Fits(run[n].log, y)
  {
    hide IsRun, Fits;
    HistoryIsOrderly(run, events, n + 1);
    var log := run[n + 1].log;
    assert log[..|run[n].log|] == run[n].log && log[|run[n].log|] == y;
    assert Fits(log[..|run[n].log|], log[|run[n].log|]);
  }

  /** A finished access or a refusal goes to the instant its guarantee names. */
  lemma AccessExtends(run: seq<State>, events: seq<Event>, n: nat, l: seq<Timed>, e: Entry) returns (after: seq<Timed>)
    requires IsRun(run, events) && n < |events| && Linearizes(run, events, n, l) && Tracks(run, n, l)
    requires LoggedAt(run, events, n, e) && Inert(e) && !e.OutOfIndexes? && events[n] == Proceed(e.thread)
    requires e.thread < |run[n].threads| && Accesses(run[n].threads[e.thread].pc) && e.index == run[n].threads[e.thread].pc.index
    ensures Linearizes(run, events, n + 1, after) && Tracks(run, n + 1, after)
  {
    hide Linearizes, Tracks, Initial, Next, Apply, Inside, Accesses, Allowed, Owned, Latest, Held, SameOwners, SameValuesOf, Inv, HeldAt;
    var a := CallBegan(run, events, e.thread, n);
    assert Returns(run, events, e.thread, n) && run[n + 1].log[|run[n].log|] == e;
    var k: nat;
    if e.Refused? {
      RefusedWasDead(run, events, e.thread, e.index, a, n);
      k :| a < k <= n && Live(run[k].slots, e.index) == None;
      InsideIsInRange(run, events, e.thread, e.index, a, n);
      RunKeepsInv(run, events, k);
      LiveIsOwned(run[k], e.index);
    } else {
      k := CheckedEntry(run, events, e.thread, e.index, a, n);
      QuietInside(run, events, e.thread, e.index, a, k, n);
    }
    forall past: seq<Entry> | SameOwners(past, run[k].log) && SameValuesOf(e.thread, past, run[n].log)
      ensures Allowed(past, e, HeldAt(run[k]))
    {
      AllowedAt(past, run[k].log, run[n].log, e, HeldAt(run[k]));
    }
    after := AddedInside(run, events, n, l, e, a, k);
  }

  lemma InsideIsInRange(run: seq<State>, events: seq<Event>, i: nat, x: nat, a: nat, b: nat)
    requires Inside(run, events, i, x, a, b)
    ensures x < SLOT_COUNT
  {
  }

  lemma AllowedAt(past: seq<Entry>, was: seq<Entry>, now: seq<Entry>, e: Entry, held: set<nat>)
    requires SameOwners(past, was) && SameValuesOf(e.thread, past, now) && Inert(e) && !e.OutOfIndexes?
    requires e.Refused? ==> !Owned(was, e.index)
    requires !e.Refused? ==> Owned(was, e.index) && Latest(was, e.index).generation == e.generation
    requires e.DidGet? ==> e.value == Held(now, e.thread, e.index, e.generation)
    ensures Allowed(past, e, held)
  {
    hide Owned, Latest, Held;
  }

  // An index that is taken is owned or held

  /** A step makes an index initializing only for the thread that then holds it. */
  lemma ClaimerHolds(s: State, i: nat, x: nat)
    requires WellShaped(s) && i < |s.threads| && x < SLOT_COUNT
    ensures x < |Next(s, i).slots| && i < |Next(s, i).threads|
    ensures Next(s, i).slots[x].phase.Initializing? ==> s.slots[x].phase.Initializing? || Holds(Next(s, i).threads[i].pc, x)
  {
  }

  /** A thread that holds an index goes on holding it until it is allocated or free. */
  lemma HolderGoesOn(s: State, i: nat, x: nat)
    requires WellShaped(s) && i < |s.threads| && x < SLOT_COUNT && Holds(s.threads[i].pc, x)
    ensures x < |Next(s, i).slots| && i < |Next(s, i).threads|
    ensures Next(s, i).slots[x].phase.Initializing? ==> Holds(Next(s, i).threads[i].pc, x)
  {
  }

  ghost predicate HoldersExist(s: State) {
    forall x: nat :: x < SLOT_COUNT && x < |s.slots| && s.slots[x].phase.Initializing? ==> HeldByCall(s, x)
  }

  lemma HoldersStay(s: State, e: Event)
    requires Enabled(s, e) && HoldersExist(s)
    ensures HoldersExist(Apply(s, e))
  {
    hide Next;
    var t := Apply(s, e);
    forall x: nat | x < SLOT_COUNT && x < |t.slots| && t.slots[x].phase.Initializing?
      ensures HeldByCall(t, x)
    {
      if e.Proceed? {
        NextAdds(s, e.thread);
        ClaimerHolds(s, e.thread, x);
        if s.slots[x].phase.Initializing? {
          var j: nat :| j < |s.threads| && Holds(s.threads[j].pc, x);
          if j != e.thread {
            OthersUntouched(s, e.thread, j);
          } else {
            HolderGoesOn(s, j, x);
          }
          assert Holds(t.threads[j].pc, x);
        } else {
          assert Holds(t.threads[e.thread].pc, x);
        }
      } else {
        var j: nat :| j < |s.threads| && Holds(s.threads[j].pc, x);
        assert Holds(t.threads[j].pc, x);
      }
    }
  }

  lemma {:induction false} HoldersAlways(run: seq<State>, events: seq<Event>, k: nat)
    requires IsRun(run, events) && k < |run|
    ensures HoldersExist(run[k])
  {
    hide HoldersExist, Apply, Enabled, Initial;
    if k == 0 {
      NobodyHolds(run);
    } else {
      HoldersAlways(run, events, k - 1);
      HoldersStay(run[k - 1], events[k - 1]);
    }
  }

  lemma NobodyHolds(run: seq<State>)
    requires |run| > 0 && exists threads: nat :: run[0] == Initial(threads)
    ensures HoldersExist(run[0])
  {
  }

  lemma TakenIsOwnedOrHeld(s: State, x: nat)
    requires Inv(s) && HoldersExist(s) && x < SLOT_COUNT && TakenAt(s, x)
    ensures Owned(s.log, x) || x in HeldAt(s)
  {
    hide HoldersOk, Orderly, ThreadOk, Latest, Owned, HeldByCall;
    assert SlotOk(s.slots, s.log, x);
  }

  /** An allocation that met every index taken goes to that instant. */
  lemma ExhaustedExtends(run: seq<State>, events: seq<Event>, n: nat, l: seq<Timed>, i: nat) returns (after: seq<Timed>)
    requires IsRun(run, events) && n < |events| && Linearizes(run, events, n, l) && Tracks(run, n, l)
    requires LoggedAt(run, events, n, OutOfIndexes(i)) && MetFull(run, events, i, n)
    ensures Linearizes(run, events, n + 1, after) && Tracks(run, n + 1, after)
  {
    hide Linearizes, Tracks, Initial, Next, Apply, Scanning, Owned, Latest, Held, Inv, HeldAt, TakenAt, SameValuesOf;
    var a: nat, k: nat :| FullAt(run, events, i, a, k, n);
    RunKeepsInv(run, events, k);
    HoldersAlways(run, events, k);
    forall x: nat | x < SLOT_COUNT
      ensures Owned(run[k].log, x) || x in HeldAt(run[k])
    {
      assert TakenAt(run[k], x);
      TakenIsOwnedOrHeld(run[k], x);
    }
    assert Calls(run, events, OutOfIndexes(i), a, n);
    after := AddedInside(run, events, n, l, OutOfIndexes(i), a, k);
  }

  /**
   * Linearizability. In every run, however the calls overlap, each entry of the log can
   * be given one instant, inside its call, so that in the order of these instants the
   * calls form a sequential history: an index is accessed only while it is owned, under
   * the generation it is owned for, a get returns what the thread last set, an access
   * or free is refused only while the index is not owned, and an allocation fails only
   * while every index is owned or held. Left out are only the failed allocations that
   * had an index free at every instant of their call.
   */
  lemma {:induction false} RunsAreLinearizable(run: seq<State>, events: seq<Event>, n: nat) returns (l: seq<Timed>)
    requires IsRun(run, events) && n < |run|
    ensures Linearizes(run, events, n, l) && Tracks(run, n, l)
  {
    hide Linearizes, Tracks;
    if n == 0 {
      l := [];
      NothingYet(run, events);
    } else {
      var before := RunsAreLinearizable(run, events, n - 1);
      l := EventExtends(run, events, n - 1, before);
    }
  }

  lemma NothingYet(run: seq<State>, events: seq<Event>)
    requires IsRun(run, events)
    ensures Linearizes(run, events, 0, []) && Tracks(run, 0, [])
  {
    hide Sequential;
    assert run[0].log == [] by { StartsEmpty(run); }
    assert Entries([]) == [] && By([], 0) == [];
    assert Sequential([]) by { EmptyIsSequential(); }
  }

  lemma StartsEmpty(run: seq<State>)
    requires |run| > 0 && exists threads: nat :: run[0] == Initial(threads)
    ensures run[0].log == []
  {
  }

  lemma EmptyIsSequential()
    ensures Sequential([])
  {
  }

  /** The order respects the calls: one that had logged its result before another began comes first. */
  lemma CallsKeepOrder(run: seq<State>, events: seq<Event>, n: nat, l: seq<Timed>, p: nat, q: nat, a: nat)
    requires n < |run| && Linearizes(run, events, n, l) && p < |l| && q < |l|
    requires l[p].event < a && (l[q].time == 2 * l[q].event + 1 ==> a <= l[q].event)
    requires l[q].time != 2 * l[q].event + 1 ==> CalledAt(run, events, l[q], a)
    ensures p < q
  {
    hide Sequential, Inside;
    assert InItsCall(run, events, l[p]) && InItsCall(run, events, l[q]);
    assert l[p].time <= 2 * l[p].event + 1 < 2 * a <= l[q].time;
  }
}
