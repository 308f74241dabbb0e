/** What users of TLS and FLS indexes may rely on in every run, for any number of threads and any interleaving. */
module LocalGuarantees {
  import opened Bytes
  import opened LocalSlots
  import opened LocalInvariant
  import opened LocalSteps
  import opened LocalCalls

  /** Every entry of every log fits the log before it, in the order the calls complete. */
  lemma HistoryIsOrderly(run: seq<State>, events: seq<Event>, k: nat)
    requires IsRun(run, events) && k < |run|
    ensures Orderly(run[k].log)
  {
    hide IsRun, WellShaped, HoldersOk, Orderly, SlotOk, ThreadOk;
    RunKeepsInv(run, events, k);
  }

  // Instants of one call

  /** From event a, its beginning, up to state b, thread i is inside one access to, or the claim of a free of, index x. */
  ghost predicate Inside(run: seq<State>, events: seq<Event>, i: nat, x: nat, a: nat, b: nat) {
    && IsRun(run, events) && a < b < |run|
    && events[a].Begin? && events[a].thread == i && !events[a].call.Alloc? && events[a].call.index == x && x < SLOT_COUNT
    && forall k :: a < k <= b ==> i < |run[k].threads| && Accesses(run[k].threads[i].pc)
  }

  /** The status of the index at every instant of the call. */
  function StatusesBetween(run: seq<State>, x: nat, a: nat, b: nat): set<Option<nat>>
    requires a <= b < |run|
  {
    set k | a < k <= b :: Live(run[k].slots, x)
  }

  lemma StatusesExtend(run: seq<State>, x: nat, a: nat, b: nat)
    requires a < b < |run|
    ensures StatusesBetween(run, x, a, b) == StatusesBetween(run, x, a, b - 1) + {Live(run[b].slots, x)}
  {
  }

  lemma OwnStepWatches(s: State, i: nat)
    requires WellShaped(s) && i < |s.threads| && Accesses(s.threads[i].pc) && Accesses(Next(s, i).threads[i].pc)
    ensures |Next(s, i).threads| == |s.threads|
    ensures Next(s, i).threads[i].pc.index == s.threads[i].pc.index && Next(s, i).threads[i].seen == s.threads[i].seen
  {
  }

  lemma StepWatches(s: State, e: Event, i: nat)
    requires Enabled(s, e) && i < |s.threads| && i < |Apply(s, e).threads|
    requires Accesses(s.threads[i].pc) && Accesses(Apply(s, e).threads[i].pc)
    ensures Apply(s, e).threads[i].pc.index == s.threads[i].pc.index
    ensures Apply(s, e).threads[i].seen == s.threads[i].seen + {Live(Apply(s, e).slots, s.threads[i].pc.index)}
  {
    hide Next, Live;
    if e == Proceed(i) {
      OwnStepWatches(s, i);
    } else if e.Proceed? {
      OthersUntouched(s, e.thread, i);
    }
  }

  lemma {:induction false} SeenIsHistory(run: seq<State>, events: seq<Event>, i: nat, x: nat, a: nat, b: nat)
    requires Inside(run, events, i, x, a, b)
    ensures run[b].threads[i].pc.index == x
    ensures run[b].threads[i].seen == StatusesBetween(run, x, a, b)
  {
    hide Initial, Apply, Enabled;
    if b == a + 1 {
      BeginWatches(run[a], events[a], x);
      assert run[b] == Apply(run[a], events[a]);
      StatusesExtend(run, x, a, b);
    } else {
      SeenIsHistory(run, events, i, x, a, b - 1);
      assert run[b] == Apply(run[b - 1], events[b - 1]);
      StepWatches(run[b - 1], events[b - 1], i);
      StatusesExtend(run, x, a, b);
    }
  }

  lemma BeginWatches(s: State, e: Event, x: nat)
    requires Enabled(s, e) && e.Begin? && !e.call.Alloc? && e.call.index == x < SLOT_COUNT
    ensures var th := Apply(s, e).threads[e.thread]; th.pc.index == x && th.seen == {Live(Apply(s, e).slots, x)}
  {
  }

  /** The call returns at event b, and says so in the last entry of the log. */
  ghost predicate Returns(run: seq<State>, events: seq<Event>, i: nat, b: nat) {
    && b < |events| && |run| == |events| + 1 && events[b] == Proceed(i)
    && |run[b + 1].log| == |run[b].log| + 1 && run[b + 1].log[..|run[b].log|] == run[b].log
  }

  lemma ReturnedEntry(s: State, i: nat, e: Entry)
    requires WellShaped(s) && i < |s.threads| && Accesses(s.threads[i].pc) && Observe(Next(s, i)).log == s.log + [e]
    ensures e.Refused? || e.DidGet? || e.DidSet? ==> e.seen == s.threads[i].seen && e.index == s.threads[i].pc.index
  {
    assert (s.log + [e])[|s.log|] == e;
  }

  /** A refused access or free met its index unallocated at some instant of the call. */
  lemma RefusedWasDead(run: seq<State>, events: seq<Event>, i: nat, x: nat, a: nat, b: nat)
    requires Inside(run, events, i, x, a, b) && Returns(run, events, i, b) && run[b + 1].log[|run[b].log|].Refused?
    ensures exists k :: a < k <= b && Live(run[k].slots, x) == None
  {
    hide Next, Initial, Inv, Live;
    var e, n := run[b + 1].log[|run[b].log|], |run[b].log|;
    SeenIsHistory(run, events, i, x, a, b);
    HistoryIsOrderly(run, events, b + 1);
    assert run[b + 1].log == run[b].log + [e];
    ReturnedEntry(run[b], i, e);
    assert Fits(run[b + 1].log[..n], run[b + 1].log[n]);
    assert None in StatusesBetween(run, x, a, b);
  }

  // The final check of a successful access

  /** At instant k thread i makes its final check and the index is allocated under generation g. */
  ghost predicate ChecksLive(run: seq<State>, events: seq<Event>, i: nat, x: nat, g: nat, k: nat) {
    && k < |events| && k < |run| && events[k] == Proceed(i) && i < |run[k].threads|
    && run[k].threads[i].pc.Claim? && run[k].threads[i].pc.index == x && Live(run[k].slots, x) == Some(g)
  }

  lemma {:induction false} ConfirmedWasLive(run: seq<State>, events: seq<Event>, i: nat, x: nat, a: nat, b: nat)
    requires Inside(run, events, i, x, a, b) && run[b].threads[i].pc.Confirm?
    ensures exists k :: a < k < b && ChecksLive(run, events, i, x, run[b].threads[i].pc.live, k)
  {
    hide Initial, Apply, Enabled;
    SeenIsHistory(run, events, i, x, a, b);
    assert run[b] == Apply(run[b - 1], events[b - 1]) && Enabled(run[b - 1], events[b - 1]);
    if b == a + 1 {
      BeginReads(run[a], events[a]);
    } else {
      SeenIsHistory(run, events, i, x, a, b - 1);
      ConfirmComesFrom(run[b - 1], events[b - 1], i);
      if !run[b - 1].threads[i].pc.Confirm? {
        assert ChecksLive(run, events, i, x, run[b].threads[i].pc.live, b - 1);
      } else {
        ConfirmedWasLive(run, events, i, x, a, b - 1);
      }
    }
  }

  lemma BeginReads(s: State, e: Event)
    requires Enabled(s, e) && e.Begin?
    ensures !Apply(s, e).threads[e.thread].pc.Confirm?
  {
  }

  lemma ConfirmComesFrom(s: State, e: Event, i: nat)
    requires Enabled(s, e) && i < |s.threads| && Accesses(s.threads[i].pc) && Apply(s, e).threads[i].pc.Confirm?
    ensures var pc, was := Apply(s, e).threads[i].pc, s.threads[i].pc;
            was == pc || (e == Proceed(i) && was.Claim? && was.index == pc.index && Live(s.slots, pc.index) == Some(pc.live))
  {
    if e.Proceed? && e.thread != i {
      OthersUntouched(s, e.thread, i);
    }
  }

  lemma ConfirmReturns(s: State, i: nat, e: Entry)
    requires WellShaped(s) && i < |s.threads| && Accesses(s.threads[i].pc) && Observe(Next(s, i)).log == s.log + [e]
    requires e.DidGet? || e.DidSet?
    ensures s.threads[i].pc.Confirm? && e.generation == s.threads[i].pc.live && e.thread == i && e.index == s.threads[i].pc.index
  {
    assert (s.log + [e])[|s.log|] == e;
  }

  /**
   * A get returns exactly what its thread last set under the generation that was live at
   * its final check, or NULL; a set took effect, with the value its caller gave, under
   * the generation live at its final check.
   */
  lemma AccessIsExact(run: seq<State>, events: seq<Event>, i: nat, x: nat, a: nat, b: nat)
    requires Inside(run, events, i, x, a, b) && Returns(run, events, i, b)
    requires var e := run[b + 1].log[|run[b].log|]; e.DidGet? || e.DidSet?
    ensures var e := run[b + 1].log[|run[b].log|];
            && e.thread == i && e.index == x
            && (exists k :: a < k < b && ChecksLive(run, events, i, x, e.generation, k))
            && (e.DidGet? ==> events[a].call == AccessIndex(x, Getting) && e.value == Held(run[b].log, i, x, e.generation))
            && (e.DidSet? ==> events[a].call == AccessIndex(x, Setting(e.value)))
  {
    hide Next, Initial, Inv, Held;
    var e, n := run[b + 1].log[|run[b].log|], |run[b].log|;
    SeenIsHistory(run, events, i, x, a, b);
    HistoryIsOrderly(run, events, b + 1);
    assert run[b + 1].log == run[b].log + [e];
    AnswerCarriesArguments(run, events, i, x, a, b, e);
    ConfirmReturns(run[b], i, e);
    ConfirmedWasLive(run, events, i, x, a, b);
    assert Fits(run[b + 1].log[..n], run[b + 1].log[n]);
  }

  lemma AnswerCarriesArguments(run: seq<State>, events: seq<Event>, i: nat, x: nat, a: nat, b: nat, e: Entry)
    requires Inside(run, events, i, x, a, b) && LoggedAt(run, events, b, e) && events[b] == Proceed(i)
    ensures Answers(events[a].call, e)
  {
    hide Next, Initial, Answers, Serves, Live;
    var s := run[b];
    assert Enabled(s, events[b]) && run[b + 1] == Apply(s, events[b]);
    assert (s.log + [e])[|s.log|] == e;
    StandsForItsCall(run, events, i, a, b);
    StepServes(s, events[b], i, events[a].call);
  }

  // An allocation that finds nothing

  /** From event a, its beginning, up to state b, thread i is scanning for a free index. */
  ghost predicate Scanning(run: seq<State>, events: seq<Event>, i: nat, a: nat, b: nat) {
    && IsRun(run, events) && a < b < |run|
    && events[a].Begin? && events[a].thread == i && events[a].call.Alloc?
    && forall k :: a < k <= b ==> i < |run[k].threads| && run[k].threads[i].pc.AllocScan?
  }

  predicate TakenAt(s: State, y: nat) {
    y < |s.slots| && !s.slots[y].phase.Free?
  }

  ghost predicate AllTaken(s: State) {
    forall y: nat :: y < SLOT_COUNT ==> TakenAt(s, y)
  }

  /** The index was taken at some instant after a and before b. */
  ghost predicate TakenBetween(run: seq<State>, y: nat, a: nat, b: nat) {
    exists k :: a < k < b && k < |run| && TakenAt(run[k], y)
  }

  lemma ScanMoves(s: State, e: Event, i: nat)
    requires Enabled(s, e) && i < |s.threads| && s.threads[i].pc.AllocScan?
    requires i < |Apply(s, e).threads| && Apply(s, e).threads[i].pc.AllocScan?
    ensures var x, y := s.threads[i].pc.index, Apply(s, e).threads[i].pc.index;
            y == x || (y == x + 1 && TakenAt(s, x))
  {
    hide Live;
    if e.Proceed? && e.thread != i {
      OthersUntouched(s, e.thread, i);
    }
  }

  lemma ScanBegins(s: State, e: Event)
    requires Enabled(s, e) && e.Begin? && e.call.Alloc?
    ensures Apply(s, e).threads[e.thread].pc == AllocScan(0, e.call.callback)
  {
  }

  lemma {:induction false} ScannedWereTaken(run: seq<State>, events: seq<Event>, i: nat, a: nat, b: nat)
    requires Scanning(run, events, i, a, b)
    ensures forall y: nat :: y < run[b].threads[i].pc.index ==> TakenBetween(run, y, a, b)
  {
    hide Initial, Apply, Enabled, TakenAt;
    assert run[b] == Apply(run[b - 1], events[b - 1]) && Enabled(run[b - 1], events[b - 1]);
    if b == a + 1 {
      ScanBegins(run[a], events[a]);
    } else {
      ScannedWereTaken(run, events, i, a, b - 1);
      ScanMoves(run[b - 1], events[b - 1], i);
      forall y: nat | y < run[b].threads[i].pc.index
        ensures TakenBetween(run, y, a, b)
      {
        if y < run[b - 1].threads[i].pc.index {
          assert TakenBetween(run, y, a, b - 1);
        } else {
          assert TakenAt(run[b - 1], y);
        }
      }
    }
  }

  lemma OutOfIndexesLast(s: State, i: nat)
    requires WellShaped(s) && i < |s.threads| && s.threads[i].pc.AllocScan? && Observe(Next(s, i)).log == s.log + [OutOfIndexes(i)]
    ensures s.threads[i].pc.index + 1 >= SLOT_COUNT && TakenAt(s, s.threads[i].pc.index)
  {
    assert (s.log + [OutOfIndexes(i)])[|s.log|] == OutOfIndexes(i);
  }

  /** An allocation that runs out of indexes met every index taken at some instant of the call. */
  lemma FullMeansTaken(run: seq<State>, events: seq<Event>, i: nat, a: nat, b: nat, y: nat)
    requires Scanning(run, events, i, a, b) && Returns(run, events, i, b) && y < 256
    requires run[b + 1].log[|run[b].log|] == OutOfIndexes(i)
    ensures TakenBetween(run, y, a, b + 1)
  {
    hide Next, Initial, TakenAt;
    ScannedWereTaken(run, events, i, a, b);
    assert run[b + 1].log == run[b].log + [OutOfIndexes(i)];
    OutOfIndexesLast(run[b], i);
    if y < run[b].threads[i].pc.index {
      assert TakenBetween(run, y, a, b);
    } else {
      assert TakenAt(run[b], y);
    }
  }

  /** A freeing thread's callback runs exactly when it asked for it, the allocation named one and the thread holds a value; it is given that value. */
  lemma NotifiesIffDue(s: State, i: nat)
    requires Inv(s) && i < |s.threads| && s.threads[i].pc.FreeNotify?
    ensures var pc := s.threads[i].pc;
            var last, held := Latest(s.log, pc.index), Held(s.log, i, pc.index, Latest(s.log, pc.index).generation);
            Next(s, i).log ==
            if pc.notify && last.callback != 0 && held != NULL then
              s.log + [DidNotify(i, pc.index, last.generation, last.callback, held)]
            else s.log
  {
    hide HoldersOk, Orderly, SlotOk, Latest, Held;
    assert ThreadOk(s, i);
  }

  /** The same from the call on: the flag is the caller's. */
  lemma NotifiesForItsCall(run: seq<State>, events: seq<Event>, i: nat, a: nat, b: nat)
    requires InCall(run, events, i, a, b) && run[b].threads[i].pc.FreeNotify? && b < |events| && events[b] == Proceed(i)
    ensures events[a].call.FreeIndex?
    ensures var x, log := events[a].call.index, run[b].log;
            var last, held := Latest(log, x), Held(log, i, x, Latest(log, x).generation);
            run[b + 1].log ==
            if events[a].call.notify && last.callback != 0 && held != NULL then
              log + [DidNotify(i, x, last.generation, last.callback, held)]
            else log
  {
    hide Next, Initial, Inv, Latest, Held, Live;
    StandsForItsCall(run, events, i, a, b);
    RunKeepsInv(run, events, b);
    assert Enabled(run[b], events[b]) && run[b + 1] == Apply(run[b], events[b]);
    NotifiesIffDue(run[b], i);
  }

  // Consequences for the history

  predicate Allocates(e: Entry, x: nat) {
    e.DidAlloc? && e.index == x
  }

  predicate Frees(e: Entry, x: nat) {
    e.DidFree? && e.index == x
  }

  lemma {:induction false} OwnedSince(log: seq<Entry>, x: nat, a: nat)
    requires a < |log| && Allocates(log[a], x)
    requires forall c :: a < c < |log| ==> !Frees(log[c], x)
    ensures Owned(log, x)
  {
    if a + 1 < |log| {
      var rest := log[..|log| - 1];
      assert forall c :: 0 <= c < |rest| ==> rest[c] == log[c];
      OwnedSince(rest, x, a);
    }
  }

  /** No index has two owners without a free between them. */
  lemma OneOwner(run: seq<State>, events: seq<Event>, k: nat, x: nat, a: nat, b: nat)
    requires IsRun(run, events) && k < |run| && a < b < |run[k].log|
    requires Allocates(run[k].log[a], x) && Allocates(run[k].log[b], x)
    ensures exists c :: a < c < b && Frees(run[k].log[c], x)
  {
    hide IsRun, Owned, Latest, Held;
    var log := run[k].log;
    HistoryIsOrderly(run, events, k);
    assert Fits(log[..b], log[b]);
    if forall c :: a < c < b ==> !Frees(log[c], x) {
      OwnedSince(log[..b], x, a);
    }
  }

  predicate SetsUnder(e: Entry, thread: nat, x: nat, g: nat) {
    e.DidSet? && e.thread == thread && e.index == x && e.generation == g
  }

  lemma {:induction false} HeldUnchanged(log: seq<Entry>, thread: nat, x: nat, g: nat, a: nat)
    requires a <= |log|
    requires forall c :: a <= c < |log| ==> !SetsUnder(log[c], thread, x, g)
    ensures Held(log, thread, x, g) == Held(log[..a], thread, x, g)
  {
    if a < |log| {
      var rest := log[..|log| - 1];
      assert forall c :: 0 <= c < |rest| ==> rest[c] == log[c];
      HeldUnchanged(rest, thread, x, g, a);
      assert rest[..a] == log[..a];
    } else {
      assert log[..a] == log;
    }
  }

  /** A freshly allocated index reads NULL in every thread that has not set it since. */
  lemma FreshReadsNull(run: seq<State>, events: seq<Event>, k: nat, x: nat, a: nat, b: nat)
    requires IsRun(run, events) && k < |run| && a < b < |run[k].log| && Allocates(run[k].log[a], x)
    requires run[k].log[b].DidGet? && run[k].log[b].index == x && run[k].log[b].generation == run[k].log[a].generation
    requires forall c :: a <= c < b ==> !SetsUnder(run[k].log[c], run[k].log[b].thread, x, run[k].log[b].generation)
    ensures run[k].log[b].value == NULL
  {
    hide IsRun, Owned, Latest, Held;
    var log := run[k].log;
    HistoryIsOrderly(run, events, k);
    assert Fits(log[..a], log[a]) && Fits(log[..b], log[b]);
    assert log[..b][..a] == log[..a];
    HeldUnchanged(log[..b], log[b].thread, x, log[b].generation, a);
  }
}
