/** Which call an entry of the log belongs to, and that it carries that call's own arguments. */
module LocalCalls {
  import opened LocalSlots

  lemma OthersUntouched(s: State, j: nat, i: nat)
    requires WellShaped(s) && i < |s.threads| && j < |s.threads| && i != j
    ensures Next(s, j).threads[i] == s.threads[i] && |Next(s, j).threads| == |s.threads|
  {
  }

  /** The entry is one this call may log. */
  predicate Answers(call: Call, e: Entry) {
    match e
    case DidAlloc(_, _, _, callback) => call == Alloc(callback)
    case OutOfIndexes(_) => call.Alloc?
    case DidFree(_, x, _) => call.FreeIndex? && call.index == x
    case DidNotify(_, x, _, _, _) => call == FreeIndex(x, true)
    case DidSet(_, x, _, value, _) => call == AccessIndex(x, Setting(value))
    case DidGet(_, x, _, _, _) => call == AccessIndex(x, Getting)
    case Refused(_, x, _) => !call.Alloc? && call.index == x
  }

  /** A thread stands where this call, and no other, may bring it. */
  predicate Serves(call: Call, pc: Pc) {
    match pc
    case Idle => false
    case AllocScan(_, callback) => call == Alloc(callback)
    case AllocGeneration(_, callback) => call == Alloc(callback)
    case AllocCallback(_, callback, _) => call == Alloc(callback)
    case AllocPublish(_, callback, _) => call == Alloc(callback)
    case FreeClaim(x, notify) => call == FreeIndex(x, notify)
    case FreeGeneration(x, notify) => call == FreeIndex(x, notify)
    case FreeCallback(x, notify, _, _) => call == FreeIndex(x, notify)
    case FreeClear(x, notify, _, _, _) => call == FreeIndex(x, notify)
    case FreeNotify(x, notify, _, _, _) => call == FreeIndex(x, notify)
    case FreePublish(x) => call.FreeIndex? && call.index == x
    case ReadBefore(x, access) => call == AccessIndex(x, access)
    case ReadPhase(x, access, _) => call == AccessIndex(x, access)
    case ReadAfter(x, access, _) => call == AccessIndex(x, access)
    case Claim(x, access, _, value) => call == AccessIndex(x, access) && (access.Setting? ==> value == access.value)
    case Confirm(x, access, _, value, _) => call == AccessIndex(x, access) && (access.Setting? ==> value == access.value)
  }

  /** Nothing is logged, or one entry of this thread that the call may log. */
  ghost predicate LogsFor(call: Call, i: nat, before: seq<Entry>, after: seq<Entry>) {
    after == before ||
    (|after| == |before| + 1 && after == before + [after[|before|]] && after[|before|].thread == i && Answers(call, after[|before|]))
  }

  lemma NextServes(s: State, i: nat, call: Call)
    requires WellShaped(s) && i < |s.threads| && Serves(call, s.threads[i].pc)
    ensures |Next(s, i).threads| == |s.threads|
    ensures Next(s, i).threads[i].pc.Idle? || Serves(call, Next(s, i).threads[i].pc)
    ensures LogsFor(call, i, s.log, Next(s, i).log)
  {
  }

  lemma StartServes(s: State, i: nat, call: Call)
    requires i < |s.threads| && s.threads[i].pc.Idle?
    ensures |Start(s, i, call).threads| == |s.threads|
    ensures Start(s, i, call).threads[i].pc.Idle? || Serves(call, Start(s, i, call).threads[i].pc)
    ensures LogsFor(call, i, s.log, Start(s, i, call).log)
    ensures Start(s, i, call).threads[i].pc.Idle? ==> |Start(s, i, call).log| > |s.log|
  {
  }

  /** From event a, its beginning, up to state b, thread i is inside one call. */
  ghost predicate InCall(run: seq<State>, events: seq<Event>, i: nat, a: nat, b: nat) {
    && IsRun(run, events) && a < b < |run| && events[a].Begin? && events[a].thread == i
    && forall k :: a < k <= b ==> i < |run[k].threads| && !run[k].threads[i].pc.Idle?
  }

  lemma StepServes(s: State, e: Event, i: nat, call: Call)
    requires Enabled(s, e) && i < |s.threads| && Serves(call, s.threads[i].pc)
    ensures i < |Apply(s, e).threads|
    ensures Apply(s, e).threads[i].pc.Idle? || Serves(call, Apply(s, e).threads[i].pc)
    ensures e.thread == i ==> LogsFor(call, i, s.log, Apply(s, e).log)
    ensures e.thread != i ==> !Apply(s, e).threads[i].pc.Idle?
  {
    hide Next, Start, Serves, LogsFor, Live;
    assert !s.threads[i].pc.Idle? by { ServesNotIdle(call, s.threads[i].pc); }
    if e.thread == i {
      NextServes(s, i, call);
    } else if e.Proceed? {
      OthersUntouched(s, e.thread, i);
    } else {
      StartsAlone(s, e.thread, e.call, i);
    }
  }

  lemma ServesNotIdle(call: Call, pc: Pc)
    requires Serves(call, pc)
    ensures !pc.Idle?
  {
  }

  lemma StartsAlone(s: State, j: nat, call: Call, i: nat)
    requires j < |s.threads| && i < |s.threads| && i != j
    ensures |Start(s, j, call).threads| == |s.threads| && Start(s, j, call).threads[i] == s.threads[i]
  {
  }

  /** Wherever a thread stands inside a call, it stands there for that call's own arguments. */
  lemma {:induction false} StandsForItsCall(run: seq<State>, events: seq<Event>, i: nat, a: nat, b: nat)
    requires InCall(run, events, i, a, b)
    ensures Serves(events[a].call, run[b].threads[i].pc)
    decreases b
  {
    hide Initial, Apply, Enabled, Serves;
    assert Enabled(run[b - 1], events[b - 1]) && run[b] == Apply(run[b - 1], events[b - 1]);
    if b == a + 1 {
      BeginServes(run[a], events[a]);
    } else {
      StandsForItsCall(run, events, i, a, b - 1);
      StepServes(run[b - 1], events[b - 1], i, events[a].call);
    }
  }

  lemma BeginServes(s: State, e: Event)
    requires Enabled(s, e) && e.Begin?
    ensures e.thread < |Apply(s, e).threads|
    ensures Apply(s, e).threads[e.thread].pc.Idle? || Serves(e.call, Apply(s, e).threads[e.thread].pc)
    ensures LogsFor(e.call, e.thread, s.log, Apply(s, e).log)
    ensures Apply(s, e).threads[e.thread].pc.Idle? ==> |Apply(s, e).log| > |s.log|
  {
    hide Start, Serves, LogsFor, Live;
    StartServes(s, e.thread, e.call);
  }

  /** A thread that is not idle is inside a call. */
  lemma {:induction false} CallUnderWay(run: seq<State>, events: seq<Event>, i: nat, b: nat) returns (a: nat)
    requires IsRun(run, events) && b < |run| && i < |run[b].threads| && !run[b].threads[i].pc.Idle?
    ensures InCall(run, events, i, a, b)
    decreases b
  {
    hide Initial, Apply, Enabled;
    if b == 0 {
      AllIdleFirst(run);
    } else {
      var s, e := run[b - 1], events[b - 1];
      assert Enabled(s, e) && run[b] == Apply(s, e);
      LeavesIdleAtBegin(s, e, i);
      if s.threads[i].pc.Idle? {
        a := b - 1;
      } else {
        a := CallUnderWay(run, events, i, b - 1);
      }
    }
  }

  lemma AllIdleFirst(run: seq<State>)
    requires |run| > 0 && exists threads: nat :: run[0] == Initial(threads)
    ensures forall i: nat :: i < |run[0].threads| ==> run[0].threads[i].pc.Idle?
  {
  }

  lemma LeavesIdleAtBegin(s: State, e: Event, i: nat)
    requires Enabled(s, e) && i < |Apply(s, e).threads|
    ensures i < |s.threads|
    ensures s.threads[i].pc.Idle? && !Apply(s, e).threads[i].pc.Idle? ==> e.Begin? && e.thread == i
  {
    hide Next, Live, Start;
    if e.Begin? {
      StartServes(s, e.thread, e.call);
      if e.thread != i {
        StartsAlone(s, e.thread, e.call, i);
      }
    } else {
      NextKeepsCount(s, e.thread);
      if e.thread != i {
        OthersUntouched(s, e.thread, i);
      }
    }
  }

  lemma NextKeepsCount(s: State, i: nat)
    requires WellShaped(s) && i < |s.threads|
    ensures |Next(s, i).threads| == |s.threads| && (s.threads[i].pc.Idle? ==> Next(s, i) == s)
  {
  }

  /** The event logged the entry. */
  ghost predicate LoggedAt(run: seq<State>, events: seq<Event>, b: nat, e: Entry) {
    b < |events| && |run| == |events| + 1 && run[b + 1].log == run[b].log + [e]
  }

  /** The entry logged at event b is the answer of the call begun at event a, with that call's arguments. */
  ghost predicate AnswersCall(run: seq<State>, events: seq<Event>, e: Entry, a: nat, b: nat) {
    && LoggedAt(run, events, b, e) && a <= b && events[a].Begin? && events[a].thread == e.thread && Answers(events[a].call, e)
    && (a < b ==> InCall(run, events, e.thread, a, b) && events[b] == Proceed(e.thread))
  }

  /** Every entry of every log is the answer of a call of its thread, with that call's arguments. */
  lemma EntryAnswersItsCall(run: seq<State>, events: seq<Event>, b: nat, e: Entry) returns (a: nat)
    requires IsRun(run, events) && LoggedAt(run, events, b, e)
    ensures AnswersCall(run, events, e, a, b)
  {
    hide Initial, Next, Start, Serves, Answers, Live;
    var s, event := run[b], events[b];
    assert Enabled(s, event) && run[b + 1] == Apply(s, event);
    assert (s.log + [e])[|s.log|] == e;
    if event.Begin? {
      BeginServes(s, event);
      a := b;
    } else {
      NextKeepsCount(s, event.thread);
      a := CallUnderWay(run, events, event.thread, b);
      StandsForItsCall(run, events, event.thread, a, b);
      StepServes(s, event, event.thread, events[a].call);
    }
  }

  lemma OneCallAtATime(run: seq<State>, events: seq<Event>, i: nat, a: nat, c: nat, b: nat)
    requires InCall(run, events, i, a, b) && InCall(run, events, i, c, b)
    ensures a == c
  {
    hide Initial, Apply;
    assert Enabled(run[a], events[a]) && Enabled(run[c], events[c]);
  }

  /** An entry logged while a call is under way is that call's answer. */
  lemma AnswersTheCallUnderWay(run: seq<State>, events: seq<Event>, e: Entry, a: nat, b: nat)
    requires LoggedAt(run, events, b, e) && InCall(run, events, e.thread, a, b)
    ensures AnswersCall(run, events, e, a, b)
  {
    hide Initial, Apply, Answers;
    var c := EntryAnswersItsCall(run, events, b, e);
    assert Enabled(run[b], events[b]);
    if c < b {
      OneCallAtATime(run, events, e.thread, a, c, b);
    }
  }

  // Every call that ends has answered

  /** The call's result, as against a callback on the way. */
  predicate IsResult(e: Entry) {
    !e.DidNotify?
  }

  /** Past its answer: a free that has claimed its index. */
  predicate HasAnswered(pc: Pc) {
    pc.FreeGeneration? || pc.FreeCallback? || pc.FreeClear? || pc.FreeNotify? || pc.FreePublish?
  }

  /** A step ends a call, or takes it past its answer, only by logging the answer. */
  lemma AnswersOnce(s: State, i: nat)
    requires WellShaped(s) && i < |s.threads| && !s.threads[i].pc.Idle?
    ensures |Next(s, i).threads| == |s.threads|
    ensures var pc, next := s.threads[i].pc, Next(s, i).threads[i].pc;
            var logged := |Next(s, i).log| == |s.log| + 1 && IsResult(Next(s, i).log[|s.log|]);
            && (!HasAnswered(pc) ==> ((next.Idle? || HasAnswered(next)) <==> logged))
            && (HasAnswered(pc) ==> !logged && (next.Idle? || HasAnswered(next)))
  {
  }

  /** The results a thread has logged for one call: none while it is on its way, one afterwards. */
  function Results(run: seq<State>, a: nat, b: nat, i: nat): nat
    requires a <= b < |run|
  {
    if a == b then 0
    else Results(run, a, b - 1, i) +
         if |run[b].log| > |run[b - 1].log| && run[b].log[|run[b - 1].log|].thread == i && IsResult(run[b].log[|run[b - 1].log|]) then 1 else 0
  }

  lemma ResultAt(run: seq<State>, events: seq<Event>, b: nat, i: nat)
    requires IsRun(run, events) && 0 < b < |run| && i < |run[b - 1].threads| && !run[b - 1].threads[i].pc.Idle?
    ensures i < |run[b].threads|
    ensures var pc, next := run[b - 1].threads[i].pc, run[b].threads[i].pc;
            Results(run, b - 1, b, i) == if !HasAnswered(pc) && (next.Idle? || HasAnswered(next)) then 1 else 0
    ensures HasAnswered(run[b - 1].threads[i].pc) ==> run[b].threads[i].pc.Idle? || HasAnswered(run[b].threads[i].pc)
  {
    hide Next, Start, Initial, Live, HasAnswered, Serves, Answers, IsResult;
    var s, e := run[b - 1], events[b - 1];
    assert Enabled(s, e) && run[b] == Apply(s, e);
    if e.Begin? {
      BeginServes(s, e);
      StartsAlone(s, e.thread, e.call, i);
    } else {
      NextKeepsCount(s, e.thread);
      if !s.threads[e.thread].pc.Idle? {
        var a := CallUnderWay(run, events, e.thread, b - 1);
        StandsForItsCall(run, events, e.thread, a, b - 1);
        StepServes(s, e, e.thread, events[a].call);
      }
      if e.thread == i {
        AnswersOnce(s, i);
      } else {
        OthersUntouched(s, e.thread, i);
      }
    }
  }

  lemma {:induction false} ResultsSoFar(run: seq<State>, events: seq<Event>, i: nat, a: nat, b: nat)
    requires InCall(run, events, i, a, b)
    ensures Results(run, a, b, i) == if HasAnswered(run[b].threads[i].pc) then 1 else 0
    decreases b
  {
    hide Initial, Apply, Enabled, HasAnswered;
    if b == a + 1 {
      BeginLogsNothing(run, events, i, a);
    } else {
      ResultsSoFar(run, events, i, a, b - 1);
      ResultAt(run, events, b, i);
      assert Results(run, a, b, i) == Results(run, a, b - 1, i) + Results(run, b - 1, b, i);
    }
  }

  lemma BeginLogsNothing(run: seq<State>, events: seq<Event>, i: nat, a: nat)
    requires InCall(run, events, i, a, a + 1)
    ensures Results(run, a, a + 1, i) == 0 && !HasAnswered(run[a + 1].threads[i].pc)
  {
    hide Live;
    assert Enabled(run[a], events[a]) && run[a + 1] == Apply(run[a], events[a]);
  }

  /** A call that ends at event b has logged exactly one result. */
  lemma EndedCallAnswered(run: seq<State>, events: seq<Event>, i: nat, a: nat, b: nat)
    requires InCall(run, events, i, a, b) && b + 1 < |run| && i < |run[b + 1].threads| && run[b + 1].threads[i].pc.Idle?
    ensures Results(run, a, b + 1, i) == 1
  {
    hide Initial, Apply, Enabled, HasAnswered;
    ResultsSoFar(run, events, i, a, b);
    ResultAt(run, events, b + 1, i);
    assert Results(run, a, b + 1, i) == Results(run, a, b, i) + Results(run, b, b + 1, i);
  }
}
