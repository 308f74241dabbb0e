/**
 * Chains of unwind records as lists: which are valid, which record a declared epilogue
 * replays, and where a record's declared epilogues may lie.
 */
module ChainMeaning {
  import opened Bytes
  import opened Context
  import opened UnwindCodes
  import opened UnwindApply
  import opened UnwindImage
  import opened UnwindFrame
  import opened FunctionTable
  import V2 = UnwindV2

  // Links

  /** A chained record's trailer names the next entry, if it is usable. */
  lemma NextReadsBack(m: LoadedModule, r: Record, e: RuntimeFunction)
    requires m.isPe && |m.bytes| == m.imageSize && r.trailerRva + 12 <= |m.bytes|
    requires m.bytes[r.trailerRva..r.trailerRva + 12] == EntryBytes(e)
    ensures NextEntry(m, r) == if Usable(m, e) then Some(e) else None
  {
    hide EntryBytes, ReadRuntimeFunction;
    EntryReads(e);
    UsableIsValid(m, e);
  }

  lemma NoRoomNoNext(m: LoadedModule, r: Record)
    requires r.trailerRva + 12 > |m.bytes|
    ensures NextEntry(m, r) == None
  {
  }

  /** From the entry on, each record's trailer leads to the next of the list. */
  ghost predicate Path(m: LoadedModule, entry: RuntimeFunction, rs: seq<Record>)
    decreases |rs|
  {
    && rs != [] && ReadChecked(m, entry) == Some(rs[0])
    && (|rs| > 1 ==> rs[0].Chained() && NextEntry(m, rs[0]).Some? && Path(m, NextEntry(m, rs[0]).value, rs[1..]))
  }

  /** A path to a record that is not chained: the whole chain. */
  ghost predicate WholeChain(m: LoadedModule, entry: RuntimeFunction, rs: seq<Record>) {
    rs != [] && Path(m, entry, rs) && !rs[|rs| - 1].Chained()
  }

  /** All records name one frame; the last sets it up, if there is one, and its handler is in the image. */
  ghost predicate Consistent(m: LoadedModule, rs: seq<Record>)
    requires rs != []
  {
    var last := rs[|rs| - 1];
    && (forall k :: 0 <= k < |rs| ==> rs[k].frameRegister == last.frameRegister && rs[k].frameOffset == last.frameOffset)
    && (last.frameRegister != 0 ==> last.hasFrameSetup)
    && (last.flags in {1, 2, 3} ==> HandlerRva(m, last).Some?)
  }

  lemma ReadHasFlags(m: LoadedModule, entry: RuntimeFunction)
    requires ReadChecked(m, entry).Some?
    ensures var r := ReadChecked(m, entry).value; !r.Chained() ==> (r.HasHandler() <==> r.flags in {1, 2, 3})
  {
    hide Validate;
    V2.ReadCheckedIsSound(m, entry);
    ParsedRecord(m, entry.unwindData);
  }

  lemma WholeChainTail(m: LoadedModule, entry: RuntimeFunction, rs: seq<Record>)
    requires WholeChain(m, entry, rs)
    ensures |rs| > 1 <==> rs[0].Chained()
    ensures |rs| > 1 ==> NextEntry(m, rs[0]).Some? && WholeChain(m, NextEntry(m, rs[0]).value, rs[1..])
  {
    hide ReadChecked, NextEntry;
    if |rs| > 1 {
      assert rs[1..][|rs| - 2] == rs[|rs| - 1];
    }
  }

  lemma ConsistentTail(m: LoadedModule, rs: seq<Record>)
    requires |rs| > 1
    ensures Consistent(m, rs) <==> Consistent(m, rs[1..]) && rs[1].frameRegister == rs[0].frameRegister && rs[1].frameOffset == rs[0].frameOffset
  {
    hide HandlerRva;
    var rest := rs[1..];
    assert rest[|rest| - 1] == rs[|rs| - 1] && rest[0] == rs[1];
    assert forall k :: 0 <= k < |rest| ==> rest[k] == rs[k + 1];
    assert forall k :: 1 <= k < |rs| ==> rs[k] == rest[k - 1];
  }

  lemma {:induction false} ChainIsValid(m: LoadedModule, entry: RuntimeFunction, rs: seq<Record>, depth: nat, frameRegister: nat, frameOffset: nat)
    requires WholeChain(m, entry, rs) && depth <= MAX_CHAIN_DEPTH
    ensures ValidateFrom(m, entry, depth, frameRegister, frameOffset).Ok? <==>
            && depth + |rs| <= MAX_CHAIN_DEPTH && Consistent(m, rs)
            && (depth > 0 ==> rs[0].frameRegister == frameRegister && rs[0].frameOffset == frameOffset)
    decreases |rs|
  {
    hide ReadChecked, NextEntry, HandlerRva, Path, Record.Chained, Record.HasHandler;
    assert ReadChecked(m, entry) == Some(rs[0]) by { PathStarts(m, entry, rs); }
    WholeChainTail(m, entry, rs);
    if depth < MAX_CHAIN_DEPTH {
      if |rs| > 1 {
        ConsistentTail(m, rs);
        ChainIsValid(m, NextEntry(m, rs[0]).value, rs[1..], depth + 1, rs[0].frameRegister, rs[0].frameOffset);
      } else {
        ReadHasFlags(m, entry);
      }
    }
  }

  lemma PathStarts(m: LoadedModule, entry: RuntimeFunction, rs: seq<Record>)
    requires Path(m, entry, rs)
    ensures ReadChecked(m, entry) == Some(rs[0])
  {
    hide ReadChecked, NextEntry;
  }

  lemma {:induction false} ValidIsWhole(m: LoadedModule, entry: RuntimeFunction, depth: nat, frameRegister: nat, frameOffset: nat)
    returns (rs: seq<Record>)
    requires depth <= MAX_CHAIN_DEPTH && ValidateFrom(m, entry, depth, frameRegister, frameOffset).Ok?
    ensures WholeChain(m, entry, rs)
    decreases MAX_CHAIN_DEPTH - depth
  {
    hide ReadChecked, NextEntry, HandlerRva;
    var r := ReadChecked(m, entry).value;
    if r.Chained() {
      var next := NextEntry(m, r).value;
      var rest := ValidIsWhole(m, next, depth + 1, r.frameRegister, r.frameOffset);
      rs := [r] + rest;
      assert rs[1..] == rest && rs[|rs| - 1] == rest[|rest| - 1];
    } else {
      rs := [r];
    }
  }

  /**
   * A chain is valid if and only if its links lead, over at most 32 records that agree
   * on the frame, to one that is not chained, sets the frame up and has its handler in
   * the image. What is answered is the first record.
   */
  lemma ValidIffChain(m: LoadedModule, entry: RuntimeFunction, r: Record)
    ensures ValidateChain(m, entry) == Ok(r) <==>
            exists rs: seq<Record> :: WholeChain(m, entry, rs) && |rs| <= 32 && Consistent(m, rs) && rs[0] == r
  {
    hide ReadChecked, NextEntry, HandlerRva, ValidateFrom, Path, Consistent;
    if ValidateChain(m, entry) == Ok(r) {
      var rs := ValidIsWhole(m, entry, 0, 0, 0);
      ChainIsValid(m, entry, rs, 0, 0, 0);
      PathStarts(m, entry, rs);
      assert WholeChain(m, entry, rs) && |rs| <= 32 && Consistent(m, rs) && rs[0] == r;
    }
    forall rs: seq<Record> | WholeChain(m, entry, rs) && |rs| <= 32 && Consistent(m, rs) && rs[0] == r
      ensures ValidateChain(m, entry) == Ok(r)
    {
      ChainIsValid(m, entry, rs, 0, 0, 0);
      PathStarts(m, entry, rs);
    }
  }

  lemma {:induction false} LongIsRefused(m: LoadedModule, entry: RuntimeFunction, rs: seq<Record>, depth: nat, frameRegister: nat, frameOffset: nat)
    requires Path(m, entry, rs) && depth <= MAX_CHAIN_DEPTH < depth + |rs|
    requires forall k :: 0 <= k < |rs| ==> rs[k].frameRegister == rs[0].frameRegister && rs[k].frameOffset == rs[0].frameOffset
    requires depth > 0 ==> rs[0].frameRegister == frameRegister && rs[0].frameOffset == frameOffset
    ensures ValidateFrom(m, entry, depth, frameRegister, frameOffset) == Fail(ChainTooLong)
    decreases |rs|
  {
    hide ReadChecked, NextEntry, HandlerRva;
    if depth < MAX_CHAIN_DEPTH {
      assert forall k :: 0 <= k < |rs[1..]| ==> rs[1..][k] == rs[k + 1];
      LongIsRefused(m, NextEntry(m, rs[0]).value, rs[1..], depth + 1, rs[0].frameRegister, rs[0].frameOffset);
    }
  }

  /** Thirty-three records that agree on the frame are too many, and that is told from a bad chain. */
  lemma TooLongTold(m: LoadedModule, entry: RuntimeFunction, rs: seq<Record>)
    requires Path(m, entry, rs) && |rs| >= 33
    requires forall k :: 0 <= k < |rs| ==> rs[k].frameRegister == rs[0].frameRegister && rs[k].frameOffset == rs[0].frameOffset
    ensures ValidateChain(m, entry) == Fail(ChainTooLong)
  {
    hide Path;
    LongIsRefused(m, entry, rs, 0, 0, 0);
  }

  // Which record a declared epilogue replays

  /** The record saves a register by a push, or names a machine frame. */
  ghost predicate Pushes(r: Record)
    requires Sound(r)
  {
    exists k :: 0 <= k < |PrologueOps(r)| && (PrologueOps(r)[k].op.PushNonvol? || PrologueOps(r)[k].op.PushMachframe?)
  }

  lemma {:induction false} FirstPush(ops: seq<Code>, k: nat)
    requires k < |ops| && (ops[k].op.PushNonvol? || ops[k].op.PushMachframe?)
    requires forall i :: 0 <= i < k ==> !ops[i].op.PushNonvol? && !ops[i].op.PushMachframe?
    ensures V2.FromFirstPush(ops) == ops[k..]
  {
    if k > 0 {
      FirstPush(ops[1..], k - 1);
      assert ops[1..][k - 1..] == ops[k..];
    }
  }

  lemma {:induction false} NoPush(ops: seq<Code>)
    requires forall i :: 0 <= i < |ops| ==> !ops[i].op.PushNonvol? && !ops[i].op.PushMachframe?
    ensures V2.FromFirstPush(ops) == []
  {
    if ops != [] {
      NoPush(ops[1..]);
    }
  }

  lemma {:induction false} LeastPush(ops: seq<Code>, n: nat) returns (k: nat)
    requires n < |ops| && (ops[n].op.PushNonvol? || ops[n].op.PushMachframe?)
    ensures k <= n && (ops[k].op.PushNonvol? || ops[k].op.PushMachframe?)
    ensures forall i :: 0 <= i < k ==> !ops[i].op.PushNonvol? && !ops[i].op.PushMachframe?
  {
    if i :| 0 <= i < n && (ops[i].op.PushNonvol? || ops[i].op.PushMachframe?) {
      k := LeastPush(ops, i);
    } else {
      k := n;
    }
  }

  lemma PushesIffHasPush(r: Record)
    requires Sound(r)
    ensures Pushes(r) <==> V2.HasPush(PrologueOps(r))
  {
    hide Sound, PrologueOps, V2.FromFirstPush;
    var ops := PrologueOps(r);
    if Pushes(r) {
      var n :| 0 <= n < |ops| && (ops[n].op.PushNonvol? || ops[n].op.PushMachframe?);
      var k := LeastPush(ops, n);
      FirstPush(ops, k);
    } else {
      NoPush(ops);
    }
  }

  ghost predicate AllSound(rs: seq<Record>) {
    forall k :: 0 <= k < |rs| ==> Sound(rs[k])
  }

  lemma {:induction false} PathIsSound(m: LoadedModule, entry: RuntimeFunction, rs: seq<Record>)
    requires Path(m, entry, rs)
    ensures AllSound(rs)
    decreases |rs|
  {
    hide ReadChecked, NextEntry, Sound;
    V2.ReadCheckedIsSound(m, entry);
    if |rs| > 1 {
      PathIsSound(m, NextEntry(m, rs[0]).value, rs[1..]);
      assert forall k :: 1 <= k < |rs| ==> rs[k] == rs[1..][k - 1];
    }
  }

  ghost predicate NoPushFrom(rs: seq<Record>, from: nat)
    requires AllSound(rs)
  {
    forall k :: from <= k < |rs| ==> !Pushes(rs[k])
  }

  lemma NoPushTail(rs: seq<Record>, from: nat)
    requires AllSound(rs) && rs != [] && from >= 1
    ensures AllSound(rs[1..]) && (NoPushFrom(rs, from) <==> NoPushFrom(rs[1..], from - 1))
  {
    hide Sound, Pushes;
    var rest := rs[1..];
    assert forall k :: 1 <= k < |rs| ==> rs[k] == rest[k - 1];
    assert forall k :: 0 <= k < |rest| ==> rest[k] == rs[k + 1];
  }

  lemma {:induction false} ParentsChecked(m: LoadedModule, entry: RuntimeFunction, rs: seq<Record>, depth: nat)
    requires WholeChain(m, entry, rs) && AllSound(rs) && depth + |rs| <= MAX_CHAIN_DEPTH
    ensures V2.CheckParents(m, rs[0], depth) == if NoPushFrom(rs, 1) then Ok(()) else Fail(BadChain)
    decreases |rs|
  {
    hide ReadChecked, NextEntry, Path, Sound, PrologueOps, Pushes, V2.HasPush, Record.Chained;
    WholeChainTail(m, entry, rs);
    if |rs| > 1 {
      var next, rest := NextEntry(m, rs[0]).value, rs[1..];
      PathStarts(m, next, rest);
      NoPushTail(rs, 1);
      PushesIffHasPush(rest[0]);
      ParentsChecked(m, next, rest, depth + 1);
      assert NoPushFrom(rest, 0) <==> !Pushes(rest[0]) && NoPushFrom(rest, 1);
    }
  }

  /** The first record that pushes, or else the last. */
  ghost predicate Chosen(rs: seq<Record>, j: nat)
    requires AllSound(rs)
  {
    && j < |rs| && (forall k :: 0 <= k < j ==> !Pushes(rs[k]))
    && (Pushes(rs[j]) || j == |rs| - 1)
  }

  lemma {:induction false} ChosenIsSelected(m: LoadedModule, entry: RuntimeFunction, rs: seq<Record>, j: nat, depth: nat)
    requires WholeChain(m, entry, rs) && AllSound(rs) && Chosen(rs, j) && depth + |rs| <= MAX_CHAIN_DEPTH
    ensures V2.SelectRecord(m, entry, depth) == Ok(V2.Selected(rs[j], depth + j))
    ensures V2.CheckParents(m, rs[j], depth + j) == if NoPushFrom(rs, j + 1) then Ok(()) else Fail(BadChain)
    decreases j
  {
    hide ReadChecked, NextEntry, Path, Sound, PrologueOps, Pushes, V2.HasPush, Record.Chained;
    WholeChainTail(m, entry, rs);
    PathStarts(m, entry, rs);
    PushesIffHasPush(rs[0]);
    if j == 0 {
      ParentsChecked(m, entry, rs, depth);
    } else {
      var rest := rs[1..];
      NoPushTail(rs, j + 1);
      assert forall k :: 0 <= k < |rest| ==> rest[k] == rs[k + 1];
      assert Chosen(rest, j - 1);
      ChosenIsSelected(m, NextEntry(m, rs[0]).value, rest, j - 1, depth + 1);
    }
  }

  /**
   * Over a whole chain of at most 32 records: a declared epilogue replays the operations
   * from the first push on of the only record with a push, or just returns where no
   * record has one; two records with pushes are refused.
   */
  lemma ReplaysTheOnlyPushes(m: LoadedModule, entry: RuntimeFunction, rs: seq<Record>, j: nat, target: nat, cpu: Cpu, stack: Bounds, memory: Memory)
    requires WholeChain(m, entry, rs) && AllSound(rs) && |rs| <= 32 && Chosen(rs, j)
    ensures var unwound := V2.UnwindEpilogue(m, entry, target, cpu, stack, memory);
            && (!NoPushFrom(rs, j + 1) ==> unwound == Fail(BadChain))
            && (NoPushFrom(rs, j + 1) && !Pushes(rs[j]) ==> unwound == PopReturn(cpu, stack, memory))
            && (NoPushFrom(rs, j + 1) ==> forall k :: 0 <= k < |PrologueOps(rs[j])| && FirstAt(PrologueOps(rs[j]), k) ==>
                  unwound == V2.ReplayEpilogue(PrologueOps(rs[j])[k..], target, cpu, stack, memory))
  {
    hide ReadChecked, NextEntry, Path, Sound, PrologueOps, Record.Chained, PopReturn, V2.SelectRecord, V2.CheckParents, V2.FromFirstPush;
    ChosenIsSelected(m, entry, rs, j, 0);
    var ops := PrologueOps(rs[j]);
    if !Pushes(rs[j]) {
      NoPush(ops);
    }
    forall k | 0 <= k < |ops| && FirstAt(ops, k)
      ensures V2.FromFirstPush(ops) == ops[k..]
    {
      FirstPush(ops, k);
    }
  }

  /** Pushes, perhaps one eight-byte allocation, perhaps a machine frame, and nothing else. */
  predicate Replayable(ops: seq<Code>, n: nat, aligned: bool, interrupt: bool) {
    && n + (if aligned then 1 else 0) + (if interrupt then 1 else 0) == |ops|
    && (forall i :: 0 <= i < n ==> ops[i].op.PushNonvol?)
    && (aligned ==> ops[n].op == AllocSmall(8))
    && (interrupt ==> ops[|ops| - 1].op.PushMachframe?)
  }

  lemma {:induction false} PushesReplayed(ops: seq<Code>, current: nat, target: nat, cpu: Cpu, stack: Bounds, memory: Memory) returns (n: nat)
    requires V2.PopPushes(ops, current, target, cpu, stack, memory).Ok?
    ensures n <= |ops| && V2.PopPushes(ops, current, target, cpu, stack, memory).value.rest == ops[n..]
    ensures forall i :: 0 <= i < n ==> ops[i].op.PushNonvol?
    ensures n < |ops| ==> !ops[n].op.PushNonvol?
  {
    hide PopInteger;
    if ops == [] || !ops[0].op.PushNonvol? {
      n := 0;
      assert ops[0..] == ops;
    } else {
      var next := if current >= target then PopInteger(cpu, stack, memory, ops[0].op.number) else Ok(cpu);
      var more := PushesReplayed(ops[1..], current + V2.PopLength(ops[0].op.number), target, next.value, stack, memory);
      n := more + 1;
      assert ops[1..][more..] == ops[n..];
      assert forall i :: 1 <= i < n ==> ops[i] == ops[1..][i - 1];
    }
  }

  /** A declared epilogue is replayed only over operations that pops, an eight-byte pop and the exit can undo; any other are refused. */
  lemma ReplayedIsReplayable(ops: seq<Code>, target: nat, cpu: Cpu, stack: Bounds, memory: Memory) returns (n: nat, aligned: bool, interrupt: bool)
    requires V2.ReplayEpilogue(ops, target, cpu, stack, memory).Ok?
    ensures Replayable(ops, n, aligned, interrupt)
  {
    hide V2.PopPushes, Word;
    n := PushesReplayed(ops, 0, target, cpu, stack, memory);
    var rest := ops[n..];
    aligned := rest != [] && rest[0].op == AllocSmall(8);
    var last := if aligned then rest[1..] else rest;
    interrupt := last != [];
  }

  predicate FirstAt(ops: seq<Code>, k: nat)
    requires k < |ops|
  {
    && (ops[k].op.PushNonvol? || ops[k].op.PushMachframe?)
    && forall i :: 0 <= i < k ==> !ops[i].op.PushNonvol? && !ops[i].op.PushMachframe?
  }

  // Where declared epilogues lie

  /** An epilogue of the record's size starts there: a declared distance before the end, or at its own size before it. */
  predicate Declares(r: Record, entry: RuntimeFunction, start: int)
    requires r.epilogues.codeSlots <= Count(r.codes)
  {
    && r.epilogues.present
    && ((r.epilogues.implicitAtEnd && start + r.epilogues.size == entry.end) ||
        exists k :: 1 <= k < r.epilogues.codeSlots && DistanceAt(r, k) != 0 && start + DistanceAt(r, k) == entry.end)
  }

  /** Twelve bits: a low byte, and the high half of the byte after it. */
  function DistanceAt(r: Record, k: nat): nat
    requires k < Count(r.codes)
  {
    var low: nat, high: nat := r.codes[2 * k], r.codes[2 * k + 1] / 0x10;
    low + 0x100 * high
  }

  /** Every declared epilogue lies in the function, past its prologue. */
  lemma RangesMean(r: Record, entry: RuntimeFunction)
    requires Sound(r) && r.epilogues.codeSlots <= Count(r.codes)
    ensures RangesAreValid(r, entry) <==>
            && entry.begin < entry.end && entry.begin + r.prologueSize <= entry.end
            && forall start: int :: Declares(r, entry, start) ==>
                 entry.begin + r.prologueSize <= start && entry.begin <= start && start + r.epilogues.size <= entry.end
  {
    hide Sound;
    assert forall k :: 0 <= k < Count(r.codes) ==> DistanceAt(r, k) == Distance(r.codes, k);
    if entry.begin < entry.end && entry.begin + r.prologueSize <= entry.end {
      if RangesAreValid(r, entry) {
        forall start: int | Declares(r, entry, start)
          ensures entry.begin + r.prologueSize <= start && start + r.epilogues.size <= entry.end
        {
          StartsInside(r, entry, start);
        }
      }
      if r.epilogues.present && forall start: int :: Declares(r, entry, start) ==>
           entry.begin + r.prologueSize <= start && entry.begin <= start && start + r.epilogues.size <= entry.end
      {
        AllInside(r, entry);
      }
    }
  }

  lemma StartsInside(r: Record, entry: RuntimeFunction, start: int)
    requires Sound(r) && r.epilogues.codeSlots <= Count(r.codes) && RangesAreValid(r, entry) && Declares(r, entry, start)
    ensures entry.begin + r.prologueSize <= start && start + r.epilogues.size <= entry.end
  {
    hide Sound;
    if !(r.epilogues.implicitAtEnd && start + r.epilogues.size == entry.end) {
      var k :| 1 <= k < r.epilogues.codeSlots && DistanceAt(r, k) != 0 && start + DistanceAt(r, k) == entry.end;
      assert DescriptorFits(r, entry, k);
    }
  }

  lemma AllInside(r: Record, entry: RuntimeFunction)
    requires Sound(r) && r.epilogues.codeSlots <= Count(r.codes) && r.epilogues.present
    requires entry.begin < entry.end && entry.begin + r.prologueSize <= entry.end
    requires forall start: int :: Declares(r, entry, start) ==>
               entry.begin + r.prologueSize <= start && entry.begin <= start && start + r.epilogues.size <= entry.end
    ensures RangesAreValid(r, entry)
  {
    assert exists start: int :: Declares(r, entry, start) by { SomeDeclared(r, entry); }
    hide Sound, Distance;
    forall k | 1 <= k < r.epilogues.codeSlots
      ensures DescriptorFits(r, entry, k)
    {
      assert Distance(r.codes, k) == DistanceAt(r, k) by { SameDistance(r, k); }
      if DistanceAt(r, k) != 0 {
        assert Declares(r, entry, entry.end - DistanceAt(r, k));
      }
    }
    if r.epilogues.implicitAtEnd {
      assert Declares(r, entry, entry.end - r.epilogues.size);
    }
  }

  lemma SameDistance(r: Record, k: nat)
    requires k < Count(r.codes)
    ensures Distance(r.codes, k) == DistanceAt(r, k)
  {
  }

  lemma SomeDeclared(r: Record, entry: RuntimeFunction)
    requires Sound(r) && r.epilogues.codeSlots <= Count(r.codes) && r.epilogues.present
    ensures exists start: int :: Declares(r, entry, start)
  {
    PrefixMeaning(r.codes, r.version);
    if r.epilogues.implicitAtEnd {
      assert Declares(r, entry, entry.end - r.epilogues.size);
    } else {
      var k :| 1 <= k < r.epilogues.codeSlots && Distance(r.codes, k) != 0;
      assert Declares(r, entry, entry.end - DistanceAt(r, k));
    }
  }
}
