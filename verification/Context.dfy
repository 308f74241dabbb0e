/** The processor context, the guest stack and the checked accesses the unwinder makes to both. */
module Context {
  import opened Bytes

  /** Why an unwind step gives up. The C code reports most of these as one status. */
  datatype Reason =
    | StackBounds        // a read outside the thread's stack
    | Arithmetic         // a 64-bit addition would wrap
    | FrameBase          // the frame register is below its scaled offset
    | AllocationSize     // a large allocation of zero bytes or not a multiple of eight
    | BadOperation       // an operation code the interpreter does not know
    | BadRecord          // an unwind record that does not parse
    | BadChain           // a chained function entry that does not parse
    | BadHandler         // a handler address outside the image
    | ChainTooLong
    | InvalidArgument

  datatype Outcome<+T> = Ok(value: T) | Fail(reason: Reason) {
    predicate IsFailure() { Fail? }
    function PropagateFailure<U>(): Outcome<U>
      requires Fail?
    {
      Fail(reason)
    }
    function Extract(): T
      requires Ok?
    {
      value
    }
  }

  datatype M128 = M128(low: uint64, high: uint64)

  type IntegerFile = s: seq<uint64> | |s| == 16 witness seq(16, _ => 0)
  type XmmFile = s: seq<M128> | |s| == 16 witness seq(16, _ => M128(0, 0))

  const RAX: nat := 0
  const RSP: nat := 4

  predicate NonvolatileInteger(number: nat) {
    number == 3 || number == 5 || number == 6 || number == 7 || 12 <= number <= 15
  }

  predicate NonvolatileXmm(number: nat) {
    6 <= number <= 15
  }

  /** The value of the context fields the unwinder reads and writes. */
  datatype Cpu = Cpu(integer: IntegerFile, xmm: XmmFile, rip: uint64, eFlags: uint32, segCs: uint16, segSs: uint16) {
    function Rsp(): uint64 { integer[RSP] }

    function WithInteger(number: nat, value: uint64): (c: Cpu)
      requires number < 16
    {
      this.(integer := integer[number := value])
    }

    function WithRsp(value: uint64): (c: Cpu) {
      WithInteger(RSP, value)
    }

    function WithXmm(number: nat, value: M128): (c: Cpu)
      requires number < 16
    {
      this.(xmm := xmm[number := value])
    }
  }

  /** The caller-owned CONTEXT structure, updated in place. */
  class ContextRecord {
    var integer: IntegerFile
    var xmm: XmmFile
    var rip: uint64
    var eFlags: uint32
    var segCs: uint16
    var segSs: uint16

    function Value(): Cpu
      reads this
    {
      Cpu(integer, xmm, rip, eFlags, segCs, segSs)
    }

    constructor (value: Cpu)
      ensures Value() == value
    {
      integer, xmm, rip := value.integer, value.xmm, value.rip;
      eFlags, segCs, segSs := value.eFlags, value.segCs, value.segSs;
    }

    method Assign(value: Cpu)
      modifies this
      ensures Value() == value
    {
      integer, xmm, rip := value.integer, value.xmm, value.rip;
      eFlags, segCs, segSs := value.eFlags, value.segCs, value.segSs;
    }
  }

  /** Byte-addressed guest memory. */
  type Memory = int -> uint8

  datatype Bounds = Bounds(limit: uint64, base: uint64) {
    predicate Fits(address: int, size: nat) {
      limit < base && limit <= address <= base && size <= base - address
    }

    /** An RSP a frame may have: inside the stack and eight-byte aligned. */
    predicate FrameIsValid(address: int) {
      limit < base && limit <= address < base && address % 8 == 0
    }
  }

  function Slice(memory: Memory, address: int, n: nat): (s: seq<uint8>)
    ensures |s| == n
    ensures forall i :: 0 <= i < n ==> s[i] == memory(address + i)
  {
    seq(n, i requires 0 <= i < n => memory(address + i))
  }

  function Write(memory: Memory, address: int, bytes: seq<uint8>): Memory {
    (x: int) => if address <= x < address + |bytes| then bytes[x - address] else memory(x)
  }

  function Word(memory: Memory, address: int): uint64 {
    Load64(Slice(memory, address, 8))
  }

  function Xmmword(memory: Memory, address: int): M128 {
    M128(Word(memory, address), Word(memory, address + 8))
  }

  function WriteWord(memory: Memory, address: int, value: uint64): Memory {
    Write(memory, address, Store(value, 8))
  }

  function WriteXmmword(memory: Memory, address: int, value: M128): Memory {
    Write(memory, address, Store(value.low, 8) + Store(value.high, 8))
  }

  /** Two memories hold the same bytes in [address, address + size). */
  ghost predicate SameBytes(a: Memory, b: Memory, address: int, size: nat) {
    forall x :: address <= x < address + size ==> a(x) == b(x)
  }

  lemma SameWord(a: Memory, b: Memory, address: int)
    requires SameBytes(a, b, address, 8)
    ensures Word(a, address) == Word(b, address)
  {
    assert Slice(a, address, 8) == Slice(b, address, 8);
  }

  lemma SameXmmword(a: Memory, b: Memory, address: int)
    requires SameBytes(a, b, address, 16)
    ensures Xmmword(a, address) == Xmmword(b, address)
  {
    SameWord(a, b, address);
    SameWord(a, b, address + 8);
  }

  lemma SliceOfWrite(memory: Memory, address: int, bytes: seq<uint8>, from: nat, n: nat)
    requires from + n <= |bytes|
    ensures Slice(Write(memory, address, bytes), address + from, n) == bytes[from..from + n]
  {
  }

  lemma WordReadsBack(memory: Memory, address: int, value: uint64)
    ensures Word(WriteWord(memory, address, value), address) == value
  {
    SpanValues();
    var n := 8;
    LoadStore(value, n);
    var bytes := Store(value, n);
    SliceOfWrite(memory, address, bytes, 0, n);
    assert bytes[0..n] == bytes;
  }

  lemma XmmwordReadsBack(memory: Memory, address: int, value: M128)
    ensures Xmmword(WriteXmmword(memory, address, value), address) == value
  {
    SpanValues();
    var n := 8;
    LoadStore(value.low, n);
    LoadStore(value.high, n);
    var low, high := Store(value.low, n), Store(value.high, n);
    SliceOfWrite(memory, address, low + high, 0, n);
    SliceOfWrite(memory, address, low + high, n, n);
    assert (low + high)[0..n] == low && (low + high)[n..n + n] == high;
  }

  // Checked reads and additions

  function CheckedAdd(left: uint64, right: nat): Outcome<uint64> {
    if left + right < TWO_64 then Ok(left + right) else Fail(Arithmetic)
  }

  function ReadWord(stack: Bounds, memory: Memory, address: uint64): Outcome<uint64> {
    if stack.Fits(address, 8) then Ok(Word(memory, address)) else Fail(StackBounds)
  }

  function ReadXmmword(stack: Bounds, memory: Memory, address: uint64): Outcome<M128> {
    if stack.Fits(address, 16) then Ok(Xmmword(memory, address)) else Fail(StackBounds)
  }

  /** The value form of restore_integer. */
  function RestoreInteger(cpu: Cpu, stack: Bounds, memory: Memory, number: nat, address: uint64): Outcome<Cpu>
    requires number < 16
  {
    var value :- ReadWord(stack, memory, address);
    Ok(cpu.WithInteger(number, value))
  }

  function RestoreXmm(cpu: Cpu, stack: Bounds, memory: Memory, number: nat, address: uint64): Outcome<Cpu>
    requires number < 16
  {
    var value :- ReadXmmword(stack, memory, address);
    Ok(cpu.WithXmm(number, value))
  }

  function AddToRsp(cpu: Cpu, amount: nat): Outcome<Cpu> {
    var rsp :- CheckedAdd(cpu.Rsp(), amount);
    Ok(cpu.WithRsp(rsp))
  }

  /** One pop: read the register at RSP, then add eight to RSP. */
  function PopInteger(cpu: Cpu, stack: Bounds, memory: Memory, number: nat): Outcome<Cpu>
    requires number < 16
  {
    var restored :- RestoreInteger(cpu, stack, memory, number, cpu.Rsp());
    AddToRsp(restored, 8)
  }

  /** The return: RIP from the word at RSP, RSP past it. */
  function PopReturn(cpu: Cpu, stack: Bounds, memory: Memory): Outcome<Cpu> {
    var address :- ReadWord(stack, memory, cpu.Rsp());
    var popped :- AddToRsp(cpu, 8);
    Ok(popped.(rip := address))
  }
}
