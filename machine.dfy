/**
 * The DLX machine of the emulator: 32 general registers, the program
 * counter, the instruction register and a memory unit; one step fetches
 * the word at the program counter, advances the counter by four and runs
 * the instruction; run repeats steps until a halt word has been executed.
 */
module Emulator {
  import opened FixedWidth
  import opened Wrappers
  import opened InstructionLayout
  import opened MemoryUnit
  import opened Execution

  /** The words the machine reads, as stored: most significant byte first. */
  function BigEndianWord(b0: Byte, b1: Byte, b2: Byte, b3: Byte): (w: Uint32)
  {
    b0 * 0x100_0000 + b1 * 0x1_0000 + b2 * 0x100 + b3
  }

  /** What a little-endian host reads when it loads the four bytes as one uint32_t. */
  function HostWord(b0: Byte, b1: Byte, b2: Byte, b3: Byte): (w: Uint32)
  {
    b0 + b1 * 0x100 + b2 * 0x1_0000 + b3 * 0x100_0000
  }

  /** Reverses the byte order of a word: first the two halves trade places, then the bytes within each half. */
  function SwapBytes(w: Uint32): (r: Uint32)
    ensures r == BigEndianWord(w % 0x100, (w / 0x100) % 0x100, (w / 0x1_0000) % 0x100, w / 0x100_0000)
  {
    var t := (w % 0x1_0000) * 0x1_0000 + w / 0x1_0000;
    ReversedBytes(w, t);
    (t % 0x100) * 0x100 + ((t / 0x1_0000) % 0x100) * 0x100_0000
      + (t / 0x100) % 0x100 + (t / 0x100_0000) * 0x1_0000
  }

  /** The halves of w traded, then each half's bytes traded: the bytes of w in reverse order. */
  lemma ReversedBytes(w: Uint32, t: int)
    requires t == (w % 0x1_0000) * 0x1_0000 + w / 0x1_0000
    ensures (t % 0x100) * 0x100 + ((t / 0x1_0000) % 0x100) * 0x100_0000 + (t / 0x100) % 0x100 + (t / 0x100_0000) * 0x1_0000
            == BigEndianWord(w % 0x100, (w / 0x100) % 0x100, (w / 0x1_0000) % 0x100, w / 0x100_0000)
  {
    var b0, b1, b2, b3 := w % 0x100, (w / 0x100) % 0x100, (w / 0x1_0000) % 0x100, w / 0x100_0000;
    HostWordBytes(w);
    SplitHalf(w, b0 + b1 * 0x100, b2 + b3 * 0x100);
    assert t == (b2 + 0x100 * b3) + 0x1_0000 * (b0 + 0x100 * b1);
    SplitByte(t, b2, b3 + 0x100 * (b0 + 0x100 * b1));
    SplitByte(t / 0x100, b3, b0 + 0x100 * b1);
    SplitHalf(t, b2 + 0x100 * b3, b0 + 0x100 * b1);
    SplitByte(t / 0x1_0000, b0, b1);
    SplitTopByte(t, b2 + 0x100 * b3 + 0x1_0000 * b0, b1);
  }

  /** Division by 2^16 of a number written as lo + 2^16 * hi. */
  lemma SplitHalf(x: int, lo: int, hi: int)
    requires 0 <= lo < 0x1_0000 && x == lo + 0x1_0000 * hi
    ensures x % 0x1_0000 == lo && x / 0x1_0000 == hi
  {
  }

  /** Division by 2^8 of a number written as lo + 2^8 * hi. */
  lemma SplitByte(x: int, lo: int, hi: int)
    requires 0 <= lo < 0x100 && x == lo + 0x100 * hi
    ensures x % 0x100 == lo && x / 0x100 == hi
  {
  }

  /** Division by 2^24 of a number written as lo + 2^24 * hi. */
  lemma SplitTopByte(x: int, lo: int, hi: int)
    requires 0 <= lo < 0x100_0000 && x == lo + 0x100_0000 * hi
    ensures x / 0x100_0000 == hi
  {
  }

  /** Swapping the bytes of what a little-endian host read gives the big-endian reading of memory. */
  lemma SwapBytesOfHostWord(b0: Byte, b1: Byte, b2: Byte, b3: Byte)
    ensures SwapBytes(HostWord(b0, b1, b2, b3)) == BigEndianWord(b0, b1, b2, b3)
  {
    var w := HostWord(b0, b1, b2, b3);
    SplitByte(w, b0, b1 + 0x100 * (b2 + 0x100 * b3));
    SplitByte(w / 0x100, b1, b2 + 0x100 * b3);
    SplitHalf(w, b0 + b1 * 0x100, b2 + b3 * 0x100);
    SplitByte(w / 0x1_0000, b2, b3);
    SplitTopByte(w, b0 + 0x100 * b1 + 0x1_0000 * b2, b3);
  }

  /** Every word is what a little-endian host reads from its own four bytes. */
  lemma HostWordBytes(w: Uint32)
    ensures w == HostWord(w % 0x100, (w / 0x100) % 0x100, (w / 0x1_0000) % 0x100, w / 0x100_0000)
  {
    var q1 := w / 0x100;
    assert w == w % 0x100 + 0x100 * q1;
    var q2 := w / 0x1_0000;
    assert q2 == q1 / 0x100;
    assert q1 == q1 % 0x100 + 0x100 * q2;
    var q3 := w / 0x100_0000;
    assert q3 == q2 / 0x100;
    assert q2 == q2 % 0x100 + 0x100 * q3;
  }

  /** Swapping twice restores the word. */
  lemma SwapBytesInvolution(w: Uint32)
    ensures SwapBytes(SwapBytes(w)) == w
  {
    var b0, b1, b2, b3 := w % 0x100, (w / 0x100) % 0x100, (w / 0x1_0000) % 0x100, w / 0x100_0000;
    HostWordBytes(w);
    SwapBytesOfHostWord(b0, b1, b2, b3);
    assert SwapBytes(w) == HostWord(b3, b2, b1, b0);
    SwapBytesOfHostWord(b3, b2, b1, b0);
  }

  /**
   * The word at a byte offset of a block's buffer: four bytes read as one
   * little-endian host uint32_t, then put into the machine's big-endian order.
   */
  method ReadWord(storage: array<Byte>, offset: nat) returns (w: Uint32)
    requires offset + 4 <= storage.Length
    ensures w == BigEndianWord(storage[offset], storage[offset + 1], storage[offset + 2], storage[offset + 3])
  {
    var b0, b1, b2, b3 := storage[offset], storage[offset + 1], storage[offset + 2], storage[offset + 3];
    SwapBytesOfHostWord(b0, b1, b2, b3);
    w := SwapBytes(HostWord(b0, b1, b2, b3));
  }

  datatype MachineState = MachineState(registers: seq<Int32>, programCounter: Uint32, instructionRegister: Uint32)

  predicate ValidState(s: MachineState)
  {
    |s.registers| == 32
  }

  datatype StepStatus = Stepped | OutOfRange | UndefinedBehaviour
  datatype StepResult = StepResult(status: StepStatus, state: MachineState)

  /**
   * The word a block holds for the program counter: the counter's offset
   * into the block, rounded down to a multiple of four, read big-endian;
   * None where the four bytes would run past the block's buffer.
   */
  function Fetch(block: BlockView, pc: Uint32): (r: Option<Uint32>)
    requires block.start <= pc
    ensures r.Some? <==> pc - block.start < 4 * (|block.bytes| / 4)
    ensures var offset := (pc - block.start) - (pc - block.start) % 4;
            r.Some? ==> r.value == BigEndianWord(block.bytes[offset], block.bytes[offset + 1], block.bytes[offset + 2], block.bytes[offset + 3])
  {
    var offset := 4 * ((pc - block.start) / 4);
    if offset + 4 <= |block.bytes| then
      Some(BigEndianWord(block.bytes[offset], block.bytes[offset + 1], block.bytes[offset + 2], block.bytes[offset + 3]))
    else None
  }

  datatype Fetched = Unmapped | PastEnd | Word(word: Uint32)

  /** The word the program counter selects: in the first block holding the address, if any. */
  function FetchSpec(mem: seq<BlockView>, pc: Uint32): (r: Fetched)
    ensures r.Unmapped? <==> FindBlock(mem, pc).None?
  {
    match FindBlock(mem, pc)
    case None => Unmapped
    case Some(i) =>
      match Fetch(mem[i], pc)
      case None => PastEnd
      case Some(word) => Word(word)
  }

  /** Fetch in terms of the word index into the block. */
  lemma FetchAt(b: BlockView, pc: Uint32, index: int)
    requires b.start <= pc && index == (pc - b.start) / 4
    ensures 4 * index + 4 <= |b.bytes| ==>
      Fetch(b, pc) == Some(BigEndianWord(b.bytes[4 * index], b.bytes[4 * index + 1], b.bytes[4 * index + 2], b.bytes[4 * index + 3]))
    ensures 4 * index + 4 > |b.bytes| ==> Fetch(b, pc) == None
  {
  }

  /** One step of the machine over the memory `mem`. */
  function StepSpec(s: MachineState, mem: seq<BlockView>): (r: StepResult)
    requires ValidState(s)
    ensures ValidState(r.state)
    ensures r.status == OutOfRange <==> FindBlock(mem, s.programCounter).None?
    ensures r.status == OutOfRange ==> r.state == s
  {
    match FetchSpec(mem, s.programCounter)
    case Unmapped => StepResult(OutOfRange, s)
    case PastEnd => StepResult(UndefinedBehaviour, s)
    case Word(word) => ExecuteWord(s, word, Wrap32(s.programCounter + 4))
  }

  /** The part of a step after the fetch, with pc the counter already advanced by four: the word runs. */
  function ExecuteWord(s: MachineState, word: Uint32, pc: Uint32): (r: StepResult)
    requires ValidState(s)
    ensures ValidState(r.state) && r.status != OutOfRange
    ensures r.state.instructionRegister == word
  {
    RetireSpec(s, word, pc, Dispatch(word, s.registers, pc))
  }

  /**
   * The end of a step once the word's effect is known: the word is in the
   * instruction register, the counter holds its advanced value pc, and the
   * effect is applied; an undefined effect stops the step.
   */
  function RetireSpec(s: MachineState, word: Uint32, pc: Uint32, effect: Effect): (r: StepResult)
    requires ValidState(s) && Applicable(effect)
    ensures ValidState(r.state) && r.state.instructionRegister == word
    ensures r.status == (if effect.Undefined? then UndefinedBehaviour else Stepped)
    ensures effect.Undefined? ==> r.state == MachineState(s.registers, pc, word)
  {
    if effect.Undefined? then StepResult(UndefinedBehaviour, MachineState(s.registers, pc, word))
    else
      var after := Apply(effect, s.registers, pc);
      StepResult(Stepped, MachineState(after.0, after.1, word))
  }

  /** A step runs to its end with the counter advanced to pc. */
  lemma ExecuteWordRetires(s: MachineState, word: Uint32, pc: Uint32, e: Effect)
    requires ValidState(s) && Dispatch(word, s.registers, pc) == e && Applicable(e)
    ensures ExecuteWord(s, word, pc) == RetireSpec(s, word, pc, e)
  {
  }

  /** The decode stage: the effect the dispatch tables select for the word, and how the step then ends. */
  method Decode(ghost s: MachineState, word: Uint32, regs: seq<Int32>, pc: Uint32) returns (effect: Effect)
    requires ValidState(s) && regs == s.registers
    ensures Applicable(effect) && ExecuteWord(s, word, pc) == RetireSpec(s, word, pc, effect)
  {
    effect := Dispatch(word, regs, pc);
    ExecuteWordRetires(s, word, pc, effect);
  }

  /** A step whose word would run past the block's buffer is undefined and changes nothing. */
  lemma StepSpecPastEnd(s: MachineState, mem: seq<BlockView>)
    requires ValidState(s) && FetchSpec(mem, s.programCounter) == PastEnd
    ensures StepSpec(s, mem) == StepResult(UndefinedBehaviour, s)
  {
  }

  /** The halt word: a register-to-register word (opcode 0) with modifier 1. */
  function IsHalt(ir: Uint32): (halt: bool)
    ensures halt <==> DecodeR(ir).opcode == 0 && DecodeR(ir).modifier == 1
  {
    ir / TWO_26 == 0 && ir % 0x40 == 1
  }

  datatype RunStatus = Halted | RunOutOfRange | RunUndefined | Exhausted
  datatype RunResult = RunResult(status: RunStatus, state: MachineState)

  /** Steps until the last executed word is halt, a step fails, or `fuel` steps have been taken. */
  function RunLoop(s: MachineState, mem: seq<BlockView>, fuel: nat): (r: RunResult)
    requires ValidState(s)
    ensures ValidState(r.state)
    ensures r.status == Halted ==> IsHalt(r.state.instructionRegister)
    decreases fuel
  {
    if IsHalt(s.instructionRegister) then RunResult(Halted, s)
    else if fuel == 0 then RunResult(Exhausted, s)
    else
      var next := StepSpec(s, mem);
      match next.status
      case Stepped => RunLoop(next.state, mem, fuel - 1)
      case OutOfRange => RunResult(RunOutOfRange, next.state)
      case UndefinedBehaviour => RunResult(RunUndefined, next.state)
  }

  /** A turn of the run loop that steps successfully continues from the stepped state with one step less. */
  lemma RunLoopTurn(s: MachineState, mem: seq<BlockView>, fuel: nat)
    requires ValidState(s) && !IsHalt(s.instructionRegister) && fuel > 0
    requires StepSpec(s, mem).status == Stepped
    ensures RunLoop(s, mem, fuel) == RunLoop(StepSpec(s, mem).state, mem, fuel - 1)
  {
  }

  /** run() clears the instruction register and then steps. */
  function RunSpec(s: MachineState, mem: seq<BlockView>, fuel: nat): (r: RunResult)
    requires ValidState(s)
    ensures ValidState(r.state)
    ensures r.status == Halted ==> IsHalt(r.state.instructionRegister)
    ensures fuel == 0 ==> r == RunResult(Exhausted, s.(instructionRegister := 0))
  {
    RunLoop(s.(instructionRegister := 0), mem, fuel)
  }

  class DLXMachine {
    const mem: Memory
    const registers: array<Int32>
    /** The register values, as a sequence. */
    ghost var registerValues: seq<Int32>
    var programCounter: Uint32
    var instructionRegister: Uint32
    var processorStatusWord: Int32
    var exceptionAddress: Int32
    var exceptionBase: Int32

    ghost predicate Valid()
      reads this, registers, mem, mem.Repr
    {
      registers.Length == 32 && registers[..] == registerValues &&
      mem.Valid() && this !in mem.Repr && registers !in mem.Repr
    }

    ghost function State(): (s: MachineState)
      reads this
    {
      MachineState(registerValues, programCounter, instructionRegister)
    }

    /**
     * A machine over one zero-filled block: all registers zero and the
     * program counter at UINT_MAX. The instruction register is left
     * indeterminate, as the C++ leaves it.
     */
    constructor (startAddress: Uint32, endAddress: Uint32)
      requires startAddress <= endAddress
      ensures Valid() && fresh(registers) && fresh(mem.Repr)
      ensures registers[..] == seq(32, _ => 0) && programCounter == TWO_32 - 1
      ensures mem.contents == [BlockView(startAddress, endAddress, seq(endAddress - startAddress, _ => 0))]
    {
      mem := new Memory(startAddress, endAddress);
      registers := new Int32[32](_ => 0);
      registerValues := seq(32, _ => 0);
      programCounter := TWO_32 - 1;
      processorStatusWord, exceptionAddress, exceptionBase := 0, 0, 0;
    }

    function ProgramCounter(): Uint32
      reads this
    {
      programCounter
    }

    method SetProgramCounter(address: Uint32)
      modifies this`programCounter
      ensures programCounter == address
    {
      programCounter := address;
    }

    /** An assignment to one register of the register file. */
    method SetRegister(k: nat, v: Int32)
      requires Valid() && k < 32
      modifies this`registerValues, registers
      ensures Valid() && registerValues == old(registerValues)[k := v]
    {
      registers[k] := v;
      registerValues := registerValues[k := v];
      assert registers[..] == registerValues;
    }

    /** The register-to-register, immediate and long-immediate views of the instruction register. */
    function InstructionR(): FormatR
      reads this
    {
      DecodeR(instructionRegister)
    }

    function InstructionI(): FormatI
      reads this
    {
      DecodeI(instructionRegister)
    }

    function InstructionL(): FormatL
      reads this
    {
      DecodeL(instructionRegister)
    }

    /** The first block that contains the address, or null. */
    method Block(address: Uint32) returns (block: MemoryBlock?)
      requires Valid()
      ensures FindBlock(mem.contents, address).None? ==> block == null
      ensures FindBlock(mem.contents, address).Some? ==> block == mem.blocks[FindBlock(mem.contents, address).value]
      ensures block != null ==> mem.contents[FindBlock(mem.contents, address).value]
                                  == BlockView(block.startAddress, block.endAddress, block.storage[..])
    {
      block := mem.Lookup(address);
    }

    /**
     * The word at the program counter: the first block holding the address,
     * the offset rounded down to a whole word, four bytes read as a host
     * uint32_t and then byte-swapped.
     */
    method FetchInstruction() returns (r: Fetched)
      requires Valid()
      ensures r == FetchSpec(mem.contents, programCounter)
    {
      ghost var view := mem.contents;
      var block := Block(programCounter);
      if block == null {
        return Unmapped;
      }
      ghost var i := FindBlock(view, programCounter).value;
      var storage := block.storage;
      ghost var b := view[i];
      var index := (programCounter - block.startAddress) / 4;
      if 4 * index + 4 > storage.Length {
        FetchAt(b, programCounter, index);
        return PastEnd;
      }
      var word := ReadWord(storage, 4 * index);
      FetchAt(b, programCounter, index);
      r := Word(word);
    }

    /** Execute the next instruction. */
    method Step() returns (status: StepStatus)
      requires Valid()
      modifies this, registers
      ensures Valid()
      ensures StepResult(status, State()) == StepSpec(old(State()), mem.contents)
    {
      var fetched := FetchInstruction();
      if fetched.Unmapped? {
        return OutOfRange;
      } else if fetched.PastEnd? {
        StepSpecPastEnd(State(), mem.contents);
        return UndefinedBehaviour;
      }
      status := ExecuteFetched(fetched.word, State());
    }

    /** The fetched word runs: the counter advances by four and the word's effect is applied. */
    method ExecuteFetched(word: Uint32, ghost s: MachineState) returns (status: StepStatus)
      requires Valid() && s == State()
      modifies this, registers
      ensures Valid()
      ensures StepResult(status, State()) == ExecuteWord(s, word, Wrap32(s.programCounter + 4))
    {
      var pc := Wrap32(programCounter + 4);
      assert pc == Wrap32(s.programCounter + 4);
      var effect := Decode(s, word, registers[..], pc);
      ghost var expected := RetireSpec(s, word, pc, effect);
      status := Retire(word, effect);
      assert StepResult(status, State()) == expected;
    }

    /**
     * The end of a step: the fetched word is in the instruction register,
     * the program counter has advanced by four, and then the instruction's
     * register write or program-counter change is carried out.
     */
    method Retire(word: Uint32, effect: Effect) returns (status: StepStatus)
      requires Valid() && Applicable(effect)
      modifies this, registers
      ensures Valid()
      ensures StepResult(status, State()) == RetireSpec(old(State()), word, Wrap32(old(programCounter) + 4), effect)
    {
      instructionRegister := word;
      programCounter := Wrap32(programCounter + 4);
      if effect.Undefined? {
        return UndefinedBehaviour;
      }
      match effect {
        case WriteRegister(k, v) =>
          SetRegister(k, v);
        case SetProgramCounter(a) =>
          SetProgramCounter(a);
        case LinkAndJump(link, a) =>
          SetRegister(31, link);
          SetProgramCounter(a);
        case NoEffect =>
      }
      status := Stepped;
    }

    /** Keep executing until a halt instruction has been executed, a step fails, or `fuel` steps were taken. */
    method Run(fuel: nat) returns (status: RunStatus)
      requires Valid()
      modifies this, registers
      ensures Valid()
      ensures RunResult(status, State()) == RunSpec(old(State()), mem.contents, fuel)
    {
      ghost var view := mem.contents;
      ghost var goal := RunSpec(State(), view, fuel);
      instructionRegister := 0;
      var remaining := fuel;
      while !IsHalt(instructionRegister)
        invariant Valid()
        invariant RunLoop(State(), view, remaining) == goal
        decreases remaining
      {
        if remaining == 0 {
          return Exhausted;
        }
        var stepped := Step();
        if stepped == OutOfRange {
          return RunOutOfRange;
        } else if stepped == UndefinedBehaviour {
          return RunUndefined;
        }
        remaining := remaining - 1;
      }
      status := Halted;
    }
  }
}
