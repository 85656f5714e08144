/**
 * The emulator's built-in test program: seven words that add 3 to r1 a
 * thousand times, counting in r2, and halt. The words are copied into the
 * machine's one block of RAM [0, 0x10000) after byte-swapping, the program
 * counter is set to 0, seven single steps are taken with the register
 * values checked after them, and then the machine runs until halt.
 */
module ProgramTest {
  import opened FixedWidth
  import opened Wrappers
  import opened MemoryUnit
  import opened InstructionLayout
  import opened Execution
  import opened Emulator

  /**
   * addi r1,r0,0; addi r2,r0,0; addi r1,r1,3; addi r2,r2,1;
   * slti r3,r2,1000; bnez r3,-16; halt
   */
  const PROGRAM: seq<Uint32> :=
    [0x20010000, 0x20020000, 0x20210003, 0x20420001, 0x684303E8, 0x1460FFF0, 0x00000001]

  const RAM_END: Uint32 := 0x10000

  /** The program's words, most significant byte first. */
  const PROGRAM_BYTES: seq<Byte> :=
    [0x20, 0x01, 0x00, 0x00, 0x20, 0x02, 0x00, 0x00, 0x20, 0x21, 0x00, 0x03, 0x20, 0x42, 0x00, 0x01,
     0x68, 0x43, 0x03, 0xE8, 0x14, 0x60, 0xFF, 0xF0, 0x00, 0x00, 0x00, 0x01]

  /**
   * Copying the byte-swapped words into memory, as a little-endian host
   * lays out each uint32_t, puts exactly these bytes there.
   */
  lemma ProgramImage(i: nat)
    requires i < |PROGRAM|
    ensures HostWord(PROGRAM_BYTES[4 * i], PROGRAM_BYTES[4 * i + 1], PROGRAM_BYTES[4 * i + 2], PROGRAM_BYTES[4 * i + 3])
            == SwapBytes(PROGRAM[i])
    ensures BigEndianWord(PROGRAM_BYTES[4 * i], PROGRAM_BYTES[4 * i + 1], PROGRAM_BYTES[4 * i + 2], PROGRAM_BYTES[4 * i + 3])
            == PROGRAM[i]
  {
    var b0, b1, b2, b3 := PROGRAM_BYTES[4 * i], PROGRAM_BYTES[4 * i + 1], PROGRAM_BYTES[4 * i + 2], PROGRAM_BYTES[4 * i + 3];
    assert BigEndianWord(b0, b1, b2, b3) == PROGRAM[i];
    SwapBytesOfHostWord(b0, b1, b2, b3);
    SwapBytesInvolution(HostWord(b0, b1, b2, b3));
  }

  /** The memory once the program is in place: the rest of the block is still zero. */
  function LoadedMemory(): (m: seq<BlockView>)
    ensures WellFormed(m)
  {
    [BlockView(0, RAM_END, PROGRAM_BYTES + seq(RAM_END - |PROGRAM_BYTES|, _ => 0))]
  }

  /** r1, r2 and r3 hold the given values; every other register is zero. */
  function Registers(r1: Int32, r2: Int32, r3: Int32): (regs: seq<Int32>)
    ensures |regs| == 32 && regs[1] == r1 && regs[2] == r2 && regs[3] == r3
    ensures forall j :: 0 <= j < 32 && j !in {1, 2, 3} ==> regs[j] == 0
  {
    seq(32, j => if j == 1 then r1 else if j == 2 then r2 else if j == 3 then r3 else 0)
  }

  /** The word at the address 4i is the program's word i. */
  lemma FetchProgram(i: nat)
    requires i < |PROGRAM|
    ensures FetchSpec(LoadedMemory(), 4 * i) == Word(PROGRAM[i])
  {
    var b := LoadedMemory()[0];
    assert FindBlock(LoadedMemory(), 4 * i) == Some(0);
    FetchAt(b, 4 * i, i);
    ProgramImage(i);
    assert b.bytes[4 * i] == PROGRAM_BYTES[4 * i] && b.bytes[4 * i + 1] == PROGRAM_BYTES[4 * i + 1];
    assert b.bytes[4 * i + 2] == PROGRAM_BYTES[4 * i + 2] && b.bytes[4 * i + 3] == PROGRAM_BYTES[4 * i + 3];
  }

  /** A step at the address 4i runs the program's word i. */
  lemma StepProgram(s: MachineState, i: nat)
    requires ValidState(s) && i < |PROGRAM| && s.programCounter == 4 * i
    ensures StepSpec(s, LoadedMemory()) == ExecuteWord(s, PROGRAM[i], 4 * i + 4)
  {
    FetchProgram(i);
    Wrap32Small(4 * i + 4);
    assert FetchSpec(LoadedMemory(), s.programCounter) == Word(PROGRAM[i]);
  }

  // The effect of each word of the program, read off its fields.

  /** Words 0 and 1, addi r1,r0,0 and addi r2,r0,0, copy r0 into r1 and r2. */
  lemma AddImmediateWords(regs: seq<Int32>, pc: Uint32)
    requires |regs| == 32
    ensures Dispatch(PROGRAM[0], regs, pc) == WriteRegister(1, regs[0])
    ensures Dispatch(PROGRAM[1], regs, pc) == WriteRegister(2, regs[0])
  {
    assert DecodeI(PROGRAM[0]) == FormatI(0, 0, 1, 0, 8);
    assert DecodeI(PROGRAM[1]) == FormatI(0, 0, 2, 0, 8);
  }

  /** Words 2 and 3, addi r1,r1,3 and addi r2,r2,1, add where the sum fits int32_t. */
  lemma IncrementWords(regs: seq<Int32>, pc: Uint32)
    requires |regs| == 32
    ensures InInt32(regs[1] as int + 3) ==> Dispatch(PROGRAM[2], regs, pc) == WriteRegister(1, regs[1] as int + 3)
    ensures InInt32(regs[2] as int + 1) ==> Dispatch(PROGRAM[3], regs, pc) == WriteRegister(2, regs[2] as int + 1)
  {
    assert DecodeI(PROGRAM[2]) == FormatI(3, 3, 1, 1, 8);
    assert DecodeI(PROGRAM[3]) == FormatI(1, 1, 2, 2, 8);
  }

  lemma SetLessWord(regs: seq<Int32>, pc: Uint32)
    requires |regs| == 32
    ensures Dispatch(PROGRAM[4], regs, pc) == Flag(3, regs[2] < 1000)
  {
    assert DecodeI(PROGRAM[4]) == FormatI(1000, 1000, 3, 2, 26);
  }

  lemma BranchWord(regs: seq<Int32>, pc: Uint32)
    requires |regs| == 32
    ensures Dispatch(PROGRAM[5], regs, pc) == if regs[3] != 0 then SetProgramCounter(Wrap32(pc - 16)) else NoEffect
  {
    assert DecodeI(PROGRAM[5]) == FormatI(-16, 0xFFF0, 0, 3, 5);
  }

  lemma HaltWord(regs: seq<Int32>, pc: Uint32)
    requires |regs| == 32
    ensures Dispatch(PROGRAM[6], regs, pc) == NoEffect
    ensures IsHalt(PROGRAM[6])
  {
    assert DecodeI(PROGRAM[6]).opcode == 0 && DecodeR(PROGRAM[6]).modifier == 1;
  }

  /** A step at the address 4i whose word has effect e. */
  lemma StepEffect(s: MachineState, i: nat, e: Effect)
    requires ValidState(s) && i < |PROGRAM| && s.programCounter == 4 * i
    requires Dispatch(PROGRAM[i], s.registers, 4 * i + 4) == e && !e.Undefined?
    ensures var after := Apply(e, s.registers, 4 * i + 4);
      StepSpec(s, LoadedMemory()) == StepResult(Stepped, MachineState(after.0, after.1, PROGRAM[i]))
  {
    StepProgram(s, i);
    ExecuteWordRetires(s, PROGRAM[i], 4 * i + 4, e);
  }

  /** Words 0 to 3 are addi rj,ri,K: rj := ri + K. */
  lemma StepAddImmediate(s: MachineState, i: nat, ri: nat, rj: nat, k: int)
    requires ValidState(s) && i < 4 && s.programCounter == 4 * i
    requires (i == 0 && ri == 0 && rj == 1 && k == 0) || (i == 1 && ri == 0 && rj == 2 && k == 0) ||
             (i == 2 && ri == 1 && rj == 1 && k == 3) || (i == 3 && ri == 2 && rj == 2 && k == 1)
    requires InInt32(s.registers[ri] as int + k)
    ensures StepSpec(s, LoadedMemory())
      == StepResult(Stepped, MachineState(s.registers[rj := s.registers[ri] as int + k], 4 * i + 4, PROGRAM[i]))
  {
    AddImmediateWords(s.registers, 4 * i + 4);
    IncrementWords(s.registers, 4 * i + 4);
    StepEffect(s, i, WriteRegister(rj, s.registers[ri] as int + k));
  }

  /** Word 4 is slti r3,r2,1000. */
  lemma StepSetLess(s: MachineState)
    requires ValidState(s) && s.programCounter == 16
    ensures StepSpec(s, LoadedMemory())
      == StepResult(Stepped, MachineState(s.registers[3 := if s.registers[2] < 1000 then 1 else 0], 20, PROGRAM[4]))
  {
    SetLessWord(s.registers, 20);
    StepEffect(s, 4, Flag(3, s.registers[2] < 1000));
  }

  /** Word 5 is bnez r3,-16: back to the address 8 unless r3 is zero. */
  lemma StepBranch(s: MachineState)
    requires ValidState(s) && s.programCounter == 20
    ensures StepSpec(s, LoadedMemory())
      == StepResult(Stepped, MachineState(s.registers, if s.registers[3] != 0 then 8 else 24, PROGRAM[5]))
  {
    BranchWord(s.registers, 24);
    StepEffect(s, 5, if s.registers[3] != 0 then SetProgramCounter(8) else NoEffect);
  }

  /** Word 6 is halt: the counter moves past it and the instruction register decodes as halt. */
  lemma StepHalt(s: MachineState)
    requires ValidState(s) && s.programCounter == 24
    ensures StepSpec(s, LoadedMemory()) == StepResult(Stepped, MachineState(s.registers, 28, PROGRAM[6]))
    ensures IsHalt(PROGRAM[6])
  {
    HaltWord(s.registers, 28);
    StepEffect(s, 6, NoEffect);
  }

  /** The state at the address 12 in turn k of the loop: r1 = 3k and r2 = k - 1. */
  function LoopState(k: int, ir: Uint32): (s: MachineState)
    requires 2 <= k <= 1000
    ensures ValidState(s)
  {
    MachineState(Registers(3 * k, k - 1, 1), 12, ir)
  }

  /** The states of turn k of the loop, at the addresses 16, 20 and 8. */
  function Counted(k: int): (s: MachineState)
    requires 2 <= k <= 1000
    ensures ValidState(s)
  {
    MachineState(Registers(3 * k, k, 1), 16, PROGRAM[3])
  }

  function Compared(k: int): (s: MachineState)
    requires 2 <= k <= 1000
    ensures ValidState(s)
  {
    MachineState(Registers(3 * k, k, if k < 1000 then 1 else 0), 20, PROGRAM[4])
  }

  function Branched(k: int): (s: MachineState)
    requires 2 <= k <= 1000
    ensures ValidState(s)
  {
    MachineState(Registers(3 * k, k, if k < 1000 then 1 else 0), if k < 1000 then 8 else 24, PROGRAM[5])
  }

  /** From s, every run of at least n steps equals the run from t with n steps less. */
  ghost predicate Leads(s: MachineState, t: MachineState, n: nat)
    requires ValidState(s) && ValidState(t)
  {
    forall fuel: nat :: fuel >= n ==> RunLoop(s, LoadedMemory(), fuel) == RunLoop(t, LoadedMemory(), fuel - n)
  }

  /** From s, every run of at least n steps ends in r. */
  ghost predicate Ends(s: MachineState, n: nat, r: RunResult)
    requires ValidState(s)
  {
    forall fuel: nat :: fuel >= n ==> RunLoop(s, LoadedMemory(), fuel) == r
  }

  lemma LeadsTrans(a: MachineState, b: MachineState, c: MachineState, m: nat, n: nat)
    requires ValidState(a) && ValidState(b) && ValidState(c)
    requires Leads(a, b, m) && Leads(b, c, n)
    ensures Leads(a, c, m + n)
  {
    forall fuel: nat | fuel >= m + n
      ensures RunLoop(a, LoadedMemory(), fuel) == RunLoop(c, LoadedMemory(), fuel - (m + n))
    {
      assert RunLoop(a, LoadedMemory(), fuel) == RunLoop(b, LoadedMemory(), fuel - m);
    }
  }

  lemma LeadsEnds(a: MachineState, b: MachineState, m: nat, n: nat, r: RunResult)
    requires ValidState(a) && ValidState(b)
    requires Leads(a, b, m) && Ends(b, n, r)
    ensures Ends(a, m + n, r)
  {
    forall fuel: nat | fuel >= m + n
      ensures RunLoop(a, LoadedMemory(), fuel) == r
    {
      assert RunLoop(a, LoadedMemory(), fuel) == RunLoop(b, LoadedMemory(), fuel - m);
    }
  }

  /** A step from s to t that does not end the run leads from s to t in one step. */
  lemma LeadsStep(s: MachineState, t: MachineState)
    requires ValidState(s) && ValidState(t) && !IsHalt(s.instructionRegister)
    requires StepSpec(s, LoadedMemory()) == StepResult(Stepped, t)
    ensures Leads(s, t, 1)
  {
    forall fuel: nat | fuel >= 1
      ensures RunLoop(s, LoadedMemory(), fuel) == RunLoop(t, LoadedMemory(), fuel - 1)
    {
      RunLoopTurn(s, LoadedMemory(), fuel);
    }
  }

  /** i := i + 1 at the address 12. */
  lemma TurnCount(k: int, ir: Uint32)
    requires 2 <= k <= 1000 && !IsHalt(ir)
    ensures Leads(LoopState(k, ir), Counted(k), 1)
  {
    StepAddImmediate(LoopState(k, ir), 3, 2, 2, 1);
    assert LoopState(k, ir).registers[2 := k] == Counted(k).registers;
    LeadsStep(LoopState(k, ir), Counted(k));
  }

  /** con := i < 1000 at the address 16. */
  lemma TurnCompare(k: int)
    requires 2 <= k <= 1000
    ensures Leads(Counted(k), Compared(k), 1)
  {
    StepSetLess(Counted(k));
    assert Counted(k).registers[3 := if k < 1000 then 1 else 0] == Compared(k).registers;
    HaltWord(Counted(k).registers, 0);
    LeadsStep(Counted(k), Compared(k));
  }

  /** bnez r3 at the address 20: back to 8 while i < 1000, on to the halt at 24 after. */
  lemma TurnBranch(k: int)
    requires 2 <= k <= 1000
    ensures Leads(Compared(k), Branched(k), 1)
  {
    StepBranch(Compared(k));
    HaltWord(Compared(k).registers, 0);
    LeadsStep(Compared(k), Branched(k));
  }

  /** sum := sum + 3 at the address 8 starts turn k + 1. */
  lemma TurnAdd(k: int)
    requires 2 <= k < 1000
    ensures Leads(Branched(k), LoopState(k + 1, PROGRAM[2]), 1)
  {
    StepAddImmediate(Branched(k), 2, 1, 1, 3);
    assert Branched(k).registers[1 := 3 * k + 3] == LoopState(k + 1, PROGRAM[2]).registers;
    HaltWord(Branched(k).registers, 0);
    LeadsStep(Branched(k), LoopState(k + 1, PROGRAM[2]));
  }

  /** The state after the halt word at the address 24 has run. */
  function Final(): (s: MachineState)
    ensures ValidState(s)
  {
    MachineState(Registers(3000, 1000, 0), 28, PROGRAM[6])
  }

  /** halt at the address 24 ends the run. */
  lemma TurnHalt()
    ensures Ends(Branched(1000), 1, RunResult(Halted, Final()))
  {
    StepHalt(Branched(1000));
    HaltWord(Branched(1000).registers, 0);
    forall fuel: nat | fuel >= 1
      ensures RunLoop(Branched(1000), LoadedMemory(), fuel) == RunResult(Halted, Final())
    {
      RunLoopTurn(Branched(1000), LoadedMemory(), fuel);
    }
  }

  /** From turn k, the loop halts with r1 = 3000 and r2 = 1000 after 4 (1001 - k) steps. */
  lemma {:induction false} LoopHalts(k: int, ir: Uint32)
    requires 2 <= k <= 1000 && !IsHalt(ir)
    ensures Ends(LoopState(k, ir), 4 * (1001 - k), RunResult(Halted, Final()))
    decreases 1000 - k
  {
    TurnCount(k, ir);
    TurnCompare(k);
    TurnBranch(k);
    LeadsTrans(LoopState(k, ir), Counted(k), Compared(k), 1, 1);
    LeadsTrans(LoopState(k, ir), Compared(k), Branched(k), 2, 1);
    if k < 1000 {
      TurnAdd(k);
      HaltWord(Registers(0, 0, 0), 0);
      LoopHalts(k + 1, PROGRAM[2]);
      LeadsEnds(Branched(k), LoopState(k + 1, PROGRAM[2]), 1, 4 * (1000 - k), RunResult(Halted, Final()));
    } else {
      TurnHalt();
    }
    LeadsEnds(LoopState(k, ir), Branched(k), 3, 4 * (1000 - k) + 1, RunResult(Halted, Final()));
  }

  /** Registers(r1, r2, r3) with register 1, 2 or 3 overwritten. */
  lemma RegistersUpdate(r1: Int32, r2: Int32, r3: Int32, j: nat, v: Int32)
    requires 1 <= j <= 3
    ensures Registers(r1, r2, r3)[j := v]
      == Registers(if j == 1 then v else r1, if j == 2 then v else r2, if j == 3 then v else r3)
  {
  }

  /** machine.step() on one of the words 0 to 3, addi rj,ri,K, with r0 to r3 holding 0, r1, r2, r3. */
  method StepAdd(machine: DLXMachine, i: nat, ri: nat, rj: nat, k: int, ghost r1: Int32, ghost r2: Int32, ghost r3: Int32)
    requires machine.Valid() && machine.mem.contents == LoadedMemory()
    requires machine.State().registers == Registers(r1, r2, r3) && machine.programCounter == 4 * i
    requires (i == 0 && ri == 0 && rj == 1 && k == 0) || (i == 1 && ri == 0 && rj == 2 && k == 0) ||
             (i == 2 && ri == 1 && rj == 1 && k == 3) || (i == 3 && ri == 2 && rj == 2 && k == 1)
    requires InInt32(machine.registers[ri] as int + k)
    modifies machine, machine.registers
    ensures machine.Valid() && machine.mem.contents == LoadedMemory()
    ensures var v := machine.registers[rj];
      v == (if ri == 0 then 0 else if ri == 1 then r1 else r2) + k &&
      machine.State() == MachineState(Registers(if rj == 1 then v else r1, if rj == 2 then v else r2, r3), 4 * i + 4, PROGRAM[i])
  {
    StepAddImmediate(machine.State(), i, ri, rj, k);
    RegistersUpdate(r1, r2, r3, rj, machine.registers[ri] as int + k);
    var stepped := machine.Step();
  }

  /** machine.step() on the word 4, slti r3,r2,1000. */
  method StepSlti(machine: DLXMachine, ghost r1: Int32, ghost r2: Int32, ghost r3: Int32)
    requires machine.Valid() && machine.mem.contents == LoadedMemory()
    requires machine.State().registers == Registers(r1, r2, r3) && machine.programCounter == 16
    modifies machine, machine.registers
    ensures machine.Valid() && machine.mem.contents == LoadedMemory()
    ensures machine.State() == MachineState(Registers(r1, r2, if r2 < 1000 then 1 else 0), 20, PROGRAM[4])
  {
    StepSetLess(machine.State());
    RegistersUpdate(r1, r2, r3, 3, if r2 < 1000 then 1 else 0);
    var stepped := machine.Step();
  }

  /** machine.step() on the word 5, bnez r3,-16. */
  method StepBnez(machine: DLXMachine, ghost r1: Int32, ghost r2: Int32, ghost r3: Int32)
    requires machine.Valid() && machine.mem.contents == LoadedMemory()
    requires machine.State().registers == Registers(r1, r2, r3) && machine.programCounter == 20
    modifies machine, machine.registers
    ensures machine.Valid() && machine.mem.contents == LoadedMemory()
    ensures machine.State() == MachineState(Registers(r1, r2, r3), if r3 != 0 then 8 else 24, PROGRAM[5])
  {
    StepBranch(machine.State());
    var stepped := machine.Step();
  }

  /** A machine over [0, 0x10000) with the program copied in and the counter set to 0. */
  method LoadedMachine() returns (machine: DLXMachine)
    ensures machine.Valid() && fresh(machine) && fresh(machine.registers) && fresh(machine.mem.Repr)
    ensures machine.mem.contents == LoadedMemory()
    ensures machine.registers[..] == Registers(0, 0, 0) && machine.programCounter == 0
  {
    machine := new DLXMachine(0, RAM_END);
    CopyToFirstBlock(machine.mem, PROGRAM_BYTES);
    assert seq(RAM_END, _ => 0)[|PROGRAM_BYTES|..] == seq(RAM_END - |PROGRAM_BYTES|, _ => 0);
    machine.SetProgramCounter(0);
    assert machine.registers[..] == Registers(0, 0, 0);
  }

  /** machine.run() from turn 2 of the loop halts with the sum and the count in r1 and r2. */
  method RunToHalt(machine: DLXMachine) returns (status: RunStatus)
    requires machine.Valid() && machine.mem.contents == LoadedMemory()
    requires machine.State() == LoopState(2, PROGRAM[2])
    modifies machine, machine.registers
    ensures machine.Valid()
    ensures status == Halted && machine.registers[1] == 3000 && machine.registers[2] == 1000
  {
    LoopHalts(2, 0);
    status := machine.Run(4 * 999);
  }

  /**
   * The test as the emulator writes it: load the program, single-step seven
   * times checking r1, r2 and r3, then run until halt, which leaves the sum
   * 3000 in r1 and the count 1000 in r2.
   */
  method Tests() returns (status: RunStatus, sum: Int32, count: Int32)
    ensures status == Halted && sum == 3000 && count == 1000
  {
    var machine := LoadedMachine();
    StepAdd(machine, 0, 0, 1, 0, 0, 0, 0);
    StepAdd(machine, 1, 0, 2, 0, 0, 0, 0);
    assert machine.registers[1] == 0 && machine.registers[2] == 0;
    StepAdd(machine, 2, 1, 1, 3, 0, 0, 0);
    assert machine.registers[1] == 3 && machine.registers[2] == 0;
    StepAdd(machine, 3, 2, 2, 1, 3, 0, 0);
    assert machine.registers[1] == 3 && machine.registers[2] == 1;
    StepSlti(machine, 3, 1, 0);
    assert machine.registers[1] == 3 && machine.registers[2] == 1 && machine.registers[3] == 1;
    StepBnez(machine, 3, 1, 1);
    StepAdd(machine, 2, 1, 1, 3, 3, 1, 1);
    assert machine.registers[1] == 6 && machine.registers[2] == 1 && machine.registers[3] == 1;
    status := RunToHalt(machine);
    sum, count := machine.registers[1], machine.registers[2];
  }
}
