/**
 * Properties of the instruction semantics: which word runs which
 * mnemonic, and what each family of instructions does to the register
 * file and the program counter once its effect is applied.
 */
module InstructionSemantics {
  import opened FixedWidth
  import opened InstructionLayout
  import opened Execution

  /** Opcode 0 selects by modifier, and every one of the 64 modifiers has a slot. */
  lemma RegisterFormatSlots(w: Uint32, regs: seq<Int32>, pc: Uint32)
    requires |regs| == 32 && DecodeI(w).opcode == 0
    ensures DecodeR(w).modifier < 64
    ensures ModifierTable(DecodeR(w).modifier).Run? ==>
      Dispatch(w, regs, pc) == Execute(ModifierTable(DecodeR(w).modifier).m, w, regs, pc)
    ensures !ModifierTable(DecodeR(w).modifier).Run? ==> Dispatch(w, regs, pc) == NoEffect
  {
    assert OpcodeTable(0) == FormatRHandler;
  }

  /** Opcode 1 (floating point) and every illegal slot of either table change no machine state. */
  lemma UnusedSlotsDoNothing(w: Uint32, regs: seq<Int32>, pc: Uint32)
    requires |regs| == 32
    requires var op := DecodeI(w).opcode;
      op == 1 || (op < OPCODE_SLOTS && OpcodeTable(op) == IllegalHandler) ||
      (op == 0 && ModifierTable(DecodeR(w).modifier) == IllegalHandler)
    ensures Dispatch(w, regs, pc) == NoEffect
    ensures Apply(Dispatch(w, regs, pc), regs, pc) == (regs, pc)
  {
    if DecodeI(w).opcode == 0 {
      assert OpcodeTable(0) == FormatRHandler;
    } else if DecodeI(w).opcode == 1 {
      assert OpcodeTable(1) == FormatFHandler;
    }
  }

  /** Opcodes 54..63 index past the end of the opcode table: undefined behaviour. */
  lemma OpcodesPastTable(w: Uint32, regs: seq<Int32>, pc: Uint32)
    requires |regs| == 32 && DecodeI(w).opcode >= OPCODE_SLOTS
    ensures Dispatch(w, regs, pc) == Undefined
  {
  }

  // ----- register-to-register and immediate arithmetic -----

  /** The operation an arithmetic or bitwise mnemonic performs, as a C++ reference expression. */
  function AluResult(m: Mnemonic, a: Int32, b: Int32): (x: int)
    requires m in {Add, Addu, Sub, Subu, And, Or, Xor, Addi, Addui, Subi, Subui, Andi, Ori, Xori}
    ensures m in {And, Or, Xor, Andi, Ori, Xori} ==> InInt32(x)
  {
    if m in {Add, Addu, Addi, Addui} then a as int + b
    else if m in {Sub, Subu, Subi, Subui} then a as int - b
    else if m in {And, Andi} then BitAnd(a, b)
    else if m in {Or, Ori} then BitOr(a, b)
    else BitXor(a, b)
  }

  /**
   * add, addu, sub, subu, and, or, xor write rk := ri op rj; a sum or
   * difference outside int32_t is undefined behaviour.
   */
  lemma RegisterAlu(m: Mnemonic, ir: Uint32, regs: seq<Int32>, pc: Uint32)
    requires |regs| == 32 && m in {Add, Addu, Sub, Subu, And, Or, Xor}
    ensures var r := DecodeR(ir); var x := AluResult(m, regs[r.ri], regs[r.rj]);
      Execute(m, ir, regs, pc) == if InInt32(x) then WriteRegister(r.rk, x) else Undefined
  {
  }

  /** addi, addui, subi, subui, andi, ori, xori write rj := ri op Ksgn. */
  lemma ImmediateAlu(m: Mnemonic, ir: Uint32, regs: seq<Int32>, pc: Uint32)
    requires |regs| == 32 && m in {Addi, Addui, Subi, Subui, Andi, Ori, Xori}
    ensures var i := DecodeI(ir); var x := AluResult(m, regs[i.ri], i.Ksgn);
      Execute(m, ir, regs, pc) == if InInt32(x) then WriteRegister(i.rj, x) else Undefined
  {
  }

  /**
   * Applying an effect changes no register but the one it writes (r31 for
   * jal), and leaves the program counter alone unless it sets it.
   */
  lemma ApplyChangesOnlyItsTarget(e: Effect, regs: seq<Int32>, pc: Uint32, j: nat)
    requires |regs| == 32 && Applicable(e) && j < 32
    requires !(e.WriteRegister? && e.index == j) && !(e.LinkAndJump? && j == 31)
    ensures Apply(e, regs, pc).0[j] == regs[j]
    ensures !e.SetProgramCounter? && !e.LinkAndJump? ==> Apply(e, regs, pc).1 == pc
  {
  }

  // ----- set on comparison -----

  /** The relation a set-on-comparison mnemonic tests; sge tests the same as sgt. */
  predicate Holds(m: Mnemonic, a: Int32, b: Int32)
    requires m in {Seq, Sequ, Sne, Sneu, Slt, Sltu, Sgt, Sgtu, Sle, Sleu, Sge, Sgeu,
                   Seqi, Sequi, Snei, Sneui, Slti, Sltui, Sgti, Sgtui, Slei, Sleui, Sgei, Sgeui}
  {
    if m in {Seq, Sequ, Seqi, Sequi} then a == b
    else if m in {Sne, Sneu, Snei, Sneui} then a != b
    else if m in {Slt, Sltu, Slti, Sltui} then a < b
    else if m in {Sgt, Sgtu, Sgti, Sgtui, Sge} then a > b
    else if m in {Sle, Sleu, Slei, Sleui} then a <= b
    else a >= b
  }

  /** The signed register-to-register comparisons write 1 into rk iff the relation holds, else 0. */
  lemma RegisterCompare(m: Mnemonic, ir: Uint32, regs: seq<Int32>, pc: Uint32)
    requires |regs| == 32 && m in {Seq, Sne, Slt, Sgt, Sle, Sge}
    ensures var r := DecodeR(ir);
      Execute(m, ir, regs, pc) == WriteRegister(r.rk, if Holds(m, regs[r.ri], regs[r.rj]) then 1 else 0)
  {
  }

  /** The "unsigned" register-to-register comparisons compare the signed values too. */
  lemma RegisterCompareUnsigned(m: Mnemonic, ir: Uint32, regs: seq<Int32>, pc: Uint32)
    requires |regs| == 32 && m in {Sequ, Sneu, Sltu, Sgtu, Sleu, Sgeu}
    ensures var r := DecodeR(ir);
      Execute(m, ir, regs, pc) == WriteRegister(r.rk, if Holds(m, regs[r.ri], regs[r.rj]) then 1 else 0)
  {
  }

  /** The signed immediate comparisons write 1 into rj iff ri relates to Ksgn, else 0. */
  lemma ImmediateCompare(m: Mnemonic, ir: Uint32, regs: seq<Int32>, pc: Uint32)
    requires |regs| == 32 && m in {Seqi, Snei, Slti, Sgti, Slei, Sgei}
    ensures var i := DecodeI(ir);
      Execute(m, ir, regs, pc) == WriteRegister(i.rj, if Holds(m, regs[i.ri], i.Ksgn) then 1 else 0)
  {
  }

  /** The "unsigned" immediate comparisons also compare ri with the sign-extended Ksgn. */
  lemma ImmediateCompareUnsigned(m: Mnemonic, ir: Uint32, regs: seq<Int32>, pc: Uint32)
    requires |regs| == 32 && m in {Sequi, Sneui, Sltui, Sgtui, Sleui, Sgeui}
    ensures var i := DecodeI(ir);
      Execute(m, ir, regs, pc) == WriteRegister(i.rj, if Holds(m, regs[i.ri], i.Ksgn) then 1 else 0)
  {
  }

  /** sge, as written, computes !(ri <= rj): exactly what sgt computes, and not ri >= rj. */
  lemma SgeIsSgt(ir: Uint32, regs: seq<Int32>, pc: Uint32)
    requires |regs| == 32
    ensures Execute(Sge, ir, regs, pc) == Execute(Sgt, ir, regs, pc)
    ensures var r := DecodeR(ir);
      regs[r.ri] == regs[r.rj] ==> Execute(Sge, ir, regs, pc) == WriteRegister(r.rk, 0)
  {
  }

  // ----- shifts -----

  lemma ModOfMultiple(q: int, x: int)
    ensures (q * TWO_32 + x) % TWO_32 == x % TWO_32
  {
  }

  /** ShiftLeftBits is multiplication by 2^n, reduced modulo 2^32. */
  lemma {:induction false} ShiftLeftBitsIsProduct(u: Uint32, n: nat)
    ensures ShiftLeftBits(u, n) == (u * Pow2(n)) % TWO_32
    decreases n
  {
    if n > 0 {
      var v := (2 * u) % TWO_32;
      var p := Pow2(n - 1);
      ShiftLeftBitsIsProduct(v, n - 1);
      var q := (2 * u) / TWO_32;
      DoubledProduct(u, v, q, p);
      ModOfMultiple(q * p, v * p);
    }
  }

  lemma DoubledProduct(u: int, v: int, q: int, p: int)
    requires 2 * u == q * TWO_32 + v
    ensures u * (2 * p) == (q * p) * TWO_32 + v * p
  {
    calc {
      u * (2 * p);
      (2 * u) * p;
      (q * TWO_32 + v) * p;
      (q * TWO_32) * p + v * p;
      (q * p) * TWO_32 + v * p;
    }
  }

  /** The arithmetic right shift is the floor of x / 2^n. */
  lemma {:induction false} ShiftRightIsFloorDivision(x: Int32, n: nat)
    ensures ShiftRightArithmetic(x, n) == x / Pow2(n)
    decreases n
  {
    if n > 0 {
      ShiftRightIsFloorDivision(x / 2, n - 1);
      HalveThenDivide(x, Pow2(n - 1));
    }
  }

  /**
   * sll, sla, slai, slli write ri * 2^count into the destination for a count
   * in 0..31 and a non-negative ri whose product still fits in int32_t; that
   * is also the shifted bit pattern wrapped to 32 bits, as C++20 reads every
   * shift. Any other shift is undefined behaviour.
   */
  lemma ShiftLeftMeaning(k: nat, x: Int32, count: int)
    ensures ShiftLeft(k, x, count).Undefined? <==> !(0 <= count < 32 && x >= 0 && x * Pow2(count) < TWO_31)
    ensures 0 <= count < 32 && x >= 0 && x * Pow2(count) < TWO_31 ==>
      ShiftLeft(k, x, count) == WriteRegister(k, x * Pow2(count))
    ensures 0 <= count < 32 && !ShiftLeft(k, x, count).Undefined? ==>
      ShiftLeft(k, x, count) == WriteRegister(k, ToSigned((ToUnsigned(x) * Pow2(count)) % TWO_32))
  {
    if 0 <= count < 32 && x >= 0 && x * Pow2(count) < TWO_31 {
      ShiftLeftBitsIsProduct(ToUnsigned(x), count);
      assert ToUnsigned(x) == x;
      assert (x * Pow2(count)) % TWO_32 == x * Pow2(count);
    }
  }

  /** srl, sra, srli, srai write floor(ri / 2^count) for a count in 0..31; any other count is undefined. */
  lemma ShiftRightMeaning(k: nat, x: Int32, count: int)
    ensures ShiftRight(k, x, count).Undefined? <==> !(0 <= count < 32)
    ensures 0 <= count < 32 ==>
      ShiftRight(k, x, count).WriteRegister? && ShiftRight(k, x, count).index == k &&
      ShiftRight(k, x, count).value == x / Pow2(count)
  {
    if 0 <= count < 32 {
      ShiftRightIsFloorDivision(x, count);
    }
  }

  // ----- control transfer -----

  /** beqz and bnez add Ksgn to the advanced program counter iff ri is zero (nonzero); no register changes. */
  lemma Branches(m: Mnemonic, ir: Uint32, regs: seq<Int32>, pc: Uint32)
    requires |regs| == 32 && m in {Beqz, Bnez}
    ensures var i := DecodeI(ir); var taken := (regs[i.ri] == 0) == (m == Beqz);
      Execute(m, ir, regs, pc) == if taken then SetProgramCounter(Wrap32(pc + i.Ksgn)) else NoEffect
  {
  }

  /** jal links the advanced program counter into r31 and jumps by Lsgn; jr jumps to ri. */
  lemma Jumps(ir: Uint32, regs: seq<Int32>, pc: Uint32)
    requires |regs| == 32
    ensures Apply(Execute(Jal, ir, regs, pc), regs, pc)
      == (regs[31 := ToSigned(pc)], Wrap32(pc + DecodeL(ir).Lsgn))
    ensures ToUnsigned(Apply(Execute(Jal, ir, regs, pc), regs, pc).0[31]) == pc
    ensures Apply(Execute(Jr, ir, regs, pc), regs, pc) == (regs, ToUnsigned(regs[DecodeI(ir).ri]))
  {
    UnsignedOfSigned(pc);
  }

  /** j, jalr, halt, nop, wait, lhi, rfe, trap and the two moves are stubs that change nothing. */
  lemma StubsChangeNothing(m: Mnemonic, ir: Uint32, regs: seq<Int32>, pc: Uint32)
    requires |regs| == 32
    requires m in {J, Jalr, Halt, Nop, Wait, Lhi, Rfe, Trap, Movi2s, Movs2i}
    ensures Execute(m, ir, regs, pc) == NoEffect
  {
  }

  /** The loads and stores are stubs too: no register, no byte of memory and not the program counter changes. */
  lemma LoadsAndStoresChangeNothing(m: Mnemonic, ir: Uint32, regs: seq<Int32>, pc: Uint32)
    requires |regs| == 32
    requires m in {Lb, Lbu, Lh, Lhu, Lw, Sb, Sh, Sw}
    ensures Execute(m, ir, regs, pc) == NoEffect
  {
  }
}
