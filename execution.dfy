/**
 * What each DLX instruction does to the machine, and the two dispatch
 * tables that choose the instruction: one indexed by the opcode, and one,
 * for register-to-register words, indexed by the modifier.
 *
 * An instruction's effect is computed from the instruction register, the
 * register file and the (already advanced) program counter; the machine
 * then applies it (see Machine). Each C++ execute function either writes
 * one register, sets the program counter, does both (jal), or does nothing.
 * Where the C++ expression has undefined behaviour (a signed overflow, a
 * shift count outside 0..31, an opcode past the end of the table) the
 * effect is Undefined: the model claims no result there.
 */
module Execution {
  import opened FixedWidth
  import opened Wrappers
  import opened InstructionLayout
  import Registers

  datatype Mnemonic =
    | Add | Addi | Addu | Addui | And | Andi | Beqz | Bnez | Halt | J | Jal | Jalr | Jr
    | Lb | Lbu | Lh | Lhi | Lhu | Lw | Movi2s | Movs2i | Nop | Or | Ori | Rfe | Sb
    | Seq | Seqi | Sequ | Sequi | Sge | Sgei | Sgeu | Sgeui | Sgt | Sgti | Sgtu | Sgtui
    | Sh | Sla | Slai | Sle | Slei | Sleu | Sleui | Sll | Slli | Slt | Slti | Sltu | Sltui
    | Sne | Snei | Sneu | Sneui | Sra | Srai | Srl | Srli | Sub | Subi | Subu | Subui
    | Sw | Trap | Wait | Xor | Xori

  /** A dispatch-table slot. */
  datatype Entry = FormatRHandler | FormatFHandler | IllegalHandler | Run(m: Mnemonic)

  /** The number of slots in the table indexed by the opcode. */
  const OPCODE_SLOTS: nat := 54

  /** The table indexed by the opcode; every slot not listed holds the illegal-instruction handler. */
  function OpcodeTable(opcode: nat): (e: Entry)
    requires opcode < OPCODE_SLOTS
    ensures e == FormatRHandler <==> opcode == 0
    ensures e == FormatFHandler <==> opcode == 1
    ensures e.Run? ==> forall modifier :: 0 <= modifier < 64 ==> ModifierTable(modifier) != e
  {
    match opcode
    case 0 => FormatRHandler    case 1 => FormatFHandler
    case 2 => Run(J)            case 3 => Run(Jal)
    case 4 => Run(Beqz)         case 5 => Run(Bnez)
    case 8 => Run(Addi)         case 9 => Run(Addui)
    case 10 => Run(Subi)        case 11 => Run(Subui)
    case 12 => Run(Andi)        case 13 => Run(Ori)
    case 14 => Run(Xori)        case 15 => Run(Lhi)
    case 16 => Run(Rfe)         case 17 => Run(Trap)
    case 18 => Run(Jr)          case 19 => Run(Jalr)
    case 20 => Run(Slai)        case 22 => Run(Srli)
    case 23 => Run(Srai)        case 24 => Run(Seqi)
    case 25 => Run(Snei)        case 26 => Run(Slti)
    case 27 => Run(Sgti)        case 28 => Run(Slei)
    case 29 => Run(Sgei)        case 32 => Run(Lb)
    case 33 => Run(Lh)          case 35 => Run(Lw)
    case 36 => Run(Lbu)         case 37 => Run(Lhu)
    case 40 => Run(Sb)          case 41 => Run(Sh)
    case 43 => Run(Sw)          case 48 => Run(Sequi)
    case 49 => Run(Sneui)       case 50 => Run(Sltui)
    case 51 => Run(Sgtui)       case 52 => Run(Sleui)
    case 53 => Run(Sgeui)
    case _ => IllegalHandler
  }

  /** The table indexed by the modifier of a register-to-register word (all 64 modifiers). */
  function ModifierTable(modifier: nat): (e: Entry)
    requires modifier < 64
    ensures e.Run? || e == IllegalHandler
  {
    match modifier
    case 0 => Run(Nop)          case 1 => Run(Halt)
    case 2 => Run(Wait)         case 4 => Run(Sll)
    case 6 => Run(Srl)          case 7 => Run(Sra)
    case 16 => Run(Sequ)        case 17 => Run(Sneu)
    case 18 => Run(Sltu)        case 19 => Run(Sgtu)
    case 20 => Run(Sleu)        case 21 => Run(Sgeu)
    case 32 => Run(Add)         case 33 => Run(Addu)
    case 34 => Run(Sub)         case 35 => Run(Subu)
    case 36 => Run(And)         case 37 => Run(Or)
    case 38 => Run(Xor)         case 40 => Run(Seq)
    case 41 => Run(Sne)         case 42 => Run(Slt)
    case 43 => Run(Sgt)         case 44 => Run(Sle)
    case 45 => Run(Sge)         case 48 => Run(Movi2s)
    case 49 => Run(Movs2i)
    case _ => IllegalHandler
  }

  datatype Effect =
    | NoEffect
    | WriteRegister(index: nat, value: Int32)
    | SetProgramCounter(address: Uint32)
    | LinkAndJump(link: Int32, address: Uint32)
    | Undefined

  predicate Applicable(e: Effect)
  {
    e.WriteRegister? ==> e.index < 32
  }

  /** The register write of a register operator's result; an overflow (no result) is undefined. */
  function Arithmetic(k: nat, x: Option<Int32>): (e: Effect)
    ensures e.WriteRegister? <==> x.Some?
    ensures e.WriteRegister? ==> e.index == k && e.value == x.value
    ensures !e.WriteRegister? ==> e.Undefined?
  {
    if x.Some? then WriteRegister(k, x.value) else Undefined
  }

  /** The 1 or 0 written by a set-on-comparison instruction. */
  function Flag(k: nat, condition: bool): (e: Effect)
    ensures e.WriteRegister? && e.index == k && (e.value == 1 <==> condition) && (e.value == 0 <==> !condition)
  {
    WriteRegister(k, if condition then 1 else 0)
  }

  /** The bit pattern u moved n places left, discarding what passes bit 31. */
  function ShiftLeftBits(u: Uint32, n: nat): (r: Uint32)
    ensures n == 0 ==> r == u
    decreases n
  {
    if n == 0 then u else ShiftLeftBits((2 * u) % TWO_32, n - 1)
  }

  /** x moved n places right, copying the sign bit in: the floor of x / 2^n. */
  function ShiftRightArithmetic(x: Int32, n: nat): (r: Int32)
    ensures x >= 0 ==> 0 <= r <= x
    ensures x < 0 ==> x <= r < 0
    decreases n
  {
    if n == 0 then x else ShiftRightArithmetic(x / 2, n - 1)
  }

  /**
   * x << count on int32_t, as every C++ standard before C++20 defines it: for
   * a count in 0..31, a non-negative x whose product with 2^count still fits
   * in int32_t. Any other shift (a negative x, a product that overflows) is
   * undefined behaviour there, and Undefined here.
   */
  function ShiftLeft(k: nat, x: Int32, count: int): (e: Effect)
    ensures e.WriteRegister? || e.Undefined?
    ensures e.WriteRegister? <==> 0 <= count < 32 && x >= 0 && x * Pow2(count) < TWO_31
    ensures e.WriteRegister? ==> e.index == k
    ensures count == 0 && e.WriteRegister? ==> e.value == x
  {
    if 0 <= count < 32 && x >= 0 && x * Pow2(count) < TWO_31
    then WriteRegister(k, ToSigned(ShiftLeftBits(ToUnsigned(x), count)))
    else Undefined
  }

  /** x >> count on int32_t: defined for counts 0..31 as an arithmetic shift. */
  function ShiftRight(k: nat, x: Int32, count: int): (e: Effect)
    ensures e.WriteRegister? || e.Undefined?
    ensures e.WriteRegister? <==> 0 <= count < 32
    ensures e.WriteRegister? ==> e.index == k && (e.value < 0 <==> x < 0)
    ensures e.WriteRegister? && x >= 0 ==> e.value <= x
    ensures e.WriteRegister? && x < 0 ==> x <= e.value
  {
    if 0 <= count < 32 then WriteRegister(k, ShiftRightArithmetic(x, count)) else Undefined
  }

  /** The effect of executing mnemonic m on the word ir, after the program counter moved to pc. */
  function Execute(m: Mnemonic, ir: Uint32, regs: seq<Int32>, pc: Uint32): (e: Effect)
    requires |regs| == 32
    ensures Applicable(e)
  {
    var r := DecodeR(ir);
    var i := DecodeI(ir);
    var l := DecodeL(ir);
    match m
    // register to register: rk := ri op rj
    case Add => Arithmetic(r.rk, Registers.Plus(regs[r.ri], regs[r.rj]))
    case Addu => Arithmetic(r.rk, Registers.Plus(regs[r.ri], regs[r.rj]))
    case Sub => Arithmetic(r.rk, Registers.Minus(regs[r.ri], regs[r.rj]))
    case Subu => Arithmetic(r.rk, Registers.Minus(regs[r.ri], regs[r.rj]))
    case And => WriteRegister(r.rk, BitAnd(regs[r.ri], regs[r.rj]))
    case Or => WriteRegister(r.rk, BitOr(regs[r.ri], regs[r.rj]))
    case Xor => WriteRegister(r.rk, BitXor(regs[r.ri], regs[r.rj]))
    case Seq => Flag(r.rk, regs[r.ri] == regs[r.rj])
    case Sequ => Flag(r.rk, regs[r.ri] == regs[r.rj])
    case Sne => Flag(r.rk, regs[r.ri] != regs[r.rj])
    case Sneu => Flag(r.rk, regs[r.ri] != regs[r.rj])
    case Slt => Flag(r.rk, regs[r.ri] < regs[r.rj])
    case Sltu => Flag(r.rk, regs[r.ri] < regs[r.rj])
    case Sgt => Flag(r.rk, regs[r.ri] > regs[r.rj])
    case Sgtu => Flag(r.rk, regs[r.ri] > regs[r.rj])
    case Sle => Flag(r.rk, regs[r.ri] <= regs[r.rj])
    case Sleu => Flag(r.rk, regs[r.ri] <= regs[r.rj])
    case Sge => Flag(r.rk, !(regs[r.ri] <= regs[r.rj]))
    case Sgeu => Flag(r.rk, regs[r.ri] >= regs[r.rj])
    case Sla => ShiftLeft(r.rk, regs[r.ri], regs[r.rj])
    case Sll => ShiftLeft(r.rk, regs[r.ri], regs[r.rj])
    case Sra => ShiftRight(r.rk, regs[r.ri], regs[r.rj])
    case Srl => ShiftRight(r.rk, regs[r.ri], regs[r.rj])
    // immediate: rj := ri op K
    case Addi => Arithmetic(i.rj, Registers.Plus(regs[i.ri], i.Ksgn))
    case Addui => Arithmetic(i.rj, Registers.Plus(regs[i.ri], i.Ksgn))
    case Subi => Arithmetic(i.rj, Registers.Minus(regs[i.ri], i.Ksgn))
    case Subui => Arithmetic(i.rj, Registers.Minus(regs[i.ri], i.Ksgn))
    case Andi => WriteRegister(i.rj, BitAnd(regs[i.ri], i.Ksgn))
    case Ori => WriteRegister(i.rj, BitOr(regs[i.ri], i.Ksgn))
    case Xori => WriteRegister(i.rj, BitXor(regs[i.ri], i.Ksgn))
    case Seqi => Flag(i.rj, regs[i.ri] == i.Ksgn)
    case Sequi => Flag(i.rj, regs[i.ri] == i.Ksgn)
    case Snei => Flag(i.rj, regs[i.ri] != i.Ksgn)
    case Sneui => Flag(i.rj, regs[i.ri] != i.Ksgn)
    case Slti => Flag(i.rj, regs[i.ri] < i.Ksgn)
    case Sltui => Flag(i.rj, regs[i.ri] < i.Ksgn)
    case Sgti => Flag(i.rj, regs[i.ri] > i.Ksgn)
    case Sgtui => Flag(i.rj, regs[i.ri] > i.Ksgn)
    case Slei => Flag(i.rj, regs[i.ri] <= i.Ksgn)
    case Sleui => Flag(i.rj, regs[i.ri] <= i.Ksgn)
    case Sgei => Flag(i.rj, regs[i.ri] >= i.Ksgn)
    case Sgeui => Flag(i.rj, regs[i.ri] >= i.Ksgn)
    case Slai => ShiftLeft(i.rj, regs[i.ri], i.Ksgn)
    case Slli => ShiftLeft(i.rj, regs[i.ri], i.Kusn)
    case Srai => ShiftRight(i.rj, regs[i.ri], i.Ksgn)
    case Srli => ShiftRight(i.rj, regs[i.ri], i.Ksgn)
    // control transfer
    case Beqz => if regs[i.ri] == 0 then SetProgramCounter(Wrap32(pc + i.Ksgn)) else NoEffect
    case Bnez => if regs[i.ri] != 0 then SetProgramCounter(Wrap32(pc + i.Ksgn)) else NoEffect
    case Jal => LinkAndJump(ToSigned(pc), Wrap32(pc + l.Lsgn))
    case Jr => SetProgramCounter(ToUnsigned(regs[i.ri]))
    // the remaining instructions are stubs that change nothing
    case _ => NoEffect
  }

  /** Which slot handles the word: the opcode slot, and for format R the modifier slot. */
  function Dispatch(ir: Uint32, regs: seq<Int32>, pc: Uint32): (e: Effect)
    requires |regs| == 32
    ensures Applicable(e)
  {
    var opcode := DecodeI(ir).opcode;
    if opcode >= OPCODE_SLOTS then Undefined
    else match OpcodeTable(opcode)
      case FormatRHandler =>
        (match ModifierTable(DecodeR(ir).modifier)
           case Run(m) => Execute(m, ir, regs, pc)
           case _ => NoEffect)
      case Run(m) => Execute(m, ir, regs, pc)
      case _ => NoEffect
  }

  /** The register file and program counter after an effect. */
  function Apply(e: Effect, regs: seq<Int32>, pc: Uint32): (r: (seq<Int32>, Uint32))
    requires |regs| == 32 && Applicable(e)
    ensures |r.0| == 32
    ensures e.NoEffect? || e.Undefined? ==> r == (regs, pc)
    ensures e.WriteRegister? ==> r == (regs[e.index := e.value], pc)
    ensures e.SetProgramCounter? ==> r == (regs, e.address)
    ensures e.LinkAndJump? ==> r == (regs[31 := e.link], e.address)
  {
    match e
    case WriteRegister(k, v) => (regs[k := v], pc)
    case SetProgramCounter(a) => (regs, a)
    case LinkAndJump(link, a) => (regs[31 := link], a)
    case _ => (regs, pc)
  }
}
