/**
 * What the assembler's parsers fill in: a label, a comment, an instruction's
 * mnemonic and format, a register operand and the two immediate operands.
 */
module AssemblyTypes {
  import opened FixedWidth

  /**
   * Instruction::Format, with the Directive kind the parser gives every
   * mnemonic that starts with '.'.
   */
  datatype Format = Unknown | LongImmediate | Immediate | RegisterToRegister | Directive

  datatype Label = Label(name: string)

  datatype Comment = Comment(remark: string)

  /** The character that starts a comment. */
  const COMMENT_CHARACTER: char := ';'

  datatype Instruction = Instruction(mnemonic: string, format: Format)

  /** A register operand: kind 'r' (integer) or 'f' (floating point), or 'm' for a missing one. */
  datatype Register = Register(kind: char, number: Uint16)

  /** A 16-bit immediate operand: its literal value, or a symbol to look up later. */
  datatype ImmediateOperand = ImmediateOperand(kusn: Uint16, expression: string)

  /** A 26-bit immediate operand, always kept as a word. */
  datatype LongImmediateOperand = LongImmediateOperand(expression: string)
}
