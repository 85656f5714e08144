/**
 * The encoding checks of the assembler's test driver, carried out on the
 * model. The mnemonic table of dasm/parser/Instructions.cpp does not
 * define `clr` or `movi`; the driver expects both to assemble as immediate
 * instructions with the opcode 8 of addi, so the table here holds exactly
 * those two.
 */
module EncodingExamples {
  import opened FixedWidth
  import opened Wrappers
  import opened Text
  import opened AssemblyTypes
  import opened InstructionTable
  import opened Streams
  import opened Parsing
  import opened Assembly
  import W = ObjectWriting

  const TABLE: InstructionMap := map[
    "clr" := InstructionDefinition("clr", 8, 0, Immediate),
    "movi" := InstructionDefinition("movi", 8, 0, Immediate)]

  /** An immediate instruction's word is EncodeI of the operands read after its mnemonic. */
  lemma ImmediateWord(table: InstructionMap, mnemonic: string, rest: StreamState, rj: Register, ri: Register, immediate: ImmediateOperand, word: Uint32)
    requires ValidStream(rest) && mnemonic in table && ImmediateOperands(rest) == (rj, ri, immediate)
    requires EncodeI(immediate.kusn, rj.number, ri.number, table[mnemonic].opcode) == word
    ensures EncodedWord(table, Instruction(mnemonic, Immediate), rest) == Some(word)
  {
  }

  /** The instruction token of the driver's line `m:\tmovi r2,1` once the label is split off. */
  const MOVI: string := "\tmovi r2,1"

  /** The mnemonic of a token is the word at its first field, classified by the table. */
  lemma MnemonicAt(table: InstructionMap, value: string, k: nat, end: nat, mnemonic: string)
    requires FieldStart(Open(value)) == k < end < |value| && end == k + WordRun(value[k..])
    requires value[k..end] == mnemonic
    ensures MnemonicOf(table, value) == (Instruction(mnemonic, FormatFromMnemonic(table, mnemonic)), StreamState(value, end, false, false))
  {
    WordAt(Open(value), "", k, end);
  }

  lemma MoviMnemonic()
    ensures MnemonicOf(TABLE, MOVI) == (Instruction("movi", Immediate), StreamState(MOVI, 5, false, false))
  {
    assert MOVI[1..][0] == 'm';
    assert SkipSpace(MOVI[1..]) == 0;
    assert SkipSpace(MOVI) == 1;
    MoviWordRun();
    assert MOVI[1..5] == "movi";
    assert FormatFromMnemonic(TABLE, "movi") == Immediate;
    MnemonicAt(TABLE, MOVI, 1, 5, "movi");
  }

  lemma MoviWordRun()
    ensures WordRun(MOVI[1..]) == 4
  {
    var t := MOVI[1..];
    assert t[4] == ' ';
    assert WordRun(t[4..]) == 0;
    assert WordRun(t[3..]) == 1;
    assert WordRun(t[2..]) == 2;
    assert WordRun(t[1..]) == 3;
  }

  lemma MoviFirstRegister()
    ensures RegisterSpec(StreamState(MOVI, 5, false, false)) == (Register('r', 2), StreamState(MOVI, 9, false, false))
  {
    var st := StreamState(MOVI, 5, false, false);
    assert MOVI[6..][0] == 'r';
    assert SkipSpace(MOVI[6..]) == 0;
    assert SkipSpace(MOVI[5..]) == 1;
    assert FieldStart(st) == 6;
    MoviRead();
    RegisterWord(st, 6, "r2", StreamState(MOVI, 9, false, false));
    RegisterTwo();
  }

  lemma MoviRead()
    ensures ReadSpec(StreamState(MOVI, 6, false, false), "") == ("r2", StreamState(MOVI, 9, false, false))
  {
    assert MOVI[8] == ',';
    assert ReadFrom(MOVI, 8, "r2", true) == ("r2", 9, false, true);
    assert MOVI[6] == 'r' && MOVI[7] == '2' && !IsFieldDelimiter(MOVI[7]) && !IsBlank(MOVI[7]);
    assert "r" + [MOVI[7]] == "r2";
    assert ReadFrom(MOVI, 7, "r", true) == ("r2", 9, false, true);
    assert [] + [MOVI[6]] == "r";
    assert ReadFrom(MOVI, 6, "", false) == ("r2", 9, false, true);
  }

  lemma RegisterTwo()
    ensures RegisterOfWord("r2", 'm') == Register('r', 2)
  {
    assert "r2"[1..] == "2" && DigitRun("2") == 1;
    assert UnsignedValue(false, "2") == 2;
  }

  lemma MoviSecondRegister()
    ensures RegisterSpec(StreamState(MOVI, 9, false, false)) == (Register('m', 0), StreamState(MOVI, 9, false, false))
  {
    var st := StreamState(MOVI, 9, false, false);
    assert MOVI[9..] == "1";
    assert SkipSpace(MOVI[9..]) == 0;
    assert SkipSpacesSpec(st) == st;
  }

  lemma MoviImmediate()
    ensures ImmediateSpec(StreamState(MOVI, 9, false, false), ImmediateOperand(0, "")).0.kusn == 1
  {
    var st := StreamState(MOVI, 9, false, false);
    assert MOVI[9..] == "1";
    assert SkipSpace(MOVI[9..]) == 0;
    assert SkipSpacesSpec(st) == st;
    assert DigitRun("1") == 1;
    assert UnsignedValue(false, "1") == 1;
  }

  lemma MoviEncoding()
    ensures EncodeI(1, 2, 0, 8) == 0x2002_0001
  {
    assert 1 + 2 * 0x1_0000 + 0 * 0x20_0000 + 8 * 0x400_0000 == 0x2002_0001;
  }

  lemma MoviOperands()
    ensures ImmediateOperands(StreamState(MOVI, 5, false, false)) == (Register('r', 2), Register('m', 0), ImmediateOperand(1, ""))
  {
    MoviFirstRegister();
    MoviSecondRegister();
    MoviImmediate();
  }

  lemma MoviWord()
    ensures EncodedWord(TABLE, Instruction("movi", Immediate), StreamState(MOVI, 5, false, false)) == Some(0x2002_0001)
  {
    assert "movi" in TABLE && TABLE["movi"].opcode == 8;
    MoviOperands();
    MoviEncoding();
    ImmediateWord(TABLE, "movi", StreamState(MOVI, 5, false, false), Register('r', 2), Register('m', 0), ImmediateOperand(1, ""), 0x2002_0001);
  }

  /**
   * `movi r2,1` assembles to 0x20020001 (`20 02 00 01`): r2 is read as rj,
   * the missing second register is 0 and the immediate is 1.
   */
  lemma MoviAssembles(st: AssemblerState)
    ensures MnemonicOf(TABLE, MOVI) == (Instruction("movi", Immediate), StreamState(MOVI, 5, false, false))
    ensures InstructionStep(TABLE, st, MOVI)
              == st.(counter := st.counter + 4, encodings := st.encodings + [Encoding(st.counter, 0x2002_0001, MOVI)])
  {
    MoviMnemonic();
    MoviWord();
    InstructionStepWord(TABLE, st, MOVI, Instruction("movi", Immediate), StreamState(MOVI, 5, false, false), Some(0x2002_0001));
  }

  /** The instruction token of the driver's line `m:\tclr r1`. */
  const CLR: string := "\tclr r1"

  lemma ClrMnemonic()
    ensures MnemonicOf(TABLE, CLR) == (Instruction("clr", Immediate), StreamState(CLR, 4, false, false))
  {
    assert CLR[1..][0] == 'c';
    assert SkipSpace(CLR[1..]) == 0;
    assert SkipSpace(CLR) == 1;
    ClrWordRun();
    assert CLR[1..4] == "clr";
    assert FormatFromMnemonic(TABLE, "clr") == Immediate;
    MnemonicAt(TABLE, CLR, 1, 4, "clr");
  }

  lemma ClrWordRun()
    ensures WordRun(CLR[1..]) == 3
  {
    var t := CLR[1..];
    assert t[3] == ' ';
    assert WordRun(t[3..]) == 0;
    assert WordRun(t[2..]) == 1;
    assert WordRun(t[1..]) == 2;
  }

  /** A register operand whose field starts with 'r' at position k is the word `read` takes from there. */
  lemma RegisterWord(st: StreamState, k: nat, word: string, after: StreamState)
    requires ValidStream(st) && Good(st) && FieldStart(st) == k < |st.text| && st.text[k] == 'r'
    requires ReadSpec(st.(position := k, eof := false), "") == (word, after)
    ensures word != [] && word[0] == 'r'
    ensures RegisterSpec(st) == (RegisterOfWord(word, 'm'), after)
  {
    ReadKeepsFirst(st.(position := k, eof := false));
  }

  lemma RegisterOne()
    ensures RegisterOfWord("r1", 'm') == Register('r', 1)
  {
    assert "r1"[1..] == "1" && DigitRun("1") == 1;
    assert UnsignedValue(false, "1") == 1;
  }

  lemma ClrFirstRegister()
    ensures RegisterSpec(StreamState(CLR, 4, false, false)) == (Register('r', 1), StreamState(CLR, 7, true, false))
  {
    var st := StreamState(CLR, 4, false, false);
    assert CLR[5..][0] == 'r';
    assert SkipSpace(CLR[5..]) == 0;
    assert SkipSpace(CLR[4..]) == 1;
    assert FieldStart(st) == 5;
    ClrRead();
    RegisterWord(st, 5, "r1", StreamState(CLR, 7, true, false));
    RegisterOne();
  }

  lemma ClrRead()
    ensures ReadSpec(StreamState(CLR, 5, false, false), "") == ("r1", StreamState(CLR, 7, true, false))
  {
    assert |CLR| == 7;
    assert CLR[5] == 'r' && CLR[6] == '1' && !IsFieldDelimiter(CLR[6]) && !IsBlank(CLR[6]);
    assert ReadFrom(CLR, 7, "r1", true) == ("r1", 7, true, true);
    assert "r" + [CLR[6]] == "r1";
    assert ReadFrom(CLR, 6, "r", true) == ("r1", 7, true, true);
    assert [] + [CLR[5]] == "r";
    assert ReadFrom(CLR, 5, "", false) == ("r1", 7, true, true);
  }

  lemma ClrRest()
    ensures var (ri, s) := RegisterSpec(StreamState(CLR, 7, true, false));
            ri == Register('m', 0) && ImmediateSpec(s, ImmediateOperand(0, "")).0 == ImmediateOperand(0, "")
  {
    var after := StreamState(CLR, 7, true, false);
    assert !Good(after);
    assert !Good(RegisterSpec(after).1);
  }

  lemma ClrOperands()
    ensures ImmediateOperands(StreamState(CLR, 4, false, false)) == (Register('r', 1), Register('m', 0), ImmediateOperand(0, ""))
  {
    ClrFirstRegister();
    ClrRest();
  }

  lemma ClrEncoding()
    ensures EncodeI(0, 1, 0, 8) == 0x2001_0000
  {
    assert 0 + 1 * 0x1_0000 + 0 * 0x20_0000 + 8 * 0x400_0000 == 0x2001_0000;
  }

  lemma ClrWord()
    ensures EncodedWord(TABLE, Instruction("clr", Immediate), StreamState(CLR, 4, false, false)) == Some(0x2001_0000)
  {
    assert "clr" in TABLE && TABLE["clr"].opcode == 8;
    ClrOperands();
    ClrEncoding();
    ImmediateWord(TABLE, "clr", StreamState(CLR, 4, false, false), Register('r', 1), Register('m', 0), ImmediateOperand(0, ""), 0x2001_0000);
  }

  /**
   * `clr r1` assembles to 0x20010000, and the object writer prints that
   * word as the line `00000000  20 01 00 00` after `.abs`.
   */
  lemma ClrAssembles(st: AssemblerState)
    ensures MnemonicOf(TABLE, CLR) == (Instruction("clr", Immediate), StreamState(CLR, 4, false, false))
    ensures InstructionStep(TABLE, st, CLR)
              == st.(counter := st.counter + 4, encodings := st.encodings + [Encoding(st.counter, 0x2001_0000, CLR)])
    ensures W.WriteBytes(W.Fresh(), W.BytesOf(0x2001_0000, 4)).output == ".abs\n00000000  20 01 00 00"
  {
    ClrMnemonic();
    ClrWord();
    InstructionStepWord(TABLE, st, CLR, Instruction("clr", Immediate), StreamState(CLR, 4, false, false), Some(0x2001_0000));
    W.FirstWordLine();
  }
}
