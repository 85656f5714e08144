/**
 * The streaming assembler: it takes the lexer's tokens one by one, keeps a
 * symbol table of names to value texts, the most recent label and the
 * location counter, handles the directives, and packs register-to-register
 * and immediate instructions into 32-bit words.
 */
module Assembly {
  import opened FixedWidth
  import opened Wrappers
  import opened Text
  import opened Streams
  import opened AssemblyTypes
  import opened InstructionTable
  import opened Lexing
  import opened Parsing

  /** Names to value texts; the key "#.start" cannot be written in a source file. */
  type SymbolTable = map<string, string>

  /** Where a `.start` directive records the start address. */
  const START_SYMBOL: string := "#.start"

  /** The largest unsigned long long: a `.space` size beyond it is read as this. */
  const MAX_ULL: nat := 0xFFFF_FFFF_FFFF_FFFF

  /** The messages the assembler reports while it goes (the text they print is not modelled). */
  datatype Report =
    | StartAddressRedefined
    | UnhandledSpace(operand: string)
    | UnknownDirective(name: string)
    | NotEncoded(mnemonic: string)

  /** An instruction word the assembler computed, at its address, with the token text it came from. */
  datatype Encoding = Encoding(address: nat, word: Uint32, text: string)

  datatype AssemblerState = AssemblerState(
    symbols: SymbolTable,
    previousLabel: Label,
    counter: nat,
    encodings: seq<Encoding>,
    reports: seq<Report>)

  /** A fresh assembler: no symbols, an unnamed previous label, the counter at 0. */
  function Initial(): (st: AssemblerState)
    ensures st.symbols == map[] && st.counter == 0 && st.encodings == [] && st.reports == []
  {
    AssemblerState(map[], Label(""), 0, [], [])
  }

  /** `modifier + (rk << 11) + (rj << 16) + (ri << 21) + (opcode << 26)`, as a uint32_t. */
  function EncodeR(modifier: int, rk: nat, ri: nat, rj: nat, opcode: int): (w: Uint32)
    ensures 0 <= modifier < 64 && rk < 32 && ri < 32 && rj < 32 && 0 <= opcode < 64 ==>
              w % 0x40 == modifier && (w / 0x40) % 0x20 == 0 && (w / 0x800) % 0x20 == rk &&
              (w / TWO_16) % 0x20 == rj && (w / 0x20_0000) % 0x20 == ri && w / TWO_26 == opcode
  {
    var w := (modifier + rk * 0x800 + rj * TWO_16 + ri * 0x20_0000 + opcode * TWO_26) % TWO_32;
    if 0 <= modifier < 64 && rk < 32 && ri < 32 && rj < 32 && 0 <= opcode < 64 then
      PackR(modifier, rk, ri, rj, opcode);
      w
    else w
  }

  /** In-range register-to-register fields fill disjoint bit ranges of the word. */
  lemma PackR(modifier: nat, rk: nat, ri: nat, rj: nat, opcode: nat)
    requires modifier < 64 && rk < 32 && ri < 32 && rj < 32 && opcode < 64
    ensures var w := modifier + rk * 0x800 + rj * TWO_16 + ri * 0x20_0000 + opcode * TWO_26;
            w < TWO_32 && w % 0x40 == modifier && (w / 0x40) % 0x20 == 0 && (w / 0x800) % 0x20 == rk &&
            (w / TWO_16) % 0x20 == rj && (w / 0x20_0000) % 0x20 == ri && w / TWO_26 == opcode
  {
    var w := modifier + rk * 0x800 + rj * TWO_16 + ri * 0x20_0000 + opcode * TWO_26;
    var q1 := rk * 0x20 + rj * 0x400 + ri * 0x8000 + opcode * 0x10_0000;
    assert w == modifier + 0x40 * q1;
    assert w / 0x40 == q1;
    assert w / 0x800 == rk + rj * 0x20 + ri * 0x400 + opcode * 0x8000;
    assert w / 0x1_0000 == rj + ri * 0x20 + opcode * 0x400;
    assert w / 0x20_0000 == ri + opcode * 0x20;
  }

  /** `Kusn + (rj << 16) + (ri << 21) + (opcode << 26)`, as a uint32_t. */
  function EncodeI(kusn: nat, rj: nat, ri: nat, opcode: int): (w: Uint32)
    ensures kusn < TWO_16 && rj < 32 && ri < 32 && 0 <= opcode < 64 ==>
              w % TWO_16 == kusn && (w / TWO_16) % 0x20 == rj && (w / 0x20_0000) % 0x20 == ri && w / TWO_26 == opcode
  {
    var w := (kusn + rj * TWO_16 + ri * 0x20_0000 + opcode * TWO_26) % TWO_32;
    if kusn < TWO_16 && rj < 32 && ri < 32 && 0 <= opcode < 64 then
      PackI(kusn, rj, ri, opcode);
      w
    else w
  }

  /** In-range immediate fields fill disjoint bit ranges of the word. */
  lemma PackI(kusn: nat, rj: nat, ri: nat, opcode: nat)
    requires kusn < TWO_16 && rj < 32 && ri < 32 && opcode < 64
    ensures var w := kusn + rj * TWO_16 + ri * 0x20_0000 + opcode * TWO_26;
            w < TWO_32 && w % TWO_16 == kusn && (w / TWO_16) % 0x20 == rj && (w / 0x20_0000) % 0x20 == ri && w / TWO_26 == opcode
  {
    var w := kusn + rj * TWO_16 + ri * 0x20_0000 + opcode * TWO_26;
    var q := rj + ri * 0x20 + opcode * 0x400;
    assert w == kusn + TWO_16 * q;
    assert w / TWO_16 == q;
    assert w / 0x20_0000 == ri + opcode * 0x20;
  }

  /** The size a `.space` operand of decimal digits asks for, as `stream >> unsigned long long` reads it. */
  function SpaceSize(operand: string): (n: nat)
    requires AllDigits(operand)
    ensures n <= MAX_ULL
    ensures DecimalValue(operand) <= MAX_ULL ==> n == DecimalValue(operand)
    ensures DecimalValue(operand) > MAX_ULL ==> n == MAX_ULL
  {
    if DecimalValue(operand) > MAX_ULL then MAX_ULL else DecimalValue(operand)
  }

  /** A `.space` operand the directive can read: an empty one reads an indeterminate size. */
  predicate DirectiveDefined(directive: string, operand: string)
  {
    directive == ".space" ==> operand != []
  }

  /**
   * Assembler::directive. `.equ` binds the previous label to the operand
   * text; `.start` records the operand under "#.start" unless a start is
   * already recorded, which is reported instead; `.word` reserves 4 bytes;
   * `.space` reserves as many bytes as its all-digit operand says, and
   * reports any other operand; any other directive is reported.
   */
  function DirectiveSpec(st: AssemblerState, directive: string, operand: string): (r: AssemblerState)
    requires DirectiveDefined(directive, operand)
    ensures r.previousLabel == st.previousLabel && r.encodings == st.encodings
    ensures st.reports <= r.reports && st.symbols.Keys <= r.symbols.Keys && st.counter <= r.counter
    ensures directive == ".equ" ==> r == st.(symbols := st.symbols[st.previousLabel.name := operand])
    ensures directive == ".start" ==>
              START_SYMBOL in r.symbols && r.counter == st.counter &&
              (START_SYMBOL in st.symbols ==> r == st.(reports := st.reports + [StartAddressRedefined])) &&
              (START_SYMBOL !in st.symbols ==> r == st.(symbols := st.symbols[START_SYMBOL := operand]))
    ensures directive == ".word" ==> r == st.(counter := st.counter + 4)
    ensures directive == ".space" && AllDigits(operand) ==> r == st.(counter := st.counter + SpaceSize(operand))
    ensures directive == ".space" && !AllDigits(operand) ==> r == st.(reports := st.reports + [UnhandledSpace(operand)])
    ensures directive !in {".equ", ".start", ".word", ".space"} ==> r == st.(reports := st.reports + [UnknownDirective(directive)])
  {
    if directive == ".equ" then st.(symbols := st.symbols[st.previousLabel.name := operand])
    else if directive == ".start" then
      assert "#" + directive == START_SYMBOL;
      if "#" + directive in st.symbols then st.(reports := st.reports + [StartAddressRedefined])
      else st.(symbols := st.symbols["#" + directive := operand])
    else if directive == ".word" then st.(counter := st.counter + 4)
    else if directive == ".space" then
      if AllDigits(operand) then st.(counter := st.counter + SpaceSize(operand))
      else st.(reports := st.reports + [UnhandledSpace(operand)])
    else st.(reports := st.reports + [UnknownDirective(directive)])
  }

  /** A second `.start` keeps the first start address and is reported. */
  lemma StartFirstWins(st: AssemblerState, first: string, second: string)
    ensures var r := DirectiveSpec(DirectiveSpec(st, ".start", first), ".start", second);
            START_SYMBOL in r.symbols && r.reports[|r.reports| - 1] == StartAddressRedefined &&
            (START_SYMBOL !in st.symbols ==> r.symbols[START_SYMBOL] == first)
  {
  }

  /** The mnemonic of an instruction token and the stream after it. */
  function MnemonicOf(table: InstructionMap, value: string): (r: (Instruction, StreamState))
    ensures ValidStream(r.1) && r.1.text == value
  {
    InstructionSpec(table, Open(value), Instruction("", Unknown))
  }

  /** The operand of a directive token: the word after the mnemonic. */
  function OperandOf(table: InstructionMap, value: string): string
  {
    WordSpec(MnemonicOf(table, value).1, "").0
  }

  /** The token can be processed without undefined behaviour. */
  predicate TokenDefined(table: InstructionMap, st: AssemblerState, token: Token)
  {
    (token.kind == LabelToken ==> WordSpec(Open(token.value), st.previousLabel.name).0 != []) &&
    (token.kind == InstructionToken && MnemonicOf(table, token.value).0.format == Directive ==>
       DirectiveDefined(MnemonicOf(table, token.value).0.mnemonic, OperandOf(table, token.value)))
  }

  /** `source >> ri >> rj` style operand reads: three registers, one after the other. */
  function ThreeRegisters(st: StreamState): (r: (Register, Register, Register))
    requires ValidStream(st)
    ensures ExtractedKind(r.0) && ExtractedKind(r.1) && ExtractedKind(r.2)
    ensures !Good(st) ==> r == (Register('m', 0), Register('m', 0), Register('m', 0))
  {
    var (first, s1) := RegisterSpec(st);
    var (second, s2) := RegisterSpec(s1);
    (first, second, RegisterSpec(s2).0)
  }

  /** `source >> rj >> ri >> immediate`. */
  function ImmediateOperands(st: StreamState): (r: (Register, Register, ImmediateOperand))
    requires ValidStream(st)
    ensures ExtractedKind(r.0) && ExtractedKind(r.1)
    ensures !Good(st) ==> r == (Register('m', 0), Register('m', 0), ImmediateOperand(0, ""))
  {
    var (first, s1) := RegisterSpec(st);
    var (second, s2) := RegisterSpec(s1);
    (first, second, ImmediateSpec(s2, ImmediateOperand(0, "")).0)
  }

  /** A label token: its name becomes the previous label and is bound to the counter's decimal text. */
  function LabelStep(st: AssemblerState, value: string): (r: AssemblerState)
    requires WordSpec(Open(value), st.previousLabel.name).0 != []
    ensures r.symbols == st.symbols[r.previousLabel.name := Decimal(st.counter)]
    ensures r == st.(previousLabel := r.previousLabel, symbols := r.symbols)
  {
    var named := LabelSpec(Open(value), st.previousLabel).0;
    st.(previousLabel := named, symbols := st.symbols[named.name := Decimal(st.counter)])
  }

  /**
   * The word an instruction that is not a directive assembles to, read from
   * the stream after its mnemonic: register-to-register instructions read
   * rk, ri, rj, immediate ones rj, ri and the immediate. Other formats have
   * no word.
   */
  function EncodedWord(table: InstructionMap, instruction: Instruction, rest: StreamState): (r: Option<Uint32>)
    requires ValidStream(rest) && (instruction.format in {RegisterToRegister, Immediate} ==> instruction.mnemonic in table)
    ensures r.Some? <==> instruction.format in {RegisterToRegister, Immediate}
  {
    if instruction.format == RegisterToRegister then
      var (rk, ri, rj) := ThreeRegisters(rest);
      var definition := table[instruction.mnemonic];
      Some(EncodeR(definition.modifier, rk.number, ri.number, rj.number, definition.opcode))
    else if instruction.format == Immediate then
      var (rj, ri, immediate) := ImmediateOperands(rest);
      Some(EncodeI(immediate.kusn, rj.number, ri.number, table[instruction.mnemonic].opcode))
    else None
  }

  /**
   * An instruction token. A directive goes to DirectiveSpec. Every other
   * instruction takes 4 bytes; register-to-register and immediate ones
   * have their word recorded at the counter, the rest are reported.
   */
  function InstructionStep(table: InstructionMap, st: AssemblerState, value: string): (r: AssemblerState)
    requires MnemonicOf(table, value).0.format == Directive ==>
               DirectiveDefined(MnemonicOf(table, value).0.mnemonic, OperandOf(table, value))
    ensures MnemonicOf(table, value).0.format != Directive ==>
              r.counter == st.counter + 4 && r.symbols == st.symbols && r.previousLabel == st.previousLabel
    ensures st.symbols.Keys <= r.symbols.Keys && st.counter <= r.counter
    ensures st.encodings <= r.encodings && st.reports <= r.reports
  {
    var (instruction, rest) := MnemonicOf(table, value);
    if instruction.format == Directive then DirectiveSpec(st, instruction.mnemonic, WordSpec(rest, "").0)
    else
      var done := st.(counter := st.counter + 4);
      match EncodedWord(table, instruction, rest)
      case Some(word) => done.(encodings := st.encodings + [Encoding(st.counter, word, value)])
      case None => done.(reports := st.reports + [NotEncoded(instruction.mnemonic)])
  }

  /** The step of a directive, in terms of its operand. */
  lemma InstructionStepDirective(table: InstructionMap, st: AssemblerState, value: string,
                                 instruction: Instruction, rest: StreamState, operand: string)
    requires (instruction, rest) == MnemonicOf(table, value) && instruction.format == Directive
    requires operand == OperandOf(table, value) && DirectiveDefined(instruction.mnemonic, operand)
    ensures InstructionStep(table, st, value) == DirectiveSpec(st, instruction.mnemonic, operand)
  {
  }

  /** The step of an instruction that is not a directive, in terms of its word. */
  lemma InstructionStepWord(table: InstructionMap, st: AssemblerState, value: string,
                            instruction: Instruction, rest: StreamState, word: Option<Uint32>)
    requires (instruction, rest) == MnemonicOf(table, value) && instruction.format != Directive
    requires word == EncodedWord(table, instruction, rest)
    ensures word.Some? ==> (InstructionStep(table, st, value) ==
              st.(counter := st.counter + 4, encodings := st.encodings + [Encoding(st.counter, word.value, value)]))
    ensures word.None? ==> (InstructionStep(table, st, value) ==
              st.(counter := st.counter + 4, reports := st.reports + [NotEncoded(instruction.mnemonic)]))
  {
    var r := InstructionStep(table, st, value);
    assert r.symbols == st.symbols && r.previousLabel == st.previousLabel && r.counter == st.counter + 4;
    if word.Some? {
      assert r.reports == st.reports;
      assert r.encodings == st.encodings + [Encoding(st.counter, word.value, value)];
    } else {
      assert r.encodings == st.encodings;
      assert r.reports == st.reports + [NotEncoded(instruction.mnemonic)];
    }
  }

  /** One pass of the loop in Assembler::assemble: a comment changes nothing. */
  function TokenSpec(table: InstructionMap, st: AssemblerState, token: Token): (r: AssemblerState)
    requires TokenDefined(table, st, token)
    ensures st.symbols.Keys <= r.symbols.Keys && st.counter <= r.counter
    ensures st.encodings <= r.encodings && st.reports <= r.reports
    ensures token.kind == CommentToken ==> r == st
  {
    match token.kind
    case CommentToken => st
    case LabelToken => LabelStep(st, token.value)
    case InstructionToken => InstructionStep(table, st, token.value)
  }

  /** A label binds its name, less one trailing ':', to the counter's decimal text. */
  lemma LabelBinds(table: InstructionMap, st: AssemblerState, token: Token)
    requires token.kind == LabelToken && token.value != []
    requires forall i :: 0 <= i < |token.value| ==> !IsSpace(token.value[i])
    ensures TokenDefined(table, st, token)
    ensures var r := TokenSpec(table, st, token);
            (r.previousLabel.name == token.value || r.previousLabel.name + ":" == token.value) &&
            r.symbols == st.symbols[r.previousLabel.name := Decimal(st.counter)] &&
            r.counter == st.counter && r.encodings == st.encodings && r.reports == st.reports
  {
    var s := Open(token.value);
    assert FieldStart(s) == 0;
    assert WordRun(token.value) == |token.value|;
    assert token.value[0..|token.value|] == token.value;
  }

  /** Every instruction that is not a directive advances the counter by exactly 4. */
  lemma InstructionAdvances(table: InstructionMap, st: AssemblerState, token: Token)
    requires token.kind == InstructionToken && MnemonicOf(table, token.value).0.format != Directive
    ensures TokenDefined(table, st, token)
    ensures TokenSpec(table, st, token).counter == st.counter + 4
    ensures TokenSpec(table, st, token).symbols == st.symbols
  {
  }

  /** How far the run still has to go: what is left of the text, then of the leftovers. */
  function Remaining(lex: LexerState): (r: (nat, nat))
    requires ValidStream(lex.source)
  {
    (|lex.source.text| - lex.source.position, |lex.leftOvers|)
  }

  /**
   * Assembler::assemble: the while loop over the tokens until the source
   * stream reports eof. None when the run goes where the source's
   * behaviour is unknown: a getline loop that never ends, a line whose
   * token type is undetermined, or a token processed with undefined
   * behaviour.
   */
  function AssembleSpec(table: InstructionMap, st: AssemblerState, lex: LexerState): (r: Option<(AssemblerState, LexerState)>)
    requires ValidStream(lex.source)
    ensures r.Some? ==> r.value.1.source.eof && ValidStream(r.value.1.source) && r.value.1.source.text == lex.source.text
    ensures r.Some? ==> st.counter <= r.value.0.counter && st.symbols.Keys <= r.value.0.symbols.Keys
    ensures r.Some? ==> st.encodings <= r.value.0.encodings && st.reports <= r.value.0.reports
    decreases Remaining(lex).0, Remaining(lex).1
  {
    if lex.source.eof then Some((st, lex))
    else if !Classifiable(lex) then None
    else
      var (token, next) := NextSpec(lex);
      if !TokenDefined(table, st, token) then None
      else AssembleSpec(table, TokenSpec(table, st, token), next)
  }

  /** A source that ends in a newline never finishes: the last getline finds nothing and the lexer reads on forever. */
  lemma NewlineAtEndHangs(table: InstructionMap, st: AssemblerState, lex: LexerState)
    requires ValidStream(lex.source) && Good(lex.source) && lex.source.text != []
    requires lex.source.text[|lex.source.text| - 1] == '\n'
    ensures AssembleSpec(table, st, lex).None?
    decreases Remaining(lex).0, Remaining(lex).1
  {
    if Classifiable(lex) {
      var (token, next) := NextSpec(lex);
      if TokenDefined(table, st, token) {
        NextKeepsGoing(lex);
        NewlineAtEndHangs(table, TokenSpec(table, st, token), next);
      }
    }
  }

  /** Before the final newline is taken no getline sets eofbit or failbit. */
  lemma NextKeepsGoing(lex: LexerState)
    requires Classifiable(lex) && Good(lex.source)
    requires lex.source.text != [] && lex.source.text[|lex.source.text| - 1] == '\n'
    ensures Good(NextSpec(lex).1.source)
  {
    if lex.leftOvers == [] {
      var st := lex.source;
      NextLineIsFirstLine(st);
      var start := LineStart(st);
      var last := |st.text| - 1 - start;
      assert st.text[start..][last] == '\n';
    }
  }

  predicate Reserved(name: string)
  {
    |name| > 0 && name[0] == '#'
  }

  /** The largest long long: an all-digit value beyond it is read as this. */
  const MAX_LL: nat := 0x7FFF_FFFF_FFFF_FFFF

  /**
   * How printSymbolTable shows a value: decimal digits as hex (read as a
   * long long), a "16#" value without the prefix, anything else verbatim.
   * An empty value reads an indeterminate number.
   */
  function DisplayValue(value: string): (shown: string)
    requires value != []
    ensures AllDigits(value) ==>
              (forall i :: 0 <= i < |shown| ==> IsHexDigit(shown[i])) &&
              HexValue(shown) == if DecimalValue(value) > MAX_LL then MAX_LL else DecimalValue(value)
    ensures AllDigits(value) ==> |shown| >= 1 && (shown[0] == '0' ==> |shown| == 1)
    ensures !AllDigits(value) && |value| >= 3 && value[..3] == "16#" ==> shown + "" == value[3..]
    ensures !AllDigits(value) && !(|value| >= 3 && value[..3] == "16#") ==> shown == value
  {
    if AllDigits(value) then
      var n := if DecimalValue(value) > MAX_LL then MAX_LL else DecimalValue(value);
      HexNumeral(n, 1);
      HexNoLeadingZero(n, 1);
      Hex(n, 1)
    else if |value| >= 3 && value[..3] == "16#" then value[3..]
    else value
  }

  /** The symbol table as printSymbolTable lists it: every name not starting with '#', with its shown value. */
  function SymbolDump(symbols: SymbolTable): (dump: map<string, string>)
    requires forall name :: name in symbols && !Reserved(name) ==> symbols[name] != []
    ensures dump.Keys == set name | name in symbols && !Reserved(name)
    ensures forall name :: name in dump ==> dump[name] == DisplayValue(symbols[name])
  {
    map name | name in symbols && !Reserved(name) :: DisplayValue(symbols[name])
  }

  /** A label's address is shown as the hex of the counter it was bound to. */
  lemma LabelShownInHex(counter: nat)
    requires counter <= MAX_LL
    ensures HexValue(DisplayValue(Decimal(counter))) == counter
  {
    DecimalShape(counter);
  }

  class Assembler {
    const source: InputStream
    const lexer: Lexer
    const instructions: InstructionMap
    var symbolTable: SymbolTable
    var previousLabel: Label
    var locationCounter: nat
    var encodings: seq<Encoding>
    var reports: seq<Report>

    function State(): AssemblerState
      reads this
    {
      AssemblerState(symbolTable, previousLabel, locationCounter, encodings, reports)
    }

    predicate Valid()
      reads this, lexer, source
    {
      lexer.stream == source && source.Valid()
    }

    constructor (source: InputStream, instructions: InstructionMap)
      requires source.Valid()
      ensures Valid() && fresh(lexer) && this.source == source && this.instructions == instructions
      ensures lexer.State() == LexerState(source.State(), []) && State() == Initial()
    {
      this.source := source;
      this.instructions := instructions;
      lexer := new Lexer(source);
      symbolTable := map[];
      previousLabel := Label("");
      locationCounter := 0;
      encodings := [];
      reports := [];
    }

    method HandleDirective(directive: string, operand: string)
      requires DirectiveDefined(directive, operand)
      modifies this
      ensures State() == DirectiveSpec(old(State()), directive, operand)
    {
      if directive == ".equ" {
        symbolTable := symbolTable[previousLabel.name := operand];
      } else if directive == ".start" {
        var symbolName := "#" + directive;
        if symbolName in symbolTable {
          reports := reports + [StartAddressRedefined];
        } else {
          symbolTable := symbolTable[symbolName := operand];
        }
      } else if directive == ".word" {
        locationCounter := locationCounter + 4;
      } else if directive == ".space" {
        if AllDigits(operand) {
          var value := SpaceSize(operand);
          locationCounter := locationCounter + value;
        } else {
          reports := reports + [UnhandledSpace(operand)];
        }
      } else {
        reports := reports + [UnknownDirective(directive)];
      }
    }

    /** The body of the loop in assemble, for one token. */
    method ProcessToken(token: Token)
      requires TokenDefined(instructions, State(), token)
      modifies this
      ensures State() == TokenSpec(instructions, old(State()), token)
    {
      match token.kind
      case CommentToken =>
      case LabelToken =>
        var tokenSource := new InputStream(token.value);
        previousLabel := ExtractLabel(tokenSource, previousLabel);
        symbolTable := symbolTable[previousLabel.name := Decimal(locationCounter)];
      case InstructionToken =>
        ProcessInstruction(token.value);
    }

    method ProcessInstruction(value: string)
      requires MnemonicOf(instructions, value).0.format == Directive ==>
                 DirectiveDefined(MnemonicOf(instructions, value).0.mnemonic, OperandOf(instructions, value))
      modifies this
      ensures State() == InstructionStep(instructions, old(State()), value)
    {
      ghost var before := State();
      var tokenSource := new InputStream(value);
      var instruction := ExtractInstruction(instructions, tokenSource, Instruction("", Unknown));
      ghost var rest := tokenSource.State();
      assert (instruction, rest) == MnemonicOf(instructions, value);
      assert State() == before;
      if instruction.format == Directive {
        var operand := tokenSource.ReadWord("");
        assert State() == before;
        assert operand == OperandOf(instructions, value);
        InstructionStepDirective(instructions, before, value, instruction, rest, operand);
        HandleDirective(instruction.mnemonic, operand);
      } else {
        EncodeInstruction(value, instruction, tokenSource);
      }
    }

    /** An instruction that is not a directive: its operands are read, and its word or report recorded. */
    method EncodeInstruction(value: string, instruction: Instruction, tokenSource: InputStream)
      requires tokenSource.Valid() && instruction.format != Directive
      requires (instruction, tokenSource.State()) == MnemonicOf(instructions, value)
      modifies this, tokenSource
      ensures State() == InstructionStep(instructions, old(State()), value)
    {
      ghost var before := State();
      ghost var rest := tokenSource.State();
      var word := Encode(instruction, tokenSource);
      assert State() == before;
      InstructionStepWord(instructions, before, value, instruction, rest, word);
      RecordWord(word, instruction.mnemonic, value);
    }

    /** The listing entry of an encoded word, or the report of one that was not; the counter moves on. */
    method RecordWord(word: Option<Uint32>, mnemonic: string, value: string)
      modifies this
      ensures word.Some? ==> State() == old(State()).(counter := old(locationCounter) + 4,
                                encodings := old(encodings) + [Encoding(old(locationCounter), word.value, value)])
      ensures word.None? ==> State() == old(State()).(counter := old(locationCounter) + 4,
                                reports := old(reports) + [NotEncoded(mnemonic)])
    {
      if word.Some? {
        encodings := encodings + [Encoding(locationCounter, word.value, value)];
      } else {
        reports := reports + [NotEncoded(mnemonic)];
      }
      locationCounter := locationCounter + 4;
    }

    /** The operand reads and the packing of a register-to-register or immediate instruction. */
    method Encode(instruction: Instruction, tokenSource: InputStream) returns (word: Option<Uint32>)
      requires tokenSource.Valid()
      requires instruction.format in {RegisterToRegister, Immediate} ==> instruction.mnemonic in instructions
      modifies tokenSource
      ensures word == EncodedWord(instructions, instruction, old(tokenSource.State()))
    {
      if instruction.format == RegisterToRegister {
        var rk := ExtractRegister(tokenSource);
        var ri := ExtractRegister(tokenSource);
        var rj := ExtractRegister(tokenSource);
        var definition := instructions[instruction.mnemonic];
        word := Some(EncodeR(definition.modifier, rk.number, ri.number, rj.number, definition.opcode));
      } else if instruction.format == Immediate {
        var rj := ExtractRegister(tokenSource);
        var ri := ExtractRegister(tokenSource);
        var immediate := ExtractImmediate(tokenSource, ImmediateOperand(0, ""));
        word := Some(EncodeI(immediate.kusn, rj.number, ri.number, instructions[instruction.mnemonic].opcode));
      } else {
        word := None;
      }
    }

    method Assemble()
      requires Valid() && AssembleSpec(instructions, State(), lexer.State()).Some?
      modifies this, lexer, source
      ensures Valid()
      ensures Some((State(), lexer.State())) == old(AssembleSpec(instructions, State(), lexer.State()))
    {
      ghost var goal := AssembleSpec(instructions, State(), lexer.State());
      while !source.eof
        invariant Valid() && AssembleSpec(instructions, State(), lexer.State()) == goal
        decreases Remaining(lexer.State()).0, Remaining(lexer.State()).1
      {
        var token := lexer.Next();
        ProcessToken(token);
      }
    }
  }
}
