/**
 * The assembler's mnemonic table: every instruction definition registers
 * itself, under its mnemonic, in one map that lives for the whole program.
 */
module InstructionTable {
  import opened AssemblyTypes

  datatype InstructionDefinition = InstructionDefinition(mnemonic: string, opcode: int, modifier: int, format: Format)

  type InstructionMap = map<string, InstructionDefinition>

  /** std::map::insert: a key that is already present keeps the value it has. */
  function Insert(m: InstructionMap, key: string, value: InstructionDefinition): (r: InstructionMap)
    ensures r.Keys == m.Keys + {key}
    ensures key in m ==> r == m
    ensures key !in m ==> r[key] == value && forall k :: k in m ==> r[k] == m[k]
  {
    if key in m then m else m[key := value]
  }

  /** Every definition is filed under its own mnemonic. */
  predicate FiledByMnemonic(m: InstructionMap)
  {
    forall k :: k in m ==> m[k].mnemonic == k
  }

  /** Registering several definitions, in order. */
  function RegisterAll(m: InstructionMap, definitions: seq<InstructionDefinition>): (r: InstructionMap)
    ensures m.Keys <= r.Keys
    ensures FiledByMnemonic(m) ==> FiledByMnemonic(r)
    decreases |definitions|
  {
    if |definitions| == 0 then m
    else RegisterAll(Insert(m, definitions[0].mnemonic, definitions[0]), definitions[1..])
  }

  /** The index of the first definition of a mnemonic. */
  function FirstDefinition(definitions: seq<InstructionDefinition>, mnemonic: string): (i: nat)
    ensures i <= |definitions|
    ensures forall j :: 0 <= j < i ==> definitions[j].mnemonic != mnemonic
    ensures i < |definitions| ==> definitions[i].mnemonic == mnemonic
  {
    if |definitions| == 0 || definitions[0].mnemonic == mnemonic then 0
    else 1 + FirstDefinition(definitions[1..], mnemonic)
  }

  /**
   * After registering definitions in order, a mnemonic that was not yet in
   * the map maps to its first definition; one that was keeps its old value.
   */
  lemma {:induction false} FirstDefinitionWins(m: InstructionMap, definitions: seq<InstructionDefinition>, mnemonic: string)
    requires mnemonic in m || FirstDefinition(definitions, mnemonic) < |definitions|
    ensures mnemonic in RegisterAll(m, definitions)
    ensures RegisterAll(m, definitions)[mnemonic] ==
              if mnemonic in m then m[mnemonic] else definitions[FirstDefinition(definitions, mnemonic)]
    decreases |definitions|
  {
    if |definitions| > 0 {
      var m' := Insert(m, definitions[0].mnemonic, definitions[0]);
      if mnemonic !in m && definitions[0].mnemonic != mnemonic {
        assert FirstDefinition(definitions, mnemonic) == 1 + FirstDefinition(definitions[1..], mnemonic);
      }
      FirstDefinitionWins(m', definitions[1..], mnemonic);
    }
  }

  /** The function-static map behind allInstructions() and all(). */
  class Registry {
    var definitions: InstructionMap

    /** Each definition inserts itself under its own mnemonic, so every entry is filed by its mnemonic. */
    predicate Valid()
      reads this
    {
      FiledByMnemonic(definitions)
    }

    constructor ()
      ensures Valid() && definitions == map[]
    {
      definitions := map[];
    }

    /** all(): the one map every definition was inserted into; looking a mnemonic up gives its definition. */
    function All(): (m: InstructionMap)
      requires Valid()
      reads this
      ensures forall k :: k in m ==> m[k].mnemonic == k
    {
      definitions
    }

    /** The (mnemonic, opcode, format) constructor, which must not be used for register-to-register instructions. */
    method DefineWithFormat(mnemonic: string, opcode: int, format: Format) returns (d: InstructionDefinition)
      requires format != RegisterToRegister
      requires Valid()
      modifies this
      ensures Valid()
      ensures d == InstructionDefinition(mnemonic, opcode, 0, format)
      ensures definitions == Insert(old(definitions), mnemonic, d)
    {
      d := InstructionDefinition(mnemonic, opcode, 0, format);
      definitions := Insert(definitions, mnemonic, d);
    }

    /** The (mnemonic, opcode, modifier) constructor, always register-to-register. */
    method DefineWithModifier(mnemonic: string, opcode: int, modifier: int) returns (d: InstructionDefinition)
      requires Valid()
      modifies this
      ensures Valid()
      ensures d == InstructionDefinition(mnemonic, opcode, modifier, RegisterToRegister)
      ensures definitions == Insert(old(definitions), mnemonic, d)
    {
      d := InstructionDefinition(mnemonic, opcode, modifier, RegisterToRegister);
      definitions := Insert(definitions, mnemonic, d);
    }
  }
}
