/**
 * The three views of a 32-bit DLX instruction word. Counting bits from the
 * least significant:
 *   format R: modifier 0-5, zero 6-10, rk 11-15, rj 16-20, ri 21-25, opcode 26-31
 *   format I: K 0-15 (Kusn unsigned, Ksgn the same bits signed), rj 16-20,
 *             ri 21-25, opcode 26-31
 *   format L: Lsgn 0-25 (signed), opcode 26-31
 * A field of width w at bit p is (word >> p) & (2^w - 1), written here as
 * (word / 2^p) % 2^w.
 */
module InstructionLayout {
  import opened FixedWidth

  datatype FormatR = FormatR(modifier: nat, zero: nat, rk: nat, rj: nat, ri: nat, opcode: nat)
  datatype FormatI = FormatI(Ksgn: int, Kusn: nat, rj: nat, ri: nat, opcode: nat)
  datatype FormatL = FormatL(Lsgn: int, opcode: nat)

  /** The signed reading of a bit pattern u of a field whose top bit is worth `half`. */
  function SignExtend(u: nat, half: int): (x: int)
    requires 0 < half && u < 2 * half
    ensures -half <= x < half
    ensures x == u || x == u - 2 * half
    ensures (x >= 0) == (u < half)
  {
    if u < half then u else u - 2 * half
  }

  /** Field extraction with the bit positions of the register-to-register view. */
  function DecodeR(w: Uint32): (r: FormatR)
    ensures r.modifier < 64 && r.zero < 32 && r.rk < 32 && r.rj < 32 && r.ri < 32 && r.opcode < 64
  {
    FormatR(w % 0x40, (w / 0x40) % 0x20, (w / 0x800) % 0x20, (w / 0x1_0000) % 0x20,
            (w / 0x20_0000) % 0x20, w / 0x400_0000)
  }

  /** Field extraction with the bit positions of the immediate view. */
  function DecodeI(w: Uint32): (r: FormatI)
    ensures r.Kusn < TWO_16 && -TWO_15 <= r.Ksgn < TWO_15
    ensures r.rj < 32 && r.ri < 32 && r.opcode < 64
  {
    var k := w % TWO_16;
    FormatI(SignExtend(k, TWO_15), k, (w / 0x1_0000) % 0x20, (w / 0x20_0000) % 0x20, w / 0x400_0000)
  }

  /** Field extraction with the bit positions of the long-immediate view. */
  function DecodeL(w: Uint32): (r: FormatL)
    ensures -TWO_25 <= r.Lsgn < TWO_25 && r.opcode < 64
  {
    FormatL(SignExtend(w % TWO_26, TWO_25), w / TWO_26)
  }

  /** Taking a word apart field by field and putting it back together gives the word. */
  lemma DecodeRComposition(w: Uint32)
    ensures w == w % 0x40 + 0x40 * ((w / 0x40) % 0x20) + 0x800 * ((w / 0x800) % 0x20)
                 + 0x1_0000 * ((w / 0x1_0000) % 0x20) + 0x20_0000 * ((w / 0x20_0000) % 0x20)
                 + 0x400_0000 * (w / 0x400_0000)
  {
    var q1 := w / 0x40;
    assert w == w % 0x40 + 0x40 * q1;
    var q2 := w / 0x800;
    assert q2 == q1 / 0x20;
    assert q1 == q1 % 0x20 + 0x20 * q2;
    var q3 := w / 0x1_0000;
    assert q3 == q2 / 0x20;
    assert q2 == q2 % 0x20 + 0x20 * q3;
    var q4 := w / 0x20_0000;
    assert q4 == q3 / 0x20;
    assert q3 == q3 % 0x20 + 0x20 * q4;
    var q5 := w / 0x400_0000;
    assert q5 == q4 / 0x20;
    assert q4 == q4 % 0x20 + 0x20 * q5;
  }

  lemma DecodeIComposition(w: Uint32)
    ensures w == w % 0x1_0000 + 0x1_0000 * ((w / 0x1_0000) % 0x20)
                 + 0x20_0000 * ((w / 0x20_0000) % 0x20) + 0x400_0000 * (w / 0x400_0000)
  {
    var q3 := w / 0x1_0000;
    assert w == w % 0x1_0000 + 0x1_0000 * q3;
    var q4 := w / 0x20_0000;
    assert q4 == q3 / 0x20;
    assert q3 == q3 % 0x20 + 0x20 * q4;
    var q5 := w / 0x400_0000;
    assert q5 == q4 / 0x20;
    assert q4 == q4 % 0x20 + 0x20 * q5;
  }

  /** The register-to-register fields, put back at their bit positions, make up the word. */
  lemma DecodeRFields(w: Uint32)
    ensures var r := DecodeR(w);
      w == r.modifier + 0x40 * r.zero + 0x800 * r.rk + 0x1_0000 * r.rj + 0x20_0000 * r.ri + 0x400_0000 * r.opcode
  {
    DecodeRComposition(w);
  }

  /** The immediate fields make up the word, and Kusn is Ksgn read modulo 2^16. */
  lemma DecodeIFields(w: Uint32)
    ensures var i := DecodeI(w);
      w == i.Kusn + 0x1_0000 * i.rj + 0x20_0000 * i.ri + 0x400_0000 * i.opcode && i.Kusn == i.Ksgn % TWO_16
  {
    DecodeIComposition(w);
  }

  /** The long-immediate fields make up the word, Lsgn read modulo 2^26 giving the low bits. */
  lemma DecodeLFields(w: Uint32)
    ensures var l := DecodeL(w);
      w == l.Lsgn % TWO_26 + TWO_26 * l.opcode
  {
  }

  /**
   * The three views overlay one word: they agree on the opcode, and the R
   * and I views agree on ri and rj.
   */
  lemma ViewsAgree(w: Uint32)
    ensures DecodeR(w).opcode == DecodeI(w).opcode == DecodeL(w).opcode
    ensures DecodeR(w).ri == DecodeI(w).ri && DecodeR(w).rj == DecodeI(w).rj
  {
  }
}
