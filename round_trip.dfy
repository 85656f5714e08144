/**
 * How the assembler's output and the emulator's input fit together: the
 * instruction words the assembler packs are the ones the emulator's views
 * take apart, and the object file the writer produces is loaded by the
 * emulator's loader as the bytes it was given, from address 0 on, with the
 * program counter at the start address.
 */
module RoundTrip {
  import opened FixedWidth
  import opened Wrappers
  import opened Text
  import opened MemoryUnit
  import opened InstructionLayout
  import L = Loader
  import W = ObjectWriting
  import A = Assembly

  // ---------------------------------------------------------------------------
  // Instruction words
  // ---------------------------------------------------------------------------

  /** Packing in-range register-to-register fields and decoding them gives the fields back, with a zero field of 0. */
  lemma EncodeRDecodes(modifier: nat, rk: nat, ri: nat, rj: nat, opcode: nat)
    requires modifier < 64 && rk < 32 && ri < 32 && rj < 32 && opcode < 64
    ensures DecodeR(A.EncodeR(modifier, rk, ri, rj, opcode)) == FormatR(modifier, 0, rk, rj, ri, opcode)
  {
    var w := modifier + rk * 0x800 + rj * TWO_16 + ri * 0x20_0000 + opcode * TWO_26;
    assert w < TWO_32;
    assert A.EncodeR(modifier, rk, ri, rj, opcode) == w;
    var q1 := rk * 0x20 + rj * 0x400 + ri * 0x8000 + opcode * 0x10_0000;
    assert w == modifier + 0x40 * q1;
    assert w / 0x40 == q1;
    assert w % 0x40 == modifier;
    assert w / 0x800 == rk + rj * 0x20 + ri * 0x400 + opcode * 0x8000;
    assert w / 0x1_0000 == rj + ri * 0x20 + opcode * 0x400;
    assert w / 0x20_0000 == ri + opcode * 0x20;
    assert w / 0x400_0000 == opcode;
  }

  /** A word whose zero field is 0 is the packing of its own register-to-register fields. */
  lemma DecodeREncodes(w: Uint32)
    requires DecodeR(w).zero == 0
    ensures var r := DecodeR(w); A.EncodeR(r.modifier, r.rk, r.ri, r.rj, r.opcode) == w
  {
    DecodeRFields(w);
  }

  /** Packing in-range immediate fields and decoding them gives the fields back, Ksgn being Kusn read as signed. */
  lemma EncodeIDecodes(kusn: nat, rj: nat, ri: nat, opcode: nat)
    requires kusn < TWO_16 && rj < 32 && ri < 32 && opcode < 64
    ensures DecodeI(A.EncodeI(kusn, rj, ri, opcode)) == FormatI(SignExtend(kusn, TWO_15), kusn, rj, ri, opcode)
  {
    var w := kusn + rj * TWO_16 + ri * 0x20_0000 + opcode * TWO_26;
    assert w < TWO_32;
    assert A.EncodeI(kusn, rj, ri, opcode) == w;
    var q := rj + ri * 0x20 + opcode * 0x400;
    assert w == kusn + TWO_16 * q;
    assert w / TWO_16 == q;
    assert w % TWO_16 == kusn;
    assert w / 0x20_0000 == ri + opcode * 0x20;
    assert w / 0x400_0000 == opcode;
  }

  /** Every word is the packing of its own immediate fields. */
  lemma DecodeIEncodes(w: Uint32)
    ensures var i := DecodeI(w); A.EncodeI(i.Kusn, i.rj, i.ri, i.opcode) == w
  {
    DecodeIFields(w);
  }

  // ---------------------------------------------------------------------------
  // Reading the object file back as lines
  // ---------------------------------------------------------------------------

  /**
   * The lines the loader's `while (!file.eof())` loop of `getline` calls
   * reads: up to each newline, and a last line without one. When the text
   * ends in a newline that loop reads one more, empty, line; empty lines
   * are skipped, so leaving it out changes nothing.
   */
  function SplitLines(text: string): (lines: seq<string>)
    decreases |text|
  {
    if |text| == 0 then []
    else
      var k := IndexOf(text, '\n');
      if k < |text| then [text[..k]] + SplitLines(text[k + 1..]) else [text]
  }

  predicate NoNewline(line: string)
  {
    forall i :: 0 <= i < |line| ==> line[i] != '\n'
  }

  /** Lines without newlines, each ended by one, are read back as the same lines. */
  lemma {:induction false} SplitJoin(lines: seq<string>)
    requires forall i :: 0 <= i < |lines| ==> NoNewline(lines[i])
    ensures SplitLines(W.Join(lines)) == lines
    decreases |lines|
  {
    if |lines| > 0 {
      var text := W.Join(lines);
      var first, rest := lines[0], W.Join(lines[1..]);
      assert text == first + "\n" + rest;
      IndexOfAfter(first, rest);
      assert text[..|first|] == first;
      assert text[|first| + 1..] == rest;
      SplitJoin(lines[1..]);
      assert lines == [first] + lines[1..];
    }
  }

  lemma {:induction false} IndexOfAfter(a: string, b: string)
    requires NoNewline(a)
    ensures IndexOf(a + "\n" + b, '\n') == |a|
    decreases |a|
  {
    if |a| > 0 {
      assert (a + "\n" + b)[1..] == a[1..] + "\n" + b;
      IndexOfAfter(a[1..], b);
    }
  }

  lemma HexNoNewline(v: nat, width: nat)
    ensures NoNewline(Hex(v, width))
  {
    HexNumeral(v, width);
  }

  lemma {:induction false} PairsNoNewline(c: seq<Byte>)
    requires |c| > 0
    ensures NoNewline(W.Pairs(c))
    decreases |c|
  {
    HexNoNewline(c[0], 2);
    if |c| > 1 {
      PairsNoNewline(c[1..]);
    }
  }

  lemma {:induction false} DataLinesNoNewline(bytes: seq<Byte>, address: nat)
    ensures forall i :: 0 <= i < |W.DataLines(bytes, address)| ==> NoNewline(W.DataLines(bytes, address)[i])
    decreases |bytes|
  {
    if |bytes| > 0 {
      var c := if |bytes| <= 16 then bytes else bytes[..16];
      HexNoNewline(address, 8);
      PairsNoNewline(c);
      assert NoNewline(W.DataLine(address, c));
      if |bytes| > 16 {
        DataLinesNoNewline(bytes[16..], address + 16);
      }
    }
  }

  /** No line of the image holds a newline, so the file text reads back as the image's lines. */
  lemma ImageReadsBack(bytes: seq<Byte>, start: nat)
    ensures SplitLines(W.Join(W.ImageLines(bytes, start))) == W.ImageLines(bytes, start)
  {
    var lines := W.ImageLines(bytes, start);
    DataLinesNoNewline(bytes, 0);
    HexNoNewline(start, 2);
    assert NoNewline(W.StartLine(start));
    assert forall i :: 0 <= i < |lines| ==> NoNewline(lines[i]);
    SplitJoin(lines);
  }

  // ---------------------------------------------------------------------------
  // Loading the object file
  // ---------------------------------------------------------------------------

  /** The hex pairs of a line, from column i on, decode to their bytes with no error. */
  lemma {:induction false} PairsDecode(line: string, i: nat, c: seq<Byte>)
    requires |c| > 0 && i <= |line| && line[i..] == W.Pairs(c)
    ensures L.DecodeFrom(line, i) == L.LineData(c, None)
    decreases |c|
  {
    var hi, lo := HexChar(c[0] / 16), HexChar(c[0] % 16);
    W.HexByteDigits(c[0], [hi, lo]);
    assert line[i] == hi && line[i + 1] == lo;
    assert L.PairValue(hi, lo) == c[0];
    if |c| == 1 {
      assert i + 2 == |line|;
    } else {
      assert line[i + 2] == ' ';
      assert line[i + 3..] == W.Pairs(c[1..]);
      PairsDecode(line, i + 3, c[1..]);
      assert c == [c[0]] + c[1..];
    }
  }

  /** A data line's bytes after the address decode to the line's bytes. */
  lemma DataLineDecodes(address: nat, c: seq<Byte>)
    requires |c| > 0 && address < TWO_32
    ensures L.DecodeFrom(W.DataLine(address, c), 8) == L.LineData(c, None)
  {
    var line := W.DataLine(address, c);
    Pow16Eight();
    assert HexWidth(address, 8) == 8;
    assert line[8] == ' ' && line[9] == ' ';
    assert line[10..] == W.Pairs(c);
    PairsDecode(line, 10, c);
  }

  /** A data line's first field is its address. */
  lemma DataLineAddress(address: nat, c: seq<Byte>)
    requires |c| > 0 && address < TWO_32
    ensures |W.DataLine(address, c)| > 0
    ensures L.ScanAddress(W.DataLine(address, c)) == Some(address)
  {
    Pow16Eight();
    assert HexWidth(address, 8) == 8;
    assert W.DataLine(address, c) == HexDigits(address, 8) + ("  " + W.Pairs(c));
    ScanHexDigits(address, 8, "  " + W.Pairs(c));
  }

  /** The loader's state in front of the image's data: block 0 starts at 0, and the cached block is none or block 0. */
  predicate AtImage(st: L.LoaderState)
  {
    L.Consistent(st) && |st.contents| > 0 && st.contents[0].start == 0 &&
    (st.current.None? || st.current == Some(0))
  }

  /** The state after storing `data` into block 0 from `offset` on, block 0 being the cached one. */
  function StoredAt(st: L.LoaderState, offset: nat, data: seq<Byte>): L.LoaderState
    requires |st.contents| > 0 && offset + |data| <= |st.contents[0].bytes|
  {
    st.(contents := st.contents[0 := st.contents[0].(bytes := L.Splice(st.contents[0].bytes, offset, data))], current := Some(0))
  }

  /** A data line that fits in block 0 stores its bytes at its address there. */
  lemma {:induction false} DataLineLoads(st: L.LoaderState, address: nat, c: seq<Byte>)
    requires AtImage(st) && |c| > 0 && address + |c| <= |st.contents[0].bytes|
    ensures L.LoadLine(st, W.DataLine(address, c)) == L.Progress(L.Loaded, StoredAt(st, address, c))
  {
    var line := W.DataLine(address, c);
    ImageBlockSelected(st, address);
    DataLineAddress(address, c);
    ScannedLine(st, line, address);
    var stored := L.StoreLine(st.contents[0].bytes, address, line);
    DataLineStored(st.contents[0].bytes, address, c);
    L.AddressLineStored(st, address, line, 0, stored);
  }

  /** A non-empty line whose first field scans as an address is loaded as an address line. */
  lemma {:induction false} ScannedLine(st: L.LoaderState, line: string, address: Uint32)
    requires L.Consistent(st) && |line| > 0 && L.ScanAddress(line) == Some(address)
    ensures L.LoadLine(st, line) == L.AddressLine(st, address, line)
  {
  }

  /** Every address of block 0 selects block 0 in front of the image's data. */
  lemma ImageBlockSelected(st: L.LoaderState, address: nat)
    requires AtImage(st) && address < |st.contents[0].bytes|
    ensures address < TWO_32 && L.SelectBlock(st.contents, st.current, address) == Some(0)
  {
    assert Contains(st.contents[0], address);
    if st.current.None? {
      FindBlockFirst(st.contents, address, 0);
    }
  }

  /** A data line's bytes go to its address, with room for all of them. */
  lemma DataLineStored(bytes: seq<Byte>, address: nat, c: seq<Byte>)
    requires |c| > 0 && address + |c| <= |bytes| && address < TWO_32
    ensures L.StoreLine(bytes, address, W.DataLine(address, c)) == (L.Splice(bytes, address, c), L.Loaded)
  {
    DataLineDecodes(address, c);
  }

  lemma SpliceSplice(bytes: seq<Byte>, offset: nat, c: seq<Byte>, rest: seq<Byte>)
    requires offset + |c| + |rest| <= |bytes|
    ensures L.Splice(L.Splice(bytes, offset, c), offset + |c|, rest) == L.Splice(bytes, offset, c + rest)
  {
    var x, y := L.Splice(L.Splice(bytes, offset, c), offset + |c|, rest), L.Splice(bytes, offset, c + rest);
    assert |x| == |y|;
    forall j | 0 <= j < |x|
      ensures x[j] == y[j]
    {
      if offset <= j < offset + |c| {
        assert x[j] == c[j - offset] == (c + rest)[j - offset];
      } else if offset + |c| <= j < offset + |c| + |rest| {
        assert x[j] == rest[j - offset - |c|] == (c + rest)[j - offset];
      }
    }
  }

  /** Storing at the same place twice leaves the state as the second store does. */
  lemma StoredTwice(st: L.LoaderState, offset: nat, c: seq<Byte>, rest: seq<Byte>)
    requires |st.contents| > 0 && offset + |c| + |rest| <= |st.contents[0].bytes|
    ensures |StoredAt(st, offset, c).contents[0].bytes| == |st.contents[0].bytes|
    ensures StoredAt(StoredAt(st, offset, c), offset + |c|, rest) == StoredAt(st, offset, c + rest)
  {
    SpliceSplice(st.contents[0].bytes, offset, c, rest);
  }

  /** The data lines of bytes placed at `address` store them there, in block 0. */
  lemma {:induction false} DataLinesLoad(st: L.LoaderState, bytes: seq<Byte>, address: nat)
    requires AtImage(st) && |bytes| > 0 && address + |bytes| <= |st.contents[0].bytes|
    ensures L.LoadLines(st, W.DataLines(bytes, address)) == L.Progress(L.Loaded, StoredAt(st, address, bytes))
    decreases |bytes|
  {
    if |bytes| <= 16 {
      DataLineLoads(st, address, bytes);
      var p := L.LoadLine(st, W.DataLine(address, bytes));
      assert W.DataLines(bytes, address) == [W.DataLine(address, bytes)];
      assert L.LoadLines(st, [W.DataLine(address, bytes)]) == L.LoadLines(p.state, []);
    } else {
      var c, rest := bytes[..16], bytes[16..];
      var lines := W.DataLines(bytes, address);
      assert lines == [W.DataLine(address, c)] + W.DataLines(rest, address + 16);
      DataLineLoads(st, address, c);
      var mid := StoredAt(st, address, c);
      assert L.LoadLines(st, lines) == L.LoadLines(mid, lines[1..]);
      StoredTwice(st, address, c, rest);
      DataLinesLoad(mid, rest, address + 16);
      assert c + rest == bytes;
    }
  }

  /** The ".start" line of the image sets the program counter. */
  lemma StartLineLoads(st: L.LoaderState, start: nat)
    requires L.Consistent(st) && start < TWO_32
    ensures L.LoadLine(st, W.StartLine(start)) == L.Progress(L.Loaded, st.(pc := start))
  {
    Pow16Eight();
    ScanHexSpace(' ', Hex(start, 2), 8);
    ScanHexNumeral(start, 2);
    L.StartField(st, Hex(start, 2), start);
  }

  /** The blank lines of the trailer are skipped, and its ".start" line sets the program counter. */
  lemma TailLoads(st: L.LoaderState, start: nat)
    requires L.Consistent(st) && start < TWO_32
    ensures L.LoadLines(st, ["", "", "", "", W.StartLine(start)]) == L.Progress(L.Loaded, st.(pc := start))
  {
    var s := W.StartLine(start);
    L.EmptyLineSkipped(st, ["", "", "", s]);
    L.EmptyLineSkipped(st, ["", "", s]);
    L.EmptyLineSkipped(st, ["", s]);
    L.EmptyLineSkipped(st, [s]);
    assert [""] + ["", "", "", s] == ["", "", "", "", s];
    assert [""] + ["", "", s] == ["", "", "", s];
    assert [""] + ["", s] == ["", "", s];
    assert [""] + [s] == ["", s];
    StartLineLoads(st, start);
    assert L.LoadLines(st, [s]) == L.LoadLines(st.(pc := start), []);
  }

  /**
   * Loading the image of `bytes` into a memory whose first block starts at
   * 0 and has room for them stores the bytes at addresses 0, 1, 2, ..., sets
   * the program counter to the start address, and reports nothing.
   */
  lemma ImageLoads(bytes: seq<Byte>, start: nat, contents: seq<BlockView>, pc: Uint32)
    requires WellFormed(contents) && |contents| > 0 && contents[0].start == 0
    requires |bytes| <= |contents[0].bytes| && start < TWO_32
    ensures L.Load(W.ImageLines(bytes, start), contents, pc)
              == L.LoadResult(L.Loaded, contents[0 := contents[0].(bytes := bytes + contents[0].bytes[|bytes|..])], start, [])
  {
    var lines := W.ImageLines(bytes, start);
    var data, tail := W.DataLines(bytes, 0), ["", "", "", "", W.StartLine(start)];
    var st := L.LoaderState(contents, pc, None, []);
    assert lines[0] == ".abs";
    assert lines[1..] == data + tail;
    L.LoadLinesAppend(st, data, tail);
    var filled := bytes + contents[0].bytes[|bytes|..];
    assert L.Splice(contents[0].bytes, 0, bytes) == filled;
    if |bytes| > 0 {
      DataLinesLoad(st, bytes, 0);
      TailLoads(StoredAt(st, 0, bytes), start);
    } else {
      assert data == [];
      assert filled == contents[0].bytes;
      assert contents[0].(bytes := filled) == contents[0];
      assert contents[0 := contents[0].(bytes := filled)] == contents;
      TailLoads(st, start);
    }
  }

  /**
   * The writer and the loader together: the bytes written by a fresh
   * writer with a start address, read back line by line after the writer is
   * destroyed, load as those bytes from address 0 on with pc at the start.
   */
  lemma WrittenBytesLoad(bytes: seq<Byte>, start: nat, contents: seq<BlockView>, pc: Uint32)
    requires WellFormed(contents) && |contents| > 0 && contents[0].start == 0
    requires |bytes| <= |contents[0].bytes| && start < TWO_32
    ensures var w := W.WriteBytes(W.Fresh().(start := start, startKnown := true), bytes);
      L.Load(SplitLines(w.output + W.Trailer(w)), contents, pc)
        == L.LoadResult(L.Loaded, contents[0 := contents[0].(bytes := bytes + contents[0].bytes[|bytes|..])], start, [])
  {
    W.ImageText(bytes, start);
    ImageReadsBack(bytes, start);
    ImageLoads(bytes, start, contents, pc);
  }
}
