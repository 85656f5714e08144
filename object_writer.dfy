/**
 * The assembler's object writer: a small state machine over an output
 * stream. It writes ".abs", then the bytes it is given as upper-case hex
 * pairs, sixteen to a line, each line headed by its 8-digit address, and
 * on destruction, when a start address was set, a trailer with ".start".
 * The stream is the text written so far.
 */
module ObjectWriting {
  import opened FixedWidth
  import opened Text

  /** The writer's fields, with the stream as the text written so far. */
  datatype WriterState = WriterState(output: string, bytesOnLine: nat, lineAddress: nat, start: nat, startKnown: bool)

  /** What the constructor leaves: ".abs" and a newline, no byte yet, no start address. */
  function Fresh(): (w: WriterState)
    ensures w.output == ".abs\n" && w.bytesOnLine == 0 && w.lineAddress == 0 && !w.startKnown
  {
    WriterState(".abs\n", 0, 0, 0, false)
  }

  /** The writer between bytes: at most sixteen on the current line, lines at multiples of 16. */
  predicate Consistent(w: WriterState)
  {
    w.bytesOnLine <= 16 && w.lineAddress % 16 == 0
  }

  /**
   * PreByteWritten: a full line is ended and the next line's address is 16
   * further on; a byte after the first on its line is preceded by a space; a
   * line's first byte is preceded by the line's address and two spaces.
   */
  function PreByteSpec(w: WriterState): (r: WriterState)
    ensures r.start == w.start && r.startKnown == w.startKnown
    ensures r.bytesOnLine == if w.bytesOnLine == 16 then 1 else w.bytesOnLine + 1
    ensures r.lineAddress == if w.bytesOnLine == 16 then w.lineAddress + 16 else w.lineAddress
  {
    var ended := if w.bytesOnLine == 16 then w.(output := w.output + "\n", bytesOnLine := 0, lineAddress := w.lineAddress + 16)
                 else if w.bytesOnLine > 0 then w.(output := w.output + " ")
                 else w;
    var headed := if ended.bytesOnLine == 0 then ended.(output := ended.output + Hex(ended.lineAddress, 8) + "  ") else ended;
    headed.(bytesOnLine := headed.bytesOnLine + 1)
  }

  /** The text PreByteWritten writes: a newline and the next line's head, one space, or the first line's head. */
  lemma PreByteText(w: WriterState)
    ensures w.bytesOnLine == 16 ==> PreByteSpec(w).output == w.output + "\n" + Hex(w.lineAddress + 16, 8) + "  "
    ensures 0 < w.bytesOnLine < 16 ==> PreByteSpec(w).output == w.output + " "
    ensures w.bytesOnLine == 0 ==> PreByteSpec(w).output == w.output + Hex(w.lineAddress, 8) + "  "
  {
  }

  /** One byte: PreByteWritten, then the byte as two hex digits. */
  function ByteSpec(w: WriterState, b: Byte): (r: WriterState)
    ensures w.output < r.output && |r.output| >= |w.output| + 2
    ensures r.output[|r.output| - 2..] == HexDigits(b, 2)
    ensures Consistent(w) ==> Consistent(r) && 1 <= r.bytesOnLine
  {
    ByteWidth(b);
    var p := PreByteSpec(w);
    p.(output := p.output + Hex(b, 2))
  }

  /** A byte is printed as exactly two hex digits. */
  lemma ByteWidth(b: Byte)
    ensures Hex(b, 2) == HexDigits(b, 2)
  {
    assert Pow16(2) == 256;
  }

  /** The bytes in order, each through ByteSpec. */
  function WriteBytes(w: WriterState, bytes: seq<Byte>): (r: WriterState)
    ensures r.start == w.start && r.startKnown == w.startKnown
    ensures Consistent(w) ==> Consistent(r)
    ensures Consistent(w) && |bytes| > 0 ==> 1 <= r.bytesOnLine
  {
    if |bytes| == 0 then w else ByteSpec(WriteBytes(w, bytes[..|bytes| - 1]), bytes[|bytes| - 1])
  }

  /** `value >> n`, the arithmetic shift: n halvings, each rounding down. */
  function Shift(value: int, n: nat): (r: int)
    ensures value >= 0 ==> r >= 0
    decreases n
  {
    if n == 0 then value else Shift(value / 2, n - 1)
  }

  /** n halvings, each rounding down, are one floor division by 2^n. */
  lemma {:induction false} ShiftIsFloorDivision(value: int, n: nat)
    ensures Shift(value, n) == value / Pow2(n)
    decreases n
  {
    if n > 0 {
      ShiftIsFloorDivision(value / 2, n - 1);
      HalveThenDivide(value, Pow2(n - 1));
    }
  }

  /** The byte at bit offset i of a value: `(value >> i) & 0xFF`. */
  function ByteAt(value: int, i: nat): (b: Byte)
    ensures b == (value / Pow2(i)) % 256
  {
    ShiftIsFloorDivision(value, i);
    Shift(value, i) % 256
  }

  /** The bytes of an integer of `size` bytes, most significant first. */
  function BytesOf(value: int, size: nat): (bytes: seq<Byte>)
    ensures |bytes| == size
    ensures forall k :: 0 <= k < size ==> bytes[k] == ByteAt(value, 8 * (size - 1 - k))
  {
    seq(size, k requires 0 <= k < size => ByteAt(value, 8 * (size - 1 - k)))
  }

  /** The value of bytes read most significant first. */
  function BigEndian(bytes: seq<Byte>): (v: nat)
  {
    if |bytes| == 0 then 0 else 256 * BigEndian(bytes[..|bytes| - 1]) + bytes[|bytes| - 1]
  }

  /** The destructor's trailer: nothing without a start address; otherwise the line is ended, four blank lines and ".start". */
  function Trailer(w: WriterState): (t: string)
    ensures !w.startKnown <==> t == []
  {
    if !w.startKnown then []
    else (if w.bytesOnLine != 0 then "\n" else "") + "\n\n\n\n" + StartLine(w.start) + "\n"
  }

  /** The line that gives the start address: ".start " and at least two hex digits. */
  function StartLine(start: nat): (line: string)
    ensures |line| >= 9 && line[..7] == ".start "
    ensures forall i :: 7 <= i < |line| ==> IsHexDigit(line[i])
    ensures HexValue(line[7..]) == start
  {
    HexNumeral(start, 2);
    assert (".start " + Hex(start, 2))[7..] == Hex(start, 2);
    ".start " + Hex(start, 2)
  }

  class ObjectWriter {
    var output: string
    var bytesOnLine: nat
    var lineAddress: nat
    var startAddress: nat
    var startKnown: bool

    function State(): WriterState
      reads this
    {
      WriterState(output, bytesOnLine, lineAddress, startAddress, startKnown)
    }

    constructor ()
      ensures State() == Fresh()
    {
      output := ".abs\n";
      bytesOnLine, lineAddress, startAddress, startKnown := 0, 0, 0, false;
    }

    method SetStartAddress(address: nat)
      modifies this
      ensures State() == old(State()).(start := address, startKnown := true)
    {
      startAddress := address;
      startKnown := true;
    }

    method PreByteWritten()
      modifies this
      ensures State() == PreByteSpec(old(State()))
    {
      if bytesOnLine == 16 {
        output := output + "\n";
        bytesOnLine := 0;
        lineAddress := lineAddress + 16;
      } else if bytesOnLine > 0 {
        output := output + " ";
      }
      if bytesOnLine == 0 {
        output := output + Hex(lineAddress, 8) + "  ";
      }
      bytesOnLine := bytesOnLine + 1;
    }

    /** `writer << value` for an integer type of `size` bytes: each byte, most significant first. */
    method Out(value: int, size: nat)
      requires 1 <= size
      modifies this
      ensures State() == WriteBytes(old(State()), BytesOf(value, size))
    {
      ghost var bytes := BytesOf(value, size);
      var i := 8 * (size - 1);
      ghost var k := 0;
      assert bytes[..0] == [];
      while i > 0
        invariant k < size && i == 8 * (size - 1 - k)
        invariant State() == WriteBytes(old(State()), bytes[..k])
      {
        assert bytes[k] == ByteAt(value, i);
        WriteByte(ByteAt(value, i));
        WriteBytesSnoc(old(State()), bytes, k);
        i, k := i - 8, k + 1;
      }
      assert k == size - 1 && bytes[k] == ByteAt(value, 0);
      WriteByte(ByteAt(value, 0));
      WriteBytesSnoc(old(State()), bytes, k);
      assert bytes[..k + 1] == bytes;
    }

    /** One byte of Out: PreByteWritten, then the byte as two zero-padded hex digits. */
    method WriteByte(b: Byte)
      modifies this
      ensures State() == ByteSpec(old(State()), b)
    {
      PreByteWritten();
      output := output + Hex(b, 2);
    }

    /** The destructor: the trailer, when a start address is known. */
    method Close()
      modifies this
      ensures State() == old(State()).(output := old(output) + Trailer(old(State())))
    {
      if startKnown {
        var ending := if bytesOnLine != 0 then "\n" else "";
        var trailer := ending + "\n\n\n\n" + StartLine(startAddress) + "\n";
        assert trailer == Trailer(State());
        output := output + trailer;
      }
    }
  }

  lemma WriteBytesSnoc(w: WriterState, bytes: seq<Byte>, k: nat)
    requires k < |bytes|
    ensures WriteBytes(w, bytes[..k + 1]) == ByteSpec(WriteBytes(w, bytes[..k]), bytes[k])
  {
    assert bytes[..k + 1][..k] == bytes[..k];
  }

  /** Writing a + b is writing a, then b. */
  lemma {:induction false} WriteBytesAppend(w: WriterState, a: seq<Byte>, b: seq<Byte>)
    ensures WriteBytes(w, a + b) == WriteBytes(WriteBytes(w, a), b)
    decreases |b|
  {
    if |b| == 0 {
      assert a + b == a;
    } else {
      assert (a + b)[..|a + b| - 1] == a + b[..|b| - 1];
      WriteBytesAppend(w, a, b[..|b| - 1]);
    }
  }

  /** Each byte passes through PreByteWritten once: from a fresh writer, n bytes leave the count and the line where 16 to a line puts them. */
  lemma {:induction false} ByteCount(bytes: seq<Byte>)
    requires |bytes| > 0
    ensures WriteBytes(Fresh(), bytes).bytesOnLine == (|bytes| - 1) % 16 + 1
    ensures WriteBytes(Fresh(), bytes).lineAddress == 16 * ((|bytes| - 1) / 16)
  {
    var prefix, b := bytes[..|bytes| - 1], bytes[|bytes| - 1];
    var w := WriteBytes(Fresh(), prefix);
    assert WriteBytes(Fresh(), bytes) == ByteSpec(w, b);
    ByteCounts(w, b);
    if |bytes| > 1 {
      ByteCount(prefix);
      CountStep(|bytes| - 2);
    }
  }

  /** What one byte does to the counts. */
  lemma ByteCounts(w: WriterState, b: Byte)
    ensures ByteSpec(w, b).bytesOnLine == if w.bytesOnLine == 16 then 1 else w.bytesOnLine + 1
    ensures ByteSpec(w, b).lineAddress == if w.bytesOnLine == 16 then w.lineAddress + 16 else w.lineAddress
  {
  }

  lemma CountStep(m: nat)
    ensures m % 16 == 15 ==> (m + 1) % 16 == 0 && (m + 1) / 16 == m / 16 + 1
    ensures m % 16 < 15 ==> (m + 1) % 16 == m % 16 + 1 && (m + 1) / 16 == m / 16
  {
  }

  /** Setting the start address does not interfere with the bytes. */
  lemma {:induction false} StartCommutes(w: WriterState, bytes: seq<Byte>, address: nat)
    ensures WriteBytes(w.(start := address, startKnown := true), bytes)
              == WriteBytes(w, bytes).(start := address, startKnown := true)
    decreases |bytes|
  {
    if |bytes| > 0 {
      StartCommutes(w, bytes[..|bytes| - 1], address);
    }
  }

  /** The bytes of an unsigned value that fits in `size` bytes read back as the value. */
  lemma {:induction false} BytesOfValue(value: nat, size: nat)
    requires value < Pow2(8 * size)
    ensures BigEndian(BytesOf(value, size)) == value
  {
    if size > 0 {
      var bytes := BytesOf(value, size);
      var high := BytesOf(value / 256, size - 1);
      forall k | 0 <= k < size - 1
        ensures bytes[k] == high[k]
      {
        ShiftAdd(value, 8, 8 * (size - 2 - k));
        ShiftEight(value);
      }
      assert bytes[..size - 1] == high;
      assert Pow2(8 * size) == 256 * Pow2(8 * (size - 1)) by {
        Pow2Add(8, 8 * (size - 1));
        Pow2Values();
      }
      BytesOfValue(value / 256, size - 1);
    }
  }

  /** Shifting by a + b is shifting by a, then by b. */
  lemma {:induction false} ShiftAdd(v: int, a: nat, b: nat)
    ensures Shift(v, a + b) == Shift(Shift(v, a), b)
    decreases a
  {
    if a > 0 {
      ShiftAdd(v / 2, a - 1, b);
    }
  }

  /** Eight halvings are a division by 256. */
  lemma ShiftEight(v: int)
    ensures Shift(v, 8) == v / 256
  {
    HalfShift(v, 1, 7);
    HalfShift(v, 2, 6);
    HalfShift(v, 4, 5);
    HalfShift(v, 8, 4);
    HalfShift(v, 16, 3);
    HalfShift(v, 32, 2);
    HalfShift(v, 64, 1);
    HalfShift(v, 128, 0);
  }

  /** One halving of v / d, for the powers of two d that ShiftEight goes through. */
  lemma HalfShift(v: int, d: int, n: nat)
    requires d == 1 || d == 2 || d == 4 || d == 8 || d == 16 || d == 32 || d == 64 || d == 128
    ensures Shift(v / d, n + 1) == Shift(v / (2 * d), n)
  {
    var q := v / d;
    assert q / 2 == v / (2 * d);
  }

  /** The four bytes of a 32-bit word, most significant first. */
  lemma WordBytes(v: int)
    ensures BytesOf(v, 4) == [(v / 0x100_0000) % 256, (v / 0x1_0000) % 256, (v / 256) % 256, v % 256]
  {
    ShiftEight(v);
    ShiftEight(v / 256);
    ShiftEight(v / 256 / 256);
    ShiftAdd(v, 8, 8);
    ShiftAdd(v, 16, 8);
    assert v / 256 / 256 == v / 0x1_0000;
    assert v / 256 / 256 / 256 == v / 0x100_0000;
  }

  /** The bytes of the word clr r1 assembles to, 0x20010000. */
  lemma FirstWordBytes()
    ensures BytesOf(0x2001_0000, 4) == [0x20, 0x01, 0x00, 0x00]
  {
    var v := 0x2001_0000;
    WordBytes(v);
    assert v / 0x100_0000 % 256 == 0x20 && v / 0x1_0000 % 256 == 0x01;
    assert v / 256 % 256 == 0 && v % 256 == 0;
  }

  /** A four-byte word is four bytes in a row. */
  lemma FourBytes(w: WriterState, b0: Byte, b1: Byte, b2: Byte, b3: Byte)
    ensures WriteBytes(w, [b0, b1, b2, b3]) == ByteSpec(ByteSpec(ByteSpec(ByteSpec(w, b0), b1), b2), b3)
  {
    var s := [b0, b1, b2, b3];
    assert s[..3] == [b0, b1, b2] && s[..3][..2] == [b0, b1] && s[..3][..2][..1] == [b0];
    assert [b0][..0] == [];
    assert WriteBytes(w, [b0]) == ByteSpec(w, b0);
    assert WriteBytes(w, [b0, b1]) == ByteSpec(WriteBytes(w, [b0]), b1);
    assert WriteBytes(w, [b0, b1, b2]) == ByteSpec(WriteBytes(w, [b0, b1]), b2);
  }

  /** The first word the assembler's example writes: clr r1 is 0x20010000, the line "00000000  20 01 00 00". */
  lemma FirstWordLine()
    ensures WriteBytes(Fresh(), BytesOf(0x2001_0000, 4)).output == ".abs\n00000000  20 01 00 00"
  {
    FirstWordBytes();
    FirstWordWritten();
    HexAddressZero();
    HexByteDigits(0x20, "20");
    HexByteDigits(0x01, "01");
    HexByteDigits(0, "00");
    FirstWordText(Hex(0, 8), Hex(0x20, 2), Hex(0x01, 2), Hex(0, 2));
  }

  /** The four bytes of the word from a fresh writer: the address head, then the pairs with spaces between. */
  lemma FirstWordWritten()
    ensures WriteBytes(Fresh(), [0x20, 0x01, 0x00, 0x00]).output ==
              ".abs\n" + Hex(0, 8) + "  " + Hex(0x20, 2) + " " + Hex(0x01, 2) + " " + Hex(0, 2) + " " + Hex(0, 2)
  {
    FourBytes(Fresh(), 0x20, 0x01, 0x00, 0x00);
    var w1 := ByteSpec(Fresh(), 0x20);
    var w2 := ByteSpec(w1, 0x01);
    var w3 := ByteSpec(w2, 0x00);
    PreByteText(Fresh());
    PreByteText(w1);
    PreByteText(w2);
    PreByteText(w3);
  }

  lemma FirstWordText(address: string, b0: string, b1: string, b2: string)
    requires address == "00000000" && b0 == "20" && b1 == "01" && b2 == "00"
    ensures ".abs\n" + address + "  " + b0 + " " + b1 + " " + b2 + " " + b2 == ".abs\n00000000  20 01 00 00"
  {
  }

  lemma HexAddressZero()
    ensures Hex(0, 8) == "00000000"
  {
    assert HexWidth(0, 8) == 8 && HexDigits(0, 8) == "00000000";
  }

  lemma HexByteDigits(b: Byte, digits: string)
    requires digits == [HexChar(b / 16), HexChar(b % 16)]
    ensures Hex(b, 2) == digits
  {
    assert HexWidth(b, 2) == 2;
    assert HexDigits(b / 16, 1) == HexDigits(b / 16 / 16, 0) + [HexChar(b / 16 % 16)];
  }

  /** A line's bytes as two-digit pairs with one space between them. */
  function Pairs(c: seq<Byte>): (s: string)
    requires |c| > 0
    decreases |c|
  {
    if |c| == 1 then Hex(c[0], 2) else Hex(c[0], 2) + " " + Pairs(c[1..])
  }

  /** An object-file data line: the 8-digit address of its first byte, two spaces, the pairs. */
  function DataLine(address: nat, c: seq<Byte>): string
    requires |c| > 0
  {
    Hex(address, 8) + "  " + Pairs(c)
  }

  /** The data lines of bytes placed from `address` on, sixteen to a line. */
  function DataLines(bytes: seq<Byte>, address: nat): (lines: seq<string>)
    ensures |lines| == (|bytes| + 15) / 16
    decreases |bytes|
  {
    if |bytes| == 0 then []
    else if |bytes| <= 16 then [DataLine(address, bytes)]
    else [DataLine(address, bytes[..16])] + DataLines(bytes[16..], address + 16)
  }

  /** A text made of lines, each ended by a newline. */
  function Join(lines: seq<string>): string
  {
    if |lines| == 0 then "" else lines[0] + "\n" + Join(lines[1..])
  }

  /** The lines of the object file for `bytes` from address 0 with start address `start`. */
  function ImageLines(bytes: seq<Byte>, start: nat): seq<string>
  {
    [".abs"] + DataLines(bytes, 0) + ["", "", "", "", StartLine(start)]
  }

  lemma {:induction false} PairsSnoc(c: seq<Byte>, b: Byte)
    requires |c| > 0
    ensures Pairs(c + [b]) == Pairs(c) + " " + Hex(b, 2)
    decreases |c|
  {
    if |c| == 1 {
      assert (c + [b])[1..] == [b];
    } else {
      assert (c + [b])[1..] == c[1..] + [b];
      PairsSnoc(c[1..], b);
    }
  }

  /** A writer at a line boundary (nothing written yet, or a full line) writes up to 16 bytes as one data line. */
  predicate LineBoundary(w: WriterState, address: nat)
  {
    (w.bytesOnLine == 0 && w.lineAddress == address) || (w.bytesOnLine == 16 && w.lineAddress + 16 == address)
  }

  function LineBreak(w: WriterState): string
  {
    if w.bytesOnLine == 16 then "\n" else ""
  }

  lemma {:induction false} LineWritten(w: WriterState, address: nat, c: seq<Byte>)
    requires LineBoundary(w, address) && 1 <= |c| <= 16
    ensures WriteBytes(w, c).output == w.output + LineBreak(w) + DataLine(address, c)
    ensures WriteBytes(w, c).bytesOnLine == |c| && WriteBytes(w, c).lineAddress == address
    decreases |c|
  {
    var prefix := c[..|c| - 1];
    if |c| == 1 {
      assert prefix == [];
      FirstByteOfLine(w, address, c[0]);
    } else {
      LineWritten(w, address, prefix);
      NextByteOfLine(w, address, prefix, c[|c| - 1]);
      assert c == prefix + [c[|c| - 1]];
    }
  }

  lemma FirstByteOfLine(w: WriterState, address: nat, b: Byte)
    requires LineBoundary(w, address)
    ensures WriteBytes(w, [b]).output == w.output + LineBreak(w) + DataLine(address, [b])
    ensures WriteBytes(w, [b]).bytesOnLine == 1 && WriteBytes(w, [b]).lineAddress == address
  {
    var o, head, digits := w.output + LineBreak(w), Hex(address, 8) + "  ", Hex(b, 2);
    assert WriteBytes(w, [b]) == ByteSpec(w, b) by { assert [b][..0] == []; }
    assert PreByteSpec(w).output == o + head by {
      PreByteText(w);
      if w.bytesOnLine == 16 {
        Regroup3(w.output + "\n", Hex(address, 8), "  ");
      } else {
        assert o == w.output + "" == w.output;
        Regroup3(w.output, Hex(address, 8), "  ");
      }
    }
    assert DataLine(address, [b]) == head + digits;
    Regroup3(o, head, digits);
  }

  lemma Regroup3(o: string, head: string, digits: string)
    ensures (o + head) + digits == o + (head + digits)
  {
  }

  lemma NextByteOfLine(w: WriterState, address: nat, prefix: seq<Byte>, b: Byte)
    requires 1 <= |prefix| < 16
    requires WriteBytes(w, prefix).output == w.output + LineBreak(w) + DataLine(address, prefix)
    requires WriteBytes(w, prefix).bytesOnLine == |prefix| && WriteBytes(w, prefix).lineAddress == address
    ensures WriteBytes(w, prefix + [b]).output == w.output + LineBreak(w) + DataLine(address, prefix + [b])
    ensures WriteBytes(w, prefix + [b]).bytesOnLine == |prefix| + 1 && WriteBytes(w, prefix + [b]).lineAddress == address
  {
    ByteWithinLine(w, prefix, b);
    PairsSnoc(prefix, b);
    LineExtended(WriteBytes(w, prefix).output, w.output + LineBreak(w), Hex(address, 8) + "  ", Pairs(prefix), Hex(b, 2));
  }

  /** A byte that is not the first on its line is a space and its two digits. */
  lemma ByteWithinLine(w: WriterState, prefix: seq<Byte>, b: Byte)
    requires 1 <= WriteBytes(w, prefix).bytesOnLine < 16
    ensures WriteBytes(w, prefix + [b]).output == WriteBytes(w, prefix).output + " " + Hex(b, 2)
    ensures WriteBytes(w, prefix + [b]).bytesOnLine == WriteBytes(w, prefix).bytesOnLine + 1
    ensures WriteBytes(w, prefix + [b]).lineAddress == WriteBytes(w, prefix).lineAddress
  {
    var before := WriteBytes(w, prefix);
    assert (prefix + [b])[..|prefix|] == prefix;
    PreByteText(before);
  }

  lemma LineExtended(x: string, o: string, head: string, pairs: string, digits: string)
    requires x == o + (head + pairs)
    ensures x + " " + digits == o + (head + (pairs + " " + digits))
  {
  }

  /** From w, the bytes come out as their data lines from `address` on, the last one not yet ended. */
  predicate WritesLines(w: WriterState, address: nat, bytes: seq<Byte>)
  {
    WriteBytes(w, bytes).output + "\n" == w.output + LineBreak(w) + Join(DataLines(bytes, address)) &&
    WriteBytes(w, bytes).bytesOnLine > 0
  }

  /** From a line boundary, the bytes come out as their data lines, the last one not yet ended. */
  lemma {:induction false} LinesWritten(w: WriterState, address: nat, bytes: seq<Byte>)
    requires LineBoundary(w, address) && |bytes| > 0
    ensures WritesLines(w, address, bytes)
    decreases |bytes|
  {
    if |bytes| <= 16 {
      LastLineWritten(w, address, bytes);
    } else {
      var c, rest := bytes[..16], bytes[16..];
      assert bytes == c + rest;
      var v := WriteBytes(w, c);
      FullLineWritten(w, address, c);
      LinesWritten(v, address + 16, rest);
      LinesAfterFirst(w, address, bytes, c, rest, v);
    }
  }

  /** The step of LinesWritten for at most one line's bytes. */
  lemma LastLineWritten(w: WriterState, address: nat, bytes: seq<Byte>)
    requires LineBoundary(w, address) && 1 <= |bytes| <= 16
    ensures WritesLines(w, address, bytes)
  {
    LineWritten(w, address, bytes);
    assert DataLines(bytes, address) == [DataLine(address, bytes)];
    JoinOne(DataLine(address, bytes));
  }

  /** A full line leaves the writer at the next line boundary. */
  lemma FullLineWritten(w: WriterState, address: nat, c: seq<Byte>)
    requires LineBoundary(w, address) && |c| == 16
    ensures WriteBytes(w, c).output == w.output + LineBreak(w) + DataLine(address, c)
    ensures LineBoundary(WriteBytes(w, c), address + 16) && WriteBytes(w, c).bytesOnLine == 16
  {
    LineWritten(w, address, c);
  }

  /** The step of LinesWritten past a full first line. */
  lemma LinesAfterFirst(w: WriterState, address: nat, bytes: seq<Byte>, c: seq<Byte>, rest: seq<Byte>, v: WriterState)
    requires bytes == c + rest && |c| == 16 && |rest| > 0 && v == WriteBytes(w, c)
    requires v.output == w.output + LineBreak(w) + DataLine(address, c)
    requires v.bytesOnLine == 16
    requires WritesLines(v, address + 16, rest)
    ensures WritesLines(w, address, bytes)
  {
    var r := WriteBytes(v, rest);
    var tail := Join(DataLines(rest, address + 16));
    assert LineBreak(v) == "\n";
    assert r.output + "\n" == v.output + "\n" + tail && r.bytesOnLine > 0;
    WriteBytesAppend(w, c, rest);
    var line := DataLine(address, c);
    assert bytes[..16] == c && bytes[16..] == rest;
    assert DataLines(bytes, address) == [line] + DataLines(rest, address + 16);
    JoinCons(line, DataLines(rest, address + 16));
    Regroup(r.output + "\n", w.output, LineBreak(w), line, tail);
  }

  lemma Regroup(x: string, o: string, b: string, line: string, j: string)
    requires x == o + b + line + "\n" + j
    ensures x == o + b + (line + "\n" + j)
  {
  }

  lemma JoinOne(line: string)
    ensures Join([line]) == line + "\n"
  {
    assert [line][1..] == [];
  }

  lemma JoinCons(line: string, lines: seq<string>)
    ensures Join([line] + lines) == line + "\n" + Join(lines)
  {
    assert ([line] + lines)[1..] == lines;
  }

  lemma {:induction false} JoinAppend(a: seq<string>, b: seq<string>)
    ensures Join(a + b) == Join(a) + Join(b)
    decreases |a|
  {
    if |a| == 0 {
      assert a + b == b;
    } else {
      assert (a + b)[1..] == a[1..] + b;
      JoinAppend(a[1..], b);
    }
  }

  lemma JoinTail(last: string)
    ensures Join(["", "", "", "", last]) == "\n\n\n\n" + last + "\n"
  {
    var t := ["", "", "", "", last];
    assert [last][1..] == [];
    assert Join([last]) == last + "\n";
    assert ["", last][1..] == [last];
    assert Join(["", last]) == "\n" + last + "\n";
    assert ["", "", last][1..] == ["", last];
    assert Join(["", "", last]) == "\n\n" + last + "\n";
    assert ["", "", "", last][1..] == ["", "", last];
    assert Join(["", "", "", last]) == "\n\n\n" + last + "\n";
    assert t[1..] == ["", "", "", last];
  }

  /**
   * The object file: writing bytes from a fresh writer whose start address
   * is set, then destroying it, produces exactly the image's lines.
   */
  lemma ImageText(bytes: seq<Byte>, start: nat)
    ensures var w := WriteBytes(Fresh().(start := start, startKnown := true), bytes);
      w.output + Trailer(w) == Join(ImageLines(bytes, start))
  {
    var w0 := Fresh().(start := start, startKnown := true);
    var w := WriteBytes(w0, bytes);
    var last := StartLine(start);
    var data := Join(DataLines(bytes, 0));
    ImageJoin(bytes, start);
    if |bytes| > 0 {
      LinesWritten(w0, 0, bytes);
      assert LineBreak(w0) == [];
      assert w.output + "\n" == ".abs\n" + data by {
        assert w0.output + LineBreak(w0) == ".abs\n";
      }
      assert Trailer(w) == "\n" + "\n\n\n\n" + last + "\n" by {
        assert w.startKnown && w.start == start && w.bytesOnLine != 0;
      }
      ImageRegroup(w.output, data, last, Trailer(w), Join(ImageLines(bytes, start)));
    } else {
      assert DataLines(bytes, 0) == [];
      assert w == w0;
      assert Trailer(w) == "" + "\n\n\n\n" + last + "\n";
      EmptyImage(w.output, data, last, Trailer(w), Join(ImageLines(bytes, start)));
    }
  }

  /** The image's text: ".abs", the data lines, four blank lines and the start line, each ended. */
  lemma ImageJoin(bytes: seq<Byte>, start: nat)
    ensures Join(ImageLines(bytes, start)) ==
              ".abs" + "\n" + (Join(DataLines(bytes, 0)) + ("\n\n\n\n" + StartLine(start) + "\n"))
  {
    var last := StartLine(start);
    var data := DataLines(bytes, 0);
    var tail := ["", "", "", "", last];
    assert ImageLines(bytes, start) == [".abs"] + (data + tail);
    JoinCons(".abs", data + tail);
    JoinAppend(data, tail);
    JoinTail(last);
  }

  lemma EmptyImage(o: string, j: string, last: string, t: string, image: string)
    requires o == ".abs\n" && j == []
    requires t == "" + "\n\n\n\n" + last + "\n"
    requires image == ".abs" + "\n" + (j + ("\n\n\n\n" + last + "\n"))
    ensures o + t == image
  {
  }

  lemma ImageRegroup(o: string, j: string, last: string, t: string, image: string)
    requires o + "\n" == ".abs\n" + j
    requires t == "\n" + "\n\n\n\n" + last + "\n"
    requires image == ".abs" + "\n" + (j + ("\n\n\n\n" + last + "\n"))
    ensures o + t == image
  {
    var r := "\n\n\n\n" + last + "\n";
    assert t == "\n" + r;
    assert o + t == (o + "\n") + r;
    assert image == (".abs\n" + j) + r;
  }
}
