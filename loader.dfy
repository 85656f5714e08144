/**
 * The emulator's loader for the textual object format: a first line
 * ".abs", then address lines "XXXXXXXX  hh hh ..." whose byte pairs are
 * stored at consecutive addresses, and ".start XXXXXXXX" lines that set the
 * program counter. The file is the sequence of its lines.
 */
module Loader {
  import opened FixedWidth
  import opened Wrappers
  import opened Text
  import opened MemoryUnit
  import opened Emulator

  /** How a load ends. Every status but Loaded stops reading at once; what was stored stays stored. */
  datatype LoadStatus =
    | Loaded          // every line was read
    | NotAbsolute     // the first line is not ".abs": nothing is loaded
    | Unmapped        // an address line names an address outside every block
    | NotHexDigit     // a data character is neither white space nor a hex digit
    | UnpairedDigit   // a hex digit is not followed by a second one
    | PastBlockEnd    // the line's bytes run past the end of the block (undefined behaviour in the C++)

  /** Messages about lines that are skipped without stopping the load. */
  datatype Diagnostic = ExpectedStartAddress | ExpectedAddress

  /** What the loader knows between lines: memory, pc, the cached block and the messages so far. */
  datatype LoaderState = LoaderState(contents: seq<BlockView>, pc: Uint32, current: Option<nat>, diagnostics: seq<Diagnostic>)

  datatype Progress = Progress(status: LoadStatus, state: LoaderState)

  datatype LoadResult = LoadResult(status: LoadStatus, contents: seq<BlockView>, pc: Uint32, diagnostics: seq<Diagnostic>)

  /** The bytes decoded from a line, and the error that ended the decoding, if any. */
  datatype LineData = LineData(bytes: seq<Byte>, error: Option<LoadStatus>)

  predicate Consistent(st: LoaderState)
  {
    WellFormed(st.contents) && (st.current.Some? ==> st.current.value < |st.contents|)
  }

  /** The same blocks, with the same ranges and buffer sizes; only bytes may differ. */
  predicate SameLayout(a: seq<BlockView>, b: seq<BlockView>)
  {
    |a| == |b| &&
    forall i :: 0 <= i < |a| ==> a[i].start == b[i].start && a[i].end == b[i].end && |a[i].bytes| == |b[i].bytes|
  }

  /** sscanf's "%08X": white space, then a field of at most eight characters, read by ScanHex. */
  function ScanAddress(s: string): (r: Option<Uint32>)
    ensures r.Some? <==> ScanHex(s, 8).Some?
    ensures r.Some? ==> r.value == ScanHex(s, 8).value
    ensures (forall i :: 0 <= i < |s| ==> IsSpace(s[i])) ==> r.None?
  {
    match ScanHex(s, 8)
    case None => None
    case Some(v) => Some(v)
  }

  /** The byte a pair of hex digits stands for: high digit first. */
  function PairValue(c: char, c2: char): Byte
    requires IsHexDigit(c) && IsHexDigit(c2)
  {
    16 * HexDigitValue(c) + HexDigitValue(c2)
  }

  /**
   * The data of a line from column i on: white space is skipped, every other
   * character must be a hex digit followed by a second one (the character
   * past the end reads as NUL, which is not a digit).
   */
  function DecodeFrom(line: string, i: nat): (r: LineData)
    ensures r.error.Some? ==> r.error.value == NotHexDigit || r.error.value == UnpairedDigit
    decreases |line| - i
  {
    if i >= |line| then LineData([], None)
    else
      var c := ToUpper(line[i]);
      if IsSpace(c) then DecodeFrom(line, i + 1)
      else if !IsHexDigit(c) then LineData([], Some(NotHexDigit))
      else
        var c2 := ToUpper(if i + 1 < |line| then line[i + 1] else '\0');
        if !IsHexDigit(c2) then LineData([], Some(UnpairedDigit))
        else
          var rest := DecodeFrom(line, i + 2);
          LineData([PairValue(c, c2)] + rest.bytes, rest.error)
  }

  /** The buffer with `data` written from `offset` on. */
  function Splice(bytes: seq<Byte>, offset: nat, data: seq<Byte>): (r: seq<Byte>)
    requires offset + |data| <= |bytes|
    ensures |r| == |bytes|
    ensures forall k :: 0 <= k < |data| ==> r[offset + k] == data[k]
    ensures forall j :: 0 <= j < |bytes| && !(offset <= j < offset + |data|) ==> r[j] == bytes[j]
  {
    bytes[..offset] + data + bytes[offset + |data|..]
  }

  /**
   * Storing an address line's data into block b from `offset` on. The bytes
   * are written as they are decoded, so those before an error stay written;
   * a byte that would land past the block's end stops the load.
   */
  function StoreLine(bytes: seq<Byte>, offset: nat, line: string): (r: (seq<Byte>, LoadStatus))
    requires offset < |bytes|
    ensures |r.0| == |bytes|
    ensures r.1 == Loaded || r.1 == NotHexDigit || r.1 == UnpairedDigit || r.1 == PastBlockEnd
  {
    var data := DecodeFrom(line, 8);
    var room := |bytes| - offset;
    if |data.bytes| > room then (Splice(bytes, offset, data.bytes[..room]), PastBlockEnd)
    else (Splice(bytes, offset, data.bytes), if data.error.Some? then data.error.value else Loaded)
  }

  /**
   * The block an address line is stored into: the cached one when it holds
   * the address, and otherwise the first block that does.
   */
  function SelectBlock(contents: seq<BlockView>, current: Option<nat>, address: Uint32): (r: Option<nat>)
    requires current.Some? ==> current.value < |contents|
    ensures r.Some? ==> r.value < |contents| && Contains(contents[r.value], address)
    ensures r.None? <==> forall i :: 0 <= i < |contents| ==> !Contains(contents[i], address)
    ensures current.Some? && Contains(contents[current.value], address) ==> r == current
  {
    if current.Some? && Contains(contents[current.value], address) then current
    else FindBlock(contents, address)
  }

  /** An address line: find the block (the cached one if it holds the address) and store the data. */
  function AddressLine(st: LoaderState, address: Uint32, line: string): (r: Progress)
    requires Consistent(st)
    ensures Consistent(r.state) && SameLayout(r.state.contents, st.contents)
    ensures r.status != NotAbsolute && r.state.pc == st.pc && r.state.diagnostics == st.diagnostics
  {
    var current := SelectBlock(st.contents, st.current, address);
    if current.None? then Progress(LoadStatus.Unmapped, st.(current := None))
    else
      var i := current.value;
      var b := st.contents[i];
      var stored := StoreLine(b.bytes, address - b.start, line);
      Progress(stored.1, st.(contents := st.contents[i := b.(bytes := stored.0)], current := current))
  }

  /** A line that is not an address line: ".start" and its address, or a message. */
  function OtherLine(st: LoaderState, line: string): (r: Progress)
    ensures r.status == Loaded && r.state.contents == st.contents && r.state.current == st.current
    ensures |r.state.diagnostics| <= |st.diagnostics| + 1
  {
    if |line| >= 6 && line[..6] == ".start" then
      match ScanAddress(line[6..])
      case Some(address) => Progress(Loaded, st.(pc := address))
      case None => Progress(Loaded, st.(diagnostics := st.diagnostics + [ExpectedStartAddress]))
    else Progress(Loaded, st.(diagnostics := st.diagnostics + [ExpectedAddress]))
  }

  /** The effect of one line after the first. */
  function LoadLine(st: LoaderState, line: string): (r: Progress)
    requires Consistent(st)
    ensures Consistent(r.state) && SameLayout(r.state.contents, st.contents)
    ensures r.status != NotAbsolute
    ensures r.status == Loaded ==> |st.diagnostics| <= |r.state.diagnostics| <= |st.diagnostics| + 1
  {
    if |line| == 0 then Progress(Loaded, st)
    else match ScanAddress(line)
      case Some(address) => AddressLine(st, address, line)
      case None => OtherLine(st, line)
  }

  /** The lines in order, stopping at the first that does not end in Loaded. */
  function LoadLines(st: LoaderState, lines: seq<string>): (r: Progress)
    requires Consistent(st)
    ensures Consistent(r.state) && SameLayout(r.state.contents, st.contents)
    ensures r.status != NotAbsolute
    ensures r.status == Loaded ==> |st.diagnostics| <= |r.state.diagnostics| <= |st.diagnostics| + |lines|
    decreases |lines|
  {
    if |lines| == 0 then Progress(Loaded, st)
    else
      var p := LoadLine(st, lines[0]);
      if p.status != Loaded then p else LoadLines(p.state, lines[1..])
  }

  /** LoadDlxFile: only a file whose first line is exactly ".abs" is loaded. */
  function Load(lines: seq<string>, contents: seq<BlockView>, pc: Uint32): (r: LoadResult)
    requires WellFormed(contents)
    ensures SameLayout(r.contents, contents) && WellFormed(r.contents)
    ensures r.status == NotAbsolute <==> |lines| == 0 || lines[0] != ".abs"
    ensures r.status == NotAbsolute ==> r == LoadResult(NotAbsolute, contents, pc, [])
    ensures r.status == Loaded ==> |r.diagnostics| < |lines|
  {
    if |lines| == 0 || lines[0] != ".abs" then LoadResult(NotAbsolute, contents, pc, [])
    else
      var p := LoadLines(LoaderState(contents, pc, None, []), lines[1..]);
      LoadResult(p.status, p.state.contents, p.state.pc, p.state.diagnostics)
  }

  /** Loading a + b is loading a and, if that did not stop, loading b from where a left off. */
  lemma {:induction false} LoadLinesAppend(st: LoaderState, a: seq<string>, b: seq<string>)
    requires Consistent(st)
    ensures LoadLines(st, a + b) ==
              (var p := LoadLines(st, a); if p.status != Loaded then p else LoadLines(p.state, b))
    decreases |a|
  {
    if |a| == 0 {
      assert a + b == b;
    } else {
      assert (a + b)[0] == a[0];
      assert (a + b)[1..] == a[1..] + b;
      var p := LoadLine(st, a[0]);
      if p.status == Loaded {
        LoadLinesAppend(p.state, a[1..], b);
      }
    }
  }

  /** Once a load stops, nothing after the stopping line has any effect. */
  lemma LoadStops(lines: seq<string>, more: seq<string>, contents: seq<BlockView>, pc: Uint32)
    requires WellFormed(contents) && |lines| > 0 && Load(lines, contents, pc).status != Loaded
    ensures Load(lines + more, contents, pc) == Load(lines, contents, pc)
  {
    if |lines| > 0 && lines[0] == ".abs" {
      assert (lines + more)[0] == lines[0];
      assert (lines + more)[1..] == lines[1..] + more;
      LoadLinesAppend(LoaderState(contents, pc, None, []), lines[1..], more);
    }
  }

  /**
   * An address line whose data decodes cleanly and fits in the block that
   * holds its address stores the data at that address and the ones after it,
   * and changes no other byte.
   */
  lemma AddressLineStores(st: LoaderState, line: string, address: Uint32, i: nat)
    requires Consistent(st) && |line| > 0 && ScanAddress(line) == Some(address)
    requires st.current.None? && FindBlock(st.contents, address) == Some(i)
    requires DecodeFrom(line, 8).error.None?
    requires address - st.contents[i].start + |DecodeFrom(line, 8).bytes| <= |st.contents[i].bytes|
    ensures var r := LoadLine(st, line);
      var data, offset := DecodeFrom(line, 8).bytes, address - st.contents[i].start;
      r.status == Loaded && r.state.pc == st.pc && r.state.diagnostics == st.diagnostics &&
      (forall k :: 0 <= k < |data| ==> r.state.contents[i].bytes[offset + k] == data[k]) &&
      (forall j :: 0 <= j < |data| + offset ==> j < offset ==> r.state.contents[i].bytes[j] == st.contents[i].bytes[j]) &&
      (forall j :: offset + |data| <= j < |st.contents[i].bytes| ==> r.state.contents[i].bytes[j] == st.contents[i].bytes[j]) &&
      (forall j :: 0 <= j < |st.contents| && j != i ==> r.state.contents[j] == st.contents[j])
  {
    var b := st.contents[i];
    var data, offset := DecodeFrom(line, 8).bytes, address - b.start;
    var stored := StoreLine(b.bytes, offset, line);
    assert stored == (Splice(b.bytes, offset, data), Loaded);
    AddressLineStored(st, address, line, i, stored);
    assert LoadLine(st, line) == AddressLine(st, address, line);
  }

  /**
   * A line that begins with a character other than white space, a sign or a
   * hex digit is not an address line.
   */
  lemma NotAnAddress(line: string)
    requires |line| > 0 && !IsSpace(line[0]) && !IsHexDigit(line[0]) && line[0] != '+' && line[0] != '-'
    ensures ScanAddress(line).None?
  {
    assert SkipSpace(line) == 0;
    assert line[0..] == line;
  }

  /**
   * A line opening with "-" and up to seven hex digits is an address line:
   * "-1" scans as 0xFFFFFFFF, so the line is stored there, or the load stops
   * when no block holds that address.
   */
  lemma {:induction false} SignedAddressLine(st: LoaderState, digits: string, rest: string)
    requires Consistent(st)
    requires 0 < |digits| <= 7 && forall i :: 0 <= i < |digits| ==> IsHexDigit(digits[i])
    requires rest == [] || IsSpace(rest[0])
    ensures var address := (TWO_32 - HexValue(digits)) % TWO_32;
      LoadLine(st, ['-'] + digits + rest) == AddressLine(st, address, ['-'] + digits + rest)
  {
    ScanHexSigned('-', digits, rest);
  }

  /** ".start 0x" and up to six digits: the prefix is skipped and the program counter is their value. */
  lemma {:induction false} StartPrefixed(st: LoaderState, x: char, digits: string, rest: string)
    requires Consistent(st) && (x == 'x' || x == 'X')
    requires |digits| <= 6 && forall i :: 0 <= i < |digits| ==> IsHexDigit(digits[i])
    requires rest == [] || IsSpace(rest[0])
    ensures HexValue(digits) < TWO_32
    ensures LoadLine(st, ".start " + (['0', x] + digits + rest)) == Progress(Loaded, st.(pc := HexValue(digits)))
  {
    HexValueBound(digits, 8);
    Pow16Eight();
    var field := ['0', x] + digits + rest;
    ScanHexPrefixed(x, digits, rest);
    ScanHexSpace(' ', field, 8);
    StartField(st, field, HexValue(digits));
  }

  /** The address after ".start" is the second field's value. */
  lemma StartAddress(address: Uint32, rest: string)
    ensures ScanAddress([' '] + (HexDigits(address, 8) + rest)) == Some(address)
  {
    Pow16Eight();
    ScanHexSpace(' ', HexDigits(address, 8) + rest, 8);
    ScanHexDigits(address, 8, rest);
  }

  /** ".start XXXXXXXX" sets the program counter to the address and changes nothing else. */
  lemma StartLineSetsPc(st: LoaderState, address: Uint32, rest: string)
    requires Consistent(st)
    ensures LoadLine(st, ".start " + (HexDigits(address, 8) + rest)) == Progress(Loaded, st.(pc := address))
  {
    StartAddress(address, rest);
    StartField(st, HexDigits(address, 8) + rest, address);
  }

  /** ".start", a space, and a field that scans as an address: the program counter is set. */
  lemma StartField(st: LoaderState, field: string, address: Uint32)
    requires Consistent(st) && ScanAddress([' '] + field) == Some(address)
    ensures LoadLine(st, ".start " + field) == Progress(Loaded, st.(pc := address))
  {
    StartFieldShape(field);
    StartDirective(st, ".start " + field, address);
  }

  /** ".start " followed by a field opens with ".start", and its second field is the space and the field. */
  lemma StartFieldShape(field: string)
    ensures var line := ".start " + field; |line| >= 7 && line[0] == '.' && line[..6] == ".start"
    ensures (".start " + field)[6..] == [' '] + field
  {
    var line := ".start " + field;
    assert line[..6] == ".start" by {
      assert forall i :: 0 <= i < 6 ==> line[i] == ".start"[i];
    }
  }

  /** A line that opens with ".start" and whose second field scans as an address sets the program counter. */
  lemma StartDirective(st: LoaderState, line: string, address: Uint32)
    requires Consistent(st) && |line| >= 6 && line[0] == '.' && line[..6] == ".start"
    requires ScanAddress(line[6..]) == Some(address)
    ensures LoadLine(st, line) == Progress(Loaded, st.(pc := address))
  {
    NotAnAddress(line);
  }

  /** An empty line is skipped: it has no effect at all. */
  lemma EmptyLineSkipped(st: LoaderState, rest: seq<string>)
    requires Consistent(st)
    ensures LoadLines(st, [""] + rest) == LoadLines(st, rest)
  {
    assert ([""] + rest)[1..] == rest;
  }

  /** The byte of an upper-cased hex pair, computed as the C++ does. */
  method PairByte(c: char, c2: char) returns (b: Byte)
    requires IsHexDigit(c) && IsHexDigit(c2) && ToUpper(c) == c && ToUpper(c2) == c2
    ensures b == PairValue(c, c2)
  {
    var data: int := if 'A' <= c <= 'F' then (10 + (c as int - 'A' as int)) * 16 else (c as int - '0' as int) * 16;
    data := data + if 'A' <= c2 <= 'F' then 10 + (c2 as int - 'A' as int) else c2 as int - '0' as int;
    b := data;
  }

  /**
   * The inner loop of LoadDlxFile as a recursion over the columns: the buffer
   * after storing the data from column k on at position `at`, and how it ends.
   */
  function StoreFrom(bytes: seq<Byte>, at: nat, line: string, k: nat): (r: (seq<Byte>, LoadStatus))
    requires at <= |bytes|
    ensures |r.0| == |bytes|
    ensures forall i :: 0 <= i < at ==> r.0[i] == bytes[i]
    ensures (forall i :: k <= i < |line| ==> IsSpace(line[i])) ==> r == (bytes, Loaded)
    decreases |line| - k
  {
    if k >= |line| then (bytes, Loaded)
    else
      var c := ToUpper(line[k]);
      if IsSpace(c) then StoreFrom(bytes, at, line, k + 1)
      else if !IsHexDigit(c) then (bytes, NotHexDigit)
      else
        var c2 := ToUpper(if k + 1 < |line| then line[k + 1] else '\0');
        if !IsHexDigit(c2) then (bytes, UnpairedDigit)
        else if at == |bytes| then (bytes, PastBlockEnd)
        else StoreFrom(bytes[at := PairValue(c, c2)], at + 1, line, k + 2)
  }

  /** Writing one byte and then a run after it is splicing the byte and the run together. */
  lemma SpliceCons(bytes: seq<Byte>, at: nat, value: Byte, data: seq<Byte>)
    requires at + 1 + |data| <= |bytes|
    ensures Splice(bytes[at := value], at + 1, data) == Splice(bytes, at, [value] + data)
  {
    var a, b := Splice(bytes[at := value], at + 1, data), Splice(bytes, at, [value] + data);
    assert |a| == |b|;
    forall j | 0 <= j < |a| ensures a[j] == b[j] {
      if at < j < at + 1 + |data| {
        assert a[j] == data[j - at - 1] == b[j];
      }
    }
  }

  /**
   * Storing column by column is storing the line's decoded data at once: all
   * of it when it fits, and otherwise as much as fits followed by PastBlockEnd.
   */
  lemma {:induction false} StoreFromSplice(bytes: seq<Byte>, at: nat, line: string, k: nat)
    requires at <= |bytes|
    ensures var data, room := DecodeFrom(line, k), |bytes| - at;
      StoreFrom(bytes, at, line, k) ==
        if |data.bytes| > room then (Splice(bytes, at, data.bytes[..room]), PastBlockEnd)
        else (Splice(bytes, at, data.bytes), if data.error.Some? then data.error.value else Loaded)
    decreases |line| - k
  {
    if k >= |line| {
      assert Splice(bytes, at, []) == bytes;
    } else {
      var c := ToUpper(line[k]);
      var c2 := ToUpper(if k + 1 < |line| then line[k + 1] else '\0');
      if IsSpace(c) {
        StoreFromSplice(bytes, at, line, k + 1);
      } else if !IsHexDigit(c) || !IsHexDigit(c2) {
        assert Splice(bytes, at, []) == bytes;
      } else if at == |bytes| {
        assert DecodeFrom(line, k).bytes[..0] == [];
        assert Splice(bytes, at, []) == bytes;
      } else {
        var value := PairValue(c, c2);
        var data, rest := DecodeFrom(line, k).bytes, DecodeFrom(line, k + 2).bytes;
        var room := |bytes| - at;
        StoreFromSplice(bytes[at := value], at + 1, line, k + 2);
        assert data == [value] + rest;
        if |data| > room {
          SpliceCons(bytes, at, value, rest[..room - 1]);
          assert [value] + rest[..room - 1] == data[..room];
        } else {
          SpliceCons(bytes, at, value, rest);
        }
      }
    }
  }

  /** The inner loop of LoadDlxFile: the data of one address line, written byte by byte into the block's buffer. */
  method WriteLineData(storage: array<Byte>, line: string, offset: nat) returns (status: LoadStatus)
    requires offset < storage.Length
    modifies storage
    ensures (storage[..], status) == StoreLine(old(storage[..]), offset, line)
  {
    StoreFromSplice(storage[..], offset, line, 8);
    ghost var goal := StoreFrom(storage[..], offset, line, 8);
    var at: nat := offset;
    var k := 8;
    while k < |line|
      invariant 8 <= k && at <= storage.Length
      invariant StoreFrom(storage[..], at, line, k) == goal
      decreases |line| - k
    {
      var c := ToUpper(line[k]);
      if IsSpace(c) {
        k := k + 1;
        continue;
      }
      if !IsHexDigit(c) {
        return NotHexDigit;
      }
      var c2 := ToUpper(if k + 1 < |line| then line[k + 1] else '\0');
      k := k + 1;
      if !IsHexDigit(c2) {
        return UnpairedDigit;
      }
      var data := PairByte(c, c2);
      if at == storage.Length {
        return PastBlockEnd;
      }
      storage[at] := data;
      at := at + 1;
      k := k + 1;
    }
    status := Loaded;
  }

  /** An address line's data stored into block i of the memory, from `offset` on. */
  method StoreLineData(mem: Memory, block: MemoryBlock, ghost i: nat, line: string, offset: nat) returns (status: LoadStatus)
    requires mem.Valid() && i < |mem.blocks| && mem.blocks[i] == block && offset < |mem.contents[i].bytes|
    modifies block.storage, mem`contents
    ensures mem.Valid()
    ensures (mem.contents[i].bytes, status) == StoreLine(old(mem.contents[i].bytes), offset, line)
    ensures mem.contents == old(mem.contents)[i := old(mem.contents[i]).(bytes := mem.contents[i].bytes)]
  {
    var storage := block.storage;
    assert forall j :: 0 <= j < |mem.blocks| && j != i ==> mem.blocks[j].storage != storage;
    status := WriteLineData(storage, line, offset);
    assert mem.ValidExcept(i);
    mem.Refresh(block, i);
  }

  /** The outcome of an address line whose block is block i, given the result of storing into it. */
  lemma AddressLineStored(st: LoaderState, address: Uint32, line: string, i: nat, stored: (seq<Byte>, LoadStatus))
    requires Consistent(st) && SelectBlock(st.contents, st.current, address) == Some(i)
    requires stored == StoreLine(st.contents[i].bytes, address - st.contents[i].start, line)
    ensures AddressLine(st, address, line)
              == Progress(stored.1, st.(contents := st.contents[i := st.contents[i].(bytes := stored.0)], current := Some(i)))
  {
  }

  /** The cached current block of the C++ as it stands before an address line's data is stored. */
  method ChooseBlock(mem: Memory, address: Uint32, current: MemoryBlock?, ghost index: Option<nat>)
    returns (current': MemoryBlock?, ghost index': Option<nat>)
    requires mem.Valid()
    requires index.Some? <==> current != null
    requires index.Some? ==> index.value < |mem.blocks| && mem.blocks[index.value] == current
    ensures index' == SelectBlock(mem.contents, index, address)
    ensures index'.Some? <==> current' != null
    ensures index'.Some? ==> mem.blocks[index'.value] == current'
  {
    current', index' := current, index;
    if current == null || !current.ContainsAddress(address) {
      current' := mem.Lookup(address);
      index' := FindBlock(mem.contents, address);
    } else {
      assert Contains(mem.contents[index.value], address);
    }
  }

  /** An address line, with `current` the cached current block of the C++. */
  method LoadAddressLine(mem: Memory, line: string, address: Uint32, current: MemoryBlock?, ghost index: Option<nat>,
                         ghost pc: Uint32, ghost diagnostics: seq<Diagnostic>)
    returns (status: LoadStatus, current': MemoryBlock?, ghost index': Option<nat>)
    requires mem.Valid()
    requires index.Some? <==> current != null
    requires index.Some? ==> index.value < |mem.blocks| && mem.blocks[index.value] == current
    modifies mem.Repr
    ensures mem.Valid() && mem.blocks == old(mem.blocks) && mem.Repr == old(mem.Repr)
    ensures index'.Some? <==> current' != null
    ensures index'.Some? ==> index'.value < |mem.blocks| && mem.blocks[index'.value] == current'
    ensures Progress(status, LoaderState(mem.contents, pc, index', diagnostics))
              == AddressLine(LoaderState(old(mem.contents), pc, index, diagnostics), address, line)
  {
    ghost var st := LoaderState(mem.contents, pc, index, diagnostics);
    current', index' := ChooseBlock(mem, address, current, index);
    if current' == null {
      return LoadStatus.Unmapped, current', None;
    }
    ghost var i := index'.value;
    ghost var b := mem.contents[i];
    status := StoreLineData(mem, current', i, line, address - current'.startAddress);
    AddressLineStored(st, address, line, i, (mem.contents[i].bytes, status));
  }

  /** One line after the first, with `current` the cached current block of the C++. */
  method LoadOneLine(machine: DLXMachine, line: string, current: MemoryBlock?, ghost index: Option<nat>, diagnostics: seq<Diagnostic>)
    returns (status: LoadStatus, current': MemoryBlock?, ghost index': Option<nat>, diagnostics': seq<Diagnostic>)
    requires machine.Valid()
    requires index.Some? <==> current != null
    requires index.Some? ==> index.value < |machine.mem.blocks| && machine.mem.blocks[index.value] == current
    modifies machine`programCounter, machine.mem.Repr
    ensures machine.Valid() && machine.mem.blocks == old(machine.mem.blocks) && machine.mem.Repr == old(machine.mem.Repr)
    ensures index'.Some? <==> current' != null
    ensures index'.Some? ==> index'.value < |machine.mem.blocks| && machine.mem.blocks[index'.value] == current'
    ensures Progress(status, LoaderState(machine.mem.contents, machine.programCounter, index', diagnostics'))
              == LoadLine(LoaderState(old(machine.mem.contents), old(machine.programCounter), index, diagnostics), line)
  {
    current', index', diagnostics' := current, index, diagnostics;
    status := Loaded;
    if |line| == 0 {
      return;
    }
    var address := ScanAddress(line);
    if address.Some? {
      status, current', index' := LoadAddressLine(machine.mem, line, address.value, current, index, machine.programCounter, diagnostics);
    } else if |line| >= 6 && line[..6] == ".start" {
      var start := ScanAddress(line[6..]);
      if start.Some? {
        machine.SetProgramCounter(start.value);
      } else {
        diagnostics' := diagnostics' + [ExpectedStartAddress];
      }
    } else {
      diagnostics' := diagnostics' + [ExpectedAddress];
    }
  }

  /** LoadDlxFile over the lines of an opened file. */
  method LoadDlxFile(machine: DLXMachine, lines: seq<string>) returns (status: LoadStatus, diagnostics: seq<Diagnostic>)
    requires machine.Valid()
    modifies machine`programCounter, machine.mem.Repr
    ensures machine.Valid()
    ensures LoadResult(status, machine.mem.contents, machine.programCounter, diagnostics)
              == Load(lines, old(machine.mem.contents), old(machine.programCounter))
  {
    diagnostics := [];
    if |lines| == 0 || lines[0] != ".abs" {
      return NotAbsolute, diagnostics;
    }
    ghost var goal := LoadLines(LoaderState(machine.mem.contents, machine.programCounter, None, []), lines[1..]);
    var current: MemoryBlock? := null;
    ghost var index: Option<nat> := None;
    var j := 1;
    while j < |lines|
      invariant 1 <= j <= |lines|
      invariant machine.Valid() && machine.mem.blocks == old(machine.mem.blocks) && machine.mem.Repr == old(machine.mem.Repr)
      invariant index.Some? <==> current != null
      invariant index.Some? ==> index.value < |machine.mem.blocks| && machine.mem.blocks[index.value] == current
      invariant LoadLines(LoaderState(machine.mem.contents, machine.programCounter, index, diagnostics), lines[j..]) == goal
      decreases |lines| - j
    {
      ghost var st := LoaderState(machine.mem.contents, machine.programCounter, index, diagnostics);
      assert lines[j..][0] == lines[j] && lines[j..][1..] == lines[j + 1..];
      status, current, index, diagnostics := LoadOneLine(machine, lines[j], current, index, diagnostics);
      if status != Loaded {
        return;
      }
      j := j + 1;
    }
    status := Loaded;
  }
}
