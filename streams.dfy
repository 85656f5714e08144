/**
 * The part of the C++ input streams that the assembler reads through: an
 * std::istringstream (or the source file) is its text, a read position and
 * the two state bits eofbit and failbit. A stream is good while neither is
 * set; every read on a stream that is not good fails and sets failbit.
 * White space is what isspace accepts in the "C" locale.
 */
module Streams {
  import opened FixedWidth
  import opened Text
  import opened Wrappers

  datatype StreamState = StreamState(text: string, position: nat, eof: bool, fail: bool)

  predicate Good(st: StreamState)
  {
    !st.eof && !st.fail
  }

  predicate ValidStream(st: StreamState)
  {
    st.position <= |st.text|
  }

  /** A fresh std::istringstream over the text: at its start, good. */
  function Open(text: string): (st: StreamState)
    ensures ValidStream(st) && Good(st) && st.text == text && st.position == 0
  {
    StreamState(text, 0, false, false)
  }

  /** The same text, read no further back than before. */
  predicate ReadOn(before: StreamState, after: StreamState)
  {
    after.text == before.text && before.position <= after.position <= |after.text|
  }

  /**
   * istream::peek: the next character, left in place; None (EOF) at the end,
   * which sets eofbit, and on a stream that is not good, whose sentry sets failbit.
   */
  function PeekSpec(st: StreamState): (r: (Option<char>, StreamState))
    requires ValidStream(st)
    ensures r.0.Some? <==> Good(st) && st.position < |st.text|
    ensures r.0.Some? ==> r.0.value == st.text[st.position] && r.1 == st
    ensures r.0.None? ==> !Good(r.1)
    ensures r.1.text == st.text && r.1.position == st.position
  {
    if !Good(st) then (None, st.(fail := true))
    else if st.position == |st.text| then (None, st.(eof := true))
    else (Some(st.text[st.position]), st)
  }

  /** istream::get(): takes one character; at the end it sets eofbit and failbit. */
  function GetSpec(st: StreamState): (r: StreamState)
    requires ValidStream(st)
    ensures ReadOn(st, r)
    ensures Good(st) && st.position < |st.text| ==> r == st.(position := st.position + 1)
    ensures !(Good(st) && st.position < |st.text|) ==> r.fail && r.position == st.position
  {
    if !Good(st) then st.(fail := true)
    else if st.position == |st.text| then st.(eof := true, fail := true)
    else st.(position := st.position + 1)
  }

  /** Where a formatted read starts: the first character after the white space at the read position. */
  function FieldStart(st: StreamState): (k: nat)
    requires ValidStream(st)
    ensures st.position <= k <= |st.text|
    ensures forall i :: st.position <= i < k ==> IsSpace(st.text[i])
    ensures k < |st.text| ==> !IsSpace(st.text[k])
  {
    st.position + SkipSpace(st.text[st.position..])
  }

  /**
   * `stream >> word` into a std::string that holds `current`: white space is
   * skipped, then every character up to the next white space is taken. When
   * the sentry fails (the stream is not good or holds only white space) the
   * string keeps `current`; reaching the end sets eofbit.
   */
  function WordSpec(st: StreamState, current: string): (r: (string, StreamState))
    requires ValidStream(st)
    ensures ReadOn(st, r.1)
    ensures r.1.fail <==> st.fail || !Good(st) || FieldStart(st) == |st.text|
    ensures r.1.fail ==> r.0 == current
    ensures !r.1.fail ==> FieldStart(st) < r.1.position && r.0 == st.text[FieldStart(st)..r.1.position]
    ensures !r.1.fail ==> forall i :: 0 <= i < |r.0| ==> !IsSpace(r.0[i])
    ensures !r.1.fail ==> (r.1.eof <==> r.1.position == |st.text|)
  {
    if !Good(st) then (current, st.(fail := true))
    else
      var start := FieldStart(st);
      if start == |st.text| then (current, st.(position := start, eof := true, fail := true))
      else
        var end := start + WordRun(st.text[start..]);
        (st.text[start..end], st.(position := end, eof := end == |st.text|))
  }

  /** `stream >> c` into a char that holds `current`: white space is skipped, then one character is taken. */
  function CharSpec(st: StreamState, current: char): (r: (char, StreamState))
    requires ValidStream(st)
    ensures ReadOn(st, r.1)
    ensures Good(st) && FieldStart(st) < |st.text| ==>
              r == (st.text[FieldStart(st)], st.(position := FieldStart(st) + 1))
  {
    if !Good(st) then (current, st.(fail := true))
    else
      var start := FieldStart(st);
      if start == |st.text| then (current, st.(position := start, eof := true, fail := true))
      else (st.text[start], st.(position := start + 1))
  }

  /**
   * The value libstdc++ stores for an unsigned short read as an optional
   * sign and the decimal digits: above 65535 the value saturates (and the
   * read fails); a minus sign negates modulo 2^16.
   */
  function UnsignedValue(negative: bool, digits: string): (v: Uint16)
    requires AllDigits(digits)
    ensures !negative && DecimalValue(digits) < TWO_16 ==> v == DecimalValue(digits)
    ensures DecimalValue(digits) >= TWO_16 ==> v == TWO_16 - 1
    ensures negative && DecimalValue(digits) < TWO_16 ==> (v + DecimalValue(digits)) % TWO_16 == 0
  {
    var m := DecimalValue(digits);
    if m >= TWO_16 then TWO_16 - 1
    else if negative then (TWO_16 - m) % TWO_16
    else m
  }

  /**
   * `stream >> n` into an unsigned short that holds `current`. When the
   * sentry fails n keeps `current`; otherwise an optional sign and the
   * decimal digits after it are read, no digit stores 0 and fails, and
   * reaching the end sets eofbit.
   */
  function UnsignedSpec(st: StreamState, current: Uint16): (r: (Uint16, StreamState))
    requires ValidStream(st)
    ensures ReadOn(st, r.1)
    ensures !Good(st) || FieldStart(st) == |st.text| ==> r.0 == current && r.1.fail
  {
    if !Good(st) then (current, st.(fail := true))
    else
      var start := FieldStart(st);
      if start == |st.text| then (current, st.(position := start, eof := true, fail := true))
      else
        var t := st.text[start..];
        var k := if t[0] == '-' || t[0] == '+' then 1 else 0;
        var n := DigitRun(t[k..]);
        var end := start + k + n;
        if n == 0 then (0, st.(position := end, eof := end == |st.text|, fail := true))
        else
          var digits := t[k..k + n];
          (UnsignedValue(t[0] == '-', digits),
           st.(position := end, eof := end == |st.text|, fail := DecimalValue(digits) >= TWO_16))
  }

  /**
   * std::getline(stream, s, delim) with s holding `current`: on a good stream
   * s becomes the text up to the delimiter, which is taken and dropped; with
   * no delimiter s is the rest and eofbit is set, and failbit too when
   * nothing at all was taken. On a stream that is not good s keeps `current`.
   */
  function GetLineSpec(st: StreamState, delim: char, current: string): (r: (string, StreamState))
    requires ValidStream(st)
    ensures ReadOn(st, r.1)
    ensures !Good(st) ==> r == (current, st.(fail := true))
    ensures Good(st) ==> r.0 == st.text[st.position..st.position + IndexOf(st.text[st.position..], delim)]
    ensures Good(st) && r.1.position < |st.text| ==> Good(r.1)
  {
    if !Good(st) then (current, st.(fail := true))
    else
      var rest := st.text[st.position..];
      var k := IndexOf(rest, delim);
      if k < |rest| then (rest[..k], st.(position := st.position + k + 1))
      else (rest, st.(position := |st.text|, eof := true, fail := |rest| == 0))
  }

  /**
   * A stream object. `peek`, `get`, the formatted reads and getline act as
   * the functions above say; `Current`, `Advance` and `SetState` are the
   * stream-buffer calls sgetc, sbumpc and setstate, which read and move
   * without touching the state bits.
   */
  class InputStream {
    const text: string
    var position: nat
    var eof: bool
    var fail: bool

    function State(): StreamState
      reads this
    {
      StreamState(text, position, eof, fail)
    }

    predicate Valid()
      reads this
    {
      position <= |text|
    }

    constructor (text: string)
      ensures Valid() && State() == Open(text)
    {
      this.text := text;
      position, eof, fail := 0, false, false;
    }

    method Set(st: StreamState)
      requires st.text == text && ValidStream(st)
      modifies this
      ensures Valid() && State() == st
    {
      position, eof, fail := st.position, st.eof, st.fail;
    }

    method Peek() returns (c: Option<char>)
      requires Valid()
      modifies this
      ensures Valid() && (c, State()) == PeekSpec(old(State()))
    {
      var r := PeekSpec(State());
      Set(r.1);
      c := r.0;
    }

    method Get()
      requires Valid()
      modifies this
      ensures Valid() && State() == GetSpec(old(State()))
    {
      Set(GetSpec(State()));
    }

    method ReadWord(current: string) returns (word: string)
      requires Valid()
      modifies this
      ensures Valid() && (word, State()) == WordSpec(old(State()), current)
    {
      var r := WordSpec(State(), current);
      Set(r.1);
      word := r.0;
    }

    method ReadChar(current: char) returns (c: char)
      requires Valid()
      modifies this
      ensures Valid() && (c, State()) == CharSpec(old(State()), current)
    {
      var r := CharSpec(State(), current);
      Set(r.1);
      c := r.0;
    }

    method ReadUnsigned(current: Uint16) returns (n: Uint16)
      requires Valid()
      modifies this
      ensures Valid() && (n, State()) == UnsignedSpec(old(State()), current)
    {
      var r := UnsignedSpec(State(), current);
      Set(r.1);
      n := r.0;
    }

    method GetLine(delim: char, current: string) returns (line: string)
      requires Valid()
      modifies this
      ensures Valid() && (line, State()) == GetLineSpec(old(State()), delim, current)
    {
      var r := GetLineSpec(State(), delim, current);
      Set(r.1);
      line := r.0;
    }

    /** sgetc: the character at the read position, or None at the end. */
    method Current() returns (c: Option<char>)
      requires Valid()
      ensures c == if position < |text| then Some(text[position]) else None
    {
      c := if position < |text| then Some(text[position]) else None;
    }

    /** sbumpc (and the move of snextc): past one character. */
    method Advance()
      requires Valid() && position < |text|
      modifies this`position
      ensures Valid() && position == old(position) + 1
    {
      position := position + 1;
    }

    method SetState(eofbit: bool, failbit: bool)
      modifies this`eof, this`fail
      ensures eof == (old(eof) || eofbit) && fail == (old(fail) || failbit)
    {
      eof, fail := eof || eofbit, fail || failbit;
    }
  }
}
