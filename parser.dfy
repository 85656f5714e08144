/**
 * The assembler's field parsers: the `>>` extractors that read a label, a
 * mnemonic, a register, an immediate operand or a comment from a token's
 * text, and the `read` helper behind the register extractor.
 */
module Parsing {
  import opened FixedWidth
  import opened Wrappers
  import opened Text
  import opened Streams
  import opened AssemblyTypes
  import opened InstructionTable

  /** The length of the field in front of the first ',' or ';'. */
  function FieldEnd(s: string): (n: nat)
    ensures n <= |s| && forall i :: 0 <= i < n ==> s[i] != ',' && s[i] != ';'
    ensures n < |s| ==> s[n] == ',' || s[n] == ';'
  {
    if |s| == 0 || s[0] == ',' || s[0] == ';' then 0 else 1 + FieldEnd(s[1..])
  }

  /** s without its spaces and tabs. */
  function DropBlanks(s: string): (r: string)
    ensures |r| <= |s| && forall i :: 0 <= i < |r| ==> !IsBlank(r[i])
  {
    if |s| == 0 then [] else (if IsBlank(s[0]) then [] else [s[0]]) + DropBlanks(s[1..])
  }

  /** A string without spaces and tabs loses nothing. */
  lemma {:induction false} DropBlanksNone(s: string)
    requires forall i :: 0 <= i < |s| ==> !IsBlank(s[i])
    ensures DropBlanks(s) == s
  {
    if |s| > 0 {
      DropBlanksNone(s[1..]);
    }
  }

  predicate IsFieldDelimiter(c: char)
  {
    c == ',' || c == ';'
  }

  /**
   * The loop of `read` from `position` on, with `taken` appended so far and
   * `changed` telling whether anything was taken: the string, where the
   * read stops, whether it ran into the end (eofbit), and `changed`.
   */
  function ReadFrom(text: string, position: nat, taken: string, changed: bool): (r: (string, nat, bool, bool))
    requires position <= |text|
    ensures position <= r.1 <= |text|
    decreases |text| - position
  {
    if position == |text| then (taken, position, true, changed)
    else if IsFieldDelimiter(text[position]) then (taken, position + 1, false, true)
    else if IsBlank(text[position]) then ReadFrom(text, position + 1, taken, true)
    else ReadFrom(text, position + 1, taken + [text[position]], true)
  }

  /**
   * `read` appends neither spaces, tabs nor delimiters; it has changed
   * something exactly when it moved; it runs into the end exactly when no
   * delimiter is left, and otherwise stops just past one.
   */
  lemma {:induction false} ReadFromShape(text: string, position: nat, taken: string, changed: bool)
    requires position <= |text|
    ensures var r := ReadFrom(text, position, taken, changed);
            taken <= r.0 && (forall i :: |taken| <= i < |r.0| ==> !IsBlank(r.0[i]) && !IsFieldDelimiter(r.0[i])) &&
            (r.3 <==> changed || position < r.1) &&
            (r.2 <==> forall i :: position <= i < |text| ==> !IsFieldDelimiter(text[i])) &&
            (r.2 ==> r.1 == |text|) &&
            (!r.2 ==> position < r.1 && IsFieldDelimiter(text[r.1 - 1]))
    decreases |text| - position
  {
    if position < |text| && !IsFieldDelimiter(text[position]) {
      if IsBlank(text[position]) {
        ReadFromShape(text, position + 1, taken, true);
      } else {
        ReadFromShape(text, position + 1, taken + [text[position]], true);
      }
    }
  }

  /** What `read` appends is the field in front of the first ',' or ';', spaces and tabs left out. */
  lemma {:induction false} ReadFromField(text: string, position: nat, taken: string, changed: bool)
    requires position <= |text|
    ensures var k := FieldEnd(text[position..]);
            ReadFrom(text, position, taken, changed).0 == taken + DropBlanks(text[position..position + k])
    decreases |text| - position
  {
    var k := FieldEnd(text[position..]);
    if position < |text| && !IsFieldDelimiter(text[position]) {
      var c := text[position];
      FieldEndStep(text, position);
      var field := text[position..position + k];
      var tail := text[position + 1..position + k];
      assert field[0] == c && field[1..] == tail;
      if IsBlank(c) {
        ReadFromField(text, position + 1, taken, true);
        assert DropBlanks(field) == DropBlanks(tail);
      } else {
        ReadFromField(text, position + 1, taken + [c], true);
        assert DropBlanks(field) == [c] + DropBlanks(tail);
        assert taken + [c] + DropBlanks(tail) == taken + ([c] + DropBlanks(tail));
      }
    } else {
      assert k == 0 && text[position..position + k] == [];
    }
  }

  lemma FieldEndStep(text: string, position: nat)
    requires position < |text| && !IsFieldDelimiter(text[position])
    ensures FieldEnd(text[position..]) == 1 + FieldEnd(text[position + 1..])
  {
    assert text[position..][1..] == text[position + 1..];
  }

  /**
   * read(source, destination): on a good stream, every character up to the
   * first ',' or ';' (which is taken too) or the end (which sets eofbit) is
   * appended to destination, spaces and tabs left out. failbit is set when
   * nothing was taken, and on a stream that is not good.
   */
  function ReadSpec(st: StreamState, destination: string): (r: (string, StreamState))
    requires ValidStream(st)
    ensures ReadOn(st, r.1)
    ensures !Good(st) ==> r == (destination, st.(fail := true))
    ensures Good(st) ==> destination <= r.0 && (r.1.fail <==> r.1.position == st.position)
    ensures Good(st) ==> forall i :: |destination| <= i < |r.0| ==> !IsBlank(r.0[i]) && !IsFieldDelimiter(r.0[i])
    ensures Good(st) ==> (r.1.eof <==> forall i :: st.position <= i < |st.text| ==> !IsFieldDelimiter(st.text[i]))
    ensures Good(st) && !r.1.eof ==> st.position < r.1.position && IsFieldDelimiter(st.text[r.1.position - 1])
  {
    if !Good(st) then (destination, st.(fail := true))
    else
      ReadFromShape(st.text, st.position, destination, false);
      var (taken, end, eofbit, changed) := ReadFrom(st.text, st.position, destination, false);
      (taken, st.(position := end, eof := eofbit, fail := !changed))
  }

  /** A field that starts with a character to keep gives a word that starts with it. */
  lemma ReadKeepsFirst(st: StreamState)
    requires ValidStream(st) && Good(st) && st.position < |st.text|
    requires !IsBlank(st.text[st.position]) && !IsFieldDelimiter(st.text[st.position])
    ensures ReadSpec(st, "").0 != [] && ReadSpec(st, "").0[0] == st.text[st.position]
  {
    var c := st.text[st.position];
    assert ReadFrom(st.text, st.position, "", false) == ReadFrom(st.text, st.position + 1, "" + [c], true);
    assert "" + [c] == [c];
    ReadFromShape(st.text, st.position + 1, [c], true);
  }

  /** The `read` helper, character by character through the stream buffer. */
  method Read(source: InputStream, destination: string) returns (result: string)
    requires source.Valid()
    modifies source
    ensures source.Valid() && (result, source.State()) == ReadSpec(old(source.State()), destination)
  {
    result := destination;
    if source.eof || source.fail {
      source.SetState(false, true);
      return;
    }
    ghost var goal := ReadFrom(source.text, source.position, destination, false);
    var eofbit, changed := false, false;
    var meta := source.Current();
    while true
      invariant source.Valid() && !source.eof && !source.fail
      invariant meta == if source.position < |source.text| then Some(source.text[source.position]) else None
      invariant ReadFrom(source.text, source.position, result, changed) == goal
      decreases |source.text| - source.position
    {
      if meta.None? {
        eofbit := true;
        break;
      } else if meta.value == ',' || meta.value == ';' {
        changed := true;
        source.Advance();
        break;
      } else if meta.value == ' ' || meta.value == '\t' {
        changed := true;
      } else {
        result := result + [meta.value];
        changed := true;
      }
      source.Advance();
      meta := source.Current();
    }
    source.SetState(eofbit, !changed);
  }

  /** formatFromMnemonic: a directive by its leading '.', otherwise the format the table holds. */
  function FormatFromMnemonic(table: InstructionMap, mnemonic: string): (f: Format)
    ensures |mnemonic| > 0 && mnemonic[0] == '.' ==> f == Directive
    ensures !(|mnemonic| > 0 && mnemonic[0] == '.') ==> f == if mnemonic in table then table[mnemonic].format else Unknown
    ensures f in {RegisterToRegister, Immediate} ==> mnemonic in table && table[mnemonic].format == f
  {
    if |mnemonic| > 0 && mnemonic[0] == '.' then Directive
    else if mnemonic in table then table[mnemonic].format
    else Unknown
  }

  /** `for (; isspace(source.peek()); source.get());` */
  function SkipSpacesSpec(st: StreamState): (r: StreamState)
    requires ValidStream(st)
    ensures ValidStream(r)
    ensures Good(st) ==> r == st.(position := FieldStart(st), eof := FieldStart(st) == |st.text|)
    ensures !Good(st) ==> r == st.(fail := true)
    decreases |st.text| - st.position
  {
    var (c, next) := PeekSpec(st);
    if c.Some? && IsSpace(c.value) then SkipSpacesSpec(GetSpec(next)) else next
  }

  method SkipSpaces(source: InputStream)
    requires source.Valid()
    modifies source
    ensures source.Valid() && source.State() == SkipSpacesSpec(old(source.State()))
  {
    while true
      invariant source.Valid() && SkipSpacesSpec(source.State()) == SkipSpacesSpec(old(source.State()))
      decreases |source.text| - source.position
    {
      var c := source.Peek();
      if !(c.Some? && IsSpace(c.value)) {
        break;
      }
      source.Get();
    }
  }

  /**
   * The register a word names, read as `ss >> type; ss >> number` with the
   * number reset to 0 first: the kind is the first character and the
   * number the decimal digits after it, 0 when there are none.
   */
  function RegisterOfWord(word: string, kind: char): (r: Register)
    requires word != [] && !IsSpace(word[0])
    ensures r.kind == word[0]
    ensures |word| == 1 ==> r.number == 0
    ensures |word| > 1 && IsDigit(word[1]) ==> r.number == UnsignedValue(false, word[1..1 + DigitRun(word[1..])])
    ensures |word| > 1 && !IsDigit(word[1]) && !IsSpace(word[1]) && word[1] != '-' && word[1] != '+' ==> r.number == 0
  {
    var (k, ss) := CharSpec(Open(word), kind);
    assert FieldStart(Open(word)) == 0;
    assert ss == Open(word).(position := 1);
    if |word| > 1 && IsDigit(word[1]) then
      NumberAfterKind(word);
      Register(k, UnsignedSpec(ss, 0).0)
    else
      Register(k, UnsignedSpec(ss, 0).0)
  }

  /** The digits right after a register's kind are its number. */
  lemma NumberAfterKind(word: string)
    requires |word| > 1 && IsDigit(word[1])
    ensures UnsignedSpec(Open(word).(position := 1), 0).0 == UnsignedValue(false, word[1..1 + DigitRun(word[1..])])
  {
    var ss := Open(word).(position := 1);
    assert FieldStart(ss) == 1;
    var t := ss.text[1..];
    assert t == word[1..] && t[0] == word[1];
    assert t[0..] == t;
    var n := DigitRun(t);
    assert t[0..0 + n] == word[1..1 + n];
  }

  /** What `>> register_` can leave: a missing register ('m', 0), or one of kind 'r' or 'f'. */
  predicate ExtractedKind(r: Register)
  {
    r == Register('m', 0) || r.kind == 'r' || r.kind == 'f'
  }

  /**
   * `source >> register_`: after the white space, a word that starts with
   * 'r' or 'f' is read up to the next ',' or ';' and names the register.
   * Anything else is a missing register, kind 'm' and number 0. The next
   * character is looked at again when it is not 'r'.
   */
  function RegisterSpec(st: StreamState): (r: (Register, StreamState))
    requires ValidStream(st)
    ensures ReadOn(st, r.1)
    ensures ExtractedKind(r.0)
    ensures !Good(st) ==> r.0 == Register('m', 0) && !Good(r.1)
  {
    var skipped := SkipSpacesSpec(st);
    var (c, s1) := PeekSpec(skipped);
    var (c', s2) := if c == Some('r') then (c, s1) else PeekSpec(s1);
    if c' != Some('r') && c' != Some('f') then (Register('m', 0), s2)
    else
      ReadKeepsFirst(s2);
      var (word, s3) := ReadSpec(s2, "");
      (RegisterOfWord(word, 'm'), s3)
  }

  /**
   * A register that is not there consumes nothing after the white space:
   * the read position stops at the first other character.
   */
  lemma MissingRegister(st: StreamState)
    requires ValidStream(st) && Good(st)
    requires FieldStart(st) == |st.text| || (st.text[FieldStart(st)] != 'r' && st.text[FieldStart(st)] != 'f')
    ensures RegisterSpec(st).0 == Register('m', 0)
    ensures RegisterSpec(st).1.position == FieldStart(st)
  {
  }

  /**
   * A register is the field after the white space, up to the next ',' or
   * ';', with its spaces and tabs left out.
   */
  lemma RegisterIsField(st: StreamState)
    requires ValidStream(st) && Good(st) && FieldStart(st) < |st.text|
    requires st.text[FieldStart(st)] == 'r' || st.text[FieldStart(st)] == 'f'
    ensures var start := FieldStart(st);
            var field := st.text[start..start + FieldEnd(st.text[start..])];
            field != [] && DropBlanks(field) != [] && DropBlanks(field)[0] == st.text[start] &&
            RegisterSpec(st).0 == RegisterOfWord(DropBlanks(field), 'm')
  {
    var start := FieldStart(st);
    var skipped := SkipSpacesSpec(st);
    assert skipped.position == start && Good(skipped);
    ReadFromField(st.text, start, "", false);
    var rest := st.text[start..];
    assert rest[0] == st.text[start];
    assert FieldEnd(rest) > 0;
  }

  method ExtractRegister(source: InputStream) returns (register: Register)
    requires source.Valid()
    modifies source
    ensures source.Valid() && (register, source.State()) == RegisterSpec(old(source.State()))
  {
    SkipSpaces(source);
    var c := source.Peek();
    if c != Some('r') {
      c := source.Peek();
    }
    if c != Some('r') && c != Some('f') {
      return Register('m', 0);
    }
    var word := Read(source, "");
    var ss := new InputStream(word);
    var kind := ss.ReadChar('m');
    var number := ss.ReadUnsigned(0);
    register := Register(kind, number);
  }

  /**
   * `source >> immediate`: Kusn is reset to 0; after the white space, a
   * '-' or a digit starts a number read into Kusn, and anything else is
   * read as one word into the expression. The next character is looked at
   * again when it is not '-'.
   */
  function ImmediateSpec(st: StreamState, current: ImmediateOperand): (r: (ImmediateOperand, StreamState))
    requires ValidStream(st)
    ensures ReadOn(st, r.1)
    ensures Good(st) && FieldStart(st) < |st.text| && (st.text[FieldStart(st)] == '-' || IsDigit(st.text[FieldStart(st)])) ==>
              r == (ImmediateOperand(UnsignedSpec(SkipSpacesSpec(st), 0).0, current.expression), UnsignedSpec(SkipSpacesSpec(st), 0).1)
    ensures Good(st) && FieldStart(st) < |st.text| && !(st.text[FieldStart(st)] == '-' || IsDigit(st.text[FieldStart(st)])) ==>
              r == (ImmediateOperand(0, WordSpec(st, current.expression).0), WordSpec(st, current.expression).1)
    ensures !(Good(st) && FieldStart(st) < |st.text|) ==> r.0 == current.(kusn := 0) && r.1.fail
  {
    var skipped := SkipSpacesSpec(st);
    WordAfterSkip(st, current.expression);
    var (c, s1) := PeekSpec(skipped);
    var (c', s2) := if c == Some('-') then (c, s1) else PeekSpec(s1);
    if c' == Some('-') || (c'.Some? && IsDigit(c'.value)) then
      var (k, s3) := UnsignedSpec(s2, 0);
      (current.(kusn := k), s3)
    else
      var (e, s3) := WordSpec(s2, current.expression);
      (ImmediateOperand(0, e), s3)
  }

  /** A formatted read skips white space itself, so skipping it first changes nothing. */
  lemma WordAfterSkip(st: StreamState, current: string)
    requires ValidStream(st)
    ensures WordSpec(SkipSpacesSpec(st), current) == WordSpec(st, current)
  {
    if !Good(st) {
    } else if FieldStart(st) < |st.text| {
      WordAfterSkipAt(st, current, FieldStart(st));
    } else {
      WordAfterSkipToEnd(st, current);
    }
  }

  lemma WordAfterSkipAt(st: StreamState, current: string, k: nat)
    requires ValidStream(st) && Good(st) && FieldStart(st) == k < |st.text|
    ensures WordSpec(SkipSpacesSpec(st), current) == WordSpec(st, current)
  {
    var skipped := SkipSpacesSpec(st);
    assert skipped == StreamState(st.text, k, false, false);
    SkipNone(st.text[k..]);
    assert FieldStart(skipped) == k;
    var end := k + WordRun(st.text[k..]);
    WordAt(st, current, k, end);
    WordAt(skipped, current, k, end);
  }

  lemma WordAfterSkipToEnd(st: StreamState, current: string)
    requires ValidStream(st) && Good(st) && FieldStart(st) == |st.text|
    ensures WordSpec(SkipSpacesSpec(st), current) == WordSpec(st, current)
  {
    assert SkipSpacesSpec(st) == st.(position := |st.text|, eof := true);
  }

  /** A word read where the field starts at k. */
  lemma WordAt(st: StreamState, current: string, k: nat, end: nat)
    requires ValidStream(st) && Good(st) && FieldStart(st) == k < |st.text| && end == k + WordRun(st.text[k..])
    ensures WordSpec(st, current) == (st.text[k..end], StreamState(st.text, end, end == |st.text|, false))
  {
  }

  lemma SkipNone(s: string)
    requires |s| > 0 && !IsSpace(s[0])
    ensures SkipSpace(s) == 0
  {
  }

  method ExtractImmediate(source: InputStream, current: ImmediateOperand) returns (immediate: ImmediateOperand)
    requires source.Valid()
    modifies source
    ensures source.Valid() && (immediate, source.State()) == ImmediateSpec(old(source.State()), current)
  {
    immediate := current.(kusn := 0);
    SkipSpaces(source);
    var c := source.Peek();
    if c != Some('-') {
      c := source.Peek();
    }
    if c == Some('-') || (c.Some? && IsDigit(c.value)) {
      var k := source.ReadUnsigned(immediate.kusn);
      immediate := immediate.(kusn := k);
    } else {
      var e := source.ReadWord(immediate.expression);
      immediate := immediate.(expression := e);
    }
  }

  /** `source >> immediate` for a long immediate: one word into the expression. */
  function LongImmediateSpec(st: StreamState, current: LongImmediateOperand): (r: (LongImmediateOperand, StreamState))
    requires ValidStream(st)
    ensures ReadOn(st, r.1)
    ensures r.1.fail ==> r.0 == current
    ensures !r.1.fail ==> FieldStart(st) < r.1.position && r.0.expression == st.text[FieldStart(st)..r.1.position]
  {
    var (e, s1) := WordSpec(st, current.expression);
    (LongImmediateOperand(e), s1)
  }

  method ExtractLongImmediate(source: InputStream, current: LongImmediateOperand) returns (immediate: LongImmediateOperand)
    requires source.Valid()
    modifies source
    ensures source.Valid() && (immediate, source.State()) == LongImmediateSpec(old(source.State()), current)
  {
    var e := source.ReadWord(current.expression);
    immediate := LongImmediateOperand(e);
  }

  /**
   * `source >> label`: one word, less one trailing ':'. The word must not
   * be empty: the extractor looks at its last character.
   */
  function LabelSpec(st: StreamState, current: Label): (r: (Label, StreamState))
    requires ValidStream(st) && WordSpec(st, current.name).0 != []
    ensures ReadOn(st, r.1)
    ensures var word := WordSpec(st, current.name).0;
            (word[|word| - 1] == ':' ==> r.0.name + ":" == word) &&
            (word[|word| - 1] != ':' ==> r.0.name == word)
  {
    var (word, s1) := WordSpec(st, current.name);
    if word[|word| - 1] == ':' then (Label(word[..|word| - 1]), s1) else (Label(word), s1)
  }

  method ExtractLabel(source: InputStream, current: Label) returns (parsed: Label)
    requires source.Valid() && WordSpec(source.State(), current.name).0 != []
    modifies source
    ensures source.Valid() && (parsed, source.State()) == LabelSpec(old(source.State()), current)
  {
    var name := source.ReadWord(current.name);
    if name[|name| - 1] == ':' {
      name := name[..|name| - 1];
    }
    parsed := Label(name);
  }

  /** `source >> instruction`: one word as the mnemonic, and the format it has. */
  function InstructionSpec(table: InstructionMap, st: StreamState, current: Instruction): (r: (Instruction, StreamState))
    requires ValidStream(st)
    ensures ReadOn(st, r.1)
    ensures r.0.mnemonic == WordSpec(st, current.mnemonic).0 && r.1 == WordSpec(st, current.mnemonic).1
    ensures r.0.format == FormatFromMnemonic(table, r.0.mnemonic)
  {
    var (m, s1) := WordSpec(st, current.mnemonic);
    (Instruction(m, FormatFromMnemonic(table, m)), s1)
  }

  method ExtractInstruction(table: InstructionMap, source: InputStream, current: Instruction) returns (instruction: Instruction)
    requires source.Valid()
    modifies source
    ensures source.Valid() && (instruction, source.State()) == InstructionSpec(table, old(source.State()), current)
  {
    var m := source.ReadWord(current.mnemonic);
    instruction := Instruction(m, FormatFromMnemonic(table, m));
  }

  /** The number of spaces and tabs at the start of s. */
  function LeadingBlanks(s: string): (n: nat)
    ensures n <= |s| && forall i :: 0 <= i < n ==> IsBlank(s[i])
    ensures n < |s| ==> !IsBlank(s[n])
  {
    if |s| == 0 || !IsBlank(s[0]) then 0 else 1 + LeadingBlanks(s[1..])
  }

  /**
   * `source >> comment`: the text up to the next ';' (which is taken), less
   * its leading spaces and tabs. A text of spaces and tabs only is kept as
   * it is.
   */
  function CommentSpec(st: StreamState, current: Comment): (r: (Comment, StreamState))
    requires ValidStream(st)
    ensures r.1 == GetLineSpec(st, COMMENT_CHARACTER, current.remark).1
    ensures var text := GetLineSpec(st, COMMENT_CHARACTER, current.remark).0;
            (forall i :: 0 <= i < |text| ==> IsBlank(text[i])) ==> r.0.remark == text
    ensures var text := GetLineSpec(st, COMMENT_CHARACTER, current.remark).0;
            var dropped := |text| - |r.0.remark|;
            (exists i :: 0 <= i < |text| && !IsBlank(text[i])) ==>
              0 <= dropped < |text| && text[dropped..] == r.0.remark && !IsBlank(r.0.remark[0]) &&
              (forall i :: 0 <= i < dropped ==> IsBlank(text[i]))
  {
    var (remark, s1) := GetLineSpec(st, COMMENT_CHARACTER, current.remark);
    var k := LeadingBlanks(remark);
    if k < |remark| then (Comment(remark[k..]), s1)
    else
      assert remark[0..] == remark;
      (Comment(remark), s1)
  }

  method ExtractComment(source: InputStream, current: Comment) returns (comment: Comment)
    requires source.Valid()
    modifies source
    ensures source.Valid() && (comment, source.State()) == CommentSpec(old(source.State()), current)
  {
    var remark := source.GetLine(COMMENT_CHARACTER, current.remark);
    var newStart := LeadingBlanks(remark);
    if newStart < |remark| {
      remark := remark[newStart..];
    }
    comment := Comment(remark);
  }

  /** startsWithLabel: whether the next character is a letter; the peek sets eofbit at the end. */
  function StartsWithLabelSpec(st: StreamState): (r: (bool, StreamState))
    requires ValidStream(st)
    ensures r.0 <==> Good(st) && st.position < |st.text| && IsAlpha(st.text[st.position])
    ensures r.1 == PeekSpec(st).1
  {
    var (c, s1) := PeekSpec(st);
    (c.Some? && IsAlpha(c.value), s1)
  }

  method StartsWithLabel(source: InputStream) returns (b: bool)
    requires source.Valid()
    modifies source
    ensures source.Valid() && (b, source.State()) == StartsWithLabelSpec(old(source.State()))
  {
    var c := source.Peek();
    b := c.Some? && IsAlpha(c.value);
  }
}
