/**
 * The assembler's lexer: it reads the source a line at a time and turns a
 * line into a Comment, Label or Instruction token. A line holding a label
 * and an instruction gives two tokens; the part after the label waits in
 * the leftovers buffer for the next call.
 */
module Lexing {
  import opened Text
  import opened Streams

  datatype TokenType = CommentToken | LabelToken | InstructionToken

  datatype Token = Token(value: string, kind: TokenType)

  /** What a lexer holds between calls: its source stream and the leftovers of the last line. */
  datatype LexerState = LexerState(source: StreamState, leftOvers: string)

  /** The number of newlines at the start of s: the empty lines getline reads there. */
  function LeadingNewlines(s: string): (n: nat)
    ensures n <= |s| && forall i :: 0 <= i < n ==> s[i] == '\n'
    ensures n < |s| ==> s[n] != '\n'
  {
    if |s| == 0 || s[0] != '\n' then 0 else 1 + LeadingNewlines(s[1..])
  }

  /**
   * The stream can still deliver a non-empty line: it is good and some
   * character other than a newline is still to be read. On any other stream
   * the lexer's getline loop never ends.
   */
  predicate LineAhead(st: StreamState)
  {
    ValidStream(st) && Good(st) && exists i :: st.position <= i < |st.text| && st.text[i] != '\n'
  }

  /** Where the next non-empty line starts. */
  function LineStart(st: StreamState): (k: nat)
    requires ValidStream(st)
    ensures st.position <= k <= |st.text|
  {
    st.position + LeadingNewlines(st.text[st.position..])
  }

  /**
   * The loop `while (line.empty()) getline(stream, line)`: the first
   * non-empty line, and the stream after it.
   */
  function NextLine(st: StreamState): (r: (string, StreamState))
    requires LineAhead(st)
    ensures r.0 != [] && ReadOn(st, r.1) && st.position < r.1.position
    decreases |st.text| - st.position
  {
    var r := GetLineSpec(st, '\n', "");
    if r.0 != [] then r
    else
      NextLineStep(st);
      NextLine(r.1)
  }

  /**
   * The line that loop delivers starts after the empty lines and ends at
   * the next newline, which is taken, or at the end of the text, which sets
   * eofbit.
   */
  /**
   * `line` is the line of `text` that starts at k and ends before the next
   * newline, and `after` the good stream just past that newline, or at the
   * end of the text with eofbit set.
   */
  predicate LineAt(text: string, k: nat, line: string, after: StreamState)
  {
    k < |text| && line == text[k..k + IndexOf(text[k..], '\n')] &&
    var e := k + |line|;
    after == if e < |text| then StreamState(text, e + 1, false, false) else StreamState(text, e, true, false)
  }

  /** The loop delivers the first non-empty line ahead. */
  predicate DeliversFirstLine(st: StreamState)
    requires LineAhead(st)
  {
    LineAt(st.text, LineStart(st), NextLine(st).0, NextLine(st).1)
  }

  lemma {:induction false} NextLineIsFirstLine(st: StreamState)
    requires LineAhead(st)
    ensures DeliversFirstLine(st)
    decreases |st.text| - st.position
  {
    var r := GetLineSpec(st, '\n', "");
    NextLineStep(st);
    if r.0 == [] {
      NextLineIsFirstLine(r.1);
      EmptyLineFirst(st, r.1);
    } else {
      FirstLineAtPosition(st);
    }
  }

  /** The step of NextLineIsFirstLine past an empty line. */
  lemma EmptyLineFirst(st: StreamState, next: StreamState)
    requires LineAhead(st) && st.text[st.position] == '\n' && next == st.(position := st.position + 1)
    requires GetLineSpec(st, '\n', "") == ([], next) && LineAhead(next) && DeliversFirstLine(next)
    ensures DeliversFirstLine(st)
  {
    assert NextLine(st) == NextLine(next);
    LineStartStep(st);
  }

  /** An empty line in front moves the start of the next non-empty line nowhere. */
  lemma LineStartStep(st: StreamState)
    requires ValidStream(st) && st.position < |st.text| && st.text[st.position] == '\n'
    ensures LineStart(st.(position := st.position + 1)) == LineStart(st)
  {
    var rest := st.text[st.position..];
    assert st.text[st.position + 1..] == rest[1..];
  }

  /** A getline that delivers a non-empty line delivers the line at the read position. */
  lemma FirstLineAtPosition(st: StreamState)
    requires LineAhead(st) && GetLineSpec(st, '\n', "").0 != []
    ensures LineStart(st) == st.position < |st.text|
    ensures var r := GetLineSpec(st, '\n', "");
            var e := st.position + |r.0|;
            if e < |st.text| then r.1 == st.(position := e + 1)
            else r.1 == st.(position := e, eof := true)
  {
    var rest := st.text[st.position..];
    var k := IndexOf(rest, '\n');
    assert k > 0;
    assert rest[0] != '\n';
  }

  /** One getline from a stream with a line ahead: either that line, or an empty one with the rest still ahead. */
  lemma NextLineStep(st: StreamState)
    requires LineAhead(st)
    ensures var r := GetLineSpec(st, '\n', "");
            (r.0 == [] ==> st.text[st.position] == '\n' && r.1 == st.(position := st.position + 1) && LineAhead(r.1))
  {
    var r := GetLineSpec(st, '\n', "");
    var i :| st.position <= i < |st.text| && st.text[i] != '\n';
    if r.0 == [] {
      assert st.text[st.position..][0] == st.text[st.position];
      assert i != st.position;
    }
  }

  /** There is a line to classify: the leftovers, or a non-empty line still in the stream. */
  predicate Pending(ls: LexerState)
  {
    ValidStream(ls.source) && (ls.leftOvers != [] || LineAhead(ls.source))
  }

  /** The line the next call classifies, and the stream once it is taken. */
  function PendingLine(ls: LexerState): (r: (string, StreamState))
    requires Pending(ls)
    ensures r.0 != [] && ValidStream(r.1) && ReadOn(ls.source, r.1)
  {
    if ls.leftOvers != [] then (ls.leftOvers, ls.source) else NextLine(ls.source)
  }

  /**
   * The pending line starts with a character the lexer classifies: ';', a
   * space or tab, or a letter. On any other line the token's type is left
   * undetermined.
   */
  predicate Classifiable(ls: LexerState)
  {
    Pending(ls) &&
    var c := PendingLine(ls).0[0]; c == ';' || IsBlank(c) || IsAlpha(c)
  }

  /** Lexer::Next: the token of the pending line and what the lexer holds after it. */
  function NextSpec(ls: LexerState): (r: (Token, LexerState))
    requires Classifiable(ls)
    ensures r.1.source == PendingLine(ls).1
    ensures ls.source.position < r.1.source.position || (r.1.source == ls.source && |r.1.leftOvers| < |ls.leftOvers|)
  {
    var (line, source) := PendingLine(ls);
    if line[0] == ';' then (Token(line, CommentToken), LexerState(source, []))
    else if IsBlank(line[0]) then (Token(line[..IndexOf(line, ';')], InstructionToken), LexerState(source, []))
    else
      var k := WordRun(line);
      (Token(line[..k], LabelToken), LexerState(source, line[k..]))
  }

  /**
   * How the pending line is classified: a line starting with ';' is one
   * comment token; one starting with a space or tab is an instruction token
   * ending before the first ';'; one starting with a letter is a label token
   * ending before the first white space, and the rest of the line, from that
   * white space on, waits as leftovers.
   */
  lemma NextClassifies(ls: LexerState)
    requires Classifiable(ls)
    ensures var line, r := PendingLine(ls).0, NextSpec(ls);
            (line[0] == ';' ==> r.0 == Token(line, CommentToken) && r.1.leftOvers == []) &&
            (IsBlank(line[0]) ==>
               r.0.kind == InstructionToken && r.1.leftOvers == [] &&
               r.0.value <= line && (forall i :: 0 <= i < |r.0.value| ==> r.0.value[i] != ';') &&
               (|r.0.value| < |line| ==> line[|r.0.value|] == ';')) &&
            (IsAlpha(line[0]) ==>
               r.0.kind == LabelToken && r.0.value + r.1.leftOvers == line &&
               r.0.value != [] && (forall i :: 0 <= i < |r.0.value| ==> !IsSpace(r.0.value[i])) &&
               (r.1.leftOvers != [] ==> IsSpace(r.1.leftOvers[0])))
  {
    var line := PendingLine(ls).0;
    if IsAlpha(line[0]) {
      var k := WordRun(line);
      assert line[..k] + line[k..] == line;
    }
  }

  /**
   * After a label token, the rest of the line can be classified exactly when
   * it starts with a space or tab: a label ended by '\r', '\v', '\f' or '\n'
   * leaves a line no branch gives a type.
   */
  lemma {:induction false} LeftOversClassifiable(ls: LexerState)
    requires Classifiable(ls) && IsAlpha(PendingLine(ls).0[0])
    requires NextSpec(ls).1.leftOvers != []
    ensures var after := NextSpec(ls).1; Classifiable(after) <==> IsBlank(after.leftOvers[0])
  {
    NextClassifies(ls);
    var after := NextSpec(ls).1;
    assert PendingLine(after).0 == after.leftOvers;
  }

  /** Leftovers are used before the stream: no line is read while they last. */
  lemma LeftOversFirst(ls: LexerState)
    requires Classifiable(ls) && ls.leftOvers != []
    ensures NextSpec(ls).1.source == ls.source
    ensures NextSpec(ls).0 == NextSpec(LexerState(ls.source.(text := ls.leftOvers, position := 0), ls.leftOvers)).0
  {
  }

  /**
   * A label followed by a space or tab leaves leftovers that start with it,
   * so the next call gives the rest of the line as an instruction, without
   * reading the stream.
   */
  lemma LabelThenInstruction(ls: LexerState)
    requires Classifiable(ls) && IsAlpha(PendingLine(ls).0[0])
    requires var after := NextSpec(ls).1; after.leftOvers != [] && IsBlank(after.leftOvers[0])
    ensures var after := NextSpec(ls).1;
            Classifiable(after) && NextSpec(after).0.kind == InstructionToken &&
            NextSpec(after).1.source == after.source && NextSpec(after).1.leftOvers == []
  {
  }

  class Lexer {
    const stream: InputStream
    var leftOvers: string

    constructor (stream: InputStream)
      ensures this.stream == stream && leftOvers == []
    {
      this.stream := stream;
      leftOvers := [];
    }

    function State(): LexerState
      reads this, stream
    {
      LexerState(stream.State(), leftOvers)
    }

    method Next() returns (token: Token)
      requires stream.Valid() && Classifiable(State())
      modifies this, stream
      ensures stream.Valid() && (token, State()) == NextSpec(old(State()))
    {
      var line: string := [];
      if leftOvers != [] {
        line, leftOvers := leftOvers, line;
      }
      while line == []
        invariant stream.Valid() && leftOvers == []
        invariant old(leftOvers) != [] ==> line == old(leftOvers) && stream.State() == old(stream.State())
        invariant old(leftOvers) == [] && line == [] ==>
                    LineAhead(stream.State()) && NextLine(stream.State()) == NextLine(old(stream.State()))
        invariant old(leftOvers) == [] && line != [] ==> (line, stream.State()) == NextLine(old(stream.State()))
        decreases |stream.text| - stream.position
      {
        NextLineStep(stream.State());
        line := stream.GetLine('\n', line);
      }
      assert (line, stream.State()) == PendingLine(old(State()));
      if line[0] == ';' {
        token := Token(line, CommentToken);
      } else if line[0] == ' ' || line[0] == '\t' {
        token := Token(line[..IndexOf(line, ';')], InstructionToken);
      } else {
        assert IsAlpha(line[0]);
        var k := WordRun(line);
        if k < |line| {
          token := Token(line[..k], LabelToken);
          leftOvers := line[k..];
        } else {
          assert line[..k] == line && line[k..] == [];
          token := Token(line, LabelToken);
        }
      }
    }
  }
}
