/**
 The scanner of the FBP language: a state machine whose states advance the end of the
 current token until one of them completes it.
 */
module FbpScanner {

  import opened Decimals
  import opened FbpTokens

  class Scanner {
    const input: string
    var state: State
    var kind: TokenType
    var start: nat
    var end: nat
    var pos: Position        // token.line, token.column
    var startPos: Position   // start.line, start.col
    var curPos: Position     // cur.line, cur.col

    predicate Ok()
      reads this
    {
      && start <= end <= |input|
      && curPos == PositionAt(input, end)
      && startPos == PositionAt(input, start)
    }

    function Peek(): char
      requires end <= |input|
      reads this
    {
      PeekAt(input, end)
    }

    function Current(): Token
      reads this
    {
      Token(kind, start, end, pos)
    }

    predicate Final()
      reads this
    {
      kind == Eof || kind == Error
    }

    /** The state of affairs between two calls of sol_fbp_scan_token. */
    predicate Valid()
      reads this
    {
      Ok() && Resting(state) && (state == Stop <==> Final())
    }

    constructor (input: string)
      ensures this.input == input && Valid() && start == end == 0 && kind == NoToken && state == DefaultState
    {
      this.input := input;
      state, kind := DefaultState, NoToken;
      start, end := 0, 0;
      pos, startPos, curPos := Position(1, 1), Position(1, 1), Position(1, 1);
    }

    /** next(). */
    method Next() returns (c: char)
      requires Ok()
      modifies this`end, this`curPos
      ensures Ok() && c == old(Peek()) && end == Past(input, old(end))
    {
      if end == |input| {
        return '\0';
      }
      c := input[end];
      end := end + 1;
      if c == '\n' {
        curPos := Position(curPos.line + 1, 1);
      } else {
        curPos := curPos.(column := curPos.column + 1);
      }
    }

    /** ignore(). */
    method Ignore()
      requires Ok()
      modifies this`start, this`startPos
      ensures Ok() && start == end
    {
      start, startPos := end, curPos;
    }

    /** set_token(). */
    method SetToken(k: TokenType)
      requires Ok()
      modifies this`kind, this`pos
      ensures kind == k && pos == PositionAt(input, start)
    {
      kind, pos := k, startPos;
    }

    /** The loops of the form: while the next character belongs, take it. */
    method TakeWhile(p: char -> bool)
      requires Ok() && !p('\0')
      modifies this`end, this`curPos
      ensures Ok() && end == RunEnd(input, old(end), p)
    {
      hide PositionAt;
      while p(Peek())
        invariant Ok() && old(end) <= end && RunEnd(input, end, p) == RunEnd(input, old(end), p)
        decreases |input| - end
      {
        var c := Next();
      }
    }

    // -------------------------------------------------------------------------
    // The states
    // -------------------------------------------------------------------------

    /** What a state can rely on when it is entered. */
    predicate Entered(next: State)
      requires Ok()
      reads this
    {
      if next == SpaceState then IsBlank(Peek())
      else if next == CommentState then Peek() == '#'
      else if next == CarriageReturnState then Peek() == '\r'
      else next != Stop && (MidToken(next) || start == end)
    }

    /** One call of a state function: the token to come stays the same, and it has come or is nearer. */
    twostate predicate Stepped(next: State)
      reads this
    {
      && old(Ok()) && Ok() && old(end) <= end
      && LexFrom(input, old(state), old(start), old(end)) ==
        (if kind == NoToken then LexFrom(input, next, start, end) else Lexed(kind, start, end, next))
      && (if kind == NoToken then Entered(next) && (old(end) < end || Rank(next) < Rank(old(state)))
          else pos == PositionAt(input, start))
    }

    /** States of the form: the next character must be `c`, which makes a token. */
    method Expect(c: char, k: TokenType, after: State) returns (next: State)
      requires Ok() && kind == NoToken && start == end && Rank(state) > 1
      requires c != '\0' && k != NoToken && k != Eof && k != Error && Resting(after) && after != Stop
      requires LexFrom(input, state, end, end) == LexOne(input, end, c, k, after)
      modifies this`end, this`curPos, this`kind, this`pos
      ensures Stepped(next)
    {
      hide PositionAt, Lex, LexDefault, Goes;
      var d := Next();
      if d != c {
        return ErrorState;
      }
      SetToken(k);
      return after;
    }

    /** States of the form: take a run of characters, possibly an empty one, as a token. */
    method TakeRun(p: char -> bool, k: TokenType, after: State) returns (next: State)
      requires Ok() && kind == NoToken && !p('\0') && k != NoToken
      requires LexFrom(input, state, start, end) == Lexed(k, start, RunEnd(input, end, p), after)
      modifies this`end, this`curPos, this`kind, this`pos
      ensures Stepped(next)
    {
      hide PositionAt, LexFrom;
      TakeWhile(p);
      SetToken(k);
      return after;
    }

    /** Takes one character that is known to be there, as a token. */
    method TakeOne(k: TokenType, after: State) returns (next: State)
      requires Ok() && kind == NoToken && end < |input| && k != NoToken
      requires LexFrom(input, state, start, end) == Lexed(k, start, end + 1, after)
      modifies this`end, this`curPos, this`kind, this`pos
      ensures Stepped(next) && kind == k
    {
      hide PositionAt, LexFrom;
      var _ := Next();
      SetToken(k);
      return after;
    }

    /** States that complete a token out of what has been read already. */
    method Complete(k: TokenType, after: State) returns (next: State)
      requires Ok() && kind == NoToken && k != NoToken
      requires LexFrom(input, state, start, end) == Lexed(k, start, end, after)
      modifies this`kind, this`pos
      ensures Stepped(next)
    {
      hide PositionAt, LexFrom;
      SetToken(k);
      return after;
    }

    /** error_state. */
    method Fail() returns (next: State)
      requires Ok() && kind == NoToken && state == ErrorState
      modifies this`kind, this`pos
      ensures Stepped(next)
    {
      hide PositionAt;
      SetToken(Error);
      return Stop;
    }

    /** space_state. */
    method Space() returns (next: State)
      requires Ok() && kind == NoToken && state == SpaceState && Entered(state)
      modifies this`end, this`curPos, this`start, this`startPos
      ensures Stepped(next)
    {
      hide PositionAt, LexDefault;
      TakeWhile(IsBlank);
      Ignore();
      return DefaultState;
    }

    /** comment_state: the comment becomes part of the token that follows. */
    method Comment() returns (next: State)
      requires Ok() && kind == NoToken && state == CommentState && Entered(state)
      modifies this`end, this`curPos
      ensures Stepped(next)
    {
      hide PositionAt, LexDefault;
      TakeWhile(InComment);
      return DefaultState;
    }

    /** carriage_return_state. */
    method CarriageReturn() returns (next: State)
      requires Ok() && kind == NoToken && state == CarriageReturnState && Entered(state)
      modifies this`end, this`curPos
      ensures Stepped(next)
    {
      hide PositionAt, LexDefault;
      var _ := Next();
      if Peek() != '\n' {
        return ErrorState;
      }
      return DefaultState;
    }

    /** arrow_state. */
    method TakeArrow() returns (next: State)
      requires Ok() && kind == NoToken && state == ArrowState
      modifies this`end, this`curPos, this`kind, this`pos
      ensures Stepped(next)
    {
      hide PositionAt, LexDefault;
      var _ := Next();
      var b := Next();
      if b != '>' {
        return ErrorState;
      }
      SetToken(Arrow);
      return DefaultState;
    }

    /** export_port_array_state and port_array_state, which differ in what follows. */
    method PortArray(digits: State, after: State) returns (next: State)
      requires Ok() && kind == NoToken && start == end
      requires if digits == PortIndexState then state == PortArrayState && after == DefaultState
        else digits == ExportPortIndexState && state == ExportPortArrayState && after == ExportState
      modifies this`end, this`curPos, this`kind, this`pos
      ensures Stepped(next)
    {
      hide PositionAt, LexDefault, LexMeta, Goes, RunEnd, ClosingQuote;
      var c := Peek();
      if c == ']' {
        next := TakeOne(BracketClose, after);
      } else if IsDigit(c) {
        next := digits;
      } else {
        next := ErrorState;
      }
    }

    /** export_state. */
    method Export() returns (next: State)
      requires Ok() && kind == NoToken && start == end && state == ExportState
      modifies this`end, this`curPos, this`kind, this`pos
      ensures Stepped(next)
    {
      hide PositionAt, LexDefault, Goes;
      var c := Peek();
      if c == '.' {
        next := TakeOne(Dot, ExportIdentState);
      } else if c == ':' {
        next := TakeOne(Colon, ExportIdentState);
      } else if c == '[' {
        next := TakeOne(BracketOpen, ExportPortArrayState);
      } else if IsEnd(c) {
        next := DefaultState;
      } else {
        next := ErrorState;
      }
    }

    /** declare_end_state and option_end_state. */
    method End() returns (next: State)
      requires Ok() && kind == NoToken && start == end && (state == DeclareEndState || state == OptionEndState)
      modifies this`end, this`curPos
      ensures Stepped(next)
    {
      hide PositionAt, LexDefault, Goes;
      if IsEnd(Peek()) {
        return DefaultState;
      }
      var _ := Next();
      return ErrorState;
    }

    /** identifier_or_keyword_state, with the keyword table. */
    method IdentifierOrKeyword() returns (next: State)
      requires Ok() && kind == NoToken && state == IdentifierOrKeywordState
      modifies this`end, this`curPos
      ensures Stepped(next)
    {
      hide PositionAt, Lex, LexDefault, Goes;
      TakeWhile(IsNodeIdent);
      var word := input[start..end];
      next :=
        if word == "INPORT" then InportState
        else if word == "OUTPORT" then OutportState
        else if word == "DECLARE" then DeclareState
        else if word == "OPTION" then OptionState
        else IdentifierState;
    }

    /** What reading on inside a string leads to. */
    twostate predicate Closed(next: State)
      requires old(Ok())
      reads this
    {
      && Ok() && start == old(start) && end == ClosingQuote(input, old(end)).1
      && (if ClosingQuote(input, old(end)).0 then kind == String && next == MetaState && pos == PositionAt(input, start)
          else kind == NoToken && next == ErrorState)
    }

    /** string_state: up to the closing quote. */
    method StringBody() returns (next: State)
      requires Ok() && kind == NoToken
      modifies this`end, this`curPos, this`kind, this`pos
      ensures Closed(next)
      decreases |input| - end, 1
    {
      hide PositionAt;
      while Peek() != '\\' && Peek() != '"'
        invariant Ok() && kind == NoToken && old(end) <= end
        invariant ClosingQuote(input, end) == ClosingQuote(input, old(end))
        decreases |input| - end
      {
        if Peek() == '\0' || Peek() == '\n' || Peek() == '\r' {
          return ErrorState;
        }
        var _ := Next();
      }
      if Peek() == '\\' {
        next := StringEscape();
      } else {
        next := StringEnd();
      }
    }

    /** string_end_state. */
    method StringEnd() returns (next: State)
      requires Ok() && kind == NoToken && Peek() == '"'
      modifies this`end, this`curPos, this`kind, this`pos
      ensures Closed(next)
    {
      hide PositionAt;
      var _ := Next();
      SetToken(String);
      return MetaState;
    }

    /** string_escape_state. */
    method StringEscape() returns (next: State)
      requires Ok() && kind == NoToken && Peek() == '\\'
      modifies this`end, this`curPos, this`kind, this`pos
      ensures Closed(next)
      decreases |input| - end, 0
    {
      hide PositionAt;
      var _ := Next();
      if Peek() !in {'a', 'b', 'f', 'n', 'r', 't', 'v', '\\', '"', '\''} {
        return ErrorState;
      }
      var _ := Next();
      next := StringBody();
    }

    /** string_start_state. */
    method StringStart() returns (next: State)
      requires Ok() && kind == NoToken && state == StringStartState
      modifies this`end, this`curPos, this`kind, this`pos
      ensures Stepped(next)
    {
      hide PositionAt, ClosingQuote, LexDefault, Lex, Goes;
      var _ := Next();
      next := StringBody();
    }

    /** The characters that are a token of their own in meta_state. */
    method MetaToken() returns (next: State)
      requires Ok() && kind == NoToken && start == end && state == MetaState && Peek() in {':', ')', '=', ','}
      modifies this`end, this`curPos, this`kind, this`pos
      ensures Stepped(next)
    {
      hide PositionAt, LexDefault, RunEnd, ClosingQuote, Goes, LexExport, LexOne, LexIndex, LexName;
      hide Scanner.Stepped;
      var c := Peek();
      if c == ':' {
        next := TakeOne(Colon, MetaState);
      } else if c == ')' {
        next := TakeOne(ParenClose, DefaultState);
      } else if c == '=' {
        next := TakeOne(Equal, MetaState);
      } else {
        next := TakeOne(Comma, MetaState);
      }
    }

    /** A blank in meta_state. */
    method MetaBlank() returns (next: State)
      requires Ok() && kind == NoToken && start == end && state == MetaState && IsGap(Peek())
      modifies this`end, this`curPos, this`start, this`startPos
      ensures Stepped(next)
    {
      hide PositionAt, LexDefault, RunEnd, ClosingQuote, Goes, LexExport, LexOne, LexIndex, LexEnd, NameOf, SeparatorOf, Keyword;
      var _ := Next();
      Ignore();
      return MetaState;
    }

    /** meta_state. */
    method Meta() returns (next: State)
      requires Ok() && kind == NoToken && start == end && state == MetaState
      modifies this`end, this`curPos, this`kind, this`pos, this`start, this`startPos
      ensures Stepped(next)
    {
      hide PositionAt, LexDefault, RunEnd, ClosingQuote, Goes, LexExport, LexOne, LexIndex, LexEnd, NameOf, SeparatorOf, Keyword;
      var c := Peek();
      if c == ':' || c == ')' || c == '=' || c == ',' {
        next := MetaToken();
      } else if c == ' ' || c == '\t' || c == '\n' || c == '\r' {
        next := MetaBlank();
      } else if c == '"' {
        next := StringStartState;
      } else if IsMetaIdent(c) {
        next := MetaItemState;
      } else {
        next := ErrorState;
      }
    }

    /** default_state. */
    method Default() returns (next: State)
      requires Ok() && kind == NoToken && state == DefaultState
      modifies this`end, this`curPos, this`kind, this`pos
      ensures Stepped(next)
    {
      hide PositionAt, Lex, RunEnd, ClosingQuote, Goes;
      var c := Peek();
      if c == '\0' {
        next := Complete(Eof, Stop);
      } else if IsBlank(c) {
        next := SpaceState;
      } else if c == '\r' {
        next := CarriageReturnState;
      } else if c == '#' {
        next := CommentState;
      } else if c == '-' {
        next := ArrowState;
      } else if c == '\n' || c == ',' {
        next := TakeOne(StmtSeparator, DefaultState);
      } else if c == '(' {
        next := TakeOne(ParenOpen, ComponentState);
      } else if c == '[' {
        next := TakeOne(BracketOpen, PortArrayState);
      } else if IsNodeIdent(c) {
        next := IdentifierOrKeywordState;
      } else {
        next := ErrorState;
      }
    }

    /** Calls the function of the current state. */
    method Call() returns (next: State)
      requires Ok() && kind == NoToken && Entered(state)
      modifies this`end, this`curPos, this`kind, this`pos, this`start, this`startPos
      ensures Stepped(next)
    {
      hide PositionAt, LexFrom, Scanner.Stepped, Rank, Goes, Resting;
      if Between(state) {
        next := CallBetween();
      } else {
        next := CallWithin();
      }
    }

    /** The functions of the states between tokens that belong to no other token. */
    method CallBetween() returns (next: State)
      requires Ok() && kind == NoToken && Entered(state) && Between(state)
      modifies this`end, this`curPos, this`kind, this`pos, this`start, this`startPos
      ensures Stepped(next)
    {
      hide PositionAt, LexFrom, Scanner.Stepped, Rank, Goes, Resting;
      if state == DefaultState {
        next := Default();
      } else if state == ErrorState {
        next := Fail();
      } else if state == SpaceState {
        next := Space();
      } else if state == CommentState {
        next := Comment();
      } else if state == CarriageReturnState {
        next := CarriageReturn();
      } else {
        next := TakeArrow();
      }
    }

    method CallWithin() returns (next: State)
      requires Ok() && kind == NoToken && Entered(state) && !Between(state)
      modifies this`end, this`curPos, this`kind, this`pos, this`start, this`startPos
      ensures Stepped(next)
    {
      hide PositionAt, LexFrom, Scanner.Stepped, Rank, Goes, Resting, TakesName, Separator, Inside, Between, MidToken;
      OneOfThese(state);
      if Inside(state) {
        next := CallInside();
      } else if MidToken(state) {
        next := CallWord();
      } else {
        next := CallAlone();
      }
    }

    /** The states within parentheses, within brackets, and after a part of a statement. */
    method CallInside() returns (next: State)
      requires Ok() && kind == NoToken && start == end && Inside(state)
      modifies this`end, this`curPos, this`kind, this`pos, this`start, this`startPos
      ensures Stepped(next)
    {
      hide PositionAt, LexFrom, Scanner.Stepped, Rank, Goes, Resting;
      if state == MetaState {
        next := Meta();
      } else if state == ExportState {
        next := Export();
      } else if state == DeclareEndState || state == OptionEndState {
        next := End();
      } else if state == ExportPortArrayState {
        next := PortArray(ExportPortIndexState, ExportState);
      } else {
        next := PortArray(PortIndexState, DefaultState);
      }
    }

    /** The states that go on with a token that has been started. */
    method CallWord() returns (next: State)
      requires Ok() && kind == NoToken && MidToken(state) && !Between(state)
      modifies this`end, this`curPos, this`kind, this`pos
      ensures Stepped(next)
    {
      hide PositionAt, LexFrom, Scanner.Stepped, Rank, Goes, Resting;
      if state == IdentifierOrKeywordState {
        next := IdentifierOrKeyword();
      } else if state == StringStartState {
        next := StringStart();
      } else if TakesRun(state) {
        next := CallRun();
      } else {
        next := CallComplete();
      }
    }

    /** The states that complete a word that has been read. */
    method CallComplete() returns (next: State)
      requires Ok() && kind == NoToken && state in {InportState, OutportState, DeclareState, OptionState, IdentifierState}
      modifies this`kind, this`pos
      ensures Stepped(next)
    {
      hide PositionAt, LexDefault, RunEnd, ClosingQuote, Scanner.Stepped, Lex;
      if state == InportState {
        next := Complete(InportKeyword, InportEqualState);
      } else if state == OutportState {
        next := Complete(OutportKeyword, OutportEqualState);
      } else if state == DeclareState {
        next := Complete(DeclareKeyword, DeclareEqualState);
      } else if state == OptionState {
        next := Complete(OptionKeyword, OptionEqualState);
      } else {
        next := Complete(Identifier, DefaultState);
      }
    }

    /** The states that go on with a key or with the digits of an index. */
    method CallRun() returns (next: State)
      requires Ok() && kind == NoToken && TakesRun(state)
      modifies this`end, this`curPos, this`kind, this`pos
      ensures Stepped(next)
    {
      hide PositionAt, Lex, LexFrom, LexDefault, RunEnd, ClosingQuote, Scanner.Stepped, Goes, Keyword, NameOf;
      RunsFrom(input, start, end);
      if state == MetaItemState {
        next := TakeRun(IsMetaIdent, Identifier, MetaState);
      } else if state == ExportPortIndexState {
        next := TakeRun(IsDigit, Integer, ExportPortArrayState);
      } else {
        next := TakeRun(IsDigit, Integer, PortArrayState);
      }
    }

    /** The states where a name or a separator is due. */
    method CallAlone() returns (next: State)
      requires Ok() && kind == NoToken && start == end && (TakesName(state) || Separator(state))
      modifies this`end, this`curPos, this`kind, this`pos
      ensures Stepped(next)
    {
      hide PositionAt, LexFrom, Scanner.Stepped;
      if TakesName(state) {
        next := CallName();
      } else {
        next := CallSeparator();
      }
    }

    /** The states where a name stands alone. */
    method CallName() returns (next: State)
      requires Ok() && kind == NoToken && start == end && TakesName(state)
      modifies this`end, this`curPos, this`kind, this`pos
      ensures Stepped(next)
    {
      hide PositionAt, LexFrom, RunEnd, Scanner.Stepped, Goes, NameOf;
      LexFromRest(input, state, end);
      next := TakeRun(NameOf(state).0, Identifier, NameOf(state).1);
    }

    /** The states that take one fixed character. */
    method CallSeparator() returns (next: State)
      requires Ok() && kind == NoToken && start == end && Separator(state)
      modifies this`end, this`curPos, this`kind, this`pos
      ensures Stepped(next)
    {
      hide PositionAt, LexFrom, LexOne, Scanner.Stepped, Goes, SeparatorOf;
      LexFromRest(input, state, end);
      next := Expect(SeparatorOf(state).0, SeparatorOf(state).1, SeparatorOf(state).2);
    }

    /** sol_fbp_scan_token. */
    method ScanToken()
      requires Valid()
      modifies this
      ensures Valid()
      ensures old(Final()) ==> Current() == old(Current()) && state == old(state)
      ensures !old(Final()) ==> Lex(input, old(state), old(end)) == Lexed(kind, start, end, state)
      ensures !old(Final()) ==> pos == PositionAt(input, start)
    {
      hide PositionAt, Rank, Lex;
      if Final() {
        return;
      }
      Ignore();
      SetToken(NoToken);
      LexFromRest(input, state, end);
      ghost var goal := Lex(input, state, end);
      while kind == NoToken
        invariant Ok() && (kind == NoToken ==> Entered(state))
        invariant goal == if kind == NoToken then LexFrom(input, state, start, end) else Lexed(kind, start, end, state)
        invariant kind != NoToken ==> pos == PositionAt(input, start)
        decreases kind == NoToken, |input| - end, Rank(state)
      {
        hide LexFrom;
        state := Call();
      }
    }
  }

  lemma RunsFrom(input: string, start: nat, end: nat)
    requires start <= end <= |input|
    ensures LexFrom(input, MetaItemState, start, end) == Lexed(Identifier, start, RunEnd(input, end, IsMetaIdent), MetaState)
    ensures LexFrom(input, PortIndexState, start, end) == Lexed(Integer, start, RunEnd(input, end, IsDigit), PortArrayState)
    ensures LexFrom(input, ExportPortIndexState, start, end) == Lexed(Integer, start, RunEnd(input, end, IsDigit), ExportPortArrayState)
  {
    hide LexDefault, RunEnd, Lex;
  }

  predicate Inside(s: State) {
    s in {MetaState, ExportState, DeclareEndState, OptionEndState, ExportPortArrayState, PortArrayState}
  }

  lemma OneOfThese(s: State)
    ensures Between(s) || Inside(s) || MidToken(s) || TakesName(s) || Separator(s) || s == Stop
    ensures Inside(s) ==> !MidToken(s)
    ensures !Between(s) ==> s != SpaceState && s != CommentState && s != CarriageReturnState
  {
  }

  predicate Between(s: State) {
    s in {DefaultState, ErrorState, SpaceState, CommentState, CarriageReturnState, ArrowState}
  }

  predicate TakesRun(s: State) {
    s == MetaItemState || s == ExportPortIndexState || s == PortIndexState
  }

  /** States that go on with a token that has been started. */
  predicate MidToken(s: State) {
    || s == DefaultState || s == ErrorState || s == ArrowState || s == IdentifierOrKeywordState
    || s == InportState || s == OutportState || s == DeclareState || s == OptionState || s == IdentifierState
    || s == ExportPortIndexState || s == PortIndexState || s == StringStartState || s == MetaItemState
  }

  /** No token has been started in a state that a token can end in. */
  lemma LexFromRest(input: string, s: State, end: nat)
    requires end <= |input| && Resting(s)
    ensures LexFrom(input, s, end, end) == Lex(input, s, end)
  {
    hide LexDefault, LexMeta, LexExport, LexIndex, LexOne, LexName, Goes;
  }

  /** The tokens of a text that is scanned to its end. */
  ghost predicate Scanning(s: Scanner, input: string, tokens: seq<Token>)
    reads s
  {
    && s.input == input && s.Valid() && s.end <= |input|
    && LexAll(input, DefaultState, 0) == tokens + if s.Final() then [] else LexAll(input, s.state, s.end)
  }

  /** One turn of a loop that scans. */
  method ScanOne(s: Scanner, ghost input: string, ghost tokens: seq<Token>)
    requires Scanning(s, input, tokens) && !s.Final()
    modifies s
    ensures Scanning(s, input, tokens + [s.Current()])
    ensures |tokens| < |LexAll(input, DefaultState, 0)|
  {
    hide Lex, PositionAt;
    LexAllStep(input, s.state, s.end);
    hide LexAll;
    ghost var rest := LexAll(input, s.state, s.end);
    s.ScanToken();
    ghost var last := if s.Final() then [] else LexAll(input, s.state, s.end);
    assert rest == [s.Current()] + last;
    assert tokens + rest == (tokens + [s.Current()]) + last;
  }

  /**
   Scanning to the end: the tokens are those of the reference, they and the skipped blanks
   tile what is read, every token carries its own position, and there are at most 2n + 1.
   */
  method ScanAll(input: string) returns (tokens: seq<Token>)
    ensures tokens == LexAll(input, DefaultState, 0)
    ensures TokensOk(input, tokens)
    ensures 1 <= |tokens| <= 2 * |input| + 1
    ensures forall i :: 0 <= i < |tokens| ==> (IsLast(tokens[i]) <==> i == |tokens| - 1)
    ensures var last := tokens[|tokens| - 1]; last.kind == Eof ==> AtEnd(input, last.end)
  {
    hide PositionAt, TokensOk, LexAll, IsLast, AtEnd, Scanner.Ok;
    var s := new Scanner(input);
    tokens := [];
    while !s.Final()
      invariant fresh(s) && Scanning(s, input, tokens)
      decreases |LexAll(input, DefaultState, 0)| - |tokens|, !s.Final()
    {
      ScanOne(s, input, tokens);
      tokens := tokens + [s.Current()];
    }
    WholeText(input);
  }

  /** What the list of all tokens is like. */
  lemma WholeText(input: string)
    ensures var ts := LexAll(input, DefaultState, 0);
      && TokensOk(input, ts) && 1 <= |ts| <= 2 * |input| + 1
      && (forall i :: 0 <= i < |ts| ==> (IsLast(ts[i]) <==> i == |ts| - 1))
      && (ts[|ts| - 1].kind == Eof ==> AtEnd(input, ts[|ts| - 1].end))
  {
    hide LexAll, FollowsAt, AtEnd, IsLast;
    LexAllTiles(input, DefaultState, 0);
    LexAllEnds(input, DefaultState, 0);
    var ts := LexAll(input, DefaultState, 0);
    forall i | 0 <= i < |ts|
      ensures TokenOk(input, ts, i)
    {
      assert EndBefore(ts, i) == EndFrom(ts, 0, i);
    }
  }
}
