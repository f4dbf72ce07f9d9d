/**
 The tokens of the FBP language: what they are made of, and which one comes next at a
 given place in a given state of the scanner.
 */
module FbpTokens {
  import opened Decimals

  datatype TokenType =
    | NoToken | Arrow | BracketClose | BracketOpen | Colon | Comma | Dot | Eof | Error | Equal
    | Identifier | InportKeyword | Integer | OutportKeyword | ParenClose | ParenOpen
    | StmtSeparator | String | DeclareKeyword | OptionKeyword

  /** One constructor for each state function; Stop is the null pointer. */
  datatype State =
    | DefaultState | ErrorState | Stop | SpaceState | CommentState | CarriageReturnState | ArrowState
    | ExportIdentState | ExportPortIndexState | ExportPortArrayState | ExportState
    | InportState | InportEqualState | OutportState | OutportEqualState
    | DeclareState | DeclareEqualState | DeclareNameState | DeclareFirstSepState | DeclareMetatypeState
    | DeclareSecondSepState | DeclareContentsState | DeclareEndState
    | OptionState | OptionEqualState | OptionNodeNameState | OptionFirstSepState | OptionNodeOptionState
    | OptionSecondSepState | OptionNameState | OptionEndState
    | IdentifierOrKeywordState | IdentifierState
    | PortIndexState | PortArrayState | StringStartState | MetaItemState | MetaState | ComponentState

  datatype Position = Position(line: nat, column: nat)

  datatype Token = Token(kind: TokenType, start: nat, end: nat, pos: Position)

  /** Line and column of an offset, counted from 1. */
  function PositionAt(input: string, i: nat): (p: Position)
    requires i <= |input|
    ensures p.line >= 1 && p.column >= 1
  {
    if i == 0 then Position(1, 1)
    else
      var p := PositionAt(input, i - 1);
      if input[i - 1] == '\n' then Position(p.line + 1, 1) else Position(p.line, p.column + 1)
  }

  function Newlines(s: string): nat {
    if s == "" then 0 else Newlines(s[..|s| - 1]) + if s[|s| - 1] == '\n' then 1 else 0
  }

  /** One line more than there are newlines before. */
  lemma {:induction false} LineExact(input: string, i: nat)
    requires i <= |input|
    ensures PositionAt(input, i).line == Newlines(input[..i]) + 1
  {
    if i > 0 {
      LineExact(input, i - 1);
      var before := input[..i];
      assert before[..i - 1] == input[..i - 1] && before[i - 1] == input[i - 1];
    }
  }

  /** The column counts from the last newline, or from the beginning. */
  predicate Counts(input: string, i: nat, column: nat)
    requires i <= |input|
  {
    && 1 <= column <= i + 1
    && (forall k :: i + 1 - column <= k < i ==> input[k] != '\n')
    && (column <= i ==> input[i - column] == '\n')
  }

  lemma {:induction false} ColumnExact(input: string, i: nat)
    requires i <= |input|
    ensures Counts(input, i, PositionAt(input, i).column)
  {
    if i > 0 {
      ColumnExact(input, i - 1);
    }
  }

  predicate IsAlnum(c: char) {
    IsDigit(c) || 'a' <= c <= 'z' || 'A' <= c <= 'Z'
  }

  predicate IsBlank(c: char) {
    c == ' ' || c == '\t'
  }

  predicate IsNodeIdent(c: char) {
    IsAlnum(c) || c == '_' || c == '-'
  }

  predicate IsComponentIdent(c: char) {
    IsAlnum(c) || c == '_' || c == '/' || c == '-'
  }

  predicate IsMetaIdent(c: char) {
    IsAlnum(c) || c == '_' || c == '/' || c == '|' || c == ':' || c == '.' || c == '-'
  }

  /** What may end a statement after an export, a declaration or an option. */
  predicate IsEnd(c: char) {
    c == ',' || c == ' ' || c == '\n' || c == '\r' || c == '\t' || c == '#' || c == '\0'
  }

  /** What may be skipped between tokens. */
  predicate IsGap(c: char) {
    c == ' ' || c == '\t' || c == '\n' || c == '\r'
  }

  /** The text a token of each kind can have. */
  predicate Lexeme(kind: TokenType, text: string) {
    match kind
    case NoToken => false
    case Arrow => text == "->"
    case BracketClose => text == "]"
    case BracketOpen => text == "["
    case Colon => text == ":"
    case Comma => text == ","
    case Dot => text == "."
    case Equal => text == "="
    case ParenClose => text == ")"
    case ParenOpen => text == "("
    case InportKeyword => text == "INPORT"
    case OutportKeyword => text == "OUTPORT"
    case DeclareKeyword => text == "DECLARE"
    case OptionKeyword => text == "OPTION"
    case Integer => |text| >= 1 && All(text, IsDigit)
    case StmtSeparator => |text| >= 1 && (text[|text| - 1] == '\n' || text[|text| - 1] == ',')
    case String => |text| >= 2 && text[0] == '"' && text[|text| - 1] == '"' && '\n' !in text
    case _ => true
  }

  /** The states where a name is read, which may be empty. */
  predicate TakesName(s: State) {
    || s == ComponentState || s == ExportIdentState
    || s == DeclareNameState || s == DeclareMetatypeState || s == DeclareContentsState
    || s == OptionNodeNameState || s == OptionNodeOptionState || s == OptionNameState
  }

  /** The states where one fixed character has to come. */
  predicate Separator(s: State) {
    || s == InportEqualState || s == OutportEqualState
    || s == DeclareEqualState || s == DeclareFirstSepState || s == DeclareSecondSepState
    || s == OptionEqualState || s == OptionFirstSepState || s == OptionSecondSepState
  }

  /** States that may complete a token without reading anything. */
  function Credit(s: State): nat {
    if TakesName(s) then 1 else 0
  }

  /** States a token can end in, and from which the next call goes on. */
  predicate Resting(s: State) {
    match s
    case DefaultState => true
    case Stop => true
    case ErrorState => true
    case SpaceState => false
    case CommentState => false
    case CarriageReturnState => false
    case ArrowState => false
    case ExportPortIndexState => false
    case InportState => false
    case OutportState => false
    case DeclareState => false
    case OptionState => false
    case IdentifierOrKeywordState => false
    case IdentifierState => false
    case PortIndexState => false
    case StringStartState => false
    case MetaItemState => false
    case _ => true
  }

  /** How many more states can follow before something is read or completed. */
  function Rank(s: State): nat {
    match s
    case Stop => 0
    case ErrorState => 1
    case DefaultState => 4
    case ExportState => 5
    case DeclareEndState => 5
    case OptionEndState => 5
    case MetaState => 4
    case PortArrayState => 4
    case ExportPortArrayState => 4
    case SpaceState => 3
    case CommentState => 3
    case CarriageReturnState => 3
    case IdentifierOrKeywordState => 3
    case _ => 2
  }

  // ---------------------------------------------------------------------------
  // The token that comes next
  // ---------------------------------------------------------------------------

  /** The character at an offset, or the null character at the end. */
  function PeekAt(input: string, i: nat): char {
    if i < |input| then input[i] else '\0'
  }

  /** Past one character, if there is one. */
  function Past(input: string, i: nat): (j: nat)
    requires i <= |input|
    ensures i <= j <= |input|
  {
    if i < |input| then i + 1 else i
  }

  /** Where a run of characters of a kind ends. */
  function RunEnd(input: string, i: nat, p: char -> bool): (j: nat)
    requires i <= |input| && !p('\0')
    ensures i <= j <= |input| && All(input[i..j], p) && !p(PeekAt(input, j))
    ensures p(PeekAt(input, i)) ==> i < j
    decreases |input| - i
  {
    if p(PeekAt(input, i)) then
      var j := RunEnd(input, i + 1, p);
      assert input[i..j] == [input[i]] + input[i + 1..j];
      j
    else i
  }

  predicate IsEscape(c: char) {
    c in {'a', 'b', 'f', 'n', 'r', 't', 'v', '\\', '"', '\''}
  }

  /** Whether a string literal whose inside goes on at `i` is closed, and where it ends or is given up. */
  function ClosingQuote(input: string, i: nat): (r: (bool, nat))
    requires i <= |input|
    ensures i <= r.1 <= |input| && (r.0 ==> i < r.1)
    decreases |input| - i
  {
    var c := PeekAt(input, i);
    if c == '"' then (true, i + 1)
    else if c == '\0' || c == '\n' || c == '\r' then (false, i)
    else if c != '\\' then ClosingQuote(input, i + 1)
    else if IsEscape(PeekAt(input, i + 1)) then ClosingQuote(input, i + 2)
    else (false, i + 1)
  }

  predicate InComment(c: char) {
    c != '\n' && c != '\0'
  }

  predicate InContents(c: char) {
    c != '\n' && c != '\0' && c != ','
  }

  function Keyword(word: string): (TokenType, State) {
    if word == "INPORT" then (InportKeyword, InportEqualState)
    else if word == "OUTPORT" then (OutportKeyword, OutportEqualState)
    else if word == "DECLARE" then (DeclareKeyword, DeclareEqualState)
    else if word == "OPTION" then (OptionKeyword, OptionEqualState)
    else (Identifier, DefaultState)
  }

  /** A token without its position, and the state after it. */
  datatype Lexed = Lexed(kind: TokenType, start: nat, end: nat, next: State)

  /** The token lies ahead, and unless it is the last, the scanner gets on: `c` pays for an empty token. */
  predicate Goes(input: string, start: nat, end: nat, r: Lexed, c: nat) {
    && start <= r.start <= r.end <= |input| && end <= r.end && r.kind != NoToken
    && (r.next == Stop <==> r.kind == Eof || r.kind == Error)
    && (r.next != Stop ==> Resting(r.next) && 2 * (r.end - r.start) + c > Credit(r.next))
  }

  function Bad(start: nat, end: nat): Lexed {
    Lexed(Error, start, end, Stop)
  }

  /** One fixed character. */
  function LexOne(input: string, end: nat, c: char, k: TokenType, next: State): (r: Lexed)
    requires end <= |input| && c != '\0' && k != NoToken && k != Eof && k != Error && Resting(next) && next != Stop
    ensures Goes(input, end, end, r, 0)
  {
    if PeekAt(input, end) == c then Lexed(k, end, Past(input, end), next) else Bad(end, Past(input, end))
  }

  /** A name, which may be empty. */
  function LexName(input: string, end: nat, p: char -> bool, next: State): (r: Lexed)
    requires end <= |input| && !p('\0') && Resting(next) && next != Stop && Credit(next) == 0
    ensures Goes(input, end, end, r, if p(PeekAt(input, end)) then 0 else 1)
  {
    Lexed(Identifier, end, RunEnd(input, end, p), next)
  }

  /** The digits of an index or the bracket that ends it. */
  function LexIndex(input: string, end: nat, more: State, next: State): (r: Lexed)
    requires end <= |input| && Resting(next) && next != Stop && Resting(more) && more != Stop
    ensures Goes(input, end, end, r, 0)
  {
    if PeekAt(input, end) == ']' then Lexed(BracketClose, end, Past(input, end), next)
    else if IsDigit(PeekAt(input, end)) then Lexed(Integer, end, RunEnd(input, end, IsDigit), more)
    else Bad(end, end)
  }

  /** Between statements; `start` is before `end` only after a comment or a carriage return. */
  function LexDefault(input: string, start: nat, end: nat): (r: Lexed)
    requires start <= end <= |input|
    ensures Goes(input, start, end, r, 0)
    decreases |input| - end
  {
    var c := PeekAt(input, end);
    if c == '\0' then Lexed(Eof, start, end, Stop)
    else if IsBlank(c) then
      var e := RunEnd(input, end, IsBlank);
      LexDefault(input, e, e)
    else if c == '\r' then
      if PeekAt(input, end + 1) == '\n' then LexDefault(input, start, end + 1) else Bad(start, end + 1)
    else if c == '#' then LexDefault(input, start, RunEnd(input, end, InComment))
    else if c == '-' then
      if PeekAt(input, end + 1) == '>' then Lexed(Arrow, start, end + 2, DefaultState)
      else Bad(start, Past(input, end + 1))
    else if c == '\n' || c == ',' then Lexed(StmtSeparator, start, end + 1, DefaultState)
    else if c == '(' then Lexed(ParenOpen, start, end + 1, ComponentState)
    else if c == '[' then Lexed(BracketOpen, start, end + 1, PortArrayState)
    else if IsNodeIdent(c) then
      var e := RunEnd(input, end, IsNodeIdent);
      var (k, next) := Keyword(input[start..e]);
      Lexed(k, start, e, next)
    else Bad(start, end)
  }

  /** Within the parentheses of a node. */
  function LexMeta(input: string, end: nat): (r: Lexed)
    requires end <= |input|
    ensures Goes(input, end, end, r, 0)
    decreases |input| - end
  {
    var c := PeekAt(input, end);
    if c == ':' then Lexed(Colon, end, end + 1, MetaState)
    else if c == ')' then Lexed(ParenClose, end, end + 1, DefaultState)
    else if c == '=' then Lexed(Equal, end, end + 1, MetaState)
    else if c == ',' then Lexed(Comma, end, end + 1, MetaState)
    else if IsGap(c) then LexMeta(input, end + 1)
    else if c == '"' then
      var (closed, e) := ClosingQuote(input, end + 1);
      if closed then Lexed(String, end, e, MetaState) else Bad(end, e)
    else if IsMetaIdent(c) then LexName(input, end, IsMetaIdent, MetaState)
    else Bad(end, end)
  }

  /** After a name of an export. */
  function LexExport(input: string, end: nat): (r: Lexed)
    requires end <= |input|
    ensures Goes(input, end, end, r, 0)
  {
    var c := PeekAt(input, end);
    if c == '.' then Lexed(Dot, end, end + 1, ExportIdentState)
    else if c == ':' then Lexed(Colon, end, end + 1, ExportIdentState)
    else if c == '[' then Lexed(BracketOpen, end, end + 1, ExportPortArrayState)
    else if IsEnd(c) then LexDefault(input, end, end)
    else Bad(end, end)
  }

  /** After a declaration or an option. */
  function LexEnd(input: string, end: nat): (r: Lexed)
    requires end <= |input|
    ensures Goes(input, end, end, r, 0)
  {
    if IsEnd(PeekAt(input, end)) then LexDefault(input, end, end) else Bad(end, Past(input, end))
  }

  /** What a name is made of, and the state after it. */
  function NameOf(s: State): (r: (char -> bool, State))
    requires TakesName(s)
    ensures !r.0('\0') && Resting(r.1) && r.1 != Stop && Credit(r.1) == 0 && r.1 != DeclareContentsState
    ensures s == DeclareContentsState || !r.0('#')
  {
    if s == ComponentState then (IsComponentIdent, MetaState)
    else if s == ExportIdentState then (IsNodeIdent, ExportState)
    else if s == DeclareNameState then (IsNodeIdent, DeclareFirstSepState)
    else if s == DeclareMetatypeState then (IsNodeIdent, DeclareSecondSepState)
    else if s == DeclareContentsState then (InContents, DeclareEndState)
    else if s == OptionNodeNameState then (IsNodeIdent, OptionFirstSepState)
    else if s == OptionNodeOptionState then (IsNodeIdent, OptionSecondSepState)
    else (IsNodeIdent, OptionEndState)
  }

  /** The character, the token it makes, and the state after it. */
  function SeparatorOf(s: State): (r: (char, TokenType, State))
    requires Separator(s)
    ensures r.0 != '\0' && Resting(r.2) && r.2 != Stop && Lexeme(r.1, [r.0]) && r.1 in {Equal, Colon, Dot}
    ensures r.2 == DeclareContentsState ==> r.1 == Colon
  {
    if s == InportEqualState || s == OutportEqualState then ('=', Equal, ExportIdentState)
    else if s == DeclareEqualState then ('=', Equal, DeclareNameState)
    else if s == DeclareFirstSepState then (':', Colon, DeclareMetatypeState)
    else if s == DeclareSecondSepState then (':', Colon, DeclareContentsState)
    else if s == OptionEqualState then ('=', Equal, OptionNodeNameState)
    else if s == OptionFirstSepState then ('.', Dot, OptionNodeOptionState)
    else (':', Colon, OptionNameState)
  }

  /** The next token, from a state that a token can end in. */
  function Lex(input: string, s: State, end: nat): (r: Lexed)
    requires end <= |input|
    ensures Goes(input, end, end, r, Credit(s))
  {
    if TakesName(s) then LexName(input, end, NameOf(s).0, NameOf(s).1)
    else if Separator(s) then LexOne(input, end, SeparatorOf(s).0, SeparatorOf(s).1, SeparatorOf(s).2)
    else if s == MetaState then LexMeta(input, end)
    else if s == ExportState then LexExport(input, end)
    else if s == ExportPortArrayState then LexIndex(input, end, ExportPortArrayState, ExportState)
    else if s == PortArrayState then LexIndex(input, end, PortArrayState, DefaultState)
    else if s == DeclareEndState || s == OptionEndState then LexEnd(input, end)
    else if s == ErrorState || s == Stop then Bad(end, end)
    else LexDefault(input, end, end)
  }

  /** All the tokens from a place on: the last is the end of the text or an error. */
  function LexAll(input: string, s: State, end: nat): seq<Token>
    requires end <= |input|
    decreases 2 * (|input| - end) + Credit(s)
  {
    var r := Lex(input, s, end);
    var t := Token(r.kind, r.start, r.end, PositionAt(input, r.start));
    if r.next == Stop then [t] else [t] + LexAll(input, r.next, r.end)
  }

  /** The same from every state, and in the middle of a token that starts at `start`. */
  function LexFrom(input: string, s: State, start: nat, end: nat): Lexed
    requires start <= end <= |input|
  {
    match s
    case DefaultState => LexDefault(input, start, end)
    case ErrorState => Bad(start, end)
    case Stop => Bad(start, end)
    case SpaceState =>
      var e := RunEnd(input, end, IsBlank);
      LexDefault(input, e, e)
    case CommentState => LexDefault(input, start, RunEnd(input, end, InComment))
    case CarriageReturnState =>
      var e := Past(input, end);
      if PeekAt(input, e) == '\n' then LexDefault(input, start, e) else Bad(start, e)
    case ArrowState =>
      var e := Past(input, end);
      if PeekAt(input, e) == '>' then Lexed(Arrow, start, e + 1, DefaultState) else Bad(start, Past(input, e))
    case IdentifierOrKeywordState =>
      var e := RunEnd(input, end, IsNodeIdent);
      Lexed(Keyword(input[start..e]).0, start, e, Keyword(input[start..e]).1)
    case InportState => Lexed(InportKeyword, start, end, InportEqualState)
    case OutportState => Lexed(OutportKeyword, start, end, OutportEqualState)
    case DeclareState => Lexed(DeclareKeyword, start, end, DeclareEqualState)
    case OptionState => Lexed(OptionKeyword, start, end, OptionEqualState)
    case IdentifierState => Lexed(Identifier, start, end, DefaultState)
    case PortIndexState => Lexed(Integer, start, RunEnd(input, end, IsDigit), PortArrayState)
    case ExportPortIndexState => Lexed(Integer, start, RunEnd(input, end, IsDigit), ExportPortArrayState)
    case StringStartState =>
      var (closed, e) := ClosingQuote(input, Past(input, end));
      if closed then Lexed(String, start, e, MetaState) else Bad(start, e)
    case MetaItemState => Lexed(Identifier, start, RunEnd(input, end, IsMetaIdent), MetaState)
    case _ => Lex(input, s, end)
  }

  function EndBefore(tokens: seq<Token>, i: nat): nat
    requires i <= |tokens|
  {
    if i == 0 then 0 else tokens[i - 1].end
  }

  predicate IsLast(t: Token) {
    t.kind == Eof || t.kind == Error
  }

  /** The text ends here, or with a null character at the latest. */
  predicate AtEnd(input: string, e: nat) {
    PeekAt(input, e) == '\0'
  }

  /** The text of a token. */
  function Text(input: string, t: Token): string {
    if t.start <= t.end <= |input| then input[t.start..t.end] else ""
  }

  /** The i-th token: blanks before it, its own text, and the position of its start. */
  predicate TokenOk(input: string, tokens: seq<Token>, i: nat)
    requires i < |tokens|
  {
    FollowsAt(input, EndBefore(tokens, i), tokens[i])
  }

  predicate TokensOk(input: string, ts: seq<Token>) {
    forall i :: 0 <= i < |ts| ==> TokenOk(input, ts, i)
  }

  /** A token after some blanks. */
  predicate FollowsAt(input: string, from: nat, t: Token) {
    && from <= t.start <= t.end <= |input| && All(input[from..t.start], IsGap) && t.pos == PositionAt(input, t.start)
    && Lexeme(t.kind, input[t.start..t.end])
  }

  // ---------------------------------------------------------------------------
  // What the tokens are like
  // ---------------------------------------------------------------------------

  /** No identifier has the character that the names of anonymous nodes start with. */
  predicate Plain(name: string) {
    '#' !in name
  }

  /** Blanks, then a token with a text of its kind. */
  predicate Fine(input: string, from: nat, r: Lexed) {
    && from <= r.start <= r.end <= |input| && All(input[from..r.start], IsGap)
    && Lexeme(r.kind, input[r.start..r.end]) && (r.kind == Eof ==> AtEnd(input, r.end))
  }

  lemma GapGrows(input: string, a: nat, b: nat, c: nat)
    requires a <= b <= c <= |input| && All(input[a..b], IsGap) && All(input[b..c], IsGap)
    ensures All(input[a..c], IsGap)
  {
    assert input[a..c] == input[a..b] + input[b..c];
  }

  lemma OneCharacter(input: string, i: nat)
    requires i < |input|
    ensures input[i..i + 1] == [input[i]]
  {
  }

  /** The tokens that start here, after no blank; `start` is before `end` only after a comment or a carriage return. */
  lemma TokenFine(input: string, start: nat, end: nat)
    requires start <= end <= |input| && (start == end || PeekAt(input, end) == '\n' || PeekAt(input, end) == '\0')
    requires !IsBlank(PeekAt(input, end)) && PeekAt(input, end) != '#' && !(PeekAt(input, end) == '\r' && PeekAt(input, end + 1) == '\n')
    ensures var r := LexDefault(input, start, end);
      Fine(input, start, r) && (r.kind == Identifier ==> Plain(input[r.start..r.end]))
  {
    hide PositionAt, Goes;
    var c := PeekAt(input, end);
    if c == '-' && PeekAt(input, end + 1) == '>' {
      assert input[end..end + 2] == ['-', '>'];
    } else if c == '(' || c == '[' {
      OneCharacter(input, end);
    }
  }

  lemma {:induction false} LexDefaultFine(input: string, start: nat, end: nat)
    requires start <= end <= |input| && (start == end || PeekAt(input, end) == '\n' || PeekAt(input, end) == '\0')
    ensures var r := LexDefault(input, start, end);
      Fine(input, start, r) && (r.kind == Identifier ==> Plain(input[r.start..r.end]))
    decreases |input| - end
  {
    hide PositionAt, Lexeme, Goes, Plain, Keyword;
    var c := PeekAt(input, end);
    if IsBlank(c) {
      var e := RunEnd(input, end, IsBlank);
      LexDefaultFine(input, e, e);
      GapGrows(input, start, e, LexDefault(input, e, e).start);
    } else if c == '\r' && PeekAt(input, end + 1) == '\n' {
      LexDefaultFine(input, start, end + 1);
    } else if c == '#' {
      LexDefaultFine(input, start, RunEnd(input, end, InComment));
    } else {
      TokenFine(input, start, end);
    }
  }

  lemma {:induction false} LexMetaFine(input: string, end: nat)
    requires end <= |input|
    ensures Fine(input, end, LexMeta(input, end))
    ensures var r := LexMeta(input, end); r.kind == Identifier ==> Plain(input[r.start..r.end])
    decreases |input| - end
  {
    hide PositionAt, Fine, Goes;
    var c := PeekAt(input, end);
    if c == ':' || c == ')' || c == '=' || c == ',' {
      MarkFine(input, end);
    } else if IsGap(c) {
      LexMetaFine(input, end + 1);
      BlankFine(input, end, LexMeta(input, end + 1));
    } else if c == '"' {
      LiteralFine(input, end);
    } else {
      WordFine(input, end, IsMetaIdent(c));
    }
  }

  /** A token of one character. */
  lemma MarkFine(input: string, end: nat)
    requires end <= |input| && PeekAt(input, end) in {':', ')', '=', ','}
    ensures Fine(input, end, LexMeta(input, end)) && LexMeta(input, end).kind != Identifier
  {
    hide PositionAt, Goes;
    OneCharacter(input, end);
  }

  /** One more blank before a token. */
  lemma BlankFine(input: string, end: nat, r: Lexed)
    requires IsGap(PeekAt(input, end)) && Fine(input, end + 1, r)
    ensures Fine(input, end, r)
  {
    OneCharacter(input, end);
    GapGrows(input, end, end + 1, r.start);
  }

  lemma LiteralFine(input: string, end: nat)
    requires end <= |input| && PeekAt(input, end) == '"'
    ensures Fine(input, end, LexMeta(input, end)) && LexMeta(input, end).kind != Identifier
  {
    hide PositionAt, Goes, ClosingQuote;
    StringFine(input, end + 1);
    var e := ClosingQuote(input, end + 1).1;
    assert input[end..e] == ['"'] + input[end + 1..e];
  }

  /** A name, or else nothing that belongs here. */
  lemma WordFine(input: string, end: nat, word: bool)
    requires end <= |input|
    ensures Fine(input, end, if word then LexName(input, end, IsMetaIdent, MetaState) else Bad(end, end))
    ensures word ==> var r := LexName(input, end, IsMetaIdent, MetaState); Plain(input[r.start..r.end])
  {
    hide PositionAt, Goes;
  }

  /** A closed literal ends in a quote and is on one line. */
  lemma {:induction false} StringFine(input: string, i: nat)
    requires i <= |input|
    ensures var (closed, e) := ClosingQuote(input, i);
      closed ==> input[e - 1] == '"' && '\n' !in input[i..e]
    decreases |input| - i
  {
    var c := PeekAt(input, i);
    if c == '"' {
      OneCharacter(input, i);
    } else if c != '\0' && c != '\n' && c != '\r' {
      if c != '\\' {
        StringFine(input, i + 1);
        assert input[i..ClosingQuote(input, i).1] == [c] + input[i + 1..ClosingQuote(input, i).1];
      } else if IsEscape(PeekAt(input, i + 1)) {
        StringFine(input, i + 2);
        assert input[i..ClosingQuote(input, i).1] == [c, input[i + 1]] + input[i + 2..ClosingQuote(input, i).1];
      }
    }
  }

  /** All of this, for a token read in state `s`; only a colon leads to the contents of a declaration. */
  predicate Good(input: string, from: nat, s: State, r: Lexed) {
    && Fine(input, from, r)
    && (r.kind == Identifier && s != DeclareContentsState ==> Plain(input[r.start..r.end]))
    && (r.next == DeclareContentsState ==> r.kind == Colon || r.kind == Error)
  }

  lemma LexDefaultGood(input: string, s: State, end: nat)
    requires end <= |input|
    ensures Good(input, end, s, LexDefault(input, end, end))
  {
    LexDefaultFine(input, end, end);
    DefaultLeavesDeclare(input, end, end);
  }

  lemma LexMetaGood(input: string, end: nat)
    requires end <= |input|
    ensures Good(input, end, MetaState, LexMeta(input, end))
  {
    hide LexMeta, Fine;
    LexMetaFine(input, end);
    MetaLeavesDeclare(input, end);
  }

  lemma LexOneGood(input: string, s: State, end: nat, c: char, k: TokenType, next: State)
    requires end <= |input| && c != '\0' && k != NoToken && k != Eof && k != Error && Resting(next) && next != Stop
    requires Lexeme(k, [c]) && k != Identifier && (next == DeclareContentsState ==> k == Colon)
    ensures Good(input, end, s, LexOne(input, end, c, k, next))
  {
    if PeekAt(input, end) == c {
      OneCharacter(input, end);
    }
  }

  lemma LexNameGood(input: string, s: State, end: nat, p: char -> bool, next: State)
    requires end <= |input| && !p('\0') && Resting(next) && next != Stop && Credit(next) == 0 && next != DeclareContentsState
    requires s == DeclareContentsState || !p('#')
    ensures Good(input, end, s, LexName(input, end, p, next))
  {
    var e := RunEnd(input, end, p);
    assert All(input[end..e], p);
  }

  lemma LexIndexGood(input: string, s: State, end: nat, more: State, next: State)
    requires end <= |input| && Resting(next) && next != Stop && Resting(more) && more != Stop
    requires more != DeclareContentsState && next != DeclareContentsState
    ensures Good(input, end, s, LexIndex(input, end, more, next))
  {
    if PeekAt(input, end) == ']' {
      OneCharacter(input, end);
    }
  }

  lemma LexExportGood(input: string, end: nat)
    requires end <= |input|
    ensures Good(input, end, ExportState, LexExport(input, end))
  {
    hide LexDefault;
    var c := PeekAt(input, end);
    if c == '.' || c == ':' || c == '[' {
      OneCharacter(input, end);
    } else if IsEnd(c) {
      LexDefaultGood(input, ExportState, end);
    }
  }

  lemma LexEndGood(input: string, s: State, end: nat)
    requires end <= |input|
    ensures Good(input, end, s, LexEnd(input, end))
  {
    hide LexDefault;
    if IsEnd(PeekAt(input, end)) {
      LexDefaultGood(input, s, end);
    }
  }

  /** Only a colon leads to the contents of a declaration, where anything may stand. */
  lemma {:induction false} DefaultLeavesDeclare(input: string, start: nat, end: nat)
    requires start <= end <= |input|
    ensures LexDefault(input, start, end).next != DeclareContentsState
    decreases |input| - end
  {
    var c := PeekAt(input, end);
    if IsBlank(c) {
      var e := RunEnd(input, end, IsBlank);
      DefaultLeavesDeclare(input, e, e);
    } else if c == '\r' && PeekAt(input, end + 1) == '\n' {
      DefaultLeavesDeclare(input, start, end + 1);
    } else if c == '#' {
      DefaultLeavesDeclare(input, start, RunEnd(input, end, InComment));
    }
  }

  lemma {:induction false} MetaLeavesDeclare(input: string, end: nat)
    requires end <= |input|
    ensures LexMeta(input, end).next != DeclareContentsState
    decreases |input| - end
  {
    if IsGap(PeekAt(input, end)) {
      MetaLeavesDeclare(input, end + 1);
    }
  }

  /** What every token is like, from every state. */
  lemma LexGood(input: string, s: State, end: nat)
    requires end <= |input|
    ensures Good(input, end, s, Lex(input, s, end))
  {
    hide Good, LexDefault, LexMeta, LexExport, LexEnd, LexOne, LexName, LexIndex, RunEnd, Goes, NameOf, SeparatorOf, Lexeme;
    if TakesName(s) {
      LexNameGood(input, s, end, NameOf(s).0, NameOf(s).1);
    } else if Separator(s) {
      LexOneGood(input, s, end, SeparatorOf(s).0, SeparatorOf(s).1, SeparatorOf(s).2);
    } else if s == MetaState {
      LexMetaGood(input, end);
    } else if s == ExportState {
      LexExportGood(input, end);
    } else if s == ExportPortArrayState {
      LexIndexGood(input, s, end, ExportPortArrayState, ExportState);
    } else if s == PortArrayState {
      LexIndexGood(input, s, end, PortArrayState, DefaultState);
    } else if s == DeclareEndState || s == OptionEndState {
      LexEndGood(input, s, end);
    } else if s == ErrorState || s == Stop {
      BadIsGood(input, s, end);
    } else {
      LexDefaultGood(input, s, end);
    }
  }

  lemma BadIsGood(input: string, s: State, end: nat)
    requires end <= |input|
    ensures Good(input, end, s, Bad(end, end))
  {
  }

  /** The end of the token before the i-th, for a list that starts at `from`. */
  function EndFrom(ts: seq<Token>, from: nat, i: nat): nat
    requires i <= |ts|
  {
    if i == 0 then from else ts[i - 1].end
  }

  lemma LexAllStep(input: string, s: State, end: nat)
    requires end <= |input|
    ensures var r := Lex(input, s, end);
      var t := Token(r.kind, r.start, r.end, PositionAt(input, r.start));
      LexAll(input, s, end) == [t] + if IsLast(t) then [] else LexAll(input, r.next, r.end)
  {
    hide Lex;
  }

  /** Tokens and skipped blanks tile the text from a place on. */
  predicate Tiles(input: string, from: nat, ts: seq<Token>) {
    forall i :: 0 <= i < |ts| ==> FollowsAt(input, EndFrom(ts, from, i), ts[i])
  }

  lemma TilesMore(input: string, from: nat, t: Token, us: seq<Token>)
    requires FollowsAt(input, from, t) && Tiles(input, t.end, us)
    ensures Tiles(input, from, [t] + us)
  {
    hide FollowsAt;
    var ts := [t] + us;
    forall i | 0 <= i < |ts|
      ensures FollowsAt(input, EndFrom(ts, from, i), ts[i])
    {
      if i > 0 {
        assert ts[i] == us[i - 1] && EndFrom(ts, from, i) == EndFrom(us, t.end, i - 1);
      }
    }
  }

  lemma {:induction false} LexAllTiles(input: string, s: State, end: nat)
    requires end <= |input|
    ensures Tiles(input, end, LexAll(input, s, end))
    decreases 2 * (|input| - end) + Credit(s)
  {
    hide LexAll, PositionAt, Lexeme, All, Lex, Tiles, Plain;
    LexGood(input, s, end);
    LexAllStep(input, s, end);
    var r := Lex(input, s, end);
    var t := Token(r.kind, r.start, r.end, PositionAt(input, r.start));
    var us := if r.next == Stop then [] else LexAll(input, r.next, r.end);
    if r.next != Stop {
      LexAllTiles(input, r.next, r.end);
    } else {
      NothingTiles(input, r.end);
    }
    TilesMore(input, end, t, us);
  }

  lemma NothingTiles(input: string, from: nat)
    ensures Tiles(input, from, [])
  {
  }

  /** There are not many, the last is the only one of its kind, and the end is where the text ends. */
  lemma {:induction false} LexAllEnds(input: string, s: State, end: nat)
    requires end <= |input|
    ensures var ts := LexAll(input, s, end);
      && 1 <= |ts| <= 2 * (|input| - end) + Credit(s) + 1
      && (forall i :: 0 <= i < |ts| ==> (IsLast(ts[i]) <==> i == |ts| - 1))
      && (ts[|ts| - 1].kind == Eof ==> AtEnd(input, ts[|ts| - 1].end))
    decreases 2 * (|input| - end) + Credit(s)
  {
    hide LexAll, PositionAt, Lexeme, All, Lex;
    LexGood(input, s, end);
    LexAllStep(input, s, end);
    var r, ts := Lex(input, s, end), LexAll(input, s, end);
    if r.next != Stop {
      var us := LexAll(input, r.next, r.end);
      LexAllEnds(input, r.next, r.end);
      assert forall i :: 0 < i < |ts| ==> ts[i] == us[i - 1];
    }
  }

  /** Whether the token before the i-th, or state `s` where there is none, leaves an identifier plain. */
  predicate ExpectsPlain(s: State, ts: seq<Token>, i: nat)
    requires i < |ts|
  {
    if i == 0 then s != DeclareContentsState else ts[i - 1].kind != Colon
  }

  /** Identifiers are plain, but for the one that is the contents of a declaration, after a colon. */
  lemma {:induction false} LexAllPlain(input: string, s: State, end: nat)
    requires end <= |input|
    ensures var ts := LexAll(input, s, end);
      forall i :: 0 <= i < |ts| ==> (ts[i].kind == Identifier && ExpectsPlain(s, ts, i) ==> Plain(Text(input, ts[i])))
    decreases 2 * (|input| - end) + Credit(s)
  {
    hide LexAll, PositionAt, Lexeme, All, Lex, Plain;
    LexGood(input, s, end);
    LexAllStep(input, s, end);
    var r, ts := Lex(input, s, end), LexAll(input, s, end);
    if r.next != Stop {
      var us := LexAll(input, r.next, r.end);
      LexAllPlain(input, r.next, r.end);
      forall i | 0 <= i < |ts|
        ensures ts[i].kind == Identifier && ExpectsPlain(s, ts, i) ==> Plain(Text(input, ts[i]))
      {
        if i > 0 {
          assert ts[i] == us[i - 1];
          assert i > 1 ==> ts[i - 1] == us[i - 2];
        }
      }
    }
  }

  // ---------------------------------------------------------------------------
  // What comes after an opening parenthesis
  // ---------------------------------------------------------------------------

  /** Only between statements is there an opening parenthesis, and then a name is due. */
  predicate Opens(r: Lexed) {
    r.kind == ParenOpen ==> r.next == ComponentState
  }

  lemma {:induction false} DefaultOpens(input: string, start: nat, end: nat)
    requires start <= end <= |input|
    ensures Opens(LexDefault(input, start, end))
    decreases |input| - end
  {
    hide Goes;
    var c := PeekAt(input, end);
    if IsBlank(c) {
      var e := RunEnd(input, end, IsBlank);
      DefaultOpens(input, e, e);
    } else if c == '\r' && PeekAt(input, end + 1) == '\n' {
      DefaultOpens(input, start, end + 1);
    } else if c == '#' {
      DefaultOpens(input, start, RunEnd(input, end, InComment));
    }
  }

  lemma {:induction false} MetaOpens(input: string, end: nat)
    requires end <= |input|
    ensures Opens(LexMeta(input, end))
    decreases |input| - end
  {
    hide Goes, ClosingQuote, RunEnd, All;
    if IsGap(PeekAt(input, end)) {
      MetaOpens(input, end + 1);
    }
  }

  lemma LexOpens(input: string, s: State, end: nat)
    requires end <= |input|
    ensures Opens(Lex(input, s, end)) && (s == ComponentState ==> Lex(input, s, end).kind == Identifier)
  {
    hide LexDefault, LexMeta, RunEnd, Goes, NameOf, SeparatorOf;
    DefaultOpens(input, end, end);
    MetaOpens(input, end);
  }

  /** After every opening parenthesis comes a name. */
  predicate NameFollows(ts: seq<Token>) {
    forall i :: 0 <= i < |ts| && ts[i].kind == ParenOpen ==> i + 1 < |ts| && ts[i + 1].kind == Identifier
  }

  lemma NameFollowsMore(t: Token, us: seq<Token>)
    requires (us == [] || NameFollows(us)) && (t.kind == ParenOpen ==> us != [] && us[0].kind == Identifier)
    ensures NameFollows([t] + us) && NameFollows([])
  {
    var ts := [t] + us;
    forall i | 0 <= i < |ts| && ts[i].kind == ParenOpen
      ensures i + 1 < |ts| && ts[i + 1].kind == Identifier
    {
      if i > 0 {
        assert ts[i] == us[i - 1];
      }
    }
  }

  /** It may be an empty one: there are no empty parentheses. */
  lemma {:induction false} OpenThenName(input: string, s: State, end: nat)
    requires end <= |input|
    ensures NameFollows(LexAll(input, s, end)) && LexAll(input, s, end) != []
    ensures s == ComponentState ==> LexAll(input, s, end)[0].kind == Identifier
    decreases 2 * (|input| - end) + Credit(s)
  {
    hide LexAll, PositionAt, Lex, NameFollows, Good;
    LexOpens(input, s, end);
    LexAllStep(input, s, end);
    var r := Lex(input, s, end);
    var t := Token(r.kind, r.start, r.end, PositionAt(input, r.start));
    if r.next != Stop {
      OpenThenName(input, r.next, r.end);
      NameFollowsMore(t, LexAll(input, r.next, r.end));
    } else {
      NameFollowsMore(t, []);
      assert [t] + [] == [t];
    }
  }
}
