/**
 Statements written out as text: the scanner gives the tokens that spell them, so that what is
 legal is accepted when it is written.
 */
module FbpWriting {
  import opened Wrappers
  import opened Decimals
  import opened FbpTokens
  import opened FbpGraph
  import opened FbpReader
  import opened FbpGrammar

  // ---------------------------------------------------------------------------
  // The text
  // ---------------------------------------------------------------------------

  function IndexWritten(index: Option<string>): string {
    if index.Some? then "[" + index.value + "]" else ""
  }

  function PortWritten(p: PortText): string {
    p.name + IndexWritten(p.index)
  }

  function PairWritten(p: PairText): string {
    p.key + if p.value.Some? then "=" + p.value.value else ""
  }

  function PairsWritten(ps: seq<PairText>, first: bool): string {
    if ps == [] then "" else (if first then "" else ",") + PairWritten(ps[0]) + PairsWritten(ps[1..], false)
  }

  function NodeWritten(n: NodeText): string {
    match n
    case Bare(name) => name
    case Empty(name) => name + "()"
    case Full(name, component, pairs) =>
      name + "(" + component + (if pairs.Some? then ":" + PairsWritten(pairs.value, true) else "") + ")"
  }

  function LinkWritten(l: LinkText): string {
    " " + PortWritten(l.source) + " -> " + PortWritten(l.target) + " " + NodeWritten(l.node)
  }

  function LinksWritten(ls: seq<LinkText>): string {
    if ls == [] then "" else LinkWritten(ls[0]) + LinksWritten(ls[1..])
  }

  function StmtWritten(s: Stmt): string {
    match s
    case Break => "\n"
    case Inport(node, port, name) => "INPORT=" + node + "." + PortWritten(port) + ":" + name + " "
    case Outport(node, port, name) => "OUTPORT=" + node + "." + PortWritten(port) + ":" + name + " "
    case Declare(name, metatype, contents) => "DECLARE=" + name + ":" + metatype + ":" + contents
    case Expose(node, option, name) => "OPTION=" + node + "." + option + ":" + name + " "
    case Chain(first, links) => NodeWritten(first) + LinksWritten(links) + " "
  }

  function Written(stmts: seq<Stmt>): string {
    if stmts == [] then "" else StmtWritten(stmts[0]) + Written(stmts[1..])
  }

  // ---------------------------------------------------------------------------
  // What can be written
  // ---------------------------------------------------------------------------

  predicate NameChar(c: char) {
    '0' <= c <= '9' || 'a' <= c <= 'z' || 'A' <= c <= 'Z' || c == '_' || c == '-'
  }

  predicate ComponentChar(c: char) {
    NameChar(c) || c == '/'
  }

  predicate KeyChar(c: char) {
    ComponentChar(c) || c == '|' || c == ':' || c == '.'
  }

  predicate ContentsChar(c: char) {
    c != '\n' && c != ',' && c != '\0'
  }

  predicate DigitChar(c: char) {
    '0' <= c <= '9'
  }

  /** A name between blanks, where a keyword would be taken for one, and "-" for the start of an arrow. */
  predicate IsWord(w: string) {
    w != "" && w[0] != '-' && All(w, NameChar) && w !in ["INPORT", "OUTPORT", "DECLARE", "OPTION"]
  }

  predicate IsKey(w: string) {
    w != "" && w[0] != ':' && All(w, KeyChar)
  }

  /** What follows the opening quote of a string: characters and escapes, up to the closing quote. */
  predicate Quoted(s: string) {
    if s == "" then false
    else if s[0] == '"' then |s| == 1
    else if s[0] == '\\' then |s| > 1 && s[1] in "abfnrtv\\\"'" && Quoted(s[2..])
    else s[0] != '\n' && s[0] != '\r' && s[0] != '\0' && Quoted(s[1..])
  }

  predicate IsString(s: string) {
    s != "" && s[0] == '"' && Quoted(s[1..])
  }

  predicate IndexFine(index: Option<string>) {
    index.Some? ==> index.value != "" && All(index.value, DigitChar)
  }

  predicate PortFine(p: PortText) {
    IsWord(p.name) && IndexFine(p.index)
  }

  predicate PairFine(p: PairText) {
    IsKey(p.key) && (p.value.Some? ==> IsKey(p.value.value) || IsString(p.value.value))
  }

  /** "node()" is written for a component that is empty: the scanner gives a name after every "(", if an empty one. */
  predicate NodeFine(n: NodeText) {
    && IsWord(n.name) && !n.Empty?
    && (n.Full? ==> All(n.component, ComponentChar) && (n.pairs.Some? ==> forall p :: p in n.pairs.value ==> PairFine(p)))
  }

  predicate LinkFine(l: LinkText) {
    PortFine(l.source) && PortFine(l.target) && NodeFine(l.node)
  }

  /** Names after a keyword may be keywords themselves, or empty. */
  predicate StmtFine(s: Stmt) {
    match s
    case Break => true
    case Inport(node, port, name) => All(node, NameChar) && All(port.name, NameChar) && IndexFine(port.index) && All(name, NameChar)
    case Outport(node, port, name) => All(node, NameChar) && All(port.name, NameChar) && IndexFine(port.index) && All(name, NameChar)
    case Declare(name, metatype, contents) => All(name, NameChar) && All(metatype, NameChar) && All(contents, ContentsChar)
    case Expose(node, option, name) => All(node, NameChar) && All(option, NameChar) && All(name, NameChar)
    case Chain(first, links) => NodeFine(first) && forall l :: l in links ==> LinkFine(l)
  }

  /** A declaration and a node on its own need a separator or the end behind them, connections at least a keyword. */
  predicate MayFollow(s: Stmt, rest: seq<Stmt>) {
    match s
    case Declare(_, _, _) => rest == [] || rest[0].Break?
    case Chain(_, links) => rest == [] || rest[0].Break? || (links != [] && !rest[0].Chain?)
    case _ => true
  }

  predicate Writable(stmts: seq<Stmt>) {
    stmts == [] || (StmtFine(stmts[0]) && MayFollow(stmts[0], stmts[1..]) && Writable(stmts[1..]))
  }

  // ---------------------------------------------------------------------------
  // Scanning along a text
  // ---------------------------------------------------------------------------

  /** The text goes on like this. */
  predicate Here(input: string, e: nat, w: string) {
    e + |w| <= |input| && input[e..e + |w|] == w
  }

  lemma HereBoth(input: string, e: nat, a: string, b: string)
    ensures Here(input, e, a + b) <==> Here(input, e, a) && Here(input, e + |a|, b)
  {
    if Here(input, e, a) && Here(input, e + |a|, b) {
      assert input[e..e + |a + b|] == input[e..e + |a|] + input[e + |a|..e + |a| + |b|];
    }
    if Here(input, e, a + b) {
      assert a == (a + b)[..|a|] && b == (a + b)[|a|..];
    }
  }

  lemma HereFirst(input: string, e: nat, w: string)
    requires Here(input, e, w) && w != ""
    ensures PeekAt(input, e) == w[0]
  {
    assert input[e] == input[e..e + |w|][0];
  }

  /** The tokens from the i-th on are those that come from here. */
  ghost predicate Cut(input: string, ts: seq<Token>, i: nat, s: State, e: nat) {
    i <= |ts| && e <= |input| && ts[i..] == LexAll(input, s, e)
  }

  lemma StepCut(input: string, ts: seq<Token>, i: nat, s: State, e: nat)
    requires Cut(input, ts, i, s, e) && Lex(input, s, e).next != Stop
    ensures var r := Lex(input, s, e);
      && r.start <= r.end <= |input| && Word(input, ts, i, r.kind, input[r.start..r.end]) && Cut(input, ts, i + 1, r.next, r.end)
  {
    hide Lex;
    LexAllStep(input, s, e);
    var r := Lex(input, s, e);
    assert ts[i..][1..] == ts[i + 1..];
    assert ts[i] == ts[i..][0];
  }

  /** Two states in which the same token comes next. */
  lemma SameCut(input: string, ts: seq<Token>, i: nat, s: State, e: nat, s': State, e': nat)
    requires Cut(input, ts, i, s, e) && e' <= |input| && Lex(input, s, e) == Lex(input, s', e')
    ensures Cut(input, ts, i, s', e')
  {
    hide Lex;
    LexAllStep(input, s, e);
    LexAllStep(input, s', e');
  }

  lemma RunIs(input: string, e: nat, w: string, p: char -> bool)
    requires Here(input, e, w) && All(w, p) && !p('\0') && !p(PeekAt(input, e + |w|))
    ensures RunEnd(input, e, p) == e + |w|
    decreases |w|
  {
    if w != "" {
      HereFirst(input, e, w);
      assert w == [w[0]] + w[1..];
      HereBoth(input, e, [w[0]], w[1..]);
      RunIs(input, e + 1, w[1..], p);
    }
  }

  lemma AllSame(w: string, p: char -> bool, q: char -> bool)
    requires All(w, p) && forall c :: p(c) ==> q(c)
    ensures All(w, q)
  {
  }

  // ---------------------------------------------------------------------------
  // Between statements
  // ---------------------------------------------------------------------------

  lemma BlankCut(input: string, ts: seq<Token>, i: nat, e: nat)
    requires Cut(input, ts, i, DefaultState, e) && Here(input, e, " ") && !IsBlank(PeekAt(input, e + 1))
    ensures Cut(input, ts, i, DefaultState, e + 1)
  {
    hide Cut, LexAll;
    HereFirst(input, e, " ");
    RunIs(input, e, " ", IsBlank);
    SameCut(input, ts, i, DefaultState, e, DefaultState, e + 1);
  }

  lemma WordNext(input: string, e: nat, w: string)
    requires Here(input, e, w) && w != "" && w[0] != '-' && All(w, NameChar) && !NameChar(PeekAt(input, e + |w|))
    ensures Lex(input, DefaultState, e) == Lexed(Keyword(w).0, e, e + |w|, Keyword(w).1)
  {
    hide RunEnd, Goes, All, Keyword;
    HereFirst(input, e, w);
    AllFirst(w, NameChar);
    AllSame(w, NameChar, IsNodeIdent);
    RunIs(input, e, w, IsNodeIdent);
  }

  lemma AnyWordCut(input: string, ts: seq<Token>, i: nat, e: nat, w: string)
    requires Cut(input, ts, i, DefaultState, e) && Here(input, e, w) && w != "" && w[0] != '-' && All(w, NameChar)
    requires !NameChar(PeekAt(input, e + |w|))
    ensures Word(input, ts, i, Keyword(w).0, w) && Cut(input, ts, i + 1, Keyword(w).1, e + |w|)
  {
    hide Cut, Lex, All;
    WordNext(input, e, w);
    StepCut(input, ts, i, DefaultState, e);
  }

  lemma WordCut(input: string, ts: seq<Token>, i: nat, e: nat, w: string)
    requires Cut(input, ts, i, DefaultState, e) && Here(input, e, w) && IsWord(w) && !NameChar(PeekAt(input, e + |w|))
    ensures Word(input, ts, i, Identifier, w) && Cut(input, ts, i + 1, DefaultState, e + |w|)
  {
    hide Cut;
    AnyWordCut(input, ts, i, e, w);
  }

  /** One character that is a token. */
  lemma MarkCut(input: string, ts: seq<Token>, i: nat, e: nat, c: char)
    requires Cut(input, ts, i, DefaultState, e) && Here(input, e, [c]) && (c == '(' || c == '[' || c == '\n')
    ensures Is(ts, i, if c == '(' then ParenOpen else if c == '[' then BracketOpen else StmtSeparator)
    ensures Cut(input, ts, i + 1, if c == '(' then ComponentState else if c == '[' then PortArrayState else DefaultState, e + 1)
  {
    hide Cut, LexAll, RunEnd;
    HereFirst(input, e, [c]);
    StepCut(input, ts, i, DefaultState, e);
  }

  lemma ArrowCut(input: string, ts: seq<Token>, i: nat, e: nat)
    requires Cut(input, ts, i, DefaultState, e) && Here(input, e, "->")
    ensures Is(ts, i, Arrow) && Cut(input, ts, i + 1, DefaultState, e + 2)
  {
    hide Cut, LexAll, RunEnd;
    assert "->" == "-" + ">";
    HereBoth(input, e, "-", ">");
    HereFirst(input, e, "-");
    HereFirst(input, e + 1, ">");
    StepCut(input, ts, i, DefaultState, e);
  }

  lemma DigitsNext(input: string, e: nat, s: State, d: string)
    requires s == PortArrayState || s == ExportPortArrayState
    requires Here(input, e, d) && d != "" && All(d, DigitChar) && !DigitChar(PeekAt(input, e + |d|))
    ensures Lex(input, s, e) == Lexed(Integer, e, e + |d|, s)
  {
    hide RunEnd, Goes, All, Here;
    HereFirst(input, e, d);
    AllFirst(d, DigitChar);
    AllSame(d, DigitChar, IsDigit);
    RunIs(input, e, d, IsDigit);
  }

  lemma AllFirst(w: string, p: char -> bool)
    requires w != "" && All(w, p)
    ensures p(w[0])
  {
  }

  lemma DigitsCut(input: string, ts: seq<Token>, i: nat, e: nat, s: State, d: string)
    requires s == PortArrayState || s == ExportPortArrayState
    requires Cut(input, ts, i, s, e) && Here(input, e, d) && d != "" && All(d, DigitChar) && !DigitChar(PeekAt(input, e + |d|))
    ensures Word(input, ts, i, Integer, d) && Cut(input, ts, i + 1, s, e + |d|)
  {
    hide Cut, Lex, All, PeekAt, Goes;
    DigitsNext(input, e, s, d);
    StepCut(input, ts, i, s, e);
  }

  lemma BracketCut(input: string, ts: seq<Token>, i: nat, e: nat, s: State)
    requires s == PortArrayState || s == ExportPortArrayState
    requires Cut(input, ts, i, s, e) && Here(input, e, "]")
    ensures Is(ts, i, BracketClose) && Cut(input, ts, i + 1, if s == PortArrayState then DefaultState else ExportState, e + 1)
  {
    hide Cut, LexAll, RunEnd;
    HereFirst(input, e, "]");
    StepCut(input, ts, i, s, e);
  }

  /** An index, in a connection or in an export: the bracket that opens it is read already. */
  lemma IndexCut(input: string, ts: seq<Token>, i: nat, e: nat, s: State, d: string)
    requires s == PortArrayState || s == ExportPortArrayState
    requires Cut(input, ts, i, s, e) && Here(input, e, d + "]") && d != "" && All(d, DigitChar)
    ensures Word(input, ts, i, Integer, d) && Is(ts, i + 1, BracketClose)
    ensures Cut(input, ts, i + 2, if s == PortArrayState then DefaultState else ExportState, e + |d| + 1)
  {
    hide Cut, All;
    HereBoth(input, e, d, "]");
    HereFirst(input, e + |d|, "]");
    DigitsCut(input, ts, i, e, s, d);
    BracketCut(input, ts, i + 1, e + |d|, s);
  }

  // ---------------------------------------------------------------------------
  // Connections
  // ---------------------------------------------------------------------------

  lemma PortCut(input: string, ts: seq<Token>, i: nat, e: nat, p: PortText)
    requires Cut(input, ts, i, DefaultState, e) && Here(input, e, PortWritten(p)) && PortFine(p)
    requires PeekAt(input, e + |PortWritten(p)|) == ' '
    ensures PortSpelled(input, ts, i, p) && Cut(input, ts, i + PortSize(p), DefaultState, e + |PortWritten(p)|)
  {
    hide Cut, IsWord, All, Here;
    HereBoth(input, e, p.name, IndexWritten(p.index));
    if p.index.Some? {
      var d := p.index.value;
      var j := e + |p.name|;
      assert IndexWritten(p.index) == "[" + (d + "]");
      HereBoth(input, j, "[", d + "]");
      HereFirst(input, j, "[");
      WordCut(input, ts, i, e, p.name);
      MarkCut(input, ts, i + 1, j, '[');
      IndexCut(input, ts, i + 2, j + 1, PortArrayState, d);
    } else {
      assert p.name + "" == p.name;
      WordCut(input, ts, i, e, p.name);
    }
  }

  // ---------------------------------------------------------------------------
  // Nodes
  // ---------------------------------------------------------------------------

  /** A name in a state where one is due. */
  lemma NameCut(input: string, ts: seq<Token>, i: nat, e: nat, s: State, w: string)
    requires TakesName(s) && Cut(input, ts, i, s, e) && Here(input, e, w)
    requires All(w, NameOf(s).0) && !NameOf(s).0(PeekAt(input, e + |w|))
    ensures Word(input, ts, i, Identifier, w) && Cut(input, ts, i + 1, NameOf(s).1, e + |w|)
  {
    hide Cut, LexAll, RunEnd, NameOf;
    RunIs(input, e, w, NameOf(s).0);
    StepCut(input, ts, i, s, e);
  }

  /** One character within parentheses. */
  lemma MetaMarkCut(input: string, ts: seq<Token>, i: nat, e: nat, c: char)
    requires Cut(input, ts, i, MetaState, e) && Here(input, e, [c]) && (c == ':' || c == ',' || c == '=' || c == ')')
    ensures Is(ts, i, if c == ':' then Colon else if c == ',' then Comma else if c == '=' then Equal else ParenClose)
    ensures Cut(input, ts, i + 1, if c == ')' then DefaultState else MetaState, e + 1)
  {
    hide Cut, LexAll, RunEnd;
    HereFirst(input, e, [c]);
    StepCut(input, ts, i, MetaState, e);
  }

  lemma KeyNext(input: string, e: nat, w: string)
    requires Here(input, e, w) && IsKey(w) && !KeyChar(PeekAt(input, e + |w|))
    ensures Lex(input, MetaState, e) == Lexed(Identifier, e, e + |w|, MetaState)
  {
    hide RunEnd, Goes, All, Here;
    HereFirst(input, e, w);
    AllFirst(w, KeyChar);
    AllSame(w, KeyChar, IsMetaIdent);
    RunIs(input, e, w, IsMetaIdent);
  }

  lemma KeyCut(input: string, ts: seq<Token>, i: nat, e: nat, w: string)
    requires Cut(input, ts, i, MetaState, e) && Here(input, e, w) && IsKey(w) && !KeyChar(PeekAt(input, e + |w|))
    ensures Word(input, ts, i, Identifier, w) && Cut(input, ts, i + 1, MetaState, e + |w|)
  {
    hide Cut, Lex, All;
    KeyNext(input, e, w);
    StepCut(input, ts, i, MetaState, e);
  }

  lemma {:induction false} QuoteCloses(input: string, e: nat, s: string)
    requires Here(input, e, s) && Quoted(s)
    ensures ClosingQuote(input, e) == (true, e + |s|)
    decreases |s|
  {
    HereFirst(input, e, s);
    if s[0] == '\\' {
      assert s == s[..1] + s[1..] && s[1..] == [s[1]] + s[2..] && s == s[..2] + s[2..];
      HereBoth(input, e, s[..1], s[1..]);
      HereFirst(input, e + 1, s[1..]);
      HereBoth(input, e, s[..2], s[2..]);
      QuoteCloses(input, e + 2, s[2..]);
    } else if s[0] != '"' {
      assert s == [s[0]] + s[1..];
      HereBoth(input, e, [s[0]], s[1..]);
      QuoteCloses(input, e + 1, s[1..]);
    }
  }

  lemma StringNext(input: string, e: nat, w: string)
    requires Here(input, e, w) && IsString(w)
    ensures Lex(input, MetaState, e) == Lexed(String, e, e + |w|, MetaState)
  {
    hide Quoted, ClosingQuote, Goes, Here;
    HereFirst(input, e, w);
    assert w == [w[0]] + w[1..];
    HereBoth(input, e, [w[0]], w[1..]);
    QuoteCloses(input, e + 1, w[1..]);
  }

  lemma StringCut(input: string, ts: seq<Token>, i: nat, e: nat, w: string)
    requires Cut(input, ts, i, MetaState, e) && Here(input, e, w) && IsString(w)
    ensures Word(input, ts, i, String, w) && Cut(input, ts, i + 1, MetaState, e + |w|)
  {
    hide Cut, Lex, IsString;
    StringNext(input, e, w);
    StepCut(input, ts, i, MetaState, e);
  }

  lemma PairCut(input: string, ts: seq<Token>, i: nat, e: nat, p: PairText)
    requires Cut(input, ts, i, MetaState, e) && Here(input, e, PairWritten(p)) && PairFine(p)
    requires PeekAt(input, e + |PairWritten(p)|) == ',' || PeekAt(input, e + |PairWritten(p)|) == ')'
    ensures PairSpelled(input, ts, i, p) && Cut(input, ts, i + PairSize(p), MetaState, e + |PairWritten(p)|)
  {
    hide Cut, IsKey, IsString, Here;
    if p.value.Some? {
      var w, j := p.value.value, e + |p.key|;
      HereBoth(input, e, p.key, "=" + w);
      HereBoth(input, j, "=", w);
      HereFirst(input, j, "=");
      KeyCut(input, ts, i, e, p.key);
      MetaMarkCut(input, ts, i + 1, j, '=');
      if IsString(w) {
        StringCut(input, ts, i + 2, j + 1, w);
      } else {
        KeyCut(input, ts, i + 2, j + 1, w);
      }
    } else {
      assert p.key + "" == p.key;
      KeyCut(input, ts, i, e, p.key);
    }
  }

  /** What stands behind a pair: the comma before the next, or what is behind them all. */
  lemma PairsFirst(input: string, e: nat, ps: seq<PairText>)
    requires Here(input, e, PairsWritten(ps, false)) && PeekAt(input, e + |PairsWritten(ps, false)|) == ')'
    ensures PeekAt(input, e) == ',' || PeekAt(input, e) == ')'
  {
    hide PairWritten;
    if ps != [] {
      HereFirst(input, e, PairsWritten(ps, false));
    }
  }

  lemma {:induction false} PairsCut(input: string, ts: seq<Token>, i: nat, e: nat, ps: seq<PairText>, first: bool)
    requires Cut(input, ts, i, MetaState, e) && Here(input, e, PairsWritten(ps, first)) && forall p :: p in ps ==> PairFine(p)
    requires PeekAt(input, e + |PairsWritten(ps, first)|) == ')'
    ensures PairsSpelled(input, ts, i, ps, first) && Cut(input, ts, i + PairsSize(ps, first), MetaState, e + |PairsWritten(ps, first)|)
    decreases |ps|
  {
    hide Cut, PairFine, Here, PairWritten, PairSize, PairSpelled;
    if ps != [] {
      var a, b, rest := PairWritten(ps[0]), PairsWritten(ps[1..], false), ps[1..];
      var j, k := if first then i else i + 1, if first then e else e + 1;
      if first {
        assert PairsWritten(ps, first) == a + b;
        HereBoth(input, e, a, b);
      } else {
        assert PairsWritten(ps, first) == "," + (a + b);
        HereBoth(input, e, ",", a + b);
        HereBoth(input, k, a, b);
        MetaMarkCut(input, ts, i, e, ',');
      }
      PairsFirst(input, k + |a|, rest);
      PairCut(input, ts, j, k, ps[0]);
      PairsCut(input, ts, j + PairSize(ps[0]), k + |a|, rest, false);
    }
  }

  /** What stands in the parentheses after a component. */
  function MetasWritten(pairs: Option<seq<PairText>>): string {
    if pairs.Some? then ":" + PairsWritten(pairs.value, true) else ""
  }

  lemma MetasCut(input: string, ts: seq<Token>, i: nat, e: nat, n: NodeText)
    requires n.Full? && NodeFine(n) && Cut(input, ts, i + 3, MetaState, e) && Here(input, e, MetasWritten(n.pairs) + ")")
    ensures n.pairs.Some? ==> Is(ts, i + 3, Colon) && PairsSpelled(input, ts, i + 4, n.pairs.value, true)
    ensures Is(ts, i + NodeSize(n) - 1, ParenClose)
    ensures Cut(input, ts, i + NodeSize(n), DefaultState, e + |MetasWritten(n.pairs)| + 1)
  {
    hide Cut, IsWord, All, Here, PairFine, PairsWritten, PairsSpelled, PairsSize;
    var m := MetasWritten(n.pairs);
    HereBoth(input, e, m, ")");
    HereFirst(input, e + |m|, ")");
    if n.pairs.Some? {
      var ps := n.pairs.value;
      HereBoth(input, e, ":", PairsWritten(ps, true));
      MetaMarkCut(input, ts, i + 3, e, ':');
      PairsCut(input, ts, i + 4, e + 1, ps, true);
    }
    MetaMarkCut(input, ts, i + NodeSize(n) - 1, e + |m|, ')');
  }

  lemma ComponentCut(input: string, ts: seq<Token>, i: nat, e: nat, w: string)
    requires Cut(input, ts, i, ComponentState, e) && Here(input, e, w) && All(w, ComponentChar) && !ComponentChar(PeekAt(input, e + |w|))
    ensures Word(input, ts, i, Identifier, w) && Cut(input, ts, i + 1, MetaState, e + |w|)
  {
    hide Cut, Here, All;
    AllSame(w, ComponentChar, IsComponentIdent);
    NameCut(input, ts, i, e, ComponentState, w);
  }

  lemma FullParts(input: string, e: nat, n: NodeText)
    requires n.Full? && Here(input, e, NodeWritten(n))
    ensures var m := MetasWritten(n.pairs) + ")"; var j := e + |n.name|; var k := j + 1 + |n.component|;
      && Here(input, e, n.name) && Here(input, j, "(") && Here(input, j + 1, n.component) && Here(input, k, m)
      && PeekAt(input, j) == '(' && (PeekAt(input, k) == ':' || PeekAt(input, k) == ')')
      && e + |NodeWritten(n)| == k + |m|
  {
    hide Here, PairsWritten;
    var m := MetasWritten(n.pairs) + ")";
    var j := e + |n.name|;
    assert NodeWritten(n) == n.name + "(" + n.component + m;
    HereBoth(input, e, n.name + "(" + n.component, m);
    HereBoth(input, e, n.name + "(", n.component);
    HereBoth(input, e, n.name, "(");
    HereFirst(input, j, "(");
    HereFirst(input, j + 1 + |n.component|, m);
  }

  lemma FullCut(input: string, ts: seq<Token>, i: nat, e: nat, n: NodeText)
    requires n.Full? && NodeFine(n) && Cut(input, ts, i, DefaultState, e) && Here(input, e, NodeWritten(n))
    ensures NodeSpelled(input, ts, i, n) && Cut(input, ts, i + NodeSize(n), DefaultState, e + |NodeWritten(n)|)
  {
    hide Cut, IsWord, PairFine, MetasWritten, PairsSpelled, PairsSize, Here, All, TextAt, NodeWritten;
    var j := e + |n.name|;
    FullParts(input, e, n);
    WordCut(input, ts, i, e, n.name);
    MarkCut(input, ts, i + 1, j, '(');
    ComponentCut(input, ts, i + 2, j + 1, n.component);
    MetasCut(input, ts, i, j + 1 + |n.component|, n);
  }

  lemma NodeCut(input: string, ts: seq<Token>, i: nat, e: nat, n: NodeText)
    requires NodeFine(n) && Cut(input, ts, i, DefaultState, e) && Here(input, e, NodeWritten(n)) && PeekAt(input, e + |NodeWritten(n)|) == ' '
    ensures NodeSpelled(input, ts, i, n) && Cut(input, ts, i + NodeSize(n), DefaultState, e + |NodeWritten(n)|)
  {
    hide Cut, IsWord, All, Here, PairFine;
    if n.Full? {
      FullCut(input, ts, i, e, n);
    } else {
      WordCut(input, ts, i, e, n.name);
    }
  }

  // ---------------------------------------------------------------------------
  // Links
  // ---------------------------------------------------------------------------

  lemma NotBlank(input: string, e: nat, w: string)
    requires Here(input, e, w) && w != "" && !IsBlank(w[0])
    ensures !IsBlank(PeekAt(input, e))
  {
    HereFirst(input, e, w);
  }

  /** " port". */
  lemma BlankPortCut(input: string, ts: seq<Token>, i: nat, e: nat, p: PortText)
    requires Cut(input, ts, i, DefaultState, e) && Here(input, e, " " + PortWritten(p)) && PortFine(p)
    requires PeekAt(input, e + 1 + |PortWritten(p)|) == ' '
    ensures PortSpelled(input, ts, i, p) && Cut(input, ts, i + PortSize(p), DefaultState, e + 1 + |PortWritten(p)|)
  {
    hide Cut, All, Here, IndexFine, IndexWritten, PortSpelled;
    HereBoth(input, e, " ", PortWritten(p));
    AllFirst(p.name, NameChar);
    NotBlank(input, e + 1, PortWritten(p));
    BlankCut(input, ts, i, e);
    PortCut(input, ts, i, e + 1, p);
  }

  /** " node". */
  lemma BlankNodeCut(input: string, ts: seq<Token>, i: nat, e: nat, n: NodeText)
    requires Cut(input, ts, i, DefaultState, e) && Here(input, e, " " + NodeWritten(n)) && NodeFine(n)
    requires PeekAt(input, e + 1 + |NodeWritten(n)|) == ' '
    ensures NodeSpelled(input, ts, i, n) && Cut(input, ts, i + NodeSize(n), DefaultState, e + 1 + |NodeWritten(n)|)
  {
    hide Cut, All, Here, PairFine, NodeSpelled, NodeSize, PairsWritten;
    HereBoth(input, e, " ", NodeWritten(n));
    AllFirst(n.name, NameChar);
    NotBlank(input, e + 1, NodeWritten(n));
    BlankCut(input, ts, i, e);
    NodeCut(input, ts, i, e + 1, n);
  }

  /** " ->". */
  lemma BlankArrowCut(input: string, ts: seq<Token>, i: nat, e: nat)
    requires Cut(input, ts, i, DefaultState, e) && Here(input, e, " ->")
    ensures Is(ts, i, Arrow) && Cut(input, ts, i + 1, DefaultState, e + 3)
  {
    hide Cut, Here;
    assert " ->" == " " + "->";
    HereBoth(input, e, " ", "->");
    NotBlank(input, e + 1, "->");
    BlankCut(input, ts, i, e);
    ArrowCut(input, ts, i, e + 1);
  }

  lemma LinkCut(input: string, ts: seq<Token>, i: nat, e: nat, l: LinkText)
    requires Cut(input, ts, i, DefaultState, e) && Here(input, e, LinkWritten(l)) && LinkFine(l)
    requires PeekAt(input, e + |LinkWritten(l)|) == ' '
    ensures LinkSpelled(input, ts, i, l) && Cut(input, ts, i + LinkSize(l), DefaultState, e + |LinkWritten(l)|)
  {
    hide Cut, Here, PortFine, NodeFine, PortSpelled, NodeSpelled, PortWritten, NodeWritten, PortSize, NodeSize;
    var a, b, c := " " + PortWritten(l.source), " " + PortWritten(l.target), " " + NodeWritten(l.node);
    assert LinkWritten(l) == a + (" ->" + (b + c));
    var j := e + |a|;
    HereBoth(input, e, a, " ->" + (b + c));
    HereBoth(input, j, " ->", b + c);
    HereBoth(input, j + 3, b, c);
    HereFirst(input, j, " ->");
    HereFirst(input, j + 3 + |b|, c);
    BlankPortCut(input, ts, i, e, l.source);
    BlankArrowCut(input, ts, i + PortSize(l.source), j);
    BlankPortCut(input, ts, i + PortSize(l.source) + 1, j + 3, l.target);
    BlankNodeCut(input, ts, i + TargetSize(l), j + 3 + |b|, l.node);
  }

  lemma LinksFirst(input: string, e: nat, ls: seq<LinkText>)
    requires Here(input, e, LinksWritten(ls)) && PeekAt(input, e + |LinksWritten(ls)|) == ' '
    ensures PeekAt(input, e) == ' '
  {
    hide PortWritten, NodeWritten;
    if ls != [] {
      HereFirst(input, e, LinksWritten(ls));
    }
  }

  lemma {:induction false} LinksCut(input: string, ts: seq<Token>, i: nat, e: nat, ls: seq<LinkText>)
    requires Cut(input, ts, i, DefaultState, e) && Here(input, e, LinksWritten(ls)) && forall l :: l in ls ==> LinkFine(l)
    requires PeekAt(input, e + |LinksWritten(ls)|) == ' '
    ensures LinksSpelled(input, ts, i, ls) && Cut(input, ts, i + LinksSize(ls), DefaultState, e + |LinksWritten(ls)|)
    decreases |ls|
  {
    hide Cut, Here, LinkFine, LinkSpelled, LinkWritten, LinkSize;
    if ls != [] {
      var a, b := LinkWritten(ls[0]), LinksWritten(ls[1..]);
      HereBoth(input, e, a, b);
      LinksFirst(input, e + |a|, ls[1..]);
      LinkCut(input, ts, i, e, ls[0]);
      LinksCut(input, ts, i + LinkSize(ls[0]), e + |a|, ls[1..]);
    }
  }

  // ---------------------------------------------------------------------------
  // Statements with a keyword
  // ---------------------------------------------------------------------------

  lemma KeywordCut(input: string, ts: seq<Token>, i: nat, e: nat, w: string)
    requires Cut(input, ts, i, DefaultState, e) && Here(input, e, w + "=") && w in ["INPORT", "OUTPORT", "DECLARE", "OPTION"]
    ensures Is(ts, i, Keyword(w).0) && Is(ts, i + 1, Equal)
    ensures Cut(input, ts, i + 2, SeparatorOf(Keyword(w).1).2, e + |w| + 1)
  {
    hide Cut, Here, SeparatorOf;
    HereBoth(input, e, w, "=");
    HereFirst(input, e + |w|, "=");
    AnyWordCut(input, ts, i, e, w);
    EqualIsDue(w);
    SeparatorCut(input, ts, i + 1, e + |w|, Keyword(w).1);
  }

  lemma EqualIsDue(w: string)
    requires w in ["INPORT", "OUTPORT", "DECLARE", "OPTION"]
    ensures Separator(Keyword(w).1) && SeparatorOf(Keyword(w).1).0 == '=' && SeparatorOf(Keyword(w).1).1 == Equal
  {
  }

  lemma SeparatorCut(input: string, ts: seq<Token>, i: nat, e: nat, s: State)
    requires Separator(s) && Cut(input, ts, i, s, e) && Here(input, e, [SeparatorOf(s).0])
    ensures Is(ts, i, SeparatorOf(s).1) && Cut(input, ts, i + 1, SeparatorOf(s).2, e + 1)
  {
    hide Cut, LexAll, SeparatorOf;
    HereFirst(input, e, [SeparatorOf(s).0]);
    StepCut(input, ts, i, s, e);
  }

  /** What follows the statement is read as between statements. */
  lemma LeaveCut(input: string, ts: seq<Token>, i: nat, e: nat, s: State)
    requires s == ExportState || s == DeclareEndState || s == OptionEndState
    requires Cut(input, ts, i, s, e) && PeekAt(input, e) in {' ', '\n', '\0'}
    ensures Cut(input, ts, i, DefaultState, e)
  {
    hide LexAll, LexDefault;
    SameCut(input, ts, i, s, e, DefaultState, e);
  }

  lemma ExportMarkCut(input: string, ts: seq<Token>, i: nat, e: nat, c: char)
    requires Cut(input, ts, i, ExportState, e) && Here(input, e, [c]) && (c == '.' || c == ':' || c == '[')
    ensures Is(ts, i, if c == '.' then Dot else if c == ':' then Colon else BracketOpen)
    ensures Cut(input, ts, i + 1, if c == '[' then ExportPortArrayState else ExportIdentState, e + 1)
  {
    hide Cut, LexAll, LexDefault;
    HereFirst(input, e, [c]);
    StepCut(input, ts, i, ExportState, e);
  }

  /** A name in an export, a declaration or an option. */
  lemma PlainCut(input: string, ts: seq<Token>, i: nat, e: nat, s: State, w: string)
    requires TakesName(s) && s != ComponentState && s != DeclareContentsState
    requires Cut(input, ts, i, s, e) && Here(input, e, w) && All(w, NameChar) && !NameChar(PeekAt(input, e + |w|))
    ensures Word(input, ts, i, Identifier, w) && Cut(input, ts, i + 1, NameOf(s).1, e + |w|)
  {
    hide Cut, Here, All;
    AllSame(w, NameChar, IsNodeIdent);
    NameCut(input, ts, i, e, s, w);
  }

  lemma ExportIndexCut(input: string, ts: seq<Token>, i: nat, e: nat, index: Option<string>)
    requires Cut(input, ts, i, ExportState, e) && Here(input, e, IndexWritten(index)) && IndexFine(index)
    ensures IndexSpelled(input, ts, i, index) && Cut(input, ts, i + IndexSize(index), ExportState, e + |IndexWritten(index)|)
  {
    hide Cut, Here, All, TextAt;
    if index.Some? {
      var d := index.value;
      assert IndexWritten(index) == "[" + (d + "]");
      HereBoth(input, e, "[", d + "]");
      ExportMarkCut(input, ts, i, e, '[');
      IndexCut(input, ts, i + 1, e + 1, ExportPortArrayState, d);
    }
  }

  /** "name" after ":" or "." or "=", and what comes after it. */
  lemma ExportNameCut(input: string, ts: seq<Token>, i: nat, e: nat, w: string, rest: string)
    requires Cut(input, ts, i, ExportIdentState, e) && Here(input, e, w + rest) && All(w, NameChar) && rest != "" && !NameChar(rest[0])
    ensures Word(input, ts, i, Identifier, w) && Cut(input, ts, i + 1, ExportState, e + |w|) && Here(input, e + |w|, rest)
  {
    hide Cut, Here, All;
    HereBoth(input, e, w, rest);
    HereFirst(input, e + |w|, rest);
    PlainCut(input, ts, i, e, ExportIdentState, w);
  }

  /** "node.port:name " after "INPORT=" or "OUTPORT=". */
  lemma ExportCut(input: string, ts: seq<Token>, i: nat, e: nat, node: string, port: PortText, name: string)
    requires Cut(input, ts, i, ExportIdentState, e) && Here(input, e, node + ("." + (port.name + (IndexWritten(port.index) + (":" + (name + " "))))))
    requires All(node, NameChar) && All(port.name, NameChar) && IndexFine(port.index) && All(name, NameChar)
    ensures Word(input, ts, i, Identifier, node) && Is(ts, i + 1, Dot) && PortSpelled(input, ts, i + 2, port)
    ensures Is(ts, i + 2 + PortSize(port), Colon) && Word(input, ts, i + 3 + PortSize(port), Identifier, name)
    ensures Cut(input, ts, i + 4 + PortSize(port), DefaultState, e + |node| + 1 + |PortWritten(port)| + 1 + |name|)
  {
    hide Cut, Here, All, IndexFine, TextAt, IndexSpelled, IndexSize;
    var f := IndexWritten(port.index) + (":" + (name + " "));
    var j := e + |node|;
    var k := j + 1 + |port.name|;
    var l := k + |IndexWritten(port.index)|;
    ExportNameCut(input, ts, i, e, node, "." + (port.name + f));
    HereBoth(input, j, ".", port.name + f);
    ExportMarkCut(input, ts, i + 1, j, '.');
    assert f[0] == '[' || f[0] == ':';
    ExportNameCut(input, ts, i + 2, j + 1, port.name, f);
    HereBoth(input, k, IndexWritten(port.index), ":" + (name + " "));
    ExportIndexCut(input, ts, i + 3, k, port.index);
    HereBoth(input, l, ":", name + " ");
    ExportMarkCut(input, ts, i + 3 + IndexSize(port.index), l, ':');
    ExportNameCut(input, ts, i + 4 + IndexSize(port.index), l + 1, name, " ");
    HereFirst(input, l + 1 + |name|, " ");
    LeaveCut(input, ts, i + 5 + IndexSize(port.index), l + 1 + |name|, ExportState);
  }

  /** The first two fields of a declaration and of an option. */
  predicate Leading(s: State) {
    s == DeclareNameState || s == DeclareMetatypeState || s == OptionNodeNameState || s == OptionNodeOptionState
  }

  /** What ends a field, and the field after it. */
  function EndOf(s: State): char {
    if s == OptionNodeNameState then '.' else ':'
  }

  function AfterField(s: State): State {
    if s == DeclareNameState then DeclareMetatypeState
    else if s == DeclareMetatypeState then DeclareContentsState
    else if s == OptionNodeNameState then OptionNodeOptionState
    else OptionNameState
  }

  lemma FieldStates(s: State)
    requires Leading(s)
    ensures TakesName(s) && Separator(NameOf(s).1)
    ensures SeparatorOf(NameOf(s).1) == (EndOf(s), if EndOf(s) == '.' then Dot else Colon, AfterField(s))
  {
  }

  lemma FieldCut(input: string, ts: seq<Token>, i: nat, e: nat, s: State, w: string)
    requires Leading(s) && Cut(input, ts, i, s, e) && All(w, NameChar)
    requires Here(input, e, w) && Here(input, e + |w|, [EndOf(s)])
    ensures Word(input, ts, i, Identifier, w) && Is(ts, i + 1, if EndOf(s) == '.' then Dot else Colon)
    ensures Cut(input, ts, i + 2, AfterField(s), e + |w| + 1)
  {
    hide Cut, Here, All, TextAt, NameOf, SeparatorOf, AfterField, TakesName, Separator;
    FieldStates(s);
    HereFirst(input, e + |w|, [EndOf(s)]);
    PlainCut(input, ts, i, e, s, w);
    SeparatorCut(input, ts, i + 1, e + |w|, NameOf(s).1);
  }

  lemma KeywordStates()
    ensures Keyword("DECLARE") == (DeclareKeyword, DeclareEqualState) && SeparatorOf(DeclareEqualState).2 == DeclareNameState
    ensures Keyword("OPTION") == (OptionKeyword, OptionEqualState) && SeparatorOf(OptionEqualState).2 == OptionNodeNameState
    ensures TakesName(OptionNameState) && NameOf(OptionNameState).1 == OptionEndState
  {
  }

  lemma ExportStates()
    ensures Keyword("INPORT") == (InportKeyword, InportEqualState) && SeparatorOf(InportEqualState).2 == ExportIdentState
    ensures Keyword("OUTPORT") == (OutportKeyword, OutportEqualState) && SeparatorOf(OutportEqualState).2 == ExportIdentState
  {
  }

  lemma DeclareParts(input: string, e: nat, s: Stmt)
    requires s.Declare? && Here(input, e, StmtWritten(s))
    ensures var j := e + 8; var k := j + |s.name|; var l := k + 1 + |s.metatype|;
      && Here(input, e, "DECLARE" + "=") && Here(input, j, s.name) && Here(input, k, ":") && Here(input, k + 1, s.metatype)
      && Here(input, l, ":") && Here(input, l + 1, s.contents)
      && e + |StmtWritten(s)| == l + 1 + |s.contents|
  {
    hide Here;
    var j := e + 8;
    var k := j + |s.name|;
    var l := k + 1 + |s.metatype|;
    HereBoth(input, e, "DECLARE=" + s.name + ":" + s.metatype + ":", s.contents);
    HereBoth(input, e, "DECLARE=" + s.name + ":" + s.metatype, ":");
    HereBoth(input, e, "DECLARE=" + s.name + ":", s.metatype);
    HereBoth(input, e, "DECLARE=" + s.name, ":");
    HereBoth(input, e, "DECLARE=", s.name);
    assert "DECLARE=" == "DECLARE" + "=";
  }

  lemma DeclareCut(input: string, ts: seq<Token>, i: nat, e: nat, s: Stmt)
    requires s.Declare? && StmtFine(s) && Cut(input, ts, i, DefaultState, e) && Here(input, e, StmtWritten(s))
    requires PeekAt(input, e + |StmtWritten(s)|) in {'\n', '\0'}
    ensures StmtSpelled(input, ts, i, s) && Cut(input, ts, i + 7, DefaultState, e + |StmtWritten(s)|)
  {
    hide Cut, Here, All, TextAt, StmtWritten, NameOf, SeparatorOf, Keyword, TakesName, Separator, PeekAt, NameChar, ContentsChar, KindAt, Word, IsWord;
    KeywordStates();
    var j := e + 8;
    var k := j + |s.name|;
    var l := k + 1 + |s.metatype|;
    DeclareParts(input, e, s);
    KeywordCut(input, ts, i, e, "DECLARE");
    FieldCut(input, ts, i + 2, j, DeclareNameState, s.name);
    FieldCut(input, ts, i + 4, k + 1, DeclareMetatypeState, s.metatype);
    ContentsCut(input, ts, i + 6, l + 1, s.contents);
    LeaveCut(input, ts, i + 7, l + 1 + |s.contents|, DeclareEndState);
  }

  lemma ContentsCut(input: string, ts: seq<Token>, i: nat, e: nat, w: string)
    requires Cut(input, ts, i, DeclareContentsState, e) && Here(input, e, w) && All(w, ContentsChar)
    requires PeekAt(input, e + |w|) in {'\n', '\0'}
    ensures Word(input, ts, i, Identifier, w) && Cut(input, ts, i + 1, DeclareEndState, e + |w|)
  {
    hide Cut, Here, All;
    AllSame(w, ContentsChar, InContents);
    NameCut(input, ts, i, e, DeclareContentsState, w);
  }

  lemma ExposeParts(input: string, e: nat, s: Stmt)
    requires s.Expose? && Here(input, e, StmtWritten(s))
    ensures var j := e + 7; var k := j + |s.node|; var l := k + 1 + |s.option|; var m := l + 1 + |s.name|;
      && Here(input, e, "OPTION" + "=") && Here(input, j, s.node) && Here(input, k, ".") && Here(input, k + 1, s.option)
      && Here(input, l, ":") && Here(input, l + 1, s.name) && Here(input, m, " ")
      && PeekAt(input, m) == ' ' && e + |StmtWritten(s)| == m + 1
  {
    hide Here;
    var j := e + 7;
    var k := j + |s.node|;
    var l := k + 1 + |s.option|;
    assert StmtWritten(s) == "OPTION=" + (s.node + ("." + (s.option + (":" + (s.name + " ")))));
    HereBoth(input, e, "OPTION=", s.node + ("." + (s.option + (":" + (s.name + " ")))));
    HereBoth(input, j, s.node, "." + (s.option + (":" + (s.name + " "))));
    HereBoth(input, k, ".", s.option + (":" + (s.name + " ")));
    HereBoth(input, k + 1, s.option, ":" + (s.name + " "));
    HereBoth(input, l, ":", s.name + " ");
    HereBoth(input, l + 1, s.name, " ");
    HereFirst(input, l + 1 + |s.name|, " ");
    assert "OPTION=" == "OPTION" + "=";
  }

  /** The last field of an option. */
  lemma OptionNameCut(input: string, ts: seq<Token>, i: nat, e: nat, w: string)
    requires Cut(input, ts, i, OptionNameState, e) && Here(input, e, w) && All(w, NameChar) && PeekAt(input, e + |w|) == ' '
    ensures Word(input, ts, i, Identifier, w) && Cut(input, ts, i + 1, DefaultState, e + |w|)
  {
    hide Cut, Here, All, NameOf;
    KeywordStates();
    PlainCut(input, ts, i, e, OptionNameState, w);
    LeaveCut(input, ts, i + 1, e + |w|, OptionEndState);
  }

  lemma ExposeCut(input: string, ts: seq<Token>, i: nat, e: nat, s: Stmt)
    requires s.Expose? && StmtFine(s) && Cut(input, ts, i, DefaultState, e) && Here(input, e, StmtWritten(s))
    ensures StmtSpelled(input, ts, i, s) && Cut(input, ts, i + 7, DefaultState, e + |StmtWritten(s)| - 1)
    ensures Here(input, e + |StmtWritten(s)| - 1, " ")
  {
    hide Cut, Here, All, TextAt, StmtWritten, NameOf, SeparatorOf, Keyword, TakesName, Separator, PeekAt, NameChar, KindAt, Word, IsWord;
    KeywordStates();
    var j := e + 7;
    var k := j + |s.node|;
    var l := k + 1 + |s.option|;
    ExposeParts(input, e, s);
    KeywordCut(input, ts, i, e, "OPTION");
    FieldCut(input, ts, i + 2, j, OptionNodeNameState, s.node);
    FieldCut(input, ts, i + 4, k + 1, OptionNodeOptionState, s.option);
    OptionNameCut(input, ts, i + 6, l + 1, s.name);
  }

  lemma PortsParts(input: string, e: nat, keyword: string, s: Stmt, node: string, port: PortText, name: string)
    requires (s == Inport(node, port, name) && keyword == "INPORT") || (s == Outport(node, port, name) && keyword == "OUTPORT")
    requires Here(input, e, StmtWritten(s))
    ensures var rest := node + ("." + (port.name + (IndexWritten(port.index) + (":" + (name + " "))))); var j := e + |keyword| + 1;
      && Here(input, e, keyword + "=") && Here(input, j, rest)
      && e + |StmtWritten(s)| == j + |node| + 1 + |PortWritten(port)| + 1 + |name| + 1
      && Here(input, e + |StmtWritten(s)| - 1, " ")
  {
    hide Here, IndexWritten;
    var rest := node + ("." + (port.name + (IndexWritten(port.index) + (":" + (name + " ")))));
    PortsText(keyword, s, node, port, name);
    HereBoth(input, e, keyword + "=", rest);
    var w := StmtWritten(s);
    assert w == w[..|w| - 1] + " ";
    HereBoth(input, e, w[..|w| - 1], " ");
  }

  lemma PortsText(keyword: string, s: Stmt, node: string, port: PortText, name: string)
    requires (s == Inport(node, port, name) && keyword == "INPORT") || (s == Outport(node, port, name) && keyword == "OUTPORT")
    ensures StmtWritten(s) == keyword + "=" + (node + ("." + (port.name + (IndexWritten(port.index) + (":" + (name + " "))))))
  {
    hide IndexWritten;
    var a, b, c := port.name, IndexWritten(port.index), ":" + (name + " ");
    assert "INPORT" + "=" == "INPORT=" && "OUTPORT" + "=" == "OUTPORT=";
    assert a + b + ":" + name + " " == a + (b + c);
    assert keyword + "=" + node + "." + (a + b) + ":" + name + " " == keyword + "=" + (node + ("." + (a + (b + c))));
  }

  lemma PortsCut(input: string, ts: seq<Token>, i: nat, e: nat, keyword: string, s: Stmt, node: string, port: PortText, name: string)
    requires (s == Inport(node, port, name) && keyword == "INPORT") || (s == Outport(node, port, name) && keyword == "OUTPORT")
    requires StmtFine(s) && Cut(input, ts, i, DefaultState, e) && Here(input, e, StmtWritten(s))
    ensures StmtSpelled(input, ts, i, s) && Cut(input, ts, i + StmtSize(s), DefaultState, e + |StmtWritten(s)| - 1)
    ensures Here(input, e + |StmtWritten(s)| - 1, " ")
  {
    hide Cut, Here, All, TextAt, IndexFine, PortSpelled, PortSize, StmtWritten, PortWritten, IndexWritten, PeekAt;
    hide Keyword, SeparatorOf, IsKeyword;
    ExportStates();
    PortsParts(input, e, keyword, s, node, port, name);
    KeywordCut(input, ts, i, e, keyword);
    ExportCut(input, ts, i + 2, e + |keyword| + 1, node, port, name);
  }

  lemma Together(a: string, b: string, c: string)
    ensures a + b + c == a + (b + c)
  {
  }

  lemma ChainText(input: string, e: nat, s: Stmt)
    requires s.Chain? && Here(input, e, StmtWritten(s))
    ensures var a, b := NodeWritten(s.first), LinksWritten(s.links); var j, k := e + |a|, e + |a| + |b|;
      && Here(input, e, a) && Here(input, j, b) && Here(input, k, " ") && PeekAt(input, j) == ' ' && PeekAt(input, k) == ' '
      && e + |StmtWritten(s)| == k + 1
  {
    hide Here, NodeWritten, LinksWritten, PeekAt;
    var a, b := NodeWritten(s.first), LinksWritten(s.links);
    assert StmtWritten(s) == a + (b + " ") by { Together(a, b, " "); }
    HereBoth(input, e, a, b + " ");
    HereBoth(input, e + |a|, b, " ");
    HereFirst(input, e + |a| + |b|, " ");
    LinksFirst(input, e + |a|, s.links);
  }

  lemma ChainCut(input: string, ts: seq<Token>, i: nat, e: nat, s: Stmt)
    requires s.Chain? && StmtFine(s) && Cut(input, ts, i, DefaultState, e) && Here(input, e, StmtWritten(s))
    ensures NodeSpelled(input, ts, i, s.first) && LinksSpelled(input, ts, i + NodeSize(s.first), s.links)
    ensures Cut(input, ts, i + StmtSize(s), DefaultState, e + |StmtWritten(s)| - 1)
    ensures Here(input, e + |StmtWritten(s)| - 1, " ")
  {
    hide Cut, Here, NodeFine, LinkFine, NodeWritten, LinksWritten, NodeSpelled, LinksSpelled, NodeSize, LinksSize, StmtWritten, PeekAt;
    ChainText(input, e, s);
    NodeCut(input, ts, i, e, s.first);
    LinksCut(input, ts, i + NodeSize(s.first), e + |NodeWritten(s.first)|, s.links);
  }

  /** A statement as it is spelled, but for what has to follow it. */
  predicate NearlySpelled(input: string, ts: seq<Token>, i: nat, s: Stmt) {
    if s.Chain? then NodeSpelled(input, ts, i, s.first) && LinksSpelled(input, ts, i + NodeSize(s.first), s.links)
    else StmtSpelled(input, ts, i, s)
  }

  lemma StmtCut(input: string, ts: seq<Token>, i: nat, e: nat, s: Stmt)
    requires StmtFine(s) && Cut(input, ts, i, DefaultState, e) && Here(input, e, StmtWritten(s))
    requires !IsBlank(PeekAt(input, e + |StmtWritten(s)|)) && (s.Declare? ==> PeekAt(input, e + |StmtWritten(s)|) in {'\n', '\0'})
    ensures NearlySpelled(input, ts, i, s) && Cut(input, ts, i + StmtSize(s), DefaultState, e + |StmtWritten(s)|)
  {
    hide Cut, Here, All, NodeFine, LinkFine, NodeSpelled, LinksSpelled, PortSpelled, TextAt, IndexFine, NodeSize, LinksSize, PortSize;
    hide NodeWritten, LinksWritten, PortWritten;
    match s
    case Break => MarkCut(input, ts, i, e, '\n');
    case Declare(_, _, _) => DeclareCut(input, ts, i, e, s);
    case Inport(node, port, name) =>
      PortsCut(input, ts, i, e, "INPORT", s, node, port, name);
      BlankCut(input, ts, i + StmtSize(s), e + |StmtWritten(s)| - 1);
    case Outport(node, port, name) =>
      PortsCut(input, ts, i, e, "OUTPORT", s, node, port, name);
      BlankCut(input, ts, i + StmtSize(s), e + |StmtWritten(s)| - 1);
    case Expose(_, _, _) =>
      ExposeCut(input, ts, i, e, s);
      BlankCut(input, ts, i + StmtSize(s), e + |StmtWritten(s)| - 1);
    case Chain(_, _) =>
      ChainCut(input, ts, i, e, s);
      BlankCut(input, ts, i + StmtSize(s), e + |StmtWritten(s)| - 1);
  }

  // ---------------------------------------------------------------------------
  // Whole texts
  // ---------------------------------------------------------------------------

  /** How a text begins. */
  lemma WrittenFirst(input: string, e: nat, stmts: seq<Stmt>)
    requires Here(input, e, Written(stmts)) && e + |Written(stmts)| == |input| && Writable(stmts)
    ensures !IsBlank(PeekAt(input, e))
    ensures stmts == [] ==> PeekAt(input, e) == '\0'
    ensures stmts != [] && stmts[0].Break? ==> PeekAt(input, e) == '\n'
  {
    hide All, PortWritten, PairsWritten, LinksWritten, LinkFine, PairFine;
    if stmts != [] {
      HereFirst(input, e, Written(stmts));
      if stmts[0].Chain? {
        AllFirst(stmts[0].first.name, NameChar);
      }
    }
  }

  lemma EndCut(input: string, ts: seq<Token>, i: nat, e: nat)
    requires Cut(input, ts, i, DefaultState, e) && PeekAt(input, e) == '\0'
    ensures Is(ts, i, Eof)
  {
    hide LexAll;
    LexAllStep(input, DefaultState, e);
    assert ts[i] == ts[i..][0];
  }

  lemma SpelledFirst(input: string, ts: seq<Token>, i: nat, stmts: seq<Stmt>)
    requires Spelled(input, ts, i, stmts)
    ensures stmts == [] ==> Is(ts, i, Eof)
    ensures stmts != [] && stmts[0].Break? ==> Is(ts, i, StmtSeparator)
    ensures stmts != [] && !stmts[0].Break? && !stmts[0].Chain? ==> IsKeyword(KindAt(ts, i))
  {
    hide PortSpelled, TextAt, NodeSpelled, LinksSpelled, Spelled;
    SpelledStep(input, ts, i, stmts);
  }

  lemma SpelledStep(input: string, ts: seq<Token>, i: nat, stmts: seq<Stmt>)
    requires Spelled(input, ts, i, stmts)
    ensures if stmts == [] then Is(ts, i, Eof) else StmtSpelled(input, ts, i, stmts[0])
  {
    hide StmtSpelled;
  }

  lemma ChainSpelled(input: string, ts: seq<Token>, i: nat, s: Stmt)
    requires NearlySpelled(input, ts, i, s) && (s.Chain? ==> ChainEnds(ts, i + StmtSize(s), s.links != []))
    ensures StmtSpelled(input, ts, i, s)
  {
    hide NodeSpelled, LinksSpelled, NodeSize, LinksSize;
  }

  lemma {:induction false} WrittenCut(input: string, ts: seq<Token>, i: nat, e: nat, stmts: seq<Stmt>)
    requires Cut(input, ts, i, DefaultState, e) && Here(input, e, Written(stmts)) && e + |Written(stmts)| == |input| && Writable(stmts)
    ensures Spelled(input, ts, i, stmts)
    decreases |stmts|
  {
    hide Cut, Here, StmtFine, StmtWritten, StmtSpelled, NearlySpelled, StmtSize;
    if stmts == [] {
      WrittenFirst(input, e, stmts);
      EndCut(input, ts, i, e);
    } else {
      var s, rest := stmts[0], stmts[1..];
      var a, b := StmtWritten(s), Written(rest);
      HereBoth(input, e, a, b);
      WrittenFirst(input, e + |a|, rest);
      StmtCut(input, ts, i, e, s);
      WrittenCut(input, ts, i + StmtSize(s), e + |a|, rest);
      SpelledFirst(input, ts, i + StmtSize(s), rest);
      ChainSpelled(input, ts, i, s);
    }
  }

  /** The tokens of what is written spell it. */
  lemma WrittenIsSpelled(stmts: seq<Stmt>)
    requires Writable(stmts)
    ensures Spelled(Written(stmts), LexAll(Written(stmts), DefaultState, 0), 0, stmts)
  {
    hide LexAll, Written, Writable, Spelled;
    var input := Written(stmts);
    var ts := LexAll(input, DefaultState, 0);
    assert ts[0..] == ts && input[0..|input|] == input;
    WrittenCut(input, ts, 0, 0, stmts);
  }
}
