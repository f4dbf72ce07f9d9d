/**
 The recursive-descent parser of the FBP language: one token of lookahead, and a graph
 that grows statement by statement until the first error. Every method is proved to do
 what the reader of the whole token list says.
 */
module FbpParser {
  import opened FbpTokens
  import opened FbpScanner
  import opened FbpGraph
  import opened FbpReader
  import opened FbpSafety
  import opened FbpMeaning

  /** What the parser relies on about the tokens of a text. */
  predicate Whole(ts: seq<Token>) {
    forall i :: 0 <= i < |ts| ==> ts[i].kind != NoToken && ts[i].pos.line >= 1 && (IsLast(ts[i]) ==> i == |ts| - 1)
  }

  lemma WholeList(input: string)
    ensures var ts := LexAll(input, DefaultState, 0); Whole(ts) && |ts| >= 1
  {
    hide LexAll, IsLast;
    WholeText(input);
    var ts := LexAll(input, DefaultState, 0);
    forall i | 0 <= i < |ts|
      ensures ts[i].kind != NoToken && ts[i].pos.line >= 1
    {
      assert TokenOk(input, ts, i);
    }
  }

  /** A token that is not of the last kinds is not the last. */
  lemma GoesFurther(ts: seq<Token>, i: nat)
    requires Whole(ts) && i < |ts| && !IsLast(ts[i]) && IsLast(ts[|ts| - 1])
    ensures i + 1 < |ts|
  {
  }

  class Parser {
    const input: string
    const scanner: Scanner
    const graph: Graph
    ghost const all: seq<Token>   // every token of the input
    var current: Token
    var pending: Token            // of kind NoToken when there is none
    var hasError: bool
    var errorPos: Position        // line 0 as long as no position is recorded
    ghost var count: nat          // the tokens read, up to the current one

    /** The tokens that the scanner has not come to. */
    ghost function Ahead(): seq<Token>
      requires scanner.end <= |scanner.input|
      reads scanner
    {
      if scanner.Final() then [] else LexAll(scanner.input, scanner.state, scanner.end)
    }

    /** The current token, the pending one and the scanner against the list of all tokens. */
    ghost predicate Synced()
      reads this, scanner
    {
      var scanned := count + if pending.kind == NoToken then 0 else 1;
      && Whole(all) && all != [] && IsLast(all[|all| - 1])
      && scanner.input == input && scanner.Valid() && scanned <= |all|
      && all[scanned..] == Ahead()
      && (if count > 0 then current == all[count - 1] else current.kind == NoToken)
      && (pending.kind != NoToken ==> pending == all[count])
    }

    /** No error yet, and more to read. */
    ghost predicate Ready()
      reads this, scanner
    {
      Synced() && !hasError && errorPos.line == 0 && count < |all|
    }

    /** What has been done is what the reader says: as much is read, or the same position is reported. */
    ghost predicate After<T>(r: Result<T>, ok: bool)
      reads this, scanner
    {
      && ok == r.Got? && hasError == !ok
      && if ok then Ready() && count == r.next else errorPos == r.pos
    }

    constructor (input: string, scanner: Scanner, graph: Graph)
      requires scanner.Valid() && scanner.input == input && scanner.kind == NoToken
      requires scanner.state == DefaultState && scanner.end == 0
      ensures this.input == input && this.scanner == scanner && this.graph == graph
      ensures all == LexAll(input, DefaultState, 0) && Ready() && count == 0
    {
      hide LexAll;
      this.input, this.scanner, this.graph := input, scanner, graph;
      this.all := LexAll(input, DefaultState, 0);
      current := Token(NoToken, 0, 0, Position(0, 0));
      pending := Token(NoToken, 0, 0, Position(0, 0));
      hasError, errorPos := false, Position(0, 0);
      count := 0;
      WholeList(input);
      LexAllEnds(input, DefaultState, 0);
    }

    // -------------------------------------------------------------------------
    // Tokens
    // -------------------------------------------------------------------------

    /** get_token_slice. */
    function Slice(): string
      reads this
    {
      Text(input, current)
    }

    /** One call of the scanner gives the next of all tokens. */
    method Scan() returns (t: Token)
      requires scanner.Valid() && !scanner.Final()
      modifies scanner
      ensures scanner.Valid() && old(Ahead()) == [t] + Ahead()
    {
      hide Lex, PositionAt;
      LexAllStep(scanner.input, scanner.state, scanner.end);
      hide LexAll;
      scanner.ScanToken();
      t := scanner.Current();
    }

    /** next_token. */
    method NextToken() returns (k: TokenType)
      requires Synced() && count < |all|
      modifies this`current, this`pending, this`count, scanner
      ensures Synced() && count == old(count) + 1 && pending.kind == NoToken
      ensures current == all[old(count)] && k == current.kind
    {
      hide LexAll, Whole, IsLast, Scanner.Valid;
      k := pending.kind;
      if k != NoToken {
        current := pending;
        pending := pending.(kind := NoToken);
        count := count + 1;
        return;
      }
      assert scanner.end <= |scanner.input| by { ScannerInText(); }
      ghost var rest := Ahead();
      current := Scan();
      assert all[count..] == rest && rest[0] == all[count] && rest[1..] == all[count + 1..];
      count := count + 1;
      k := current.kind;
    }

    lemma ScannerInText()
      requires scanner.Valid()
      ensures scanner.end <= |scanner.input|
    {
    }

    /** peek_token: reads a token as the pending one, and puts the current one back. */
    method PeekToken() returns (k: TokenType)
      requires Synced() && count < |all|
      modifies this`current, this`pending, this`count, scanner
      ensures Synced() && count == old(count) && current == old(current)
      ensures pending == all[count] && k == pending.kind == KindAt(all, count)
    {
      hide LexAll, IsLast, Scanner.Valid;
      k := pending.kind;
      if k != NoToken {
        return;
      }
      var kept := current;
      k := NextToken();
      pending := current;
      current := kept;
      count := count - 1;
    }

    /** Every position of a token has a line. */
    lemma PositionsCount(p: Position)
      requires Synced() && AtToken(all, p)
      ensures p.line >= 1
    {
      hide LexAll, Scanner.Valid, IsLast;
    }

    lemma NotLast()
      requires Synced() && count > 0 && !IsLast(current)
      ensures count < |all|
    {
      hide LexAll, Scanner.Valid, IsLast;
      GoesFurther(all, count - 1);
    }

    lemma LineOf(i: nat)
      requires Synced() && i < |all|
      ensures all[i].pos.line >= 1
    {
      hide LexAll, Scanner.Valid, IsLast;
    }

    /** set_parse_error: the current token's position, unless one is recorded already. */
    method SetParseError()
      requires current.pos.line >= 1 || errorPos.line >= 1
      modifies this`hasError, this`errorPos
      ensures hasError && errorPos == if old(errorPos).line == 0 then current.pos else old(errorPos)
    {
      hasError := true;
      if errorPos.line == 0 {
        errorPos := current.pos;
      }
    }

    /** set_parse_error for the current token. */
    method FailHere()
      requires Synced() && !hasError && errorPos.line == 0 && count > 0
      modifies this`hasError, this`errorPos
      ensures hasError && errorPos == PosAt(all, count - 1)
    {
      hide LexAll, IsLast, Scanner.Valid;
      SetParseError();
    }

    /** set_parse_error for a position that the caller records first. */
    method FailAt(pos: Position)
      requires !hasError && pos.line >= 1
      modifies this`hasError, this`errorPos
      ensures hasError && errorPos == pos
    {
      errorPos := pos;
      SetParseError();
    }

    /** The next token must be of kind `k`; anything else is an error at that token. */
    method Take(k: TokenType) returns (ok: bool)
      requires Ready() && k != NoToken && !(k == Eof || k == Error)
      modifies this`current, this`pending, this`count, this`hasError, this`errorPos, scanner
      ensures ok == (KindAt(all, old(count)) == k)
      ensures ok ==> Ready() && count == old(count) + 1 && current == all[old(count)]
      ensures !ok ==> hasError && errorPos == PosAt(all, old(count))
    {
      hide LexAll, Whole, Scanner.Valid;
      var t := NextToken();
      if t != k {
        FailHere();
        return false;
      }
      GoesFurther(all, count - 1);
      return true;
    }

    /** Reads the pending token, which is not the last. */
    method Skip()
      requires Ready() && !IsLast(all[count])
      modifies this`current, this`pending, this`count, scanner
      ensures Ready() && count == old(count) + 1 && current == all[old(count)]
    {
      hide LexAll, Whole, Scanner.Valid;
      GoesFurther(all, count);
      var k := NextToken();
    }

    // -------------------------------------------------------------------------
    // Names and ports
    // -------------------------------------------------------------------------

    /** A fixed token, then a name. */
    method TakeName(before: TokenType) returns (ok: bool, name: string)
      requires Ready() && before in {Equal, Dot, Colon}
      modifies this`current, this`pending, this`count, this`hasError, this`errorPos, scanner
      ensures After(ReadName(input, all, old(count), before), ok)
      ensures ok ==> name == ReadName(input, all, old(count), before).value && current == all[count - 1]
    {
      hide Parser.Synced, Text;
      name := "";
      ok := Take(before);
      if ok {
        ok := Take(Identifier);
        if ok {
          name := Slice();
        }
      }
    }

    /** "[3]", if it is there: the index over the -1 that stands for none. */
    method TakeIndex() returns (ok: bool, idx: int)
      requires Ready()
      modifies this`current, this`pending, this`count, this`hasError, this`errorPos, scanner
      ensures After(ReadIndex(input, all, old(count)), ok)
      ensures ok ==> idx == ReadIndex(input, all, old(count)).value
    {
      hide Parser.Synced, Text, PortIndex;
      ok, idx := true, -1;
      var k := PeekToken();
      if k != BracketOpen {
        return;
      }
      Skip();
      ok := Take(Integer);
      if ok {
        var digits := Slice();
        ok := Take(BracketClose);
        if ok {
          idx := PortIndex(digits);
        }
      }
    }

    /** "=node.port". */
    method TakeMember() returns (ok: bool, node: string, member: string)
      requires Ready()
      modifies this`current, this`pending, this`count, this`hasError, this`errorPos, scanner
      ensures After(ReadMember(input, all, old(count)), ok)
      ensures ok ==> Member(node, member) == ReadMember(input, all, old(count)).value
    {
      hide Parser.Synced, ReadName;
      member := "";
      ok, node := TakeName(Equal);
      if ok {
        ok, member := TakeName(Dot);
      }
    }

    /** parse_exported_port: the node it returns is not in the graph yet. */
    method ParseExportedPort() returns (ok: bool, node: string, e: Exported)
      requires Ready()
      modifies this`current, this`pending, this`count, this`hasError, this`errorPos, scanner
      ensures After(ReadExported(input, all, old(count)), ok)
      ensures ok ==> Named(node, e) == ReadExported(input, all, old(count)).value && current == all[count - 1]
    {
      hide Parser.Synced, ReadName, ReadMember, ReadIndex;
      e := Exported(0, "", -1, "", current.pos);
      var port, idx, name;
      ok, node, port := TakeMember();
      if ok {
        ok, idx := TakeIndex();
        if ok {
          ok, name := TakeName(Colon);
          e := Exported(0, port, idx, name, current.pos);
        }
      }
    }

    /** parse_port: a name, and maybe an index. */
    method ParsePort() returns (ok: bool, p: PortRef)
      requires Ready()
      modifies this`current, this`pending, this`count, this`hasError, this`errorPos, scanner
      ensures After(ReadPort(input, all, old(count)), ok)
      ensures ok ==> p == ReadPort(input, all, old(count)).value && count > 0 && current == all[count - 1]
    {
      hide Scanner.Valid, LexAll, ReadIndex, Whole, IsLast, Text;
      p := PortRef("", -1);
      ok := Take(Identifier);
      if ok {
        var name, idx := Slice(), -1;
        ok, idx := TakeIndex();
        p := PortRef(name, idx);
      }
    }

    // -------------------------------------------------------------------------
    // Nodes
    // -------------------------------------------------------------------------

    /** sol_fbp_graph_add_node with handle_node_error. */
    method PlaceNode(name: string, component: string, pos: Position) returns (ok: bool, n: nat)
      requires Ready() && pos.line >= 1
      modifies this`hasError, this`errorPos, graph`nodes
      ensures graph.nodes == Place(old(graph.nodes), name, component, pos, count).0
      ensures After(Place(old(graph.nodes), name, component, pos, count).1, ok)
      ensures ok ==> n == Place(old(graph.nodes), name, component, pos, count).1.value
    {
      hide Parser.Synced, NodeAdded;
      n := 0;
      var r := graph.AddNode(name, component, pos);
      ok := r.Index?;
      if ok {
        n := r.i;
      } else {
        FailAt(pos);
      }
    }

    /** The value of a pair, if there is one. */
    method TakeValue() returns (ok: bool, value: string)
      requires Ready()
      modifies this`current, this`pending, this`count, this`hasError, this`errorPos, scanner
      ensures After(ReadValue(input, all, old(count)), ok)
      ensures ok ==> value == ReadValue(input, all, old(count)).value
    {
      hide Parser.Synced, Text;
      ok, value := true, "";
      var k := PeekToken();
      if k != Equal {
        return;
      }
      Skip();
      k := NextToken();
      if k != Identifier && k != String {
        FailHere();
        return false, value;
      }
      NotLast();
      value := Slice();
    }

    /** One pair of parse_meta: "key" or "key=value", after a comma unless it is the first. */
    method TakePair(first: bool) returns (ok: bool, m: Meta)
      requires Ready()
      modifies this`current, this`pending, this`count, this`hasError, this`errorPos, scanner
      ensures After(ReadPair(input, all, old(count), first), ok)
      ensures ok ==> m == ReadPair(input, all, old(count), first).value && m.pos.line >= 1
    {
      hide LexAll, Scanner.Valid, IsLast, ReadValue, Text;
      ok, m := true, Meta("", "", current.pos);
      if !first {
        ok := Take(Comma);
      }
      if ok {
        ok := Take(Identifier);
        if ok {
          var key, pos, value := Slice(), current.pos, "";
          ok, value := TakeValue();
          m := Meta(key, value, pos);
        }
      }
    }

    /** sol_fbp_graph_add_meta with handle_meta_error. */
    method GainMeta(n: nat, m: Meta) returns (ok: bool)
      requires Ready() && m.pos.line >= 1
      modifies this`hasError, this`errorPos, graph`nodes
      ensures graph.nodes == MetaAdded(old(graph.nodes), n, m).0
      ensures ok == MetaAdded(old(graph.nodes), n, m).1.Index? == !hasError
      ensures if ok then Ready() else errorPos == m.pos
    {
      hide Parser.Synced, MetaAdded;
      var r := graph.AddMeta(n, m.key, m.value, m.pos);
      ok := r.Index?;
      if !ok {
        FailAt(m.pos);
      }
    }

    /** The loop of parse_meta. */
    method ParsePairs(n: nat) returns (ok: bool)
      requires Ready()
      modifies this`current, this`pending, this`count, this`hasError, this`errorPos, scanner, graph`nodes
      ensures graph.nodes == ReadPairs(input, all, old(count), true, old(graph.nodes), n).0
      ensures After(ReadPairs(input, all, old(count), true, old(graph.nodes), n).1, ok)
    {
      hide Parser.Synced, ReadPair, MetaAdded;
      var first := true;
      var k := PeekToken();
      while k != ParenClose
        invariant Ready() && k == KindAt(all, count)
        invariant ReadPairs(input, all, old(count), true, old(graph.nodes), n) == ReadPairs(input, all, count, first, graph.nodes, n)
        decreases |all| - count
      {
        var m;
        ok, m := TakePair(first);
        if !ok {
          return;
        }
        ok := GainMeta(n, m);
        if !ok {
          return;
        }
        first := false;
        k := PeekToken();
      }
      ok := true;
    }

    /** parse_meta. */
    method ParseMeta(n: nat) returns (ok: bool)
      requires Ready()
      modifies this`current, this`pending, this`count, this`hasError, this`errorPos, scanner, graph`nodes
      ensures graph.nodes == ReadMetas(input, all, old(count), old(graph.nodes), n).0
      ensures After(ReadMetas(input, all, old(count), old(graph.nodes), n).1, ok)
    {
      hide LexAll, Scanner.Valid, Whole, ReadPairs;
      var k := PeekToken();
      if k != Colon {
        return true;
      }
      Skip();
      ok := ParsePairs(n);
    }

    /** parse_node, once the parentheses are open: the component and the rest. */
    method ParseComponent(name: string, pos: Position) returns (ok: bool, n: nat)
      requires Ready() && count >= 2 && pos.line >= 1
      requires name == TextAt(input, all, count - 2) && pos == PosAt(all, count - 2)
      modifies this`current, this`pending, this`count, this`hasError, this`errorPos, scanner, graph`nodes
      ensures graph.nodes == ReadComponent(input, all, old(count) - 2, old(graph.nodes)).0
      ensures After(ReadComponent(input, all, old(count) - 2, old(graph.nodes)).1, ok)
      ensures ok ==> n == ReadComponent(input, all, old(count) - 2, old(graph.nodes)).1.value
    {
      hide Parser.Synced, ReadMetas, Place, Text;
      n := 0;
      ok := Take(Identifier);
      if ok {
        ok, n := PlaceNode(name, Slice(), pos);
        if ok {
          ok := ParseMeta(n);
          if ok {
            ok := Take(ParenClose);
          }
        }
      }
    }

    /** parse_node: a name, and maybe parentheses. */
    method ParseNode() returns (ok: bool, n: nat)
      requires Ready()
      modifies this`current, this`pending, this`count, this`hasError, this`errorPos, scanner, graph`nodes
      ensures graph.nodes == ReadNode(input, all, old(count), old(graph.nodes)).0
      ensures After(ReadNode(input, all, old(count), old(graph.nodes)).1, ok)
      ensures ok ==> n == ReadNode(input, all, old(count), old(graph.nodes)).1.value
    {
      hide Parser.Synced, ReadComponent, Place, Text;
      n := 0;
      ok := Take(Identifier);
      if !ok {
        return;
      }
      LineOf(count - 1);
      var name, pos := Slice(), current.pos;
      var k := PeekToken();
      if k != ParenOpen {
        ok, n := PlaceNode(name, "", pos);
        return;
      }
      Skip();
      k := PeekToken();
      if k != ParenClose {
        ok, n := ParseComponent(name, pos);
        return;
      }
      Skip();
      ok, n := PlaceNode(name, "", pos);
    }

    // -------------------------------------------------------------------------
    // Connections
    // -------------------------------------------------------------------------

    /** The part of a connection up to its arrow. The target is filled in later. */
    method ParseSource(src: nat) returns (ok: bool, c: Conn)
      requires Ready()
      modifies this`current, this`pending, this`count, this`hasError, this`errorPos, scanner, graph`nodes
      ensures graph.nodes == ReadSource(input, all, old(count), old(graph.nodes), src).0
      ensures After(ReadSource(input, all, old(count), old(graph.nodes), src).1, ok)
      ensures ok ==> c == ReadSource(input, all, old(count), old(graph.nodes), src).1.value
    {
      hide Parser.Synced, ReadPort, OutPortAdded;
      c := Conn(src, "", -1, 0, "", -1, current.pos);
      var p;
      ok, p := ParsePort();
      if ok {
        c := Conn(src, p.name, p.idx, 0, "", -1, current.pos);
        var _ := graph.AddOutPort(src, p.name, current.pos);
        ok := Take(Arrow);
      }
    }

    /** A port between an arrow and a node. */
    method ParseTargetPort() returns (ok: bool, p: PortRef)
      requires Ready() && count > 0
      modifies this`current, this`pending, this`count, this`hasError, this`errorPos, scanner
      ensures After(ReadTargetPort(input, all, old(count)), ok)
      ensures ok ==> p == ReadTargetPort(input, all, old(count)).value && current == all[count - 1]
    {
      hide Parser.Synced, ReadPort;
      p := PortRef("", -1);
      var k := PeekToken();
      if k != Identifier {
        FailHere();
        return false, p;
      }
      ok, p := ParsePort();
      if ok {
        k := PeekToken();
        if k != Identifier {
          FailHere();
          ok := false;
        }
      }
    }

    /** The part of a connection after its arrow. */
    method ParseTarget(c: Conn) returns (ok: bool, d: Conn)
      requires Ready() && count > 0
      modifies this`current, this`pending, this`count, this`hasError, this`errorPos, scanner, graph`nodes
      ensures graph.nodes == ReadTarget(input, all, old(count), old(graph.nodes), c).0
      ensures After(ReadTarget(input, all, old(count), old(graph.nodes), c).1, ok)
      ensures ok ==> d == ReadTarget(input, all, old(count), old(graph.nodes), c).1.value
    {
      hide Parser.Synced, ReadTargetPort, ReadNode, InPortAdded;
      d := c;
      var p, dst;
      ok, p := ParseTargetPort();
      if ok {
        var inPos := current.pos;
        ok, dst := ParseNode();
        if ok {
          var _ := graph.AddInPort(dst, p.name, inPos);
          d := c.(dst := dst, dstPort := p.name, dstIdx := p.idx);
        }
      }
    }

    /** One round of the loop of parse_conn_stmt. The indexes always fit an int. */
    method ParseConn(src: nat) returns (ok: bool, dst: nat)
      requires Ready()
      modifies this`current, this`pending, this`count, this`hasError, this`errorPos, scanner, graph
      ensures graph.Data() == ReadConn(input, all, old(count), old(graph.Data()), src).0
      ensures After(ReadConn(input, all, old(count), old(graph.Data()), src).1, ok)
      ensures ok ==> dst == ReadConn(input, all, old(count), old(graph.Data()), src).1.value
    {
      hide Parser.Synced, ReadSource, ReadTarget, ConnAdded;
      dst := 0;
      var c;
      ok, c := ParseSource(src);
      if ok {
        assert c.pos.line >= 1 by { PositionsCount(c.pos); }
        ok, c := ParseTarget(c);
        if ok {
          dst := c.dst;
          var r := graph.AddConn(c);
          ok := r.Index?;
          if !ok {
            FailAt(c.pos);
          }
        }
      }
    }

    /** parse_conn_stmt: a node, and any number of connections that go on from it. */
    method ParseConnections() returns (ok: bool)
      requires Ready()
      modifies this`current, this`pending, this`count, this`hasError, this`errorPos, scanner, graph
      ensures graph.Data() == ReadConnections(input, all, old(count), old(graph.Data())).0
      ensures After(ReadConnections(input, all, old(count), old(graph.Data())).1, ok)
    {
      hide Parser.Synced, ReadNode, ReadConn;
      var src: nat;
      ok, src := ParseNode();
      if !ok {
        return;
      }
      var t := PeekToken();
      if t != Identifier && t != StmtSeparator && t != Eof {
        FailHere();
        return false;
      }
      while t == Identifier
        invariant Ready() && t == KindAt(all, count)
        invariant ReadConnections(input, all, old(count), old(graph.Data())) == ReadChain(input, all, count, graph.Data(), src)
        decreases |all| - count
      {
        ok, src := ParseConn(src);
        if !ok {
          return;
        }
        t := PeekToken();
      }
    }

    // -------------------------------------------------------------------------
    // The other statements, and the whole text
    // -------------------------------------------------------------------------

    /** parse_inport_stmt. The index always fits an int, so the test for that never fails. */
    method ParseInport() returns (ok: bool)
      requires Ready() && all[count].kind == InportKeyword
      modifies this`current, this`pending, this`count, this`hasError, this`errorPos, scanner, graph
      ensures graph.Data() == ReadInport(input, all, old(count), old(graph.Data())).0
      ensures After(ReadInport(input, all, old(count), old(graph.Data())).1, ok)
    {
      hide Parser.Synced, ReadExported, Place, InPortAdded, ExportAdded;
      var node, e, n;
      Skip();
      ok, node, e := ParseExportedPort();
      if !ok {
        return;
      }
      LineOf(count - 1);
      ok, n := PlaceNode(node, "", current.pos);
      if !ok {
        return;
      }
      var _ := graph.AddInPort(n, e.port, current.pos);
      var r := graph.AddExportedIn(e.(node := n));
      if r == Eexist || r == Eaddrinuse {
        FailHere();
        ok := false;
      }
    }

    /** parse_outport_stmt. */
    method ParseOutport() returns (ok: bool)
      requires Ready() && all[count].kind == OutportKeyword
      modifies this`current, this`pending, this`count, this`hasError, this`errorPos, scanner, graph
      ensures graph.Data() == ReadOutport(input, all, old(count), old(graph.Data())).0
      ensures After(ReadOutport(input, all, old(count), old(graph.Data())).1, ok)
    {
      hide Parser.Synced, ReadExported, Place, OutPortAdded, ExportAdded;
      var node, e, n;
      Skip();
      ok, node, e := ParseExportedPort();
      if !ok {
        return;
      }
      LineOf(count - 1);
      ok, n := PlaceNode(node, "", current.pos);
      if !ok {
        return;
      }
      var _ := graph.AddOutPort(n, e.port, current.pos);
      var r := graph.AddExportedOut(e.(node := n));
      if r == Eexist || r == Eaddrinuse {
        FailHere();
        ok := false;
      }
    }

    /** "=name:metatype:contents". */
    method TakeDeclaration() returns (ok: bool, d: Declaration)
      requires Ready()
      modifies this`current, this`pending, this`count, this`hasError, this`errorPos, scanner
      ensures After(ReadDeclaration(input, all, old(count)), ok)
      ensures ok ==> d == ReadDeclaration(input, all, old(count)).value
    {
      hide Parser.Synced, ReadName;
      d := Declaration("", "", "", current.pos);
      var name, metatype, contents;
      ok, name := TakeName(Equal);
      if ok {
        d := d.(pos := current.pos);
        ok, metatype := TakeName(Colon);
        if ok {
          ok, contents := TakeName(Colon);
          d := Declaration(name, metatype, contents, d.pos);
        }
      }
    }

    /** parse_declare_stmt. */
    method ParseDeclare() returns (ok: bool)
      requires Ready() && all[count].kind == DeclareKeyword
      modifies this`current, this`pending, this`count, this`hasError, this`errorPos, scanner, graph
      ensures graph.Data() == ReadDeclare(input, all, old(count), old(graph.Data())).0
      ensures After(ReadDeclare(input, all, old(count), old(graph.Data())).1, ok)
    {
      hide Parser.Synced, ReadDeclaration, DeclarationAdded;
      var d;
      Skip();
      ok, d := TakeDeclaration();
      if ok {
        assert d.pos.line >= 1 by { PositionsCount(d.pos); }
        var r := graph.Declare(d);
        if r == Eexist || r == Einval {
          FailAt(d.pos);
          ok := false;
        }
      }
    }

    /** "=node.option:name", and the position of the node's name. */
    method TakeOption() returns (ok: bool, node: string, o: NodeOption)
      requires Ready()
      modifies this`current, this`pending, this`count, this`hasError, this`errorPos, scanner
      ensures After(ReadNodeOption(input, all, old(count)), ok)
      ensures ok ==> Named(node, o) == ReadNodeOption(input, all, old(count)).value
    {
      hide Parser.Synced, ReadName;
      o := NodeOption("", "", 0, current.pos);
      var option, name;
      ok, node := TakeName(Equal);
      if ok {
        o := o.(pos := current.pos);
        ok, option := TakeName(Dot);
        if ok {
          ok, name := TakeName(Colon);
          o := NodeOption(name, option, 0, o.pos);
        }
      }
    }

    /** parse_option_stmt. */
    method ParseOption() returns (ok: bool)
      requires Ready() && all[count].kind == OptionKeyword
      modifies this`current, this`pending, this`count, this`hasError, this`errorPos, scanner, graph
      ensures graph.Data() == ReadOption(input, all, old(count), old(graph.Data())).0
      ensures After(ReadOption(input, all, old(count), old(graph.Data())).1, ok)
    {
      hide Parser.Synced, ReadNodeOption, Place, OptionAdded;
      var node, o, n;
      Skip();
      ok, node, o := TakeOption();
      if ok {
        assert o.pos.line >= 1 by { PositionsCount(o.pos); }
        ok, n := PlaceNode(node, "", o.pos);
        if ok {
          var r := graph.AddOption(o.(node := n));
          if !r.Index? {
            FailAt(o.pos);
            ok := false;
          }
        }
      }
    }

    /** parse_stmt: false at the end of the text and after an error. */
    method ParseStmt() returns (more: bool)
      requires Ready()
      modifies this`current, this`pending, this`count, this`hasError, this`errorPos, scanner, graph
      ensures if old(all[count].kind) == Eof then
          !more && Ready() && count == old(count) && graph.Data() == old(graph.Data())
        else
          && graph.Data() == ReadStmt(input, all, old(count), old(graph.Data())).0
          && After(ReadStmt(input, all, old(count), old(graph.Data())).1, more)
    {
      hide Parser.Synced, ReadInport, ReadOutport, ReadDeclare, ReadOption, ReadConnections;
      var k := PeekToken();
      more := false;
      if k == InportKeyword {
        more := ParseInport();
      } else if k == OutportKeyword {
        more := ParseOutport();
      } else if k == DeclareKeyword {
        more := ParseDeclare();
      } else if k == OptionKeyword {
        more := ParseOption();
      } else if k == Identifier {
        more := ParseConnections();
      } else if k == StmtSeparator {
        Skip();
        more := true;
      } else if k != Eof {
        k := NextToken();
        FailHere();
      }
    }

    /**
     parse_stmt_list. A statement that ends the list without an error ends it at the end of
     the text, so there is never anything left over after the statements.
     */
    method ParseStmtList()
      requires Ready()
      modifies this`current, this`pending, this`count, this`hasError, this`errorPos, scanner, graph
      ensures graph.Data() == ReadAll(input, all, old(count), old(graph.Data())).0
      ensures After(ReadAll(input, all, old(count), old(graph.Data())).1, !hasError)
    {
      hide Parser.Synced, ReadStmt;
      ghost var goal := ReadAll(input, all, count, graph.Data());
      var more := true;
      while more
        invariant if more then Ready() && goal == ReadAll(input, all, count, graph.Data())
          else graph.Data() == goal.0 && After(goal.1, !hasError) && (!hasError ==> KindAt(all, count) == Eof)
        decreases more, |all| - count
      {
        more := ParseStmt();
      }
      if !hasError {
        var k := PeekToken();
        assert k == Eof;
      }
    }

    /** verify_graph: every node has a type, or else the first without one is reported. */
    method VerifyGraph() returns (ok: bool)
      requires !hasError && forall i :: 0 <= i < |graph.nodes| ==> graph.nodes[i].pos.line >= 1
      modifies this`hasError, this`errorPos
      ensures ok == !hasError == (FindUntyped(graph.nodes) == |graph.nodes|)
      ensures !ok ==> errorPos == graph.nodes[FindUntyped(graph.nodes)].pos
    {
      var i := 0;
      while i < |graph.nodes|
        invariant i <= |graph.nodes|
        invariant forall j :: 0 <= j < i ==> graph.nodes[j].component != ""
      {
        if graph.nodes[i].component == "" {
          FailAt(graph.nodes[i].pos);
          return false;
        }
        i := i + 1;
      }
      return true;
    }
  }

  /**
   sol_fbp_parse, on a new graph: the verdict and the graph are those of the reference
   reader. So the graph is in order whatever the text is, and that of an accepted text has
   an entry or a node for each token that calls for one, made of the texts around it.
   */
  method Parse(input: string) returns (v: Verdict, g: GraphData)
    ensures (g, v) == Interpret(input)
    ensures GraphOk(g) && NamesOk(input, g.nodes, |input|)
    ensures v.Rejected? ==> PosOk(input, v.pos)
    ensures var ts := LexAll(input, DefaultState, 0);
      v.Accepted? ==>
        && TokensOk(input, ts) && ts != [] && ts[|ts| - 1].kind == Eof && AtEnd(input, ts[|ts| - 1].end)
        && Means(input, ts, |ts|, g) && forall n :: 0 <= n < |g.nodes| ==> g.nodes[n].component != ""
  {
    hide LexAll, Parser.Synced, ReadAll, GraphOk, NamesOk, PosOk, Means, TokensOk, AtEnd;
    var scanner := new Scanner(input);
    var graph := new Graph();
    var p := new Parser(input, scanner, graph);
    p.ParseStmtList();
    var ok := false;
    GraphIsFit(input);
    if !p.hasError {
      PositionsCount(input, graph.nodes);
      ok := p.VerifyGraph();
    }
    g := graph.Data();
    v := if ok then Accepted else Rejected(p.errorPos);
    if ok {
      InterpretMeans(input);
    }
  }

  lemma PositionsCount(input: string, ns: seq<Node>)
    requires NamesOk(input, ns, |input|)
    ensures forall i :: 0 <= i < |ns| ==> ns[i].pos.line >= 1
  {
    forall i | 0 <= i < |ns|
      ensures ns[i].pos.line >= 1
    {
      assert PosOk(input, ns[i].pos);
    }
  }
}
