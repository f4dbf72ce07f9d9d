/**
 What the graph of an FBP text has to do with the text: one entry for every arrow, export,
 declaration and option, made of the texts of the tokens around it, and for every node the
 component and the metadata that stand in parentheses after its name.
 */
module FbpMeaning {
  import opened FbpTokens
  import opened FbpGraph
  import opened FbpReader
  import opened FbpSafety

  // ---------------------------------------------------------------------------
  // Tokens that call for something
  // ---------------------------------------------------------------------------

  predicate Is(ts: seq<Token>, i: nat, k: TokenType) {
    KindAt(ts, i) == k
  }

  predicate Marking(k: TokenType) {
    k == Arrow || k == InportKeyword || k == OutportKeyword || k == DeclareKeyword || k == OptionKeyword || k == ParenOpen
  }

  /** The tokens that call for one entry each. */
  datatype Marks = Marks(arrows: seq<nat>, inports: seq<nat>, outports: seq<nat>, declares: seq<nat>, options: seq<nat>)

  /** The token numbered `n` is of kind `k`. */
  function Marked(m: Marks, k: TokenType, n: nat): Marks {
    if k == Arrow then m.(arrows := m.arrows + [n])
    else if k == InportKeyword then m.(inports := m.inports + [n])
    else if k == OutportKeyword then m.(outports := m.outports + [n])
    else if k == DeclareKeyword then m.(declares := m.declares + [n])
    else if k == OptionKeyword then m.(options := m.options + [n])
    else m
  }

  /** Those before token `i`. */
  function MarksOf(ts: seq<Token>, i: nat): Marks {
    if i == 0 then Marks([], [], [], [], []) else Marked(MarksOf(ts, i - 1), KindAt(ts, i - 1), i - 1)
  }

  /** Where the tokens of a kind are among the first `i`, from first to last. */
  function Positions(ts: seq<Token>, i: nat, k: TokenType): seq<nat> {
    if i == 0 then [] else Positions(ts, i - 1, k) + if Is(ts, i - 1, k) then [i - 1] else []
  }

  /** None is left out, and none is twice there. */
  lemma {:induction false} PositionsExact(ts: seq<Token>, i: nat, k: TokenType)
    ensures var r := Positions(ts, i, k);
      && (forall n: nat :: n in r <==> n < i && Is(ts, n, k))
      && (forall n, m :: 0 <= n < m < |r| ==> r[n] < r[m])
  {
    if i > 0 {
      PositionsExact(ts, i - 1, k);
      var q, r := Positions(ts, i - 1, k), Positions(ts, i, k);
      assert forall n :: 0 <= n < |q| ==> q[n] in q;
      assert forall n: nat :: n in r <==> n in q || (n == i - 1 && Is(ts, n, k));
    }
  }

  lemma {:induction false} MarksArePositions(ts: seq<Token>, i: nat)
    ensures MarksOf(ts, i) == Marks(Positions(ts, i, Arrow), Positions(ts, i, InportKeyword), Positions(ts, i, OutportKeyword),
                                    Positions(ts, i, DeclareKeyword), Positions(ts, i, OptionKeyword))
  {
    if i > 0 {
      MarksArePositions(ts, i - 1);
    }
  }

  /** None of the tokens from `i` to `j` calls for anything. */
  predicate Quiet(ts: seq<Token>, i: nat, j: nat) {
    i <= j && forall k :: i <= k < j ==> !Marking(KindAt(ts, k))
  }

  lemma QuietJoin(ts: seq<Token>, i: nat, j: nat, k: nat)
    requires Quiet(ts, i, j) && Quiet(ts, j, k)
    ensures Quiet(ts, i, k)
  {
  }

  lemma {:induction false} QuietMarks(ts: seq<Token>, i: nat, j: nat)
    requires Quiet(ts, i, j)
    ensures MarksOf(ts, j) == MarksOf(ts, i)
  {
    if i < j {
      QuietMarks(ts, i, j - 1);
    }
  }

  /** Where the last opening parenthesis before token `e` is. */
  function LastOpen(ts: seq<Token>, e: nat): int {
    if e == 0 then -1 else if Is(ts, e - 1, ParenOpen) then e - 1 else LastOpen(ts, e - 1)
  }

  lemma {:induction false} QuietOpen(ts: seq<Token>, i: nat, j: nat)
    requires Quiet(ts, i, j)
    ensures LastOpen(ts, j) == LastOpen(ts, i)
  {
    if i < j {
      QuietOpen(ts, i, j - 1);
    }
  }

  // ---------------------------------------------------------------------------
  // Entries
  // ---------------------------------------------------------------------------

  /** How many tokens the index that may stand at `i` takes. */
  function IndexLength(ts: seq<Token>, i: nat): nat {
    if Is(ts, i, BracketOpen) then 3 else 0
  }

  /** The index that may stand at `i`. */
  predicate IndexAt(input: string, ts: seq<Token>, i: nat, idx: int) {
    if IndexLength(ts, i) == 0 then idx == -1
    else Is(ts, i + 1, Integer) && Is(ts, i + 2, BracketClose) && idx == PortIndex(TextAt(input, ts, i + 1))
  }

  /** "=node.member", from token `i` on. */
  predicate MemberText(input: string, ts: seq<Token>, i: nat, node: string, member: string) {
    && Is(ts, i, Equal) && Is(ts, i + 1, Identifier) && Is(ts, i + 2, Dot) && Is(ts, i + 3, Identifier)
    && node == TextAt(input, ts, i + 1) && member == TextAt(input, ts, i + 3)
  }

  /** DECLARE=name:metatype:contents. */
  predicate DeclaredAt(input: string, ts: seq<Token>, i: nat, d: Declaration) {
    && Is(ts, i, DeclareKeyword) && Is(ts, i + 1, Equal) && Is(ts, i + 2, Identifier) && Is(ts, i + 3, Colon)
    && Is(ts, i + 4, Identifier) && Is(ts, i + 5, Colon) && Is(ts, i + 6, Identifier)
    && d == Declaration(TextAt(input, ts, i + 2), TextAt(input, ts, i + 4), TextAt(input, ts, i + 6), PosAt(ts, i + 2))
  }

  /** OPTION=node.option:name. */
  predicate OptionAt(input: string, ts: seq<Token>, i: nat, ns: seq<Node>, o: NodeOption) {
    && o.node < |ns| && Is(ts, i, OptionKeyword) && MemberText(input, ts, i + 1, ns[o.node].name, o.option)
    && Is(ts, i + 5, Colon) && Is(ts, i + 6, Identifier) && o.name == TextAt(input, ts, i + 6) && o.pos == PosAt(ts, i + 2)
  }

  /** "=node.port:name" and "=node.port[3]:name", from token `i` on. */
  predicate ExportText(input: string, ts: seq<Token>, i: nat, node: string, e: Exported) {
    var last := i + 5 + IndexLength(ts, i + 4);
    && MemberText(input, ts, i, node, e.port) && IndexAt(input, ts, i + 4, e.idx)
    && Is(ts, last - 1, Colon) && Is(ts, last, Identifier) && e.name == TextAt(input, ts, last) && e.pos == PosAt(ts, last)
  }

  /** INPORT or OUTPORT with what follows. */
  predicate ExportAt(input: string, ts: seq<Token>, i: nat, keyword: TokenType, ns: seq<Node>, e: Exported) {
    Is(ts, i, keyword) && e.node < |ns| && ExportText(input, ts, i + 1, ns[e.node].name, e)
  }

  /** The name that the node of token `j` is stored under. */
  function NameAt(input: string, ts: seq<Token>, j: nat): string {
    StoredName(TextAt(input, ts, j), PosAt(ts, j))
  }

  /** The node that token `j` names. */
  predicate Names(input: string, ts: seq<Token>, j: nat, ns: seq<Node>, n: nat) {
    n < |ns| && ns[n].name == NameAt(input, ts, j)
  }

  /** How many tokens the index that may end before `i` takes. */
  function IndexBefore(ts: seq<Token>, i: nat): nat {
    if i > 0 && Is(ts, i - 1, BracketClose) then 3 else 0
  }

  /** The node whose tokens, "node", "node()" or "node(component:key=value,...)", end at `e`. */
  predicate NodeBefore(input: string, ts: seq<Token>, e: nat, ns: seq<Node>, n: nat) {
    var j := if Is(ts, e, ParenClose) then LastOpen(ts, e) - 1 else e;
    j >= 0 && Is(ts, j, Identifier) && Names(input, ts, j, ns, n)
  }

  /** The port whose tokens end before `i`. */
  predicate PortBefore(input: string, ts: seq<Token>, i: nat, name: string, idx: int) {
    var n := IndexBefore(ts, i);
    && n + 1 <= i && Is(ts, i - n - 1, Identifier) && name == TextAt(input, ts, i - n - 1)
    && (if n == 0 then idx == -1 else IndexLength(ts, i - n) == n && IndexAt(input, ts, i - n, idx))
  }

  /** The port whose tokens start at `i`. */
  predicate PortAfter(input: string, ts: seq<Token>, i: nat, name: string, idx: int) {
    Is(ts, i, Identifier) && name == TextAt(input, ts, i) && IndexAt(input, ts, i + 1, idx)
  }

  /** The port before the arrow at `i`, and the node before that. */
  predicate SourceAt(input: string, ts: seq<Token>, i: nat, ns: seq<Node>, c: Conn) {
    && i >= IndexBefore(ts, i) + 2 && PortBefore(input, ts, i, c.srcPort, c.srcIdx) && c.pos == PosAt(ts, i - 1)
    && NodeBefore(input, ts, i - IndexBefore(ts, i) - 2, ns, c.src)
  }

  /** The port after the arrow at `i`, and the node after that. */
  predicate TargetAt(input: string, ts: seq<Token>, i: nat, ns: seq<Node>, c: Conn) {
    var j := i + 2 + IndexLength(ts, i + 2);
    && PortAfter(input, ts, i + 1, c.dstPort, c.dstIdx)
    && Is(ts, j, Identifier) && Names(input, ts, j, ns, c.dst)
  }

  predicate ConnAt(input: string, ts: seq<Token>, i: nat, ns: seq<Node>, c: Conn) {
    Is(ts, i, Arrow) && SourceAt(input, ts, i, ns, c) && TargetAt(input, ts, i, ns, c)
  }

  ghost predicate ConnsMean(input: string, ts: seq<Token>, m: seq<nat>, ns: seq<Node>, cs: seq<Conn>) {
    |cs| == |m| && forall k :: 0 <= k < |cs| ==> ConnAt(input, ts, m[k], ns, cs[k])
  }

  ghost predicate ExportsMean(input: string, ts: seq<Token>, m: seq<nat>, keyword: TokenType, ns: seq<Node>, es: seq<Exported>) {
    |es| == |m| && forall k :: 0 <= k < |es| ==> ExportAt(input, ts, m[k], keyword, ns, es[k])
  }

  ghost predicate DeclarationsMean(input: string, ts: seq<Token>, m: seq<nat>, ds: seq<Declaration>) {
    |ds| == |m| && forall k :: 0 <= k < |ds| ==> DeclaredAt(input, ts, m[k], ds[k])
  }

  ghost predicate OptionsMean(input: string, ts: seq<Token>, m: seq<nat>, ns: seq<Node>, os: seq<NodeOption>) {
    |os| == |m| && forall k :: 0 <= k < |os| ==> OptionAt(input, ts, m[k], ns, os[k])
  }

  /** Entry by entry, in the order of the text. */
  ghost predicate EntriesMean(input: string, ts: seq<Token>, m: Marks, g: GraphData) {
    && ConnsMean(input, ts, m.arrows, g.nodes, g.conns)
    && ExportsMean(input, ts, m.inports, InportKeyword, g.nodes, g.exportedIn)
    && ExportsMean(input, ts, m.outports, OutportKeyword, g.nodes, g.exportedOut)
    && DeclarationsMean(input, ts, m.declares, g.declarations)
    && OptionsMean(input, ts, m.options, g.nodes, g.options)
  }

  // ---------------------------------------------------------------------------
  // Nodes
  // ---------------------------------------------------------------------------

  /** "key=value,...", from token `i` on, up to where a pair is not followed by a comma. */
  function PairsFrom(input: string, ts: seq<Token>, i: nat): seq<Meta>
    decreases |ts| - i
  {
    if !Is(ts, i, Identifier) then []
    else
      var valued := Is(ts, i + 1, Equal);
      var m := Meta(TextAt(input, ts, i), if valued then TextAt(input, ts, i + 2) else "", PosAt(ts, i));
      var e := if valued then i + 3 else i + 1;
      [m] + if Is(ts, e, Comma) then PairsFrom(input, ts, e + 1) else []
  }

  /** The pairs within the parenthesis that opens at token `p`. */
  function PairsAt(input: string, ts: seq<Token>, p: nat): seq<Meta> {
    if Is(ts, p + 1, Identifier) && Is(ts, p + 2, Colon) then PairsFrom(input, ts, p + 3) else []
  }

  /** Whether the parenthesis at `p` stands after this name. */
  predicate OpensFor(input: string, ts: seq<Token>, p: nat, name: string) {
    p > 0 && Is(ts, p, ParenOpen) && Is(ts, p - 1, Identifier) && NameAt(input, ts, p - 1) == name
  }

  /** All pairs that stand after a name, in the parentheses that open before token `i`. */
  function MetaOf(input: string, ts: seq<Token>, i: nat, name: string): seq<Meta> {
    if i == 0 then []
    else MetaOf(input, ts, i - 1, name) + if OpensFor(input, ts, i - 1, name) then PairsAt(input, ts, i - 1) else []
  }

  /** The node has all of its metadata. */
  predicate Gathered(input: string, ts: seq<Token>, i: nat, n: Node) {
    n.meta == MetaOf(input, ts, i, n.name)
  }

  /** The node is the one with the component in the parenthesis that opens at `p`, if there is one in it. */
  predicate TypedBy(input: string, ts: seq<Token>, p: nat, n: Node) {
    OpensFor(input, ts, p, n.name) && (Is(ts, p + 1, Identifier) && TextAt(input, ts, p + 1) != "" ==> n.component == TextAt(input, ts, p + 1))
  }

  /** Every parenthesis that opens before token `i` belongs to a node. */
  ghost predicate Opened(input: string, ts: seq<Token>, i: nat, ns: seq<Node>) {
    forall p :: 0 <= p < i && Is(ts, p, ParenOpen) ==> exists n :: 0 <= n < |ns| && TypedBy(input, ts, p, ns[n])
  }

  /** A node's component stands in parentheses after its name. */
  ghost predicate Typed(input: string, ts: seq<Token>, i: nat, n: Node) {
    n.component == "" || exists p ::
      0 <= p < i && OpensFor(input, ts, p, n.name) && Is(ts, p + 1, Identifier) && n.component == TextAt(input, ts, p + 1)
  }

  ghost predicate NodesMean(input: string, ts: seq<Token>, i: nat, ns: seq<Node>) {
    && (forall n :: 0 <= n < |ns| ==> Gathered(input, ts, i, ns[n]) && Typed(input, ts, i, ns[n]))
    && Opened(input, ts, i, ns)
  }

  /** The graph is what the tokens before `i` say. */
  ghost predicate Means(input: string, ts: seq<Token>, i: nat, g: GraphData) {
    EntriesMean(input, ts, MarksOf(ts, i), g) && NodesMean(input, ts, i, g.nodes)
  }

  /** No metadata without a node. */
  lemma {:induction false} MetaNeedsNode(input: string, ts: seq<Token>, i: nat, ns: seq<Node>, name: string)
    requires Opened(input, ts, i, ns) && !HasNode(ns, name)
    ensures MetaOf(input, ts, i, name) == []
  {
    hide PairsAt, NameAt;
    if i > 0 {
      MetaNeedsNode(input, ts, i - 1, ns, name);
      assert !OpensFor(input, ts, i - 1, name);
    }
  }

  lemma {:induction false} QuietMeta(input: string, ts: seq<Token>, i: nat, j: nat, name: string)
    requires Quiet(ts, i, j)
    ensures MetaOf(input, ts, j, name) == MetaOf(input, ts, i, name)
  {
    hide PairsAt, NameAt;
    if i < j {
      QuietMeta(input, ts, i, j - 1, name);
    }
  }

  lemma NodesQuiet(input: string, ts: seq<Token>, i: nat, j: nat, ns: seq<Node>)
    requires NodesMean(input, ts, i, ns) && Quiet(ts, i, j)
    ensures NodesMean(input, ts, j, ns)
  {
    hide MetaOf, OpensFor, TypedBy;
    forall n | 0 <= n < |ns|
      ensures Gathered(input, ts, j, ns[n]) && Typed(input, ts, j, ns[n])
    {
      QuietMeta(input, ts, i, j, ns[n].name);
      assert Gathered(input, ts, i, ns[n]) && Typed(input, ts, i, ns[n]);
    }
    assert forall p :: i <= p < j ==> !Marking(KindAt(ts, p));
  }

  /** Ports do not matter. */
  lemma NodesSame(input: string, ts: seq<Token>, i: nat, ns: seq<Node>, ms: seq<Node>)
    requires NodesMean(input, ts, i, ns) && |ms| == |ns|
    requires forall n :: 0 <= n < |ns| ==> ms[n] == ns[n].(inPorts := ms[n].inPorts, outPorts := ms[n].outPorts)
    ensures NodesMean(input, ts, i, ms)
  {
    hide MetaOf, OpensFor;
    forall n | 0 <= n < |ms|
      ensures Gathered(input, ts, i, ms[n]) && Typed(input, ts, i, ms[n])
    {
      assert Gathered(input, ts, i, ns[n]) && Typed(input, ts, i, ns[n]);
    }
    forall p | 0 <= p < i && Is(ts, p, ParenOpen)
      ensures exists n :: 0 <= n < |ms| && TypedBy(input, ts, p, ms[n])
    {
      var n :| 0 <= n < |ns| && TypedBy(input, ts, p, ns[n]);
      assert TypedBy(input, ts, p, ms[n]);
    }
  }

  /** A node for a name without a component; a new one has no parentheses yet. */
  lemma NodesPlaced(input: string, ts: seq<Token>, i: nat, ns: seq<Node>, ms: seq<Node>, n: nat, name: string, pos: Position)
    requires NodesMean(input, ts, i, ns) && Placed(ns, ms, n, name, "", pos)
    ensures NodesMean(input, ts, i, ms)
  {
    hide MetaOf, OpensFor, Opened, Typed;
    if |ms| == |ns| {
      assert ms == ns;
    } else {
      MetaNeedsNode(input, ts, i, ns, name);
      forall k | 0 <= k < |ms|
        ensures Gathered(input, ts, i, ms[k]) && Typed(input, ts, i, ms[k])
      {
        if k < |ns| {
          assert Gathered(input, ts, i, ns[k]) && Typed(input, ts, i, ns[k]) && ms[k] == ns[k];
        } else {
          NoComponent(input, ts, i, ms[k]);
        }
      }
      OpenedMore(input, ts, i, ns, ms);
    }
  }

  lemma NoComponent(input: string, ts: seq<Token>, i: nat, n: Node)
    requires n.component == ""
    ensures Typed(input, ts, i, n)
  {
  }

  lemma OpenedMore(input: string, ts: seq<Token>, i: nat, ns: seq<Node>, ms: seq<Node>)
    requires Opened(input, ts, i, ns) && |ns| <= |ms| && forall k :: 0 <= k < |ns| ==> ms[k] == ns[k]
    ensures Opened(input, ts, i, ms)
  {
    hide TypedBy;
    forall p | 0 <= p < i && Is(ts, p, ParenOpen)
      ensures exists n :: 0 <= n < |ms| && TypedBy(input, ts, p, ms[n])
    {
      var n :| 0 <= n < |ns| && TypedBy(input, ts, p, ns[n]);
      assert TypedBy(input, ts, p, ms[n]);
    }
  }

  predicate DistinctNames(ns: seq<Node>) {
    forall j, k :: 0 <= j < k < |ns| ==> ns[j].name != ns[k].name
  }

  /** Node `n` is placed for the name at `i` with the component after the parenthesis, and gets the pairs there. */
  ghost predicate Opens(input: string, ts: seq<Token>, i: nat, ns: seq<Node>, ms: seq<Node>, n: nat, component: string) {
    && Is(ts, i, Identifier) && Is(ts, i + 1, ParenOpen)
    && (if Is(ts, i + 2, Identifier) then component == TextAt(input, ts, i + 2) else component == "")
    && Placed(ns, ms, n, NameAt(input, ts, i), component, PosAt(ts, i)) && DistinctNames(ms)
  }

  lemma NodesOpened(input: string, ts: seq<Token>, i: nat, ns: seq<Node>, ms: seq<Node>, n: nat, component: string)
    requires NodesMean(input, ts, i, ns) && Opens(input, ts, i, ns, ms, n, component)
    ensures n < |ms| && NodesMean(input, ts, i + 2, WithMetas(ms, n, PairsAt(input, ts, i + 1)))
  {
    hide MetaOf, OpensFor, PairsAt, Opened, Typed, Opens;
    assert n < |ms| by { OpensIsPlaced(input, ts, i, ns, ms, n, component); }
    var os := WithMetas(ms, n, PairsAt(input, ts, i + 1));
    forall k | 0 <= k < |os|
      ensures Gathered(input, ts, i + 2, os[k]) && Typed(input, ts, i + 2, os[k])
    {
      GatheredOpened(input, ts, i, ns, ms, n, component, k);
      TypedOpened(input, ts, i, ns, ms, n, component, k);
    }
    OpenedOne(input, ts, i, ns, ms, n, component);
  }

  lemma OpensIsPlaced(input: string, ts: seq<Token>, i: nat, ns: seq<Node>, ms: seq<Node>, n: nat, component: string)
    requires Opens(input, ts, i, ns, ms, n, component)
    ensures n < |ms|
  {
  }

  lemma GatheredOpened(input: string, ts: seq<Token>, i: nat, ns: seq<Node>, ms: seq<Node>, n: nat, component: string, k: nat)
    requires NodesMean(input, ts, i, ns) && Opens(input, ts, i, ns, ms, n, component) && k < |ms|
    ensures Gathered(input, ts, i + 2, WithMetas(ms, n, PairsAt(input, ts, i + 1))[k])
  {
    hide PairsAt, Opened, Typed, NameAt;
    var name := ms[k].name;
    MetaOpened(input, ts, i, name);
    assert k != n ==> name != ms[n].name;
    if k < |ns| {
      assert Gathered(input, ts, i, ns[k]);
    } else {
      MetaNeedsNode(input, ts, i, ns, name);
    }
  }

  lemma MetaOpened(input: string, ts: seq<Token>, i: nat, name: string)
    requires Is(ts, i, Identifier) && Is(ts, i + 1, ParenOpen)
    ensures MetaOf(input, ts, i + 2, name) ==
      MetaOf(input, ts, i, name) + if NameAt(input, ts, i) == name then PairsAt(input, ts, i + 1) else []
  {
    hide PairsAt, NameAt;
    assert !OpensFor(input, ts, i, name);
    assert MetaOf(input, ts, i + 1, name) == MetaOf(input, ts, i, name) + [];
  }

  lemma TypedOpened(input: string, ts: seq<Token>, i: nat, ns: seq<Node>, ms: seq<Node>, n: nat, component: string, k: nat)
    requires NodesMean(input, ts, i, ns) && Opens(input, ts, i, ns, ms, n, component) && k < |ms|
    ensures Typed(input, ts, i + 2, WithMetas(ms, n, PairsAt(input, ts, i + 1))[k])
  {
    hide PairsAt, Opened, Gathered, NameAt;
    if k < |ns| && ms[k].component == ns[k].component {
      assert Typed(input, ts, i, ns[k]);
    } else if component != "" {
      assert OpensFor(input, ts, i + 1, ms[k].name);
    }
  }

  lemma OpenedOne(input: string, ts: seq<Token>, i: nat, ns: seq<Node>, ms: seq<Node>, n: nat, component: string)
    requires NodesMean(input, ts, i, ns) && Opens(input, ts, i, ns, ms, n, component) && n < |ms|
    ensures Opened(input, ts, i + 2, WithMetas(ms, n, PairsAt(input, ts, i + 1)))
  {
    hide PairsAt, Gathered, NameAt, Typed, MetaOf;
    var os := WithMetas(ms, n, PairsAt(input, ts, i + 1));
    forall p | 0 <= p < i + 2 && Is(ts, p, ParenOpen)
      ensures exists k :: 0 <= k < |os| && TypedBy(input, ts, p, os[k])
    {
      if p == i + 1 {
        assert TypedBy(input, ts, p, os[n]);
      } else {
        var k :| 0 <= k < |ns| && TypedBy(input, ts, p, ns[k]);
        assert TypedBy(input, ts, p, os[k]);
      }
    }
  }

  // ---------------------------------------------------------------------------
  // Reading nodes
  // ---------------------------------------------------------------------------

  lemma QuietNone(ts: seq<Token>, i: nat)
    ensures Quiet(ts, i, i)
  {
  }

  lemma QuietOne(ts: seq<Token>, i: nat)
    requires !Marking(KindAt(ts, i))
    ensures Quiet(ts, i, i + 1)
  {
  }

  lemma ValueRead(input: string, ts: seq<Token>, i: nat)
    requires i <= |ts| && ReadValue(input, ts, i).Got?
    ensures var r := ReadValue(input, ts, i);
      r == if Is(ts, i, Equal) then Got(TextAt(input, ts, i + 1), i + 2) else Got("", i)
    ensures Quiet(ts, i, ReadValue(input, ts, i).next)
  {
    hide TextAt, PosAt;
  }

  lemma OnePair(input: string, ts: seq<Token>, k: nat)
    requires Is(ts, k, Identifier) && ReadValue(input, ts, k + 1).Got?
    ensures var r := ReadValue(input, ts, k + 1);
      PairsFrom(input, ts, k) ==
        [Meta(TextAt(input, ts, k), r.value, PosAt(ts, k))]
        + if Is(ts, r.next, Comma) then PairsFrom(input, ts, r.next + 1) else []
  {
    hide TextAt, PosAt, ReadValue, Quiet, Sound;
    ValueRead(input, ts, k + 1);
  }

  lemma PairRead(input: string, ts: seq<Token>, i: nat, first: bool)
    requires ReadPair(input, ts, i, first).Got?
    ensures var r := ReadPair(input, ts, i, first); var k := if first then i else i + 1;
      && Quiet(ts, i, r.next) && (!first ==> Is(ts, i, Comma))
      && PairsFrom(input, ts, k) == [r.value] + if Is(ts, r.next, Comma) then PairsFrom(input, ts, r.next + 1) else []
  {
    hide TextAt, PosAt, ReadValue, Quiet, Sound, PairsFrom;
    var k := if first then i else i + 1;
    var r := ReadValue(input, ts, k + 1);
    OnePair(input, ts, k);
    ValueRead(input, ts, k + 1);
    QuietNone(ts, i);
    if !first {
      QuietOne(ts, i);
    }
    QuietOne(ts, k);
    QuietJoin(ts, i, k, k + 1);
    QuietJoin(ts, i, k + 1, r.next);
  }

  /** The pairs that are read are those that stand there. */
  lemma {:induction false} PairsRead(input: string, ts: seq<Token>, i: nat, first: bool, ns: seq<Node>, n: nat)
    requires i <= |ts| && n < |ns| && ReadPairs(input, ts, i, first, ns, n).1.Got?
    ensures var (ms, r) := ReadPairs(input, ts, i, first, ns, n);
      && Quiet(ts, i, r.next) && Is(ts, r.next, ParenClose)
      && ms == WithMetas(ns, n, if first then PairsFrom(input, ts, i)
                                else if Is(ts, i, Comma) then PairsFrom(input, ts, i + 1) else [])
    decreases |ts| - i
  {
    hide ReadPair, PairsFrom, WithMetas, Quiet, HasKey;
    if Is(ts, i, ParenClose) {
      QuietNone(ts, i);
      NoPairs(input, ts, i);
      WithNoMetas(ns, n);
    } else {
      var r := ReadPair(input, ts, i, first);
      var (ms, o) := MetaAdded(ns, n, r.value);
      PairRead(input, ts, i, first);
      PairsRead(input, ts, r.next, false, ms, n);
      QuietJoin(ts, i, r.next, ReadPairs(input, ts, r.next, false, ms, n).1.next);
      WithMoreMetas(ns, n, [r.value], if Is(ts, r.next, Comma) then PairsFrom(input, ts, r.next + 1) else []);
    }
  }

  lemma NoPairs(input: string, ts: seq<Token>, i: nat)
    requires !Is(ts, i, Identifier)
    ensures PairsFrom(input, ts, i) == []
  {
  }

  lemma WithNoMetas(ns: seq<Node>, n: nat)
    requires n < |ns|
    ensures WithMetas(ns, n, []) == ns
  {
    assert ns[n].meta + [] == ns[n].meta;
  }

  lemma WithMoreMetas(ns: seq<Node>, n: nat, a: seq<Meta>, b: seq<Meta>)
    requires n < |ns|
    ensures WithMetas(WithMetas(ns, n, a), n, b) == WithMetas(ns, n, a + b)
  {
    assert (ns[n].meta + a) + b == ns[n].meta + (a + b);
  }

  /** What reading a node leaves: the nodes are what the tokens say, and `n` is the one that is named. */
  ghost predicate NodeRead(input: string, ts: seq<Token>, i: nat, ms: seq<Node>, n: nat, next: nat) {
    && i < next && NodesMean(input, ts, next, ms) && MarksOf(ts, next) == MarksOf(ts, i)
    && Is(ts, i, Identifier) && Names(input, ts, i, ms, n) && NodeBefore(input, ts, next - 1, ms, n)
  }

  lemma NodeMeans(input: string, ts: seq<Token>, i: nat, g: GraphData)
    requires Lexical(input, ts) && i < |ts| && Fit(input, g, EndBefore(ts, i)) && !AfterColon(ts, i)
    requires NodesMean(input, ts, i, g.nodes) && ReadNode(input, ts, i, g.nodes).1.Got?
    ensures var (ms, p) := ReadNode(input, ts, i, g.nodes); NodeRead(input, ts, i, ms, p.value, p.next)
  {
    hide Lexical, Fit, NodesMean, Place, ReadComponent, Placed, NameAt;
    if Is(ts, i + 1, ParenOpen) {
      if Is(ts, i + 2, ParenClose) {
        EmptyMeans(input, ts, i, g);
      } else {
        ComponentMeans(input, ts, i, g);
      }
    } else {
      BareMeans(input, ts, i, g);
    }
  }

  /** A name on its own. */
  lemma BareMeans(input: string, ts: seq<Token>, i: nat, g: GraphData)
    requires Lexical(input, ts) && i < |ts| && Fit(input, g, EndBefore(ts, i)) && !AfterColon(ts, i) && Is(ts, i, Identifier)
    requires NodesMean(input, ts, i, g.nodes) && Place(g.nodes, TextAt(input, ts, i), "", PosAt(ts, i), i + 1).1.Got?
    ensures var (ms, p) := Place(g.nodes, TextAt(input, ts, i), "", PosAt(ts, i), i + 1); NodeRead(input, ts, i, ms, p.value, i + 1)
  {
    hide Lexical, Fit, NodesMean, Place, AnonName;
    var (ms, p) := Place(g.nodes, TextAt(input, ts, i), "", PosAt(ts, i), i + 1);
    PlaceAtFits(input, ts, i, g, "", i + 1);
    NodesPlaced(input, ts, i, g.nodes, ms, p.value, NameAt(input, ts, i), PosAt(ts, i));
    QuietOne(ts, i);
    NodesQuiet(input, ts, i, i + 1, ms);
    QuietMarks(ts, i, i + 1);
  }

  /** A name with empty parentheses. */
  lemma EmptyMeans(input: string, ts: seq<Token>, i: nat, g: GraphData)
    requires Lexical(input, ts) && i < |ts| && Fit(input, g, EndBefore(ts, i)) && !AfterColon(ts, i) && Is(ts, i, Identifier)
    requires Is(ts, i + 1, ParenOpen) && Is(ts, i + 2, ParenClose)
    requires NodesMean(input, ts, i, g.nodes) && Place(g.nodes, TextAt(input, ts, i), "", PosAt(ts, i), i + 3).1.Got?
    ensures var (ms, p) := Place(g.nodes, TextAt(input, ts, i), "", PosAt(ts, i), i + 3); NodeRead(input, ts, i, ms, p.value, i + 3)
  {
    hide Lexical, Fit, NodesMean, Place, AnonName, Placed;
    var (ms, p) := Place(g.nodes, TextAt(input, ts, i), "", PosAt(ts, i), i + 3);
    PlaceAtFits(input, ts, i, g, "", i + 3);
    FitDistinct(input, g.(nodes := ms), EndBefore(ts, i + 1));
    NodesOpened(input, ts, i, g.nodes, ms, p.value, "");
    WithNoMetas(ms, p.value);
    ParenthesesRead(input, ts, i, ms, p.value, "", i + 3, g.nodes);
  }

  lemma FitDistinct(input: string, g: GraphData, b: nat)
    requires Fit(input, g, b)
    ensures DistinctNames(g.nodes)
  {
    hide NodeOk;
  }

  /** Parentheses that close before `next`, around nothing that calls for an entry. */
  lemma ParenthesesRead(input: string, ts: seq<Token>, i: nat, ms: seq<Node>, n: nat, component: string, next: nat, ns: seq<Node>)
    requires Opens(input, ts, i, ns, ms, n, component) && i + 3 <= next && Quiet(ts, i + 2, next) && Is(ts, next - 1, ParenClose)
    requires n < |ms| && NodesMean(input, ts, i + 2, WithMetas(ms, n, PairsAt(input, ts, i + 1)))
    ensures NodeRead(input, ts, i, WithMetas(ms, n, PairsAt(input, ts, i + 1)), n, next)
  {
    hide NodesMean, PairsAt, NameAt, DistinctNames, MarksOf, LastOpen, Quiet, NodeBefore, TextAt;
    var os := WithMetas(ms, n, PairsAt(input, ts, i + 1));
    NodesQuiet(input, ts, i + 2, next, os);
    MarksPast(ts, i, next);
    ClosedBefore(input, ts, i, os, n, next);
  }

  lemma MarksPast(ts: seq<Token>, i: nat, next: nat)
    requires Is(ts, i, Identifier) && Is(ts, i + 1, ParenOpen) && Quiet(ts, i + 2, next)
    ensures MarksOf(ts, next) == MarksOf(ts, i)
  {
    hide MarksOf;
    QuietMarks(ts, i + 2, next);
    MarksNext(ts, i + 1);
    MarksNext(ts, i);
  }

  /** Names and parentheses call for no entry. */
  lemma MarksNext(ts: seq<Token>, i: nat)
    requires Is(ts, i, Identifier) || Is(ts, i, ParenOpen)
    ensures MarksOf(ts, i + 1) == MarksOf(ts, i)
  {
  }

  /** The name is found again from the closing parenthesis. */
  lemma ClosedBefore(input: string, ts: seq<Token>, i: nat, ms: seq<Node>, n: nat, next: nat)
    requires Is(ts, i, Identifier) && Is(ts, i + 1, ParenOpen) && i + 3 <= next && Quiet(ts, i + 2, next)
    requires Is(ts, next - 1, ParenClose) && Names(input, ts, i, ms, n)
    ensures NodeBefore(input, ts, next - 1, ms, n)
  {
    hide Names;
    QuietOpen(ts, i + 2, next - 1);
  }

  /** A name with a component, and maybe metadata. */
  lemma ComponentMeans(input: string, ts: seq<Token>, i: nat, g: GraphData)
    requires Lexical(input, ts) && i < |ts| && Fit(input, g, EndBefore(ts, i)) && !AfterColon(ts, i) && Is(ts, i, Identifier)
    requires Is(ts, i + 1, ParenOpen)
    requires NodesMean(input, ts, i, g.nodes) && ReadComponent(input, ts, i, g.nodes).1.Got?
    ensures var (ms, p) := ReadComponent(input, ts, i, g.nodes); NodeRead(input, ts, i, ms, p.value, p.next)
  {
    hide Lexical, Fit, NodesMean, Place, AnonName, Placed, ReadPairs, PairsFrom, WithMetas, NodeRead, TextAt, Sound;
    var component := TextAt(input, ts, i + 2);
    var (ms, p) := Place(g.nodes, TextAt(input, ts, i), component, PosAt(ts, i), i + 3);
    PlaceAtFits(input, ts, i, g, component, i + 3);
    FitDistinct(input, g.(nodes := ms), EndBefore(ts, i + 1));
    NodesOpened(input, ts, i, g.nodes, ms, p.value, component);
    QuietOne(ts, i + 2);
    MetasRead(input, ts, i, ms, p.value);
    ParenthesesRead(input, ts, i, ms, p.value, component, ReadMetas(input, ts, i + 3, ms, p.value).1.next + 1, g.nodes);
  }

  /** What may follow a component: the pairs up to the closing parenthesis. */
  lemma MetasRead(input: string, ts: seq<Token>, i: nat, ms: seq<Node>, n: nat)
    requires Is(ts, i + 2, Identifier) && i + 3 <= |ts| && n < |ms|
    requires var q := ReadMetas(input, ts, i + 3, ms, n).1; q.Got? && Is(ts, q.next, ParenClose)
    ensures var (os, q) := ReadMetas(input, ts, i + 3, ms, n);
      os == WithMetas(ms, n, PairsAt(input, ts, i + 1)) && Quiet(ts, i + 2, q.next + 1)
  {
    hide ReadPairs, PairsFrom, WithMetas;
    var q := ReadMetas(input, ts, i + 3, ms, n).1;
    QuietOne(ts, i + 2);
    if Is(ts, i + 3, Colon) {
      PairsRead(input, ts, i + 4, true, ms, n);
      QuietOne(ts, i + 3);
      QuietJoin(ts, i + 2, i + 3, i + 4);
      QuietJoin(ts, i + 2, i + 4, q.next);
    } else {
      WithNoMetas(ms, n);
    }
    QuietOne(ts, q.next);
    QuietJoin(ts, i + 2, q.next, q.next + 1);
  }

  // ---------------------------------------------------------------------------
  // Reading connections
  // ---------------------------------------------------------------------------

  lemma NamesKept(input: string, ts: seq<Token>, j: nat, ns: seq<Node>, ms: seq<Node>, n: nat)
    requires Names(input, ts, j, ns, n) && Extends(ns, ms)
    ensures Names(input, ts, j, ms, n)
  {
  }

  lemma NodeBeforeKept(input: string, ts: seq<Token>, e: nat, ns: seq<Node>, ms: seq<Node>, n: nat)
    requires NodeBefore(input, ts, e, ns, n) && Extends(ns, ms)
    ensures NodeBefore(input, ts, e, ms, n)
  {
    hide NameAt;
  }

  lemma SourceKept(input: string, ts: seq<Token>, i: nat, ns: seq<Node>, ms: seq<Node>, c: Conn, d: Conn)
    requires SourceAt(input, ts, i, ns, c) && Extends(ns, ms) && d == c.(dst := d.dst, dstPort := d.dstPort, dstIdx := d.dstIdx)
    ensures SourceAt(input, ts, i, ms, d)
  {
    hide NodeBefore, PortBefore, Extends;
    NodeBeforeKept(input, ts, i - IndexBefore(ts, i) - 2, ns, ms, c.src);
  }

  /** A port and its index, at one end and at the other. */
  lemma PortRead(input: string, ts: seq<Token>, i: nat)
    requires ReadPort(input, ts, i).Got?
    ensures var r := ReadPort(input, ts, i);
      && PortAfter(input, ts, i, r.value.name, r.value.idx) && r.next == i + 1 + IndexLength(ts, i + 1)
      && PortBefore(input, ts, r.next, r.value.name, r.value.idx) && IndexBefore(ts, r.next) + 1 == r.next - i
      && Quiet(ts, i, r.next)
  {
    hide TextAt, PortIndex;
  }

  /** One arrow. */
  lemma ArrowRead(ts: seq<Token>, i: nat, j: nat)
    requires Quiet(ts, i, j) && Is(ts, j, Arrow)
    ensures MarksOf(ts, j + 1) == MarksOf(ts, i).(arrows := MarksOf(ts, i).arrows + [j])
  {
    QuietMarks(ts, i, j);
  }

  /** A token that is no parenthesis adds nothing to the nodes. */
  lemma NodesNext(input: string, ts: seq<Token>, i: nat, ns: seq<Node>)
    requires NodesMean(input, ts, i, ns) && !Is(ts, i, ParenOpen)
    ensures NodesMean(input, ts, i + 1, ns)
  {
    hide OpensFor, TypedBy;
    forall n | 0 <= n < |ns|
      ensures Gathered(input, ts, i + 1, ns[n]) && Typed(input, ts, i + 1, ns[n])
    {
      assert Gathered(input, ts, i, ns[n]) && Typed(input, ts, i, ns[n]);
      assert !OpensFor(input, ts, i, ns[n].name) by { NotOpening(input, ts, i, ns[n].name); }
    }
  }

  lemma NotOpening(input: string, ts: seq<Token>, i: nat, name: string)
    requires !Is(ts, i, ParenOpen)
    ensures !OpensFor(input, ts, i, name)
  {
  }

  lemma PortsAddedSame(input: string, ts: seq<Token>, i: nat, ns: seq<Node>, n: nat, name: string, pos: Position)
    requires NodesMean(input, ts, i, ns)
    ensures NodesMean(input, ts, i, InPortAdded(ns, n, name, pos)) && NodesMean(input, ts, i, OutPortAdded(ns, n, name, pos))
  {
    hide NodesMean, WithPort;
    NodesSame(input, ts, i, ns, InPortAdded(ns, n, name, pos));
    NodesSame(input, ts, i, ns, OutPortAdded(ns, n, name, pos));
  }

  lemma PortsAddedExtend(ns: seq<Node>, n: nat, name: string, pos: Position)
    ensures Extends(ns, InPortAdded(ns, n, name, pos)) && Extends(ns, OutPortAdded(ns, n, name, pos))
  {
  }

  /** What reading a source leaves: an arrow is read, and what stands before it. */
  ghost predicate SourceRead(input: string, ts: seq<Token>, i: nat, ms: seq<Node>, c: Conn, next: nat) {
    && i < next && Is(ts, next - 1, Arrow) && NodesMean(input, ts, next, ms)
    && MarksOf(ts, next) == MarksOf(ts, i).(arrows := MarksOf(ts, i).arrows + [next - 1])
    && SourceAt(input, ts, next - 1, ms, c)
  }

  lemma SourceMeans(input: string, ts: seq<Token>, i: nat, ns: seq<Node>, src: nat)
    requires i > 0 && NodesMean(input, ts, i, ns) && NodeBefore(input, ts, i - 1, ns, src)
    requires ReadSource(input, ts, i, ns, src).1.Got?
    ensures var (ms, p) := ReadSource(input, ts, i, ns, src); SourceRead(input, ts, i, ms, p.value, p.next)
  {
    hide ReadPort, PortAfter, PortBefore, NodesMean, NodeBefore, OutPortAdded, Extends, Marking;
    hide MarksOf, Quiet, TextAt, IndexLength;
    var (ms, p) := ReadSource(input, ts, i, ns, src);
    var r := ReadPort(input, ts, i);
    PortRead(input, ts, i);
    PortsAddedSame(input, ts, i, ns, src, r.value.name, PosAt(ts, r.next - 1));
    PortsAddedExtend(ns, src, r.value.name, PosAt(ts, r.next - 1));
    NodesQuiet(input, ts, i, r.next, ms);
    NodesNext(input, ts, r.next, ms);
    ArrowRead(ts, i, r.next);
    NodeBeforeKept(input, ts, i - 1, ns, ms, src);
  }

  lemma TargetPortRead(input: string, ts: seq<Token>, i: nat)
    requires i > 0 && ReadTargetPort(input, ts, i).Got?
    ensures var r := ReadTargetPort(input, ts, i);
      && PortAfter(input, ts, i, r.value.name, r.value.idx) && r.next == i + 1 + IndexLength(ts, i + 1)
      && Quiet(ts, i, r.next) && r.next < |ts|
  {
    hide ReadPort, PortAfter, Quiet;
    PortRead(input, ts, i);
  }

  /** What reading a target leaves. */
  ghost predicate TargetRead(input: string, ts: seq<Token>, i: nat, ms: seq<Node>, c: Conn, next: nat) {
    && 0 < i < next && NodesMean(input, ts, next, ms) && MarksOf(ts, next) == MarksOf(ts, i)
    && TargetAt(input, ts, i - 1, ms, c) && NodeBefore(input, ts, next - 1, ms, c.dst)
  }

  lemma TargetMeans(input: string, ts: seq<Token>, i: nat, g: GraphData, c: Conn)
    requires Lexical(input, ts) && 0 < i <= |ts| && Fit(input, g, EndBefore(ts, i))
    requires NodesMean(input, ts, i, g.nodes) && ReadTarget(input, ts, i, g.nodes, c).1.Got?
    ensures var (ms, p) := ReadTarget(input, ts, i, g.nodes, c); TargetRead(input, ts, i, ms, p.value, p.next)
  {
    hide Lexical, Fit, ReadPort, ReadNode, PortBefore, NodesMean, NodeBefore, InPortAdded, Extends, IndexAt, Names, Leaves, Quiet;
    hide MarksOf, Marking, TextAt, PosAt, Sound, IndexLength, ReadTargetPort;
    TargetPortRead(input, ts, i);
    var r := ReadTargetPort(input, ts, i);
    PortEnds(input, ts, i);
    NodesQuiet(input, ts, i, r.next, g.nodes);
    QuietMarks(ts, i, r.next);
    assert Fit(input, g, EndBefore(ts, r.next)) by { LaterFits(input, ts, g, i, r); }
    NodeMeans(input, ts, r.next, g);
    var (ms, q) := ReadNode(input, ts, r.next, g.nodes);
    var pos := PosAt(ts, r.next - 1);
    var os := InPortAdded(ms, q.value, r.value.name, pos);
    PortsAddedSame(input, ts, q.next, ms, q.value, r.value.name, pos);
    PortsAddedExtend(ms, q.value, r.value.name, pos);
    NodeBeforeKept(input, ts, q.next - 1, ms, os, q.value);
    NamesKept(input, ts, r.next, ms, os, q.value);
  }

  // ---------------------------------------------------------------------------
  // Reading entries
  // ---------------------------------------------------------------------------

  /** Nodes that only gain change no entry. */
  lemma EntriesKept(input: string, ts: seq<Token>, m: Marks, g: GraphData, ns: seq<Node>)
    requires EntriesMean(input, ts, m, g) && Extends(g.nodes, ns)
    ensures EntriesMean(input, ts, m, g.(nodes := ns))
  {
    hide ConnAt, ExportText, MemberText, DeclaredAt, TextAt;
    forall k | 0 <= k < |g.conns|
      ensures ConnAt(input, ts, m.arrows[k], ns, g.conns[k])
    {
      ConnKept(input, ts, m.arrows[k], g.nodes, ns, g.conns[k]);
    }
  }

  lemma ConnKept(input: string, ts: seq<Token>, i: nat, ns: seq<Node>, ms: seq<Node>, c: Conn)
    requires ConnAt(input, ts, i, ns, c) && Extends(ns, ms)
    ensures ConnAt(input, ts, i, ms, c)
  {
    hide SourceAt, PortAfter;
    SourceKept(input, ts, i, ns, ms, c, c);
    NamesKept(input, ts, i + 2 + IndexLength(ts, i + 2), ns, ms, c.dst);
  }

  lemma ConnMeans(input: string, ts: seq<Token>, i: nat, g: GraphData, src: nat)
    requires Lexical(input, ts) && 0 < i <= |ts| && Fit(input, g, EndBefore(ts, i)) && src < |g.nodes|
    requires Means(input, ts, i, g) && NodeBefore(input, ts, i - 1, g.nodes, src) && ReadConn(input, ts, i, g, src).1.Got?
    ensures var (h, p) := ReadConn(input, ts, i, g, src);
      i < p.next && Means(input, ts, p.next, h) && NodeBefore(input, ts, p.next - 1, h.nodes, p.value)
  {
    hide Lexical, Fit, ReadSource, ReadTarget, NodesMean, NodeBefore, Extends, SourceRead, TargetRead, EntriesMean, ConnAdded;
    var (ms, p) := ReadSource(input, ts, i, g.nodes, src);
    SourceFits(input, ts, i, g, src);
    SourceMeans(input, ts, i, g.nodes, src);
    assert NodesMean(input, ts, p.next, ms) && p.next > 0 by { SourceIsRead(input, ts, i, ms, p.value, p.next); }
    var (os, q) := ReadTarget(input, ts, p.next, ms, p.value);
    TargetFits(input, ts, p.next, g.(nodes := ms), p.value);
    TargetMeans(input, ts, p.next, g.(nodes := ms), p.value);
    EntriesKept(input, ts, MarksOf(ts, i), g, ms);
    ConnRead(input, ts, i, g.(nodes := ms), os, p.value, p.next, q.value, q.next);
    NewConn(g.conns, q.value);
  }

  lemma NewConn(cs: seq<Conn>, c: Conn)
    requires ConnAdded(cs, c).1.Index?
    ensures ConnAdded(cs, c).0 == cs + [c]
  {
  }

  lemma SourceIsRead(input: string, ts: seq<Token>, i: nat, ms: seq<Node>, c: Conn, next: nat)
    requires SourceRead(input, ts, i, ms, c, next)
    ensures NodesMean(input, ts, next, ms) && next > 0
  {
    hide NodesMean, SourceAt;
  }

  /** A source and a target make a connection. */
  lemma ConnRead(input: string, ts: seq<Token>, i: nat, g: GraphData, os: seq<Node>, c: Conn, j: nat, d: Conn, next: nat)
    requires SourceRead(input, ts, i, g.nodes, c, j) && TargetRead(input, ts, j, os, d, next)
    requires EntriesMean(input, ts, MarksOf(ts, i), g) && Extends(g.nodes, os)
    requires d == c.(dst := d.dst, dstPort := d.dstPort, dstIdx := d.dstIdx)
    ensures i < next && Means(input, ts, next, g.(nodes := os, conns := g.conns + [d])) && NodeBefore(input, ts, next - 1, os, d.dst)
  {
    hide NodesMean, NodeBefore, Extends, SourceAt, TargetAt, EntriesMean, MarksOf;
    EntriesKept(input, ts, MarksOf(ts, i), g, os);
    SourceKept(input, ts, j - 1, g.nodes, os, c, d);
    ConnsMore(input, ts, MarksOf(ts, i), g.(nodes := os), j - 1, d);
  }

  lemma ConnsMore(input: string, ts: seq<Token>, m: Marks, g: GraphData, i: nat, c: Conn)
    requires EntriesMean(input, ts, m, g) && ConnAt(input, ts, i, g.nodes, c)
    ensures EntriesMean(input, ts, m.(arrows := m.arrows + [i]), g.(conns := g.conns + [c]))
  {
    hide ConnAt, ExportsMean, DeclarationsMean, OptionsMean;
  }

  lemma {:induction false} ChainMeans(input: string, ts: seq<Token>, i: nat, g: GraphData, src: nat)
    requires Lexical(input, ts) && 0 < i <= |ts| && Fit(input, g, EndBefore(ts, i)) && src < |g.nodes| && !AfterColon(ts, i)
    requires Means(input, ts, i, g) && NodeBefore(input, ts, i - 1, g.nodes, src) && ReadChain(input, ts, i, g, src).1.Got?
    ensures var (h, p) := ReadChain(input, ts, i, g, src); Means(input, ts, p.next, h)
    decreases |ts| - i
  {
    hide Lexical, Fit, ReadConn, NodeBefore, Extends, Means;
    if KindAt(ts, i) == Identifier {
      var (h, p) := ReadConn(input, ts, i, g, src);
      ConnFits(input, ts, i, g, src);
      ConnMeans(input, ts, i, g, src);
      ChainMeans(input, ts, p.next, h, p.value);
    }
  }

  lemma ConnectionsMean(input: string, ts: seq<Token>, i: nat, g: GraphData)
    requires Lexical(input, ts) && i < |ts| && Fit(input, g, EndBefore(ts, i)) && !AfterColon(ts, i)
    requires Means(input, ts, i, g) && ReadConnections(input, ts, i, g).1.Got?
    ensures var (h, p) := ReadConnections(input, ts, i, g); Means(input, ts, p.next, h)
  {
    hide Lexical, Fit, ReadNode, ReadChain, NodesMean, NodeBefore, Extends, EntriesMean, Names;
    var (ms, p) := ReadNode(input, ts, i, g.nodes);
    NodeFits(input, ts, i, g);
    NodeMeans(input, ts, i, g);
    EntriesKept(input, ts, MarksOf(ts, i), g, ms);
    ChainMeans(input, ts, p.next, g.(nodes := ms), p.value);
  }

  /** A keyword with what follows it. */
  lemma KeywordRead(input: string, ts: seq<Token>, i: nat, j: nat, ns: seq<Node>)
    requires Quiet(ts, i + 1, j) && NodesMean(input, ts, i, ns) && !Is(ts, i, ParenOpen)
    ensures MarksOf(ts, j) == Marked(MarksOf(ts, i), KindAt(ts, i), i) && NodesMean(input, ts, j, ns)
  {
    hide NodesMean;
    QuietMarks(ts, i + 1, j);
    NodesNext(input, ts, i, ns);
    NodesQuiet(input, ts, i + 1, j, ns);
  }

  lemma ExportedRead(input: string, ts: seq<Token>, i: nat)
    requires ReadExported(input, ts, i).Got?
    ensures var r := ReadExported(input, ts, i); ExportText(input, ts, i, r.value.node, r.value.value) && Quiet(ts, i, r.next)
  {
    hide TextAt, PortIndex;
  }

  /** A node that is named and placed without parentheses. */
  lemma NamedMeans(input: string, ts: seq<Token>, i: nat, g: GraphData, name: string, k: nat, j: nat)
    requires Lexical(input, ts) && i <= k < |ts| && Fit(input, g, EndBefore(ts, i)) && Plain(name)
    requires Means(input, ts, i, g) && Quiet(ts, i + 1, j) && !Is(ts, i, ParenOpen)
    requires Place(g.nodes, name, "", PosAt(ts, k), j).1.Got?
    ensures var (ms, p) := Place(g.nodes, name, "", PosAt(ts, k), j);
      && NodesMean(input, ts, j, ms) && EntriesMean(input, ts, MarksOf(ts, i), g.(nodes := ms))
      && MarksOf(ts, j) == Marked(MarksOf(ts, i), KindAt(ts, i), i)
      && ms[p.value].name == name && Extends(g.nodes, ms)
  {
    hide Lexical, Fit, Extends, EntriesMean, NodesMean, NodeAdded, Placed, AnonName, Plain;
    var (ms, p) := Place(g.nodes, name, "", PosAt(ts, k), j);
    PlaceNamedFits(input, ts, i, g, name, k, j);
    NamedPlaced(g.nodes, ms, p.value, name, PosAt(ts, k));
    NodesPlaced(input, ts, i, g.nodes, ms, p.value, StoredName(name, PosAt(ts, k)), PosAt(ts, k));
    KeywordRead(input, ts, i, j, ms);
    EntriesKept(input, ts, MarksOf(ts, i), g, ms);
  }

  /** An anonymous node needs a component. */
  lemma NamedPlaced(ns: seq<Node>, ms: seq<Node>, n: nat, name: string, pos: Position)
    requires NodeAdded(ns, name, "", pos) == (ms, Index(n)) && Placed(ns, ms, n, StoredName(name, pos), "", pos)
    ensures ms[n].name == name
  {
    hide AnonName;
  }

  lemma InportMeans(input: string, ts: seq<Token>, i: nat, g: GraphData)
    requires Lexical(input, ts) && i < |ts| && Fit(input, g, EndBefore(ts, i)) && Is(ts, i, InportKeyword)
    requires Means(input, ts, i, g) && ReadInport(input, ts, i, g).1.Got?
    ensures var (h, p) := ReadInport(input, ts, i, g); Means(input, ts, p.next, h)
  {
    hide Lexical, Fit, ReadExported, ExportText, Means, Place, NodesMean, EntriesMean, Extends, InPortAdded, Plain, ConnAt;
    var x := ReadExported(input, ts, i + 1);
    var k, m := x.next - 1, MarksOf(ts, i);
    ExportedRead(input, ts, i + 1);
    ExportedNodePlain(input, ts, i + 1);
    NamedMeans(input, ts, i, g, x.value.node, k, x.next);
    var (ms, p) := Place(g.nodes, x.value.node, "", PosAt(ts, k), x.next);
    var os := InPortAdded(ms, p.value, x.value.value.port, PosAt(ts, k));
    PortsAddedSame(input, ts, x.next, ms, p.value, x.value.value.port, PosAt(ts, k));
    PortsAddedExtend(ms, p.value, x.value.value.port, PosAt(ts, k));
    EntriesKept(input, ts, m, g.(nodes := ms), os);
    SameName(ms, os, p.value);
    ExportPlaced(input, ts, i, InportKeyword, os, x.value, p.value);
    InportsMore(input, ts, m, g.(nodes := os), i, x.value.value.(node := p.value));
    MeansJoin(input, ts, x.next, ReadInport(input, ts, i, g).0);
  }

  lemma SameName(ns: seq<Node>, ms: seq<Node>, n: nat)
    requires Extends(ns, ms) && n < |ns|
    ensures n < |ms| && ms[n].name == ns[n].name
  {
  }

  lemma MeansJoin(input: string, ts: seq<Token>, i: nat, g: GraphData)
    requires EntriesMean(input, ts, MarksOf(ts, i), g) && NodesMean(input, ts, i, g.nodes)
    ensures Means(input, ts, i, g)
  {
  }

  lemma ExportPlaced(input: string, ts: seq<Token>, i: nat, keyword: TokenType, ns: seq<Node>, x: Named<Exported>, n: nat)
    requires Is(ts, i, keyword) && ExportText(input, ts, i + 1, x.node, x.value) && n < |ns| && ns[n].name == x.node
    ensures ExportAt(input, ts, i, keyword, ns, x.value.(node := n))
  {
  }

  lemma InportsMore(input: string, ts: seq<Token>, m: Marks, g: GraphData, i: nat, e: Exported)
    requires EntriesMean(input, ts, m, g) && ExportAt(input, ts, i, InportKeyword, g.nodes, e)
    ensures EntriesMean(input, ts, m.(inports := m.inports + [i]), g.(exportedIn := g.exportedIn + [e]))
  {
    hide ExportAt, ConnsMean, DeclarationsMean, OptionsMean;
  }

  lemma OutportsMore(input: string, ts: seq<Token>, m: Marks, g: GraphData, i: nat, e: Exported)
    requires EntriesMean(input, ts, m, g) && ExportAt(input, ts, i, OutportKeyword, g.nodes, e)
    ensures EntriesMean(input, ts, m.(outports := m.outports + [i]), g.(exportedOut := g.exportedOut + [e]))
  {
    hide ExportAt, ConnsMean, DeclarationsMean, OptionsMean;
  }

  lemma OutportMeans(input: string, ts: seq<Token>, i: nat, g: GraphData)
    requires Lexical(input, ts) && i < |ts| && Fit(input, g, EndBefore(ts, i)) && Is(ts, i, OutportKeyword)
    requires Means(input, ts, i, g) && ReadOutport(input, ts, i, g).1.Got?
    ensures var (h, p) := ReadOutport(input, ts, i, g); Means(input, ts, p.next, h)
  {
    hide Lexical, Fit, ReadExported, ExportText, Means, Place, NodesMean, EntriesMean, Extends, OutPortAdded, Plain, ConnAt;
    var x := ReadExported(input, ts, i + 1);
    var k, m := x.next - 1, MarksOf(ts, i);
    ExportedRead(input, ts, i + 1);
    ExportedNodePlain(input, ts, i + 1);
    NamedMeans(input, ts, i, g, x.value.node, k, x.next);
    var (ms, p) := Place(g.nodes, x.value.node, "", PosAt(ts, k), x.next);
    var os := OutPortAdded(ms, p.value, x.value.value.port, PosAt(ts, k));
    PortsAddedSame(input, ts, x.next, ms, p.value, x.value.value.port, PosAt(ts, k));
    PortsAddedExtend(ms, p.value, x.value.value.port, PosAt(ts, k));
    EntriesKept(input, ts, m, g.(nodes := ms), os);
    SameName(ms, os, p.value);
    ExportPlaced(input, ts, i, OutportKeyword, os, x.value, p.value);
    OutportsMore(input, ts, m, g.(nodes := os), i, x.value.value.(node := p.value));
    MeansJoin(input, ts, x.next, ReadOutport(input, ts, i, g).0);
  }

  lemma DeclarationRead(input: string, ts: seq<Token>, i: nat)
    requires Is(ts, i, DeclareKeyword) && ReadDeclaration(input, ts, i + 1).Got?
    ensures DeclaredAt(input, ts, i, ReadDeclaration(input, ts, i + 1).value) && Quiet(ts, i + 1, i + 7)
  {
    hide TextAt;
  }

  lemma DeclarationsMore(input: string, ts: seq<Token>, m: Marks, g: GraphData, i: nat, d: Declaration)
    requires EntriesMean(input, ts, m, g) && DeclaredAt(input, ts, i, d)
    ensures EntriesMean(input, ts, m.(declares := m.declares + [i]), g.(declarations := g.declarations + [d]))
  {
    hide DeclaredAt, ConnsMean, ExportsMean, OptionsMean;
  }

  lemma DeclareMeans(input: string, ts: seq<Token>, i: nat, g: GraphData)
    requires i < |ts| && Is(ts, i, DeclareKeyword) && Means(input, ts, i, g) && ReadDeclare(input, ts, i, g).1.Got?
    ensures var (h, p) := ReadDeclare(input, ts, i, g); Means(input, ts, p.next, h)
  {
    hide ReadDeclaration, DeclaredAt, NodesMean, EntriesMean;
    DeclarationRead(input, ts, i);
    KeywordRead(input, ts, i, i + 7, g.nodes);
    DeclarationsMore(input, ts, MarksOf(ts, i), g, i, ReadDeclaration(input, ts, i + 1).value);
  }

  lemma OptionRead(input: string, ts: seq<Token>, i: nat, ns: seq<Node>, n: nat)
    requires Is(ts, i, OptionKeyword) && ReadNodeOption(input, ts, i + 1).Got? && n < |ns|
    requires ns[n].name == ReadNodeOption(input, ts, i + 1).value.node
    ensures OptionAt(input, ts, i, ns, ReadNodeOption(input, ts, i + 1).value.value.(node := n))
  {
    hide TextAt;
  }

  lemma OptionQuiet(input: string, ts: seq<Token>, i: nat)
    requires ReadNodeOption(input, ts, i).Got?
    ensures Quiet(ts, i, i + 6)
  {
    hide TextAt;
  }

  lemma OptionsMore(input: string, ts: seq<Token>, m: Marks, g: GraphData, i: nat, o: NodeOption)
    requires EntriesMean(input, ts, m, g) && OptionAt(input, ts, i, g.nodes, o)
    ensures EntriesMean(input, ts, m.(options := m.options + [i]), g.(options := g.options + [o]))
  {
    hide OptionAt, ConnsMean, ExportsMean, DeclarationsMean;
  }

  lemma OptionMeans(input: string, ts: seq<Token>, i: nat, g: GraphData)
    requires Lexical(input, ts) && i < |ts| && Fit(input, g, EndBefore(ts, i)) && Is(ts, i, OptionKeyword)
    requires Means(input, ts, i, g) && ReadOption(input, ts, i, g).1.Got?
    ensures var (h, p) := ReadOption(input, ts, i, g); Means(input, ts, p.next, h)
  {
    hide Lexical, Fit, ReadNodeOption, OptionAt, Means, Place, NodesMean, EntriesMean, Extends, Plain;
    var x := ReadNodeOption(input, ts, i + 1);
    OptionQuiet(input, ts, i + 1);
    OptionNodePlain(input, ts, i + 1);
    NamedMeans(input, ts, i, g, x.value.node, i + 2, x.next);
    var (ms, p) := Place(g.nodes, x.value.node, "", PosAt(ts, i + 2), x.next);
    OptionRead(input, ts, i, ms, p.value);
    OptionsMore(input, ts, MarksOf(ts, i), g.(nodes := ms), i, x.value.value.(node := p.value));
    MeansJoin(input, ts, x.next, ReadOption(input, ts, i, g).0);
  }

  // ---------------------------------------------------------------------------
  // The whole text
  // ---------------------------------------------------------------------------

  lemma StmtMeans(input: string, ts: seq<Token>, i: nat, g: GraphData)
    requires Lexical(input, ts) && i < |ts| && Fit(input, g, EndBefore(ts, i)) && !AfterColon(ts, i)
    requires Means(input, ts, i, g) && ReadStmt(input, ts, i, g).1.Got?
    ensures var (h, p) := ReadStmt(input, ts, i, g); Means(input, ts, p.next, h)
  {
    hide Lexical, Fit, ReadInport, ReadOutport, ReadDeclare, ReadOption, ReadConnections, Means;
    var k := KindAt(ts, i);
    if k == InportKeyword {
      InportMeans(input, ts, i, g);
    } else if k == OutportKeyword {
      OutportMeans(input, ts, i, g);
    } else if k == DeclareKeyword {
      DeclareMeans(input, ts, i, g);
    } else if k == OptionKeyword {
      OptionMeans(input, ts, i, g);
    } else if k == Identifier {
      ConnectionsMean(input, ts, i, g);
    } else {
      QuietOne(ts, i);
      MeansQuiet(input, ts, i, i + 1, g);
    }
  }

  lemma {:induction false} AllMean(input: string, ts: seq<Token>, i: nat, g: GraphData)
    requires Lexical(input, ts) && i <= |ts| && Fit(input, g, EndBefore(ts, i)) && !AfterColon(ts, i)
    requires Means(input, ts, i, g) && ReadAll(input, ts, i, g).1.Got?
    ensures var (h, r) := ReadAll(input, ts, i, g); Means(input, ts, r.next, h) && KindAt(ts, r.next) == Eof
    decreases |ts| - i
  {
    hide Lexical, Fit, ReadStmt, Extends, Means;
    if i < |ts| && KindAt(ts, i) != Eof {
      var (h, r) := ReadStmt(input, ts, i, g);
      StmtFits(input, ts, i, g);
      StmtMeans(input, ts, i, g);
      AllMean(input, ts, r.next, h);
    }
  }

  lemma NothingYet(input: string, ts: seq<Token>)
    ensures Means(input, ts, 0, EMPTY)
  {
  }

  /**
   The graph of an accepted text, all of which is read: every entry and every node stands
   for the tokens that call for it, and every such token has its entry or node.
   */
  lemma InterpretMeans(input: string)
    requires Interpret(input).1.Accepted?
    ensures var g, ts := Interpret(input).0, LexAll(input, DefaultState, 0);
      && Means(input, ts, |ts|, g) && TokensOk(input, ts)
      && ts != [] && ts[|ts| - 1].kind == Eof && AtEnd(input, ts[|ts| - 1].end)
      && forall n :: 0 <= n < |g.nodes| ==> g.nodes[n].component != ""
  {
    hide LexAll, ReadAll, Means, PlainNames, TokensOk, AtEnd;
    var ts := LexAll(input, DefaultState, 0);
    TextIsLexical(input);
    EmptyFits(input);
    NothingYet(input, ts);
    LexAllEnds(input, DefaultState, 0);
    AllMean(input, ts, 0, EMPTY);
    var (g, r) := ReadAll(input, ts, 0, EMPTY);
    assert IsLast(ts[r.next]);
    QuietOne(ts, r.next);
    MeansQuiet(input, ts, r.next, |ts|, g);
    NoneUntyped(g.nodes);
  }

  lemma NoneUntyped(ns: seq<Node>)
    requires FindUntyped(ns) == |ns|
    ensures forall n :: 0 <= n < |ns| ==> ns[n].component != ""
  {
  }

  lemma MeansQuiet(input: string, ts: seq<Token>, i: nat, j: nat, g: GraphData)
    requires Means(input, ts, i, g) && Quiet(ts, i, j)
    ensures Means(input, ts, j, g)
  {
    hide NodesMean, EntriesMean;
    QuietMarks(ts, i, j);
    NodesQuiet(input, ts, i, j, g.nodes);
  }
}
