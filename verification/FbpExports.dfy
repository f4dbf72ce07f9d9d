/**
 How the FBP generator numbers exported ports: one pass stores them as the ports of a new
 type, another emits a table of the ports they stand for, and a connection to the new type
 is an index into that table.
 */
module FbpExports {
  import opened Wrappers
  import opened FbpGraph
  import FbpTokens

  /** A port of a node type; size 0 is a port that is no array. */
  datatype PortDesc = PortDesc(name: string, dataType: string, arraySize: nat, base: nat)

  /** { node, port }, as printed. */
  datatype Row = Row(node: nat, port: nat)

  const ERROR_NAME := "ERROR"
  const UINT16_MAX := 0xffff
  const ERROR_PORT := PortDesc(ERROR_NAME, "error", 0, UINT16_MAX - 1)

  // ---------------------------------------------------------------------------
  // Looking ports up
  // ---------------------------------------------------------------------------

  function FirstMatch(ps: seq<PortDesc>, name: string): (i: nat)
    ensures i <= |ps| && (i < |ps| ==> ps[i].name == name)
    ensures forall j :: 0 <= j < i ==> ps[j].name != name
  {
    if ps == [] || ps[0].name == name then 0 else 1 + FirstMatch(ps[1..], name)
  }

  /** -1 when there is none. */
  function LastMatch(ps: seq<PortDesc>, name: string): (i: int)
    ensures -1 <= i < |ps| && (i >= 0 ==> ps[i].name == name)
    ensures forall j :: i < j < |ps| ==> ps[j].name != name
  {
    if ps == [] then -1
    else if ps[|ps| - 1].name == name then |ps| - 1
    else LastMatch(ps[..|ps| - 1], name)
  }

  predicate OnlyMatch(ps: seq<PortDesc>, name: string) {
    forall i, j :: 0 <= i < j < |ps| ==> ps[i].name != name || ps[j].name != name
  }

  /** The port of this name, or the error port that every type has. */
  function Lookup(ps: seq<PortDesc>, name: string): Option<PortDesc> {
    var i := FirstMatch(ps, name);
    if i < |ps| then Some(ps[i]) else if name == ERROR_NAME then Some(ERROR_PORT) else None
  }

  /** check_port_existence. */
  method CheckPortExistence(ps: seq<PortDesc>, name: string) returns (p: Option<PortDesc>)
    ensures p == Lookup(ps, name)
  {
    var i := 0;
    while i < |ps|
      invariant i <= |ps|
      invariant forall j :: 0 <= j < i ==> ps[j].name != name
    {
      if ps[i].name == name {
        return Some(ps[i]);
      }
      i := i + 1;
    }
    return if name == ERROR_NAME then Some(ERROR_PORT) else None;
  }

  // ---------------------------------------------------------------------------
  // The new type
  // ---------------------------------------------------------------------------

  /** A port that is no array takes one row. */
  function Width(size: nat): (w: nat)
    ensures w >= 1
  {
    if size == 0 then 1 else size
  }

  /** How far the running index moves for one port of the name. */
  function Slots(e: Exported, p: PortDesc): nat {
    if e.idx == -1 then Width(p.arraySize) else 1
  }

  function SlotsOf(e: Exported, ps: seq<PortDesc>): nat {
    if ps == [] then 0
    else SlotsOf(e, ps[..|ps| - 1]) + if ps[|ps| - 1].name == e.port then Slots(e, ps[|ps| - 1]) else 0
  }

  predicate Known(es: seq<Exported>, descs: seq<seq<PortDesc>>) {
    forall i :: 0 <= i < |es| ==> es[i].node < |descs| && es[i].idx >= -1
  }

  /** The running index before export `i`. */
  function Counter(es: seq<Exported>, descs: seq<seq<PortDesc>>, i: nat): nat
    requires Known(es, descs) && i <= |es|
  {
    if i == 0 then 0 else Counter(es, descs, i - 1) + SlotsOf(es[i - 1], descs[es[i - 1].node])
  }

  /** The port that stands for an export, made from the last port of the name. */
  function StoredPort(e: Exported, ps: seq<PortDesc>, base: nat): PortDesc
    requires LastMatch(ps, e.port) >= 0
  {
    var j := LastMatch(ps, e.port);
    PortDesc(e.name, ps[j].dataType, if e.idx == -1 then ps[j].arraySize else 0, base + SlotsOf(e, ps[..j]))
  }

  predicate Storable(es: seq<Exported>, descs: seq<seq<PortDesc>>)
    requires Known(es, descs)
  {
    forall i :: 0 <= i < |es| ==> LastMatch(descs[es[i].node], es[i].port) >= 0
  }

  function Stored(es: seq<Exported>, descs: seq<seq<PortDesc>>, i: nat): PortDesc
    requires Known(es, descs) && i < |es| && LastMatch(descs[es[i].node], es[i].port) >= 0
  {
    StoredPort(es[i], descs[es[i].node], Counter(es, descs, i))
  }

  /** The inner loop of store_exported_ports. */
  method StoreExportedPort(e: Exported, ps: seq<PortDesc>, start: nat) returns (p: Option<PortDesc>, base: nat)
    ensures base == start + SlotsOf(e, ps)
    ensures p == if LastMatch(ps, e.port) < 0 then None else Some(StoredPort(e, ps, start))
  {
    p, base := None, start;
    var j := 0;
    while j < |ps|
      invariant j <= |ps| && base == start + SlotsOf(e, ps[..j])
      invariant p == if LastMatch(ps[..j], e.port) < 0 then None else Some(StoredPort(e, ps[..j], start))
    {
      OneMorePort(e, ps, j, start);
      if e.port == ps[j].name {
        var size := 0;
        if e.idx == -1 {
          size := ps[j].arraySize;
        }
        p := Some(PortDesc(e.name, ps[j].dataType, size, base));
        base := base + 1;
        if size > 1 {
          base := base + size - 1;
        }
      }
      j := j + 1;
    }
    assert ps[..|ps|] == ps;
  }

  lemma OneMorePort(e: Exported, ps: seq<PortDesc>, j: nat, start: nat)
    requires j < |ps|
    ensures SlotsOf(e, ps[..j + 1]) == SlotsOf(e, ps[..j]) + if ps[j].name == e.port then Slots(e, ps[j]) else 0
    ensures LastMatch(ps[..j + 1], e.port) == if ps[j].name == e.port then j else LastMatch(ps[..j], e.port)
    ensures LastMatch(ps[..j + 1], e.port) >= 0 ==>
      StoredPort(e, ps[..j + 1], start) ==
        if ps[j].name == e.port
        then PortDesc(e.name, ps[j].dataType, if e.idx == -1 then ps[j].arraySize else 0, start + SlotsOf(e, ps[..j]))
        else StoredPort(e, ps[..j], start)
  {
    var qs := ps[..j + 1];
    assert qs[..j] == ps[..j];
    var l := LastMatch(qs, e.port);
    if 0 <= l < j {
      assert qs[..l] == ps[..j][..l];
    }
  }

  lemma CounterSteps(es: seq<Exported>, descs: seq<seq<PortDesc>>)
    requires Known(es, descs)
    ensures Counter(es, descs, 0) == 0
    ensures forall i :: 0 <= i < |es| ==> Counter(es, descs, i + 1) == Counter(es, descs, i) + SlotsOf(es[i], descs[es[i].node])
  {
  }

  /** store_exported_ports; `descs` are the ports, of one direction, of the types of the nodes. */
  method StoreExportedPorts(es: seq<Exported>, descs: seq<seq<PortDesc>>) returns (ok: bool, ports: seq<PortDesc>)
    requires Known(es, descs)
    ensures ok == Storable(es, descs)
    ensures ok ==> |ports| == |es| && forall i :: 0 <= i < |es| ==> ports[i] == Stored(es, descs, i)
  {
    hide StoredPort, SlotsOf, LastMatch, Counter;
    CounterSteps(es, descs);
    ports := [];
    var base, i := 0, 0;
    while i < |es|
      invariant i <= |es| && |ports| == i && base == Counter(es, descs, i)
      invariant forall k :: 0 <= k < i ==> LastMatch(descs[es[k].node], es[k].port) >= 0 && ports[k] == Stored(es, descs, k)
    {
      var p;
      p, base := StoreExportedPort(es[i], descs[es[i].node], base);
      if p == None {
        return false, ports;
      }
      ports := ports + [p.value];
      i := i + 1;
    }
    ok := true;
  }

  // ---------------------------------------------------------------------------
  // The table
  // ---------------------------------------------------------------------------

  /** The rows for port `p` of the node: all of an array, or the one that is asked for. */
  function ChildRows(e: Exported, p: PortDesc): seq<Row>
    requires e.idx >= -1
  {
    if e.idx == -1 then seq(Width(p.arraySize), k requires 0 <= k => Row(e.node, p.base + k))
    else [Row(e.node, p.base + e.idx)]
  }

  /** The rows of one export; None where it is refused. */
  function PortRows(e: Exported, ps: seq<PortDesc>): Option<seq<Row>>
    requires e.idx >= -1
  {
    match Lookup(ps, e.port)
    case None => None
    case Some(p) => if e.idx >= 0 && e.idx >= p.arraySize then None else Some(ChildRows(e, p))
  }

  predicate Printable(es: seq<Exported>, descs: seq<seq<PortDesc>>)
    requires Known(es, descs)
  {
    forall i :: 0 <= i < |es| ==> PortRows(es[i], descs[es[i].node]).Some?
  }

  /** The rows of the first `i` exports, as far as they are accepted. */
  function Table(es: seq<Exported>, descs: seq<seq<PortDesc>>, i: nat): seq<Row>
    requires Known(es, descs) && i <= |es|
  {
    if i == 0 then []
    else
      var r := PortRows(es[i - 1], descs[es[i - 1].node]);
      Table(es, descs, i - 1) + if r.Some? then r.value else []
  }

  /** The buffer that everything is printed to; only the rows are kept here. */
  class Output {
    var rows: seq<Row>

    constructor ()
      ensures rows == []
    {
      rows := [];
    }

    /** generate_exported_port. */
    method GenerateExportedPort(e: Exported, ps: seq<PortDesc>) returns (ok: bool)
      requires e.idx >= -1
      modifies this
      ensures ok == PortRows(e, ps).Some?
      ensures rows == if ok then old(rows) + PortRows(e, ps).value else old(rows)
    {
      var found := CheckPortExistence(ps, e.port);
      if found == None {
        return false;
      }
      var p := found.value;
      if e.idx == -1 {
        var base := p.base;
        var last := base + if p.arraySize != 0 then p.arraySize else 1;
        while base < last
          invariant p.base <= base <= last
          invariant rows == old(rows) + seq(base - p.base, k requires 0 <= k => Row(e.node, p.base + k))
        {
          rows := rows + [Row(e.node, base)];
          base := base + 1;
        }
      } else {
        if e.idx >= p.arraySize {
          return false;
        }
        rows := rows + [Row(e.node, p.base + e.idx)];
      }
      return true;
    }

    /** generate_exports, for one direction. */
    method GenerateExports(es: seq<Exported>, descs: seq<seq<PortDesc>>) returns (ok: bool)
      requires Known(es, descs)
      modifies this
      ensures ok == Printable(es, descs)
      ensures ok ==> rows == old(rows) + Table(es, descs, |es|)
    {
      hide PortRows;
      var i := 0;
      while i < |es|
        invariant i <= |es| && rows == old(rows) + Table(es, descs, i)
        invariant forall k :: 0 <= k < i ==> PortRows(es[k], descs[es[k].node]).Some?
      {
        ok := GenerateExportedPort(es[i], descs[es[i].node]);
        if !ok {
          return false;
        }
        i := i + 1;
      }
      return true;
    }
  }

  /** What is refused: a port that the type does not have, and an index that is no element of it. */
  lemma Refused(e: Exported, ps: seq<PortDesc>)
    requires e.idx >= -1
    ensures LastMatch(ps, e.port) >= 0 <==> exists j :: 0 <= j < |ps| && ps[j].name == e.port
    ensures PortRows(e, ps).Some? <==>
      || (e.idx == -1 && (e.port == "ERROR" || exists j :: 0 <= j < |ps| && ps[j].name == e.port))
      || exists j :: 0 <= j < |ps| && ps[j].name == e.port && e.idx < ps[j].arraySize && forall k :: 0 <= k < j ==> ps[k].name != e.port
  {
    var f := FirstMatch(ps, e.port);
    assert f < |ps| ==> ps[f].name == e.port;
  }

  // ---------------------------------------------------------------------------
  // They agree
  // ---------------------------------------------------------------------------

  lemma {:induction false} SlotsAreSome(e: Exported, ps: seq<PortDesc>)
    ensures SlotsOf(e, ps) > 0 <==> exists j :: 0 <= j < |ps| && ps[j].name == e.port
  {
    if ps != [] {
      var n := |ps| - 1;
      SlotsAreSome(e, ps[..n]);
      if j :| 0 <= j < n && ps[j].name == e.port {
        assert ps[..n][j].name == e.port;
      }
    }
  }

  lemma {:induction false} SlotsStop(e: Exported, ps: seq<PortDesc>)
    requires LastMatch(ps, e.port) >= 0
    ensures SlotsOf(e, ps) == SlotsOf(e, ps[..LastMatch(ps, e.port)]) + Slots(e, ps[LastMatch(ps, e.port)])
  {
    var n, l := |ps| - 1, LastMatch(ps, e.port);
    if l < n {
      SlotsStop(e, ps[..n]);
      assert ps[..n][..l] == ps[..l];
    }
  }

  /** One export: the stored size and the number of rows agree, and nothing comes before, iff the name is there once. */
  lemma OneExport(e: Exported, ps: seq<PortDesc>)
    requires e.idx >= -1 && LastMatch(ps, e.port) >= 0 && PortRows(e, ps).Some?
    ensures OnlyMatch(ps, e.port) <==> SlotsOf(e, ps[..LastMatch(ps, e.port)]) == 0
    ensures OnlyMatch(ps, e.port) ==> Lookup(ps, e.port) == Some(ps[LastMatch(ps, e.port)])
    ensures OnlyMatch(ps, e.port) ==> |PortRows(e, ps).value| == SlotsOf(e, ps)
  {
    var l, f := LastMatch(ps, e.port), FirstMatch(ps, e.port);
    SlotsAreSome(e, ps[..l]);
    SlotsStop(e, ps);
    assert f <= l;
    if f < l {
      assert ps[..l][f].name == e.port;
    }
  }

  predicate OnlyMatches(es: seq<Exported>, descs: seq<seq<PortDesc>>)
    requires Known(es, descs)
  {
    forall i :: 0 <= i < |es| ==> OnlyMatch(descs[es[i].node], es[i].port)
  }

  lemma {:induction false} CounterIsOffset(es: seq<Exported>, descs: seq<seq<PortDesc>>, i: nat)
    requires Known(es, descs) && i <= |es| && Storable(es, descs) && Printable(es, descs)
    requires forall k :: 0 <= k < i ==> OnlyMatch(descs[es[k].node], es[k].port)
    ensures Counter(es, descs, i) == |Table(es, descs, i)|
  {
    if i > 0 {
      CounterIsOffset(es, descs, i - 1);
      OneExport(es[i - 1], descs[es[i - 1].node]);
    }
  }

  /**
   Every exported port is stored with the offset of its first row if and only if no type
   has two ports of a name that is exported.
   */
  lemma NumberingAgrees(es: seq<Exported>, descs: seq<seq<PortDesc>>)
    requires Known(es, descs) && Storable(es, descs) && Printable(es, descs)
    ensures OnlyMatches(es, descs) <==>
      forall i :: 0 <= i < |es| ==> Stored(es, descs, i).base == |Table(es, descs, i)|
  {
    if OnlyMatches(es, descs) {
      forall i | 0 <= i < |es|
        ensures Stored(es, descs, i).base == |Table(es, descs, i)|
      {
        CounterIsOffset(es, descs, i);
        OneExport(es[i], descs[es[i].node]);
      }
    } else {
      var i := 0;
      while OnlyMatch(descs[es[i].node], es[i].port)
        invariant 0 <= i < |es|
        invariant forall k :: 0 <= k < i ==> OnlyMatch(descs[es[k].node], es[k].port)
        decreases |es| - i
      {
        i := i + 1;
      }
      CounterIsOffset(es, descs, i);
      OneExport(es[i], descs[es[i].node]);
      assert Stored(es, descs, i).base != |Table(es, descs, i)|;
    }
  }

  lemma {:induction false} TableGrows(es: seq<Exported>, descs: seq<seq<PortDesc>>, i: nat, n: nat)
    requires Known(es, descs) && i <= n <= |es|
    ensures Table(es, descs, i) <= Table(es, descs, n)
  {
    if i < n {
      TableGrows(es, descs, i, n - 1);
    }
  }

  /** Where the rows of export `i` are in the whole table. */
  lemma RowsInTable(es: seq<Exported>, descs: seq<seq<PortDesc>>, i: nat, n: nat)
    requires Known(es, descs) && Printable(es, descs) && i < n <= |es|
    ensures |Table(es, descs, i)| <= |Table(es, descs, i + 1)| <= |Table(es, descs, n)|
    ensures Table(es, descs, n)[|Table(es, descs, i)|..|Table(es, descs, i + 1)|] == PortRows(es[i], descs[es[i].node]).value
  {
    hide PortRows;
    TableGrows(es, descs, i + 1, n);
    var t, u := Table(es, descs, i), Table(es, descs, i + 1);
    var r := PortRows(es[i], descs[es[i].node]).value;
    assert u == t + r;
    assert Table(es, descs, n)[|t|..|u|] == u[|t|..];
  }

  /** The port an export stands for. */
  function Child(e: Exported, ps: seq<PortDesc>): PortDesc
    requires LastMatch(ps, e.port) >= 0
  {
    ps[LastMatch(ps, e.port)]
  }

  /**
   The rows of each export follow those of the one before, starting at the stored index,
   as many as the stored size asks for, and list the ports of the child in order.
   */
  lemma RowsOfExport(es: seq<Exported>, descs: seq<seq<PortDesc>>, i: nat)
    requires Known(es, descs) && Storable(es, descs) && Printable(es, descs) && OnlyMatches(es, descs) && i < |es|
    ensures
      var s, c, t := Stored(es, descs, i), Child(es[i], descs[es[i].node]), Table(es, descs, |es|);
      var next := s.base + Width(s.arraySize);
      && s.name == es[i].name && s.dataType == c.dataType
      && next <= |t| && t[s.base..next] == ChildRows(es[i], c)
      && next == if i + 1 < |es| then Stored(es, descs, i + 1).base else |t|
  {
    hide LastMatch, Lookup, Counter, Table, SlotsOf;
    CounterIsOffset(es, descs, i);
    CounterIsOffset(es, descs, i + 1);
    OneExport(es[i], descs[es[i].node]);
    RowsInTable(es, descs, i, |es|);
    if i + 1 < |es| {
      OneExport(es[i + 1], descs[es[i + 1].node]);
    }
  }

  // ---------------------------------------------------------------------------
  // Connections
  // ---------------------------------------------------------------------------

  /** The port number a connection ends at; None where it is refused. */
  function EndPoint(ps: seq<PortDesc>, name: string, idx: int): Option<nat>
    requires idx >= -1
  {
    match Lookup(ps, name)
    case None => None
    case Some(p) =>
      if p.arraySize == 0 then Some(p.base)
      else if idx == -1 || idx >= p.arraySize then None
      else Some(p.base + idx)
  }

  /** Every type has the port "ERROR", which is number 65534 unless the type lists it; other names must be listed. */
  lemma EndPointOfUnlisted(ps: seq<PortDesc>, name: string, idx: int)
    requires idx >= -1 && forall j :: 0 <= j < |ps| ==> ps[j].name != name
    ensures EndPoint(ps, name, idx) == if name == "ERROR" then Some(65534) else None
  {
  }

  /** A port is taken as it is, whatever the index; of an array there must be one, within it. */
  lemma EndPointOfListed(ps: seq<PortDesc>, idx: int, j: nat)
    requires idx >= -1 && j < |ps| && forall k :: 0 <= k < j ==> ps[k].name != ps[j].name
    ensures ps[j].arraySize == 0 ==> EndPoint(ps, ps[j].name, idx) == Some(ps[j].base)
    ensures ps[j].arraySize > 0 ==>
      EndPoint(ps, ps[j].name, idx) == if 0 <= idx < ps[j].arraySize then Some(ps[j].base + idx) else None
  {
    assert FirstMatch(ps, ps[j].name) == j;
  }

  /** One end of a connection in generate_connections. */
  method FindEndPoint(ps: seq<PortDesc>, name: string, idx: int) returns (r: Option<nat>)
    requires idx >= -1
    ensures r == EndPoint(ps, name, idx)
  {
    var found := CheckPortExistence(ps, name);
    if found == None {
      return None;
    }
    var port := found.value.base;
    if found.value.arraySize > 0 {
      if idx == -1 || idx >= found.value.arraySize {
        return None;
      }
      port := port + idx;
    }
    return Some(port);
  }

  /** The new type has each port name once, so that its ports can be exported again. */
  lemma StoredNames(es: seq<Exported>, descs: seq<seq<PortDesc>>, n: nat, ports: seq<PortDesc>)
    requires Known(es, descs) && Storable(es, descs) && ExportedOk(n, es)
    requires |ports| == |es| && forall i :: 0 <= i < |es| ==> ports[i] == Stored(es, descs, i)
    ensures forall i, j :: 0 <= i < j < |ports| ==> ports[i].name != ports[j].name
    ensures forall name :: OnlyMatch(ports, name)
  {
    forall i, j | 0 <= i < j < |ports|
      ensures ports[i].name != ports[j].name
    {
      assert ports[i].name == es[i].name && ports[j].name == es[j].name;
    }
  }

  /** A connection to an exported port ends at the row of the port of the child that is meant. */
  lemma ConnectionLands(es: seq<Exported>, descs: seq<seq<PortDesc>>, n: nat, ports: seq<PortDesc>, i: nat, idx: int)
    requires Known(es, descs) && Storable(es, descs) && Printable(es, descs) && OnlyMatches(es, descs) && ExportedOk(n, es)
    requires |ports| == |es| && forall k :: 0 <= k < |es| ==> ports[k] == Stored(es, descs, k)
    requires i < |es| && idx >= -1
    ensures
      var e, c := es[i], Child(es[i], descs[es[i].node]);
      var whole := e.idx == -1 && c.arraySize > 0;
      match EndPoint(ports, e.name, idx)
      case None => whole && !(0 <= idx < c.arraySize)
      case Some(s) =>
        && (whole ==> 0 <= idx < c.arraySize)
        && s < |Table(es, descs, |es|)|
        && Table(es, descs, |es|)[s] == Row(e.node, c.base + if whole then idx else if e.idx == -1 then 0 else e.idx)
  {
    hide LastMatch, Table, Stored, Printable, OnlyMatches, ExportedOk, PortRows;
    StoredNames(es, descs, n, ports);
    StoredIs(es, descs, i);
    var e, s := es[i], ports[i];
    assert FirstMatch(ports, e.name) == i;
    RowsOfExport(es, descs, i);
    var t, c := Table(es, descs, |es|), Child(e, descs[e.node]);
    var next := s.base + Width(s.arraySize);
    var k := if e.idx == -1 && c.arraySize > 0 then idx else 0;
    if 0 <= k < Width(s.arraySize) {
      assert t[s.base..next][k] == ChildRows(e, c)[k];
    }
  }

  lemma StoredIs(es: seq<Exported>, descs: seq<seq<PortDesc>>, i: nat)
    requires Known(es, descs) && i < |es| && LastMatch(descs[es[i].node], es[i].port) >= 0
    ensures
      var s := Stored(es, descs, i);
      s.name == es[i].name && s.arraySize == if es[i].idx == -1 then Child(es[i], descs[es[i].node]).arraySize else 0
  {
  }

  /** Two ports of one name: the second gives the base, the first the rows. */
  lemma NumberingMayDisagree()
    ensures
      var p := PortDesc("P", "int", 0, 0);
      var es, descs := [Exported(0, "P", -1, "X", FbpTokens.Position(1, 1))], [[p, p.(base := 1)]];
      && Known(es, descs) && Storable(es, descs) && Printable(es, descs)
      && Stored(es, descs, 0).base == 1 && |Table(es, descs, 0)| == 0
  {
    var p := PortDesc("P", "int", 0, 0);
    var ps := [p, p.(base := 1)];
    var e := Exported(0, "P", -1, "X", FbpTokens.Position(1, 1));
    assert ps[..1] == [p] && [p][..0] == [];
    assert LastMatch(ps, "P") == 1 && SlotsOf(e, ps[..1]) == 1;
  }
}
