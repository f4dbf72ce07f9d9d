/**
 The text of a configuration file: quoting of strings, the lines that are printed for
 symbols and menu titles, and what a line that is read says.
 */
module ConfText {
  import opened Wrappers
  import opened Decimals
  import opened KconfigExpr

  /** A value given by the user: def[S_DEF_USER], with its flag. */
  datatype UserVal = Unset | Tri(t: int) | Str(s: string)

  const PREFIX := "CONFIG_"
  const NOT_SET := "is not set"

  /** The first place of a character; the length when there is none. */
  function IndexOf(s: string, c: char): (i: nat)
    ensures i <= |s| && (i < |s| ==> s[i] == c) && c !in s[..i]
  {
    if s == "" || s[0] == c then 0
    else
      var i := 1 + IndexOf(s[1..], c);
      assert s[..i] == [s[0]] + s[1..][..i - 1];
      i
  }

  predicate StartsWith(s: string, p: string) {
    |p| <= |s| && s[..|p|] == p
  }

  /** The place is where the first one is. */
  lemma IndexIs(a: string, c: char, b: string)
    requires c !in a
    ensures IndexOf(a + [c] + b, c) == |a|
  {
    var s := a + [c] + b;
    var i := IndexOf(s, c);
    assert s[|a|] == c && s[..|a|] == a;
    assert i >= |a| by {
      assert forall k :: 0 <= k < |a| ==> s[k] == a[k];
    }
    assert c !in s[..i] && forall k :: 0 <= k < i ==> s[k] in s[..i];
  }

  // ---------------------------------------------------------------------------
  // Quoting
  // ---------------------------------------------------------------------------

  predicate IsSpecial(c: char) {
    c == '"' || c == '\\'
  }

  function Escaped(s: string): string {
    if s == "" then ""
    else (if IsSpecial(s[0]) then ['\\', s[0]] else [s[0]]) + Escaped(s[1..])
  }

  /** sym_escape_string_value. */
  function Quoted(s: string): string {
    "\"" + Escaped(s) + "\""
  }

  function Prepend(a: string, o: Option<string>): Option<string> {
    match o
    case None => None
    case Some(s) => Some(a + s)
  }

  /** What stands before the first quote that is not escaped. */
  function Unescape(s: string): Option<string> {
    if s == "" then None
    else if s[0] == '"' then Some("")
    else if s[0] != '\\' then Prepend([s[0]], Unescape(s[1..]))
    else if |s| == 1 then None
    else Prepend([s[1]], Unescape(s[2..]))
  }

  lemma {:induction false} UnescapePlain(a: string, s: string)
    requires forall i :: 0 <= i < |a| ==> !IsSpecial(a[i])
    ensures Unescape(a + s) == Prepend(a, Unescape(s))
  {
    if a == "" {
      assert a + s == s;
      if Unescape(s).Some? {
        assert "" + Unescape(s).value == Unescape(s).value;
      }
    } else {
      UnescapePlain(a[1..], s);
      assert (a + s)[1..] == a[1..] + s;
      if Unescape(s).Some? {
        assert [a[0]] + (a[1..] + Unescape(s).value) == a + Unescape(s).value;
      }
    }
  }

  /** Reading back what was quoted, whatever follows the closing quote. */
  lemma {:induction false} UnescapeEscaped(s: string, rest: string)
    ensures Unescape(Escaped(s) + "\"" + rest) == Some(s)
  {
    var t := Escaped(s) + "\"" + rest;
    if s != "" {
      var u := Escaped(s[1..]) + "\"" + rest;
      UnescapeEscaped(s[1..], rest);
      if IsSpecial(s[0]) {
        assert t == ['\\', s[0]] + u;
        assert t[2..] == u;
      } else {
        assert t == [s[0]] + u;
        assert t[1..] == u;
      }
      assert [s[0]] + s[1..] == s;
    }
  }

  /** Quoting adds no character but backslashes and quotes. */
  lemma {:induction false} EscapedKeeps(s: string, c: char)
    requires c !in s && !IsSpecial(c)
    ensures c !in Escaped(s) && c !in Quoted(s)
  {
    if s != "" {
      EscapedKeeps(s[1..], c);
    }
  }

  // ---------------------------------------------------------------------------
  // Numbers
  // ---------------------------------------------------------------------------

  predicate IsXDigit(c: char) {
    IsDigit(c) || 'a' <= c <= 'f' || 'A' <= c <= 'F'
  }

  /** A decimal number without leading zeros. */
  predicate IntValid(s: string) {
    var d := if |s| > 0 && s[0] == '-' then s[1..] else s;
    |d| > 0 && All(d, IsDigit) && (d[0] == '0' ==> |d| == 1)
  }

  /** A hexadecimal number, with or without 0x. */
  predicate HexValid(s: string) {
    var d := if |s| > 1 && s[0] == '0' && (s[1] == 'x' || s[1] == 'X') then s[2..] else s;
    |d| > 0 && All(d, IsXDigit)
  }

  /** An int value is the decimal notation of a number, or "-0". */
  lemma IntValidExact(s: string)
    ensures IntValid(s) <==> s == "-0" || exists n: nat :: s == Decimal(n) || (n > 0 && s == "-" + Decimal(n))
  {
    assert Decimal(0) == "0";
    if IntValid(s) {
      var d := if s[0] == '-' then s[1..] else s;
      var n := DigitsAreDecimal(d);
      assert s[0] == '-' ==> s == "-" + d;
      assert s == Decimal(n) || s == "-" + Decimal(n);
    }
    if n: nat :| s == Decimal(n) || (n > 0 && s == "-" + Decimal(n)) {
      DecimalLeads(n);
      assert Decimal(n)[0] in Decimal(n) && s[0] == '-' ==> s[1..] == Decimal(n);
    }
  }

  /** A hex value is one or more hexadecimal digits, with 0x or 0X before them or not. */
  lemma HexValidExact(s: string)
    ensures HexValid(s) <==> exists d :: d != "" && All(d, IsXDigit) && (s == d || s == "0x" + d || s == "0X" + d)
  {
    if HexValid(s) {
      var prefixed := |s| > 1 && s[0] == '0' && (s[1] == 'x' || s[1] == 'X');
      var d := if prefixed then s[2..] else s;
      assert prefixed ==> s == [s[0], s[1]] + d;
      assert d != "" && All(d, IsXDigit);
    }
    if d :| d != "" && All(d, IsXDigit) && (s == d || s == "0x" + d || s == "0X" + d) {
      assert s != d ==> s[2..] == d;
      assert s == d && |s| > 1 ==> IsXDigit(s[1]);
    }
  }

  /** sym_string_valid, for the types that keep their text. */
  predicate TextValid(t: SymbolType, s: string) {
    match t
    case Text => true
    case Integer => IntValid(s)
    case Hexadecimal => HexValid(s)
    case _ => false
  }

  /** sym_string_valid. */
  method SymStringValid(t: SymbolType, s: string) returns (ok: bool)
    requires t == Integer || t == Hexadecimal || t == Text
    ensures ok == TextValid(t, s)
  {
    if t == Text {
      return true;
    }
    var i := 0;
    if t == Integer {
      if i < |s| && s[i] == '-' {
        i := i + 1;
      }
      if i == |s| || !IsDigit(s[i]) {
        return false;
      }
      if s[i] == '0' && i + 1 < |s| {
        return false;
      }
    } else {
      if |s| > 1 && s[0] == '0' && (s[1] == 'x' || s[1] == 'X') {
        i := 2;
      }
      if i == |s| {
        return false;
      }
    }
    ghost var from := i;
    while i < |s|
      invariant from <= i <= |s| && from < |s|
      invariant forall k :: from <= k < i ==> if t == Integer then IsDigit(s[k]) else IsXDigit(s[k])
    {
      if (t == Integer && !IsDigit(s[i])) || (t == Hexadecimal && !IsXDigit(s[i])) {
        ghost var d := s[from..];
        assert d[i - from] == s[i];
        return false;
      }
      i := i + 1;
    }
    return true;
  }

  // ---------------------------------------------------------------------------
  // Writing
  // ---------------------------------------------------------------------------

  /** What the file is made of: symbols with their values, and titles of menus. */
  datatype Entry = Symbol(name: string, kind: SymbolType, val: UserVal) | Title(text: string)

  /** A value a symbol of the kind can have. */
  predicate ValOk(t: SymbolType, v: UserVal) {
    match t
    case Boolean => v == Tri(0) || v == Tri(2)
    case Tristated => v == Tri(0) || v == Tri(1) || v == Tri(2)
    case Unknown => false
    case _ => v.Str? && TextValid(t, v.s)
  }

  function TriText(t: int): string {
    if t == 0 then "n" else if t == 1 then "m" else "y"
  }

  /** The text of a value, as conf_write_symbol hands it on. */
  function ValText(t: SymbolType, v: UserVal): string {
    match v
    case Unset => ""
    case Tri(x) => TriText(x)
    case Str(s) => if t == Text then Quoted(s) else s
  }

  /** What is printed for an entry. */
  function Printed(e: Entry): string {
    match e
    case Title(text) => "\n#\n# " + text + "\n#\n"
    case Symbol(name, t, v) =>
      if v == Tri(0) then "# " + PREFIX + name + " " + NOT_SET + "\n"
      else PREFIX + name + "=" + ValText(t, v) + "\n"
  }

  function PrintedAll(es: seq<Entry>): string {
    if es == [] then "" else PrintedAll(es[..|es| - 1]) + Printed(es[|es| - 1])
  }

  // ---------------------------------------------------------------------------
  // Reading
  // ---------------------------------------------------------------------------

  datatype Parsed = Ignored | NotSet(name: string) | Assigned(name: string, val: string)

  /** What a line says; the newline at its end is part of it. */
  function Parse(line: string): Parsed {
    if StartsWith(line, "#") then
      if |line| < 2 || !StartsWith(line[2..], PREFIX) then Ignored
      else
        var rest := line[2 + |PREFIX|..];
        var i := IndexOf(rest, ' ');
        if i == |rest| || !StartsWith(rest[i + 1..], NOT_SET) then Ignored else NotSet(rest[..i])
    else if StartsWith(line, PREFIX) then
      var rest := line[|PREFIX|..];
      var i := IndexOf(rest, '=');
      if i == |rest| then Ignored else Assigned(rest[..i], ValueOf(rest[i + 1..]))
    else Ignored
  }

  /** Without the carriage return that may end it. */
  function Stripped(v: string): string {
    if |v| > 0 && v[|v| - 1] == '\r' then v[..|v| - 1] else v
  }

  /** The value without the end of the line. */
  function ValueOf(s: string): string {
    Stripped(s[..IndexOf(s, '\n')])
  }

  /** conf_set_sym_val: the value that is set, if one is. */
  function ValueFor(t: SymbolType, s: string): Option<UserVal> {
    match t
    case Unknown => None
    case Text =>
      if !StartsWith(s, "\"") then None
      else if Unescape(s[1..]).Some? then Some(Str(Unescape(s[1..]).value)) else None
    case Boolean => if StartsWith(s, "y") then Some(Tri(2)) else if StartsWith(s, "n") then Some(Tri(0)) else None
    case Tristated =>
      if StartsWith(s, "m") then Some(Tri(1)) else if StartsWith(s, "y") then Some(Tri(2))
      else if StartsWith(s, "n") then Some(Tri(0)) else None
    case _ => if TextValid(t, s) then Some(Str(s)) else None
  }

  type Values = map<string, UserVal>

  /** The values after a line; `kinds` are the symbols there are. */
  function AfterLine(kinds: map<string, SymbolType>, vals: Values, line: string): Values {
    match Parse(line)
    case Ignored => vals
    case NotSet(name) =>
      if name in kinds && (kinds[name] == Boolean || kinds[name] == Tristated) then vals[name := Tri(0)] else vals
    case Assigned(name, s) =>
      if name in kinds && ValueFor(kinds[name], s).Some? then vals[name := ValueFor(kinds[name], s).value] else vals
  }

  /** The values after all the lines of a text. */
  function AfterText(kinds: map<string, SymbolType>, vals: Values, text: string): Values
    decreases |text|
  {
    var i := IndexOf(text, '\n');
    if i == |text| then vals else AfterText(kinds, AfterLine(kinds, vals, text[..i + 1]), text[i + 1..])
  }

  /** One line at a time. */
  lemma OneLineMore(kinds: map<string, SymbolType>, vals: Values, line: string, rest: string)
    requires '\n' !in line
    ensures AfterText(kinds, vals, line + "\n" + rest) == AfterText(kinds, AfterLine(kinds, vals, line + "\n"), rest)
  {
    var text := line + "\n" + rest;
    IndexIs(line, '\n', rest);
    assert text == line + ['\n'] + rest;
    assert text[..|line| + 1] == line + "\n" && text[|line| + 1..] == rest;
  }

  // ---------------------------------------------------------------------------
  // Round trip
  // ---------------------------------------------------------------------------

  /** A name as the Kconfig language has them: none of the characters that end it in a line. */
  predicate NameOk(name: string) {
    ' ' !in name && '=' !in name && '\n' !in name
  }

  /** The symbol that a title seems to unset when it is read as a line about a symbol. */
  function Unsets(title: string): Option<string> {
    if !StartsWith(title, PREFIX) then None
    else
      var rest := title[|PREFIX|..];
      var i := IndexOf(rest, ' ');
      if i == |rest| || !StartsWith(rest[i + 1..], NOT_SET) then None else Some(rest[..i])
  }

  /** What can stand in a file at all: titles are one line, and values fit their types. */
  predicate Fair(e: Entry) {
    match e
    case Title(text) => '\n' !in text
    case Symbol(name, t, v) => NameOk(name) && ValOk(t, v)
  }

  /** Nor has a string a newline in it. */
  predicate Plain(e: Entry) {
    Fair(e) && (e.Symbol? && e.val.Str? ==> '\n' !in e.val.s)
  }

  predicate CanUnset(kinds: map<string, SymbolType>, name: string) {
    name in kinds && (kinds[name] == Boolean || kinds[name] == Tristated)
  }

  /** What an entry stands for: a symbol for its value, a title for nothing, unless it reads like a symbol that is not set. */
  function Effect(kinds: map<string, SymbolType>, vals: Values, e: Entry): Values {
    match e
    case Symbol(name, _, v) => vals[name := v]
    case Title(text) =>
      if Unsets(text).Some? && CanUnset(kinds, Unsets(text).value) then vals[Unsets(text).value := Tri(0)] else vals
  }

  function Meant(kinds: map<string, SymbolType>, vals: Values, es: seq<Entry>): Values {
    if es == [] then vals else Effect(kinds, Meant(kinds, vals, es[..|es| - 1]), es[|es| - 1])
  }

  /** A line that unsets a symbol. */
  lemma ParseNotSet(name: string)
    requires NameOk(name)
    ensures Parse("# " + PREFIX + name + " " + NOT_SET + "\n") == NotSet(name)
  {
    var line := "# " + PREFIX + name + " " + NOT_SET + "\n";
    var rest := name + [' '] + (NOT_SET + "\n");
    assert line[2..] == PREFIX + rest && line[2 + |PREFIX|..] == rest;
    IndexIs(name, ' ', NOT_SET + "\n");
    assert rest[|name| + 1..] == NOT_SET + "\n" && rest[..|name|] == name;
  }

  /** A line that sets one. */
  lemma ParseAssigned(name: string, val: string)
    requires NameOk(name) && '\n' !in val
    ensures Parse(PREFIX + name + "=" + val + "\n") == Assigned(name, Stripped(val))
  {
    hide Stripped, IndexOf;
    var line, tail := PREFIX + name + "=" + val + "\n", val + "\n";
    var rest := name + ['='] + tail;
    assert line == PREFIX + rest && line[|PREFIX|..] == rest && line[0] == 'C';
    IndexIs(name, '=', tail);
    assert rest[|name| + 1..] == tail && rest[..|name|] == name;
    assert val + ['\n'] + "" == tail;
    IndexIs(val, '\n', "");
    assert tail[..|val|] == val;
  }

  /** The text of a value gives the value back. */
  lemma ValueRoundTrip(t: SymbolType, v: UserVal)
    requires ValOk(t, v) && (v.Str? ==> '\n' !in v.s)
    ensures ValueFor(t, ValText(t, v)) == Some(v)
    ensures '\n' !in ValText(t, v)
    ensures var s := ValText(t, v); |s| > 0 && s[|s| - 1] != '\r'
  {
    assert "y"[..1] == "y" && "m"[..1] == "m" && "n"[..1] == "n";
    if t == Text {
      var s := v.s;
      UnescapeEscaped(s, "");
      assert Quoted(s)[..1] == "\"";
      assert Quoted(s)[1..] == Escaped(s) + "\"" + "";
      EscapedKeeps(s, '\n');
    }
  }

  /** The newline at the end of a line is no part of a constant. */
  lemma StartsBeforeNewline(s: string, w: string)
    requires '\n' !in w
    ensures StartsWith(s + "\n", w) <==> StartsWith(s, w)
  {
    if |w| <= |s| {
      assert (s + "\n")[..|w|] == s[..|w|];
    } else if |w| == |s| + 1 {
      assert (s + "\n")[..|w|][|s|] == '\n' && w[|s|] in w;
    }
  }

  lemma {:induction false} IndexBeforeNewline(s: string, c: char)
    requires c != '\n'
    ensures IndexOf(s + "\n", c) == if IndexOf(s, c) == |s| then |s| + 1 else IndexOf(s, c)
  {
    if s == "" {
      assert s + "\n" == "\n" && IndexOf("", c) == 0;
      assert "\n"[1..] == "";
    } else if s[0] != c {
      assert (s + "\n")[1..] == s[1..] + "\n";
      IndexBeforeNewline(s[1..], c);
    }
  }

  /** The lines that are written, letter by letter. */
  lemma TristateFormat(name: string, kind: SymbolType, t: int)
    requires 0 <= t <= 2
    ensures Printed(Symbol(name, kind, Tri(t))) ==
      if t == 2 then "CONFIG_" + name + "=y\n" else if t == 1 then "CONFIG_" + name + "=m\n" else "# CONFIG_" + name + " is not set\n"
  {
    var a := "CONFIG_" + name;
    if t == 0 {
      assert "# " + PREFIX == "# CONFIG_" && " " + NOT_SET == " is not set";
      assert "# " + PREFIX + name + " " + NOT_SET + "\n" == ("# " + PREFIX) + name + (" " + NOT_SET) + "\n";
      assert " is not set" + "\n" == " is not set\n";
      assert "# CONFIG_" + name + " is not set" + "\n" == "# CONFIG_" + name + (" is not set" + "\n");
    } else {
      var v := if t == 2 then "y" else "m";
      assert ("=" + v) + "\n" == if t == 2 then "=y\n" else "=m\n";
      assert a + "=" + v + "\n" == a + (("=" + v) + "\n");
    }
  }

  lemma TextFormat(name: string, text: string)
    ensures Printed(Symbol(name, Integer, Str(text))) == "CONFIG_" + name + "=" + text + "\n"
    ensures Printed(Symbol(name, Hexadecimal, Str(text))) == "CONFIG_" + name + "=" + text + "\n"
    ensures Printed(Symbol(name, Text, Str(text))) == "CONFIG_" + name + "=" + ("\"" + Escaped(text) + "\"") + "\n"
  {
    hide Escaped;
  }

  /** The value of a symbol once a line has been read: it was set to v, or is what it was. */
  function Given(vals: Values, name: string, v: Option<UserVal>): Values {
    if v.Some? then vals[name := v.value] else vals
  }

  predicate Begins(s: string, c: char) {
    s != "" && s[0] == c
  }

  /** What a line that assigns to a symbol does, whoever wrote it: one letter decides for tristates and booleans. */
  lemma AssignedLine(kinds: map<string, SymbolType>, vals: Values, name: string, val: string)
    requires NameOk(name) && '\n' !in val && name in kinds
    ensures var w := Stripped(val); var after := AfterLine(kinds, vals, "CONFIG_" + name + "=" + val + "\n");
      match kinds[name]
      case Tristated => after == Given(vals, name,
        if Begins(w, 'm') then Some(Tri(1)) else if Begins(w, 'y') then Some(Tri(2)) else if Begins(w, 'n') then Some(Tri(0)) else None)
      case Boolean => after == Given(vals, name,
        if Begins(w, 'y') then Some(Tri(2)) else if Begins(w, 'n') then Some(Tri(0)) else None)
      case Text => after == Given(vals, name,
        if Begins(w, '"') && Unescape(w[1..]).Some? then Some(Str(Unescape(w[1..]).value)) else None)
      case Unknown => after == vals
      case _ => after == Given(vals, name, if TextValid(kinds[name], w) then Some(Str(w)) else None)
  {
    hide Stripped, Unescape, TextValid;
    ParseAssigned(name, val);
    var w := Stripped(val);
    assert w != "" ==> w[..1] == [w[0]];
  }

  /** A carriage return before the newline makes no difference. */
  lemma AssignedReturn(kinds: map<string, SymbolType>, vals: Values, name: string, val: string)
    requires NameOk(name) && '\n' !in val && (val == "" || val[|val| - 1] != '\r')
    ensures AfterLine(kinds, vals, "CONFIG_" + name + "=" + (val + "\r") + "\n") == AfterLine(kinds, vals, "CONFIG_" + name + "=" + val + "\n")
  {
    hide ValueFor, Parse;
    ParseAssigned(name, val);
    ParseAssigned(name, val + "\r");
    assert (val + "\r")[..|val|] == val;
  }

  /** What the line of a title says. */
  lemma ParseTitle(text: string)
    ensures Parse("# " + text + "\n") == if Unsets(text).Some? then NotSet(Unsets(text).value) else Ignored
  {
    hide IndexOf, StartsWith;
    var line, t := "# " + text + "\n", text + "\n";
    assert line[2..] == t && StartsWith(line, "#") by { Hashed(text); }
    StartsBeforeNewline(text, PREFIX);
    if StartsWith(text, PREFIX) {
      PrefixIsThere(text, PREFIX);
      var rest := text[|PREFIX|..];
      assert line[2 + |PREFIX|..] == rest + "\n";
      IndexBeforeNewline(rest, ' ');
      var i := IndexOf(rest, ' ');
      if i < |rest| {
        assert (rest + "\n")[i + 1..] == rest[i + 1..] + "\n" && (rest + "\n")[..i] == rest[..i];
        StartsBeforeNewline(rest[i + 1..], NOT_SET);
      }
    }
  }

  lemma Hashed(text: string)
    ensures StartsWith("# " + text + "\n", "#") && ("# " + text + "\n")[2..] == text + "\n"
  {
    assert ("# " + text + "\n")[..1] == "#";
  }

  lemma PrefixIsThere(s: string, p: string)
    requires StartsWith(s, p)
    ensures |p| <= |s|
  {
  }

  /** A title is three lines of comment after an empty one. */
  lemma TitleRoundTrip(kinds: map<string, SymbolType>, vals: Values, text: string, rest: string)
    requires '\n' !in text
    ensures AfterText(kinds, vals, Printed(Title(text)) + rest) == AfterText(kinds, Effect(kinds, vals, Title(text)), rest)
  {
    hide AfterText, StartsWith, IndexOf, Unsets;
    var last := "#" + "\n" + rest;
    var third := "# " + text + "\n" + last;
    var second := "#" + "\n" + third;
    var after := Effect(kinds, vals, Title(text));
    assert Printed(Title(text)) + rest == "" + "\n" + second;
    BlankIgnored();
    ParseTitle(text);
    OneLineMore(kinds, vals, "", second);
    OneLineMore(kinds, vals, "#", third);
    OneLineMore(kinds, vals, "# " + text, last);
    OneLineMore(kinds, after, "#", rest);
  }

  lemma BlankIgnored()
    ensures Parse("" + "\n") == Ignored && Parse("#" + "\n") == Ignored
  {
    assert ("#" + "\n")[2..] == "";
  }

  lemma SymbolRoundTrip(kinds: map<string, SymbolType>, vals: Values, e: Entry, rest: string)
    requires e.Symbol? && Plain(e) && e.name in kinds && kinds[e.name] == e.kind
    ensures AfterText(kinds, vals, Printed(e) + rest) == AfterText(kinds, vals[e.name := e.val], rest)
  {
    hide AfterText, StartsWith, IndexOf, ValText, ValueFor;
    var name, s := e.name, ValText(e.kind, e.val);
    ValueRoundTrip(e.kind, e.val);
    if e.val == Tri(0) {
      var line := "# " + PREFIX + name + " " + NOT_SET;
      ParseNotSet(name);
      OneLineMore(kinds, vals, line, rest);
      assert Printed(e) + rest == line + "\n" + rest;
    } else {
      var line := PREFIX + name + "=" + s;
      ParseAssigned(name, s);
      OneLineMore(kinds, vals, line, rest);
      assert Printed(e) + rest == line + "\n" + rest;
    }
  }

  /** An entry is read as what it stands for. */
  lemma EntryRoundTrip(kinds: map<string, SymbolType>, vals: Values, e: Entry, rest: string)
    requires Plain(e) && (e.Symbol? ==> e.name in kinds && kinds[e.name] == e.kind)
    ensures AfterText(kinds, vals, Printed(e) + rest) == AfterText(kinds, Effect(kinds, vals, e), rest)
  {
    hide AfterText, Printed, Unsets;
    if e.Title? {
      TitleRoundTrip(kinds, vals, e.text, rest);
    } else {
      SymbolRoundTrip(kinds, vals, e, rest);
    }
  }

  predicate InTable(kinds: map<string, SymbolType>, es: seq<Entry>) {
    forall i :: 0 <= i < |es| && es[i].Symbol? ==> es[i].name in kinds && kinds[es[i].name] == es[i].kind
  }

  predicate DistinctNames(es: seq<Entry>) {
    forall i, j :: 0 <= i < j < |es| && es[i].Symbol? && es[j].Symbol? ==> es[i].name != es[j].name
  }

  lemma {:induction false} ReadBack(kinds: map<string, SymbolType>, vals: Values, es: seq<Entry>, rest: string)
    requires InTable(kinds, es) && forall i :: 0 <= i < |es| ==> Plain(es[i])
    ensures AfterText(kinds, vals, PrintedAll(es) + rest) == AfterText(kinds, Meant(kinds, vals, es), rest)
  {
    hide AfterText, Printed, Plain, Effect;
    if es == [] {
      assert PrintedAll(es) + rest == rest;
    } else {
      var n := |es| - 1;
      ReadBack(kinds, vals, es[..n], Printed(es[n]) + rest);
      assert PrintedAll(es) + rest == PrintedAll(es[..n]) + (Printed(es[n]) + rest);
      EntryRoundTrip(kinds, Meant(kinds, vals, es[..n]), es[n], rest);
    }
  }

  /** The i-th entry is a symbol that a title after it unsets. */
  predicate UnsetAfter(es: seq<Entry>, i: nat)
    requires i < |es| && es[i].Symbol?
  {
    && (es[i].kind == Boolean || es[i].kind == Tristated)
    && exists j :: i < j < |es| && es[j].Title? && Unsets(es[j].text) == Some(es[i].name)
  }

  /** With distinct names each symbol ends up with its own value, or is unset by a title. */
  lemma {:induction false} MeantIsEach(kinds: map<string, SymbolType>, vals: Values, es: seq<Entry>, i: nat)
    requires InTable(kinds, es) && DistinctNames(es) && i < |es| && es[i].Symbol?
    ensures var m := Meant(kinds, vals, es); es[i].name in m && m[es[i].name] == if UnsetAfter(es, i) then Tri(0) else es[i].val
  {
    hide Unsets;
    var n := |es| - 1;
    if i < n {
      MeantIsEach(kinds, vals, es[..n], i);
      var e := es[n];
      if e.Title? && Unsets(e.text) == Some(es[i].name) && CanUnset(kinds, es[i].name) {
        assert UnsetAfter(es, i);
      } else {
        assert UnsetAfter(es, i) <==> UnsetAfter(es[..n], i);
      }
    }
  }

  /** No entry is a symbol of this name, and no title unsets it. */
  predicate Untouched(es: seq<Entry>, name: string) {
    forall i :: 0 <= i < |es| ==> if es[i].Symbol? then es[i].name != name else Unsets(es[i].text) != Some(name)
  }

  /** Everything else is left alone. */
  lemma {:induction false} MeantLeaves(kinds: map<string, SymbolType>, vals: Values, es: seq<Entry>, name: string)
    requires Untouched(es, name) && name in vals
    ensures Same(vals, Meant(kinds, vals, es), name)
  {
    hide Unsets;
    if es != [] {
      MeantLeaves(kinds, vals, es[..|es| - 1], name);
    }
  }

  predicate Same(a: Values, b: Values, name: string) {
    name in a && name in b && a[name] == b[name]
  }

  predicate Restored(after: Values, es: seq<Entry>) {
    forall i :: 0 <= i < |es| && es[i].Symbol? ==> es[i].name in after && after[es[i].name] == es[i].val
  }

  /** No title unsets a symbol before it that has another value than n. */
  predicate TitlesHarmless(es: seq<Entry>) {
    forall i :: 0 <= i < |es| && es[i].Symbol? && UnsetAfter(es, i) ==> es[i].val == Tri(0)
  }

  /** Without newlines in strings: what is restored when a text is written and read back. */
  lemma WriteThenRead(kinds: map<string, SymbolType>, vals: Values, es: seq<Entry>)
    requires InTable(kinds, es) && DistinctNames(es) && forall i :: 0 <= i < |es| ==> Plain(es[i])
    ensures var after := AfterText(kinds, vals, PrintedAll(es));
      && (Restored(after, es) <==> TitlesHarmless(es))
      && (forall name :: name in vals && Untouched(es, name) ==> Same(vals, after, name))
  {
    hide AfterText, Meant, Plain, UnsetAfter, Untouched, DistinctNames;
    ReadBack(kinds, vals, es, "");
    assert PrintedAll(es) + "" == PrintedAll(es);
    var after := Meant(kinds, vals, es);
    NoLines(kinds, after);
    forall i | 0 <= i < |es| && es[i].Symbol?
      ensures es[i].name in after && after[es[i].name] == if UnsetAfter(es, i) then Tri(0) else es[i].val
    {
      MeantIsEach(kinds, vals, es, i);
    }
    forall name | name in vals && Untouched(es, name)
      ensures Same(vals, after, name)
    {
      MeantLeaves(kinds, vals, es, name);
    }
  }

  // ---------------------------------------------------------------------------
  // Strings with newlines
  // ---------------------------------------------------------------------------

  /** No quote without a backslash before it. */
  predicate QuotesEscaped(f: string) {
    forall k :: 0 <= k < |f| && f[k] == '"' ==> k > 0 && f[k - 1] == '\\'
  }

  lemma {:induction false} EscapedQuotes(s: string)
    ensures QuotesEscaped(Escaped(s))
  {
    if s != "" {
      EscapedQuotes(s[1..]);
      var t, u := Escaped(s), Escaped(s[1..]);
      var n := |t| - |u|;
      assert forall k :: n <= k < |t| ==> t[k] == u[k - n];
    }
  }

  lemma {:induction false} EscapedAppend(a: string, b: string)
    ensures Escaped(a + b) == Escaped(a) + Escaped(b)
  {
    if a == "" {
      assert a + b == b;
    } else {
      EscapedAppend(a[1..], b);
      assert (a + b)[1..] == a[1..] + b && (a + b)[0] == a[0];
      var c := if IsSpecial(a[0]) then ['\\', a[0]] else [a[0]];
      assert c + (Escaped(a[1..]) + Escaped(b)) == (c + Escaped(a[1..])) + Escaped(b);
    }
  }

  lemma TakePast(a: string, b: string, n: nat)
    requires |a| <= n <= |a| + |b|
    ensures (a + b)[..n] == a + b[..n - |a|] && (a + b)[..n][|a|..] == b[..n - |a|]
  {
  }

  /** Without the closing quote there is nothing to read, wherever the text is cut. */
  lemma {:induction false} UnescapeOpen(s: string, n: nat)
    requires n <= |Escaped(s)|
    ensures Unescape(Escaped(s)[..n]) == None
  {
    if n > 1 {
      var t, u := Escaped(s), Escaped(s[1..]);
      if IsSpecial(s[0]) {
        UnescapeOpen(s[1..], n - 2);
        TakePast(['\\', s[0]], u, n);
        assert t == ['\\', s[0]] + u;
      } else {
        UnescapeOpen(s[1..], n - 1);
        TakePast([s[0]], u, n);
        assert t == [s[0]] + u;
      }
    }
  }

  lemma ValueIsPrefix(s: string)
    ensures ValueOf(s) <= s
  {
  }

  /** A value that starts with a quote, on a line with no unescaped quote but at its end, is that quote. */
  lemma LoneQuote(f: string, closed: bool, p: nat)
    requires QuotesEscaped(f) && '\n' !in f
    requires var line := f + (if closed then "\"" else "") + "\n";
      0 < p < |line| && line[p - 1] == '=' && StartsWith(ValueOf(line[p..]), "\"")
    ensures ValueOf((f + (if closed then "\"" else "") + "\n")[p..]) == "\""
  {
    var line := f + (if closed then "\"" else "") + "\n";
    var v := ValueOf(line[p..]);
    ValueIsPrefix(line[p..]);
    assert v[0] == '"' && line[p..][0] == line[p];
    assert line[..|f|] == f;
    assert p >= |f|;
    assert line[p..] == "\"" + ['\n'] + "";
    IndexIs("\"", '\n', "");
  }

  lemma NoOpenString()
    ensures ValueFor(Text, "\"") == None
  {
    assert "\""[1..] == "";
  }

  /** Where the value of an assignment starts. */
  lemma AssignedAfter(line: string) returns (p: nat)
    requires Parse(line).Assigned?
    ensures 0 < p <= |line| && line[p - 1] == '=' && Parse(line).val == ValueOf(line[p..])
  {
    hide ValueOf;
    var i := IndexOf(line[|PREFIX|..], '=');
    p := |PREFIX| + i + 1;
    assert line[|PREFIX|..][i + 1..] == line[p..];
  }

  /** Such a line sets no string. */
  lemma FragmentSetsNothing(kinds: map<string, SymbolType>, vals: Values, f: string, closed: bool, name: string)
    requires QuotesEscaped(f) && '\n' !in f && name in kinds && kinds[name] == Text && name in vals
    ensures Same(vals, AfterLine(kinds, vals, f + (if closed then "\"" else "") + "\n"), name)
  {
    hide Parse, ValueOf, Unescape, QuotesEscaped, StartsWith, IntValid, HexValid;
    var line := f + (if closed then "\"" else "") + "\n";
    if Parse(line).Assigned? && Parse(line).name == name {
      var p := AssignedAfter(line);
      var v := ValueOf(line[p..]);
      if StartsWith(v, "\"") {
        NotAtTheEnd(line, p);
        LoneQuote(f, closed, p);
        NoOpenString();
      }
    }
  }

  lemma NotAtTheEnd(line: string, p: nat)
    requires p <= |line| && StartsWith(ValueOf(line[p..]), "\"")
    ensures p < |line|
  {
    ValueIsPrefix(line[p..]);
  }

  /** The lines after the first of a string that is printed with newlines set no string. */
  lemma {:induction false} FragmentsSetNothing(kinds: map<string, SymbolType>, vals: Values, f: string, name: string)
    requires QuotesEscaped(f) && name in kinds && kinds[name] == Text && name in vals
    ensures Same(vals, AfterText(kinds, vals, f + "\"\n"), name)
    decreases |f|
  {
    hide AfterText, AfterLine;
    var i := IndexOf(f, '\n');
    if i == |f| {
      assert f[..i] == f;
      FragmentSetsNothing(kinds, vals, f, true, name);
      assert f + "\"\n" == (f + "\"") + "\n" + "";
      OneLineMore(kinds, vals, f + "\"", "");
      NoLines(kinds, AfterLine(kinds, vals, f + "\"" + "\n"));
    } else {
      var a, b := f[..i], f[i + 1..];
      assert f + "\"\n" == a + "\n" + (b + "\"\n");
      OneLineMore(kinds, vals, a, b + "\"\n");
      assert a + "" + "\n" == a + "\n";
      FragmentSetsNothing(kinds, vals, a, false, name);
      assert forall k :: 0 <= k < |b| ==> b[k] == f[i + 1 + k];
      FragmentsSetNothing(kinds, AfterLine(kinds, vals, a + "\n"), b, name);
    }
  }

  lemma NoLines(kinds: map<string, SymbolType>, vals: Values)
    ensures AfterText(kinds, vals, "") == vals
  {
  }

  /** The first line of such a string: the quote is not closed on it. */
  lemma OpenLineSetsNothing(kinds: map<string, SymbolType>, vals: Values, name: string, a: string)
    requires NameOk(name) && '\n' !in a && (name in kinds ==> kinds[name] == Text)
    ensures AfterLine(kinds, vals, PREFIX + name + "=" + "\"" + Escaped(a) + "\n") == vals
  {
    hide Parse, Unescape, Escaped, NameOk;
    var e := Escaped(a);
    var val := "\"" + e;
    EscapedKeeps(a, '\n');
    ParseAssigned(name, val);
    assert PREFIX + name + "=" + "\"" + e + "\n" == PREFIX + name + "=" + val + "\n";
    var v := Stripped(val);
    assert v[1..] == e[..|v| - 1];
    UnescapeOpen(a, |v| - 1);
  }

  /** Lines first, the rest later. */
  lemma {:induction false} InTwoParts(kinds: map<string, SymbolType>, vals: Values, a: string, b: string)
    requires a == "" || a[|a| - 1] == '\n'
    ensures AfterText(kinds, vals, a + b) == AfterText(kinds, AfterText(kinds, vals, a), b)
    decreases |a|
  {
    hide AfterLine;
    var i := IndexOf(a, '\n');
    if a == "" {
      assert a + b == b;
    } else {
      assert i < |a| by {
        assert a[|a| - 1] in a[..];
      }
      var l, t := a[..i], a[i + 1..];
      assert a == l + "\n" + t && a + b == l + "\n" + (t + b);
      OneLineMore(kinds, vals, l, t);
      OneLineMore(kinds, vals, l, t + b);
      InTwoParts(kinds, AfterLine(kinds, vals, l + "\n"), t, b);
    }
  }

  /** Such a string is printed as a first line and more. */
  lemma PrintedInLines(name: string, a: string, b: string)
    ensures Printed(Symbol(name, Text, Str(a + "\n" + b))) ==
      PREFIX + name + "=" + "\"" + Escaped(a) + "\n" + (Escaped(b) + "\"\n")
  {
    hide Escaped;
    EscapedAppend(a + "\n", b);
    EscapedAppend(a, "\n");
    EscapedNewline();
    var x, y := Escaped(a), Escaped(b);
    assert Quoted(a + "\n" + b) + "\n" == "\"" + x + "\n" + (y + "\"\n");
  }

  /** A string that is printed over several lines sets no string, not even itself. */
  lemma NewlineSetsNothing(kinds: map<string, SymbolType>, vals: Values, e: Entry, name: string)
    requires e.Symbol? && NameOk(e.name) && e.kind == Text && e.val.Str? && '\n' in e.val.s
    requires e.name in kinds && kinds[e.name] == Text && name in kinds && kinds[name] == Text && name in vals
    ensures Same(vals, AfterText(kinds, vals, Printed(e)), name)
  {
    var s, i := e.val.s, IndexOf(e.val.s, '\n');
    assert s[..|s|] == s;
    hide *;
    var a, b := s[..i], s[i + 1..];
    assert s == a + "\n" + b;
    PrintedInLines(e.name, a, b);
    FirstLineAndMore(kinds, vals, e.name, a, b, name);
  }

  lemma FirstLineAndMore(kinds: map<string, SymbolType>, vals: Values, own: string, a: string, b: string, name: string)
    requires NameOk(own) && '\n' !in a && own in kinds && kinds[own] == Text && name in kinds && kinds[name] == Text && name in vals
    ensures Same(vals, AfterText(kinds, vals, PREFIX + own + "=" + "\"" + Escaped(a) + "\n" + (Escaped(b) + "\"\n")), name)
  {
    hide AfterText, AfterLine, Escaped;
    var first, more := PREFIX + own + "=" + "\"" + Escaped(a), Escaped(b) + "\"\n";
    OpenLineSetsNothing(kinds, vals, own, a);
    EscapedKeeps(a, '\n');
    OneLineMore(kinds, vals, first, more);
    EscapedQuotes(b);
    FragmentsSetNothing(kinds, vals, Escaped(b), name);
  }

  lemma EscapedNewline()
    ensures Escaped(['\n']) == "\n"
  {
  }

  /** A symbol of type string keeps its value while others are read. */
  lemma OthersKeep(kinds: map<string, SymbolType>, vals: Values, e: Entry, name: string)
    requires Fair(e) && (e.Symbol? ==> e.name in kinds && kinds[e.name] == e.kind)
    requires name in kinds && kinds[name] == Text && name in vals
    requires Plain(e) ==> e.Title? || e.name != name
    ensures Same(vals, AfterText(kinds, vals, Printed(e)), name)
  {
    hide AfterText, AfterLine, Printed;
    if Plain(e) {
      EntryRoundTrip(kinds, vals, e, "");
      assert Printed(e) + "" == Printed(e);
      NoLines(kinds, Effect(kinds, vals, e));
    } else {
      NumbersArePlain(e);
      NewlineSetsNothing(kinds, vals, e, name);
    }
  }

  /** Only strings can have newlines. */
  lemma NumbersArePlain(e: Entry)
    requires Fair(e) && !Plain(e)
    ensures e.Symbol? && e.kind == Text && e.val.Str? && '\n' in e.val.s
  {
    if e.Symbol? && e.kind == Integer && IntValid(e.val.s) {
      IntHasNoNewline(e.val.s);
    }
    if e.Symbol? && e.kind == Hexadecimal && HexValid(e.val.s) {
      HexHasNoNewline(e.val.s);
    }
  }

  lemma IntHasNoNewline(s: string)
    requires IntValid(s)
    ensures '\n' !in s
  {
    var d := if |s| > 0 && s[0] == '-' then s[1..] else s;
    assert forall k :: 0 <= k < |s| ==> s[k] == '-' || s[k] == d[k - (|s| - |d|)];
  }

  lemma HexHasNoNewline(s: string)
    requires HexValid(s)
    ensures '\n' !in s
  {
    var d := if |s| > 1 && s[0] == '0' && (s[1] == 'x' || s[1] == 'X') then s[2..] else s;
    assert forall k :: 2 <= k < |s| && |d| < |s| ==> s[k] == d[k - 2];
  }

  lemma {:induction false} StaysUnset(kinds: map<string, SymbolType>, vals: Values, es: seq<Entry>, name: string)
    requires InTable(kinds, es) && forall i :: 0 <= i < |es| ==> Fair(es[i])
    requires name in kinds && kinds[name] == Text && name in vals
    requires forall i :: 0 <= i < |es| && Plain(es[i]) ==> es[i].Title? || es[i].name != name
    ensures Same(vals, AfterText(kinds, vals, PrintedAll(es)), name)
  {
    hide AfterText, Printed, Plain, Fair;
    if es == [] {
      NoLines(kinds, vals);
    } else {
      var n := |es| - 1;
      StaysUnset(kinds, vals, es[..n], name);
      EndsInNewline(es[..n]);
      InTwoParts(kinds, vals, PrintedAll(es[..n]), Printed(es[n]));
      OthersKeep(kinds, AfterText(kinds, vals, PrintedAll(es[..n])), es[n], name);
    }
  }

  lemma EndsInNewline(es: seq<Entry>)
    ensures var t := PrintedAll(es); t == "" || t[|t| - 1] == '\n'
  {
  }

  /**
   Writing and reading back, from the state that a load starts in, restores every value if
   and only if no string has a newline in it and no title unsets a symbol that comes before.
   */
  lemma RestoredIff(kinds: map<string, SymbolType>, vals: Values, es: seq<Entry>)
    requires InTable(kinds, es) && DistinctNames(es) && forall i :: 0 <= i < |es| ==> Fair(es[i])
    requires forall i :: 0 <= i < |es| && es[i].Symbol? ==> es[i].name in vals && vals[es[i].name] == Unset
    ensures Restored(AfterText(kinds, vals, PrintedAll(es)), es) <==> TitlesHarmless(es) && OneLineStrings(es)
  {
    hide AfterText, PrintedAll, NameOk, ValOk, StartsWith, TitlesHarmless, Unsets;
    if OneLineStrings(es) {
      WriteThenRead(kinds, vals, es);
    } else {
      var i :| 0 <= i < |es| && es[i].Symbol? && es[i].val.Str? && '\n' in es[i].val.s;
      NumbersArePlain(es[i]);
      StaysUnset(kinds, vals, es, es[i].name);
    }
  }

  const UNSETTING := "CONFIG_X is not set"

  lemma UnsettingUnsets()
    ensures Unsets(UNSETTING) == Some("X")
  {
    assert UNSETTING[..7] == PREFIX && UNSETTING[7..] == "X is not set";
    assert "X is not set" == "X" + [' '] + NOT_SET;
    IndexIs("X", ' ', NOT_SET);
    assert UNSETTING[7..][2..] == NOT_SET && UNSETTING[7..][..1] == "X";
  }

  const LOSING: seq<Entry> := [Symbol("X", Boolean, Tri(2)), Title(UNSETTING)]

  lemma LosingMeans(kinds: map<string, SymbolType>, vals: Values)
    requires "X" in kinds && kinds["X"] == Boolean
    ensures Meant(kinds, vals, LOSING) == vals["X" := Tri(2)]["X" := Tri(0)]
  {
    UnsettingUnsets();
    hide Unsets;
    var first := LOSING[..1];
    assert first[..0] == [] && Meant(kinds, vals, first) == vals["X" := Tri(2)];
  }

  /** The title of a comment takes away the value written before it. */
  lemma TitleMayUnset(kinds: map<string, SymbolType>, vals: Values)
    requires "X" in kinds && kinds["X"] == Boolean
    ensures var after := AfterText(kinds, vals, PrintedAll(LOSING));
      (forall i :: 0 <= i < |LOSING| ==> Plain(LOSING[i])) && "X" in after && after["X"] == Tri(0)
  {
    assert Plain(LOSING[0]) && Plain(LOSING[1]);
    hide AfterText, Unsets, Plain, PrintedAll, Meant;
    ReadBack(kinds, vals, LOSING, "");
    assert PrintedAll(LOSING) + "" == PrintedAll(LOSING);
    LosingMeans(kinds, vals);
    NoLines(kinds, Meant(kinds, vals, LOSING));
  }

  predicate OneLineStrings(es: seq<Entry>) {
    forall i :: 0 <= i < |es| && es[i].Symbol? && es[i].val.Str? ==> '\n' !in es[i].val.s
  }
}
