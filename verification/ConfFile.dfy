/**
 Reading and writing configuration files the way the code does it: a string that is
 escaped piece by piece, a line buffer that is cut with null characters, and a value that
 is unescaped in place by moving the rest of the text down.
 */
module ConfFile {
  import opened Wrappers
  import opened KconfigExpr
  import opened ConfText

  // ---------------------------------------------------------------------------
  // Writing
  // ---------------------------------------------------------------------------

  lemma EscapedSteps(s: string, p: nat, q: nat)
    requires p <= q <= |s| && forall k :: p <= k < q ==> !IsSpecial(s[k])
    ensures Escaped(s[..q]) == Escaped(s[..p]) + s[p..q]
    ensures q < |s| && IsSpecial(s[q]) ==> Escaped(s[..q + 1]) == Escaped(s[..q]) + ['\\', s[q]]
  {
    assert s[..q] == s[..p] + s[p..q];
    EscapedAppend(s[..p], s[p..q]);
    PlainEscaped(s[p..q]);
    if q < |s| && IsSpecial(s[q]) {
      assert s[..q + 1] == s[..q] + [s[q]];
      EscapedAppend(s[..q], [s[q]]);
      assert [s[q]][1..] == [];
    }
  }

  lemma {:induction false} PlainEscaped(s: string)
    requires forall k :: 0 <= k < |s| ==> !IsSpecial(s[k])
    ensures Escaped(s) == s
  {
    if s != "" {
      PlainEscaped(s[1..]);
    }
  }

  lemma EscapedNothing()
    ensures Escaped("") == ""
  {
  }

  /** sym_escape_string_value, without the computation of the buffer's size. */
  method EscapeString(s: string) returns (res: string)
    ensures res == Quoted(s)
  {
    hide Escaped;
    EscapedNothing();
    res := "\"";
    var p := 0;
    while true
      invariant p <= |s| && res == "\"" + Escaped(s[..p])
      decreases |s| - p
    {
      var q := p;
      while q < |s| && s[q] != '"' && s[q] != '\\'
        invariant p <= q <= |s| && forall k :: p <= k < q ==> !IsSpecial(s[k])
      {
        q := q + 1;
      }
      EscapedSteps(s, p, q);
      res := res + s[p..q];
      p := q;
      if p == |s| {
        break;
      }
      res := res + "\\" + [s[p]];
      p := p + 1;
    }
    assert s[..p] == s;
    res := res + "\"";
  }

  lemma TriTexts()
    ensures StartsWith(TriText(0), "n") && !StartsWith(TriText(1), "n") && !StartsWith(TriText(2), "n")
  {
    assert TriText(1)[..1] == "m" && TriText(2)[..1] == "y" && TriText(0)[..1] == "n";
    assert "m"[0] != "n"[0] && "y"[0] != "n"[0];
  }

  /** The file that is written. */
  class ConfWriter {
    var text: string

    constructor ()
      ensures text == ""
    {
      text := "";
    }

    /** kconfig_print_symbol, with every symbol printed. */
    method PrintSymbol(name: string, t: SymbolType, value: string)
      modifies this
      ensures text == old(text) + (
        if (t == Boolean || t == Tristated) && StartsWith(value, "n") then "# " + PREFIX + name + " " + NOT_SET + "\n"
        else PREFIX + name + "=" + value + "\n")
    {
      if t == Boolean || t == Tristated {
        if |value| > 0 && value[0] == 'n' {
          text := text + ("# " + PREFIX + name + " " + NOT_SET + "\n");
          return;
        }
      }
      text := text + (PREFIX + name + "=" + value + "\n");
    }

    /** conf_write_symbol, and the title of a menu as conf_write prints it. */
    method WriteEntry(e: Entry)
      requires e.Symbol? ==> ValOk(e.kind, e.val)
      modifies this
      ensures text == old(text) + Printed(e)
    {
      match e {
        case Title(title) => text := text + ("\n#\n# " + title + "\n#\n");
        case Symbol(name, t, v) =>
          var value;
          if t == Text {
            value := EscapeString(v.s);
          } else {
            value := ValText(t, v);
          }
          TriTexts();
          PrintSymbol(name, t, value);
      }
    }

    method WriteAll(es: seq<Entry>)
      requires forall i :: 0 <= i < |es| && es[i].Symbol? ==> ValOk(es[i].kind, es[i].val)
      modifies this
      ensures text == old(text) + PrintedAll(es)
    {
      hide Printed, ValOk;
      var i := 0;
      while i < |es|
        invariant i <= |es| && text == old(text) + PrintedAll(es[..i])
      {
        WriteEntry(es[i]);
        assert es[..i + 1][..i] == es[..i];
        i := i + 1;
      }
      assert es[..i] == es;
    }
  }

  // ---------------------------------------------------------------------------
  // The line buffer
  // ---------------------------------------------------------------------------

  /** A string of C: the text from `p` on, and its null character. */
  predicate CStr(b: seq<char>, p: nat, s: string) {
    && p + |s| < |b| && b[p..p + |s|] == s && b[p + |s|] == '\0' && '\0' !in s
  }

  /** As CStr; where the text is not empty a second null character follows, left by the newline that was cut. */
  predicate Tail(b: seq<char>, p: nat, s: string) {
    CStr(b, p, s) && (s != "" ==> p + |s| + 1 < |b| && b[p + |s| + 1] == '\0')
  }

  /** strchr: the place of the first `c`, or of the end of the string. */
  method StrChr(buf: array<char>, p: nat, c: char, ghost s: string) returns (q: nat)
    requires CStr(buf[..], p, s) && c != '\0'
    ensures q == p + IndexOf(s, c) && q < buf.Length
  {
    q := p;
    while buf[q] != '\0' && buf[q] != c
      invariant p <= q <= p + |s| && c !in s[..q - p]
      decreases p + |s| - q
    {
      assert buf[..][p..p + |s|][q - p] == buf[q];
      assert s[..q - p + 1] == s[..q - p] + [s[q - p]];
      q := q + 1;
    }
    if q < p + |s| {
      assert buf[..][p..p + |s|][q - p] == buf[q];
      assert s[q - p] in s;
      assert s == s[..q - p] + [c] + s[q - p + 1..];
      IndexIs(s[..q - p], c, s[q - p + 1..]);
    } else {
      assert s[..|s|] == s;
    }
  }

  /** memcmp and strncmp against a constant. */
  method HasPrefix(buf: array<char>, p: nat, w: string, ghost s: string) returns (r: bool)
    requires CStr(buf[..], p, s) && '\0' !in w
    ensures r == StartsWith(s, w)
  {
    var i := 0;
    while i < |w| && buf[p + i] == w[i]
      invariant i <= |w| && i <= |s| && s[..i] == w[..i]
    {
      assert w[i] in w;
      if i < |s| {
        assert buf[..][p..p + |s|][i] == buf[p + i];
      }
      i := i + 1;
    }
    if i < |w| && i < |s| {
      assert buf[..][p..p + |s|][i] == buf[p + i];
    }
    return i == |w|;
  }

  /** The text of a string of C. */
  method Get(buf: array<char>, p: nat, ghost s: string) returns (r: string)
    requires CStr(buf[..], p, s)
    ensures r == s
  {
    var q := p;
    while buf[q] != '\0'
      invariant p <= q <= p + |s|
      decreases p + |s| - q
    {
      assert buf[..][p..p + |s|][q - p] == buf[q];
      q := q + 1;
    }
    return buf[p..q];
  }

  // ---------------------------------------------------------------------------
  // Unescaping in place
  // ---------------------------------------------------------------------------

  /** The place of the first quote or backslash, or of the end of the string. */
  function SpecialAt(s: string): (i: nat)
    ensures i <= |s| && (i < |s| ==> IsSpecial(s[i])) && forall k :: 0 <= k < i ==> !IsSpecial(s[k])
  {
    if s == "" || IsSpecial(s[0]) then 0 else 1 + SpecialAt(s[1..])
  }

  /** strpbrk with a quote and a backslash. */
  method StrPBrk(buf: array<char>, p: nat, ghost s: string) returns (q: nat)
    requires CStr(buf[..], p, s)
    ensures q == p + SpecialAt(s) && q < buf.Length && buf[q] == if q - p < |s| then s[q - p] else '\0'
  {
    q := p;
    while buf[q] != '\0' && buf[q] != '"' && buf[q] != '\\'
      invariant p <= q <= p + |s| && forall k :: 0 <= k < q - p ==> !IsSpecial(s[k])
      decreases p + |s| - q
    {
      assert buf[..][p..p + |s|][q - p] == buf[q];
      q := q + 1;
    }
    if q < p + |s| {
      assert buf[..][p..p + |s|][q - p] == buf[q];
      assert s[q - p] in s;
    }
  }

  /** memmove of the rest of the string, its null character included, over the character at `f`. */
  method MoveDown(buf: array<char>, f: nat, ghost r: string)
    requires CStr(buf[..], f, r) && r != ""
    modifies buf
    ensures Moved(old(buf[..]), buf[..], f, |r|)
  {
    var len := Length(buf, f, r);
    var i := 0;
    while i < len
      invariant i <= len == |r|
      invariant forall k :: 0 <= k < buf.Length ==> buf[k] == if f <= k < f + i then old(buf[k + 1]) else old(buf[k])
    {
      buf[f + i] := buf[f + i + 1];
      i := i + 1;
    }
  }

  /** strlen. */
  method Length(buf: array<char>, p: nat, ghost s: string) returns (n: nat)
    requires CStr(buf[..], p, s)
    ensures n == |s|
  {
    n := 0;
    while buf[p + n] != '\0'
      invariant n <= |s|
      decreases |s| - n
    {
      n := n + 1;
    }
  }

  /** `n` characters from `f + 1` on have been moved down by one. */
  predicate Moved(a: seq<char>, b: seq<char>, f: nat, n: nat) {
    && |b| == |a| && f + n < |a|
    && b[..f] == a[..f] && b[f..f + n] == a[f + 1..f + n + 1] && b[f + n..] == a[f + n..]
  }

  lemma SliceOfSlice(b: seq<char>, f: nat, n: nat, i: nat, j: nat)
    requires f + n <= |b| && i <= j <= n
    ensures b[f..f + n][i..j] == b[f + i..f + j]
  {
    var m := b[f..f + n];
    forall k | 0 <= k < j - i
      ensures m[i..j][k] == b[f + i..f + j][k]
    {
      assert m[i..j][k] == m[i + k] && m[i + k] == b[f + (i + k)];
    }
  }

  /** The character after the backslash at `f` is kept, and the text goes on after it. */
  lemma TailMoved(a: seq<char>, b: seq<char>, f: nat, r: string)
    requires Tail(a, f, r) && r != "" && Moved(a, b, f, |r|)
    ensures |r| > 1 ==> b[f] == r[1] && Tail(b, f + 1, r[2..])
    ensures |r| == 1 ==> b[f] == '\0' && Tail(b, f + 1, "")
  {
    var n := |r|;
    assert a[f..f + n] == r;
    assert b[f..f + n] == r[1..] + ['\0'];
    assert b[f] == b[f..f + n][0] && b[f + n] == b[f + n..][0] && a[f + n] == a[f + n..][0];
    if n > 1 {
      SliceOfSlice(b, f, n, 1, n - 1);
      assert b[f + n - 1] == b[f..f + n][n - 1];
    }
  }

  lemma TailFrom(b: seq<char>, p: nat, s: string, k: nat)
    requires Tail(b, p, s) && k <= |s|
    ensures Tail(b, p + k, s[k..]) && b[p..p + k] == s[..k]
  {
    assert b[p..p + |s|] == s;
    assert b[p + k..p + |s|] == s[k..];
    assert b[p..p + k] == s[..k];
  }

  /** `d` is the part of the value between `p` and `q`, and `r` the text from `q` on. */
  predicate Reading(b: seq<char>, p: nat, q: nat, s: string, r: string, d: string) {
    && p <= q <= |b| && Tail(b, q, r) && b[p..q] == d
    && Unescape(s) == Prepend(d, Unescape(r)) && (Unescape(r).Some? ==> '\0' !in d)
  }

  lemma NoNull(b: seq<char>, p: nat, s: string)
    requires Tail(b, p, s)
    ensures '\0' !in s && forall k :: 0 <= k <= |s| ==> '\0' !in s[..k]
  {
  }

  lemma PrependTwice(a: string, b: string, o: Option<string>)
    ensures Prepend(a, Prepend(b, o)) == Prepend(a + b, o)
  {
    if o.Some? {
      assert a + (b + o.value) == (a + b) + o.value;
    }
  }

  lemma ReadingStarts(b: seq<char>, p: nat, s: string)
    requires Tail(b, p, s)
    ensures Reading(b, p, p, s, s, "")
  {
    assert Unescape(s).Some? ==> "" + Unescape(s).value == Unescape(s).value;
  }

  lemma SliceJoin(b: seq<char>, i: nat, j: nat, k: nat)
    requires i <= j <= k <= |b|
    ensures b[i..k] == b[i..j] + b[j..k]
  {
  }

  /** Over the plain characters. */
  lemma ReadingPlain(b: seq<char>, p: nat, q: nat, s: string, r: string, d: string)
    requires Reading(b, p, q, s, r, d)
    ensures var k := SpecialAt(r); Reading(b, p, q + k, s, r[k..], d + r[..k])
  {
    var k := SpecialAt(r);
    NoNull(b, q, r);
    UnescapeRun(d, r);
    hide Unescape, Tail, SpecialAt, Prepend;
    TailFrom(b, q, r, k);
    SliceJoin(b, p, q, q + k);
  }

  lemma UnescapeRun(d: string, r: string)
    ensures var k := SpecialAt(r); Prepend(d, Unescape(r)) == Prepend(d + r[..k], Unescape(r[k..]))
    ensures Unescape(r).Some? <==> Unescape(r[SpecialAt(r)..]).Some?
  {
    var k := SpecialAt(r);
    assert r == r[..k] + r[k..];
    UnescapePlain(r[..k], r[k..]);
    hide Unescape;
    PrependTwice(d, r[..k], Unescape(r[k..]));
  }

  lemma ReadingEnds(b: seq<char>, p: nat, q: nat, s: string, d: string)
    requires Reading(b, p, q, s, "", d)
    ensures Unescape(s) == None
  {
  }

  lemma ReadingCut(a: seq<char>, b: seq<char>, p: nat, f: nat, s: string, r: string, d: string)
    requires Reading(a, p, f, s, r, d) && r != "" && r[0] == '"' && b == a[f := '\0']
    ensures Unescape(s).Some? && CStr(b, p, Unescape(s).value)
  {
    assert d + "" == d;
    assert b[p..f] == d;
  }

  lemma ReadingEscape(a: seq<char>, b: seq<char>, p: nat, f: nat, s: string, r: string, d: string)
    requires Reading(a, p, f, s, r, d) && r != "" && r[0] == '\\' && Moved(a, b, f, |r|)
    ensures f < |b| && Reading(b, p, f + 1, s, if |r| > 1 then r[2..] else "", d + [b[f]])
  {
    TailMoved(a, b, f, r);
    assert b[p..f] == b[..f][p..] && a[p..f] == a[..f][p..];
    assert b[p..f + 1] == d + [b[f]];
    if |r| > 1 {
      PrependTwice(d, [r[1]], Unescape(r[2..]));
      assert r[1] in r;
    }
  }

  /** The loop over the characters of a string value: cuts it at its closing quote, with the escapes undone. */
  method UnescapeInPlace(buf: array<char>, p: nat, ghost s: string) returns (ok: bool)
    requires Tail(buf[..], p, s)
    modifies buf
    ensures ok == Unescape(s).Some?
    ensures ok ==> CStr(buf[..], p, Unescape(s).value)
  {
    hide Unescape, SpecialAt, Prepend, CStr;
    var q := p;
    ghost var r, d := s, "";
    ReadingStarts(buf[..], p, s);
    while true
      invariant Reading(buf[..], p, q, s, r, d)
      decreases |r|
    {
      var f := StrPBrk(buf, q, r);
      ReadingPlain(buf[..], p, q, s, r, d);
      d, r := d + r[..f - q], r[f - q..];
      if buf[f] == '\0' {
        ReadingEnds(buf[..], p, f, s, d);
        return false;
      }
      ghost var before := buf[..];
      if buf[f] == '"' {
        buf[f] := '\0';
        ReadingCut(before, buf[..], p, f, s, r, d);
        return true;
      }
      MoveDown(buf, f, r);
      ReadingEscape(before, buf[..], p, f, s, r, d);
      d, r := d + [buf[f]], if |r| > 1 then r[2..] else "";
      q := f + 1;
    }
  }

  // ---------------------------------------------------------------------------
  // Reading
  // ---------------------------------------------------------------------------

  /** A line in the buffer, as getline leaves it: it ends in its only newline and has no null character in it. */
  predicate LineIn(b: seq<char>, line: string) {
    CStr(b, 0, line) && |line| > 0 && IndexOf(line, '\n') == |line| - 1
  }

  class ConfReader {
    const kinds: map<string, SymbolType>   // the symbols there are
    var vals: Values                    // def[S_DEF_USER] of each, with its flag
    var changes: nat                    // sym_add_change_count

    constructor (kinds: map<string, SymbolType>)
      ensures this.kinds == kinds && vals.Keys == kinds.Keys && forall name :: name in vals ==> vals[name] == Unset
    {
      this.kinds := kinds;
      vals := map name | name in kinds :: Unset;
      changes := 0;
    }

    /** conf_set_sym_val, for a value in the buffer at `p`. */
    method SetSymVal(name: string, buf: array<char>, p: nat, ghost s: string)
      requires name in kinds && Tail(buf[..], p, s)
      modifies this`vals, buf
      ensures vals ==
        if ValueFor(kinds[name], s).Some? then old(vals)[name := ValueFor(kinds[name], s).value] else old(vals)
    {
      hide Unescape, IntValid, HexValid;
      var t := kinds[name];
      ghost var first := s[..if s == "" then 0 else 1];
      assert buf[..][p..p + |s|] == s;
      assert s != "" ==> buf[p] == s[0] && (forall w: string :: |w| == 1 ==> (StartsWith(s, w) <==> s[..1] == w));
      match t {
        case Tristated =>
          if buf[p] == 'm' {
            vals := vals[name := Tri(1)];
          } else if buf[p] == 'y' {
            vals := vals[name := Tri(2)];
          } else if buf[p] == 'n' {
            vals := vals[name := Tri(0)];
          }
        case Boolean =>
          if buf[p] == 'y' {
            vals := vals[name := Tri(2)];
          } else if buf[p] == 'n' {
            vals := vals[name := Tri(0)];
          }
        case Text =>
          if buf[p] != '"' {
            return;
          }
          TailFrom(buf[..], p, s, 1);
          var ok := UnescapeInPlace(buf, p + 1, s[1..]);
          if ok {
            var text := Get(buf, p + 1, Unescape(s[1..]).value);
            vals := vals[name := Str(text)];
          }
        case Unknown =>
        case _ =>
          var text := Get(buf, p, s);
          var ok := SymStringValid(t, text);
          if ok {
            vals := vals[name := Str(text)];
          }
      }
    }

    /** The branch for "# CONFIG_NAME is not set", from the name on. */
    method ReadNotSet(buf: array<char>, p: nat, ghost rest: string)
      requires CStr(buf[..], p, rest)
      modifies this, buf
      ensures vals ==
        var i := IndexOf(rest, ' ');
        if i < |rest| && StartsWith(rest[i + 1..], NOT_SET) && rest[..i] in kinds && kinds[rest[..i]] in {Boolean, Tristated}
        then old(vals)[rest[..i] := Tri(0)] else old(vals)
    {
      ghost var i := IndexOf(rest, ' ');
      var q := StrChr(buf, p, ' ', rest);
      Halves(buf[..], p, rest, i);
      if buf[q] == '\0' {
        return;
      }
      buf[q] := '\0';
      CutInTwo(old(buf[..]), buf[..], p, rest, i);
      var unset := HasPrefix(buf, q + 1, NOT_SET, rest[i + 1..]);
      if !unset {
        return;
      }
      var name := Get(buf, p, rest[..i]);
      if name !in kinds {
        changes := changes + 1;
        return;
      }
      match kinds[name] {
        case Boolean => vals := vals[name := Tri(0)];
        case Tristated => vals := vals[name := Tri(0)];
        case _ =>
      }
    }

    /** The branch for "CONFIG_NAME=value", from the name on. */
    method ReadAssigned(buf: array<char>, p: nat, ghost rest: string)
      requires CStr(buf[..], p, rest) && |rest| > 0 && IndexOf(rest, '\n') == |rest| - 1
      modifies this, buf
      ensures vals ==
        var i := IndexOf(rest, '=');
        if i == |rest| || rest[..i] !in kinds then old(vals)
        else
          var s := ValueOf(rest[i + 1..]);
          var v := ValueFor(kinds[rest[..i]], s);
          if v.Some? then old(vals)[rest[..i] := v.value] else old(vals)
    {
      hide ValueFor, IndexOf, ValueOf, CStr, Tail;
      ghost var i := IndexOf(rest, '=');
      var q := StrChr(buf, p, '=', rest);
      Halves(buf[..], p, rest, i);
      if buf[q] == '\0' {
        return;
      }
      ghost var tail := rest[i + 1..];
      ghost var before := buf[..];
      buf[q] := '\0';
      CutInTwo(before, buf[..], p, rest, i);
      NewlineLast(rest, i);
      CutLineEnd(buf, q + 1, tail, p, rest[..i]);
      var name := Get(buf, p, rest[..i]);
      if name !in kinds {
        changes := changes + 1;
        return;
      }
      SetSymVal(name, buf, q + 1, ValueOf(tail));
    }

    /** One round of the loop of conf_read_simple. */
    method ReadLine(buf: array<char>, ghost line: string)
      requires LineIn(buf[..], line)
      modifies this, buf
      ensures vals == AfterLine(kinds, old(vals), line)
    {
      hide ValueFor, IndexOf, ValueOf, CStr;
      LineStart(buf[..], line);
      if buf[0] == '#' {
        Suffix(buf[..], line, 2);
        var symbol := HasPrefix(buf, 2, PREFIX, line[2..]);
        if symbol {
          Suffix(buf[..], line, 2 + |PREFIX|);
          ReadNotSet(buf, 2 + |PREFIX|, line[2 + |PREFIX|..]);
        }
        return;
      }
      var symbol := HasPrefix(buf, 0, PREFIX, line);
      if symbol {
        AfterPrefix(line);
        Suffix(buf[..], line, |PREFIX|);
        ReadAssigned(buf, |PREFIX|, line[|PREFIX|..]);
      }
    }

    /** compat_getline: the next line with its newline, and a null character after it. */
    method GetLine(text: string, pos: nat) returns (buf: array<char>, end: nat)
      requires '\0' !in text && pos < |text| && text[|text| - 1] == '\n'
      ensures fresh(buf) && pos < end <= |text| && end == pos + IndexOf(text[pos..], '\n') + 1
      ensures LineIn(buf[..], text[pos..end])
    {
      hide IndexOf;
      end := pos;
      while text[end] != '\n'
        invariant pos <= end < |text| && '\n' !in text[pos..end]
        decreases |text| - end
      {
        end := end + 1;
      }
      LineEnd(text, pos, end);
      end := end + 1;
      buf := AddBytes(text, pos, end);
    }

    /** The buffer that add_byte fills. */
    method AddBytes(text: string, pos: nat, end: nat) returns (buf: array<char>)
      requires '\0' !in text && pos <= end <= |text|
      ensures fresh(buf) && CStr(buf[..], 0, text[pos..end])
    {
      buf := new char[end - pos + 1](_ => '\0');
      var i := 0;
      while pos + i < end
        invariant i <= end - pos && buf[end - pos] == '\0'
        invariant forall k :: 0 <= k < i ==> buf[k] == text[pos + k]
      {
        buf[i] := text[pos + i];
        i := i + 1;
      }
      ghost var line := text[pos..end];
      assert buf[0..0 + |line|] == line;
      assert forall c :: c in line ==> c in text;
    }

    /** The loop of conf_read_simple over a text of complete lines. */
    method ReadAll(text: string)
      requires '\0' !in text && (text == "" || text[|text| - 1] == '\n')
      modifies this
      ensures vals == AfterText(kinds, old(vals), text)
    {
      hide AfterLine, IndexOf, LineIn;
      var pos := 0;
      assert text[0..] == text;
      while pos < |text|
        invariant pos <= |text| && AfterText(kinds, vals, text[pos..]) == AfterText(kinds, old(vals), text)
      {
        var buf, end := GetLine(text, pos);
        ghost var rest := text[pos..];
        assert rest[..end - pos] == text[pos..end] && rest[end - pos..] == text[end..];
        ReadLine(buf, text[pos..end]);
        pos := end;
      }
      NoLines(kinds, vals);
      assert text[pos..] == "";
    }
  }

  // ---------------------------------------------------------------------------
  // Writing, then reading
  // ---------------------------------------------------------------------------

  /** The texts of an entry are strings of C. */
  predicate NoNulls(e: Entry) {
    match e
    case Title(text) => '\0' !in text
    case Symbol(name, _, v) => '\0' !in name && (v.Str? ==> '\0' !in v.s)
  }

  lemma PrintedHasNoNull(e: Entry)
    requires NoNulls(e) && (e.Symbol? ==> ValOk(e.kind, e.val))
    ensures '\0' !in Printed(e)
  {
    if e.Symbol? && e.val.Str? {
      EscapedKeeps(e.val.s, '\0');
    }
  }

  lemma {:induction false} PrintedAllHasNoNull(es: seq<Entry>)
    requires forall i :: 0 <= i < |es| ==> NoNulls(es[i]) && Fair(es[i])
    ensures '\0' !in PrintedAll(es)
  {
    hide Printed, NoNulls;
    if es != [] {
      PrintedAllHasNoNull(es[..|es| - 1]);
      assert Fair(es[|es| - 1]);
      PrintedHasNoNull(es[|es| - 1]);
    }
  }

  /**
   conf_write to a file and conf_read_simple of it into a fresh table: every value comes
   back if and only if no string has a newline in it and no title unsets a symbol before it.
   */
  method SaveAndLoad(kinds: map<string, SymbolType>, es: seq<Entry>) returns (vals: Values)
    requires InTable(kinds, es) && DistinctNames(es)
    requires forall i :: 0 <= i < |es| ==> Fair(es[i]) && NoNulls(es[i])
    ensures Restored(vals, es) <==> TitlesHarmless(es) && OneLineStrings(es)
  {
    hide AfterText, PrintedAll, NoNulls, TitlesHarmless, OneLineStrings, Restored, DistinctNames;
    var writer := new ConfWriter();
    assert forall i :: 0 <= i < |es| ==> Fair(es[i]);
    writer.WriteAll(es);
    PrintedAllHasNoNull(es);
    EndsInNewline(es);
    assert "" + PrintedAll(es) == PrintedAll(es);
    var reader := new ConfReader(kinds);
    ghost var before := reader.vals;
    reader.ReadAll(writer.text);
    vals := reader.vals;
    RestoredIff(kinds, before, es);
  }

  /** The line from `pos` on ends at `end`. */
  lemma LineEnd(text: string, pos: nat, end: nat)
    requires pos <= end < |text| && text[end] == '\n' && '\n' !in text[pos..end]
    ensures end == pos + IndexOf(text[pos..], '\n')
    ensures IndexOf(text[pos..end + 1], '\n') == end - pos
  {
    hide IndexOf;
    var l, rest := text[pos..end], text[end + 1..];
    assert text[pos..] == l + ['\n'] + rest;
    IndexIs(l, '\n', rest);
    assert text[pos..end + 1] == l + ['\n'] + "";
    IndexIs(l, '\n', "");
  }

  lemma LineStart(b: seq<char>, line: string)
    requires LineIn(b, line)
    ensures 0 < |b| && b[0] == line[0] && CStr(b, 0, line)
    ensures StartsWith(line, "#") <==> b[0] == '#'
    ensures b[0] == '#' ==> |line| >= 2
  {
    assert b[0..0 + |line|] == line;
    assert StartsWith(line, "#") <==> line[0] == '#' by {
      assert line[..1] == [line[0]];
    }
  }

  lemma Suffix(b: seq<char>, s: string, k: nat)
    requires CStr(b, 0, s) && k <= |s|
    ensures CStr(b, k, s[k..])
  {
    assert b[k..|s|] == b[0..0 + |s|][k..];
  }

  lemma AfterPrefix(line: string)
    requires |line| > 0 && IndexOf(line, '\n') == |line| - 1 && StartsWith(line, PREFIX)
    ensures |line| > |PREFIX| && IndexOf(line[|PREFIX|..], '\n') == |line| - |PREFIX| - 1
  {
    assert line[6] == line[..7][6] == '_';
    NewlineLast(line, 6);
  }

  /** Cuts the newline at the end of a value, and a carriage return before it. */
  method CutLineEnd(buf: array<char>, v: nat, ghost tail: string, ghost p: nat, ghost name: string)
    requires CStr(buf[..], v, tail) && |tail| > 0 && IndexOf(tail, '\n') == |tail| - 1
    requires CStr(buf[..], p, name) && p + |name| + 1 == v
    modifies buf
    ensures Tail(buf[..], v, ValueOf(tail)) && CStr(buf[..], p, name)
  {
    hide IndexOf;
    var e := StrChr(buf, v, '\n', tail);
    ghost var whole := buf[..];
    buf[e] := '\0';
    LineCut(whole, buf[..], v, tail);
    NameStays(whole, buf[..], p, name, e);
    if buf[e - 1] == '\r' {
      ghost var cut := buf[..];
      buf[e - 1] := '\0';
      ReturnCut(cut, buf[..], v, tail[..|tail| - 1]);
      NameStays(cut, buf[..], p, name, e - 1);
    }
  }

  lemma NewlineLast(rest: string, i: nat)
    requires |rest| > 0 && IndexOf(rest, '\n') == |rest| - 1 && i < |rest| && rest[i] != '\n'
    ensures var tail := rest[i + 1..]; |tail| > 0 && IndexOf(tail, '\n') == |tail| - 1
  {
    var n := |rest| - 1;
    var a := rest[i + 1..n];
    assert rest[i + 1..] == a + ['\n'] + "";
    assert forall c :: c in a ==> c in rest[..n];
    IndexIs(a, '\n', "");
  }

  /** The newline becomes the end of the string; the old end stands after it. */
  lemma LineCut(a: seq<char>, b: seq<char>, v: nat, tail: string)
    requires CStr(a, v, tail) && |tail| > 0 && b == a[v + |tail| - 1 := '\0']
    ensures Tail(b, v, tail[..|tail| - 1])
    ensures |tail| > 1 ==> b[v + |tail| - 2] == tail[|tail| - 2]
  {
    CutInTwo(a, b, v, tail, |tail| - 1);
    if |tail| > 1 {
      assert b[v..v + |tail| - 1] == tail[..|tail| - 1];
      assert b[v + |tail| - 2] == b[v..v + |tail| - 1][|tail| - 2];
    }
  }

  /** The same for a carriage return before it. */
  lemma ReturnCut(a: seq<char>, b: seq<char>, v: nat, s: string)
    requires Tail(a, v, s) && s != "" && b == a[v + |s| - 1 := '\0']
    ensures Tail(b, v, s[..|s| - 1])
  {
    CutInTwo(a, b, v, s, |s| - 1);
  }

  /** A string that ends before the place that changes. */
  lemma NameStays(a: seq<char>, b: seq<char>, p: nat, s: string, e: nat)
    requires CStr(a, p, s) && p + |s| < e < |a| && b == a[e := '\0']
    ensures CStr(b, p, s)
  {
    assert b[p..p + |s|] == a[p..p + |s|];
  }

  /** What stands at place `i` of a string of C. */
  lemma Halves(b: seq<char>, p: nat, s: string, i: nat)
    requires CStr(b, p, s) && i <= |s|
    ensures b[p + i] == if i < |s| then s[i] else '\0'
    ensures '\0' !in s[..i] && (i < |s| ==> s[i] != '\0' && '\0' !in s[i + 1..])
  {
    if i < |s| {
      assert b[p..p + |s|][i] == b[p + i];
      assert s[i] in s;
    }
  }

  /** A null character over the one at place `i` makes two strings. */
  lemma CutInTwo(a: seq<char>, b: seq<char>, p: nat, s: string, i: nat)
    requires CStr(a, p, s) && i < |s| && b == a[p + i := '\0']
    ensures CStr(b, p, s[..i]) && CStr(b, p + i + 1, s[i + 1..])
  {
    Halves(a, p, s, i);
    assert a[p..p + |s|] == s;
    assert b[p..p + i] == s[..i];
    assert b[p + i + 1..p + |s|] == s[i + 1..];
  }
}
