/** A printed query is stored as the multimap it stands for. */
module QueryTheorems {
  import opened Base
  import opened CStrings
  import opened Query
  import opened Variables

  // ----- Any percent-encoding of a text decodes to it -----

  /** One character written in a query: itself, a blank as '+', or a percent sign and its two
      hexadecimal digits, each in either letter case. */
  predicate Writes(w: string, c: char) {
    && c as int < 256
    && ((w == [c] && c != '%' && c != '+')
        || (w == "+" && c == ' ')
        || (|w| == 3 && w[0] == '%' && HexDigitOf(w[1], c as int / 16) && HexDigitOf(w[2], c as int % 16)))
  }

  predicate HexDigitOf(d: char, n: nat) {
    n < 16 && (d == "0123456789abcdef"[n] || d == "0123456789ABCDEF"[n])
  }

  function Concat(ws: seq<string>): string {
    if ws == [] then "" else ws[0] + Concat(ws[1..])
  }

  lemma HexDigitRead(d: char, n: nat)
    requires HexDigitOf(d, n)
    ensures FromHex(d) == n
  {
    if n < 10 {
      assert "0123456789abcdef"[n] as int == '0' as int + n;
      assert "0123456789ABCDEF"[n] as int == '0' as int + n;
    } else {
      assert "0123456789abcdef"[n] as int == 'a' as int + n - 10;
      assert "0123456789ABCDEF"[n] as int == 'A' as int + n - 10;
    }
  }

  lemma HexPairRead(h: char, l: char, c: char)
    requires c as int < 256 && HexDigitOf(h, c as int / 16) && HexDigitOf(l, c as int % 16)
    ensures HexPair(h, l) == c
  {
    HexDigitRead(h, c as int / 16);
    HexDigitRead(l, c as int % 16);
  }

  lemma WrittenIsRead(t: string, p: nat, q: nat, w: string, c: char, rest: string)
    requires Writes(w, c) && q <= p <= |t| && t[p..] == w + rest
    ensures p < |t| && Decoded(t, p, q) == (c, p + |w|)
    ensures t[p + |w|..] == rest
  {
    assert forall i :: 0 <= i < |w| ==> t[p + i] == t[p..][i] == w[i];
    assert t[p + |w|..] == t[p..][|w|..];
    assert t[p] == w[0];
    if w[0] == '%' {
      HexPairRead(w[1], w[2], c);
      assert t[p + 1] == w[1] && t[p + 2] == w[2];
    }
  }

  lemma {:induction false} WrittenFrom(t: string, p: nat, ws: seq<string>, s: string, tail: string, out: string)
    requires |ws| == |s| && forall i :: 0 <= i < |s| ==> Writes(ws[i], s[i])
    requires |out| <= p <= |t| && t[p..] == Concat(ws) + tail
    ensures |out + s| <= |t| - |tail| && t[|t| - |tail|..] == tail
    ensures Unescape(t, p, out) == Unescape(t, |t| - |tail|, out + s)
    decreases |s|
  {
    if s == "" {
      assert out + s == out && Concat(ws) + tail == tail;
    } else {
      var next := p + |ws[0]|;
      Assoc(ws[0], Concat(ws[1..]), tail);
      WrittenIsRead(t, p, |out|, ws[0], s[0], Concat(ws[1..]) + tail);
      UnescapeStep(t, p, out, s[0], next);
      WrittenFrom(t, next, ws[1..], s[1..], tail, out + [s[0]]);
      assert s == [s[0]] + s[1..];
      Assoc(out, [s[0]], s[1..]);
    }
  }

  lemma WrittenAll(t: string, ws: seq<string>, s: string, tail: string)
    requires |ws| == |s| && forall i :: 0 <= i < |s| ==> Writes(ws[i], s[i])
    requires t == Concat(ws) + tail
    ensures |s| <= |t| - |tail| && t[|t| - |tail|..] == tail
    ensures Unescaped(t) == Unescape(t, |t| - |tail|, s)
  {
    assert t[0..] == t && "" + s == s;
    WrittenFrom(t, 0, ws, s, tail, "");
  }

  /** However a text is percent-encoded, unescaping gives exactly the text back. */
  lemma AnyEncodingUnescapes(ws: seq<string>, s: string)
    requires |ws| == |s| && forall i :: 0 <= i < |s| ==> Writes(ws[i], s[i])
    ensures Unescaped(Concat(ws)) == s
  {
    assert Concat(ws) == Concat(ws) + "";
    WrittenAll(Concat(ws), ws, s, "");
  }

  /** An escape cut short by the end: one digit is taken for the first of two, the second zero. */
  lemma CutShort(ws: seq<string>, s: string, d: char, c: char)
    requires |ws| == |s| && forall i :: 0 <= i < |s| ==> Writes(ws[i], s[i])
    requires Writes(['%', d, '0'], c)
    ensures Unescaped(Concat(ws) + ['%', d]) == s + [c]
  {
    OneDigit(d, c);
    CutAfter(Concat(ws) + ['%', d], ws, s, d, c);
  }

  lemma OneDigit(d: char, c: char)
    requires Writes(['%', d, '0'], c)
    ensures Octet(FromHex(d) * 16) == c
  {
    HexDigitRead(d, c as int / 16);
    HexDigitRead('0', c as int % 16);
  }

  lemma CutAfter(t: string, ws: seq<string>, s: string, d: char, c: char)
    requires |ws| == |s| && forall i :: 0 <= i < |s| ==> Writes(ws[i], s[i])
    requires t == Concat(ws) + ['%', d] && Octet(FromHex(d) * 16) == c
    ensures Unescaped(t) == s + [c]
  {
    WrittenAll(t, ws, s, ['%', d]);
    assert t[|t| - 2] == '%' && t[|t| - 1] == d;
    LastStep(t, |t| - 2, s, c);
  }

  lemma LastStep(t: string, p: nat, out: string, c: char)
    requires |out| <= p < |t| && Decoded(t, p, |out|) == (c, |t|)
    ensures Unescape(t, p, out) == out + [c]
  {
    UnescapeStep(t, p, out, c, |t|);
  }

  /** Without any digit the character that stood where the result has got to is taken. */
  lemma CutBare(ws: seq<string>, s: string)
    requires |ws| == |s| && forall i :: 0 <= i < |s| ==> Writes(ws[i], s[i])
    ensures var t := Concat(ws) + "%"; |s| < |t| && Unescaped(t) == s + [t[|s|]]
  {
    var t := Concat(ws) + "%";
    WrittenAll(t, ws, s, "%");
    assert t[|t| - 1] == '%';
    LastStep(t, |t| - 1, s, t[|s|]);
  }

  // ----- Printed queries -----

  /** A name and the value it is given. */
  datatype Field = Field(name: string, value: string)

  /** A name that survives printing and parsing. */
  predicate CleanName(name: string) {
    '=' !in name && '&' !in name && NUL !in name && (name != "" ==> name[0] != ' ' && name[0] != '\t')
  }

  predicate Clean(fields: seq<Field>) {
    forall i :: 0 <= i < |fields| ==>
      CleanName(fields[i].name) && Octets(fields[i].value) && NUL !in fields[i].value
  }

  function Print(fields: seq<Field>): string
    requires Clean(fields)
  {
    if fields == [] then ""
    else
      fields[0].name + "=" + Escape(fields[0].value)
      + if |fields| == 1 then "" else "&" + Print(fields[1..])
  }

  // ----- Parsing the print -----

  lemma {:induction false} ReadsName(name: string, k: nat, rest: string, buf: seq<char>, vars: seq<Variable>)
    returns (after: seq<char>)
    requires '=' !in name && '&' !in name && NUL !in name
    requires k <= |name| && |name| + 1 + |rest| < |buf| && buf[..k] == name[..k]
    ensures |after| == |buf| && CStr(after, 0) == name
    ensures Stored(name[k..] + "=" + rest, buf, k, None, vars) == Stored(rest, after, |name|, Some(""), vars)
    decreases |name| - k
  {
    var q := name[k..] + "=" + rest;
    if k == |name| {
      after := buf[k := NUL];
      assert name[..k] == name;
      NameEndsHere(after, name);
      assert q == "=" + rest && q[1..] == rest;
    } else {
      var c := name[k];
      assert c in name;
      assert q[0] == c && q[1..] == name[k + 1..] + "=" + rest;
      assert buf[k := c][..k + 1] == name[..k + 1];
      after := ReadsName(name, k + 1, rest, buf[k := c], vars);
    }
  }

  lemma NameEndsHere(buf: seq<char>, name: string)
    requires |name| < |buf| && NUL !in name && buf[..|name|] == name && buf[|name|] == NUL
    ensures CStr(buf, 0) == name
  {
    assert forall j :: 0 <= j < |name| ==> buf[j] == name[j] && name[j] in name;
    NulAtIs(buf, 0, |name|);
  }

  lemma {:induction false} ReadsValue(value: string, rest: string, buf: seq<char>, n: nat, got: string, vars: seq<Variable>)
    requires '=' !in value && '&' !in value && n + |value| + |rest| < |buf|
    ensures Stored(value + rest, buf, n, Some(got), vars) == Stored(rest, buf, n, Some(got + value), vars)
    decreases |value|
  {
    if value == "" {
      assert value + rest == rest && got + value == got;
    } else {
      assert (value + rest)[1..] == value[1..] + rest;
      assert value[0] in value;
      ReadsValue(value[1..], rest, buf, n, got + [value[0]], vars);
      assert got + [value[0]] + value[1..] == got + value;
    }
  }

  /** Add every field in order, with each '+' of a value turned into a blank. */
  function AddAll(fields: seq<Field>, vars: seq<Variable>): seq<Variable> {
    if fields == [] then vars
    else AddAll(fields[1..], Added(vars, fields[0].name, PlusToSpace(fields[0].value)))
  }

  lemma ValueArrives(value: string)
    requires Octets(value) && NUL !in value
    ensures Head(Unescaped(Escape(value)), NUL) == PlusToSpace(value)
  {
    UnescapeEscape(value);
    var u := PlusToSpace(value);
    assert NUL !in u by {
      forall i | 0 <= i < |u| ensures u[i] != NUL {
        assert value[i] in value;
      }
    }
  }

  lemma ReadsField(field: Field, rest: string, buf: seq<char>, vars: seq<Variable>)
    returns (after: seq<char>)
    requires Clean([field]) && |Print([field])| + |rest| < |buf|
    ensures |after| == |buf| && Trim(CStr(after, 0)) == field.name
    ensures |field.name| + |rest| < |buf|
    ensures Stored(Print([field]) + rest, buf, 0, None, vars)
            == Stored(rest, after, |field.name|, Some(Escape(field.value)), vars)
  {
    assert CleanName([field][0].name) && Octets([field][0].value);
    var e := Escape(field.value);
    EscapeIsPlain(field.value);
    assert Print([field]) + rest == field.name[0..] + "=" + (e + rest);
    assert buf[..0] == field.name[..0];
    after := ReadsName(field.name, 0, e + rest, buf, vars);
    ReadsValue(e, rest, after, |field.name|, "", vars);
    assert "" + e == e;
  }

  lemma {:induction false} PrintIsStored(fields: seq<Field>, buf: seq<char>, vars: seq<Variable>)
    requires Clean(fields) && |Print(fields)| < |buf|
    ensures Stored(Print(fields), buf, 0, None, vars) == AddAll(fields, vars)
    decreases |fields|
  {
    if fields != [] {
      var f, more := fields[0], fields[1..];
      assert Clean([f]) && Clean(more);
      var rest := if more == [] then "" else "&" + Print(more);
      PrintSplit(fields, rest);
      var after := ReadsField(f, rest, buf, vars);
      ValueArrives(f.value);
      if more != [] {
        assert rest[0] == '&' && rest[1..] == Print(more);
        PrintIsStored(more, after, Added(vars, f.name, PlusToSpace(f.value)));
      }
    }
  }

  lemma PrintSplit(fields: seq<Field>, rest: string)
    requires Clean(fields) && fields != [] && Clean([fields[0]])
    requires rest == if |fields| == 1 then "" else "&" + Print(fields[1..])
    ensures Print(fields) == Print([fields[0]]) + rest
  {
    var f := fields[0];
    var whole := f.name + "=" + Escape(f.value);
    assert Print([f]) == whole + "" == whole;
    assert Print(fields) == whole + rest;
  }

  // ----- What the multimap holds -----

  /** Each name once, in the order of first appearance. */
  function FirstSeen(names: seq<string>): seq<string>
    decreases |names|
  {
    if names == [] then []
    else
      Shorter(names);
      [names[0]] + FirstSeen(LaterNames(names))
  }

  /** The other names after the first. */
  function LaterNames(names: seq<string>): seq<string>
    requires names != []
  {
    Filter(Other(names[0]), names[1..])
  }

  function Other(x: string): string -> bool { y => y != x }

  lemma Shorter(names: seq<string>)
    requires names != []
    ensures |LaterNames(names)| < |names|
  {
    FilterShrinks(Other(names[0]), names[1..]);
  }

  lemma {:induction false} FilterShrinks<T>(keep: T -> bool, s: seq<T>)
    ensures |Filter(keep, s)| <= |s|
  {
    if s != [] {
      FilterShrinks(keep, s[1..]);
    }
  }

  lemma {:induction false} FirstSeenSnoc(names: seq<string>, x: string)
    ensures FirstSeen(names + [x]) == if x in names then FirstSeen(names) else FirstSeen(names) + [x]
    decreases |names|
  {
    if names == [] {
      assert names + [x] == [x] && [x][1..] == [];
    } else {
      var first := names[0];
      var later := LaterNames(names);
      assert (names + [x])[1..] == names[1..] + [x];
      FilterAppend(Other(first), names[1..], [x]);
      OneOther(first, x);
      assert LaterNames(names + [x]) == later + if x == first then [] else [x];
      Shorter(names);
      FilterMembers(Other(first), names[1..], x);
      if x != first {
        FirstSeenSnoc(later, x);
        Assoc([first], FirstSeen(later), [x]);
      } else {
        assert later + [] == later;
      }
    }
  }

  lemma OneOther(first: string, x: string)
    ensures Filter(Other(first), [x]) == if x == first then [] else [x]
  {
    assert [x][1..] == [];
  }

  function FieldNames(fields: seq<Field>): (r: seq<string>)
    ensures |r| == |fields| && forall i :: 0 <= i < |fields| ==> r[i] == fields[i].name
  {
    if fields == [] then [] else [fields[0].name] + FieldNames(fields[1..])
  }

  /** The values given to a name, in order. */
  function Given(fields: seq<Field>, name: string): seq<string> {
    if fields == [] then []
    else (if fields[0].name == name then [PlusToSpace(fields[0].value)] else []) + Given(fields[1..], name)
  }

  lemma {:induction false} AddedNames(vars: seq<Variable>, name: string, value: string)
    ensures NamesOf(Added(vars, name, value)) ==
            if name in NamesOf(vars) then NamesOf(vars) else NamesOf(vars) + [name]
  {
    if vars != [] {
      AddedNames(vars[1..], name, value);
      assert NamesOf(vars) == [vars[0].name] + NamesOf(vars[1..]);
    }
  }

  lemma {:induction false} AddedValues(vars: seq<Variable>, name: string, value: string, asked: string)
    ensures ValuesOf(Added(vars, name, value), asked) ==
            ValuesOf(vars, asked) + if asked == name then [value] else []
  {
    if vars != [] {
      AddedValues(vars[1..], name, value, asked);
    }
  }

  lemma {:induction false} AddAllNames(done: seq<string>, fields: seq<Field>, vars: seq<Variable>)
    requires NamesOf(vars) == FirstSeen(done)
    ensures NamesOf(AddAll(fields, vars)) == FirstSeen(done + FieldNames(fields))
    decreases |fields|
  {
    if fields == [] {
      assert done + FieldNames(fields) == done;
    } else {
      var name, next := fields[0].name, Added(vars, fields[0].name, PlusToSpace(fields[0].value));
      AddedSeen(done, vars, name, PlusToSpace(fields[0].value));
      AddAllNames(done + [name], fields[1..], next);
      Assoc(done, [name], FieldNames(fields[1..]));
    }
  }

  lemma AddedSeen(done: seq<string>, vars: seq<Variable>, name: string, value: string)
    requires NamesOf(vars) == FirstSeen(done)
    ensures NamesOf(Added(vars, name, value)) == FirstSeen(done + [name])
  {
    AddedNames(vars, name, value);
    FirstSeenSnoc(done, name);
    FirstSeenMembers(done, name);
  }

  lemma {:induction false} FirstSeenMembers(names: seq<string>, x: string)
    ensures x in FirstSeen(names) <==> x in names
    decreases |names|
  {
    if names != [] {
      Shorter(names);
      FirstSeenMembers(LaterNames(names), x);
      FilterMembers(Other(names[0]), names[1..], x);
      assert x in names <==> x == names[0] || x in names[1..];
    }
  }

  lemma {:induction false} AddAllValues(fields: seq<Field>, vars: seq<Variable>, asked: string)
    ensures ValuesOf(AddAll(fields, vars), asked) == ValuesOf(vars, asked) + Given(fields, asked)
    decreases |fields|
  {
    if fields == [] {
      assert ValuesOf(vars, asked) + [] == ValuesOf(vars, asked);
    } else {
      var f := fields[0];
      var v := PlusToSpace(f.value);
      AddedValues(vars, f.name, v, asked);
      AddAllValues(fields[1..], Added(vars, f.name, v), asked);
      var first := if asked == f.name then [v] else [];
      Assoc(ValuesOf(vars, asked), first, Given(fields[1..], asked));
    }
  }

  /** Names in the order first given, each once; values in the order given. */
  lemma QueryRoundTrip(fields: seq<Field>, asked: string)
    requires Clean(fields)
    ensures var vars := Stored(Print(fields), Blanks(|Print(fields)| + 1), 0, None, []);
            && NamesOf(vars) == FirstSeen(FieldNames(fields))
            && ValuesOf(vars, asked) == Given(fields, asked)
  {
    PrintIsStored(fields, Blanks(|Print(fields)| + 1), []);
    AddAllNames([], fields, []);
    assert [] + FieldNames(fields) == FieldNames(fields);
    AddAllValues(fields, [], asked);
    assert [] + Given(fields, asked) == Given(fields, asked);
  }

  /** A name without '=' after a longer one inherits the tail of the longer one. */
  lemma BareNameIsSpoiled()
    ensures Stored("ab=1&c&", Blanks(8), 0, None, []) == [Variable("ab", ["1"]), Variable("cb", [""])]
  {
    var fields := [Field("ab", "1")];
    assert Clean(fields);
    assert Acceptable('1');
    assert EscapeChar('1') == "1";
    assert "1"[1..] == "";
    assert Escape("1") == "1";
    assert Print([Field("ab", "1")]) == "ab=1";
    var after := ReadsName("ab", 0, "1&c&", Blanks(8), []);
    assert "ab"[0..] + "=" + "1&c&" == "ab=1&c&";
    SpoiledTail(after);
  }

  lemma SpoiledTail(after: seq<char>)
    requires |after| == 8 && CStr(after, 0) == "ab"
    ensures Stored("1&c&", after, 2, Some(""), []) == [Variable("ab", ["1"]), Variable("cb", [""])]
  {
    assert "1&c&"[1..] == "&c&" && "&c&"[1..] == "c&" && "c&"[1..] == "&" && "&"[1..] == "";
    assert "" + ['1'] == "1";
    assert Trim("ab") == "ab";
    OneArrives();
    var vars := [Variable("ab", ["1"])];
    assert Added([], "ab", "1") == vars;
    var spoiled := after[0 := 'c'];
    assert after[0] == CStr(after, 0)[0] && after[1] == CStr(after, 0)[1] == 'b';
    NulAtIs(spoiled, 0, 2);
    assert CStr(spoiled, 0) == "cb";
    assert vars[1..] == [];
    assert Added(vars, "cb", "") == vars + Added([], "cb", "");
    calc {
      Stored("1&c&", after, 2, Some(""), []);
      Stored("&c&", after, 2, Some("1"), []);
      Stored("c&", after, 0, None, vars);
      Stored("&", spoiled, 1, None, vars);
      Stored("", spoiled, 0, None, Added(vars, "cb", ""));
    }
  }

  lemma OneArrives()
    ensures Head(Unescaped("1"), NUL) == "1"
  {
    assert Decoded("1", 0, 0) == ('1', 1);
    assert Unescape("1", 1, "" + ['1']) == "1";
    assert NUL !in "1";
  }
}
