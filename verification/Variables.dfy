/** Query parsing into the variable list of a request (libhttpd/protocol.c:317-372,
    libhttpd/api.c:83-95 and 163-194). */
module Variables {
  import opened Base
  import opened CStrings
  import opened Query

  datatype Variable = Variable(name: string, values: seq<string>)

  predicate IsBlank(c: char) {
    c == ' ' || c == '\t'
  }

  function Trim(name: string): (r: string)
    ensures r != "" ==> !IsBlank(r[0])
  {
    if name != "" && IsBlank(name[0]) then Trim(name[1..]) else name
  }

  /** Blanks before a name, and no others, are dropped. */
  lemma {:induction false} TrimIs(blanks: string, name: string)
    requires forall i :: 0 <= i < |blanks| ==> blanks[i] == ' ' || blanks[i] == '\t'
    requires name != "" ==> name[0] != ' ' && name[0] != '\t'
    ensures Trim(blanks + name) == name
  {
    if blanks == "" {
      assert blanks + name == name;
    } else {
      assert (blanks + name)[1..] == blanks[1..] + name;
      TrimIs(blanks[1..], name);
    }
  }

  /** One more value for a name: at the end of its values, or as a new last name. */
  function Added(vars: seq<Variable>, name: string, value: string): seq<Variable> {
    if vars == [] then [Variable(name, [value])]
    else if vars[0].name == name then [Variable(name, vars[0].values + [value])] + vars[1..]
    else [vars[0]] + Added(vars[1..], name, value)
  }

  function NamesOf(vars: seq<Variable>): (r: seq<string>)
    ensures |r| == |vars|
    ensures forall i :: 0 <= i < |vars| ==> r[i] == vars[i].name
  {
    if vars == [] then [] else [vars[0].name] + NamesOf(vars[1..])
  }

  function ValuesOf(vars: seq<Variable>, name: string): seq<string> {
    if vars == [] then []
    else if vars[0].name == name then vars[0].values
    else ValuesOf(vars[1..], name)
  }

  /** httpdAddVariable and httpdGetVariableByName on one request. */
  class Request {
    var variables: seq<Variable>

    constructor ()
      ensures variables == []
    {
      variables := [];
    }

    method AddVariable(name: string, value: string)
      modifies this
      ensures variables == Added(old(variables), Trim(name), value)
    {
      var from := 0;
      while from < |name| && IsBlank(name[from])
        invariant from <= |name| && Trim(name[from..]) == Trim(name)
      {
        assert name[from..][1..] == name[from + 1..];
        from := from + 1;
      }
      var key := name[from..];
      var cur := FindName(key);
      ghost var before := variables;
      AddedAt(before, key, value, cur);
      if cur < |variables| {
        variables := variables[cur := Variable(key, variables[cur].values + [value])];
      } else {
        variables := variables + [Variable(key, [value])];
      }
    }

    method FindName(name: string) returns (cur: nat)
      ensures cur <= |variables| && (cur < |variables| ==> variables[cur].name == name)
      ensures forall i :: 0 <= i < cur ==> variables[i].name != name
    {
      cur := 0;
      while cur < |variables| && variables[cur].name != name
        invariant cur <= |variables|
        invariant forall i :: 0 <= i < cur ==> variables[i].name != name
      {
        cur := cur + 1;
      }
    }

    method GetVariableByName(name: string) returns (found: Option<Variable>)
      ensures found.None? <==> name !in NamesOf(variables)
      ensures found.Some? ==> found.value.name == name && found.value in variables
                              && found.value.values == ValuesOf(variables, name)
    {
      var cur := FindName(name);
      FoundAt(variables, name, cur);
      if cur < |variables| {
        found := Some(variables[cur]);
        assert NamesOf(variables)[cur] == name;
      } else {
        found := None;
      }
    }
  }

  lemma {:induction false} AddedAt(vars: seq<Variable>, name: string, value: string, cur: nat)
    requires cur <= |vars| && (cur < |vars| ==> vars[cur].name == name)
    requires forall i :: 0 <= i < cur ==> vars[i].name != name
    ensures Added(vars, name, value) ==
            if cur < |vars| then vars[cur := Variable(name, vars[cur].values + [value])]
            else vars + [Variable(name, [value])]
  {
    if vars != [] && cur > 0 {
      AddedAt(vars[1..], name, value, cur - 1);
    }
  }

  lemma {:induction false} FoundAt(vars: seq<Variable>, name: string, cur: nat)
    requires cur <= |vars| && (cur < |vars| ==> vars[cur].name == name)
    requires forall i :: 0 <= i < cur ==> vars[i].name != name
    ensures ValuesOf(vars, name) == if cur < |vars| then vars[cur].values else []
  {
    if cur > 0 {
      FoundAt(vars[1..], name, cur - 1);
    }
  }

  // ----- What parsing a query stores -----

  /** The rest q of a query, with the name buffer written up to n and the value read so far.
      A name without '=' keeps whatever an earlier, longer name left behind it in the buffer. */
  function Stored(q: string, buf: seq<char>, n: nat, val: Option<string>, vars: seq<Variable>): seq<Variable>
    requires n + |q| < |buf|
  {
    if q == "" then
      if val.Some? then Added(vars, Trim(CStr(buf, 0)), Head(Unescaped(val.value), NUL)) else vars
    else if q[0] == '=' then Stored(q[1..], buf[n := NUL], n, Some(""), vars)
    else if q[0] == '&' then
      var value := if val.Some? then Head(Unescaped(val.value), NUL) else "";
      Stored(q[1..], buf, 0, None, Added(vars, Trim(CStr(buf, 0)), value))
    else if val.Some? then Stored(q[1..], buf, n, Some(val.value + [q[0]]), vars)
    else Stored(q[1..], buf[n := q[0]], n + 1, None, vars)
  }

  function Blanks(n: nat): (r: seq<char>)
    ensures |r| == n && forall i :: 0 <= i < n ==> r[i] == NUL
  {
    if n == 0 then [] else [NUL] + Blanks(n - 1)
  }

  method TakeValue(query: array<char>, k: nat, ghost s: string) returns (value: string)
    requires HoldsAt(query, k, s)
    modifies query
    ensures value == Head(Unescaped(s), NUL)
    ensures forall j :: 0 <= j < query.Length && !(k <= j <= k + |s|) ==> query[j] == old(query[j])
  {
    UnescapeInPlace(query, k, s);
    ghost var u := Unescaped(s);
    value := CStr(query[..], k);
    TextUpTo(query[..], k, u);
  }

  lemma TextUpTo(buf: seq<char>, k: nat, u: string)
    requires k + |u| < |buf| && buf[k..k + |u|] == u && buf[k + |u|] == NUL
    ensures CStr(buf, k) == Head(u, NUL)
  {
    var n := Until(u, NUL);
    assert forall j :: 0 <= j < |u| ==> buf[k + j] == u[j];
    assert forall j :: 0 <= j < n ==> u[j] in u[..n];
    NulAtIs(buf, k, k + n);
    assert CStr(buf, k) == u[..n];
  }

  function Span(s: string, val: int, cp: nat): Option<string>
    requires val <= cp <= |s|
  {
    if val < 0 then None else Some(s[val..cp])
  }

  /** What is left of the query is untouched, and so is the value being read. */
  ghost predicate Unread(query: array<char>, s: string, val: int, cp: nat)
    reads query
  {
    && val <= cp <= |s| < query.Length && query[|s|] == NUL && (forall j :: 0 <= j < |s| ==> s[j] != NUL)
    && forall j :: (if 0 <= val then val else cp) <= j < |s| ==> query[j] == s[j]
  }

  /** One turn of the loop: one character of the query. */
  method TakeChar(r: Request, query: array<char>, ghost s: string, val: int, cp: nat, buf: seq<char>, cp2: nat)
    returns (val': int, cp': nat, buf': seq<char>, cp2': nat)
    requires Unread(query, s, val, cp) && cp < |s| && cp2 <= cp && |buf| == |s| + 1
    modifies r, query
    ensures Unread(query, s, val', cp') && cp' == cp + 1 && cp2' <= cp' && |buf'| == |buf|
    ensures Stored(s[cp'..], buf', cp2', Span(s, val', cp'), r.variables) ==
            Stored(s[cp..], buf, cp2, Span(s, val, cp), old(r.variables))
  {
    val', cp', buf', cp2' := val, cp + 1, buf, cp2;
    Stepped(s, cp, val);
    if query[cp] == '=' {
      buf' := buf[cp2 := NUL];
      val' := cp';
      assert s[val'..cp'] == "";
    } else if query[cp] == '&' {
      EndValue(r, query, s, val, cp, buf);
      cp2' := 0;
      val' := -1;
    } else if val < 0 {
      buf' := buf[cp2 := query[cp]];
      cp2' := cp2 + 1;
    }
  }

  method StoreData(r: Request, query: array<char>, ghost s: string)
    requires HoldsAt(query, 0, s)
    modifies r, query
    ensures r.variables == Stored(s, Blanks(|s| + 1), 0, None, old(r.variables))
  {
    var size := Strlen(query, s);
    var buf := Blanks(size + 1);
    var cp, cp2, val := 0, 0, -1;
    WholeHeld(query, s);
    ghost var goal := Stored(s, buf, 0, None, r.variables);
    assert s[0..] == s;
    while query[cp] != NUL
      invariant Unread(query, s, val, cp) && cp2 <= cp && |buf| == |s| + 1
      invariant Stored(s[cp..], buf, cp2, Span(s, val, cp), r.variables) == goal
      decreases |s| - cp
    {
      val, cp, buf, cp2 := TakeChar(r, query, s, val, cp, buf, cp2);
    }
    assert s[cp..] == "";
    if val >= 0 {
      EndValue(r, query, s, val, cp, buf);
    }
  }

  lemma WholeHeld(query: array<char>, s: string)
    requires HoldsAt(query, 0, s)
    ensures Unread(query, s, -1, 0)
  {
    forall j | 0 <= j < |s| ensures query[j] == s[j] && s[j] != NUL {
      assert query[j] == s[j - 0] && query[j] != NUL;
    }
  }

  lemma Stepped(s: string, cp: nat, val: int)
    requires cp < |s| && val <= cp
    ensures s[cp..][1..] == s[cp + 1..] && s[cp..][0] == s[cp]
    ensures val >= 0 ==> Span(s, val, cp + 1) == Some(s[val..cp] + [s[cp]])
  {
    if val >= 0 {
      assert s[val..cp + 1] == s[val..cp] + [s[cp]];
    }
  }

  method EndValue(r: Request, query: array<char>, ghost s: string, val: int, cp: nat, buf: seq<char>)
    requires Unread(query, s, val, cp) && |buf| > 0
    modifies r, query
    ensures r.variables == Added(old(r.variables), Trim(CStr(buf, 0)),
                                 if val >= 0 then Head(Unescaped(s[val..cp]), NUL) else "")
    ensures forall j :: cp < j < query.Length ==> query[j] == old(query[j])
  {
    query[cp] := NUL;
    var value := "";
    if val >= 0 {
      assert forall j :: 0 <= j < cp - val ==> s[val..cp][j] == s[val + j];
      value := TakeValue(query, val, s[val..cp]);
    }
    r.AddVariable(CStr(buf, 0), value);
  }
}
