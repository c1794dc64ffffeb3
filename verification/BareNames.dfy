/** Queries in which some names stand without '=': what the reused name buffer of
    _httpd_storeData makes of them (libhttpd/protocol.c:317-372). */
module BareNames {
  import opened Base
  import opened CStrings
  import opened Query
  import opened Variables
  import opened QueryTheorems

  /** A name with a value after '=', or a bare name. */
  datatype Item = Item(name: string, value: Option<string>)

  predicate CleanItem(item: Item) {
    CleanName(item.name) && (item.value.Some? ==> Octets(item.value.value) && NUL !in item.value.value)
  }

  predicate CleanItems(items: seq<Item>) {
    forall i :: 0 <= i < |items| ==> CleanItem(items[i])
  }

  function ItemText(item: Item): string
    requires CleanItem(item)
  {
    if item.value.Some? then item.name + "=" + Escape(item.value.value) else item.name
  }

  function Text(items: seq<Item>): string
    requires CleanItems(items)
  {
    if items == [] then ""
    else if |items| == 1 then ItemText(items[0])
    else ItemText(items[0]) + "&" + Text(items[1..])
  }

  // ----- What is stored -----

  /** The name buffer after an item: its name from the start, and a NUL only if '=' followed. */
  function Written(buf: seq<char>, item: Item): (r: seq<char>)
    requires |item.name| < |buf|
    ensures |r| == |buf|
  {
    var head := item.name + if item.value.Some? then [NUL] else [];
    head + buf[|head|..]
  }

  function ValueOf(item: Item): string {
    if item.value.Some? then item.value.value else ""
  }

  predicate NamesFit(items: seq<Item>, size: nat) {
    forall i :: 0 <= i < |items| ==> |items[i].name| < size
  }

  /** The name and value each item is stored under; a bare name at the very end is dropped. */
  function Entries(items: seq<Item>, buf: seq<char>): (fields: seq<Field>)
    requires NamesFit(items, |buf|)
    ensures |fields| == if items != [] && items[|items| - 1].value.None? then |items| - 1 else |items|
  {
    if items == [] || (|items| == 1 && items[0].value.None?) then []
    else
      var next := Written(buf, items[0]);
      [Field(Trim(CStr(next, 0)), ValueOf(items[0]))] + Entries(items[1..], next)
  }

  /** Reading a bare name leaves the rest of the buffer as it was. */
  lemma {:induction false} ReadsBare(name: string, k: nat, rest: string, buf: seq<char>, vars: seq<Variable>)
    requires '=' !in name && '&' !in name && k <= |name| && |name| + |rest| < |buf| && buf[..k] == name[..k]
    ensures Stored(name[k..] + rest, buf, k, None, vars) == Stored(rest, name + buf[|name|..], |name|, None, vars)
    decreases |name| - k
  {
    var q := name[k..] + rest;
    if k == |name| {
      assert name[..k] == name && q == rest;
      assert buf == name + buf[|name|..];
    } else {
      var c := name[k];
      assert c in name;
      assert q[0] == c && q[1..] == name[k + 1..] + rest;
      assert buf[k := c][..k + 1] == name[..k + 1];
      ReadsBare(name, k + 1, rest, buf[k := c], vars);
      assert buf[k := c][|name|..] == buf[|name|..];
    }
  }

  /** Reading a name and its '=' puts a NUL behind the name. */
  lemma ReadsGiven(name: string, rest: string, buf: seq<char>, vars: seq<Variable>)
    requires '=' !in name && '&' !in name && |name| + 1 + |rest| < |buf|
    ensures Stored(name + "=" + rest, buf, 0, None, vars) ==
            Stored(rest, name + [NUL] + buf[|name| + 1..], |name|, Some(""), vars)
  {
    assert buf[..0] == name[..0] && name[0..] + ("=" + rest) == name + "=" + rest;
    ReadsBare(name, 0, "=" + rest, buf, vars);
    var next := name + buf[|name|..];
    assert ("=" + rest)[1..] == rest;
    assert next[|name| := NUL] == name + [NUL] + buf[|name| + 1..];
  }

  lemma ItemStored(item: Item, rest: string, buf: seq<char>, vars: seq<Variable>)
    requires CleanItem(item) && |ItemText(item)| + |rest| < |buf|
    ensures |item.name| + |rest| < |buf|
    ensures Stored(ItemText(item) + rest, buf, 0, None, vars) ==
            Stored(rest, Written(buf, item), |item.name|,
                   if item.value.Some? then Some(Escape(item.value.value)) else None, vars)
  {
    if item.value.Some? {
      var e := Escape(item.value.value);
      EscapeIsPlain(item.value.value);
      assert ItemText(item) + rest == item.name + "=" + (e + rest);
      ReadsGiven(item.name, e + rest, buf, vars);
      ReadsValue(e, rest, Written(buf, item), |item.name|, "", vars);
      assert "" + e == e;
    } else {
      assert buf[..0] == item.name[..0] && item.name[0..] == item.name;
      ReadsBare(item.name, 0, rest, buf, vars);
      assert item.name + [] == item.name;
    }
  }

  lemma {:induction false} TextSize(items: seq<Item>)
    requires CleanItems(items)
    ensures NamesFit(items, |Text(items)| + 1)
  {
    if items != [] {
      assert CleanItem(items[0]);
      TextSize(items[1..]);
      forall i | 0 <= i < |items| ensures |items[i].name| < |Text(items)| + 1 {
        assert i > 0 ==> items[i] == items[1..][i - 1];
      }
    }
  }

  /** A query is stored item by item, under what the buffer holds as the name. */
  lemma {:induction false} TextIsStored(items: seq<Item>, buf: seq<char>, vars: seq<Variable>)
    requires CleanItems(items) && |Text(items)| < |buf| && NamesFit(items, |buf|)
    ensures Stored(Text(items), buf, 0, None, vars) == AddAll(Entries(items, buf), vars)
    decreases |items|
  {
    if items != [] {
      var item, more := items[0], items[1..];
      var rest := if more == [] then "" else "&" + Text(more);
      assert CleanItem(item) && CleanItems(more) && NamesFit(more, |buf|);
      assert Text(items) == ItemText(item) + rest;
      ItemStored(item, rest, buf, vars);
      if item.value.Some? {
        ValueArrives(item.value.value);
      }
      if more != [] {
        assert rest[0] == '&' && rest[1..] == Text(more);
        assert PlusToSpace("") == "";
        var field := Field(Trim(CStr(Written(buf, item), 0)), ValueOf(item));
        TextIsStored(more, Written(buf, item), Added(vars, field.name, PlusToSpace(field.value)));
        AddsFirst(field, Entries(more, Written(buf, item)), vars);
      } else if item.value.Some? {
        AddsFirst(Field(Trim(CStr(Written(buf, item), 0)), ValueOf(item)), [], vars);
      }
    }
  }

  lemma {:induction false} AddsFirst(field: Field, fields: seq<Field>, vars: seq<Variable>)
    ensures AddAll([field] + fields, vars) == AddAll(fields, Added(vars, field.name, PlusToSpace(field.value)))
  {
    assert ([field] + fields)[1..] == fields;
  }

  // ----- When a bare name is stored as itself -----

  /** The last character, or terminator, that one of the items put at position p, if any did. */
  function LastAt(items: seq<Item>, p: nat): Option<char> {
    if items == [] then None
    else
      var item := items[|items| - 1];
      if p < |item.name| then Some(item.name[p])
      else if p == |item.name| && item.value.Some? then Some(NUL)
      else LastAt(items[..|items| - 1], p)
  }

  /** The buffer once the items have been read. */
  function BufferAfter(items: seq<Item>, buf: seq<char>): (r: seq<char>)
    requires NamesFit(items, |buf|)
    ensures |r| == |buf|
  {
    if items == [] then buf else BufferAfter(items[1..], Written(buf, items[0]))
  }

  lemma {:induction false} BufferSnoc(items: seq<Item>, item: Item, buf: seq<char>)
    requires NamesFit(items, |buf|) && |item.name| < |buf|
    ensures NamesFit(items + [item], |buf|)
    ensures BufferAfter(items + [item], buf) == Written(BufferAfter(items, buf), item)
    decreases |items|
  {
    if items == [] {
      assert items + [item] == [item] && [item][1..] == [];
    } else {
      assert (items + [item])[1..] == items[1..] + [item];
      BufferSnoc(items[1..], item, Written(buf, items[0]));
    }
  }

  /** Each position holds the last thing put there. */
  lemma {:induction false} HoldsLast(items: seq<Item>, buf: seq<char>, p: nat)
    requires NamesFit(items, |buf|) && p < |buf|
    ensures BufferAfter(items, buf)[p] == match LastAt(items, p) case Some(c) => c case None => buf[p]
    decreases |items|
  {
    if items != [] {
      var n := |items| - 1;
      assert items == items[..n] + [items[n]];
      BufferSnoc(items[..n], items[n], buf);
      HoldsLast(items[..n], buf, p);
    }
  }

  lemma {:induction false} EntryAt(items: seq<Item>, buf: seq<char>, k: nat)
    requires NamesFit(items, |buf|) && k < |Entries(items, buf)|
    ensures NamesFit(items[..k + 1], |buf|)
    ensures Entries(items, buf)[k] == Field(Trim(CStr(BufferAfter(items[..k + 1], buf), 0)), ValueOf(items[k]))
    decreases k
  {
    assert items[..k + 1][1..] == items[1..][..k];
    if k > 0 {
      EntryAt(items[1..], Written(buf, items[0]), k - 1);
      assert items[1..][k - 1] == items[k];
    }
  }

  /** A name written over an old buffer is read back as itself if and only if a NUL follows it. */
  lemma NameReadBack(before: seq<char>, name: string)
    requires NUL !in name && |name| < |before|
    ensures CStr(name + before[|name|..], 0) == name <==> before[|name|] == NUL
    ensures name <= CStr(name + before[|name|..], 0)
  {
    var buf := name + before[|name|..];
    var n := NulAt(buf, 0);
    forall j | 0 <= j < |name| ensures buf[j] != NUL {
      assert buf[j] == name[j] && name[j] in name;
    }
    assert buf[|name|] == before[|name|];
    assert n >= |name|;
    assert buf[..n][..|name|] == name;
  }

  lemma TrimKeeps(s: string)
    requires s != "" ==> !IsBlank(s[0])
    ensures Trim(s) == s
  {
  }

  /** Position 0 only ever holds the first character of a name. */
  lemma {:induction false} FirstIsNotBlank(items: seq<Item>)
    requires CleanItems(items)
    ensures LastAt(items, 0).Some? ==> !IsBlank(LastAt(items, 0).value)
  {
    if items != [] {
      assert CleanItem(items[|items| - 1]);
      FirstIsNotBlank(items[..|items| - 1]);
    }
  }

  lemma NameTrims(before: seq<char>, name: string)
    requires CleanName(name) && |name| < |before|
    requires name == "" && before[0] != NUL ==> !IsBlank(before[0])
    ensures Trim(CStr(name + before[|name|..], 0)) == name <==> before[|name|] == NUL
  {
    var read := CStr(name + before[|name|..], 0);
    NameReadBack(before, name);
    assert name != "" ==> read[0] == name[0];
    assert name == "" && read != "" ==> read[0] == before[0] && before[0] != NUL;
    TrimKeeps(read);
  }

  /** The name a bare item is stored under, in terms of what came before it. */
  lemma {:induction false} BareEntry(items: seq<Item>, buf: seq<char>, k: nat)
    requires NamesFit(items, |buf|) && k < |Entries(items, buf)| && items[k].value.None?
    ensures NamesFit(items[..k], |buf|)
    ensures Entries(items, buf)[k].value == ""
    ensures Entries(items, buf)[k].name == Trim(CStr(items[k].name + BufferAfter(items[..k], buf)[|items[k].name|..], 0))
  {
    EntryAt(items, buf, k);
    assert items[..k + 1] == items[..k] + [items[k]];
    BufferSnoc(items[..k], items[k], buf);
    assert items[k].name + [] == items[k].name;
  }

  lemma {:induction false} NameSurvives(done: seq<Item>, name: string, size: nat)
    requires CleanItems(done) && CleanName(name) && NamesFit(done, size) && |name| < size
    ensures var before := BufferAfter(done, Blanks(size));
            Trim(CStr(name + before[|name|..], 0)) == name <==> LastAt(done, |name|) in {None, Some(NUL)}
  {
    HoldsLast(done, Blanks(size), |name|);
    HoldsLast(done, Blanks(size), 0);
    FirstIsNotBlank(done);
    NameTrims(BufferAfter(done, Blanks(size)), name);
  }

  /** For every query and every bare name in it that is followed by '&': the name is stored as
      itself if and only if the position behind it was never written or last got a terminator. */
  lemma {:induction false} BareNameSurvivesIff(items: seq<Item>, k: nat)
    requires CleanItems(items) && k < |items| - 1 && items[k].value.None?
    ensures NamesFit(items, |Text(items)| + 1)
    ensures var fields := Entries(items, Blanks(|Text(items)| + 1));
            && Stored(Text(items), Blanks(|Text(items)| + 1), 0, None, []) == AddAll(fields, [])
            && k < |fields| && fields[k].value == ""
            && (fields[k].name == items[k].name <==> LastAt(items[..k], |items[k].name|) in {None, Some(NUL)})
  {
    var size := |Text(items)| + 1;
    TextSize(items);
    TextIsStored(items, Blanks(size), []);
    EntrySurvives(items, k, size);
  }

  lemma {:induction false} EntrySurvives(items: seq<Item>, k: nat, size: nat)
    requires CleanItems(items) && NamesFit(items, size) && k < |items| - 1 && items[k].value.None?
    ensures var fields := Entries(items, Blanks(size));
            && k < |fields| && fields[k].value == ""
            && (fields[k].name == items[k].name <==> LastAt(items[..k], |items[k].name|) in {None, Some(NUL)})
  {
    BareEntry(items, Blanks(size), k);
    assert CleanItem(items[k]);
    NameSurvives(items[..k], items[k].name, size);
  }

  /** The name a given item is stored under. */
  lemma {:induction false} GivenEntry(items: seq<Item>, buf: seq<char>, k: nat)
    requires NamesFit(items, |buf|) && k < |Entries(items, buf)|
    ensures NamesFit(items[..k], |buf|)
    ensures Entries(items, buf)[k] ==
            Field(Trim(CStr(Written(BufferAfter(items[..k], buf), items[k]), 0)), ValueOf(items[k]))
  {
    EntryAt(items, buf, k);
    assert items[..k + 1] == items[..k] + [items[k]];
    BufferSnoc(items[..k], items[k], buf);
  }

  /** A name with a value always survives. */
  lemma {:induction false} GivenNameSurvives(items: seq<Item>, buf: seq<char>, k: nat)
    requires CleanItems(items) && NamesFit(items, |buf|) && k < |Entries(items, buf)| && items[k].value.Some?
    ensures Entries(items, buf)[k] == Field(items[k].name, items[k].value.value)
  {
    GivenEntry(items, buf, k);
    assert CleanItem(items[k]);
    GivenRead(BufferAfter(items[..k], buf), items[k]);
  }

  lemma GivenRead(before: seq<char>, item: Item)
    requires CleanItem(item) && item.value.Some? && |item.name| < |before|
    ensures Trim(CStr(Written(before, item), 0)) == item.name
  {
    var next := Written(before, item);
    assert next[..|item.name|] == item.name && next[|item.name|] == NUL;
    NameEndsHere(next, item.name);
    TrimKeeps(item.name);
  }

  /** The input at which it fails: a bare "c" after "ab=1" is stored as "cb". */
  lemma SpoiledByLongerName()
    ensures var items := [Item("ab", Some("1")), Item("c", None), Item("", None)];
            CleanItems(items) && LastAt(items[..1], 1) == Some('b')
    ensures Stored("ab=1&c&", Blanks(8), 0, None, []) == [Variable("ab", ["1"]), Variable("cb", [""])]
  {
    var items := [Item("ab", Some("1")), Item("c", None), Item("", None)];
    assert items[..1] == [items[0]];
    assert "ab"[1] == 'b';
    QueryTheorems.BareNameIsSpoiled();
  }
}
