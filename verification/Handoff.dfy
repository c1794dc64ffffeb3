/** The restart hand-off: the parent prints its clients (src/wdctl_thread.c:316-326), the child
    reads them back (src/gateway.c:97-232). */
module Handoff {
  import opened Base
  import opened Counters
  import opened ClientList
  import opened CStrings

  const MAX_BUF := 4096
  const I64_MAX := 0x7fff_ffff_ffff_ffff

  // ----- Numbers -----

  function Digit(n: nat): char
    requires n < 10
  {
    "0123456789"[n]
  }

  predicate IsDigit(c: char) {
    '0' <= c <= '9'
  }

  function Decimal(n: nat): (s: string)
    ensures s != "" && forall i :: 0 <= i < |s| ==> IsDigit(s[i])
  {
    if n < 10 then [Digit(n)] else Decimal(n / 10) + [Digit(n % 10)]
  }

  function Signed(n: int): string {
    if n < 0 then "-" + Decimal(-n) else Decimal(n)
  }

  /** The value of the leading digits. */
  function Leading(s: string, acc: nat): nat {
    if s == "" || !IsDigit(s[0]) then acc else Leading(s[1..], 10 * acc + (s[0] - '0') as nat)
  }

  predicate IsSpace(c: char) {
    c == ' ' || '\t' <= c <= '\r'
  }

  /** strtol without its limits: blanks, a sign, digits; whatever follows is ignored. */
  function Number(s: string): int {
    if s == "" then 0
    else if IsSpace(s[0]) then Number(s[1..])
    else if s[0] == '-' then -(Leading(s[1..], 0) as int)
    else if s[0] == '+' then Leading(s[1..], 0)
    else Leading(s, 0)
  }

  /** atoll and atol stop at the limits of 64 bits; atoi keeps the low 32. */
  function Atoll(s: string): int {
    var n := Number(s);
    if n > I64_MAX then I64_MAX else if n < -I64_MAX - 1 then -I64_MAX - 1 else n
  }

  function Atoi(s: string): int {
    var low := Atoll(s) % 0x1_0000_0000;
    if low >= 0x8000_0000 then low - 0x1_0000_0000 else low
  }

  lemma DigitValue(n: nat)
    requires n < 10
    ensures IsDigit(Digit(n)) && (Digit(n) - '0') as nat == n
  {
  }

  lemma {:induction false} LeadingSnoc(a: string, d: char, acc: nat)
    requires IsDigit(d) && forall i :: 0 <= i < |a| ==> IsDigit(a[i])
    ensures Leading(a + [d], acc) == 10 * Leading(a, acc) + (d - '0') as nat
    decreases |a|
  {
    if a != "" {
      assert (a + [d])[1..] == a[1..] + [d];
      LeadingSnoc(a[1..], d, 10 * acc + (a[0] - '0') as nat);
    }
  }

  lemma {:induction false} LeadingDecimal(n: nat)
    ensures Leading(Decimal(n), 0) == n
  {
    if n >= 10 {
      LeadingDecimal(n / 10);
      DigitValue(n % 10);
      LeadingSnoc(Decimal(n / 10), Digit(n % 10), 0);
    } else {
      DigitValue(n);
    }
  }

  lemma NumberSigned(n: int)
    ensures Number(Signed(n)) == n
  {
    if n < 0 {
      NumberNegative(-n);
    } else {
      NumberDecimal(n);
    }
  }

  lemma NumberDecimal(n: nat)
    ensures Number(Decimal(n)) == n
  {
    LeadingDecimal(n);
    assert IsDigit(Decimal(n)[0]);
  }

  lemma NumberNegative(n: nat)
    ensures Number("-" + Decimal(n)) == 0 - n
  {
    var s := "-" + Decimal(n);
    assert s[0] == '-' && s[1..] == Decimal(n);
    LeadingDecimal(n);
  }

  // ----- What the parent prints -----

  function Unsigned32(n: int): nat { n % 0x1_0000_0000 }

  function Unsigned64(n: int): nat { n % U64 }

  function Pair(key: string, value: string): string {
    key + "=" + value
  }

  /** The part of a line after its command. */
  function Fields(c: Client): string {
    Pair("ip", c.ip) + "|" + (Pair("mac", c.mac) + "|" + (Pair("token", c.token) + "|" + Numbers(c)))
  }

  function Numbers(c: Client): string {
    Pair("fw_connection_state", Decimal(Unsigned32(c.state))) + "|" + (Pair("fd", Signed(c.fd)) + "|" + Totals(c.counters))
  }

  function Totals(c: Counters): string {
    Pair("counters_incoming", Decimal(c.incoming))
    + "|" + (Pair("counters_outgoing", Decimal(c.outgoing))
    + "|" + Pair("counters_last_updated", Decimal(Unsigned64(c.lastUpdated))))
  }

  function Line(c: Client): string {
    "CLIENT|" + Fields(c)
  }

  function JoinLines(lines: seq<string>): string {
    if lines == [] then "" else lines[0] + "\n" + JoinLines(lines[1..])
  }

  function Print(cs: seq<Client>): string {
    JoinLines(Map(Line, cs))
  }

  // ----- What the child makes of a line -----

  /** A client being filled in; strings are NULL until their key is seen. */
  datatype Received = Received(
    ip: Option<string>, mac: Option<string>, token: Option<string>, state: int, fd: int, counters: Counters)

  const BLANK := Received(None, None, None, 0, 0, Counters(0, 0, 0, 0, 0, 0, 0))

  /** Which slot a key names (src/gateway.c:187-210); atoll's result is stored unsigned. */
  function Assign(r: Received, key: string, value: string): Received {
    if key == "ip" then r.(ip := Some(value))
    else if key == "mac" then r.(mac := Some(value))
    else if key == "token" then r.(token := Some(value))
    else if key == "fw_connection_state" then r.(state := Atoi(value))
    else if key == "fd" then r.(fd := Atoi(value))
    else if key == "counters_incoming" then
      var n := Wrap(Atoll(value));
      r.(counters := r.counters.(incomingHistory := n, incoming := n, incomingDelta := 0))
    else if key == "counters_outgoing" then
      var n := Wrap(Atoll(value));
      r.(counters := r.counters.(outgoingHistory := n, outgoing := n, outgoingDelta := 0))
    else if key == "counters_last_updated" then r.(counters := r.counters.(lastUpdated := Atoll(value)))
    else r
  }

  /** The effect of one segment: the text before the first '=' names the slot, the text up to
      the next '=' is the value; without '=' there is no value and nothing happens. */
  function Segment(r: Received, seg: string): Received {
    if '=' !in seg then r else Assign(r, Head(seg, '='), Head(Tail(seg, '='), '='))
  }

  /** All segments of a text, left to right. */
  function Segments(r: Received, text: string): Received
    decreases |text|
  {
    if '|' !in text then Segment(r, text) else Segments(Segment(r, Head(text, '|')), Tail(text, '|'))
  }

  /** Segments before and after any bar may be taken one after the other. */
  lemma {:induction false} SegmentsSplit(r: Received, a: string, b: string)
    ensures Segments(r, a + "|" + b) == Segments(Segments(r, a), b)
    decreases |a|
  {
    var i := Until(a, '|');
    var all := a + "|" + b;
    if i == |a| {
      UntilIs(all, '|', |a|);
      assert all[..|a|] == a && all[|a| + 1..] == b;
    } else {
      assert all[..i] == a[..i];
      UntilIs(all, '|', i);
      assert all[i + 1..] == a[i + 1..] + "|" + b;
      SegmentsSplit(Segment(r, a[..i]), a[i + 1..], b);
    }
  }

  /** A text without a bar is one segment; without a second '=' its value is the whole rest. */
  lemma PlainSegment(r: Received, key: string, value: string)
    requires '|' !in key && '=' !in key && '|' !in value && '=' !in value
    ensures Segments(r, Pair(key, value)) == Assign(r, key, value)
  {
    var seg := Pair(key, value);
    assert '|' !in seg;
    assert seg[..|key|] == key;
    UntilIs(seg, '=', |key|);
    assert seg[|key| + 1..] == value;
    assert value[..|value|] == value;
  }

  /** The line in its zeroed buffer. */
  function Buffer(line: string): (buf: seq<char>)
    requires |line| < MAX_BUF
    ensures |buf| == MAX_BUF
  {
    line + seq(MAX_BUF - |line|, _ => NUL)
  }

  predicate InBuffer(k: int) {
    -1 <= k <= MAX_BUF
  }

  /** Slots filled from the pointers the previous line left behind, read while only the command
      has been cut off the new line (src/gateway.c:175-212 in the first turn of the loop). */
  function Leftover(buf: seq<char>, key: int, value: int): Received
    requires |buf| == MAX_BUF && InBuffer(key) && InBuffer(value)
  {
    if key >= 0 && value >= 0 then Assign(BLANK, CStr(buf, key), CStr(buf, value)) else BLANK
  }

  /** What a complete line yields: a client when its command is CLIENT. */
  function ParseLine(line: string, key: int, value: int): Option<Received>
    requires |line| < MAX_BUF && InBuffer(key) && InBuffer(value)
  {
    if Head(line, '|') != "CLIENT" then None
    else if '|' !in line then Some(Leftover(Buffer(line), key, value))
    else Some(Segments(Leftover(Buffer(line)[Until(line, '|') := NUL], key, value), Tail(line, '|')))
  }

  lemma BufferText(line: string)
    requires |line| < MAX_BUF && NUL !in line
    ensures CStr(Buffer(line), 0) == line
  {
    NulAtIs(Buffer(line), 0, |line|);
  }

  /** The inner strsep loop: the first piece is the key, the second the value. */
  method SplitPair(buf: seq<char>, start: nat) returns (cut: seq<char>, key: int, value: int)
    requires |buf| == MAX_BUF && start <= MAX_BUF
    ensures |cut| == MAX_BUF && key == start && InBuffer(value)
    ensures var seg := CStr(buf, start);
            if '=' in seg
            then value == start + Until(seg, '=') + 1 && CStr(cut, key) == Head(seg, '=') && CStr(cut, value) == Head(Tail(seg, '='), '=')
            else value == -1
    ensures forall j :: 0 <= j < MAX_BUF && !(start <= j < start + |CStr(buf, start)|) ==> cut[j] == buf[j]
  {
    var next;
    cut, next := StrSep(buf, start, '=');
    key, value := start, -1;
    if next >= 0 {
      value := next;
      var once := cut;
      cut, next := StrSep(once, value, '=');
      CStrKept(once, cut, key);
      if next >= 0 {
        var twice := cut;
        cut := StrSepAll(twice, next, '=');
        CStrKept(twice, cut, key);
        CStrKept(twice, cut, value);
      }
    }
  }

  /** Where key and value point after a text that began at offset `at`. */
  function LastPair(text: string, at: nat): (int, int)
    decreases |text|
  {
    if '|' in text then LastPair(Tail(text, '|'), at + Until(text, '|') + 1)
    else (at, if '=' in text then at + Until(text, '=') + 1 else -1)
  }

  function Pointers(line: string, key: int, value: int): (int, int) {
    if '|' in line then LastPair(Tail(line, '|'), Until(line, '|') + 1) else (key, value)
  }

  lemma {:induction false} LastPairInBuffer(text: string, at: nat)
    requires at + |text| < MAX_BUF
    ensures InBuffer(LastPair(text, at).0) && InBuffer(LastPair(text, at).1)
    decreases |text|
  {
    if '|' in text {
      LastPairInBuffer(Tail(text, '|'), at + Until(text, '|') + 1);
    }
  }

  function FillSlot(client: Option<Received>, seg: string): Option<Received> {
    if client.Some? then Some(Segment(client.value, seg)) else None
  }

  function ValueAt(seg: string, at: nat): int {
    if '=' in seg then at + Until(seg, '=') + 1 else -1
  }

  /** What the segment loop ends with when it stands at a text. */
  function Ending(client: Option<Received>, text: string, at: nat): (Option<Received>, (int, int)) {
    (if client.Some? then Some(Segments(client.value, text)) else None, LastPair(text, at))
  }

  lemma EndingMore(client: Option<Received>, text: string, at: nat)
    requires '|' in text
    ensures Ending(client, text, at) == Ending(FillSlot(client, Head(text, '|')), Tail(text, '|'), at + Until(text, '|') + 1)
  {
    assert LastPair(text, at) == LastPair(Tail(text, '|'), at + Until(text, '|') + 1);
    if client.Some? {
      assert Segments(client.value, text) == Segments(Segment(client.value, Head(text, '|')), Tail(text, '|'));
    }
  }

  lemma EndingLast(client: Option<Received>, text: string, at: nat)
    requires '|' !in text
    ensures Head(text, '|') == text && Ending(client, text, at) == (FillSlot(client, text), (at as int, ValueAt(text, at)))
  {
    assert LastPair(text, at) == (at as int, ValueAt(text, at));
    if client.Some? {
      assert Segments(client.value, text) == Segment(client.value, text);
    }
  }

  /** One turn of the segment loop: cut off a segment, split it, fill its slot. */
  method ReadSegment(buf: seq<char>, token: nat, client: Option<Received>)
    returns (cut: seq<char>, running: int, r: Option<Received>, key: int, value: int)
    requires |buf| == MAX_BUF && token <= MAX_BUF
    ensures |cut| == MAX_BUF && key == token
    ensures r == FillSlot(client, Head(CStr(buf, token), '|')) && value == ValueAt(Head(CStr(buf, token), '|'), token)
    ensures '|' in CStr(buf, token) ==>
              && running == token + Until(CStr(buf, token), '|') + 1 && running <= MAX_BUF
              && CStr(cut, running) == Tail(CStr(buf, token), '|')
    ensures '|' !in CStr(buf, token) ==> running == -1
  {
    var once;
    once, running := StrSep(buf, token, '|');
    cut, key, value := SplitPair(once, token);
    if running >= 0 {
      CStrKept(once, cut, running);
    }
    r := client;
    if r.Some? && value >= 0 {
      r := Some(Assign(r.value, CStr(cut, key), CStr(cut, value)));
    }
  }

  /** The segments after the command, with the buffer cut as they are read
      (src/gateway.c:158-213 from the second turn on). */
  method ReadSegments(buf: seq<char>, start: nat, client: Option<Received>) returns (r: Option<Received>, key: int, value: int)
    requires |buf| == MAX_BUF && start <= MAX_BUF
    ensures (r, (key, value)) == Ending(client, CStr(buf, start), start)
  {
    var cut, running := buf, start as int;
    ghost var goal := Ending(client, CStr(buf, start), start);
    r, key, value := client, -1, -1;
    while running >= 0
      invariant |cut| == MAX_BUF && -1 <= running <= MAX_BUF
      invariant running >= 0 ==> Ending(r, CStr(cut, running), running) == goal
      invariant running < 0 ==> (r, (key, value)) == goal
      decreases if running < 0 then 0 else MAX_BUF - running + 1
    {
      if '|' in CStr(cut, running) {
        EndingMore(r, CStr(cut, running), running);
      } else {
        EndingLast(r, CStr(cut, running), running);
      }
      cut, running, r, key, value := ReadSegment(cut, running, r);
    }
  }

  /** A complete line: cut off the command, then the segments. The key and value pointers come
      from the previous line and go on to the next. */
  method ReadLine(line: string, key0: int, value0: int) returns (client: Option<Received>, key: int, value: int)
    requires |line| < MAX_BUF && NUL !in line && InBuffer(key0) && InBuffer(value0)
    ensures client == ParseLine(line, key0, value0)
    ensures (key, value) == Pointers(line, key0, value0)
  {
    var buf := Buffer(line);
    BufferText(line);
    var running;
    key, value := key0, value0;
    client := None;
    var cut;
    cut, running := StrSep(buf, 0, '|');
    if CStr(cut, 0) == "CLIENT" {
      client := Some(BLANK);
      if key >= 0 && value >= 0 {
        client := Some(Assign(BLANK, CStr(cut, key), CStr(cut, value)));
      }
    }
    if running >= 0 {
      assert cut == buf[Until(line, '|') := NUL];
      client, key, value := ReadSegments(cut, running, client);
    }
  }

  // ----- The stream -----

  predicate Breaks(c: char) {
    c == '\n' || c == NUL
  }

  function LineLength(s: string): nat {
    FirstIndex(Breaks, s)
  }

  /** Every complete line fits the buffer. */
  predicate Fits(s: string)
    decreases |s|
  {
    LineLength(s) < MAX_BUF && (LineLength(s) < |s| ==> Fits(s[LineLength(s) + 1..]))
  }

  /** A parsed client goes to the head of the list. */
  function Insert(r: Option<Received>, list: seq<Received>): seq<Received> {
    if r.Some? then [r.value] + list else list
  }

  /** What one line does: the client it yields, if any, and where key and value point after it. */
  function LineStep(line: string, at: (int, int)): (Option<Received>, (int, int)) {
    if |line| < MAX_BUF && InBuffer(at.0) && InBuffer(at.1)
    then (ParseLine(line, at.0, at.1), Pointers(line, at.0, at.1))
    else (None, at)
  }

  type LineParser = (string, (int, int)) -> (Option<Received>, (int, int))

  /** The clients read from a stream, the last one first; a line without its end is dropped. */
  function ParseStream(f: LineParser, s: string, at: (int, int), list: seq<Received>): seq<Received>
    decreases |s|
  {
    var i := LineLength(s);
    if i == |s| then list
    else ParseStream(f, s[i + 1..], f(s[..i], at).1, Insert(f(s[..i], at).0, list))
  }

  lemma PointersInBuffer(line: string, key: int, value: int)
    requires |line| < MAX_BUF && InBuffer(key) && InBuffer(value)
    ensures InBuffer(Pointers(line, key, value).0) && InBuffer(Pointers(line, key, value).1)
  {
    if '|' in line {
      LastPairInBuffer(Tail(line, '|'), Until(line, '|') + 1);
    }
  }

  predicate Unbroken(s: string) {
    NUL !in s && '\n' !in s
  }

  /** Reading one complete line off a stream. */
  lemma StreamStep(f: LineParser, s: string, n: nat, at: (int, int), list: seq<Received>)
    requires n < |s| && Breaks(s[n]) && (forall j :: 0 <= j < n ==> !Breaks(s[j])) && Fits(s)
    ensures n < MAX_BUF && Unbroken(s[..n]) && Fits(s[n + 1..])
    ensures ParseStream(f, s, at, list) == ParseStream(f, s[n + 1..], f(s[..n], at).1, Insert(f(s[..n], at).0, list))
  {
    FirstIndexUnique(Breaks, s, n);
  }

  lemma StreamEnd(f: LineParser, s: string, at: (int, int), list: seq<Received>)
    requires forall j :: 0 <= j < |s| ==> !Breaks(s[j])
    ensures ParseStream(f, s, at, list) == list
  {
    FirstIndexUnique(Breaks, s, |s|);
  }

  ghost predicate Models(f: LineParser) {
    forall line, at {:trigger LineStep(line, at)} :: f(line, at) == LineStep(line, at)
  }

  /** A complete line of n characters is parsed and its client, if any, inserted. */
  method TakeLine(s: string, n: nat, key0: int, value0: int, list0: seq<Received>, ghost f: LineParser)
    returns (key: int, value: int, list: seq<Received>)
    requires n < |s| && Breaks(s[n]) && (forall j :: 0 <= j < n ==> !Breaks(s[j])) && Fits(s)
    requires InBuffer(key0) && InBuffer(value0) && Models(f)
    ensures InBuffer(key) && InBuffer(value) && Fits(s[n + 1..])
    ensures ParseStream(f, s[n + 1..], (key, value), list) == ParseStream(f, s, (key0, value0), list0)
  {
    StreamStep(f, s, n, (key0, value0), list0);
    var client;
    PointersInBuffer(s[..n], key0, value0);
    client, key, value := ReadLine(s[..n], key0, value0);
    assert LineStep(s[..n], (key0, value0)) == (client, (key, value));
    list := Insert(client, list0);
  }

  /** get_clients_from_parent: byte by byte until a line is complete, and line by line into the
      list (src/gateway.c:142-226). */
  method ReceiveWith(s: string, ghost f: LineParser) returns (list: seq<Received>)
    requires Fits(s) && Models(f)
    ensures list == ParseStream(f, s, (-1, -1), [])
  {
    var key, value, rest, n := -1, -1, s, 0;
    list := [];
    while n < |rest|
      invariant 0 <= n <= |rest| && InBuffer(key) && InBuffer(value) && Fits(rest)
      invariant forall j :: 0 <= j < n ==> !Breaks(rest[j])
      invariant ParseStream(f, rest, (key, value), list) == ParseStream(f, s, (-1, -1), [])
      decreases |rest| - n
    {
      if Breaks(rest[n]) {
        key, value, list := TakeLine(rest, n, key, value, list, f);
        rest, n := rest[n + 1..], 0;
      } else {
        n := n + 1;
      }
    }
    StreamEnd(f, rest, (key, value), list);
  }

  method Receive(s: string) returns (list: seq<Received>)
    requires Fits(s)
    ensures list == ParseStream(LineStep, s, (-1, -1), [])
  {
    list := ReceiveWith(s, LineStep);
  }

  // ----- What the child makes of the stream -----

  /** Every string the rest of the program reads is there. */
  predicate Complete(r: Received) {
    r.ip.Some? && r.mac.Some? && r.token.Some?
  }

  predicate AllComplete(rs: seq<Received>) {
    forall i :: 0 <= i < |rs| ==> Complete(rs[i])
  }

  function AsClient(r: Received, id: nat): Client
    requires Complete(r)
  {
    Client(id, r.ip.value, r.mac.value, r.token.value, r.state, r.fd, r.counters)
  }

  /** The clients received, numbered from 1 in the order received; the last one is first. */
  function Adopted(rs: seq<Received>): (cs: seq<Client>)
    requires AllComplete(rs)
    ensures |cs| == |rs|
    ensures forall i :: 0 <= i < |rs| ==> Complete(rs[i]) && cs[i] == AsClient(rs[i], |rs| - i)
  {
    if rs == [] then []
    else
      assert Complete(rs[0]);
      assert forall i :: 0 <= i < |rs| - 1 ==> rs[1..][i] == rs[i + 1] && Complete(rs[i + 1]);
      [AsClient(rs[0], |rs|)] + Adopted(rs[1..])
  }

  function Delivered(cs: seq<Client>): seq<Received> {
    ParseStream(LineStep, Print(cs), (-1, -1), [])
  }

  /** The child can read the stream of a list: no line overruns its buffer and no client lacks a string. */
  predicate Readable(cs: seq<Client>) {
    Fits(Print(cs)) && AllComplete(Delivered(cs))
  }

  /** The list of the child after a restart. */
  function Child(cs: seq<Client>): seq<Client>
    requires Readable(cs)
  {
    Adopted(Delivered(cs))
  }

  /** A client as the child should inherit it. */
  function Inherited(c: Client, id: nat): Client {
    c.(id := id, counters := Inherit(c.counters))
  }

  /** The list the child should have: reversed, with ids that count up from 1 in the order sent. */
  function HandOff(cs: seq<Client>): seq<Client> {
    if cs == [] then []
    else [Inherited(cs[|cs| - 1], |cs|)] + HandOff(cs[..|cs| - 1])
  }

  lemma {:induction false} HandOffAt(cs: seq<Client>, i: nat)
    requires i < |cs|
    ensures |HandOff(cs)| == |cs| && HandOff(cs)[i] == Inherited(cs[|cs| - 1 - i], |cs| - i)
  {
    var n := |cs| - 1;
    if i > 0 {
      HandOffAt(cs[..n], i - 1);
    } else if n > 0 {
      HandOffAt(cs[..n], 0);
    }
  }

  /** Field by field: the id counts the order received, totals become history, deltas start at zero
      and everything else is as sent. */
  lemma {:induction false} HandedOver(cs: seq<Client>, k: nat)
    requires k < |cs|
    ensures |HandOff(cs)| == |cs| && HandOff(cs)[|cs| - 1 - k] == Inherited(cs[k], k + 1)
    ensures var c, n := cs[k], cs[k].counters;
            Inherited(cs[k], k + 1) ==
            Client(k + 1, c.ip, c.mac, c.token, c.state, c.fd,
                   Counters(n.incoming, n.outgoing, n.incoming, n.outgoing, 0, 0, n.lastUpdated))
  {
    HandOffAt(cs, |cs| - 1 - k);
  }

  lemma HandOffSize(cs: seq<Client>)
    ensures |HandOff(cs)| == |cs|
  {
    if cs != [] {
      HandOffAt(cs, 0);
    }
  }
}
