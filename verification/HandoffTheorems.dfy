/** When and why the restart hand-off preserves the sessions. */
module HandoffTheorems {
  import opened Base
  import opened Counters
  import opened ClientList
  import opened CStrings
  import opened Handoff

  /** No character the format gives a meaning to. */
  predicate Plain(s: string) {
    '|' !in s && '=' !in s
  }

  predicate OneLine(c: Client) {
    Unbroken(c.ip) && Unbroken(c.mac) && Unbroken(c.token)
  }

  /** The widths of the C fields. */
  predicate InRange(c: Client) {
    && -0x8000_0000 <= c.state < 0x8000_0000
    && -0x8000_0000 <= c.fd < 0x8000_0000
    && -I64_MAX - 1 <= c.counters.lastUpdated <= I64_MAX
  }

  /** Strings without separators, and totals a signed 64-bit number can hold. */
  predicate Transferable(c: Client) {
    && Plain(c.ip) && Plain(c.mac) && Plain(c.token)
    && c.counters.incoming <= I64_MAX && c.counters.outgoing <= I64_MAX && c.counters.lastUpdated >= 0
  }

  /** What should arrive: the same session, its totals taken as history. */
  function Arrives(c: Client): Received {
    Received(Some(c.ip), Some(c.mac), Some(c.token), c.state, c.fd, Inherit(c.counters))
  }

  // ----- Pointers left over from the previous line -----

  predicate IsSlot(key: string) {
    key in {"ip", "mac", "token", "fw_connection_state", "fd", "counters_incoming", "counters_outgoing", "counters_last_updated"}
  }

  lemma AssignUnknown(r: Received, key: string, value: string)
    requires !IsSlot(key)
    ensures Assign(r, key, value) == r
  {
  }

  lemma SlotsEndInLetters(key: string)
    requires IsSlot(key)
    ensures key != "" && 'a' <= key[|key| - 1] <= 'z'
  {
  }

  lemma LineEndsInDigit(c: Client)
    ensures |Line(c)| > 7 && Line(c)[..6] == "CLIENT" && Line(c)[6] == '|' && IsDigit(Line(c)[|Line(c)| - 1])
  {
    var d := Decimal(Unsigned64(c.counters.lastUpdated));
    var front := Line(c)[..|Line(c)| - |d|];
    assert Line(c) == front + d;
    assert Line(c)[|Line(c)| - 1] == d[|d| - 1];
  }

  /** Whatever the old key pointer points at in a printed line, it is not the name of a slot:
      it is empty or ends in the command's last letter or the line's last digit. */
  lemma LeftoverIsHarmless(c: Client, key: int, value: int)
    requires |Line(c)| < MAX_BUF && NUL !in Line(c) && InBuffer(key) && InBuffer(value)
    ensures Leftover(Buffer(Line(c))[6 := NUL], key, value) == BLANK
  {
    LineEndsInDigit(c);
    NoSlotInLine(Line(c), key, value);
  }

  lemma NoSlotInLine(line: string, key: int, value: int)
    requires 7 < |line| < MAX_BUF && NUL !in line && InBuffer(key) && InBuffer(value)
    requires line[..6] == "CLIENT" && IsDigit(line[|line| - 1])
    ensures Leftover(Buffer(line)[6 := NUL], key, value) == BLANK
  {
    if key >= 0 && value >= 0 {
      var buf := Buffer(line)[6 := NUL];
      var text := CStr(buf, key);
      TextAfterCut(line, buf, key);
      assert line[5] == line[..6][5] == 'T';
      assert text != "" ==> text[|text| - 1] == 'T' || text[|text| - 1] == line[|line| - 1];
      if IsSlot(text) {
        SlotsEndInLetters(text);
      }
      AssignUnknown(BLANK, text, CStr(buf, value));
    }
  }

  // ----- Numbers -----

  lemma DecimalIsPlain(n: nat)
    ensures Plain(Decimal(n)) && Number(Decimal(n)) == n
  {
    LeadingDecimal(n);
    assert IsDigit(Decimal(n)[0]);
    forall i | 0 <= i < |Decimal(n)| ensures Decimal(n)[i] != '|' && Decimal(n)[i] != '=' {
      assert IsDigit(Decimal(n)[i]);
    }
  }

  lemma SignedIsPlain(n: int)
    ensures Plain(Signed(n)) && Number(Signed(n)) == n
  {
    DecimalIsPlain(if n < 0 then -n else n);
    NumberSigned(n);
  }

  lemma AtoiKeeps(s: string, n: int)
    requires -0x8000_0000 <= n < 0x8000_0000 && (Number(s) == n || Number(s) == n + 0x1_0000_0000)
    ensures Atoi(s) == n
  {
  }

  lemma StateSurvives(n: int)
    requires -0x8000_0000 <= n < 0x8000_0000
    ensures Atoi(Decimal(Unsigned32(n))) == n && Atoi(Signed(n)) == n
  {
    DecimalIsPlain(Unsigned32(n));
    SignedIsPlain(n);
    AtoiKeeps(Signed(n), n);
    assert Unsigned32(n) == n || Unsigned32(n) == n + 0x1_0000_0000;
    AtoiKeeps(Decimal(Unsigned32(n)), n);
  }

  lemma AtollKeeps(s: string, n: nat)
    requires Number(s) == n
    ensures Atoll(s) == if n <= I64_MAX then n else I64_MAX
    ensures Wrap(Atoll(s)) == Atoll(s)
  {
    SmallWrap(Atoll(s));
  }

  lemma TotalSurvives(n: u64)
    ensures Wrap(Atoll(Decimal(n))) == if n <= I64_MAX then n else I64_MAX
  {
    DecimalIsPlain(n);
    AtollKeeps(Decimal(n), n);
  }

  lemma TimeSurvives(n: int)
    requires -I64_MAX - 1 <= n <= I64_MAX
    ensures Atoll(Decimal(Unsigned64(n))) == if n >= 0 then n else I64_MAX
  {
    assert Unsigned64(n) == if n >= 0 then n else n + U64;
    DecimalIsPlain(Unsigned64(n));
    AtollKeeps(Decimal(Unsigned64(n)), Unsigned64(n));
  }

  lemma FillNumber(r: Received, key: string, value: string, rest: string)
    requires Plain(key) && Plain(value)
    ensures Segments(r, Pair(key, value) + "|" + rest) == Segments(Assign(r, key, value), rest)
  {
    PlainSegment(r, key, value);
    SegmentsSplit(r, Pair(key, value), rest);
  }

  /** Two plain fields in a row, and what follows them. */
  lemma TwoFields(r: Received, key: string, value: string, next: string, other: string)
    requires Plain(key) && Plain(value) && Plain(next) && Plain(other)
    ensures Segments(r, Pair(key, value) + "|" + Pair(next, other)) == Assign(Assign(r, key, value), next, other)
  {
    FillNumber(r, key, value, Pair(next, other));
    PlainSegment(Assign(r, key, value), next, other);
  }

  lemma CounterKeysArePlain()
    ensures Plain("counters_incoming") && Plain("counters_outgoing") && Plain("counters_last_updated")
  {
  }

  lemma AssignIncoming(r: Received, n: u64)
    ensures Assign(r, "counters_incoming", Decimal(n)) == r.(counters := r.counters.(
              incomingHistory := Arriving(n), incoming := Arriving(n), incomingDelta := 0))
  {
    TotalSurvives(n);
  }

  lemma AssignOutgoing(r: Received, n: u64)
    ensures Assign(r, "counters_outgoing", Decimal(n)) == r.(counters := r.counters.(
              outgoingHistory := Arriving(n), outgoing := Arriving(n), outgoingDelta := 0))
  {
    TotalSurvives(n);
  }

  lemma AssignTime(r: Received, n: int)
    requires -I64_MAX - 1 <= n <= I64_MAX
    ensures Assign(r, "counters_last_updated", Decimal(Unsigned64(n))) ==
            r.(counters := r.counters.(lastUpdated := if n >= 0 then n else I64_MAX))
  {
    TimeSurvives(n);
  }

  lemma TotalsArrive(r: Received, c: Counters)
    requires -I64_MAX - 1 <= c.lastUpdated <= I64_MAX
    ensures Segments(r, Totals(c)) == r.(counters := ArrivingCounters(c))
  {
    var out, time := Decimal(c.outgoing), Decimal(Unsigned64(c.lastUpdated));
    CounterKeysArePlain();
    DecimalIsPlain(c.incoming);
    DecimalIsPlain(c.outgoing);
    DecimalIsPlain(Unsigned64(c.lastUpdated));
    FillNumber(r, "counters_incoming", Decimal(c.incoming), Pair("counters_outgoing", out) + "|" + Pair("counters_last_updated", time));
    AssignIncoming(r, c.incoming);
    var r1 := Assign(r, "counters_incoming", Decimal(c.incoming));
    TwoFields(r1, "counters_outgoing", out, "counters_last_updated", time);
    AssignOutgoing(r1, c.outgoing);
    AssignTime(Assign(r1, "counters_outgoing", out), c.lastUpdated);
  }

  lemma AssignState(r: Received, n: int)
    requires -0x8000_0000 <= n < 0x8000_0000
    ensures Assign(r, "fw_connection_state", Decimal(Unsigned32(n))) == r.(state := n)
  {
    StateSurvives(n);
  }

  lemma AssignFd(r: Received, n: int)
    requires -0x8000_0000 <= n < 0x8000_0000
    ensures Assign(r, "fd", Signed(n)) == r.(fd := n)
  {
    StateSurvives(n);
  }

  /** The five numbers overwrite whatever the strings before them may have done. */
  lemma NumbersArrive(r: Received, c: Client)
    requires InRange(c)
    ensures Segments(r, Numbers(c)) == r.(state := c.state, fd := c.fd, counters := ArrivingCounters(c.counters))
  {
    var state, fd := Decimal(Unsigned32(c.state)), Signed(c.fd);
    DecimalIsPlain(Unsigned32(c.state));
    SignedIsPlain(c.fd);
    FillNumber(r, "fw_connection_state", state, Pair("fd", fd) + "|" + Totals(c.counters));
    AssignState(r, c.state);
    var r1 := r.(state := c.state);
    FillNumber(r1, "fd", fd, Totals(c.counters));
    AssignFd(r1, c.fd);
    TotalsArrive(r1.(fd := c.fd), c.counters);
  }

  function Arriving(n: u64): u64 {
    if n <= I64_MAX then n else I64_MAX
  }

  /** The counters the child ends up with: exact below 2^63, else stuck at the limit. */
  function ArrivingCounters(c: Counters): Counters {
    Counters(Arriving(c.incoming), Arriving(c.outgoing), Arriving(c.incoming), Arriving(c.outgoing), 0, 0,
             if c.lastUpdated >= 0 then c.lastUpdated else I64_MAX)
  }

  // ----- Strings -----

  lemma FieldsArrive(r: Received, c: Client)
    ensures Segments(r, Fields(c)) ==
            Segments(Segments(Segments(Segments(r, Pair("ip", c.ip)), Pair("mac", c.mac)), Pair("token", c.token)), Numbers(c))
  {
    var f3 := Pair("token", c.token) + "|" + Numbers(c);
    var f2 := Pair("mac", c.mac) + "|" + f3;
    SegmentsSplit(r, Pair("ip", c.ip), f2);
    var r1 := Segments(r, Pair("ip", c.ip));
    SegmentsSplit(r1, Pair("mac", c.mac), f3);
    SegmentsSplit(Segments(r1, Pair("mac", c.mac)), Pair("token", c.token), Numbers(c));
  }

  predicate PlainOr(s: Option<string>, t: Option<string>) {
    s == t || (s.Some? && Plain(s.value))
  }

  /** A segment stores only plain strings. */
  lemma SegmentIsPlain(r: Received, seg: string)
    requires '|' !in seg
    ensures var q := Segment(r, seg);
            PlainOr(q.ip, r.ip) && PlainOr(q.mac, r.mac) && PlainOr(q.token, r.token)
  {
    if '=' in seg {
      var value := Head(Tail(seg, '='), '=');
      assert Plain(value);
    }
  }

  lemma {:induction false} SegmentsArePlain(r: Received, text: string)
    ensures var q := Segments(r, text);
            PlainOr(q.ip, r.ip) && PlainOr(q.mac, r.mac) && PlainOr(q.token, r.token)
    decreases |text|
  {
    if '|' in text {
      SegmentIsPlain(r, Head(text, '|'));
      SegmentsArePlain(Segment(r, Head(text, '|')), Tail(text, '|'));
    } else {
      SegmentIsPlain(r, text);
    }
  }

  lemma PairSplit(key: string, head: string, tail: string)
    ensures Pair(key, head + "|" + tail) == Pair(key, head) + "|" + tail
  {
    Assoc(Pair(key, ""), head, "|" + tail);
    assert Pair(key, head + ("|" + tail)) == Pair(key, "") + (head + ("|" + tail));
  }

  /** The field of a string slot stores something plain there, whatever the string. */
  lemma FieldStores(r: Received, key: string, x: string)
    requires Plain(key)
    ensures exists v: string {:trigger Assign(r, key, v)} :: Plain(v) &&
              var q, p := Segments(r, Pair(key, x)), Assign(r, key, v);
              PlainOr(q.ip, p.ip) && PlainOr(q.mac, p.mac) && PlainOr(q.token, p.token)
  {
    var head := Head(x, '|');
    var v := Head(head, '=');
    FirstField(r, key, head);
    if '|' in x {
      assert x == head + "|" + Tail(x, '|');
      PairSplit(key, head, Tail(x, '|'));
      SegmentsSplit(r, Pair(key, head), Tail(x, '|'));
      SegmentsArePlain(Assign(r, key, v), Tail(x, '|'));
    } else {
      assert head == x;
    }
    assert Plain(v);
  }

  lemma FirstField(r: Received, key: string, x: string)
    requires Plain(key) && '|' !in x
    ensures Segments(r, Pair(key, x)) == Assign(r, key, Head(x, '='))
  {
    var seg := Pair(key, x);
    assert '|' !in seg;
    assert seg[..|key|] == key;
    UntilIs(seg, '=', |key|);
    assert Tail(seg, '=') == x;
  }

  /** All three strings that arrive are plain. */
  lemma ArrivingStringsArePlain(r: Received, c: Client)
    requires InRange(c)
    ensures var q := Segments(r, Fields(c));
            && q.ip.Some? && Plain(q.ip.value) && q.mac.Some? && Plain(q.mac.value) && q.token.Some? && Plain(q.token.value)
  {
    FieldsArrive(r, c);
    var r1 := Segments(r, Pair("ip", c.ip));
    var r2 := Segments(r1, Pair("mac", c.mac));
    var r3 := Segments(r2, Pair("token", c.token));
    IpStores(r, c.ip);
    MacStores(r1, c.mac);
    TokenStores(r2, c.token);
    NumbersArrive(r3, c);
  }

  lemma IpStores(r: Received, x: string)
    ensures var q := Segments(r, Pair("ip", x)); q.ip.Some? && Plain(q.ip.value)
  {
    FieldStores(r, "ip", x);
  }

  lemma MacStores(r: Received, x: string)
    ensures var q := Segments(r, Pair("mac", x)); q.mac.Some? && Plain(q.mac.value) && PlainOr(q.ip, r.ip)
  {
    FieldStores(r, "mac", x);
  }

  lemma TokenStores(r: Received, x: string)
    ensures var q := Segments(r, Pair("token", x));
            q.token.Some? && Plain(q.token.value) && PlainOr(q.ip, r.ip) && PlainOr(q.mac, r.mac)
  {
    FieldStores(r, "token", x);
  }

  lemma AssignStrings(r: Received, value: string)
    ensures Assign(r, "ip", value) == r.(ip := Some(value))
    ensures Assign(r, "mac", value) == r.(mac := Some(value))
    ensures Assign(r, "token", value) == r.(token := Some(value))
    ensures Plain("ip") && Plain("mac") && Plain("token")
  {
  }

  lemma PlainStringsArrive(r: Received, c: Client)
    requires Plain(c.ip) && Plain(c.mac) && Plain(c.token) && InRange(c)
    ensures Segments(r, Fields(c)) ==
            Received(Some(c.ip), Some(c.mac), Some(c.token), c.state, c.fd, ArrivingCounters(c.counters))
  {
    FieldsArrive(r, c);
    AssignStrings(r, c.ip);
    PlainSegment(r, "ip", c.ip);
    var r1 := r.(ip := Some(c.ip));
    AssignStrings(r1, c.mac);
    PlainSegment(r1, "mac", c.mac);
    var r2 := r1.(mac := Some(c.mac));
    AssignStrings(r2, c.token);
    PlainSegment(r2, "token", c.token);
    NumbersArrive(r2.(token := Some(c.token)), c);
  }

  // ----- A line, a list -----

  lemma LineParses(c: Client, key: int, value: int)
    requires OneLine(c) && |Line(c)| < MAX_BUF && InBuffer(key) && InBuffer(value)
    ensures ParseLine(Line(c), key, value) == Some(Segments(BLANK, Fields(c)))
  {
    var line := Line(c);
    LineEndsInDigit(c);
    assert '|' !in "CLIENT";
    UntilIs(line, '|', 6);
    assert Head(line, '|') == "CLIENT" && Tail(line, '|') == Fields(c);
    UnbrokenLine(c);
    LeftoverIsHarmless(c, key, value);
  }

  lemma UnbrokenAppend(a: string, b: string)
    ensures Unbroken(a + b) <==> Unbroken(a) && Unbroken(b)
  {
  }

  lemma UnbrokenPair(key: string, value: string, rest: string)
    requires Unbroken(key) && Unbroken(value) && Unbroken(rest)
    ensures Unbroken(Pair(key, value)) && Unbroken(Pair(key, value) + "|" + rest)
  {
    UnbrokenAppend(key + "=", value);
    UnbrokenAppend(key, "=");
    UnbrokenAppend(Pair(key, value) + "|", rest);
    UnbrokenAppend(Pair(key, value), "|");
  }

  lemma UnbrokenDecimal(n: nat)
    ensures Unbroken(Decimal(n))
  {
    forall i | 0 <= i < |Decimal(n)| ensures Decimal(n)[i] != NUL && Decimal(n)[i] != '\n' {
      assert IsDigit(Decimal(n)[i]);
    }
  }

  lemma UnbrokenTotals(c: Counters)
    ensures Unbroken(Totals(c))
  {
    var inc, out, time := Decimal(c.incoming), Decimal(c.outgoing), Decimal(Unsigned64(c.lastUpdated));
    UnbrokenDecimal(c.incoming);
    UnbrokenDecimal(c.outgoing);
    UnbrokenDecimal(Unsigned64(c.lastUpdated));
    UnbrokenPair("counters_last_updated", time, "");
    UnbrokenPair("counters_outgoing", out, Pair("counters_last_updated", time));
    UnbrokenPair("counters_incoming", inc, Pair("counters_outgoing", out) + "|" + Pair("counters_last_updated", time));
  }

  lemma UnbrokenSigned(n: int)
    ensures Unbroken(Signed(n))
  {
    UnbrokenDecimal(if n < 0 then -n else n);
    UnbrokenAppend("-", Decimal(if n < 0 then -n else n));
  }

  lemma UnbrokenNumbers(c: Client)
    ensures Unbroken(Numbers(c))
  {
    UnbrokenTotals(c.counters);
    UnbrokenSigned(c.fd);
    UnbrokenPair("fd", Signed(c.fd), Totals(c.counters));
    UnbrokenDecimal(Unsigned32(c.state));
    UnbrokenPair("fw_connection_state", Decimal(Unsigned32(c.state)), Pair("fd", Signed(c.fd)) + "|" + Totals(c.counters));
  }

  lemma UnbrokenLine(c: Client)
    requires OneLine(c)
    ensures Unbroken(Line(c))
  {
    UnbrokenNumbers(c);
    UnbrokenPair("token", c.token, Numbers(c));
    UnbrokenPair("mac", c.mac, Pair("token", c.token) + "|" + Numbers(c));
    UnbrokenPair("ip", c.ip, Pair("mac", c.mac) + "|" + (Pair("token", c.token) + "|" + Numbers(c)));
    UnbrokenAppend("CLIENT|", Fields(c));
  }

  /** A client arrives unchanged exactly when it is transferable, whatever pointers the
      previous line left behind. */
  lemma LineArrivesIff(c: Client, key: int, value: int)
    requires OneLine(c) && InRange(c) && |Line(c)| < MAX_BUF && InBuffer(key) && InBuffer(value)
    ensures ParseLine(Line(c), key, value) == Some(Arrives(c)) <==> Transferable(c)
  {
    LineParses(c, key, value);
    FieldsArrive(BLANK, c);
    ArrivingStringsArePlain(BLANK, c);
    var r3 := Segments(Segments(Segments(BLANK, Pair("ip", c.ip)), Pair("mac", c.mac)), Pair("token", c.token));
    NumbersArrive(r3, c);
    if Plain(c.ip) && Plain(c.mac) && Plain(c.token) {
      PlainStringsArrive(BLANK, c);
    }
  }

  /** Two more fields smuggled in behind a bar give the session another key. */
  lemma BarsForgeTheKey(c: Client, r: Received, ip: string, mac: string)
    requires c.token == "x|" + (Pair("ip", ip) + "|" + Pair("mac", mac)) && Plain(ip) && Plain(mac) && InRange(c)
    ensures var q := Segments(r, Fields(c));
            q.ip == Some(ip) && q.mac == Some(mac) && q.token == Some("x")
  {
    FieldsArrive(r, c);
    var r2 := Segments(Segments(r, Pair("ip", c.ip)), Pair("mac", c.mac));
    KeyStores(r2, ip, mac);
    NumbersArrive(Segments(r2, Pair("token", c.token)), c);
  }

  lemma KeyStores(r: Received, ip: string, mac: string)
    requires Plain(ip) && Plain(mac)
    ensures Segments(r, Pair("token", "x|" + (Pair("ip", ip) + "|" + Pair("mac", mac)))) ==
            r.(token := Some("x"), ip := Some(ip), mac := Some(mac))
  {
    PairSplit("token", "x", Pair("ip", ip) + "|" + Pair("mac", mac));
    assert "x|" + (Pair("ip", ip) + "|" + Pair("mac", mac)) == "x" + "|" + (Pair("ip", ip) + "|" + Pair("mac", mac));
    AssignStrings(r, "x");
    FillNumber(r, "token", "x", Pair("ip", ip) + "|" + Pair("mac", mac));
    var r1 := r.(token := Some("x"));
    TwoFields(r1, "ip", ip, "mac", mac);
    AssignStrings(r1, ip);
    AssignStrings(r1.(ip := Some(ip)), mac);
  }

  /** A bar in a token is enough to move a session to another address. */
  lemma BarInTokenForgesTheAddress(c: Client, r: Received, forged: string)
    requires c.token == "x|" + Pair("ip", forged) && Plain(forged) && InRange(c)
    ensures Segments(r, Fields(c)).ip == Some(forged)
  {
    FieldsArrive(r, c);
    var r2 := Segments(Segments(r, Pair("ip", c.ip)), Pair("mac", c.mac));
    BarStores(r2, forged);
    NumbersArrive(Segments(r2, Pair("token", c.token)), c);
  }

  lemma BarStores(r: Received, forged: string)
    requires Plain(forged)
    ensures Segments(r, Pair("token", "x|" + Pair("ip", forged))).ip == Some(forged)
  {
    assert Pair("token", "x|" + Pair("ip", forged)) == Pair("token", "x") + "|" + Pair("ip", forged);
    SegmentsSplit(r, Pair("token", "x"), Pair("ip", forged));
    PlainSegment(Segments(r, Pair("token", "x")), "ip", forged);
  }

  // ----- The whole restart -----

  /** The client goes on one line that fits the child's buffer. */
  predicate OnALine(c: Client) {
    OneLine(c) && |Line(c)| < MAX_BUF
  }

  ghost predicate Lines(cs: seq<Client>) {
    forall i {:trigger OnALine(cs[i])} :: 0 <= i < |cs| ==> OnALine(cs[i])
  }

  predicate Fit(c: Client) {
    OnALine(c) && InRange(c) && Transferable(c)
  }

  /** What a caller can check before a restart. */
  ghost predicate Sendable(cs: seq<Client>) {
    forall i {:trigger Fit(cs[i])} :: 0 <= i < |cs| ==> Fit(cs[i])
  }

  lemma SendableLines(cs: seq<Client>)
    ensures Sendable(cs) <==> Lines(cs) && forall i :: 0 <= i < |cs| ==> InRange(cs[i]) && Transferable(cs[i])
  {
    if Sendable(cs) {
      forall i | 0 <= i < |cs| ensures OnALine(cs[i]) && InRange(cs[i]) && Transferable(cs[i]) {
        assert Fit(cs[i]);
      }
    }
    if Lines(cs) && forall i :: 0 <= i < |cs| ==> InRange(cs[i]) && Transferable(cs[i]) {
      forall i | 0 <= i < |cs| ensures Fit(cs[i]) {
        assert OnALine(cs[i]);
      }
    }
  }

  function AsReceived(c: Client): Received {
    Received(Some(c.ip), Some(c.mac), Some(c.token), c.state, c.fd, c.counters)
  }

  lemma JoinSplit(lines: seq<string>)
    requires lines != [] && Unbroken(lines[0])
    ensures var s := JoinLines(lines);
            LineLength(s) == |lines[0]| < |s| && s[..LineLength(s)] == lines[0] && s[LineLength(s) + 1..] == JoinLines(lines[1..])
  {
    var line, s := lines[0], JoinLines(lines);
    assert s == line + "\n" + JoinLines(lines[1..]);
    assert s[|line|] == '\n' && forall j :: 0 <= j < |line| ==> s[j] == line[j];
    FirstIndexUnique(Breaks, s, |line|);
  }

  predicate GoodLines(lines: seq<string>) {
    forall i :: 0 <= i < |lines| ==> Unbroken(lines[i]) && |lines[i]| < MAX_BUF
  }

  lemma {:induction false} JoinFits(lines: seq<string>)
    requires GoodLines(lines)
    ensures Fits(JoinLines(lines))
  {
    if lines != [] {
      JoinSplit(lines);
      JoinFits(lines[1..]);
    }
  }

  /** Each of the lines yields its client whatever pointers were left over. */
  ghost predicate Yields(f: LineParser, lines: seq<string>, outs: seq<Received>) {
    && |outs| == |lines|
    && forall i, at: (int, int) {:trigger f(lines[i], at)} ::
         0 <= i < |lines| && InBuffer(at.0) && InBuffer(at.1) ==>
           var (r, next) := f(lines[i], at);
           r == Some(outs[i]) && InBuffer(next.0) && InBuffer(next.1)
  }

  /** What a stream of such lines leaves: the last client first, before those already there. */
  ghost predicate LastFirst(rs: seq<Received>, outs: seq<Received>, list: seq<Received>) {
    && |rs| == |outs| + |list|
    && (forall j :: 0 <= j < |outs| ==> rs[j] == outs[|outs| - 1 - j])
    && forall j :: 0 <= j < |list| ==> rs[|outs| + j] == list[j]
  }

  lemma {:induction false} StreamYields(f: LineParser, lines: seq<string>, outs: seq<Received>, at: (int, int), list: seq<Received>)
    requires GoodLines(lines) && Yields(f, lines, outs) && InBuffer(at.0) && InBuffer(at.1)
    ensures LastFirst(ParseStream(f, JoinLines(lines), at, list), outs, list)
    decreases |lines|
  {
    if lines != [] {
      JoinSplit(lines);
      var next := f(lines[0], at).1;
      YieldsTail(f, lines, outs);
      StreamYields(f, lines[1..], outs[1..], next, [outs[0]] + list);
      OneMoreFirst(ParseStream(f, JoinLines(lines), at, list), outs, list);
    }
  }

  lemma OneMoreFirst(rs: seq<Received>, outs: seq<Received>, list: seq<Received>)
    requires outs != [] && LastFirst(rs, outs[1..], [outs[0]] + list)
    ensures LastFirst(rs, outs, list)
  {
    var n := |outs| - 1;
    forall j | 0 <= j < |outs| ensures rs[j] == outs[n - j] {
      if j == n {
        assert rs[n + 0] == ([outs[0]] + list)[0];
      } else {
        assert outs[1..][n - 1 - j] == outs[n - j];
      }
    }
    forall j | 0 <= j < |list| ensures rs[|outs| + j] == list[j] {
      assert rs[n + (j + 1)] == ([outs[0]] + list)[j + 1];
    }
  }

  lemma YieldsTail(f: LineParser, lines: seq<string>, outs: seq<Received>)
    requires lines != [] && Yields(f, lines, outs)
    ensures Yields(f, lines[1..], outs[1..])
  {
    forall i, at: (int, int) | 0 <= i < |lines[1..]| && InBuffer(at.0) && InBuffer(at.1)
      ensures var (r, next) := f(lines[1..][i], at);
              r == Some(outs[1..][i]) && InBuffer(next.0) && InBuffer(next.1)
    {
      assert lines[1..][i] == lines[i + 1];
      var x := f(lines[i + 1], at);
    }
  }

  /** What the fields of a printed client make of an empty record. */
  function Filled(c: Client): Received {
    Segments(BLANK, Fields(c))
  }

  lemma {:induction false} PrintYields(cs: seq<Client>)
    requires Lines(cs)
    ensures GoodLines(Map(Line, cs)) && Yields(LineStep, Map(Line, cs), Map(Filled, cs))
  {
    var lines, outs := Map(Line, cs), Map(Filled, cs);
    forall i | 0 <= i < |cs| ensures Unbroken(lines[i]) && |lines[i]| < MAX_BUF {
      assert OnALine(cs[i]);
      UnbrokenLine(cs[i]);
    }
    forall i, at: (int, int) | 0 <= i < |cs| && InBuffer(at.0) && InBuffer(at.1)
      ensures var (r, next) := LineStep(lines[i], at);
              r == Some(outs[i]) && InBuffer(next.0) && InBuffer(next.1)
    {
      assert OnALine(cs[i]);
      LineParses(cs[i], at.0, at.1);
      PointersInBuffer(lines[i], at.0, at.1);
    }
  }

  /** A list of one-line clients arrives client by client, the last one first. */
  lemma {:induction false} LinesArrive(cs: seq<Client>)
    requires Lines(cs)
    ensures Fits(Print(cs)) && LastFirst(Delivered(cs), Map(Filled, cs), [])
  {
    PrintYields(cs);
    JoinFits(Map(Line, cs));
    StreamYields(LineStep, Map(Line, cs), Map(Filled, cs), (-1, -1), []);
  }

  /** The entries arrive as they should exactly when each line makes of its client what it should. */
  lemma {:induction false} EntriesAreHandOff(cs: seq<Client>, outs: seq<Received>, rs: seq<Received>)
    requires |outs| == |cs| && LastFirst(rs, outs, [])
    ensures rs == Map(AsReceived, HandOff(cs)) <==> forall i :: 0 <= i < |cs| ==> outs[i] == Arrives(cs[i])
  {
    var hs := Map(AsReceived, HandOff(cs));
    HandOffSize(cs);
    forall j | 0 <= j < |cs| ensures hs[j] == Arrives(cs[|cs| - 1 - j]) && rs[j] == outs[|cs| - 1 - j] {
      HandOffAt(cs, j);
    }
    if rs == hs {
      forall i | 0 <= i < |cs| ensures outs[i] == Arrives(cs[i]) {
        assert rs[|cs| - 1 - i] == hs[|cs| - 1 - i];
      }
    }
  }

  lemma FilledIff(c: Client)
    requires OnALine(c) && InRange(c)
    ensures Filled(c) == Arrives(c) <==> Transferable(c)
  {
    LineParses(c, -1, -1);
    LineArrivesIff(c, -1, -1);
  }

  lemma {:induction false} AllFilled(cs: seq<Client>, outs: seq<Received>)
    requires outs == Map(Filled, cs) && Lines(cs) && forall i :: 0 <= i < |cs| ==> InRange(cs[i])
    ensures forall i :: 0 <= i < |cs| ==> (outs[i] == Arrives(cs[i]) <==> Transferable(cs[i]))
  {
    forall i | 0 <= i < |cs| ensures outs[i] == Arrives(cs[i]) <==> Transferable(cs[i]) {
      assert OnALine(cs[i]);
      FilledIff(cs[i]);
    }
  }

  lemma {:induction false} AdoptedHandOff(cs: seq<Client>, rs: seq<Received>)
    requires rs == Map(AsReceived, HandOff(cs))
    ensures AllComplete(rs) && Adopted(rs) == HandOff(cs)
  {
    HandOffSize(cs);
    assert AllComplete(rs);
    forall j | 0 <= j < |rs| ensures Adopted(rs)[j] == HandOff(cs)[j] {
      HandOffAt(cs, j);
    }
  }

  lemma {:induction false} LinesIff(cs: seq<Client>, rs: seq<Received>)
    requires Lines(cs) && rs == Delivered(cs) && forall i :: 0 <= i < |cs| ==> InRange(cs[i])
    ensures rs == Map(AsReceived, HandOff(cs)) <==> Sendable(cs)
  {
    var outs := Map(Filled, cs);
    SendableLines(cs);
    LinesArrive(cs);
    AllFilled(cs, outs);
    EntriesAreHandOff(cs, outs, rs);
  }

  /** The restart round trip: the child reads the parent's list reversed, with the same ip, mac,
      token, state, fd and totals, history equal to total, delta 0 and ids 1..n. */
  lemma {:induction false} RestartRoundTrip(cs: seq<Client>)
    requires Sendable(cs)
    ensures Fits(Print(cs)) && ParseStream(LineStep, Print(cs), (-1, -1), []) == Map(AsReceived, HandOff(cs))
    ensures Readable(cs) && Child(cs) == HandOff(cs)
  {
    SendableLines(cs);
    LinesArrive(cs);
    LinesIff(cs, Delivered(cs));
    AdoptedHandOff(cs, Delivered(cs));
  }

  // ----- Nothing else arrives as sent -----

  predicate CleanSlot(s: Option<string>) {
    s.Some? ==> Plain(s.value) && Unbroken(s.value)
  }

  predicate CleanRecord(r: Received) {
    CleanSlot(r.ip) && CleanSlot(r.mac) && CleanSlot(r.token)
  }

  /** A value pointer left behind points past its key. */
  predicate Ordered(at: (int, int)) {
    InBuffer(at.0) && InBuffer(at.1) && (at.1 >= 0 ==> 0 <= at.0 < at.1)
  }

  lemma {:induction false} LastPairOrdered(text: string, at: nat)
    ensures LastPair(text, at).1 >= 0 ==> 0 <= LastPair(text, at).0 < LastPair(text, at).1
    decreases |text|
  {
    if '|' in text {
      LastPairOrdered(Tail(text, '|'), at + Until(text, '|') + 1);
    }
  }

  lemma PointersOrdered(line: string, at: (int, int))
    requires |line| < MAX_BUF && Ordered(at)
    ensures Ordered(Pointers(line, at.0, at.1))
  {
    PointersInBuffer(line, at.0, at.1);
    if '|' in line {
      LastPairOrdered(Tail(line, '|'), Until(line, '|') + 1);
    }
  }

  lemma PartUnbroken(s: string, i: nat, j: nat)
    requires Unbroken(s) && i <= j <= |s|
    ensures Unbroken(s[i..j])
  {
  }

  lemma SegmentIsClean(r: Received, seg: string)
    requires '|' !in seg && Unbroken(seg) && CleanRecord(r)
    ensures CleanRecord(Segment(r, seg))
  {
    if '=' in seg {
      ValueIsClean(seg);
      AssignClean(r, Head(seg, '='), Head(Tail(seg, '='), '='));
    }
  }

  lemma ValueIsClean(seg: string)
    requires '|' !in seg && Unbroken(seg) && '=' in seg
    ensures var value := Head(Tail(seg, '='), '='); Plain(value) && Unbroken(value)
  {
    var i := Until(seg, '=') + 1;
    var value := Head(Tail(seg, '='), '=');
    assert value == seg[i..i + |value|];
    PartUnbroken(seg, i, i + |value|);
  }

  lemma AssignClean(r: Received, key: string, value: string)
    requires Plain(value) && Unbroken(value) && CleanRecord(r)
    ensures CleanRecord(Assign(r, key, value))
  {
  }

  lemma {:induction false} SegmentsAreClean(r: Received, text: string)
    requires Unbroken(text) && CleanRecord(r)
    ensures CleanRecord(Segments(r, text))
    decreases |text|
  {
    if '|' in text {
      SegmentIsClean(r, Head(text, '|'));
      SegmentsAreClean(Segment(r, Head(text, '|')), Tail(text, '|'));
    } else {
      SegmentIsClean(r, text);
    }
  }

  /** What is left of the text in the buffer at a position past the cut. */
  lemma TextAfterCut(line: string, buf: seq<char>, k: nat)
    requires |line| < MAX_BUF && NUL !in line && 6 <= |line| && k <= MAX_BUF
    requires buf == Buffer(line) || (6 < |line| && buf == Buffer(line)[6 := NUL])
    ensures k > 6 ==> CStr(buf, k) == if k <= |line| then line[k..] else ""
    ensures k <= 6 && buf != Buffer(line) ==> CStr(buf, k) == line[k..6]
    ensures k <= 6 && buf == Buffer(line) ==> CStr(buf, k) == line[k..]
  {
    var n := if k <= 6 && buf != Buffer(line) then 6 else if k <= |line| then |line| else k;
    NulAtIs(buf, k, n);
    assert CStr(buf, k) == buf[k..n];
  }

  lemma SlotIsClean(key: string, k: nat)
    requires IsSlot(key) && k <= |key|
    ensures Plain(key[k..]) && Unbroken(key[k..])
  {
    SlotChars(key);
    assert forall i :: 0 <= i < |key[k..]| ==> key[k..][i] == key[k + i];
  }

  predicate Lowercase(s: string) {
    forall i :: 0 <= i < |s| ==> s[i] == '_' || 'a' <= s[i] <= 'z'
  }

  lemma SlotChars(key: string)
    requires IsSlot(key)
    ensures forall i :: 0 <= i < |key| ==> key[i] != '|' && key[i] != '=' && key[i] != NUL && key[i] != '\n'
  {
    assert Lowercase("ip") && Lowercase("mac") && Lowercase("token") && Lowercase("fd");
    assert Lowercase("fw_connection_state") && Lowercase("counters_incoming");
    assert Lowercase("counters_outgoing") && Lowercase("counters_last_updated");
    assert Lowercase(key);
  }

  /** Should an old key pointer happen to name a slot, the line ends there, and the value
      pointer lies in the name or behind it. */
  lemma LeftoverIsClean(line: string, buf: seq<char>, at: (int, int))
    requires |line| < MAX_BUF && Unbroken(line) && 6 <= |line| && line[..6] == "CLIENT" && Ordered(at)
    requires buf == (if |line| == 6 then Buffer(line) else Buffer(line)[6 := NUL])
    ensures CleanRecord(Leftover(buf, at.0, at.1))
  {
    if at.0 >= 0 && at.1 >= 0 {
      var name := CStr(buf, at.0);
      if IsSlot(name) {
        SlotsEndInLetters(name);
        ValueInSlot(line, buf, at.0, at.1);
        AssignClean(BLANK, name, CStr(buf, at.1));
      } else {
        AssignUnknown(BLANK, name, CStr(buf, at.1));
      }
    }
  }

  lemma ValueInSlot(line: string, buf: seq<char>, key: nat, value: nat)
    requires |line| < MAX_BUF && Unbroken(line) && 6 <= |line| && line[..6] == "CLIENT" && key < value <= MAX_BUF
    requires buf == (if |line| == 6 then Buffer(line) else Buffer(line)[6 := NUL])
    requires IsSlot(CStr(buf, key))
    ensures Plain(CStr(buf, value)) && Unbroken(CStr(buf, value))
  {
    var name := CStr(buf, key);
    TextAfterCut(line, buf, key);
    SlotsEndInLetters(name);
    assert line[5] == line[..6][5] == 'T';
    assert key > 6 && name == line[key..];
    TextAfterCut(line, buf, value);
    if value <= |line| {
      assert CStr(buf, value) == name[value - key..];
      SlotIsClean(name, value - key);
    }
  }

  lemma LineIsClean(line: string, at: (int, int))
    requires |line| < MAX_BUF && Unbroken(line) && Ordered(at)
    ensures var r := ParseLine(line, at.0, at.1); r.Some? ==> CleanRecord(r.value)
  {
    if Head(line, '|') == "CLIENT" {
      assert line[..6] == "CLIENT";
      if '|' in line {
        var buf := Buffer(line)[6 := NUL];
        LeftoverIsClean(line, buf, at);
        PartUnbroken(line, 7, |line|);
        SegmentsAreClean(Leftover(buf, at.0, at.1), Tail(line, '|'));
      } else {
        LeftoverIsClean(line, Buffer(line), at);
      }
    }
  }

  ghost predicate AllClean(rs: seq<Received>) {
    forall i :: 0 <= i < |rs| ==> CleanRecord(rs[i])
  }

  ghost predicate YieldsClean(f: LineParser) {
    forall line: string, at: (int, int) {:trigger f(line, at)} :: |line| < MAX_BUF && Unbroken(line) && Ordered(at) ==>
      var (r, next) := f(line, at);
      Ordered(next) && (r.Some? ==> CleanRecord(r.value))
  }

  /** Whatever the stream, no string that arrives holds a bar, an equals sign, a newline or a NUL. */
  lemma {:induction false} StreamIsClean(f: LineParser, s: string, at: (int, int), list: seq<Received>)
    requires YieldsClean(f) && Fits(s) && Ordered(at) && AllClean(list)
    ensures AllClean(ParseStream(f, s, at, list))
    decreases |s|
  {
    var i := LineLength(s);
    if i < |s| {
      StreamStep(f, s, i, at, list);
      var (r, next) := f(s[..i], at);
      StreamIsClean(f, s[i + 1..], next, Insert(r, list));
    } else {
      StreamEnd(f, s, at, list);
    }
  }

  lemma LineStepIsClean()
    ensures YieldsClean(LineStep)
  {
    forall line: string, at: (int, int) | |line| < MAX_BUF && Unbroken(line) && Ordered(at)
      ensures var (r, next) := LineStep(line, at);
              Ordered(next) && (r.Some? ==> CleanRecord(r.value))
    {
      LineIsClean(line, at);
      PointersOrdered(line, at);
    }
  }

  lemma DeliveredIsClean(cs: seq<Client>)
    requires Fits(Print(cs))
    ensures AllClean(Delivered(cs))
  {
    LineStepIsClean();
    StreamIsClean(LineStep, Print(cs), (-1, -1), []);
  }

  lemma {:induction false} FittingLines(lines: seq<string>)
    requires Fits(JoinLines(lines)) && forall i :: 0 <= i < |lines| ==> Unbroken(lines[i])
    ensures GoodLines(lines)
  {
    if lines != [] {
      JoinSplit(lines);
      FittingLines(lines[1..]);
      assert forall i :: 1 <= i < |lines| ==> lines[i] == lines[1..][i - 1];
    }
  }

  /** If the child reads back just what it should, every client was sent on one line of its own. */
  lemma {:induction false} CleanAreLines(cs: seq<Client>, rs: seq<Received>)
    requires rs == Map(AsReceived, HandOff(cs)) && AllClean(rs)
    ensures forall i :: 0 <= i < |cs| ==> OneLine(cs[i]) && Plain(cs[i].ip) && Plain(cs[i].mac) && Plain(cs[i].token)
  {
    HandOffSize(cs);
    forall i | 0 <= i < |cs|
      ensures OneLine(cs[i]) && Plain(cs[i].ip) && Plain(cs[i].mac) && Plain(cs[i].token) {
      HandOffAt(cs, |cs| - 1 - i);
      assert CleanRecord(rs[|cs| - 1 - i]);
    }
  }

  lemma {:induction false} LinesFit(cs: seq<Client>)
    requires Fits(Print(cs)) && forall i :: 0 <= i < |cs| ==> OneLine(cs[i])
    ensures Lines(cs)
  {
    forall i | 0 <= i < |cs| ensures Unbroken(Map(Line, cs)[i]) {
      UnbrokenLine(cs[i]);
    }
    FittingLines(Map(Line, cs));
    forall i | 0 <= i < |cs| ensures OnALine(cs[i]) {
      assert Map(Line, cs)[i] == Line(cs[i]);
    }
  }

  /** For every list whose stream fits the child's buffer: it arrives as it should if and only
      if it is sendable. */
  lemma {:induction false} RestartRoundTripIff(cs: seq<Client>)
    requires Fits(Print(cs)) && forall i :: 0 <= i < |cs| ==> InRange(cs[i])
    ensures ParseStream(LineStep, Print(cs), (-1, -1), []) == Map(AsReceived, HandOff(cs)) <==> Sendable(cs)
  {
    var rs := Delivered(cs);
    DeliveredIsClean(cs);
    if rs == Map(AsReceived, HandOff(cs)) {
      CleanAreLines(cs, rs);
      LinesFit(cs);
    }
    SendableLines(cs);
    if Lines(cs) {
      LinesIff(cs, rs);
    }
  }

  // ----- A newline in a token -----

  function FirstPart(c: Client): string {
    "CLIENT|" + (Pair("ip", c.ip) + "|" + (Pair("mac", c.mac) + "|" + Pair("token", "x")))
  }

  lemma JoinThree(a: string, b: string, c: string)
    ensures JoinLines([a, b, c]) == a + "\n" + (b + "\n" + (c + "\n"))
  {
    assert [a, b, c][1..] == [b, c] && [b, c][1..] == [c] && [c][1..] == [];
    assert JoinLines([c]) == c + "\n" + JoinLines([]) == c + "\n";
  }

  lemma JoinOne(line: string)
    ensures JoinLines([line]) == line + "\n"
  {
    assert [line][1..] == [];
    assert JoinLines([line]) == line + "\n" + "";
  }

  /** What the line of a client is cut into by a token of three lines. */
  lemma CutByNewlines(c: Client, forged: string)
    requires c.token == "x\n" + forged + "\n"
    ensures Print([c]) == JoinLines([FirstPart(c), forged, "|" + Numbers(c)])
  {
    var front := "CLIENT|" + (Pair("ip", c.ip) + "|" + (Pair("mac", c.mac) + "|" + "token="));
    LineAt(c, front);
    JoinThree(FirstPart(c), forged, "|" + Numbers(c));
    assert Map(Line, [c]) == [Line(c)];
    JoinOne(Line(c));
    Newlines(front, forged, Numbers(c));
  }

  lemma LineAt(c: Client, front: string)
    requires front == "CLIENT|" + (Pair("ip", c.ip) + "|" + (Pair("mac", c.mac) + "|" + "token="))
    ensures Line(c) == front + c.token + "|" + Numbers(c) && FirstPart(c) == front + "x"
  {
  }

  lemma Newlines(front: string, forged: string, rest: string)
    ensures front + ("x\n" + forged + "\n") + "|" + rest + "\n" ==
            front + "x" + "\n" + (forged + "\n" + ("|" + rest + "\n"))
  {
    assert "x\n" == "x" + "\n";
  }

  lemma FirstPartParses(c: Client)
    requires Unbroken(c.ip) && Unbroken(c.mac) && |FirstPart(c)| < MAX_BUF
    ensures Unbroken(FirstPart(c)) && ParseLine(FirstPart(c), -1, -1).Some?
  {
    var line := FirstPart(c);
    UnbrokenPair("mac", c.mac, Pair("token", "x"));
    UnbrokenPair("ip", c.ip, Pair("mac", c.mac) + "|" + Pair("token", "x"));
    UnbrokenAppend("CLIENT|", Pair("ip", c.ip) + "|" + (Pair("mac", c.mac) + "|" + Pair("token", "x")));
    assert line[..6] == "CLIENT" && line[6] == '|';
    UntilIs(line, '|', 6);
  }

  /** The first of the three lines is the sender's own, cut short. */
  lemma FirstPartIs(c: Client)
    requires Unbroken(c.ip) && Unbroken(c.mac) && Plain(c.ip) && Plain(c.mac) && |FirstPart(c)| < MAX_BUF
    ensures ParseLine(FirstPart(c), -1, -1) == Some(BLANK.(ip := Some(c.ip), mac := Some(c.mac), token := Some("x")))
  {
    var line := FirstPart(c);
    var rest := Pair("mac", c.mac) + "|" + Pair("token", "x");
    assert line[..6] == "CLIENT" && line[6] == '|';
    UntilIs(line, '|', 6);
    assert Tail(line, '|') == Pair("ip", c.ip) + "|" + rest;
    AssignStrings(BLANK, c.ip);
    FillNumber(BLANK, "ip", c.ip, rest);
    var r1 := BLANK.(ip := Some(c.ip));
    AssignStrings(r1, c.mac);
    TwoFields(r1, "mac", c.mac, "token", "x");
    AssignStrings(r1.(mac := Some(c.mac)), "x");
  }

  lemma LastPartIgnored(c: Client, at: (int, int))
    requires |"|" + Numbers(c)| < MAX_BUF && InBuffer(at.0) && InBuffer(at.1)
    ensures Unbroken("|" + Numbers(c)) && ParseLine("|" + Numbers(c), at.0, at.1) == None
  {
    UnbrokenNumbers(c);
    UnbrokenAppend("|", Numbers(c));
    assert Head("|" + Numbers(c), '|') == "";
  }

  /** A newline in a token forges a client: of one session sent, two arrive, and the second is
      any client at all, its state included. */
  lemma NewlineForgesAClient(c: Client, d: Client)
    requires Unbroken(c.ip) && Unbroken(c.mac) && OneLine(d) && InRange(d) && Transferable(d)
    requires c.token == "x\n" + Line(d) + "\n" && |Line(c)| < MAX_BUF
    ensures |FirstPart(c)| < MAX_BUF && Fits(Print([c]))
    ensures ParseLine(FirstPart(c), -1, -1).Some?
    ensures Delivered([c]) == [Arrives(d), ParseLine(FirstPart(c), -1, -1).value]
  {
    CutByNewlines(c, Line(d));
    PartsAreShort(c, Line(d));
    FirstPartParses(c);
    UnbrokenLine(d);
    UnbrokenNumbers(c);
    UnbrokenAppend("|", Numbers(c));
    ForgedSteps(FirstPart(c), c, d);
    ForgedArrives(c, FirstPart(c), Line(d), "|" + Numbers(c), Arrives(d));
  }

  lemma ForgedArrives(c: Client, a: string, b: string, l: string, second: Received)
    requires Print([c]) == JoinLines([a, b, l]) && |a| < MAX_BUF && |b| < MAX_BUF && |l| < MAX_BUF
    requires Unbroken(a) && Unbroken(b) && Unbroken(l)
    requires var (r1, at1) := LineStep(a, (-1, -1));
             var (r2, at2) := LineStep(b, at1);
             r1.Some? && r2 == Some(second) && LineStep(l, at2).0 == None
    ensures Fits(Print([c])) && Delivered([c]) == [second, LineStep(a, (-1, -1)).0.value]
  {
    assert GoodLines([a, b, l]);
    ThreeArrive(LineStep, a, b, l, second);
  }

  /** Of three lines the first two yield clients. */
  lemma ThreeArrive(f: LineParser, a: string, b: string, c: string, second: Received)
    requires GoodLines([a, b, c])
    requires var (r1, at1) := f(a, (-1, -1));
             var (r2, at2) := f(b, at1);
             r1.Some? && r2 == Some(second) && f(c, at2).0 == None
    ensures Fits(JoinLines([a, b, c]))
    ensures ParseStream(f, JoinLines([a, b, c]), (-1, -1), []) == [second, f(a, (-1, -1)).0.value]
  {
    JoinFits([a, b, c]);
    assert Unbroken([a, b, c][0]) && Unbroken([a, b, c][1]) && Unbroken([a, b, c][2]);
    ThreeLines(f, a, b, c, (-1, -1));
  }

  lemma ForgedSteps(first: string, c: Client, d: Client)
    requires Unbroken(first) && |first| < MAX_BUF && ParseLine(first, -1, -1).Some?
    requires OneLine(d) && InRange(d) && Transferable(d) && |Line(d)| < MAX_BUF && |"|" + Numbers(c)| < MAX_BUF
    ensures var (r1, at1) := LineStep(first, (-1, -1));
            var (r2, at2) := LineStep(Line(d), at1);
            var (r3, at3) := LineStep("|" + Numbers(c), at2);
            r1 == ParseLine(first, -1, -1) && r2 == Some(Arrives(d)) && r3 == None
  {
    var at := Pointers(first, -1, -1);
    PointersInBuffer(first, -1, -1);
    LineArrivesIff(d, at.0, at.1);
    PointersInBuffer(Line(d), at.0, at.1);
    LastPartIgnored(c, Pointers(Line(d), at.0, at.1));
  }

  lemma PartsAreShort(c: Client, forged: string)
    requires c.token == "x\n" + forged + "\n" && |Line(c)| < MAX_BUF
    ensures |FirstPart(c)| < MAX_BUF && |forged| < MAX_BUF && |"|" + Numbers(c)| < MAX_BUF
  {
  }

  lemma ReadsLine(f: LineParser, lines: seq<string>, at: (int, int), list: seq<Received>)
    requires lines != [] && Unbroken(lines[0])
    ensures var (r, next) := f(lines[0], at);
            ParseStream(f, JoinLines(lines), at, list) == ParseStream(f, JoinLines(lines[1..]), next, Insert(r, list))
  {
    JoinSplit(lines);
  }

  /** A stream of three lines, line by line. */
  lemma ThreeLines(f: LineParser, a: string, b: string, c: string, at: (int, int))
    requires Unbroken(a) && Unbroken(b) && Unbroken(c)
    ensures var (r1, at1) := f(a, at);
            var (r2, at2) := f(b, at1);
            var (r3, at3) := f(c, at2);
            ParseStream(f, JoinLines([a, b, c]), at, []) == Insert(r3, Insert(r2, Insert(r1, [])))
  {
    var (r1, at1) := f(a, at);
    var (r2, at2) := f(b, at1);
    var (r3, at3) := f(c, at2);
    ReadsLine(f, [a, b, c], at, []);
    assert [a, b, c][1..] == [b, c];
    ReadsLine(f, [b, c], at1, Insert(r1, []));
    assert [b, c][1..] == [c];
    ReadsLine(f, [c], at2, Insert(r2, Insert(r1, [])));
    assert [c][1..] == [];
    StreamEnd(f, "", at3, Insert(r3, Insert(r2, Insert(r1, []))));
  }

  lemma {:induction false} JoinSnoc(lines: seq<string>, line: string)
    ensures JoinLines(lines + [line]) == JoinLines(lines) + line + "\n"
  {
    if lines == [] {
      assert [] + [line] == [line];
    } else {
      assert (lines + [line])[1..] == lines[1..] + [line];
      JoinSnoc(lines[1..], line);
    }
  }

  /** The printing loop of wdctl_restart (src/wdctl_thread.c:314-327). */
  method Send(list: ClientList) returns (text: string)
    requires list.Valid()
    ensures text == Print(list.Contents())
  {
    text := "";
    var n := list.first;
    ghost var k, cs := 0, list.Contents();
    while n != null
      invariant k <= |list.nodes| && n == At(list.nodes, k)
      invariant text == JoinLines(Map(Line, cs[..k]))
      decreases |list.nodes| - k
    {
      MapStep(Line, cs, k);
      JoinSnoc(Map(Line, cs[..k]), Line(n.c));
      text := text + Line(n.c) + "\n";
      n := n.next;
      k := k + 1;
    }
    assert cs[..k] == cs;
  }

  /** The clients received are inserted as they come, each at the head with the next id. */
  method Adopt(rs: seq<Received>) returns (child: ClientList)
    requires AllComplete(rs)
    ensures fresh(child) && child.Valid() && child.Contents() == Adopted(rs) && child.nextId == |rs| + 1
  {
    child := new ClientList();
    var i := |rs|;
    ghost var cs := Adopted(rs);
    while i > 0
      invariant 0 <= i <= |rs| && fresh(child) && child.Valid() && fresh(child.nodes) && child.freed == {}
      invariant child.nextId == |rs| - i + 1 && child.Contents() == cs[i..]
    {
      i := i - 1;
      SliceStep(cs, i);
      assert Complete(rs[i]);
      var _ := AdoptOne(child, rs[i], cs[i]);
    }
  }

  method AdoptOne(child: ClientList, r: Received, ghost c: Client) returns (n: Node)
    requires child.Valid() && Complete(r)
    requires c == AsClient(r, child.nextId)
    modifies child
    ensures child.Valid() && child.Contents() == [c] + old(child.Contents())
    ensures child.nextId == old(child.nextId) + 1 && child.freed == old(child.freed)
    ensures fresh(n) && child.nodes == [n] + old(child.nodes)
  {
    n := new Node(Client(0, r.ip.value, r.mac.value, r.token.value, r.state, r.fd, r.counters));
    child.Insert(n);
    assert n.c == c;
  }

  /** Parent and child together, on any list whose stream can be read; on a sendable list the
      child has the hand-off. */
  method Restart(parent: ClientList, ghost cs: seq<Client>) returns (child: ClientList)
    requires parent.Valid() && cs == parent.Contents() && Readable(cs)
    ensures fresh(child) && child.Valid() && child.nextId == |child.Contents()| + 1
    ensures child.Contents() == Child(cs) && (Sendable(cs) ==> child.Contents() == HandOff(cs))
  {
    child := Transfer(parent, Delivered(cs));
    SendableChild(cs);
  }

  lemma {:induction false} SendableChild(cs: seq<Client>)
    requires Readable(cs)
    ensures Child(cs) == Adopted(Delivered(cs)) && |Child(cs)| == |Delivered(cs)|
    ensures Sendable(cs) ==> Child(cs) == HandOff(cs)
  {
    if Sendable(cs) {
      RestartRoundTrip(cs);
    }
  }

  method Transfer(parent: ClientList, ghost rs: seq<Received>) returns (child: ClientList)
    requires parent.Valid() && Fits(Print(parent.Contents())) && AllComplete(rs)
    requires rs == ParseStream(LineStep, Print(parent.Contents()), (-1, -1), [])
    ensures fresh(child) && child.Valid() && child.Contents() == Adopted(rs) && child.nextId == |rs| + 1
  {
    var text := Send(parent);
    var received := Receive(text);
    child := Adopt(received);
  }
}
