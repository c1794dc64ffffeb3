/** The traffic counters of a client and the arithmetic of reading them back from the
    firewall (src/client_list.h, src/fw_iptables.c:667-674 and 712-717). */
module Counters {

  const U64 := 0x1_0000_0000_0000_0000

  type u64 = n: int | 0 <= n < U64

  datatype Counters = Counters(
    incoming: u64, outgoing: u64,
    incomingHistory: u64, outgoingHistory: u64,
    incomingDelta: u64, outgoingDelta: u64,
    lastUpdated: int)

  function Wrap(n: int): u64 {
    n % U64
  }

  /** A reading that exceeds what this run has counted so far moves the total up to it. */
  function ReadOutgoing(c: Counters, reading: u64, now: int): Counters {
    if Wrap(c.outgoing - c.outgoingHistory) < reading then
      c.(outgoingDelta := Wrap(c.outgoingHistory + reading - c.outgoing),
         outgoing := Wrap(c.outgoingHistory + reading),
         lastUpdated := now)
    else c
  }

  function ReadIncoming(c: Counters, reading: u64): Counters {
    if Wrap(c.incoming - c.incomingHistory) < reading then
      c.(incomingDelta := Wrap(c.incomingHistory + reading - c.incoming),
         incoming := Wrap(c.incomingHistory + reading))
    else c
  }

  /** What the sync does when access changes to allowed (src/firewall.c:348-352). */
  function Clear(c: Counters): Counters {
    c.(incomingDelta := 0, outgoingDelta := 0, incoming := 0, outgoing := 0)
  }

  /** What the child of a restart makes of its parent's totals (src/gateway.c:197-206). */
  function Inherit(c: Counters): Counters {
    Counters(c.incoming, c.outgoing, c.incoming, c.outgoing, 0, 0, c.lastUpdated)
  }

  datatype Reading = Reading(bytes: u64, at: int)

  function ReadAll(c: Counters, rs: seq<Reading>): Counters
    decreases |rs|
  {
    if rs == [] then c else ReadAll(ReadOutgoing(c, rs[0].bytes, rs[0].at), rs[1..])
  }

  /** The deltas computed along the way, one for each reading that moved the total. */
  function Deltas(c: Counters, rs: seq<Reading>): seq<int>
    decreases |rs|
  {
    if rs == [] then []
    else
      var d := ReadOutgoing(c, rs[0].bytes, rs[0].at);
      (if d.outgoing != c.outgoing then [d.outgoingDelta as int] else []) + Deltas(d, rs[1..])
  }

  function Sum(ds: seq<int>): int {
    if ds == [] then 0 else ds[0] + Sum(ds[1..])
  }

  lemma {:induction false} SumAppend(a: seq<int>, b: seq<int>)
    ensures Sum(a + b) == Sum(a) + Sum(b)
  {
    if a == [] {
      assert a + b == b;
    } else {
      assert (a + b)[1..] == a[1..] + b;
      SumAppend(a[1..], b);
    }
  }

  function Peak(start: int, rs: seq<Reading>): int
    decreases |rs|
  {
    if rs == [] then start else Peak(if rs[0].bytes > start then rs[0].bytes else start, rs[1..])
  }

  /** Peak is the largest of the start and the readings. */
  lemma {:induction false} PeakIsLargest(start: int, rs: seq<Reading>)
    ensures Peak(start, rs) >= start && forall i :: 0 <= i < |rs| ==> Peak(start, rs) >= rs[i].bytes
    ensures Peak(start, rs) == start || exists i :: 0 <= i < |rs| && Peak(start, rs) == rs[i].bytes
    decreases |rs|
  {
    if rs != [] {
      var next := if rs[0].bytes > start then rs[0].bytes else start;
      PeakIsLargest(next, rs[1..]);
      if Peak(next, rs[1..]) != next {
        var i :| 0 <= i < |rs[1..]| && Peak(next, rs[1..]) == rs[1..][i].bytes;
        assert rs[i + 1].bytes == Peak(start, rs);
      }
    }
  }

  /** The time of the last reading that moved the total, if any did. */
  function LastGrowth(start: int, rs: seq<Reading>, at: int): int
    decreases |rs|
  {
    if rs == [] then at
    else if rs[0].bytes > start then LastGrowth(rs[0].bytes, rs[1..], rs[0].at)
    else LastGrowth(start, rs[1..], at)
  }

  /** Totals not cleared since their history was fixed, and readings that fit in 64 bits. */
  predicate Sound(c: Counters, rs: seq<Reading>) {
    && c.outgoingHistory <= c.outgoing
    && forall i :: 0 <= i < |rs| ==> c.outgoingHistory + rs[i].bytes < U64
  }

  /** One reading: the total rises to the reading or stays, and the new delta is the rise. */
  lemma ReadingRaises(c: Counters, r: Reading)
    requires c.outgoingHistory <= c.outgoing && c.outgoingHistory + r.bytes < U64
    ensures var d := ReadOutgoing(c, r.bytes, r.at);
            if r.bytes > c.outgoing - c.outgoingHistory
            then d == c.(outgoing := c.outgoingHistory + r.bytes,
                         outgoingDelta := c.outgoingHistory + r.bytes - c.outgoing, lastUpdated := r.at)
            else d == c
  {
    SmallWrap(c.outgoing - c.outgoingHistory);
    if r.bytes > c.outgoing - c.outgoingHistory {
      SmallWrap(c.outgoingHistory + r.bytes);
      SmallWrap(c.outgoingHistory + r.bytes - c.outgoing);
    }
  }

  lemma SmallWrap(n: int)
    requires 0 <= n < U64
    ensures Wrap(n) == n
  {
  }

  /** After any readings the total is the history plus the largest reading; the deltas are
      exact increases that add up to the growth; last_updated is the time of the last growth. */
  lemma {:induction false} ReadingsKeepThePeak(c: Counters, rs: seq<Reading>)
    requires Sound(c, rs)
    ensures var d := ReadAll(c, rs);
            && d.outgoing == c.outgoingHistory + Peak(c.outgoing - c.outgoingHistory, rs)
            && d.outgoingHistory == c.outgoingHistory
            && Sum(Deltas(c, rs)) == d.outgoing - c.outgoing
            && (forall i :: 0 <= i < |Deltas(c, rs)| ==> Deltas(c, rs)[i] > 0)
            && d.lastUpdated == LastGrowth(c.outgoing - c.outgoingHistory, rs, c.lastUpdated)
            && d == c.(outgoing := d.outgoing, outgoingDelta := d.outgoingDelta, lastUpdated := d.lastUpdated)
    decreases |rs|
  {
    if rs != [] {
      var d := ReadOutgoing(c, rs[0].bytes, rs[0].at);
      ReadingRaises(c, rs[0]);
      if rs[0].bytes > c.outgoing - c.outgoingHistory {
        SumAppend([d.outgoingDelta as int], Deltas(d, rs[1..]));
      } else {
        assert Deltas(c, rs) == Deltas(d, rs[1..]);
      }
      ReadingsKeepThePeak(d, rs[1..]);
    }
  }

  // ----- The same for incoming traffic, which leaves last_updated alone -----

  function ReadAllIncoming(c: Counters, rs: seq<Reading>): Counters
    decreases |rs|
  {
    if rs == [] then c else ReadAllIncoming(ReadIncoming(c, rs[0].bytes), rs[1..])
  }

  function IncomingDeltas(c: Counters, rs: seq<Reading>): seq<int>
    decreases |rs|
  {
    if rs == [] then []
    else
      var d := ReadIncoming(c, rs[0].bytes);
      (if d.incoming != c.incoming then [d.incomingDelta as int] else []) + IncomingDeltas(d, rs[1..])
  }

  lemma IncomingRaises(c: Counters, bytes: u64)
    requires c.incomingHistory <= c.incoming && c.incomingHistory + bytes < U64
    ensures ReadIncoming(c, bytes) ==
            if bytes > c.incoming - c.incomingHistory
            then c.(incoming := c.incomingHistory + bytes, incomingDelta := c.incomingHistory + bytes - c.incoming)
            else c
  {
    SmallWrap(c.incoming - c.incomingHistory);
    if bytes > c.incoming - c.incomingHistory {
      SmallWrap(c.incomingHistory + bytes);
      SmallWrap(c.incomingHistory + bytes - c.incoming);
    }
  }

  /** After any incoming readings the total is the history plus the largest reading, the deltas
      are exact increases that add up to the growth, and nothing else changes. */
  lemma {:induction false} IncomingKeepsThePeak(c: Counters, rs: seq<Reading>)
    requires c.incomingHistory <= c.incoming && forall i :: 0 <= i < |rs| ==> c.incomingHistory + rs[i].bytes < U64
    ensures var d := ReadAllIncoming(c, rs);
            && d.incoming == c.incomingHistory + Peak(c.incoming - c.incomingHistory, rs)
            && Sum(IncomingDeltas(c, rs)) == d.incoming - c.incoming
            && (forall i :: 0 <= i < |IncomingDeltas(c, rs)| ==> IncomingDeltas(c, rs)[i] > 0)
            && d == c.(incoming := d.incoming, incomingDelta := d.incomingDelta)
    decreases |rs|
  {
    if rs != [] {
      var d := ReadIncoming(c, rs[0].bytes);
      IncomingRaises(c, rs[0].bytes);
      if rs[0].bytes > c.incoming - c.incomingHistory {
        SumAppend([d.incomingDelta as int], IncomingDeltas(d, rs[1..]));
      } else {
        assert IncomingDeltas(c, rs) == IncomingDeltas(d, rs[1..]);
      }
      IncomingKeepsThePeak(d, rs[1..]);
    }
  }

  /** Clearing leaves the history in place, so afterwards a reading counts only if there is
      no history or the reading exceeds the wrapped difference. */
  lemma ClearedCounterMoves(c: Counters, reading: u64, now: int)
    ensures ReadOutgoing(Clear(c), reading, now) != Clear(c)
            <==> (if c.outgoingHistory == 0 then reading > 0
                  else reading > U64 - c.outgoingHistory)
  {
    var e := Clear(c);
    if c.outgoingHistory != 0 {
      WrapNegative(c.outgoingHistory);
      if reading > U64 - c.outgoingHistory {
        assert c.outgoingHistory + reading - U64 < U64;
        assert Wrap(c.outgoingHistory + reading) == c.outgoingHistory + reading - U64;
      }
    }
  }

  lemma WrapNegative(h: u64)
    requires h > 0
    ensures Wrap(0 - h) == U64 - h
  {
  }

  /** Below its history a total only moves for readings past the wrapped difference, and stays
      below the history. */
  lemma BelowHistory(c: Counters, reading: u64, now: int)
    requires c.outgoing < c.outgoingHistory
    ensures var d := ReadOutgoing(c, reading, now);
            if reading > U64 - c.outgoingHistory + c.outgoing
            then d.outgoing == c.outgoingHistory + reading - U64 && c.outgoing < d.outgoing < c.outgoingHistory
                 && d.outgoingHistory == c.outgoingHistory
            else d == c
  {
    WrapNegative(c.outgoingHistory - c.outgoing);
    if reading > U64 - c.outgoingHistory + c.outgoing {
      SmallWrap(c.outgoingHistory + reading - U64);
    }
  }

  /** Once such a total has moved it never comes back to zero. */
  lemma {:induction false} StaysPositive(c: Counters, rs: seq<Reading>)
    requires 0 < c.outgoing < c.outgoingHistory
    ensures ReadAll(c, rs).outgoing > 0
    decreases |rs|
  {
    if rs != [] {
      BelowHistory(c, rs[0].bytes, rs[0].at);
      StaysPositive(ReadOutgoing(c, rs[0].bytes, rs[0].at), rs[1..]);
    }
  }

  lemma {:induction false} ZeroBelowHistory(c: Counters, rs: seq<Reading>)
    requires c.outgoing == 0 < c.outgoingHistory
    ensures ReadAll(c, rs).outgoing == 0 <==> forall i :: 0 <= i < |rs| ==> rs[i].bytes <= U64 - c.outgoingHistory
    decreases |rs|
  {
    if rs != [] {
      var d := ReadOutgoing(c, rs[0].bytes, rs[0].at);
      BelowHistory(c, rs[0].bytes, rs[0].at);
      if rs[0].bytes > U64 - c.outgoingHistory {
        StaysPositive(d, rs[1..]);
      } else {
        ZeroBelowHistory(d, rs[1..]);
        assert forall i :: 1 <= i < |rs| ==> rs[i] == rs[1..][i - 1];
      }
    }
  }

  /** A client inherited with some traffic whose counters are then cleared stays at zero if and
      only if no later reading exceeds 2^64 less that traffic. */
  lemma ClearedAfterRestartIsStuck(c: Counters, rs: seq<Reading>)
    requires c.outgoing > 0
    ensures ReadAll(Clear(Inherit(c)), rs).outgoing == 0 <==>
            forall i :: 0 <= i < |rs| ==> rs[i].bytes <= U64 - c.outgoing
  {
    ZeroBelowHistory(Clear(Inherit(c)), rs);
  }

  /** A client inherited with a gigabyte of history whose counters are cleared stays at zero. */
  lemma ClearedAfterRestartStaysAtZero()
    ensures var c := Clear(Inherit(Counters(0, 0x4000_0000, 0, 0, 0, 0, 0)));
            ReadOutgoing(c, 1000000, 60).outgoing == 0
  {
    WrapNegative(0x4000_0000);
  }
}
