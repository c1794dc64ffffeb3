/** Runs that end in a restart the text format does not carry: what becomes of the theorems when
    a token holds separators. */
module SessionForgery {
  import opened Base
  import opened Config
  import opened Counters
  import opened ClientList
  import opened CStrings
  import opened Handoff
  import opened HandoffTheorems
  import opened Sessions
  import opened SessionInvariant
  import opened SessionRuns
  import opened SessionTheorems

  predicate Short(s: string) {
    Plain(s) && Unbroken(s) && |s| <= 64
  }

  function NewClient(id: nat, ip: string, mac: string, token: string): Client {
    Client(id, ip, mac, token, 0, 0, NewCounters(0))
  }

  function ForgedKey(ip: string, mac: string): string {
    "x|" + (Pair("ip", ip) + "|" + Pair("mac", mac))
  }

  lemma ShortLine(c: Client)
    requires |c.ip| <= 64 && |c.mac| <= 64 && |c.token| <= 3500 && c.fd == 0
    ensures |Line(c)| < MAX_BUF
  {
    NumbersAreShort(c);
    assert |Line(c)| == 7 + (3 + |c.ip| + 1 + (4 + |c.mac| + 1 + (6 + |c.token| + 1 + |Numbers(c)|)));
  }

  lemma ForgedKeyUnbroken(ip: string, mac: string)
    requires Short(ip) && Short(mac)
    ensures Unbroken(ForgedKey(ip, mac)) && |ForgedKey(ip, mac)| <= 140
  {
    UnbrokenPair("mac", mac, "");
    UnbrokenPair("ip", ip, Pair("mac", mac));
    UnbrokenAppend("x|", Pair("ip", ip) + "|" + Pair("mac", mac));
  }

  /** Two clients under one key arrive where two under different keys were sent. */
  lemma ForgedPair(c2: Client, c1: Client)
    requires Short(c1.ip) && Short(c1.mac) && Short(c2.ip) && Short(c2.mac)
    requires c1.token == "x" && c2.token == ForgedKey(c1.ip, c1.mac)
    requires c1.fd == 0 && c2.fd == 0 && InRange(c1) && InRange(c2)
    ensures Readable([c2, c1]) && |Handoff.Child([c2, c1])| == 2
    ensures SameKey(Handoff.Child([c2, c1])[0], Handoff.Child([c2, c1])[1])
  {
    var cs := [c2, c1];
    ForgedKeyUnbroken(c1.ip, c1.mac);
    ShortLine(c1);
    ShortLine(c2);
    assert OnALine(cs[0]) && OnALine(cs[1]);
    LinesArrive(cs);
    BarsForgeTheKey(c2, BLANK, c1.ip, c1.mac);
    PlainStringsArrive(BLANK, c1);
    TwoReceived(Filled(c1), Filled(c2), Delivered(cs));
  }

  lemma TwoReceived(r1: Received, r2: Received, rs: seq<Received>)
    requires |rs| == 2 && rs[0] == r1 && rs[1] == r2 && Complete(r1) && Complete(r2)
    requires r1.ip == r2.ip && r1.mac == r2.mac
    ensures AllComplete(rs) && |Adopted(rs)| == 2 && SameKey(Adopted(rs)[0], Adopted(rs)[1])
  {
    assert AllComplete(rs);
  }

  /** The failing run: two logins, the second with a token that smuggles in the first one's key,
      and a restart. The child lists one key twice. */
  lemma ForgedKeyAfterRestart(cfg: Config, ips: seq<string>, ip: string, mac: string, other: string, card: string)
    requires Short(ip) && Short(mac) && Short(other) && Short(card) && !(ip == other && mac == card)
    ensures var es := [HttpAuth(ip, mac, "x", false, 0), HttpAuth(other, card, ForgedKey(ip, mac), false, 0), Restart];
            !DistinctKeys(Reached(cfg, ips, es).v.clients) && !CarriesOver(es, 0)
  {
    var e1, e2 := HttpAuth(ip, mac, "x", false, 0), HttpAuth(other, card, ForgedKey(ip, mac), false, 0);
    var c1, c2 := NewClient(1, ip, mac, "x"), NewClient(2, other, card, ForgedKey(ip, mac));
    var s := Start(cfg, ips);
    TwoLogins(cfg, s, e1, e2, c1, c2);
    RunThree(cfg, s, e1, e2, Restart);
    ForgedPair(c2, c1);
    ForgedRestart(cfg, Step(cfg, Step(cfg, s, e1), e2));
    NotCarried(e1, e2, ip, mac);
  }

  lemma ForgedRestart(cfg: Config, s: Sys)
    requires Readable(s.v.clients) && |Handoff.Child(s.v.clients)| == 2
    requires SameKey(Handoff.Child(s.v.clients)[0], Handoff.Child(s.v.clients)[1])
    ensures !DistinctKeys(Step(cfg, s, Restart).v.clients)
  {
    RestartStep(cfg, s);
  }

  lemma NotCarried(e1: Event, e2: Event, ip: string, mac: string)
    requires e2.HttpAuth? && e2.token == ForgedKey(ip, mac)
    ensures !CarriesOver([e1, e2, Restart], 0)
  {
    var es := [e1, e2, Restart];
    assert ForgedKey(ip, mac)[1] == '|';
    assert es[2].Restart? && es[1] == e2 && !TameEvent(es[1]);
  }

  lemma TwoLogins(cfg: Config, s: Sys, e1: Event, e2: Event, c1: Client, c2: Client)
    requires s.v.clients == [] && s.v.nextId == 1 && !SameKey(c1, c2)
    requires c1 == NewClient(1, c1.ip, c1.mac, c1.token) && c2 == NewClient(2, c2.ip, c2.mac, c2.token)
    requires e1 == HttpAuth(c1.ip, c1.mac, c1.token, false, 0) && e2 == HttpAuth(c2.ip, c2.mac, c2.token, false, 0)
    ensures Step(cfg, s, e1).v.clients == [c1] && Step(cfg, Step(cfg, s, e1), e2).v.clients == [c2, c1]
  {
    FirstIndexUnique(ByIpMac(c1.ip, c1.mac), [], 0);
    FirstIndexUnique(ByIpMac(c2.ip, c2.mac), [c1], 1);
  }

  lemma {:induction false} RunFirst(cfg: Config, s: Sys, e: Event, es: seq<Event>)
    ensures Run(cfg, s, [e] + es) == Run(cfg, Step(cfg, s, e), es)
  {
    assert ([e] + es)[1..] == es;
  }

  lemma {:induction false} RunThree(cfg: Config, s: Sys, a: Event, b: Event, c: Event)
    ensures Run(cfg, s, [a, b, c]) == Step(cfg, Step(cfg, Step(cfg, s, a), b), c)
  {
    var s1 := Step(cfg, s, a);
    var s2 := Step(cfg, s1, b);
    RunFirst(cfg, s, a, [b, c]);
    RunFirst(cfg, s1, b, [c]);
    RunFirst(cfg, s2, c, []);
    assert [a] + [b, c] == [a, b, c] && [b] + [c] == [b, c] && [c] + [] == [c];
  }

  /** The other failing run: one login whose token holds a whole client line between newlines, and
      a restart. The child lists that client, with whatever state the line claims, though no reply
      was ever applied. */
  lemma ForgedSessionAfterRestart(cfg: Config, ips: seq<string>, ip: string, mac: string, d: Client)
    requires Short(ip) && Short(mac) && OneLine(d) && InRange(d) && Transferable(d) && |Line(d)| <= 3000
    ensures var es := [HttpAuth(ip, mac, "x\n" + Line(d) + "\n", false, 0), Restart];
            var cs := Reached(cfg, ips, es).v.clients;
            |cs| == 2 && cs[0] == AsClient(Arrives(d), 2) && Reached(cfg, ips, es).log == []
  {
    var token := "x\n" + Line(d) + "\n";
    var s, e := Start(cfg, ips), HttpAuth(ip, mac, token, false, 0);
    OneLogin(cfg, s, NewClient(1, ip, mac, token));
    ForgedOne(NewClient(1, ip, mac, token), d);
    RestartStep(cfg, Step(cfg, s, e));
    RunFirst(cfg, s, e, [Restart]);
    RunFirst(cfg, Step(cfg, s, e), Restart, []);
    assert [e] + [Restart] == [e, Restart] && [Restart] + [] == [Restart];
  }

  lemma OneLogin(cfg: Config, s: Sys, c: Client)
    requires s.v.clients == [] && s.v.nextId == 1 && c == NewClient(1, c.ip, c.mac, c.token)
    ensures Step(cfg, s, HttpAuth(c.ip, c.mac, c.token, false, 0)).v.clients == [c]
  {
    FirstIndexUnique(ByIpMac(c.ip, c.mac), [], 0);
  }

  lemma ForgedOne(c: Client, d: Client)
    requires Short(c.ip) && Short(c.mac) && c.fd == 0 && c.token == "x\n" + Line(d) + "\n"
    requires OneLine(d) && InRange(d) && Transferable(d) && |Line(d)| <= 3000
    ensures Readable([c]) && |Handoff.Child([c])| == 2 && Handoff.Child([c])[0] == AsClient(Arrives(d), 2)
  {
    ShortLine(c);
    NewlineForgesAClient(c, d);
    FirstPartIs(c);
    AdoptsTwo(Arrives(d), BLANK.(ip := Some(c.ip), mac := Some(c.mac), token := Some("x")));
  }

  lemma AdoptsTwo(r1: Received, r2: Received)
    requires Complete(r1) && Complete(r2)
    ensures AllComplete([r1, r2]) && |Adopted([r1, r2])| == 2 && Adopted([r1, r2])[0] == AsClient(r1, 2)
  {
    assert AllComplete([r1, r2]);
    var cs := Adopted([r1, r2]);
    assert cs[0] == AsClient([r1, r2][0], 2 - 0);
  }
}
