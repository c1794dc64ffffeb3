/** Which runs the restart hand-off carries: a condition on the events alone under which every
    restart finds a list that the text between parent and child keeps. */
module SessionRuns {
  import opened Base
  import opened Config
  import opened Counters
  import opened ClientList
  import opened Iptables
  import opened Firewall
  import opened FwEdits
  import opened CStrings
  import opened Handoff
  import opened HandoffTheorems
  import opened Sessions
  import opened SessionInvariant

  const MAX_TEXT := 1200

  // ----- The condition on events -----

  /** A C string of ordinary length without the characters that the format gives a meaning to. */
  predicate Tame(s: string) {
    Plain(s) && Unbroken(s) && |s| <= MAX_TEXT
  }

  predicate Timely(now: int) {
    0 <= now <= I64_MAX
  }

  /** What an event brings into the list is fit to be handed over. */
  predicate TameEvent(e: Event) {
    match e
    case HttpAuth(ip, mac, token, logout, now) => Tame(ip) && Tame(mac) && Tame(token) && Timely(now)
    case EndLogin(j, token, code) => Tame(token)
    case ReadOut(ip, bytes, now) => Timely(now)
    case _ => true
  }

  function Bytes(e: Event): nat {
    match e
    case ReadOut(ip, bytes, now) => bytes
    case ReadIn(ip, bytes) => bytes
    case _ => 0
  }

  /** All the traffic that readings report. */
  function Volume(es: seq<Event>): nat {
    if es == [] then 0 else Bytes(es[0]) + Volume(es[1..])
  }

  /** Everything before a restart is tame, and the traffic reported by then, on top of what was
      there, fits a signed 64-bit number. Runs without a restart are not restricted at all. */
  predicate CarriesOver(es: seq<Event>, already: nat) {
    forall k :: 0 <= k < |es| && es[k].Restart? ==>
      (forall i :: 0 <= i < k ==> TameEvent(es[i])) && already + Volume(es[..k]) <= I64_MAX
  }

  // ----- What tame events keep in the list -----

  predicate Light(c: Counters, bound: nat) {
    && c.incoming <= bound && c.outgoing <= bound && c.incomingHistory <= bound && c.outgoingHistory <= bound
    && Timely(c.lastUpdated)
  }

  predicate TameClient(c: Client, bound: nat) {
    Tame(c.ip) && Tame(c.mac) && Tame(c.token) && c.fd == 0 && LegalState(c.state) && Light(c.counters, bound)
  }

  predicate TameList(cs: seq<Client>, bound: nat) {
    forall i :: 0 <= i < |cs| ==> TameClient(cs[i], bound)
  }

  lemma ReadingIsLight(c: Counters, bytes: u64, now: int, bound: nat)
    requires Light(c, bound) && bound + bytes <= I64_MAX && Timely(now)
    ensures Light(ReadOutgoing(c, bytes, now), bound + bytes) && Light(ReadIncoming(c, bytes), bound + bytes)
  {
    SmallWrap(c.outgoingHistory + bytes);
    SmallWrap(c.incomingHistory + bytes);
  }

  lemma Lighter(c: Client, bound: nat, more: nat)
    requires TameClient(c, bound) && bound <= more
    ensures TameClient(c, more)
  {
  }

  lemma ListLighter(cs: seq<Client>, bound: nat, more: nat)
    requires TameList(cs, bound) && bound <= more
    ensures TameList(cs, more)
  {
    forall i | 0 <= i < |cs| ensures TameClient(cs[i], more) {
      Lighter(cs[i], bound, more);
    }
  }

  lemma SetTame(cs: seq<Client>, k: nat, c: Client, bound: nat)
    requires TameList(cs, bound) && k < |cs| && TameClient(c, bound)
    ensures TameList(cs[k := c], bound)
  {
  }

  lemma RemoveTame(cs: seq<Client>, k: nat, bound: nat)
    requires TameList(cs, bound) && k < |cs|
    ensures TameList(RemoveAt(cs, k), bound)
  {
    var rest := RemoveAt(cs, k);
    forall i | 0 <= i < |rest| ensures TameClient(rest[i], bound) {
      assert rest[i] == cs[if i < k then i else i + 1];
    }
  }

  lemma LogoutTame(s: Sys, k: nat, bound: nat)
    requires TameList(s.v.clients, bound) && k < |s.v.clients|
    ensures TameList(DenyAndRemove(s.v, k).clients, bound)
  {
    var c := s.v.clients[k].(state := MARK_NONE);
    SetTame(s.v.clients, k, c, bound);
    RemoveTame(s.v.clients[k := c], k, bound);
  }

  lemma LoginTame(v: View, k: nat, token: string, code: int, bound: nat)
    requires TameList(v.clients, bound) && k < |v.clients| && Tame(token)
    ensures TameList(LoginReply(v, k, token, code).clients, bound)
  {
    LoginReplyIs(v, k, token, code);
    SetTame(v.clients, k, LoginReply(v, k, token, code).clients[k], bound);
  }

  lemma LoginReplyIs(v: View, k: nat, token: string, code: int)
    requires k < |v.clients|
    ensures var state := NextState(v.clients[k].state, Applied(0, false, code));
            LoginReply(v, k, token, code).clients == v.clients[k := v.clients[k].(token := token, state := state)]
  {
  }

  lemma SyncTame(v: View, k: nat, code: int, bound: nat)
    requires TameList(v.clients, bound) && k < |v.clients|
    ensures TameList(SyncReply(v, k, code).clients, bound)
  {
    SyncReplyIs(v, k, code);
    SetTame(v.clients, k, SyncReply(v, k, code).clients[k], bound);
  }

  lemma SyncReplyIs(v: View, k: nat, code: int)
    requires k < |v.clients|
    ensures var c, d := v.clients[k], SyncReply(v, k, code).clients;
            && |d| == |v.clients| && d == v.clients[k := d[k]]
            && (d[k] == c || d[k] == c.(state := MARK_KNOWN)
                || d[k] == c.(state := MARK_KNOWN, counters := Clear(c.counters)))
  {
  }

  lemma UpdateTame(s: Sys, k: nat, f: Counters -> Counters, bound: nat, more: nat)
    requires TameList(s.v.clients, bound) && bound <= more
    requires k < |s.v.clients| ==> Light(f(s.v.clients[k].counters), more)
    ensures TameList(Update(s, k, f).v.clients, more)
  {
    ListLighter(s.v.clients, bound, more);
    if k < |s.v.clients| {
      var c := s.v.clients[k];
      SetTame(s.v.clients, k, c.(counters := f(c.counters)), more);
    }
  }

  lemma HandOffTame(cs: seq<Client>, bound: nat)
    requires TameList(cs, bound)
    ensures TameList(HandOff(cs), bound)
  {
    HandOffSize(cs);
    forall i | 0 <= i < |cs| ensures TameClient(HandOff(cs)[i], bound) {
      HandOffAt(cs, i);
      assert TameClient(cs[|cs| - 1 - i], bound);
    }
  }

  lemma LogoutIfTame(s: Sys, k: nat, bound: nat)
    requires TameList(s.v.clients, bound)
    ensures TameList(LogoutIf(s, k).v.clients, bound)
  {
    if k < |s.v.clients| {
      LogoutTame(s, k, bound);
    }
  }

  lemma ReplyTame(s: Sys, item: WorkItem, now: int, limit: int, a: Asker, token: string, code: int, bound: nat)
    requires TameList(s.v.clients, bound)
    ensures TameList(StepSync(s, item, now, limit, code).v.clients, bound)
    ensures Tame(token) ==> TameList(StepLogin(s, a, token, code).v.clients, bound)
  {
    var k, m := Sessions.Find(s, ById(item.id)), Sessions.Find(s, ById(a.id));
    if k < |s.v.clients| {
      LogoutTame(s, k, bound);
      SyncTame(s.v, k, code, bound);
    }
    if m < |s.v.clients| && Tame(token) {
      LoginTame(s.v, m, token, code, bound);
    }
  }

  lemma AddTame(v: View, ip: string, mac: string, token: string, now: int, bound: nat)
    requires TameList(v.clients, bound) && Tame(ip) && Tame(mac) && Tame(token) && Timely(now)
    ensures TameList(AddClient(v, ip, mac, token, now).clients, bound)
  {
    var ds := AddClient(v, ip, mac, token, now).clients;
    assert TameClient(ds[0], bound);
    assert forall i :: 1 <= i < |ds| ==> ds[i] == v.clients[i - 1];
  }

  /** A tame event keeps the list tame, within the traffic reported so far. */
  lemma StepTame(cfg: Config, s: Sys, e: Event, bound: nat)
    requires TameList(s.v.clients, bound) && TameEvent(e) && bound + Bytes(e) <= I64_MAX && !e.Restart?
    ensures TameList(Step(cfg, s, e).v.clients, bound + Bytes(e))
  {
    match e
    case HttpAuth(ip, mac, token, logout, now) =>
      AddTame(s.v, ip, mac, token, now, bound);
      LogoutIfTame(s, Sessions.Find(s, ByIpMac(ip, mac)), bound);
    case EndLogin(j, token, code) =>
      if j < |s.logins| {
        ReplyTame(s.(logins := RemoveAt(s.logins, j)), WorkItem(0, 0), 0, 0, s.logins[j], token, code, bound);
      }
    case EndSync(j, now, limit, code) =>
      if j < |s.work| {
        ReplyTame(s.(work := RemoveAt(s.work, j)), s.work[j], now, limit, Asker(0, "", ""), "", code, bound);
      }
    case Reset(arg) =>
      var k := Sessions.Find(s, ByIp(arg));
      LogoutIfTame(s, if k < |s.v.clients| then k else Sessions.Find(s, ByMac(arg)), bound);
    case Disconnect(mac, token) => LogoutIfTame(s, Sessions.Find(s, ByMac(mac)), bound);
    case ReadOut(ip, bytes, now) => ReadOutTame(s, ip, bytes, now, bound);
    case ReadIn(ip, bytes) => ReadInTame(s, ip, bytes, bound);
    case _ =>
  }

  lemma ReadOutTame(s: Sys, ip: string, bytes: u64, now: int, bound: nat)
    requires TameList(s.v.clients, bound) && bound + bytes <= I64_MAX && Timely(now)
    ensures TameList(Update(s, Sessions.Find(s, ByIp(ip)), (c: Counters) => ReadOutgoing(c, bytes, now)).v.clients, bound + bytes)
  {
    var k := Sessions.Find(s, ByIp(ip));
    if k < |s.v.clients| {
      ReadingIsLight(s.v.clients[k].counters, bytes, now, bound);
    }
    UpdateTame(s, k, (c: Counters) => ReadOutgoing(c, bytes, now), bound, bound + bytes);
  }

  lemma ReadInTame(s: Sys, ip: string, bytes: u64, bound: nat)
    requires TameList(s.v.clients, bound) && bound + bytes <= I64_MAX
    ensures TameList(Update(s, Sessions.Find(s, ByIp(ip)), (c: Counters) => ReadIncoming(c, bytes)).v.clients, bound + bytes)
  {
    var k := Sessions.Find(s, ByIp(ip));
    if k < |s.v.clients| {
      ReadingIsLight(s.v.clients[k].counters, bytes, 0, bound);
    }
    UpdateTame(s, k, (c: Counters) => ReadIncoming(c, bytes), bound, bound + bytes);
  }

  // ----- A tame client fits on a line -----

  function Ten(d: nat): nat {
    if d == 0 then 1 else 10 * Ten(d - 1)
  }

  lemma {:induction false} DecimalLength(n: nat, d: nat)
    requires d > 0 && n < Ten(d)
    ensures |Decimal(n)| <= d
    decreases d
  {
    if n >= 10 {
      assert d > 1 && n / 10 < Ten(d - 1);
      DecimalLength(n / 10, d - 1);
    }
  }

  lemma TenTwenty()
    ensures Ten(20) == 100000000000000000000
  {
    assert Ten(4) == 10000;
    assert Ten(8) == 100000000;
    assert Ten(12) == 1000000000000;
    assert Ten(16) == 10000000000000000;
  }

  lemma NumbersAreShort(c: Client)
    requires c.fd == 0
    ensures |Numbers(c)| <= 200
  {
    TenTwenty();
    DecimalLength(Unsigned32(c.state), 20);
    DecimalLength(c.counters.incoming, 20);
    DecimalLength(c.counters.outgoing, 20);
    DecimalLength(Unsigned64(c.counters.lastUpdated), 20);
    DecimalLength(0, 20);
    TotalsLength(c.counters);
    assert |Numbers(c)| == |"fw_connection_state="| + |Decimal(Unsigned32(c.state))| + 1
                         + (|"fd="| + |Decimal(0)| + 1 + |Totals(c.counters)|);
  }

  lemma TotalsLength(c: Counters)
    ensures |Totals(c)| == |"counters_incoming="| + |Decimal(c.incoming)| + 1
                         + (|"counters_outgoing="| + |Decimal(c.outgoing)| + 1
                         + (|"counters_last_updated="| + |Decimal(Unsigned64(c.lastUpdated))|))
  {
  }

  lemma LineIsShort(c: Client, bound: nat)
    requires TameClient(c, bound)
    ensures |Line(c)| < MAX_BUF
  {
    NumbersAreShort(c);
    assert |Line(c)| == 7 + (3 + |c.ip| + 1 + (4 + |c.mac| + 1 + (6 + |c.token| + 1 + |Numbers(c)|)));
  }

  lemma TameIsSendable(cs: seq<Client>, bound: nat)
    requires TameList(cs, bound) && bound <= I64_MAX
    ensures Sendable(cs)
  {
    forall i | 0 <= i < |cs| ensures Fit(cs[i]) {
      assert TameClient(cs[i], bound);
      LineIsShort(cs[i], bound);
    }
  }

  // ----- From the events to the restarts -----

  lemma {:induction false} NoRestartIsSafe(cfg: Config, s: Sys, es: seq<Event>)
    requires forall k :: 0 <= k < |es| ==> !es[k].Restart?
    ensures SafeRestarts(cfg, s, es)
    decreases |es|
  {
    if es != [] {
      NoRestartIsSafe(cfg, Step(cfg, s, es[0]), es[1..]);
    }
  }

  lemma VolumeFirst(es: seq<Event>, k: nat)
    requires 0 < k <= |es|
    ensures Volume(es[..k]) == Bytes(es[0]) + Volume(es[1..][..k - 1])
  {
    assert es[..k][1..] == es[1..][..k - 1];
  }

  /** The condition moves along with the run. */
  lemma CarriesOn(es: seq<Event>, already: nat)
    requires es != [] && CarriesOver(es, already)
    ensures CarriesOver(es[1..], already + Bytes(es[0]))
  {
    var rest := es[1..];
    forall k | 0 <= k < |rest| && rest[k].Restart?
      ensures (forall i :: 0 <= i < k ==> TameEvent(rest[i])) && already + Bytes(es[0]) + Volume(rest[..k]) <= I64_MAX
    {
      assert es[k + 1] == rest[k];
      VolumeFirst(es, k + 1);
      assert forall i :: 0 <= i < k ==> rest[i] == es[i + 1] && TameEvent(es[i + 1]);
    }
  }

  /** If the events carry over, every restart of the run is safe. */
  lemma {:induction false} CarriedRunsAreSafe(cfg: Config, s: Sys, es: seq<Event>, bound: nat)
    requires TameList(s.v.clients, bound) && CarriesOver(es, bound)
    ensures SafeRestarts(cfg, s, es)
    decreases |es|
  {
    if k :| 0 <= k < |es| && es[k].Restart? {
      var e := es[0];
      CarriesOn(es, bound);
      assert k > 0 ==> TameEvent(e);
      if e.Restart? {
        TameIsSendable(s.v.clients, bound);
        AfterRestart(cfg, s, bound);
      } else {
        VolumeFirst(es, k);
        StepTame(cfg, s, e, bound);
      }
      CarriedRunsAreSafe(cfg, Step(cfg, s, e), es[1..], bound + Bytes(e));
    } else {
      NoRestartIsSafe(cfg, s, es);
    }
  }

  lemma AfterRestart(cfg: Config, s: Sys, bound: nat)
    requires TameList(s.v.clients, bound) && Sendable(s.v.clients)
    ensures TameList(Step(cfg, s, Event.Restart).v.clients, bound)
  {
    RestartedIs(cfg, s.v);
    RestartStep(cfg, s);
    HandOffTame(s.v.clients, bound);
  }

  lemma StartIsSafe(cfg: Config, ips: seq<string>, es: seq<Event>)
    requires CarriesOver(es, 0)
    ensures Inv(cfg, Run(cfg, Start(cfg, ips), es)) && SafeRestarts(cfg, Start(cfg, ips), es)
  {
    StartHolds(cfg, ips);
    CarriedRunsAreSafe(cfg, Start(cfg, ips), es, 0);
    RunKeeps(cfg, Start(cfg, ips), es);
  }

  lemma {:induction false} RunSnoc(cfg: Config, s: Sys, es: seq<Event>, e: Event)
    ensures Run(cfg, s, es + [e]) == Step(cfg, Run(cfg, s, es), e)
    ensures SafeRestarts(cfg, s, es + [e]) <==>
            SafeRestarts(cfg, s, es) && (e.Restart? ==> Sendable(Run(cfg, s, es).v.clients))
    decreases |es|
  {
    if es == [] {
      assert es + [e] == [e];
      assert [e][1..] == [];
    } else {
      assert (es + [e])[1..] == es[1..] + [e];
      RunSnoc(cfg, Step(cfg, s, es[0]), es[1..], e);
    }
  }

  /** A restart after such a run hands over a sendable list. */
  lemma LastRestartIsSafe(cfg: Config, ips: seq<string>, es: seq<Event>)
    requires CarriesOver(es + [Restart], 0)
    ensures Inv(cfg, Run(cfg, Start(cfg, ips), es)) && Sendable(Run(cfg, Start(cfg, ips), es).v.clients)
  {
    StartHolds(cfg, ips);
    CarriedRunsAreSafe(cfg, Start(cfg, ips), es + [Restart], 0);
    RunSnoc(cfg, Start(cfg, ips), es, Restart);
    RunKeeps(cfg, Start(cfg, ips), es);
  }
}
