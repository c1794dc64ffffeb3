/** The session protocol: every critical section under the client list lock is one step, and
    auth-server replies arrive late and interleaved with everything else. */
module Sessions {
  import opened Base
  import opened Config
  import opened Counters
  import opened ClientList
  import opened Iptables
  import opened Firewall
  import opened FwEdits
  import opened FwPolicy
  import Handoff

  const AUTH_ERROR := -1
  const AUTH_DENIED := 0
  const AUTH_ALLOWED := 1
  const AUTH_VALIDATION := 5
  const AUTH_VALIDATION_FAILED := 6

  // ----- What a critical section does to the list and the firewall -----

  datatype View = View(clients: seq<Client>, nextId: nat, fw: Fw)

  /** The mangle Outgoing rule a client should have. */
  function RuleOf(c: Client): ClientMark {
    ClientMark(c.ip, c.mac, c.state)
  }

  /** fw_allow: grant the new mark first, then clear the old one (src/firewall.c:71-90). */
  function Allow(v: View, k: nat, state: int): View
    requires k < |v.clients|
  {
    var c := v.clients[k];
    var granted := Grant(v.fw, c.ip, c.mac, state);
    v.(clients := v.clients[k := c.(state := state)],
       fw := if c.state != MARK_NONE then Revoke(granted, c.ip, c.mac, c.state) else granted)
  }

  /** fw_deny (src/firewall.c:112-120). */
  function Deny(v: View, k: nat): View
    requires k < |v.clients|
  {
    var c := v.clients[k];
    v.(clients := v.clients[k := c.(state := MARK_NONE)], fw := Revoke(v.fw, c.ip, c.mac, c.state))
  }

  /** fw_deny, then the client leaves the list (src/auth.c:99-100, src/firewall.c:330-331). */
  function DenyAndRemove(v: View, k: nat): View
    requires k < |v.clients|
  {
    var d := Deny(v, k);
    d.(clients := RemoveAt(d.clients, k))
  }

  function AddClient(v: View, ip: string, mac: string, token: string, now: int): View {
    v.(clients := [Client(v.nextId, ip, mac, token, 0, 0, NewCounters(now))] + v.clients, nextId := v.nextId + 1)
  }

  function SetClient(v: View, k: nat, c: Client): View
    requires k < |v.clients|
  {
    v.(clients := v.clients[k := c])
  }

  /** The locked part of authenticate_client after the reply (src/auth.c:175-249). */
  function LoginReply(v: View, k: nat, token: string, code: int): View
    requires k < |v.clients|
  {
    var w := SetClient(v, k, v.clients[k].(token := token));
    if code == AUTH_DENIED then Deny(w, k)
    else if code == AUTH_VALIDATION then Allow(w, k, MARK_PROBATION)
    else if code == AUTH_ALLOWED then Allow(w, k, MARK_KNOWN)
    else w
  }

  predicate Expels(code: int) {
    code == AUTH_DENIED || code == AUTH_VALIDATION_FAILED
  }

  /** The locked part of fw_sync_with_authserver for a client that stays (src/firewall.c:341-379). */
  function SyncReply(v: View, k: nat, code: int): View
    requires k < |v.clients|
  {
    var c := v.clients[k];
    if code == AUTH_ALLOWED && c.state != MARK_KNOWN then
      var w := if c.state != MARK_PROBATION then SetClient(v, k, c.(counters := Clear(c.counters))) else v;
      Allow(w, k, MARK_KNOWN)
    else v
  }

  function ById(id: nat): Client -> bool { (c: Client) => c.id == id }
  function ByIp(ip: string): Client -> bool { (c: Client) => c.ip == ip }
  function ByMac(mac: string): Client -> bool { (c: Client) => c.mac == mac }
  function ByIpMac(ip: string, mac: string): Client -> bool { (c: Client) => c.ip == ip && c.mac == mac }

  function AddressOf(c: Client): string {
    c.ip
  }

  function StateOf(c: Client): int {
    c.state
  }

  /** The worklist entry a sync makes of a client. */
  function ItemOf(c: Client): WorkItem {
    WorkItem(c.id, c.counters.lastUpdated)
  }

  /** fw_init in the child: every inherited client is granted its state again, NONE included
      (src/firewall.c:206-217). */
  function Restore(cfg: Config, cs: seq<Client>): Fw {
    Fresh(cfg, []).(outgoing := Map(RuleOf, cs), incoming := Map(AddressOf, cs))
  }

  /** The child of a restart: the list it reads from the parent's stream, and the rules rebuilt
      from that list. */
  function Restarted(cfg: Config, v: View): View
    requires Handoff.Readable(v.clients)
  {
    var cs := Handoff.Child(v.clients);
    View(cs, |cs| + 1, Restore(cfg, cs))
  }

  // ----- The whole system -----

  /** A login request on its way: the session that asked. */
  datatype Asker = Asker(id: nat, ip: string, mac: string)

  /** An entry of a sync worklist, copied from the list when the sync began. */
  datatype WorkItem = WorkItem(id: nat, lastUpdated: int)

  /** A reply that was applied to a listed client. */
  datatype Applied = Applied(id: nat, sync: bool, code: int)

  datatype Sys = Sys(
    v: View,
    authdown: bool,              // the flag of the ping thread
    logins: seq<Asker>,          // authenticate_client calls waiting for a reply
    work: seq<WorkItem>,         // worklist entries waiting for a reply
    leaving: seq<nat>,           // nodes unlinked by logout_client, not yet freed
    freed: seq<nat>,             // nodes freed
    log: seq<Applied>,           // replies applied in this process
    inherited: seq<int>)         // states the parent held at a restart, in the order sent

  datatype Event =
    | HttpAuth(ip: string, mac: string, token: string, logout: bool, now: int)
    | BeginLogin(ip: string)
    | EndLogin(j: nat, token: string, code: int)
    | BeginSync
    | EndSync(j: nat, now: int, limit: int, code: int)
    | EndLogout(j: nat)
    | Reset(arg: string)
    | Disconnect(mac: string, token: string)
    | ReadOut(ip: string, bytes: u64, now: int)
    | ReadIn(ip: string, bytes: u64)
    | Ping(pong: bool)
    | Servers(last: seq<Option<string>>)
    | Host(host: string)
    | Restart

  function Start(cfg: Config, ips: seq<string>): Sys {
    Sys(View([], 1, Fresh(cfg, ips)), false, [], [], [], [], [], [])
  }

  /** logout_client up to where it drops the lock: the node is unlinked but not freed. */
  function Logout(s: Sys, k: nat): Sys
    requires k < |s.v.clients|
  {
    s.(v := DenyAndRemove(s.v, k), leaving := s.leaving + [s.v.clients[k].id])
  }

  function LogoutIf(s: Sys, k: nat): Sys {
    if k < |s.v.clients| then Logout(s, k) else s
  }

  function Find(s: Sys, p: Client -> bool): nat {
    FirstIndex(p, s.v.clients)
  }

  function StepSync(s: Sys, item: WorkItem, now: int, limit: int, code: int): Sys {
    var k := Find(s, ById(item.id));
    if k >= |s.v.clients| then s
    else if item.lastUpdated + limit <= now then Logout(s, k)
    else if Expels(code) then s.(v := DenyAndRemove(s.v, k), freed := s.freed + [item.id])
    else s.(v := SyncReply(s.v, k, code), log := s.log + [Applied(item.id, true, code)])
  }

  function StepLogin(s: Sys, a: Asker, token: string, code: int): Sys {
    var k := Find(s, ById(a.id));
    if k >= |s.v.clients| then s
    else s.(v := LoginReply(s.v, k, token, code), log := s.log + [Applied(a.id, false, code)])
  }

  function Update(s: Sys, k: nat, f: Counters -> Counters): Sys {
    if k < |s.v.clients| then s.(v := SetClient(s.v, k, s.v.clients[k].(counters := f(s.v.clients[k].counters)))) else s
  }

  /** The child process, with nothing pending yet and the ping thread's flag down. */
  function Successor(v: View, parent: Sys): Sys {
    Sys(v, false, [], [], [], [], [], Map(StateOf, parent.v.clients))
  }

  function Step(cfg: Config, s: Sys, e: Event): Sys {
    match e
    case HttpAuth(ip, mac, token, logout, now) =>
      var k := Find(s, ByIpMac(ip, mac));
      if k >= |s.v.clients| then s.(v := AddClient(s.v, ip, mac, token, now))
      else if logout then Logout(s, k)
      else s
    case BeginLogin(ip) =>
      var k := Find(s, ByIp(ip));
      if k >= |s.v.clients| then s
      else s.(logins := s.logins + [Asker(s.v.clients[k].id, s.v.clients[k].ip, s.v.clients[k].mac)])
    case EndLogin(j, token, code) =>
      if j >= |s.logins| then s
      else StepLogin(s.(logins := RemoveAt(s.logins, j)), s.logins[j], token, code)
    case BeginSync =>
      s.(work := s.work + Map(ItemOf, s.v.clients))
    case EndSync(j, now, limit, code) =>
      if j >= |s.work| then s
      else StepSync(s.(work := RemoveAt(s.work, j)), s.work[j], now, limit, code)
    case EndLogout(j) =>
      if j >= |s.leaving| then s
      else s.(leaving := RemoveAt(s.leaving, j), freed := s.freed + [s.leaving[j]])
    case Reset(arg) =>
      var k := Find(s, ByIp(arg));
      LogoutIf(s, if k < |s.v.clients| then k else Find(s, ByMac(arg)))
    case Disconnect(mac, token) =>
      var k := Find(s, ByMac(mac));
      if k < |s.v.clients| && s.v.clients[k].token == token then Logout(s, k) else s
    case ReadOut(ip, bytes, now) =>
      Update(s, Find(s, ByIp(ip)), (c: Counters) => ReadOutgoing(c, bytes, now))
    case ReadIn(ip, bytes) =>
      Update(s, Find(s, ByIp(ip)), (c: Counters) => ReadIncoming(c, bytes))
    case Ping(pong) =>
      if pong == !s.authdown then s
      else s.(authdown := !pong, v := s.v.(fw := Edited(cfg, s.v.fw, if pong then Reachable else Unreachable)))
    case Servers(last) =>
      s.(v := s.v.(fw := Edited(cfg, s.v.fw, RefreshServers(last))))
    case Host(host) =>
      s.(v := s.v.(fw := Edited(cfg, s.v.fw, AllowHost(host))))
    case Restart =>
      if Handoff.Readable(s.v.clients) then Successor(Restarted(cfg, s.v), s) else s
  }

  function Run(cfg: Config, s: Sys, es: seq<Event>): Sys
    decreases |es|
  {
    if es == [] then s else Run(cfg, Step(cfg, s, es[0]), es[1..])
  }
}
