/** The outcomes of the critical sections, written out, are the steps of the session protocol. */
module SessionSteps {
  import opened Base
  import opened Config
  import opened Counters
  import opened ClientList
  import opened Firewall
  import opened FwEdits
  import opened Sessions
  import FwSetup
  import Handoff
  import SessionInvariant

  /** What one step does to the list and the firewall, to the unlinked nodes and to the freed ones. */
  predicate Moves(s: Sys, t: Sys, w: View, left: seq<nat>, freed: seq<nat>) {
    t.v == w && t.leaving == s.leaving + left && t.freed == s.freed + freed
  }

  /** The client at position k, if there is one, is logged out. */
  predicate LoggedOut(v: View, k: nat, w: View, left: seq<nat>) {
    if k < |v.clients| then w == DenyAndRemove(v, k) && left == [v.clients[k].id] else w == v && left == []
  }

  lemma HttpAuthMoves(cfg: Config, v: View, ip: string, mac: string, token: string, logout: bool, now: int, w: View, left: seq<nat>)
    requires var k := FirstIndex(ByIpMac(ip, mac), v.clients);
             if k >= |v.clients| then w == AddClient(v, ip, mac, token, now) && left == []
             else if logout then LoggedOut(v, k, w, left)
             else w == v && left == []
    ensures forall s: Sys :: s.v == v ==> Moves(s, Step(cfg, s, HttpAuth(ip, mac, token, logout, now)), w, left, [])
  {
  }

  lemma BeginLoginAsks(cfg: Config, s: Sys, ip: string)
    ensures var k, t := FirstIndex(ByIp(ip), s.v.clients), Step(cfg, s, BeginLogin(ip));
            && Moves(s, t, s.v, [], [])
            && t.logins == s.logins + if k >= |s.v.clients| then []
                                      else [Asker(s.v.clients[k].id, s.v.clients[k].ip, s.v.clients[k].mac)]
  {
  }

  lemma EndLoginMoves(cfg: Config, v: View, id: nat, token: string, code: int, w: View)
    requires var k := FirstIndex(ById(id), v.clients);
             w == if k < |v.clients| then LoginReply(v, k, token, code) else v
    ensures forall s: Sys, j: nat :: s.v == v && j < |s.logins| && s.logins[j].id == id ==>
              Moves(s, Step(cfg, s, EndLogin(j, token, code)), w, [], [])
  {
  }

  lemma BeginSyncAsks(cfg: Config, s: Sys)
    ensures Moves(s, Step(cfg, s, BeginSync), s.v, [], [])
    ensures Step(cfg, s, BeginSync).work == s.work + Map(ItemOf, s.v.clients)
  {
  }

  /** With the expiry test and the expelling codes of the sync written out. */
  lemma EndSyncMoves(cfg: Config, v: View, item: WorkItem, now: int, limit: int, code: int, w: View, left: seq<nat>, freed: seq<nat>)
    requires var k := FirstIndex(ById(item.id), v.clients);
             if k >= |v.clients| then w == v && left == freed == []
             else if item.lastUpdated + limit <= now then w == DenyAndRemove(v, k) && left == [item.id] && freed == []
             else if code == AUTH_DENIED || code == AUTH_VALIDATION_FAILED then
               w == DenyAndRemove(v, k) && left == [] && freed == [item.id]
             else w == SyncReply(v, k, code) && left == freed == []
    ensures forall s: Sys, j: nat :: s.v == v && j < |s.work| && s.work[j] == item ==>
              Moves(s, Step(cfg, s, EndSync(j, now, limit, code)), w, left, freed)
  {
    var k := FirstIndex(ById(item.id), v.clients);
    if k < |v.clients| {
      assert ById(item.id)(v.clients[k]);
    }
  }

  lemma EndLogoutMoves(cfg: Config, s: Sys, j: nat)
    requires j < |s.leaving|
    ensures var t := Step(cfg, s, EndLogout(j));
            t.v == s.v && t.leaving == RemoveAt(s.leaving, j) && t.freed == s.freed + [s.leaving[j]]
  {
  }

  lemma ResetMoves(cfg: Config, v: View, arg: string, w: View, left: seq<nat>)
    requires var i, m := FirstIndex(ByIp(arg), v.clients), FirstIndex(ByMac(arg), v.clients);
             LoggedOut(v, if i < |v.clients| then i else m, w, left)
    ensures forall s: Sys :: s.v == v ==> Moves(s, Step(cfg, s, Reset(arg)), w, left, [])
  {
  }

  lemma DisconnectMoves(cfg: Config, v: View, mac: string, token: string, w: View, left: seq<nat>)
    requires var k := FirstIndex(ByMac(mac), v.clients);
             if k < |v.clients| && v.clients[k].token == token then LoggedOut(v, k, w, left) else w == v && left == []
    ensures forall s: Sys :: s.v == v ==> Moves(s, Step(cfg, s, Disconnect(mac, token)), w, left, [])
  {
  }

  lemma ReadOutMoves(cfg: Config, v: View, ip: string, bytes: u64, now: int, w: View)
    requires var k := FirstIndex(ByIp(ip), v.clients);
             w == if k >= |v.clients| then v
                  else SetClient(v, k, v.clients[k].(counters := ReadOutgoing(v.clients[k].counters, bytes, now)))
    ensures forall s: Sys :: s.v == v ==> Moves(s, Step(cfg, s, ReadOut(ip, bytes, now)), w, [], [])
  {
  }

  lemma ReadInMoves(cfg: Config, v: View, ip: string, bytes: u64, w: View)
    requires var k := FirstIndex(ByIp(ip), v.clients);
             w == if k >= |v.clients| then v
                  else SetClient(v, k, v.clients[k].(counters := ReadIncoming(v.clients[k].counters, bytes)))
    ensures forall s: Sys :: s.v == v ==> Moves(s, Step(cfg, s, ReadIn(ip, bytes)), w, [], [])
  {
  }

  /** With the auth-down rules written out: one more when the flag goes up, none when it goes down. */
  lemma PingMoves(cfg: Config, fw: Fw, down: bool, pong: bool, after: Fw)
    requires after == if !HasAuthDown(cfg) || down == !pong then fw
                      else fw.(downs := if pong then 0 else fw.downs + 1)
    ensures forall s: Sys :: s.authdown == down && s.v.fw == fw ==>
              var t := Step(cfg, s, Event.Ping(pong)); t.authdown == !pong && t.v == s.v.(fw := after)
  {
  }

  lemma ServersMoves(cfg: Config, v: View, last: seq<Option<string>>, w: View)
    requires w == v.(fw := v.fw.(ips := FwSetup.KnownIps(last)))
    ensures forall s: Sys :: s.v == v ==> Moves(s, Step(cfg, s, Servers(last)), w, [], [])
  {
  }

  lemma HostMoves(cfg: Config, v: View, host: string, w: View)
    requires w == v.(fw := v.fw.(globals := v.fw.globals + [FwRule(TargetAccept, None, None, Some(host), false)]))
    ensures forall s: Sys :: s.v == v ==> Moves(s, Step(cfg, s, Host(host)), w, [], [])
  {
  }

  /** The child of a restart, with the grants of its start-up written out. */
  lemma {:induction false} RestartMoves(cfg: Config, s: Sys)
    requires Handoff.Readable(s.v.clients)
    ensures var cs := Handoff.Child(s.v.clients);
            Step(cfg, s, Restart).v ==
            View(cs, |cs| + 1, Fresh(cfg, []).(outgoing := Map(RuleOf, cs), incoming := Map(AddressOf, cs)))
  {
    SessionInvariant.RestartStep(cfg, s);
  }

  lemma {:induction false} RestoreMoves(cfg: Config, w: View)
    requires w.nextId == |w.clients| + 1
    requires w.fw == Fresh(cfg, []).(outgoing := Map(RuleOf, w.clients), incoming := Map(AddressOf, w.clients))
    ensures forall s: Sys :: Handoff.Readable(s.v.clients) && Handoff.Child(s.v.clients) == w.clients ==>
              Step(cfg, s, Restart).v == w
  {
    forall s: Sys | Handoff.Readable(s.v.clients) && Handoff.Child(s.v.clients) == w.clients
      ensures Step(cfg, s, Restart).v == w {
      RestartMoves(cfg, s);
    }
  }

  // ----- What the two replies write -----

  /** The reply to a login sets the token and, by its code, the state. */
  lemma LoginReplyWrites(v: View, k: nat, token: string, code: int)
    requires k < |v.clients|
    ensures var c := v.clients[k];
            LoginReply(v, k, token, code).clients == v.clients[k := c.(token := token,
              state := if code == AUTH_DENIED then MARK_NONE
                       else if code == AUTH_VALIDATION then MARK_PROBATION
                       else if code == AUTH_ALLOWED then MARK_KNOWN
                       else c.state)]
  {
  }

  /** A sync promotes a client that is allowed and not yet known, and clears its counters, all but
      their history, exactly when it was not on probation either. */
  lemma SyncReplyWrites(v: View, k: nat, code: int)
    requires k < |v.clients|
    ensures var c := v.clients[k];
            SyncReply(v, k, code).clients == v.clients[k :=
              if code != AUTH_ALLOWED || c.state == MARK_KNOWN then c
              else if c.state == MARK_PROBATION then c.(state := MARK_KNOWN)
              else c.(state := MARK_KNOWN,
                      counters := Counters(0, 0, c.counters.incomingHistory, c.counters.outgoingHistory, 0, 0,
                                           c.counters.lastUpdated))]
  {
  }
}
