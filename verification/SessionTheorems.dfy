/** The theorems of the session protocol, over all runs. */
module SessionTheorems {
  import opened Base
  import opened Config
  import opened Counters
  import opened ClientList
  import opened Iptables
  import opened Firewall
  import opened FwEdits
  import opened FwPolicy
  import opened Handoff
  import opened HandoffTheorems
  import opened Sessions
  import opened SessionInvariant
  import opened SessionRuns

  function Reached(cfg: Config, ips: seq<string>, es: seq<Event>): Sys {
    Run(cfg, Start(cfg, ips), es)
  }

  /** In every state reached by events that carry over the restarts, the nonzero rules of mangle
      Outgoing are exactly one (ip, mac, state) per listed client with a nonzero state, and
      nothing else; no two listed clients share ip and mac, or an id. */
  lemma OutgoingIndexesTheList(cfg: Config, ips: seq<string>, es: seq<Event>)
    requires CarriesOver(es, 0)
    ensures var v := Reached(cfg, ips, es).v;
            && (forall r: ClientMark :: r.mark != MARK_NONE ==>
                  multiset(v.fw.outgoing)[r] == if Listed(v.clients, r) then 1 else 0)
            && DistinctKeys(v.clients) && DistinctIds(v.clients)
  {
    StartIsSafe(cfg, ips, es);
  }

  /** Each listed client's state is the fold of the replies applied to its id, over the state the
      parent held it in at the last restart. */
  lemma StateIsFoldOfReplies(cfg: Config, ips: seq<string>, es: seq<Event>)
    requires CarriesOver(es, 0)
    ensures var s := Reached(cfg, ips, es);
            forall i :: 0 <= i < |s.v.clients| ==>
              s.v.clients[i].state == FoldReplies(StartState(s.inherited, s.v.clients[i].id), s.log, s.v.clients[i].id)
  {
    StartIsSafe(cfg, ips, es);
  }

  // ----- Retired nodes, in every run -----

  /** Ids in the list are distinct, and a retired id is retired once and listed no more. */
  ghost predicate Numbered(s: Sys) {
    && DistinctIds(s.v.clients)
    && (forall i :: 0 <= i < |s.v.clients| ==> s.v.clients[i].id < s.v.nextId)
    && forall id :: id in s.leaving + s.freed ==>
         id < s.v.nextId && multiset(s.leaving + s.freed)[id] == 1 && !HasId(s.v.clients, id)
  }

  lemma IdsStay(s: Sys, t: Sys)
    requires Numbered(s) && t.v.nextId == s.v.nextId && |t.v.clients| == |s.v.clients|
    requires forall i :: 0 <= i < |s.v.clients| ==> t.v.clients[i].id == s.v.clients[i].id
    requires multiset(t.leaving + t.freed) == multiset(s.leaving + s.freed)
    ensures Numbered(t)
  {
    forall id | id in t.leaving + t.freed
      ensures id < t.v.nextId && multiset(t.leaving + t.freed)[id] == 1 && !HasId(t.v.clients, id) {
      assert id in multiset(s.leaving + s.freed);
      assert id in s.leaving + s.freed;
    }
  }

  lemma IdRetires(s: Sys, t: Sys, k: nat)
    requires Numbered(s) && k < |s.v.clients| && t.v.clients == RemoveAt(s.v.clients, k) && t.v.nextId == s.v.nextId
    requires multiset(t.leaving + t.freed) == multiset(s.leaving + s.freed) + multiset{s.v.clients[k].id}
    ensures Numbered(t)
  {
    var cs, ds, gone := s.v.clients, t.v.clients, s.v.clients[k].id;
    assert forall i :: 0 <= i < |ds| ==> ds[i] == cs[if i < k then i else i + 1];
    assert HasId(cs, gone) && !HasId(ds, gone);
    forall id | id in t.leaving + t.freed
      ensures id < t.v.nextId && multiset(t.leaving + t.freed)[id] == 1 && !HasId(ds, id) {
      assert id in multiset(t.leaving + t.freed);
      if id != gone {
        assert id in multiset(s.leaving + s.freed);
        assert id in s.leaving + s.freed;
      } else {
        assert id !in s.leaving + s.freed;
      }
    }
  }

  lemma IdIsNew(s: Sys, c: Client)
    requires Numbered(s) && c.id == s.v.nextId
    ensures Numbered(s.(v := s.v.(clients := [c] + s.v.clients, nextId := s.v.nextId + 1)))
  {
    var ds := [c] + s.v.clients;
    assert forall i :: 1 <= i < |ds| ==> ds[i] == s.v.clients[i - 1];
    forall id | id in s.leaving + s.freed ensures !HasId(ds, id) {
      forall i | 0 <= i < |ds| ensures ds[i].id != id {
        assert i > 0 ==> HasId(s.v.clients, ds[i].id);
      }
    }
  }

  lemma LogoutNumbered(s: Sys, k: nat)
    requires Numbered(s)
    ensures Numbered(LogoutIf(s, k))
  {
    if k < |s.v.clients| {
      var t := Logout(s, k);
      assert t.v.clients == RemoveAt(s.v.clients, k);
      assert t.leaving + t.freed == s.leaving + [s.v.clients[k].id] + s.freed;
      IdRetires(s, t, k);
    }
  }

  lemma SyncNumbered(s: Sys, item: WorkItem, now: int, limit: int, code: int)
    requires Numbered(s)
    ensures Numbered(StepSync(s, item, now, limit, code))
  {
    var k := Sessions.Find(s, ById(item.id));
    var t := StepSync(s, item, now, limit, code);
    if k >= |s.v.clients| {
    } else if item.lastUpdated + limit <= now {
      LogoutNumbered(s, k);
    } else if Expels(code) {
      assert t.v.clients == RemoveAt(s.v.clients, k);
      assert t.leaving + t.freed == s.leaving + s.freed + [item.id];
      assert ById(item.id)(s.v.clients[k]);
      IdRetires(s, t, k);
    } else {
      SyncReplyTouches(s.v, k, code);
      IdsStay(s, t);
    }
  }

  lemma LoginNumbered(s: Sys, a: Asker, token: string, code: int)
    requires Numbered(s)
    ensures Numbered(StepLogin(s, a, token, code))
  {
    var k := Sessions.Find(s, ById(a.id));
    if k < |s.v.clients| {
      LoginReplyTouches(s.v, k, token, code);
      IdsStay(s, StepLogin(s, a, token, code));
    }
  }

  lemma FreeNumbered(s: Sys, j: nat)
    requires Numbered(s) && j < |s.leaving|
    ensures Numbered(s.(leaving := RemoveAt(s.leaving, j), freed := s.freed + [s.leaving[j]]))
  {
    assert s.leaving == s.leaving[..j] + [s.leaving[j]] + s.leaving[j + 1..];
    IdsStay(s, s.(leaving := RemoveAt(s.leaving, j), freed := s.freed + [s.leaving[j]]));
  }

  lemma ChildNumbered(cfg: Config, s: Sys)
    ensures Readable(s.v.clients) ==> Numbered(Successor(Restarted(cfg, s.v), s))
  {
    if Readable(s.v.clients) {
      AdoptedNumbered(Delivered(s.v.clients), Successor(Restarted(cfg, s.v), s));
    }
  }

  lemma AdoptedNumbered(rs: seq<Received>, t: Sys)
    requires AllComplete(rs) && t.v.clients == Adopted(rs) && t.v.nextId == |rs| + 1
    requires t.leaving == [] && t.freed == []
    ensures Numbered(t)
  {
  }

  lemma StepNumbered(cfg: Config, s: Sys, e: Event)
    requires Numbered(s)
    ensures Numbered(Step(cfg, s, e))
  {
    match e
    case HttpAuth(ip, mac, token, logout, now) =>
      var k := Sessions.Find(s, ByIpMac(ip, mac));
      IdIsNew(s, Client(s.v.nextId, ip, mac, token, 0, 0, NewCounters(now)));
      LogoutNumbered(s, k);
    case EndLogin(j, token, code) =>
      if j < |s.logins| {
        LoginNumbered(s.(logins := RemoveAt(s.logins, j)), s.logins[j], token, code);
      }
    case EndSync(j, now, limit, code) =>
      if j < |s.work| {
        SyncNumbered(s.(work := RemoveAt(s.work, j)), s.work[j], now, limit, code);
      }
    case EndLogout(j) => if j < |s.leaving| { FreeNumbered(s, j); }
    case Reset(arg) =>
      var k := Sessions.Find(s, ByIp(arg));
      LogoutNumbered(s, if k < |s.v.clients| then k else Sessions.Find(s, ByMac(arg)));
    case Disconnect(mac, token) => LogoutNumbered(s, Sessions.Find(s, ByMac(mac)));
    case Restart => ChildNumbered(cfg, s);
    case _ => QuietNumbered(cfg, s, e);
  }

  lemma QuietNumbered(cfg: Config, s: Sys, e: Event)
    requires Numbered(s) && (e.BeginLogin? || e.BeginSync? || e.ReadOut? || e.ReadIn? || e.Ping? || e.Servers? || e.Host?)
    ensures Numbered(Step(cfg, s, e))
  {
    IdsStay(s, Step(cfg, s, e));
  }

  lemma {:induction false} RunNumbered(cfg: Config, s: Sys, es: seq<Event>)
    requires Numbered(s)
    ensures Numbered(Run(cfg, s, es))
    decreases |es|
  {
    if es != [] {
      StepNumbered(cfg, s, es[0]);
      RunNumbered(cfg, Step(cfg, s, es[0]), es[1..]);
    }
  }

  /** In every run, restarts of any list included: a node unlinked by a logout or expelled by a
      sync is in no list, and freed at most once. */
  lemma FreedOnce(cfg: Config, ips: seq<string>, es: seq<Event>, id: nat)
    ensures var s := Reached(cfg, ips, es);
            id in s.leaving || id in s.freed ==>
              multiset(s.leaving)[id] + multiset(s.freed)[id] == 1 && !HasId(s.v.clients, id)
  {
    RunNumbered(cfg, Start(cfg, ips), es);
    var s := Reached(cfg, ips, es);
    assert id in s.leaving || id in s.freed <==> id in s.leaving + s.freed;
    assert multiset(s.leaving + s.freed) == multiset(s.leaving) + multiset(s.freed);
  }

  // ----- Late replies -----

  ghost predicate Gone(v: View, id: nat) {
    id < v.nextId && forall i :: 0 <= i < |v.clients| ==> v.clients[i].id != id
  }

  lemma RemoveNoRevival(v: View, k: nat, id: nat)
    requires Gone(v, id) && k < |v.clients|
    ensures Gone(DenyAndRemove(v, k), id)
  {
    var ds := DenyAndRemove(v, k).clients;
    assert forall i :: 0 <= i < |ds| ==> ds[i] == Deny(v, k).clients[if i < k then i else i + 1];
  }

  lemma ReplyNoRevival(s: Sys, id: nat, item: WorkItem, now: int, limit: int, a: Asker, token: string, code: int)
    requires Gone(s.v, id)
    ensures Gone(StepSync(s, item, now, limit, code).v, id) && Gone(StepLogin(s, a, token, code).v, id)
  {
    var k, m := Sessions.Find(s, ById(item.id)), Sessions.Find(s, ById(a.id));
    if k < |s.v.clients| {
      RemoveNoRevival(s.v, k, id);
      SyncReplyTouches(s.v, k, code);
    }
    if m < |s.v.clients| {
      LoginReplyTouches(s.v, m, token, code);
    }
  }

  lemma StepNoRevival(cfg: Config, s: Sys, e: Event, id: nat)
    requires !e.Restart? && Gone(s.v, id)
    ensures Gone(Step(cfg, s, e).v, id)
  {
    forall k: nat | k < |s.v.clients| {
      RemoveNoRevival(s.v, k, id);
    }
    match e
    case EndLogin(j, token, code) =>
      if j < |s.logins| {
        ReplyNoRevival(s.(logins := RemoveAt(s.logins, j)), id, WorkItem(0, 0), 0, 0, s.logins[j], token, code);
      }
    case EndSync(j, now, limit, code) =>
      if j < |s.work| {
        ReplyNoRevival(s.(work := RemoveAt(s.work, j)), id, s.work[j], now, limit, Asker(0, "", ""), "", code);
      }
    case _ =>
  }

  /** Within a run of one process an id that has gone never comes back. */
  lemma {:induction false} NoRevival(cfg: Config, s: Sys, es: seq<Event>, id: nat)
    requires Gone(s.v, id)
    requires forall i :: 0 <= i < |es| ==> !es[i].Restart?
    ensures Gone(Run(cfg, s, es).v, id)
    decreases |es|
  {
    if es != [] {
      StepNoRevival(cfg, s, es[0], id);
      NoRevival(cfg, Step(cfg, s, es[0]), es[1..], id);
    }
  }

  /** A reply that arrives after its session has gone, however long after and whoever logged
      in meanwhile, changes neither the list nor the firewall. */
  lemma LateReplyIsDiscarded(cfg: Config, s: Sys, es: seq<Event>, id: nat, j: nat, token: string, code: int, now: int, limit: int)
    requires Gone(s.v, id)
    requires forall i :: 0 <= i < |es| ==> !es[i].Restart?
    ensures var t := Run(cfg, s, es);
            && (j < |t.logins| && t.logins[j].id == id ==> Step(cfg, t, EndLogin(j, token, code)).v == t.v)
            && (j < |t.work| && t.work[j].id == id ==> Step(cfg, t, EndSync(j, now, limit, code)).v == t.v)
  {
    NoRevival(cfg, s, es, id);
    var t := Run(cfg, s, es);
    FirstIndexUnique(ById(id), t.v.clients, |t.v.clients|);
  }

  /** The rules of one key, and of one address. */
  function OtherKey(ip: string, mac: string): ClientMark -> bool {
    (r: ClientMark) => !(r.ip == ip && r.mac == mac)
  }

  function OtherThan(ip: string): string -> bool {
    (x: string) => x != ip
  }

  /** All other rules are as they were, in number and in order. */
  ghost predicate OnlyRulesOf(fw: Fw, after: Fw, ip: string, mac: string) {
    && after == fw.(outgoing := after.outgoing, incoming := after.incoming)
    && Base.Filter(OtherKey(ip, mac), after.outgoing) == Base.Filter(OtherKey(ip, mac), fw.outgoing)
    && Base.Filter(OtherThan(ip), after.incoming) == Base.Filter(OtherThan(ip), fw.incoming)
  }

  lemma GrantIsOwn(fw: Fw, ip: string, mac: string, mark: int)
    ensures OnlyRulesOf(fw, Grant(fw, ip, mac, mark), ip, mac)
  {
    FilterDropLast(OtherKey(ip, mac), fw.outgoing, ClientMark(ip, mac, mark));
    FilterDropLast(OtherThan(ip), fw.incoming, ip);
  }

  lemma RevokeIsOwn(fw: Fw, ip: string, mac: string, mark: int)
    ensures OnlyRulesOf(fw, Revoke(fw, ip, mac, mark), ip, mac)
  {
    FilterDropFirst(OtherKey(ip, mac), fw.outgoing, ClientMark(ip, mac, mark));
    FilterDropFirst(OtherThan(ip), fw.incoming, ip);
  }

  lemma LoginReplyIsOwn(v: View, k: nat, token: string, code: int)
    requires k < |v.clients|
    ensures OnlyRulesOf(v.fw, LoginReply(v, k, token, code).fw, v.clients[k].ip, v.clients[k].mac)
  {
    var c := v.clients[k];
    RevokeIsOwn(v.fw, c.ip, c.mac, c.state);
    AllowIsOwn(SetClient(v, k, c.(token := token)), k, MARK_PROBATION);
    AllowIsOwn(SetClient(v, k, c.(token := token)), k, MARK_KNOWN);
  }

  lemma AllowIsOwn(v: View, k: nat, state: int)
    requires k < |v.clients|
    ensures OnlyRulesOf(v.fw, Allow(v, k, state).fw, v.clients[k].ip, v.clients[k].mac)
  {
    var c := v.clients[k];
    var granted := Grant(v.fw, c.ip, c.mac, state);
    GrantIsOwn(v.fw, c.ip, c.mac, state);
    RevokeIsOwn(granted, c.ip, c.mac, c.state);
  }

  /** A reply that is applied changes the very session that asked and its rules, and no other
      client and no other rule. */
  lemma ReplyReachesTheAsker(cfg: Config, ips: seq<string>, es: seq<Event>, j: nat, token: string, code: int)
    requires CarriesOver(es, 0) && j < |Reached(cfg, ips, es).logins|
    ensures var s := Reached(cfg, ips, es);
            var t := Step(cfg, s, EndLogin(j, token, code));
            var a := s.logins[j];
            || t.v == s.v
            || exists k ::
                 && 0 <= k < |s.v.clients| == |t.v.clients|
                 && s.v.clients[k].id == a.id && s.v.clients[k].ip == a.ip && s.v.clients[k].mac == a.mac
                 && t.v.clients == s.v.clients[k := t.v.clients[k]]
                 && SameKey(t.v.clients[k], s.v.clients[k])
                 && OnlyRulesOf(s.v.fw, t.v.fw, a.ip, a.mac)
  {
    StartIsSafe(cfg, ips, es);
    var s := Reached(cfg, ips, es);
    var k := FirstIndex(ById(s.logins[j].id), s.v.clients);
    IdAt(s.v.clients, k, s.logins[j].id);
    if k < |s.v.clients| {
      LoginReplyTouches(s.v, k, token, code);
      LoginReplyIsOwn(s.v, k, token, code);
    }
  }

  // ----- Marks -----

  lemma {:induction false} LastMarkIs(o: seq<ClientMark>, k: nat)
    requires k < |o| && forall j :: k < j < |o| ==> !(o[j].ip == o[k].ip && o[j].mac == o[k].mac)
    ensures LastMark(o, o[k].ip, o[k].mac) == Some(o[k].mark)
  {
    if k < |o| - 1 {
      LastMarkIs(o[..|o| - 1], k);
    }
  }

  lemma {:induction false} LastMarkFrom(o: seq<ClientMark>, ip: string, mac: string)
    ensures LastMark(o, ip, mac).Some? ==> ClientMark(ip, mac, LastMark(o, ip, mac).value) in o
    ensures LastMark(o, ip, mac).None? ==> forall m :: ClientMark(ip, mac, m) !in o
  {
    if o != [] {
      LastMarkFrom(o[..|o| - 1], ip, mac);
      assert o == o[..|o| - 1] + [o[|o| - 1]];
    }
  }

  /** The mark a packet from ip and mac should carry. */
  function Expected(cfg: Config, s: Sys, ip: string, mac: string, before: int): int {
    var k := FirstIndex(ByIpMac(ip, mac), s.v.clients);
    if k < |s.v.clients| && s.v.clients[k].state != MARK_NONE then s.v.clients[k].state
    else if ClientMark(ip, mac, MARK_NONE) in s.v.fw.outgoing then MARK_NONE
    else if mac in cfg.trustedMacs then MARK_KNOWN
    else if HasAuthDown(cfg) && s.authdown then 0x253
    else before
  }

  /** A nonzero rule is the last one of its key. */
  lemma NonzeroIsLast(o: seq<ClientMark>, r: ClientMark)
    requires ZerosFirst(o) && r in o && r.mark != MARK_NONE
    ensures LastMark(o, r.ip, r.mac) == Some(r.mark)
  {
    var k :| 0 <= k < |o| && o[k] == r;
    LastMarkIs(o, k);
  }

  lemma MarkIsExpected(cfg: Config, s: Sys, ip: string, mac: string, before: int)
    requires Inv(cfg, s)
    ensures MarkOf(cfg, s.v.fw, ip, mac, before) == Expected(cfg, s, ip, mac, before)
  {
    var o, cs := s.v.fw.outgoing, s.v.clients;
    var k := FirstIndex(ByIpMac(ip, mac), cs);
    LastMarkFrom(o, ip, mac);
    if k < |cs| {
      assert ByIpMac(ip, mac)(cs[k]);
      var r := RuleOf(cs[k]);
      ListedKey(cs, k, r);
      if r.mark != MARK_NONE {
        assert multiset(o)[r] == 1;
        NonzeroIsLast(o, r);
      } else {
        OnlyZeroMarks(cs, o, ip, mac, k);
      }
    } else {
      OnlyZeroMarks(cs, o, ip, mac, k);
    }
  }

  lemma OnlyZeroMarks(cs: seq<Client>, o: seq<ClientMark>, ip: string, mac: string, k: nat)
    requires Agree(cs, o) && DistinctKeys(cs) && k == FirstIndex(ByIpMac(ip, mac), cs)
    requires k < |cs| ==> cs[k].state == MARK_NONE
    ensures forall m :: ClientMark(ip, mac, m) in o ==> m == MARK_NONE
  {
    forall m | ClientMark(ip, mac, m) in o ensures m == MARK_NONE {
      var r := ClientMark(ip, mac, m);
      assert multiset(o)[r] > 0;
      if k < |cs| {
        assert ByIpMac(ip, mac)(cs[k]);
        ListedKey(cs, k, r);
      } else {
        assert !Listed(cs, r) by {
          forall i | 0 <= i < |cs| ensures RuleOf(cs[i]) != r {
            assert !ByIpMac(ip, mac)(cs[i]);
          }
        }
      }
    }
  }

  /** In every state reached by events that carry over the restarts a packet from the gateway
      interface goes on to the rules that
      were there before with its client's nonzero state as mark; else 0 if an inherited NONE
      rule covers it; else KNOWN if its MAC is trusted; else the auth-down mark exactly while
      the ping thread holds the auth server down; else the mark it came with. */
  lemma PacketMark(cfg: Config, prior: Tables, ips: seq<string>, es: seq<Event>, p: Packet, before: int, stack: nat)
    requires Clean(cfg, prior) && cfg.extInterface.Some? && p.iface == cfg.gwInterface && stack >= 1
    requires CarriesOver(es, 0)
    ensures var s := Reached(cfg, ips, es);
            var t := Realise(cfg, prior, s.v.fw).mangle;
            Walk(t, t[PREROUTING], p, before, stack) ==
            Walk(prior.mangle, prior.mangle[PREROUTING], p, Expected(cfg, s, p.src, p.mac, before), stack)
  {
    StartIsSafe(cfg, ips, es);
    var s := Reached(cfg, ips, es);
    MarkIsExpected(cfg, s, p.src, p.mac, before);
    MangleMeansMark(cfg, prior, s.v.fw, p, before, stack);
  }

  /** The four commands of fw_allow, one at a time. */
  function AllowCommands(fw: Fw, c: Client, state: int): seq<Fw> {
    var f1 := fw.(outgoing := fw.outgoing + [ClientMark(c.ip, c.mac, state)]);
    var f2 := f1.(incoming := f1.incoming + [c.ip]);
    var f3 := f2.(outgoing := RemoveFirst(f2.outgoing, ClientMark(c.ip, c.mac, c.state)));
    var f4 := f3.(incoming := RemoveFirst(f3.incoming, c.ip));
    [fw, f1, f2, f3, f4]
  }

  /** A client moving between nonzero states carries its old or its new mark after every
      single command, never none; and the last state is fw_allow's. */
  lemma AllowNeverUnmarks(v: View, k: nat, state: int, i: nat)
    requires Good(v) && k < |v.clients| && v.clients[k].state != MARK_NONE && LegalState(state) && state != MARK_NONE && i < 5
    ensures var c := v.clients[k];
            var fws := AllowCommands(v.fw, c, state);
            && LastMark(fws[i].outgoing, c.ip, c.mac) == Some(if i == 0 then c.state else state)
            && fws[4] == Allow(v, k, state).fw
  {
    var c := v.clients[k];
    var o := v.fw.outgoing;
    var y := ClientMark(c.ip, c.mac, state);
    AllowRules(v, k, state);
    RemoveFirstAppend(o, RuleOf(c), y);
    NonzeroIsLast(o, RuleOf(c));
    LastMarkIs(o + [y], |o|);
    var left := RemoveFirst(o, RuleOf(c));
    LastMarkIs(left + [y], |left|);
  }

  /** A client's rule in a firewall rebuilt from a list. */
  lemma {:induction false} RebuiltMark(ds: seq<Client>, i: nat)
    requires DistinctKeys(ds) && i < |ds| && ds[i].state != MARK_NONE
    ensures LastMark(Map(RuleOf, ds), ds[i].ip, ds[i].mac) == Some(ds[i].state)
  {
    RebuiltAgrees(ds);
    KeepsRule(ds, Map(RuleOf, ds), i);
  }

  lemma {:induction false} HandedOverMark(v: View, k: nat)
    requires Good(v) && k < |v.clients| && v.clients[k].state != MARK_NONE
    ensures var c := v.clients[k]; LastMark(Map(RuleOf, HandOff(v.clients)), c.ip, c.mac) == Some(c.state)
  {
    var i := |v.clients| - 1 - k;
    HandOffAt(v.clients, i);
    HandOffKeys(v, HandOff(v.clients));
    RebuiltMark(HandOff(v.clients), i);
  }

  lemma {:induction false} RestartOfState(cfg: Config, s: Sys, k: nat)
    requires Good(s.v) && Sendable(s.v.clients) && k < |s.v.clients| && s.v.clients[k].state != MARK_NONE
    ensures var c := s.v.clients[k];
            && LastMark(s.v.fw.outgoing, c.ip, c.mac) == Some(c.state)
            && LastMark(Step(cfg, s, Restart).v.fw.outgoing, c.ip, c.mac) == Some(c.state)
  {
    RestartView(cfg, s);
    KeepsRule(s.v.clients, s.v.fw.outgoing, k);
    HandedOverMark(s.v, k);
  }

  /** The firewall a restart rebuilds gives every client with a nonzero state its old mark. */
  lemma {:induction false} RestartKeepsMarks(cfg: Config, ips: seq<string>, es: seq<Event>, k: nat)
    requires CarriesOver(es + [Restart], 0) && k < |Reached(cfg, ips, es).v.clients|
    ensures var s := Reached(cfg, ips, es);
            var c := s.v.clients[k];
            c.state != MARK_NONE ==>
              && LastMark(s.v.fw.outgoing, c.ip, c.mac) == Some(c.state)
              && LastMark(Step(cfg, s, Restart).v.fw.outgoing, c.ip, c.mac) == Some(c.state)
  {
    LastRestartIsSafe(cfg, ips, es);
    var s := Reached(cfg, ips, es);
    if s.v.clients[k].state != MARK_NONE {
      RestartOfState(cfg, s, k);
    }
  }

  /** Every session of the parent list is in the child list, its totals taken as history. */
  predicate InheritedFrom(cs: seq<Client>, ds: seq<Client>) {
    |ds| == |cs| && forall k :: 0 <= k < |cs| ==> ds[|cs| - 1 - k] == Inherited(cs[k], k + 1)
  }

  lemma {:induction false} HandOffInherits(cs: seq<Client>)
    ensures InheritedFrom(cs, HandOff(cs))
  {
    HandOffSize(cs);
    forall k | 0 <= k < |cs| ensures HandOff(cs)[|cs| - 1 - k] == Inherited(cs[k], k + 1) {
      HandedOver(cs, k);
    }
  }

  /** What the child of a restart inherits is what its parent held. */
  lemma {:induction false} RestartInheritsSessions(cfg: Config, ips: seq<string>, es: seq<Event>)
    requires CarriesOver(es + [Restart], 0)
    ensures InheritedFrom(Reached(cfg, ips, es).v.clients, Step(cfg, Reached(cfg, ips, es), Restart).v.clients)
  {
    LastRestartIsSafe(cfg, ips, es);
    ChildInherits(cfg, Reached(cfg, ips, es));
  }

  lemma {:induction false} ChildInherits(cfg: Config, s: Sys)
    requires Sendable(s.v.clients)
    ensures InheritedFrom(s.v.clients, Step(cfg, s, Restart).v.clients)
  {
    RestartView(cfg, s);
    HandOffInherits(s.v.clients);
  }

  lemma KeepsRule(cs: seq<Client>, o: seq<ClientMark>, k: nat)
    requires k < |cs| && DistinctKeys(cs) && Agree(cs, o) && ZerosFirst(o) && cs[k].state != MARK_NONE
    ensures LastMark(o, cs[k].ip, cs[k].mac) == Some(cs[k].state)
  {
    ListedKey(cs, k, RuleOf(cs[k]));
    assert multiset(o)[RuleOf(cs[k])] == 1;
    NonzeroIsLast(o, RuleOf(cs[k]));
  }

  /** From socket to verdict: whatever mark m the rules that were there before leave on the packet,
      the filter table decides by the policy for that mark; if they set none, by the policy for the
      client's state. */
  lemma VerdictFollowsState(cfg: Config, prior: Tables, ips: seq<string>, es: seq<Event>, p: Packet, before: int, m: int, stack: nat)
    requires Clean(cfg, prior) && cfg.extInterface.Some? && p.iface == cfg.gwInterface && stack >= 2
    requires CarriesOver(es, 0)
    requires var mark := Expected(cfg, Reached(cfg, ips, es), p.src, p.mac, before);
             Walk(prior.mangle, prior.mangle[PREROUTING], p, mark, stack) == Fall(m)
    ensures var s := Reached(cfg, ips, es);
            var t := Realise(cfg, prior, s.v.fw);
            && Walk(t.mangle, t.mangle[PREROUTING], p, before, stack) == Fall(m)
            && Walk(t.filter, t.filter[FORWARD], p, m, stack) == Final(Policy(cfg, s.v.fw, p, m))
  {
    PacketMark(cfg, prior, ips, es, p, before, stack);
    FilterMeansPolicy(cfg, prior, Reached(cfg, ips, es).v.fw, p, m, stack);
  }
}
