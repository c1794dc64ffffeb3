/** What every step of the session protocol keeps: the mangle Outgoing chain is an exact index
    of the client list. */
module SessionInvariant {
  import opened Base
  import opened Config
  import opened Counters
  import opened ClientList
  import opened Iptables
  import opened Firewall
  import opened FwEdits
  import opened FwPolicy
  import opened Handoff
  import opened HandoffTheorems
  import opened Sessions

  predicate SameKey(a: Client, b: Client) {
    a.ip == b.ip && a.mac == b.mac
  }

  ghost predicate DistinctIds(cs: seq<Client>) {
    forall i, j :: 0 <= i < j < |cs| ==> cs[i].id != cs[j].id
  }

  ghost predicate DistinctKeys(cs: seq<Client>) {
    forall i, j :: 0 <= i < j < |cs| ==> !SameKey(cs[i], cs[j])
  }

  /** A listed client has exactly this rule. */
  ghost predicate Listed(cs: seq<Client>, r: ClientMark) {
    exists i :: 0 <= i < |cs| && RuleOf(cs[i]) == r
  }

  /** Each nonzero rule is there once when a client has it and not at all otherwise. */
  ghost predicate Agree(cs: seq<Client>, outgoing: seq<ClientMark>) {
    forall r: ClientMark :: r.mark != MARK_NONE ==>
      multiset(outgoing)[r] == if Listed(cs, r) then 1 else 0
  }

  /** Of several rules for one ip and mac only the last may set a nonzero mark. */
  ghost predicate ZerosFirst(o: seq<ClientMark>) {
    forall i, j :: 0 <= i < j < |o| && o[i].ip == o[j].ip && o[i].mac == o[j].mac ==> o[i].mark == MARK_NONE
  }

  predicate LegalState(state: int) {
    state == MARK_NONE || state == MARK_PROBATION || state == MARK_KNOWN
  }

  ghost predicate Good(v: View) {
    && DistinctIds(v.clients)
    && DistinctKeys(v.clients)
    && (forall i :: 0 <= i < |v.clients| ==> 1 <= v.clients[i].id < v.nextId && LegalState(v.clients[i].state))
    && Agree(v.clients, v.fw.outgoing)
    && ZerosFirst(v.fw.outgoing)
  }

  // ----- Clients and rules -----

  lemma ListedKey(cs: seq<Client>, k: nat, r: ClientMark)
    requires k < |cs| && DistinctKeys(cs) && r.ip == cs[k].ip && r.mac == cs[k].mac
    ensures Listed(cs, r) <==> r == RuleOf(cs[k])
  {
    if Listed(cs, r) {
      var i :| 0 <= i < |cs| && RuleOf(cs[i]) == r;
      assert i != k ==> SameKey(cs[i], cs[k]);
    }
  }

  lemma ListedOther(cs: seq<Client>, k: nat, c: Client, r: ClientMark)
    requires k < |cs| && SameKey(c, cs[k]) && !(r.ip == c.ip && r.mac == c.mac)
    ensures Listed(cs[k := c], r) <==> Listed(cs, r)
  {
    if Listed(cs, r) {
      var i :| 0 <= i < |cs| && RuleOf(cs[i]) == r;
      assert cs[k := c][i] == cs[i];
    }
    if Listed(cs[k := c], r) {
      var i :| 0 <= i < |cs| && RuleOf(cs[k := c][i]) == r;
      assert cs[k := c][i] == cs[i];
    }
  }

  lemma KeysKept(cs: seq<Client>, k: nat, c: Client)
    requires k < |cs| && DistinctIds(cs) && DistinctKeys(cs) && SameKey(c, cs[k]) && c.id == cs[k].id
    ensures DistinctIds(cs[k := c]) && DistinctKeys(cs[k := c])
  {
  }

  /** Changing a client's state along with its rule keeps the agreement. */
  lemma AgreeReplaced(cs: seq<Client>, o: seq<ClientMark>, k: nat, c: Client, o': seq<ClientMark>)
    requires k < |cs| && DistinctIds(cs) && DistinctKeys(cs) && SameKey(c, cs[k]) && c.id == cs[k].id
    requires Agree(cs, o)
    requires forall r: ClientMark :: r.mark != MARK_NONE ==>
               multiset(o')[r] == multiset(o)[r]
                 + (if r == RuleOf(c) then 1 else 0) - (if r == RuleOf(cs[k]) then 1 else 0)
    ensures Agree(cs[k := c], o')
  {
    KeysKept(cs, k, c);
    forall r: ClientMark | r.mark != MARK_NONE
      ensures multiset(o')[r] == if Listed(cs[k := c], r) then 1 else 0
    {
      if r.ip == c.ip && r.mac == c.mac {
        ListedKey(cs, k, r);
        ListedKey(cs[k := c], k, r);
      } else {
        ListedOther(cs, k, c, r);
      }
    }
  }

  lemma ZerosFirstRemoved(o: seq<ClientMark>, x: ClientMark)
    requires ZerosFirst(o)
    ensures ZerosFirst(RemoveFirst(o, x))
  {
    if x in o {
      var k := RemoveFirstSplit(o, x);
      ZerosFirstCut(o, k, RemoveFirst(o, x));
    }
  }

  lemma ZerosFirstCut(o: seq<ClientMark>, k: nat, r: seq<ClientMark>)
    requires ZerosFirst(o) && k < |o| && r == o[..k] + o[k + 1..]
    ensures ZerosFirst(r)
  {
    forall i, j | 0 <= i < j < |r| && r[i].ip == r[j].ip && r[i].mac == r[j].mac
      ensures r[i].mark == MARK_NONE
    {
      var i', j' := if i < k then i else i + 1, if j < k then j else j + 1;
      assert r[i] == o[i'] && r[j] == o[j'];
    }
  }

  lemma ZerosFirstSnoc(o: seq<ClientMark>, y: ClientMark)
    requires ZerosFirst(o)
    requires forall r :: r in o && r.ip == y.ip && r.mac == y.mac ==> r.mark == MARK_NONE
    ensures ZerosFirst(o + [y])
  {
  }

  // ----- The pieces of a step -----

  /** The rules after fw_allow: the old nonzero rule makes way for the new one at the end. */
  lemma AllowRules(v: View, k: nat, state: int)
    requires Good(v) && k < |v.clients|
    ensures var c := v.clients[k];
            var y := ClientMark(c.ip, c.mac, state);
            Allow(v, k, state).fw.outgoing ==
              (if c.state == MARK_NONE then v.fw.outgoing else RemoveFirst(v.fw.outgoing, RuleOf(c))) + [y]
    ensures v.clients[k].state != MARK_NONE ==> RuleOf(v.clients[k]) in v.fw.outgoing
  {
    var c := v.clients[k];
    var x, o := RuleOf(c), v.fw.outgoing;
    if c.state != MARK_NONE {
      ListedKey(v.clients, k, x);
      assert multiset(o)[x] == 1;
      RemoveFirstAppend(o, x, ClientMark(c.ip, c.mac, state));
    }
  }

  /** What is left once the client's own nonzero rule is gone has only zeros for its key. */
  lemma OnlyZerosLeft(cs: seq<Client>, o: seq<ClientMark>, k: nat, r: ClientMark)
    requires k < |cs| && DistinctKeys(cs) && Agree(cs, o)
    requires r.ip == cs[k].ip && r.mac == cs[k].mac
    requires r in if cs[k].state == MARK_NONE then o else RemoveFirst(o, RuleOf(cs[k]))
    ensures r.mark == MARK_NONE
  {
    var left := if cs[k].state == MARK_NONE then o else RemoveFirst(o, RuleOf(cs[k]));
    assert multiset(left)[r] > 0;
    RemoveFirstMultiset(o, RuleOf(cs[k]));
    ListedKey(cs, k, r);
  }

  lemma AllowKeeps(v: View, k: nat, state: int)
    requires Good(v) && k < |v.clients| && state != MARK_NONE && LegalState(state)
    ensures Good(Allow(v, k, state))
  {
    var c := v.clients[k];
    var d := c.(state := state);
    var o := v.fw.outgoing;
    var left := if c.state == MARK_NONE then o else RemoveFirst(o, RuleOf(c));
    AllowRules(v, k, state);
    RemoveFirstMultiset(o, RuleOf(c));
    AgreeReplaced(v.clients, o, k, d, left + [RuleOf(d)]);
    KeysKept(v.clients, k, d);
    ZerosFirstRemoved(o, RuleOf(c));
    forall r | r in left && r.ip == c.ip && r.mac == c.mac ensures r.mark == MARK_NONE {
      OnlyZerosLeft(v.clients, o, k, r);
    }
    ZerosFirstSnoc(left, RuleOf(d));
  }

  lemma DenyAgrees(v: View, k: nat)
    requires Good(v) && k < |v.clients|
    ensures var c := v.clients[k];
            var left := RemoveFirst(v.fw.outgoing, RuleOf(c));
            Agree(v.clients[k := c.(state := MARK_NONE)], left) && ZerosFirst(left)
  {
    var c := v.clients[k];
    var d := c.(state := MARK_NONE);
    var o := v.fw.outgoing;
    var left := RemoveFirst(o, RuleOf(c));
    RemoveFirstMultiset(o, RuleOf(c));
    ZerosFirstRemoved(o, RuleOf(c));
    forall r: ClientMark | r.mark != MARK_NONE
      ensures multiset(left)[r] == multiset(o)[r] + (if r == RuleOf(d) then 1 else 0) - (if r == RuleOf(c) then 1 else 0)
    {
      if r == RuleOf(c) {
        ListedKey(v.clients, k, r);
      }
    }
    AgreeReplaced(v.clients, o, k, d, left);
  }

  lemma DenyKeeps(v: View, k: nat)
    requires Good(v) && k < |v.clients|
    ensures Good(Deny(v, k))
  {
    DenyAgrees(v, k);
    KeysKept(v.clients, k, v.clients[k].(state := MARK_NONE));
  }

  /** A client in state NONE may leave: no nonzero rule is its own. */
  lemma RemoveKeeps(v: View, k: nat)
    requires Good(v) && k < |v.clients| && v.clients[k].state == MARK_NONE
    ensures Good(v.(clients := RemoveAt(v.clients, k)))
  {
    var cs, ds := v.clients, RemoveAt(v.clients, k);
    assert forall i :: 0 <= i < |ds| ==> ds[i] == cs[if i < k then i else i + 1];
    forall r: ClientMark | r.mark != MARK_NONE
      ensures Listed(ds, r) <==> Listed(cs, r)
    {
      if Listed(cs, r) {
        var i :| 0 <= i < |cs| && RuleOf(cs[i]) == r;
        assert ds[if i < k then i else i - 1] == cs[i];
      }
    }
  }

  lemma DenyAndRemoveKeeps(v: View, k: nat)
    requires Good(v) && k < |v.clients|
    ensures Good(DenyAndRemove(v, k))
  {
    DenyKeeps(v, k);
    RemoveKeeps(Deny(v, k), k);
  }

  lemma AddKeeps(v: View, ip: string, mac: string, token: string, now: int)
    requires Good(v) && v.nextId >= 1 && FirstIndex(ByIpMac(ip, mac), v.clients) == |v.clients|
    ensures Good(AddClient(v, ip, mac, token, now))
  {
    var cs, ds := v.clients, AddClient(v, ip, mac, token, now).clients;
    assert forall i :: 1 <= i < |ds| ==> ds[i] == cs[i - 1];
    forall i | 0 <= i < |cs| ensures !SameKey(ds[0], cs[i]) {
      assert !ByIpMac(ip, mac)(cs[i]);
    }
    forall r: ClientMark | r.mark != MARK_NONE
      ensures Listed(ds, r) <==> Listed(cs, r)
    {
      if Listed(cs, r) {
        var i :| 0 <= i < |cs| && RuleOf(cs[i]) == r;
        assert ds[i + 1] == cs[i];
      }
    }
  }

  /** Tokens and counters do not matter to the agreement. */
  lemma SetKeeps(v: View, k: nat, c: Client)
    requires Good(v) && k < |v.clients| && SameKey(c, v.clients[k]) && c.id == v.clients[k].id && c.state == v.clients[k].state
    ensures Good(SetClient(v, k, c))
  {
    AgreeReplaced(v.clients, v.fw.outgoing, k, c, v.fw.outgoing);
    KeysKept(v.clients, k, c);
  }

  lemma LoginReplyKeeps(v: View, k: nat, token: string, code: int)
    requires Good(v) && k < |v.clients|
    ensures Good(LoginReply(v, k, token, code))
  {
    var c := v.clients[k].(token := token);
    SetKeeps(v, k, c);
    var w := SetClient(v, k, c);
    if code == AUTH_DENIED {
      DenyKeeps(w, k);
    } else if code == AUTH_VALIDATION {
      AllowKeeps(w, k, MARK_PROBATION);
    } else if code == AUTH_ALLOWED {
      AllowKeeps(w, k, MARK_KNOWN);
    }
  }

  lemma SyncReplyKeeps(v: View, k: nat, code: int)
    requires Good(v) && k < |v.clients|
    ensures Good(SyncReply(v, k, code))
  {
    var c := v.clients[k];
    if code == AUTH_ALLOWED && c.state != MARK_KNOWN {
      var d := c.(counters := Clear(c.counters));
      SetKeeps(v, k, d);
      AllowKeeps(if c.state != MARK_PROBATION then SetClient(v, k, d) else v, k, MARK_KNOWN);
    }
  }

  // ----- Restart -----

  lemma {:induction false} RulesCount(cs: seq<Client>, r: ClientMark)
    requires DistinctKeys(cs)
    ensures multiset(Map(RuleOf, cs))[r] == if Listed(cs, r) then 1 else 0
  {
    if cs != [] {
      var rest := cs[1..];
      RulesCount(rest, r);
      assert Map(RuleOf, cs) == [RuleOf(cs[0])] + Map(RuleOf, rest);
      ListedTail(cs, r);
    }
  }

  lemma ListedTail(cs: seq<Client>, r: ClientMark)
    requires cs != [] && DistinctKeys(cs)
    ensures Listed(cs, r) <==> RuleOf(cs[0]) == r || Listed(cs[1..], r)
    ensures !(RuleOf(cs[0]) == r && Listed(cs[1..], r))
  {
    var rest := cs[1..];
    forall i | 0 <= i < |rest| ensures RuleOf(rest[i]) != RuleOf(cs[0]) && RuleOf(rest[i]) == RuleOf(cs[i + 1]) {
      assert !SameKey(cs[0], cs[i + 1]);
    }
    if Listed(cs, r) {
      var i :| 0 <= i < |cs| && RuleOf(cs[i]) == r;
      assert i > 0 ==> rest[i - 1] == cs[i];
    }
  }

  /** A restart from a sendable list keeps everything: ids are renumbered, keys and states stay,
      and the rebuilt rules agree with the inherited list. */
  lemma {:induction false} RestartKeeps(cfg: Config, v: View)
    requires Good(v) && Sendable(v.clients)
    ensures Readable(v.clients) && Good(Restarted(cfg, v))
  {
    var cs := v.clients;
    RestartedIs(cfg, v);
    HandOffSize(cs);
    HandOffKeys(v, HandOff(cs));
    RebuiltAgrees(HandOff(cs));
  }

  lemma {:induction false} HandOffKeys(v: View, ds: seq<Client>)
    requires Good(v) && ds == HandOff(v.clients) && |ds| == |v.clients|
    ensures DistinctIds(ds) && DistinctKeys(ds)
    ensures forall i :: 0 <= i < |ds| ==> 1 <= ds[i].id < |ds| + 1 && LegalState(ds[i].state)
  {
    var cs := v.clients;
    forall i | 0 <= i < |cs| ensures ds[i] == Inherited(cs[|cs| - 1 - i], |cs| - i) {
      HandOffAt(cs, i);
    }
    forall i, j | 0 <= i < j < |ds| ensures ds[i].id != ds[j].id && !SameKey(ds[i], ds[j]) {
      assert !SameKey(cs[|cs| - 1 - j], cs[|cs| - 1 - i]);
    }
  }

  /** One rule per client, rebuilt from a list with distinct keys. */
  lemma RebuiltAgrees(ds: seq<Client>)
    requires DistinctKeys(ds)
    ensures Agree(ds, Map(RuleOf, ds)) && ZerosFirst(Map(RuleOf, ds))
  {
    forall r: ClientMark ensures multiset(Map(RuleOf, ds))[r] == if Listed(ds, r) then 1 else 0 {
      RulesCount(ds, r);
    }
    var o := Map(RuleOf, ds);
    forall i, j | 0 <= i < j < |o| ensures !(o[i].ip == o[j].ip && o[i].mac == o[j].mac) {
      assert !SameKey(ds[i], ds[j]);
    }
  }

  // ----- The rest of the system state -----

  predicate HasId(cs: seq<Client>, id: nat) {
    exists i :: 0 <= i < |cs| && cs[i].id == id
  }

  /** The state one applied reply leaves a client in. */
  function NextState(state: int, a: Applied): int {
    if a.code == AUTH_ALLOWED then MARK_KNOWN
    else if a.sync then state
    else if a.code == AUTH_VALIDATION then MARK_PROBATION
    else if a.code == AUTH_DENIED then MARK_NONE
    else state
  }

  /** The replies applied to one id, folded over the state it began with. */
  function FoldReplies(start: int, log: seq<Applied>, id: nat): int {
    if log == [] then start
    else
      var a := log[|log| - 1];
      var before := FoldReplies(start, log[..|log| - 1], id);
      if a.id == id then NextState(before, a) else before
  }

  function StartState(inherited: seq<int>, id: nat): int {
    if 1 <= id <= |inherited| then inherited[id - 1] else MARK_NONE
  }

  /** Every pending request still names the session that asked, or a session that is gone. */
  ghost predicate AskersKnown(s: Sys) {
    forall j, i :: 0 <= j < |s.logins| && 0 <= i < |s.v.clients| && s.v.clients[i].id == s.logins[j].id ==>
      s.v.clients[i].ip == s.logins[j].ip && s.v.clients[i].mac == s.logins[j].mac
  }

  /** Unlinked nodes are in no list, and none is freed twice. */
  ghost predicate RetiredOnce(s: Sys) {
    forall id :: id in s.leaving + s.freed ==> multiset(s.leaving + s.freed)[id] == 1 && !HasId(s.v.clients, id)
  }

  ghost predicate IdsPast(s: Sys) {
    && s.v.nextId >= 1
    && |s.inherited| < s.v.nextId
    && (forall j :: 0 <= j < |s.logins| ==> s.logins[j].id < s.v.nextId)
    && (forall j :: 0 <= j < |s.work| ==> s.work[j].id < s.v.nextId)
    && (forall id :: id in s.leaving + s.freed ==> id < s.v.nextId)
    && (forall j :: 0 <= j < |s.log| ==> s.log[j].id < s.v.nextId)
  }

  ghost predicate StatesFold(s: Sys) {
    forall i :: 0 <= i < |s.v.clients| ==>
      s.v.clients[i].state == FoldReplies(StartState(s.inherited, s.v.clients[i].id), s.log, s.v.clients[i].id)
  }

  ghost predicate Inv(cfg: Config, s: Sys) {
    && Good(s.v)
    && AskersKnown(s)
    && RetiredOnce(s)
    && IdsPast(s)
    && StatesFold(s)
    && s.v.fw.downs == if s.authdown && HasAuthDown(cfg) then 1 else 0
  }

  lemma IdAt(cs: seq<Client>, k: nat, id: nat)
    requires DistinctIds(cs) && k == FirstIndex(ById(id), cs)
    ensures k < |cs| ==> cs[k].id == id && forall i :: 0 <= i < |cs| && cs[i].id == id ==> i == k
    ensures k == |cs| ==> !HasId(cs, id)
  {
    if k < |cs| {
      assert ById(id)(cs[k]);
    } else {
      forall i | 0 <= i < |cs| ensures cs[i].id != id {
        assert !ById(id)(cs[i]);
      }
    }
  }

  lemma {:induction false} NoReplies(start: int, log: seq<Applied>, id: nat)
    requires forall j :: 0 <= j < |log| ==> log[j].id != id
    ensures FoldReplies(start, log, id) == start
  {
    if log != [] {
      NoReplies(start, log[..|log| - 1], id);
    }
  }

  /** Replacing a listed client by one with the same id and key, with or without a log entry. */
  lemma RestSet(s: Sys, t: Sys, k: nat)
    requires k < |s.v.clients| && |t.v.clients| == |s.v.clients| && t.v.clients == s.v.clients[k := t.v.clients[k]]
    requires SameKey(t.v.clients[k], s.v.clients[k]) && t.v.clients[k].id == s.v.clients[k].id
    requires t.v.nextId == s.v.nextId && t.logins == s.logins && t.work == s.work && t.leaving == s.leaving && t.freed == s.freed
    requires t.inherited == s.inherited
    requires DistinctIds(s.v.clients) && (forall i :: 0 <= i < |s.v.clients| ==> s.v.clients[i].id < s.v.nextId)
    requires AskersKnown(s) && RetiredOnce(s) && IdsPast(s) && StatesFold(s)
    requires (t.log == s.log && t.v.clients[k].state == s.v.clients[k].state)
             || (|t.log| == |s.log| + 1 && t.log[..|s.log|] == s.log && t.log[|s.log|].id == s.v.clients[k].id
                 && t.v.clients[k].state == NextState(s.v.clients[k].state, t.log[|s.log|]))
    ensures AskersKnown(t) && RetiredOnce(t) && IdsPast(t) && StatesFold(t)
  {
    var cs, ds := s.v.clients, t.v.clients;
    assert forall i :: 0 <= i < |cs| ==> ds[i].id == cs[i].id && SameKey(ds[i], cs[i]);
    assert forall id :: HasId(ds, id) <==> HasId(cs, id) by {
      forall id ensures HasId(ds, id) <==> HasId(cs, id) {
        if HasId(cs, id) {
          var i :| 0 <= i < |cs| && cs[i].id == id;
          assert ds[i].id == id;
        }
      }
    }
    assert forall j :: 0 <= j < |t.log| ==> t.log[j].id < t.v.nextId by {
      forall j | 0 <= j < |t.log| ensures t.log[j].id < t.v.nextId {
        if j < |s.log| {
          assert t.log[j] == s.log[j];
        }
      }
    }
  }

  /** A client that leaves the list for one of the two retired pools. */
  lemma RestRemove(s: Sys, t: Sys, k: nat)
    requires k < |s.v.clients| && t.v.clients == RemoveAt(s.v.clients, k)
    requires t.v.nextId == s.v.nextId && t.logins == s.logins && t.work == s.work && t.log == s.log && t.inherited == s.inherited
    requires multiset(t.leaving + t.freed) == multiset(s.leaving + s.freed) + multiset{s.v.clients[k].id}
    requires DistinctIds(s.v.clients) && s.v.clients[k].id < s.v.nextId
    requires AskersKnown(s) && RetiredOnce(s) && IdsPast(s) && StatesFold(s)
    ensures AskersKnown(t) && RetiredOnce(t) && IdsPast(t) && StatesFold(t)
  {
    var cs, ds := s.v.clients, t.v.clients;
    var gone := cs[k].id;
    assert forall i :: 0 <= i < |ds| ==> ds[i] == cs[if i < k then i else i + 1];
    assert HasId(cs, gone) && !HasId(ds, gone);
    var before, after := s.leaving + s.freed, t.leaving + t.freed;
    assert forall id :: id in after <==> id in multiset(after);
    assert forall id :: id in before <==> id in multiset(before);
    forall id | id in after
      ensures multiset(after)[id] == 1 && !HasId(ds, id) && id < t.v.nextId
    {
      if id != gone {
        assert id in multiset(before);
      }
    }
  }

  lemma RestAdd(s: Sys, t: Sys, c: Client)
    requires t == s.(v := s.v.(clients := [c] + s.v.clients, nextId := s.v.nextId + 1))
    requires c.id == s.v.nextId && c.state == MARK_NONE
    requires AskersKnown(s) && RetiredOnce(s) && IdsPast(s) && StatesFold(s)
    ensures AskersKnown(t) && RetiredOnce(t) && IdsPast(t) && StatesFold(t)
  {
    var cs, ds := s.v.clients, t.v.clients;
    assert forall i :: 1 <= i < |ds| ==> ds[i] == cs[i - 1];
    NoReplies(StartState(s.inherited, c.id), s.log, c.id);
    forall id | id in s.leaving + s.freed ensures !HasId(ds, id) {
      forall i | 0 <= i < |ds| ensures ds[i].id != id {
        assert i > 0 ==> ds[i].id == cs[i - 1].id && HasId(cs, cs[i - 1].id);
      }
    }
  }

  // ----- Every step keeps the invariant -----

  lemma LogoutKeeps(cfg: Config, s: Sys, k: nat)
    requires Inv(cfg, s) && k < |s.v.clients|
    ensures Inv(cfg, Logout(s, k))
  {
    var t := Logout(s, k);
    DenyAndRemoveKeeps(s.v, k);
    assert t.v.clients == RemoveAt(s.v.clients, k);
    assert t.leaving + t.freed == s.leaving + [s.v.clients[k].id] + s.freed;
    RestRemove(s, t, k);
  }

  lemma ExpelKeeps(cfg: Config, s: Sys, k: nat)
    requires Inv(cfg, s) && k < |s.v.clients|
    ensures Inv(cfg, s.(v := DenyAndRemove(s.v, k), freed := s.freed + [s.v.clients[k].id]))
  {
    var t := s.(v := DenyAndRemove(s.v, k), freed := s.freed + [s.v.clients[k].id]);
    DenyAndRemoveKeeps(s.v, k);
    assert t.v.clients == RemoveAt(s.v.clients, k);
    assert t.leaving + t.freed == s.leaving + s.freed + [s.v.clients[k].id];
    RestRemove(s, t, k);
  }

  /** What a reply may touch: one client's token, state and counters, and client rules. */
  ghost predicate Touches(v: View, w: View, k: nat, state: int) {
    && k < |v.clients| == |w.clients|
    && w.clients == v.clients[k := w.clients[k]]
    && SameKey(w.clients[k], v.clients[k]) && w.clients[k].id == v.clients[k].id
    && w.clients[k].state == state
    && w.nextId == v.nextId && w.fw.downs == v.fw.downs
  }

  lemma LoginReplyTouches(v: View, k: nat, token: string, code: int)
    requires k < |v.clients|
    ensures Touches(v, LoginReply(v, k, token, code), k, NextState(v.clients[k].state, Applied(v.clients[k].id, false, code)))
  {
  }

  lemma SyncReplyTouches(v: View, k: nat, code: int)
    requires k < |v.clients|
    ensures Touches(v, SyncReply(v, k, code), k, NextState(v.clients[k].state, Applied(v.clients[k].id, true, code)))
  {
  }

  lemma ReplyKeeps(cfg: Config, s: Sys, k: nat, w: View, a: Applied)
    requires Inv(cfg, s) && k < |s.v.clients| && a.id == s.v.clients[k].id
    requires Good(w) && Touches(s.v, w, k, NextState(s.v.clients[k].state, a))
    ensures Inv(cfg, s.(v := w, log := s.log + [a]))
  {
    RestSet(s, s.(v := w, log := s.log + [a]), k);
  }

  lemma StepLoginKeeps(cfg: Config, s: Sys, a: Asker, token: string, code: int)
    requires Inv(cfg, s) && a.id < s.v.nextId
    ensures Inv(cfg, StepLogin(s, a, token, code))
  {
    var k := Sessions.Find(s, ById(a.id));
    IdAt(s.v.clients, k, a.id);
    if k < |s.v.clients| {
      LoginReplyKeeps(s.v, k, token, code);
      LoginReplyTouches(s.v, k, token, code);
      ReplyKeeps(cfg, s, k, LoginReply(s.v, k, token, code), Applied(a.id, false, code));
    }
  }

  lemma StepSyncKeeps(cfg: Config, s: Sys, item: WorkItem, now: int, limit: int, code: int)
    requires Inv(cfg, s) && item.id < s.v.nextId
    ensures Inv(cfg, StepSync(s, item, now, limit, code))
  {
    var k := Sessions.Find(s, ById(item.id));
    IdAt(s.v.clients, k, item.id);
    if k >= |s.v.clients| {
    } else if item.lastUpdated + limit <= now {
      LogoutKeeps(cfg, s, k);
    } else if Expels(code) {
      ExpelKeeps(cfg, s, k);
    } else {
      SyncReplyKeeps(s.v, k, code);
      SyncReplyTouches(s.v, k, code);
      ReplyKeeps(cfg, s, k, SyncReply(s.v, k, code), Applied(item.id, true, code));
    }
  }

  lemma UpdateKeeps(cfg: Config, s: Sys, k: nat, f: Counters -> Counters)
    requires Inv(cfg, s)
    ensures Inv(cfg, Update(s, k, f))
  {
    if k < |s.v.clients| {
      var c := s.v.clients[k];
      SetKeeps(s.v, k, c.(counters := f(c.counters)));
      RestSet(s, Update(s, k, f), k);
    }
  }

  lemma FwKeeps(cfg: Config, s: Sys, fw: Fw, authdown: bool)
    requires Inv(cfg, s) && fw.outgoing == s.v.fw.outgoing
    requires fw.downs == if authdown && HasAuthDown(cfg) then 1 else 0
    ensures Inv(cfg, s.(authdown := authdown, v := s.v.(fw := fw)))
  {
  }

  lemma EndLogoutKeeps(cfg: Config, s: Sys, j: nat)
    requires Inv(cfg, s) && j < |s.leaving|
    ensures Inv(cfg, Step(cfg, s, EndLogout(j)))
  {
    var t := Step(cfg, s, EndLogout(j));
    assert s.leaving == s.leaving[..j] + [s.leaving[j]] + s.leaving[j + 1..];
    var before, after := s.leaving + s.freed, t.leaving + t.freed;
    assert multiset(after) == multiset(before);
    forall id ensures id in after <==> id in before {
      assert id in after <==> id in multiset(after);
      assert id in before <==> id in multiset(before);
    }
  }

  /** An inherited client starts in the state the parent held it in. */
  lemma {:induction false} InheritedState(cs: seq<Client>, i: nat)
    requires i < |cs| && |HandOff(cs)| == |cs|
    ensures HandOff(cs)[i].state == StartState(Map(StateOf, cs), HandOff(cs)[i].id)
  {
    HandOffAt(cs, i);
  }

  lemma {:induction false} FreshStates(t: Sys, cs: seq<Client>)
    requires t.v.clients == HandOff(cs) && t.inherited == Map(StateOf, cs) && t.log == []
    ensures StatesFold(t)
  {
    HandOffSize(cs);
    forall i | 0 <= i < |t.v.clients|
      ensures t.v.clients[i].state == FoldReplies(StartState(t.inherited, t.v.clients[i].id), t.log, t.v.clients[i].id) {
      InheritedState(cs, i);
    }
  }

  /** A restart from a sendable list, with the text between parent and child gone. */
  lemma {:induction false} RestartedIs(cfg: Config, v: View)
    requires Sendable(v.clients)
    ensures Readable(v.clients)
    ensures Restarted(cfg, v) == View(HandOff(v.clients), |v.clients| + 1, Restore(cfg, HandOff(v.clients)))
  {
    RestartRoundTrip(v.clients);
    HandOffSize(v.clients);
  }

  lemma {:induction false} RestartStep(cfg: Config, s: Sys)
    requires Readable(s.v.clients)
    ensures Step(cfg, s, Restart) == Successor(Restarted(cfg, s.v), s)
  {
  }

  /** The child's list and rules after a restart from a sendable list. */
  lemma {:induction false} RestartView(cfg: Config, s: Sys)
    requires Sendable(s.v.clients)
    ensures Step(cfg, s, Restart).v.clients == HandOff(s.v.clients)
    ensures Step(cfg, s, Restart).v.fw.outgoing == Map(RuleOf, HandOff(s.v.clients))
  {
    RestartedIs(cfg, s.v);
    RestartStep(cfg, s);
  }

  lemma {:induction false} RestartInv(cfg: Config, s: Sys)
    requires Good(s.v) && Sendable(s.v.clients)
    ensures Inv(cfg, Step(cfg, s, Restart))
  {
    var cs := s.v.clients;
    RestartedIs(cfg, s.v);
    RestartStep(cfg, s);
    HandOffSize(cs);
    HandOffKeys(s.v, HandOff(cs));
    RebuiltAgrees(HandOff(cs));
    QuietStart(cfg, HandOff(cs), Map(StateOf, cs), cs);
  }

  lemma {:induction false} QuietStart(cfg: Config, ds: seq<Client>, states: seq<int>, cs: seq<Client>)
    requires ds == HandOff(cs) && states == Map(StateOf, cs) && |ds| == |cs|
    requires DistinctIds(ds) && DistinctKeys(ds) && Agree(ds, Map(RuleOf, ds)) && ZerosFirst(Map(RuleOf, ds))
    requires forall i :: 0 <= i < |ds| ==> 1 <= ds[i].id < |ds| + 1 && LegalState(ds[i].state)
    ensures Inv(cfg, Sys(View(ds, |cs| + 1, Restore(cfg, ds)), false, [], [], [], [], [], states))
  {
    var t := Sys(View(ds, |cs| + 1, Restore(cfg, ds)), false, [], [], [], [], [], states);
    FreshStates(t, cs);
    Quiet(cfg, t);
  }

  /** With nothing pending and nothing applied only the view and the start states matter. */
  lemma Quiet(cfg: Config, t: Sys)
    requires Good(t.v) && t.logins == [] && t.work == [] && t.leaving == [] && t.freed == [] && t.log == []
    requires !t.authdown && t.v.fw.downs == 0 && |t.inherited| < t.v.nextId && StatesFold(t)
    ensures Inv(cfg, t)
  {
  }

  lemma AddInv(cfg: Config, s: Sys, ip: string, mac: string, token: string, now: int)
    requires Inv(cfg, s) && Sessions.Find(s, ByIpMac(ip, mac)) == |s.v.clients|
    ensures Inv(cfg, s.(v := AddClient(s.v, ip, mac, token, now)))
  {
    AddKeeps(s.v, ip, mac, token, now);
    RestAdd(s, s.(v := AddClient(s.v, ip, mac, token, now)), Client(s.v.nextId, ip, mac, token, 0, 0, NewCounters(now)));
  }

  lemma LogoutIfKeeps(cfg: Config, s: Sys, k: nat)
    requires Inv(cfg, s)
    ensures Inv(cfg, LogoutIf(s, k))
  {
    if k < |s.v.clients| {
      LogoutKeeps(cfg, s, k);
    }
  }

  lemma HttpAuthKeeps(cfg: Config, s: Sys, ip: string, mac: string, token: string, logout: bool, now: int)
    requires Inv(cfg, s)
    ensures Inv(cfg, Step(cfg, s, HttpAuth(ip, mac, token, logout, now)))
  {
    var k := Sessions.Find(s, ByIpMac(ip, mac));
    if k >= |s.v.clients| {
      AddInv(cfg, s, ip, mac, token, now);
    } else {
      LogoutIfKeeps(cfg, s, k);
    }
  }

  lemma EndLoginKeeps(cfg: Config, s: Sys, j: nat, token: string, code: int)
    requires Inv(cfg, s)
    ensures Inv(cfg, Step(cfg, s, EndLogin(j, token, code)))
  {
    if j < |s.logins| {
      PendingKeeps(cfg, s, RemoveAt(s.logins, j), s.work);
      StepLoginKeeps(cfg, s.(logins := RemoveAt(s.logins, j)), s.logins[j], token, code);
    }
  }

  lemma EndSyncKeeps(cfg: Config, s: Sys, j: nat, now: int, limit: int, code: int)
    requires Inv(cfg, s)
    ensures Inv(cfg, Step(cfg, s, EndSync(j, now, limit, code)))
  {
    if j < |s.work| {
      PendingKeeps(cfg, s, s.logins, RemoveAt(s.work, j));
      StepSyncKeeps(cfg, s.(work := RemoveAt(s.work, j)), s.work[j], now, limit, code);
    }
  }

  lemma FwStepKeeps(cfg: Config, s: Sys, e: Event)
    requires Inv(cfg, s) && (e.Ping? || e.Servers? || e.Host?)
    ensures Inv(cfg, Step(cfg, s, e))
  {
    match e
    case Ping(pong) =>
      if pong != !s.authdown {
        FwKeeps(cfg, s, Edited(cfg, s.v.fw, if pong then Reachable else Unreachable), !pong);
      }
    case Servers(last) => FwKeeps(cfg, s, Edited(cfg, s.v.fw, RefreshServers(last)), s.authdown);
    case Host(host) => FwKeeps(cfg, s, Edited(cfg, s.v.fw, AllowHost(host)), s.authdown);
  }

  lemma StepKeeps(cfg: Config, s: Sys, e: Event)
    requires Inv(cfg, s) && (e.Restart? ==> Sendable(s.v.clients))
    ensures Inv(cfg, Step(cfg, s, e))
  {
    match e
    case HttpAuth(ip, mac, token, logout, now) => HttpAuthKeeps(cfg, s, ip, mac, token, logout, now);
    case BeginLogin(ip) => BeginLoginKeeps(cfg, s, ip);
    case EndLogin(j, token, code) => EndLoginKeeps(cfg, s, j, token, code);
    case BeginSync => BeginSyncKeeps(cfg, s);
    case EndSync(j, now, limit, code) => EndSyncKeeps(cfg, s, j, now, limit, code);
    case EndLogout(j) => if j < |s.leaving| { EndLogoutKeeps(cfg, s, j); }
    case Restart => RestartInv(cfg, s);
    case _ => if e.Ping? || e.Servers? || e.Host? { FwStepKeeps(cfg, s, e); } else { ListStepKeeps(cfg, s, e); }
  }

  lemma ListStepKeeps(cfg: Config, s: Sys, e: Event)
    requires Inv(cfg, s) && (e.Reset? || e.Disconnect? || e.ReadOut? || e.ReadIn?)
    ensures Inv(cfg, Step(cfg, s, e))
  {
    match e
    case Reset(arg) =>
      var k := Sessions.Find(s, ByIp(arg));
      LogoutIfKeeps(cfg, s, if k < |s.v.clients| then k else Sessions.Find(s, ByMac(arg)));
    case Disconnect(mac, token) => LogoutIfKeeps(cfg, s, Sessions.Find(s, ByMac(mac)));
    case ReadOut(ip, bytes, now) =>
      UpdateKeeps(cfg, s, Sessions.Find(s, ByIp(ip)), (c: Counters) => ReadOutgoing(c, bytes, now));
    case ReadIn(ip, bytes) =>
      UpdateKeeps(cfg, s, Sessions.Find(s, ByIp(ip)), (c: Counters) => ReadIncoming(c, bytes));
  }

  /** Dropping pending requests harms nothing. */
  lemma PendingKeeps(cfg: Config, s: Sys, logins: seq<Asker>, work: seq<WorkItem>)
    requires Inv(cfg, s)
    requires forall a :: a in logins ==> a in s.logins
    requires forall w :: w in work ==> w in s.work
    ensures Inv(cfg, s.(logins := logins, work := work))
  {
    assert forall j :: 0 <= j < |logins| ==> logins[j] in s.logins;
    assert forall j :: 0 <= j < |work| ==> work[j] in s.work;
  }

  lemma BeginLoginKeeps(cfg: Config, s: Sys, ip: string)
    requires Inv(cfg, s)
    ensures Inv(cfg, Step(cfg, s, BeginLogin(ip)))
  {
  }

  lemma BeginSyncKeeps(cfg: Config, s: Sys)
    requires Inv(cfg, s)
    ensures Inv(cfg, Step(cfg, s, BeginSync))
  {
  }

  /** Every restart of a run finds a list that the text between parent and child can carry. */
  ghost predicate SafeRestarts(cfg: Config, s: Sys, es: seq<Event>)
    decreases |es|
  {
    es == [] || ((es[0].Restart? ==> Sendable(s.v.clients)) && SafeRestarts(cfg, Step(cfg, s, es[0]), es[1..]))
  }

  /** In every reachable state of every interleaving the invariant holds. */
  lemma {:induction false} RunKeeps(cfg: Config, s: Sys, es: seq<Event>)
    requires Inv(cfg, s) && SafeRestarts(cfg, s, es)
    ensures Inv(cfg, Run(cfg, s, es))
    decreases |es|
  {
    if es != [] {
      StepKeeps(cfg, s, es[0]);
      RunKeeps(cfg, Step(cfg, s, es[0]), es[1..]);
    }
  }

  lemma StartHolds(cfg: Config, ips: seq<string>)
    ensures Inv(cfg, Start(cfg, ips))
  {
  }
}
