/** auth.c, firewall.c, http.c and wdctl_thread.c: the critical sections as they run on the
    linked client list, each proved to be its protocol step, whatever else the system holds. The
    firewall commands they issue are kept in order; FwEdits.ApplyAll shows what carrying them out does to the kernel. */
module Gateway {
  import opened Base
  import opened Config
  import opened Counters
  import opened ClientList
  import opened Firewall
  import opened FwEdits
  import opened Sessions
  import opened SessionSteps
  import SessionInvariant
  import Handoff

  class Gateway {
    const cfg: Config
    const list: ClientList
    const start: Fw
    var issued: seq<Edit>
    var fw: Fw

    ghost predicate Valid()
      reads this, list, list.nodes
    {
      list.Valid() && fw == EditedAll(cfg, start, issued)
    }

    ghost function View(): View
      reads this, list, list.nodes
    {
      Sessions.View(list.Contents(), list.nextId, fw)
    }

    /** Node n is the listed client number i. */
    ghost predicate Holds(n: Node, i: nat)
      reads list
    {
      i < |list.nodes| && list.nodes[i] == n
    }

    /** Nothing is freed but nodes that were listed, and no node comes back into the list. */
    twostate predicate Spares()
      reads this, list
    {
      && (forall i :: 0 <= i < |list.nodes| ==> list.nodes[i] in old(list.nodes) || fresh(list.nodes[i]))
      && (forall n :: n in list.freed ==> n in old(list.freed) || n in old(list.nodes))
    }

    /** What an unlinked node adds to the retired ids. */
    ghost function Unlinked(n: Node?): seq<nat>
      reads n
    {
      if n == null then [] else [n.c.id]
    }

    /** In every state of the system with this list and firewall the section was this event's
        step: the new list and firewall, and the node it unlinked. */
    twostate predicate Took(e: Event, left: Node?)
      reads this, list, list.nodes, left
    {
      forall s: Sys :: s.v == old(View()) ==> Moves(s, Step(cfg, s, e), View(), Unlinked(left), [])
    }

    /** The same for the reply to any pending login of that id. */
    twostate predicate TookReply(id: nat, token: string, code: int)
      reads this, list, list.nodes
    {
      forall s: Sys, j: nat :: s.v == old(View()) && j < |s.logins| && s.logins[j].id == id ==>
        Moves(s, Step(cfg, s, Event.EndLogin(j, token, code)), View(), [], [])
    }

    /** The same for the reply to any pending worklist entry with these contents. */
    twostate predicate TookSync(item: WorkItem, now: int, limit: int, code: int, left: Node?, freed: seq<nat>)
      reads this, list, list.nodes, left
    {
      forall s: Sys, j: nat :: s.v == old(View()) && j < |s.work| && s.work[j] == item ==>
        Moves(s, Step(cfg, s, Event.EndSync(j, now, limit, code)), View(), Unlinked(left), freed)
    }

    constructor (cfg: Config, list: ClientList, start: Fw)
      requires list.Valid()
      ensures Valid() && this.cfg == cfg && this.list == list && this.start == start && fw == start && issued == []
    {
      this.cfg, this.list, this.start := cfg, list, start;
      issued, fw := [], start;
    }

    method Issue(e: Edit)
      requires Valid()
      modifies this
      ensures Valid() && fw == Edited(cfg, old(fw), e) && issued == old(issued) + [e]
    {
      fw := Edited(cfg, fw, e);
      issued := issued + [e];
      assert issued[..|issued| - 1] == old(issued);
    }

    /** fw_allow (src/firewall.c:71-90). */
    method FwAllow(n: Node, state: int, ghost i: nat)
      requires Valid() && Holds(n, i)
      modifies this, n`c
      ensures Valid() && View() == Allow(old(View()), i, state)
      ensures issued == old(issued) + [AllowClient(n.c.ip, n.c.mac, state)]
                        + if old(n.c.state) != MARK_NONE then [DenyClient(n.c.ip, n.c.mac, old(n.c.state))] else []
    {
      var was := n.c.state;
      list.Set(n, n.c.(state := state), i);
      Issue(AllowClient(n.c.ip, n.c.mac, state));
      if was != MARK_NONE {
        Issue(DenyClient(n.c.ip, n.c.mac, was));
      }
    }

    /** fw_deny (src/firewall.c:112-120). */
    method FwDeny(n: Node, ghost i: nat)
      requires Valid() && Holds(n, i)
      modifies this, n`c
      ensures Valid() && View() == Deny(old(View()), i) && n.c.id == old(n.c.id)
    {
      var state := n.c.state;
      list.Set(n, n.c.(state := MARK_NONE), i);
      Issue(DenyClient(n.c.ip, n.c.mac, state));
    }

    /** logout_client up to the unlock: the node is in no list and not yet freed
        (src/auth.c:94-104). */
    method LogoutClient(n: Node, ghost i: nat)
      requires Valid() && Holds(n, i)
      modifies this, list, list.nodes
      ensures Valid() && View() == DenyAndRemove(old(View()), i) && Spares()
      ensures list.nodes == RemoveAt(old(list.nodes), i)
      ensures n !in list.nodes && n !in list.freed && list.freed == old(list.freed)
      ensures n.c.id == old(View()).clients[i].id
    {
      FwDeny(n, i);
      Unlink(n, i);
    }

    method Unlink(n: Node, ghost i: nat)
      requires Valid() && Holds(n, i)
      modifies list, list.nodes
      ensures Valid() && View() == old(View()).(clients := RemoveAt(old(View()).clients, i)) && Spares()
      ensures list.nodes == RemoveAt(old(list.nodes), i) && n.c == old(n.c)
      ensures n !in list.nodes && n !in list.freed && list.freed == old(list.freed)
    {
      var _, j := list.Remove(n);
      assert j == i;
    }

    /** The end of logout_client, with the lock held again: freeing the node once is in order
        (src/auth.c:111-114). */
    method FinishLogout(n: Node)
      requires Valid() && n !in list.nodes && n !in list.freed
      modifies list`freed
      ensures Valid() && View() == old(View()) && list.freed == old(list.freed) + {n}
      ensures forall s: Sys, j: nat :: s.v == View() && j < |s.leaving| && s.leaving[j] == n.c.id ==>
                var t := Step(cfg, s, Event.EndLogout(j));
                t.v == View() && t.leaving == RemoveAt(s.leaving, j) && t.freed == s.freed + [n.c.id]
    {
      list.Free(n);
      forall s: Sys, j: nat | j < |s.leaving| {
        EndLogoutMoves(cfg, s, j);
      }
    }

    /** The critical section of http_callback_auth (src/http.c:268-279). */
    method HttpAuth(ip: string, mac: string, token: string, logout: bool, now: int) returns (leaving: Node?)
      requires Valid()
      modifies this, list, list.nodes
      ensures Valid()
      ensures var k := FirstIndex(ByIpMac(ip, mac), old(View()).clients);
              if k >= |old(View()).clients| then leaving == null && View() == AddClient(old(View()), ip, mac, token, now)
              else if logout then leaving == old(list.nodes)[k] && View() == DenyAndRemove(old(View()), k)
              else leaving == null && View() == old(View())
      ensures Spares() && list.freed == old(list.freed)
      ensures leaving != null ==> leaving !in list.nodes && leaving !in list.freed
      ensures Took(Event.HttpAuth(ip, mac, token, logout, now), leaving)
    {
      leaving := null;
      var n, k := list.Find(ByIpMac(ip, mac));
      if n == null {
        var _ := list.Add(ip, mac, token, now);
      } else if logout {
        LogoutClient(n, k);
        leaving := n;
      }
      HttpAuthMoves(cfg, old(View()), ip, mac, token, logout, now, View(), Unlinked(leaving));
    }

    /** The first critical section of authenticate_client: a private copy of the client found
        by address (src/auth.c:132-136). */
    method BeginLogin(ip: string) returns (copy: Node?)
      requires Valid()
      ensures var k := FirstIndex(ByIp(ip), View().clients);
              if k >= |View().clients| then copy == null
              else copy != null && fresh(copy) && copy.c == Duplicate(View().clients[k])
                   && SameSession(copy.c, View().clients[k])
      ensures forall s: Sys :: s.v == View() ==>
                var t := Step(cfg, s, Event.BeginLogin(ip));
                && Moves(s, t, s.v, [], [])
                && t.logins == s.logins + if copy == null then [] else [Asker(copy.c.id, copy.c.ip, copy.c.mac)]
    {
      var n, k := list.Find(ByIp(ip));
      copy := null;
      if n != null {
        copy := new Node(Duplicate(n.c));
      }
      forall s: Sys | s.v == View() {
        BeginLoginAsks(cfg, s, ip);
      }
    }

    /** The second critical section of authenticate_client (src/auth.c:159-251). */
    method EndLogin(copy: Node, token: string, code: int) returns (found: bool)
      requires Valid() && copy !in list.nodes
      modifies this, list.nodes
      ensures Valid()
      ensures var k := FirstIndex(ById(old(copy.c.id)), old(View()).clients);
              && found == (k < |old(View()).clients|)
              && View() == if found then LoginReply(old(View()), k, token, code) else old(View())
      ensures Spares() && list.freed == old(list.freed)
      ensures TookReply(old(copy.c.id), token, code)
    {
      var n, k := list.Find(ById(copy.c.id));
      found := n != null;
      if found {
        list.Set(n, n.c.(token := token), k);
        if code == AUTH_DENIED {
          FwDeny(n, k);
        } else if code == AUTH_VALIDATION {
          FwAllow(n, MARK_PROBATION, k);
        } else if code == AUTH_ALLOWED {
          FwAllow(n, MARK_KNOWN, k);
        }
      }
      EndLoginMoves(cfg, old(View()), old(copy.c.id), token, code, View());
    }

    /** One worklist entry of fw_sync_with_authserver after its reply (src/firewall.c:291-382). */
    method SyncOne(copy: Node, now: int, limit: int, code: int) returns (leaving: Node?)
      requires Valid() && copy !in list.nodes
      modifies this, list, list.nodes
      ensures Valid()
      ensures var k := FirstIndex(ById(old(copy.c.id)), old(View()).clients);
              var expired := old(copy.c.counters.lastUpdated) + limit <= now;
              var refused := code == AUTH_DENIED || code == AUTH_VALIDATION_FAILED;
              && View() == (if k >= |old(View()).clients| then old(View())
                            else if expired || refused then DenyAndRemove(old(View()), k)
                            else SyncReply(old(View()), k, code))
              && leaving == (if k < |old(View()).clients| && expired then old(list.nodes)[k] else null)
              && list.freed == old(list.freed)
                               + (if k < |old(View()).clients| && !expired && refused then {old(list.nodes)[k]} else {})
              && TookSync(WorkItem(old(copy.c.id), old(copy.c.counters.lastUpdated)), now, limit, code, leaving,
                          if k < |old(View()).clients| && !expired && refused then [old(copy.c.id)] else [])
      ensures Spares()
      ensures leaving != null ==> leaving !in list.nodes && leaving !in list.freed
    {
      leaving := null;
      ghost var item := WorkItem(copy.c.id, copy.c.counters.lastUpdated);
      var n, k := list.Find(ById(copy.c.id));
      ghost var left := if n != null && copy.c.counters.lastUpdated + limit > now
                           && (code == AUTH_DENIED || code == AUTH_VALIDATION_FAILED) then [copy.c.id] else [];
      if n == null {
      } else if copy.c.counters.lastUpdated + limit <= now {
        LogoutClient(n, k);
        leaving := n;
      } else if code == AUTH_DENIED || code == AUTH_VALIDATION_FAILED {
        Expel(n, k);
      } else {
        SyncAllowed(n, k, code);
      }
      EndSyncMoves(cfg, old(View()), item, now, limit, code, View(), Unlinked(leaving), left);
    }

    /** fw_deny and client_list_delete in one section (src/firewall.c:330-331). */
    method Expel(n: Node, ghost i: nat)
      requires Valid() && Holds(n, i)
      modifies this, list, list.nodes
      ensures Valid() && View() == DenyAndRemove(old(View()), i) && Spares()
      ensures n !in list.nodes && list.freed == old(list.freed) + {n}
    {
      LogoutClient(n, i);
      FinishLogout(n);
    }

    method SyncAllowed(n: Node, ghost k: nat, code: int)
      requires Valid() && Holds(n, k)
      modifies this, n`c
      ensures Valid() && View() == SyncReply(old(View()), k, code)
    {
      if code == AUTH_ALLOWED && n.c.state != MARK_KNOWN {
        if n.c.state != MARK_PROBATION {
          list.Set(n, n.c.(counters := Clear(n.c.counters)), k);
        }
        FwAllow(n, MARK_KNOWN, k);
      }
    }

    /** The client of an address, or else of a MAC (src/wdctl_thread.c:366-370). */
    method FindFor(arg: string) returns (n: Node?, ghost k: nat)
      requires Valid()
      ensures var i := FirstIndex(ByIp(arg), View().clients);
              && k == (if i < |View().clients| then i else FirstIndex(ByMac(arg), View().clients))
              && n == At(list.nodes, if i < |View().clients| then i else FirstIndex(ByMac(arg), View().clients))
    {
      n, k := list.Find(ByIp(arg));
      if n == null {
        n, k := list.Find(ByMac(arg));
      }
    }

    /** wdctl_reset (src/wdctl_thread.c:355-386). */
    method Reset(arg: string) returns (leaving: Node?)
      requires Valid()
      modifies this, list, list.nodes
      ensures Valid()
      ensures var i, m := FirstIndex(ByIp(arg), old(View()).clients), FirstIndex(ByMac(arg), old(View()).clients);
              var k := if i < |old(View()).clients| then i else m;
              if k < |old(View()).clients| then leaving == old(list.nodes)[k] && View() == DenyAndRemove(old(View()), k)
              else leaving == null && View() == old(View())
      ensures Spares() && list.freed == old(list.freed)
      ensures leaving != null ==> leaving !in list.nodes && leaving !in list.freed
      ensures Took(Event.Reset(arg), leaving)
    {
      leaving := null;
      var n, k := FindFor(arg);
      if n != null {
        LogoutClient(n, k);
        leaving := n;
      }
      ResetMoves(cfg, old(View()), arg, View(), Unlinked(leaving));
    }

    /** http_callback_disconnect (src/http.c:310-322). */
    method Disconnect(mac: string, token: string) returns (leaving: Node?)
      requires Valid()
      modifies this, list, list.nodes
      ensures Valid()
      ensures var k := FirstIndex(ByMac(mac), old(View()).clients);
              if k < |old(View()).clients| && old(View()).clients[k].token == token
              then leaving == old(list.nodes)[k] && View() == DenyAndRemove(old(View()), k)
              else leaving == null && View() == old(View())
      ensures Spares() && list.freed == old(list.freed)
      ensures leaving != null ==> leaving !in list.nodes && leaving !in list.freed
      ensures Took(Event.Disconnect(mac, token), leaving)
    {
      leaving := null;
      var n, k := list.Find(ByMac(mac));
      if n != null && n.c.token == token {
        LogoutClient(n, k);
        leaving := n;
      }
      DisconnectMoves(cfg, old(View()), mac, token, View(), Unlinked(leaving));
    }

    /** One restored client: its state is set aside, then granted again (src/firewall.c:211-213). */
    method RestoreOne(n: Node, ghost k: nat)
      requires Valid() && Holds(n, k)
      modifies this, n`c
      ensures Valid() && list.Contents() == old(list.Contents())
      ensures fw == Grant(old(fw), n.c.ip, n.c.mac, n.c.state)
    {
      var state := n.c.state;
      list.Set(n, n.c.(state := MARK_NONE), k);
      FwAllow(n, state, k);
    }

    /** The restore loop of fw_init in the child of a restart, right after its own chains were built:
        the list it read and the rules it restores are the protocol's restart (src/firewall.c:206-217). */
    method Restore()
      requires Valid() && list.nextId == |list.nodes| + 1 && fw == Fresh(cfg, [])
      modifies this, list.nodes
      ensures Valid() && list.nodes == old(list.nodes) && list.Contents() == old(list.Contents())
      ensures forall s: Sys :: Handoff.Readable(s.v.clients) && Handoff.Child(s.v.clients) == list.Contents() ==>
                Step(cfg, s, Restart).v == View()
    {
      RestoreAll();
      RestoreMoves(cfg, View());
    }

    method RestoreAll()
      requires Valid() && fw.outgoing == [] && fw.incoming == []
      modifies this, list.nodes
      ensures Valid() && list.nodes == old(list.nodes) && list.Contents() == old(list.Contents())
      ensures fw == old(fw).(outgoing := Map(RuleOf, list.Contents()), incoming := Map(AddressOf, list.Contents()))
      ensures list.nextId == old(list.nextId)
    {
      var n := list.first;
      ghost var k := 0;
      ghost var cs := list.Contents();
      while n != null
        invariant Valid() && k <= |list.nodes| && n == At(list.nodes, k)
        invariant list.nodes == old(list.nodes) && list.Contents() == cs && list.nextId == old(list.nextId)
        invariant fw == old(fw).(outgoing := Map(RuleOf, cs[..k]), incoming := Map(AddressOf, cs[..k]))
        decreases |list.nodes| - k
      {
        MapStep(RuleOf, cs, k);
        MapStep(AddressOf, cs, k);
        RestoreOne(n, k);
        n := n.next;
        k := k + 1;
      }
      assert cs[..k] == cs;
    }

    /** fw_allow_host (src/firewall.c:98-104). */
    method WhitelistHost(host: string)
      requires Valid()
      modifies this
      ensures Valid() && Took(Event.Host(host), null)
    {
      Issue(AllowHost(host));
      HostMoves(cfg, old(View()), host, View());
    }

    /** fw_clear_authservers and fw_set_authservers (src/centralserver.c:287-288). */
    method SetServers(last: seq<Option<string>>)
      requires Valid()
      modifies this
      ensures Valid() && Took(Event.Servers(last), null)
    {
      Issue(RefreshServers(last));
      ServersMoves(cfg, old(View()), last, View());
    }

    /** One outgoing line of iptables_fw_counters_update (src/fw_iptables.c:666-674). */
    method ReadOutgoingLine(ip: string, bytes: u64, now: int)
      requires Valid()
      modifies list.nodes
      ensures Valid()
      ensures var k := FirstIndex(ByIp(ip), old(View()).clients);
              View() == if k >= |old(View()).clients| then old(View())
                        else SetClient(old(View()), k, old(View()).clients[k].(
                               counters := ReadOutgoing(old(View()).clients[k].counters, bytes, now)))
      ensures Spares() && list.freed == old(list.freed)
      ensures Took(Event.ReadOut(ip, bytes, now), null)
    {
      var n, k := list.Find(ByIp(ip));
      if n != null {
        CountOutgoing(n, k, bytes, now);
      }
      ReadOutMoves(cfg, old(View()), ip, bytes, now, View());
    }

    method CountOutgoing(n: Node, ghost k: nat, bytes: u64, now: int)
      requires Valid() && Holds(n, k)
      modifies n`c
      ensures Valid() && View() == SetClient(old(View()), k, old(n.c).(counters := ReadOutgoing(old(n.c.counters), bytes, now)))
    {
      var c := n.c.counters;
      ghost var read := ReadOutgoing(c, bytes, now);
      if Wrap(c.outgoing - c.outgoingHistory) < bytes {
        c := c.(outgoingDelta := Wrap(c.outgoingHistory + bytes - c.outgoing));
        c := c.(outgoing := Wrap(c.outgoingHistory + bytes));
        c := c.(lastUpdated := now);
      }
      assert c == read;
      list.Set(n, n.c.(counters := c), k);
    }

    /** One incoming line (src/fw_iptables.c:711-717). */
    method ReadIncomingLine(ip: string, bytes: u64)
      requires Valid()
      modifies list.nodes
      ensures Valid()
      ensures var k := FirstIndex(ByIp(ip), old(View()).clients);
              View() == if k >= |old(View()).clients| then old(View())
                        else SetClient(old(View()), k, old(View()).clients[k].(
                               counters := ReadIncoming(old(View()).clients[k].counters, bytes)))
      ensures Spares() && list.freed == old(list.freed)
      ensures Took(Event.ReadIn(ip, bytes), null)
    {
      var n, k := list.Find(ByIp(ip));
      if n != null {
        CountIncoming(n, k, bytes);
      }
      ReadInMoves(cfg, old(View()), ip, bytes, View());
    }

    method CountIncoming(n: Node, ghost k: nat, bytes: u64)
      requires Valid() && Holds(n, k)
      modifies n`c
      ensures Valid() && View() == SetClient(old(View()), k, old(n.c).(counters := ReadIncoming(old(n.c.counters), bytes)))
    {
      var c := n.c.counters;
      ghost var read := ReadIncoming(c, bytes);
      if Wrap(c.incoming - c.incomingHistory) < bytes {
        c := c.(incomingDelta := Wrap(c.incomingHistory + bytes - c.incoming));
        c := c.(incoming := Wrap(c.incomingHistory + bytes));
      }
      assert c == read;
      list.Set(n, n.c.(counters := c), k);
    }

    /** The snapshot a sync works from (src/firewall.c:267-275). */
    method BeginSync() returns (worklist: Node?, ghost copies: seq<Node>)
      requires Valid()
      ensures fresh(copies) && Linked(worklist, copies) && Values(copies) == Map(Duplicate, View().clients)
      ensures |copies| == |list.nodes| && forall i :: 0 <= i < |copies| ==> SameSession(copies[i].c, View().clients[i])
      ensures forall s: Sys :: s.v == View() ==>
                var t := Step(cfg, s, Event.BeginSync);
                Moves(s, t, s.v, [], []) && t.work == s.work + Map(ItemOf, Values(copies))
    {
      var copied;
      worklist, copied, copies := list.Dup();
      assert Map(ItemOf, Values(copies)) == Map(ItemOf, View().clients);
      forall s: Sys | s.v == View() {
        BeginSyncAsks(cfg, s);
      }
    }

    /** One critical section of some other thread. */
    method Perform(section: Section) returns (leaving: Node?)
      requires Valid()
      modifies this, list, list.nodes
      ensures Valid() && Spares()
      ensures leaving != null ==> leaving !in list.nodes && leaving !in list.freed
    {
      leaving := null;
      match section
      case Auth(ip, mac, token, logout, now) => leaving := HttpAuth(ip, mac, token, logout, now);
      case ReplyToLogin(asked, token, code) =>
        var copy := new Node(asked);
        var _ := EndLogin(copy, token, code);
      case ReplyToSync(asked, now, limit, code) =>
        var copy := new Node(asked);
        leaving := SyncOne(copy, now, limit, code);
      case ResetBy(arg) => leaving := Reset(arg);
      case DisconnectBy(mac, token) => leaving := Disconnect(mac, token);
      case Reading(ip, bytes, now) => ReadOutgoingLine(ip, bytes, now);
      case ReadingIn(ip, bytes) => ReadIncomingLine(ip, bytes);
    }

    /** A logout from end to end: while its lock is dropped any other critical sections run, and
        the unlinked node is still there to be freed, once, at the end (src/auth.c:94-115). */
    method LogoutAmid(arg: string, others: seq<Section>) returns (gone: Node?)
      requires Valid()
      modifies this, list, list.nodes
      ensures Valid()
      ensures gone != null ==> gone in old(list.nodes) && gone in list.freed && gone !in list.nodes
    {
      gone := Reset(arg);
      for i := 0 to |others|
        invariant Valid() && forall i :: 0 <= i < |list.nodes| ==> list.nodes[i] in old(list.nodes) || fresh(list.nodes[i])
        invariant gone != null ==> gone in old(list.nodes) && gone !in list.nodes && gone !in list.freed
      {
        var _ := Perform(others[i]);
      }
      if gone != null {
        FinishLogout(gone);
      }
    }

    /** A login from end to end, with any other critical sections while the auth server is asked:
        the reply is applied to the session that was found by address, wherever it stands by then,
        or to none. With nothing in between it is the client found by address itself
        (src/auth.c:130-253). */
    method LoginAmid(ip: string, others: seq<Section>, token: string, code: int) returns (found: bool, ghost amid: View)
      requires Valid()
      modifies this, list, list.nodes
      ensures Valid()
      ensures var k := FirstIndex(ByIp(ip), old(View()).clients);
              if k >= |old(View()).clients| then !found && View() == amid
              else var m := FirstIndex(ById(old(View()).clients[k].id), amid.clients);
                   found == (m < |amid.clients|) && View() == if found then LoginReply(amid, m, token, code) else amid
      ensures others == [] ==> amid == old(View())
      ensures others == [] && SessionInvariant.DistinctIds(old(View()).clients) ==>
                var k := FirstIndex(ByIp(ip), old(View()).clients);
                found == (k < |old(View()).clients|)
                && View() == if found then LoginReply(old(View()), k, token, code) else old(View())
    {
      found := false;
      var copy := BeginLogin(ip);
      ghost var asked := if copy == null then 0 else copy.c.id;
      for i := 0 to |others|
        invariant Valid() && (i == 0 ==> View() == old(View()))
        invariant forall i :: 0 <= i < |list.nodes| ==> list.nodes[i] in old(list.nodes) || fresh(list.nodes[i])
        invariant copy != null ==> copy !in list.nodes && copy.c.id == asked
      {
        var _ := Perform(others[i]);
      }
      amid := View();
      if copy != null {
        found := EndLogin(copy, token, code);
        SameClient(old(View()).clients, FirstIndex(ByIp(ip), old(View()).clients), asked);
      }
    }
  }

  /** Among distinct ids the client at a position is found by its id. */
  lemma SameClient(cs: seq<Client>, k: nat, id: nat)
    requires k < |cs| && cs[k].id == id
    ensures SessionInvariant.DistinctIds(cs) ==> FirstIndex(ById(id), cs) == k
  {
    if SessionInvariant.DistinctIds(cs) {
      FirstIndexUnique(ById(id), cs, k);
    }
  }

  /** The critical sections that may run while another thread has dropped the lock. */
  datatype Section =
    | Auth(ip: string, mac: string, token: string, logout: bool, now: int)
    | ReplyToLogin(asked: Client, token: string, code: int)
    | ReplyToSync(asked: Client, now: int, limit: int, code: int)
    | ResetBy(arg: string)
    | DisconnectBy(mac: string, token: string)
    | Reading(ip: string, bytes: u64, now: int)
    | ReadingIn(ip: string, bytes: u64)
}
