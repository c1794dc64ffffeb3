/** The commands that edit WiFiDog's chains while it runs. */
module FwEdits {
  import opened Base
  import opened Config
  import opened Iptables
  import opened Firewall
  import opened FwSetup

  datatype Edit =
    | AllowClient(ip: string, mac: string, mark: int)
    | DenyClient(ip: string, mac: string, mark: int)
    | AllowHost(host: string)
    | DenyHost(host: string)
    | RefreshServers(last: seq<Option<string>>)
    | Unreachable
    | Reachable

  /** What each edit does to the abstract state. */
  function Edited(cfg: Config, fw: Fw, e: Edit): Fw {
    match e
    case AllowClient(ip, mac, mark) => Grant(fw, ip, mac, mark)
    case DenyClient(ip, mac, mark) => Revoke(fw, ip, mac, mark)
    case AllowHost(host) => fw.(globals := fw.globals + [HostRule(host)])
    case DenyHost(host) => fw.(globals := RemoveFirst(fw.globals, HostRule(host)))
    case RefreshServers(last) => fw.(ips := KnownIps(last))
    case Unreachable => if HasAuthDown(cfg) then fw.(downs := fw.downs + 1) else fw
    case Reachable => if HasAuthDown(cfg) then fw.(downs := 0) else fw
  }

  /** Changing the client rules changes two chains of mangle. */
  lemma ClientsEdit(cfg: Config, prior: Tables, fw: Fw, outgoing: seq<ClientMark>, incoming: seq<string>)
    requires Clean(cfg, prior) && cfg.extInterface.Some?
    ensures var t := Realise(cfg, prior, fw);
            && Wd(Outgoing) in t.mangle && t.mangle[Wd(Outgoing)] == Map(MarkRule, fw.outgoing)
            && Wd(Incoming) in t.mangle && t.mangle[Wd(Incoming)] == Map(IncomingRule, fw.incoming)
            && Realise(cfg, prior, fw.(outgoing := outgoing, incoming := incoming)) ==
               t.(mangle := t.mangle[Wd(Outgoing) := Map(MarkRule, outgoing)][Wd(Incoming) := Map(IncomingRule, incoming)])
  {
    EditMangle(HasAuthDown(cfg), prior.mangle, MangleChainsOf(cfg, HasAuthDown(cfg), prior.mangle, fw),
               Map(MarkRule, outgoing), Map(IncomingRule, incoming));
  }

  lemma EditMangle(down: bool, prior: Table, c: MangleChains, outgoing: seq<Rule>, incoming: seq<Rule>)
    ensures MangleTable(down, prior, c)[Wd(Outgoing) := outgoing][Wd(Incoming) := incoming]
         == MangleTable(down, prior, c.(outgoing := outgoing, incoming := incoming))
  {
  }

  /** iptables_fw_access, granting (src/fw_iptables.c:568-572). */
  method AccessAllow(k: Kernel, ip: string, mac: string, mark: int, ghost cfg: Config, ghost prior: Tables, ghost fw: Fw)
    requires Clean(cfg, prior) && cfg.extInterface.Some? && k.tables == Realise(cfg, prior, fw)
    modifies k
    ensures k.tables == Realise(cfg, prior, Edited(cfg, fw, AllowClient(ip, mac, mark)))
  {
    MapSnoc(MarkRule, fw.outgoing, ClientMark(ip, mac, mark));
    MapSnoc(IncomingRule, fw.incoming, ip);
    ClientsEdit(cfg, prior, fw, fw.outgoing + [ClientMark(ip, mac, mark)], fw.incoming + [ip]);
    k.Add(Mangle, Wd(Outgoing), Rule([Src(ip), MacSource(mac)], SetMark(mark)));
    k.Add(Mangle, Wd(Incoming), Rule([Dst(ip)], Accept));
  }

  /** iptables_fw_access, denying: each -D takes the first equal rule or does nothing
      (src/fw_iptables.c:573-578). */
  method AccessDeny(k: Kernel, ip: string, mac: string, mark: int, ghost cfg: Config, ghost prior: Tables, ghost fw: Fw)
    requires Clean(cfg, prior) && cfg.extInterface.Some? && k.tables == Realise(cfg, prior, fw)
    modifies k
    ensures k.tables == Realise(cfg, prior, Edited(cfg, fw, DenyClient(ip, mac, mark)))
  {
    RemoveFirstMap(MarkRule, fw.outgoing, ClientMark(ip, mac, mark));
    RemoveFirstMap(IncomingRule, fw.incoming, ip);
    ClientsEdit(cfg, prior, fw, RemoveFirst(fw.outgoing, ClientMark(ip, mac, mark)), RemoveFirst(fw.incoming, ip));
    k.Forget(Mangle, Wd(Outgoing), Rule([Src(ip), MacSource(mac)], SetMark(mark)));
    k.Forget(Mangle, Wd(Incoming), Rule([Dst(ip)], Accept));
  }

  /** Denying what was allowed leaves as many copies of every client rule and every address as
      there were before, and the very same ones when the client had none. */
  lemma DenyUndoesAllow(cfg: Config, fw: Fw, ip: string, mac: string, mark: int)
    ensures var after := Edited(cfg, Edited(cfg, fw, AllowClient(ip, mac, mark)), DenyClient(ip, mac, mark));
            && after == fw.(outgoing := after.outgoing, incoming := after.incoming)
            && multiset(after.outgoing) == multiset(fw.outgoing) && multiset(after.incoming) == multiset(fw.incoming)
            && (ClientMark(ip, mac, mark) !in fw.outgoing && ip !in fw.incoming ==> after == fw)
  {
    RemoveAdded(fw.outgoing, ClientMark(ip, mac, mark));
    RemoveAdded(fw.incoming, ip);
  }

  lemma HostCompiles(host: string)
    ensures FilterRule(HostRule(host)) == Rule([Dst(host)], Accept)
  {
    assert RuleTests(HostRule(host)) == [Dst(host)];
  }

  lemma GlobalsSnoc(globals: seq<FwRule>, host: string)
    ensures NatRules(globals + [HostRule(host)]) == NatRules(globals) + [Rule([Dst(host)], Accept)]
    ensures FilterRules(globals + [HostRule(host)]) == FilterRules(globals) + [Rule([Dst(host)], Accept)]
  {
    var r := HostRule(host);
    HostCompiles(host);
    FilterAppend(NatKeeps, globals, [r]);
    assert Base.Filter(NatKeeps, [r]) == [r];
    MapSnoc(FilterRule, globals, r);
    MapSnoc(FilterRule, Base.Filter(NatKeeps, globals), r);
  }

  /** Only the whitelisting itself compiles to the whitelisting rule. */
  lemma OnlyHostRule(a: FwRule, host: string)
    requires FilterRule(a) == Rule([Dst(host)], Accept)
    ensures a == HostRule(host)
  {
    var ts := RuleTests(a);
    assert |ts| == (if a.mask.None? then 0 else 1) + (if a.protocol.None? then 0 else 1) + (if a.port.None? then 0 else 1);
    assert ts[0] == Dst(host);
  }

  lemma GlobalsRemove(globals: seq<FwRule>, host: string)
    ensures NatRules(RemoveFirst(globals, HostRule(host))) == RemoveFirst(NatRules(globals), Rule([Dst(host)], Accept))
    ensures FilterRules(RemoveFirst(globals, HostRule(host))) == RemoveFirst(FilterRules(globals), Rule([Dst(host)], Accept))
  {
    var r := HostRule(host);
    HostCompiles(host);
    forall a | FilterRule(a) == FilterRule(r) ensures a == r {
      OnlyHostRule(a, host);
    }
    FilterRemoveFirst(NatKeeps, globals, r);
    RemoveFirstMap(FilterRule, globals, r);
    RemoveFirstMap(FilterRule, Base.Filter(NatKeeps, globals), r);
  }

  /** Changing the global rules changes one chain of nat and one of filter. */
  lemma GlobalsEdit(cfg: Config, prior: Tables, fw: Fw, globals: seq<FwRule>)
    requires Clean(cfg, prior) && cfg.extInterface.Some?
    ensures var t := Realise(cfg, prior, fw);
            && Wd(Global) in t.nats && t.nats[Wd(Global)] == NatRules(fw.globals)
            && Wd(Global) in t.filter && t.filter[Wd(Global)] == FilterRules(fw.globals)
            && Realise(cfg, prior, fw.(globals := globals)) ==
               t.(nats := t.nats[Wd(Global) := NatRules(globals)], filter := t.filter[Wd(Global) := FilterRules(globals)])
  {
    EditNat(HasAuthDown(cfg), prior.nats, NatChainsOf(cfg, HasAuthDown(cfg), prior.nats, fw), [], NatRules(globals));
    EditFilter(HasAuthDown(cfg), prior.filter, FilterChainsOf(cfg, HasAuthDown(cfg), prior.filter, fw), [], FilterRules(globals));
  }

  lemma ServersEdit(cfg: Config, prior: Tables, fw: Fw, ips: seq<string>)
    requires Clean(cfg, prior) && cfg.extInterface.Some?
    ensures var t := Realise(cfg, prior, fw);
            && Wd(AuthServs) in t.nats && Wd(AuthServs) in t.filter
            && Realise(cfg, prior, fw.(ips := ips)) ==
               t.(nats := t.nats[Wd(AuthServs) := Map(ServerRule, ips)], filter := t.filter[Wd(AuthServs) := Map(ServerRule, ips)])
  {
    EditNat(HasAuthDown(cfg), prior.nats, NatChainsOf(cfg, HasAuthDown(cfg), prior.nats, fw), Map(ServerRule, ips), []);
    EditFilter(HasAuthDown(cfg), prior.filter, FilterChainsOf(cfg, HasAuthDown(cfg), prior.filter, fw), Map(ServerRule, ips), []);
  }

  /** iptables_fw_access_host, granting (src/fw_iptables.c:595-598). */
  method HostAllow(k: Kernel, host: string, ghost cfg: Config, ghost prior: Tables, ghost fw: Fw)
    requires Clean(cfg, prior) && cfg.extInterface.Some? && k.tables == Realise(cfg, prior, fw)
    modifies k
    ensures k.tables == Realise(cfg, prior, Edited(cfg, fw, AllowHost(host)))
  {
    assert Edited(cfg, fw, AllowHost(host)) == fw.(globals := fw.globals + [HostRule(host)]);
    GlobalsSnoc(fw.globals, host);
    GlobalsEdit(cfg, prior, fw, fw.globals + [HostRule(host)]);
    k.Add(Nat, Wd(Global), Rule([Dst(host)], Accept));
    k.Add(Filter, Wd(Global), Rule([Dst(host)], Accept));
  }

  /** iptables_fw_access_host, denying (src/fw_iptables.c:599-602). */
  method HostDeny(k: Kernel, host: string, ghost cfg: Config, ghost prior: Tables, ghost fw: Fw)
    requires Clean(cfg, prior) && cfg.extInterface.Some? && k.tables == Realise(cfg, prior, fw)
    modifies k
    ensures k.tables == Realise(cfg, prior, Edited(cfg, fw, DenyHost(host)))
  {
    assert Edited(cfg, fw, DenyHost(host)) == fw.(globals := RemoveFirst(fw.globals, HostRule(host)));
    GlobalsRemove(fw.globals, host);
    GlobalsEdit(cfg, prior, fw, RemoveFirst(fw.globals, HostRule(host)));
    k.Forget(Nat, Wd(Global), Rule([Dst(host)], Accept));
    k.Forget(Filter, Wd(Global), Rule([Dst(host)], Accept));
  }

  /** iptables_fw_clear_authservers then iptables_fw_set_authservers (src/fw_iptables.c:224-246). */
  method ServersRefresh(k: Kernel, last: seq<Option<string>>, ghost cfg: Config, ghost prior: Tables, ghost fw: Fw)
    requires Clean(cfg, prior) && cfg.extInterface.Some? && k.tables == Realise(cfg, prior, fw)
    modifies k
    ensures k.tables == Realise(cfg, prior, Edited(cfg, fw, RefreshServers(last)))
  {
    ServersEdit(cfg, prior, fw, KnownIps(last));
    ServersReload(k, last);
    assert Edited(cfg, fw, RefreshServers(last)) == fw.(ips := KnownIps(last));
  }

  method ServersReload(k: Kernel, last: seq<Option<string>>)
    requires Wd(AuthServs) in k.tables.filter && Wd(AuthServs) in k.tables.nats
    modifies k
    ensures k.tables == old(k.tables).(
        nats := old(k.tables.nats)[Wd(AuthServs) := Map(ServerRule, KnownIps(last))],
        filter := old(k.tables.filter)[Wd(AuthServs) := Map(ServerRule, KnownIps(last))])
  {
    k.Clear(Filter, Wd(AuthServs));
    k.Clear(Nat, Wd(AuthServs));
    SetAuthServers(k, last);
    assert [] + Map(ServerRule, KnownIps(last)) == Map(ServerRule, KnownIps(last));
  }

  lemma DownsEdit(cfg: Config, prior: Tables, fw: Fw, downs: nat)
    requires Clean(cfg, prior) && cfg.extInterface.Some? && HasAuthDown(cfg)
    ensures var t := Realise(cfg, prior, fw);
            && Wd(AuthDown) in t.mangle && t.mangle[Wd(AuthDown)] == DownRules(fw)
            && Realise(cfg, prior, fw.(downs := downs)) == t.(mangle := t.mangle[Wd(AuthDown) := DownRules(fw.(downs := downs))])
  {
    assert Realise(cfg, prior, fw.(downs := downs)).mangle == Realise(cfg, prior, fw).mangle[Wd(AuthDown) := DownRules(fw.(downs := downs))];
  }

  /** iptables_fw_auth_unreachable (src/fw_iptables.c:612-620). */
  method AuthUnreachable(k: Kernel, cfg: Config, ghost prior: Tables, ghost fw: Fw)
    requires Clean(cfg, prior) && cfg.extInterface.Some? && k.tables == Realise(cfg, prior, fw)
    modifies k
    ensures k.tables == Realise(cfg, prior, Edited(cfg, fw, Unreachable))
  {
    if HasAuthDown(cfg) {
      DownsEdit(cfg, prior, fw, fw.downs + 1);
      assert DownRules(fw.(downs := fw.downs + 1)) == DownRules(fw) + [DOWN_RULE];
      k.Add(Mangle, Wd(AuthDown), DOWN_RULE);
      assert Edited(cfg, fw, Unreachable) == fw.(downs := fw.downs + 1);
    }
  }

  /** iptables_fw_auth_reachable (src/fw_iptables.c:623-631). */
  method AuthReachable(k: Kernel, cfg: Config, ghost prior: Tables, ghost fw: Fw)
    requires Clean(cfg, prior) && cfg.extInterface.Some? && k.tables == Realise(cfg, prior, fw)
    modifies k
    ensures k.tables == Realise(cfg, prior, Edited(cfg, fw, Reachable))
  {
    if HasAuthDown(cfg) {
      DownsEdit(cfg, prior, fw, 0);
      assert DownRules(fw.(downs := 0)) == [];
      k.Clear(Mangle, Wd(AuthDown));
      assert Edited(cfg, fw, Reachable) == fw.(downs := 0);
    }
  }

  /** Any edit, by kind. */
  method Apply(k: Kernel, cfg: Config, e: Edit, ghost prior: Tables, ghost fw: Fw)
    requires Clean(cfg, prior) && cfg.extInterface.Some? && k.tables == Realise(cfg, prior, fw)
    modifies k
    ensures k.tables == Realise(cfg, prior, Edited(cfg, fw, e))
  {
    match e
    case AllowClient(ip, mac, mark) => AccessAllow(k, ip, mac, mark, cfg, prior, fw);
    case DenyClient(ip, mac, mark) => AccessDeny(k, ip, mac, mark, cfg, prior, fw);
    case AllowHost(host) => HostAllow(k, host, cfg, prior, fw);
    case DenyHost(host) => HostDeny(k, host, cfg, prior, fw);
    case RefreshServers(last) => ServersRefresh(k, last, cfg, prior, fw);
    case Unreachable => AuthUnreachable(k, cfg, prior, fw);
    case Reachable => AuthReachable(k, cfg, prior, fw);
  }

  function EditedAll(cfg: Config, fw: Fw, edits: seq<Edit>): Fw {
    if edits == [] then fw
    else Edited(cfg, EditedAll(cfg, fw, edits[..|edits| - 1]), edits[|edits| - 1])
  }

  /** Carrying out any sequence of edits on the kernel realises what they do abstractly. */
  method ApplyAll(k: Kernel, cfg: Config, edits: seq<Edit>, ghost prior: Tables, ghost fw: Fw)
    requires Clean(cfg, prior) && cfg.extInterface.Some? && k.tables == Realise(cfg, prior, fw)
    modifies k
    ensures k.tables == Realise(cfg, prior, EditedAll(cfg, fw, edits))
  {
    var i := 0;
    while i < |edits|
      invariant 0 <= i <= |edits|
      invariant k.tables == Realise(cfg, prior, EditedAll(cfg, fw, edits[..i]))
    {
      Apply(k, cfg, edits[i], prior, EditedAll(cfg, fw, edits[..i]));
      EditedStep(cfg, fw, edits, i);
      i := i + 1;
    }
    assert edits[..i] == edits;
  }

  lemma EditedStep(cfg: Config, fw: Fw, edits: seq<Edit>, i: nat)
    requires i < |edits|
    ensures EditedAll(cfg, fw, edits[..i + 1]) == Edited(cfg, EditedAll(cfg, fw, edits[..i]), edits[i])
  {
    var es := edits[..i + 1];
    assert es[..|es| - 1] == edits[..i] && es[|es| - 1] == edits[i];
  }
}
