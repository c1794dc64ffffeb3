/** iptables_fw_init: the commands that build WiFiDog's chains on top of what was there. */
module FwSetup {
  import opened Base
  import opened Config
  import opened Iptables
  import opened Firewall

  /** iptables_load_ruleset (src/fw_iptables.c:204-222). */
  method LoadRuleset(k: Kernel, id: TableId, rules: seq<FwRule>, chain: Chain)
    requires chain in k.tables.Get(id)
    modifies k
    ensures k.tables == old(k.tables).Put(id, Extend(old(k.tables).Get(id), chain, CompileAll(id, rules)))
  {
    var i := 0;
    ghost var t0 := k.tables;
    ExtendNone(t0.Get(id), chain);
    assert CompileAll(id, rules[..0]) == [];
    while i < |rules|
      invariant 0 <= i <= |rules|
      invariant k.tables == t0.Put(id, Extend(t0.Get(id), chain, CompileAll(id, rules[..i])))
    {
      CompileAllStep(id, rules, i);
      match Compile(id, rules[i]) {
        case Some(r) =>
          ExtendTwice(t0.Get(id), chain, CompileAll(id, rules[..i]), [r]);
          var _ := k.Do(id, Append(chain, r));
        case None =>
      }
      i := i + 1;
    }
    assert rules[..i] == rules;
  }

  lemma CompileAllStep(id: TableId, rules: seq<FwRule>, i: nat)
    requires i < |rules|
    ensures CompileAll(id, rules[..i + 1]) ==
            match Compile(id, rules[i])
            case Some(r) => CompileAll(id, rules[..i]) + [r]
            case None => CompileAll(id, rules[..i])
  {
    assert rules[..i + 1] == rules[..i] + [rules[i]];
    FilterAppend(NatKeeps, rules[..i], [rules[i]]);
    assert Base.Filter(NatKeeps, [rules[i]]) == if NatKeeps(rules[i]) then [rules[i]] else [];
    MapAppend(FilterRule, rules[..i], [rules[i]]);
    MapAppend(FilterRule, Base.Filter(NatKeeps, rules[..i]), Base.Filter(NatKeeps, [rules[i]]));
  }

  /** The known addresses an AuthServs chain whitelists (src/fw_iptables.c:239-240). */
  function KnownIps(last: seq<Option<string>>): seq<string> {
    if last == [] then []
    else (if last[0].Some? && last[0].value != "0.0.0.0" then [last[0].value] else []) + KnownIps(last[1..])
  }

  lemma {:induction false} KnownIpsAppend(a: seq<Option<string>>, b: seq<Option<string>>)
    ensures KnownIps(a + b) == KnownIps(a) + KnownIps(b)
  {
    if a == [] {
      assert a + b == b;
    } else {
      assert (a + b)[1..] == a[1..] + b;
      KnownIpsAppend(a[1..], b);
    }
  }

  /** iptables_fw_set_authservers (src/fw_iptables.c:231-246). */
  method SetAuthServers(k: Kernel, last: seq<Option<string>>)
    requires Wd(AuthServs) in k.tables.filter && Wd(AuthServs) in k.tables.nats
    modifies k
    ensures k.tables.mangle == old(k.tables.mangle)
    ensures k.tables.filter == Extend(old(k.tables.filter), Wd(AuthServs), Map(ServerRule, KnownIps(last)))
    ensures k.tables.nats == Extend(old(k.tables.nats), Wd(AuthServs), Map(ServerRule, KnownIps(last)))
  {
    var i := 0;
    ghost var t0 := k.tables;
    ExtendNone(t0.filter, Wd(AuthServs));
    ExtendNone(t0.nats, Wd(AuthServs));
    while i < |last|
      invariant 0 <= i <= |last|
      invariant k.tables.mangle == t0.mangle
      invariant k.tables.filter == Extend(t0.filter, Wd(AuthServs), Map(ServerRule, KnownIps(last[..i])))
      invariant k.tables.nats == Extend(t0.nats, Wd(AuthServs), Map(ServerRule, KnownIps(last[..i])))
    {
      ghost var sofar := Map(ServerRule, KnownIps(last[..i]));
      KnownIpsStep(last, i);
      if last[i].Some? && last[i].value != "0.0.0.0" {
        ghost var more := [ServerRule(last[i].value)];
        ExtendTwice(t0.filter, Wd(AuthServs), sofar, more);
        ExtendTwice(t0.nats, Wd(AuthServs), sofar, more);
        var _ := k.Do(Filter, Append(Wd(AuthServs), ServerRule(last[i].value)));
        var _ := k.Do(Nat, Append(Wd(AuthServs), ServerRule(last[i].value)));
      }
      i := i + 1;
    }
    assert last[..i] == last;
  }

  lemma KnownIpsStep(last: seq<Option<string>>, i: nat)
    requires i < |last|
    ensures Map(ServerRule, KnownIps(last[..i + 1])) ==
            if last[i].Some? && last[i].value != "0.0.0.0"
            then Map(ServerRule, KnownIps(last[..i])) + [ServerRule(last[i].value)]
            else Map(ServerRule, KnownIps(last[..i]))
  {
    assert last[..i + 1] == last[..i] + [last[i]];
    KnownIpsAppend(last[..i], [last[i]]);
    MapAppend(ServerRule, KnownIps(last[..i]), KnownIps([last[i]]));
  }

  method LoadTrusted(k: Kernel, macs: seq<string>)
    requires Wd(Trusted) in k.tables.mangle
    modifies k
    ensures k.tables == old(k.tables).Put(Mangle, Extend(old(k.tables).mangle, Wd(Trusted), Map(TrustedRule, macs)))
  {
    var i := 0;
    ghost var t0 := k.tables;
    ExtendNone(t0.mangle, Wd(Trusted));
    while i < |macs|
      invariant 0 <= i <= |macs|
      invariant k.tables == t0.Put(Mangle, Extend(t0.mangle, Wd(Trusted), Map(TrustedRule, macs[..i])))
    {
      MapStep(TrustedRule, macs, i);
      ExtendTwice(t0.mangle, Wd(Trusted), Map(TrustedRule, macs[..i]), [TrustedRule(macs[i])]);
      k.Add(Mangle, Wd(Trusted), TrustedRule(macs[i]));
      i := i + 1;
    }
    assert macs[..i] == macs;
  }

  lemma MangleShape(t: Table, cfg: Config, down: bool, prior: Table)
    requires NoWdChain(prior) && PREROUTING in prior && POSTROUTING in prior
    requires t.Keys == prior.Keys + {Wd(Trusted), Wd(Outgoing), Wd(Incoming)} + (if down then {Wd(AuthDown)} else {})
    requires forall c :: c in prior && c != PREROUTING && c != POSTROUTING ==> t[c] == prior[c]
    requires t[Wd(Trusted)] == [] + Map(TrustedRule, cfg.trustedMacs)
    requires t[Wd(Outgoing)] == [] && t[Wd(Incoming)] == [] && (down ==> t[Wd(AuthDown)] == [])
    requires t[PREROUTING] == Prerouting(cfg, down, prior[PREROUTING])
    requires t[POSTROUTING] == [ToGateway(cfg)] + prior[POSTROUTING]
    ensures t == MangleOf(cfg, down, prior, Fresh(cfg, []))
  {
    assert t[Wd(Trusted)] == Map(TrustedRule, cfg.trustedMacs);
  }

  method NewMangleChains(k: Kernel, down: bool)
    requires NoWdChain(k.tables.mangle)
    modifies k
    ensures k.tables == old(k.tables).Put(Mangle, WithDown(down, old(k.tables).mangle
        [Wd(Trusted) := []][Wd(Outgoing) := []][Wd(Incoming) := []], []))
  {
    k.New(Mangle, Wd(Trusted));
    k.New(Mangle, Wd(Outgoing));
    k.New(Mangle, Wd(Incoming));
    if down {
      k.New(Mangle, Wd(AuthDown));
    }
  }

  method HookMangle(k: Kernel, cfg: Config, down: bool)
    requires {PREROUTING, POSTROUTING, Wd(Trusted), Wd(Outgoing), Wd(Incoming)} <= k.tables.mangle.Keys
    requires down ==> Wd(AuthDown) in k.tables.mangle
    modifies k
    ensures k.tables == old(k.tables).Put(Mangle, old(k.tables).mangle
        [PREROUTING := Prerouting(cfg, down, old(k.tables).mangle[PREROUTING])]
        [POSTROUTING := [ToGateway(cfg)] + old(k.tables).mangle[POSTROUTING]])
  {
    k.Insert(Mangle, PREROUTING, FromGateway(cfg, Outgoing));
    k.Insert(Mangle, PREROUTING, FromGateway(cfg, Trusted));
    if down {
      k.Insert(Mangle, PREROUTING, FromGateway(cfg, AuthDown));
    }
    k.Insert(Mangle, POSTROUTING, ToGateway(cfg));
  }

  /** The mangle part of iptables_fw_init (src/fw_iptables.c:281-297). */
  method InitMangle(k: Kernel, cfg: Config, down: bool)
    requires NoWdChain(k.tables.mangle) && PREROUTING in k.tables.mangle && POSTROUTING in k.tables.mangle
    modifies k
    ensures k.tables == old(k.tables).Put(Mangle, MangleOf(cfg, down, old(k.tables).mangle, Fresh(cfg, [])))
  {
    ghost var prior := k.tables.mangle;
    NewMangleChains(k, down);
    HookMangle(k, cfg, down);
    LoadTrusted(k, cfg.trustedMacs);
    MangleShape(k.tables.mangle, cfg, down, prior);
  }

  method NewNatChains(k: Kernel, down: bool)
    requires NoWdChain(k.tables.nats)
    modifies k
    ensures k.tables == old(k.tables).Put(Nat, WithDown(down, old(k.tables).nats
        [Wd(Outgoing) := []][Wd(Router) := []][Wd(Internet) := []]
        [Wd(Global) := []][Wd(Unknown) := []][Wd(AuthServs) := []], []))
  {
    k.New(Nat, Wd(Outgoing));
    k.New(Nat, Wd(Router));
    k.New(Nat, Wd(Internet));
    k.New(Nat, Wd(Global));
    k.New(Nat, Wd(Unknown));
    k.New(Nat, Wd(AuthServs));
    if down {
      k.New(Nat, Wd(AuthDown));
    }
  }

  /** nat Outgoing and Router (src/fw_iptables.c:316-321). */
  method LinkNatOutgoing(k: Kernel, cfg: Config)
    requires {PREROUTING, Wd(Outgoing), Wd(Router), Wd(Internet)} <= k.tables.nats.Keys
    requires k.tables.nats[Wd(Outgoing)] == [] && k.tables.nats[Wd(Router)] == []
    modifies k
    ensures k.tables == old(k.tables).Put(Nat, old(k.tables).nats
        [PREROUTING := old(k.tables).nats[PREROUTING] + [FromGateway(cfg, Outgoing)]]
        [Wd(Router) := [Rule([], Accept)]]
        [Wd(Outgoing) := [Rule([Dst(cfg.gwAddress)], Jump(Wd(Router))), Rule([], Jump(Wd(Internet)))]])
  {
    k.Add(Nat, PREROUTING, FromGateway(cfg, Outgoing));
    k.Add(Nat, Wd(Outgoing), Rule([Dst(cfg.gwAddress)], Jump(Wd(Router))));
    k.Add(Nat, Wd(Router), Rule([], Accept));
    k.Add(Nat, Wd(Outgoing), Rule([], Jump(Wd(Internet))));
    assert k.tables.nats[Wd(Router)] == [Rule([], Accept)];
    assert k.tables.nats[Wd(Outgoing)] == [Rule([Dst(cfg.gwAddress)], Jump(Wd(Router))), Rule([], Jump(Wd(Internet)))];
  }

  /** nat Internet (src/fw_iptables.c:323-335). */
  method LinkNatInternet(k: Kernel, cfg: Config)
    requires {Wd(Internet), Wd(Unknown)} <= k.tables.nats.Keys && k.tables.nats[Wd(Internet)] == []
    modifies k
    ensures k.tables == old(k.tables).Put(Nat, old(k.tables).nats[Wd(Internet) := NatInternet(cfg)])
  {
    if cfg.proxyPort != 0 {
      k.Add(Nat, Wd(Internet), Rule(TCP80 + [Marked(MARK_KNOWN)], Redirect(cfg.proxyPort)));
      k.Add(Nat, Wd(Internet), Rule(TCP80 + [Marked(MARK_PROBATION)], Redirect(cfg.proxyPort)));
    }
    k.Add(Nat, Wd(Internet), Rule([Marked(MARK_KNOWN)], Accept));
    k.Add(Nat, Wd(Internet), Rule([Marked(MARK_PROBATION)], Accept));
    k.Add(Nat, Wd(Internet), Rule([], Jump(Wd(Unknown))));
    assert k.tables.nats[Wd(Internet)] == NatInternet(cfg);
  }

  /** nat Unknown and AuthDown (src/fw_iptables.c:337-343). */
  method LinkNatUnknown(k: Kernel, cfg: Config, down: bool)
    requires {Wd(Unknown), Wd(AuthServs), Wd(Global)} <= k.tables.nats.Keys && k.tables.nats[Wd(Unknown)] == []
    requires down ==> Wd(AuthDown) in k.tables.nats && k.tables.nats[Wd(AuthDown)] == []
    modifies k
    ensures k.tables == old(k.tables).Put(Nat, WithDown(down, old(k.tables).nats[Wd(Unknown) := NatUnknown(cfg, down)], NAT_DOWN))
  {
    k.Add(Nat, Wd(Unknown), Rule([], Jump(Wd(AuthServs))));
    k.Add(Nat, Wd(Unknown), Rule([], Jump(Wd(Global))));
    if down {
      k.Add(Nat, Wd(Unknown), Rule([], Jump(Wd(AuthDown))));
      k.Add(Nat, Wd(AuthDown), Rule([Marked(MARK_AUTH_IS_DOWN)], Accept));
      assert k.tables.nats[Wd(AuthDown)] == NAT_DOWN;
    }
    k.Add(Nat, Wd(Unknown), Rule(TCP80, Redirect(cfg.gwPort)));
    assert k.tables.nats[Wd(Unknown)] == NatUnknown(cfg, down);
  }

  lemma NatShape(down: bool, prior: Table, c: NatChains)
    requires c.authServs == [] && c.global == []
    ensures WithDown(down, WithDown(down, prior
                [Wd(Outgoing) := []][Wd(Router) := []][Wd(Internet) := []]
                [Wd(Global) := []][Wd(Unknown) := []][Wd(AuthServs) := []], [])
              [PREROUTING := c.prerouting][Wd(Router) := c.router][Wd(Outgoing) := c.outgoing]
              [Wd(Internet) := c.internet][Wd(Unknown) := c.unknown], NAT_DOWN)
            == NatTable(down, prior, c)
  {
  }

  /** The nat part of iptables_fw_init; Global and AuthServs are filled with the filter part. */
  method InitNat(k: Kernel, cfg: Config, down: bool)
    requires NoWdChain(k.tables.nats) && PREROUTING in k.tables.nats
    modifies k
    ensures k.tables == old(k.tables).Put(Nat, NatOf(cfg, down, old(k.tables).nats, Fw([], [], 0, [], [])))
  {
    ghost var c := NatChainsOf(cfg, down, k.tables.nats, Fw([], [], 0, [], []));
    NatShape(down, k.tables.nats, c);
    NewNatChains(k, down);
    LinkNatOutgoing(k, cfg);
    LinkNatInternet(k, cfg);
    LinkNatUnknown(k, cfg, down);
  }

  method NewFilterChains(k: Kernel, down: bool)
    requires NoWdChain(k.tables.filter)
    modifies k
    ensures k.tables == old(k.tables).Put(Filter, WithDown(down, old(k.tables).filter
        [Wd(Internet) := []][Wd(AuthServs) := []][Wd(Locked) := []][Wd(Global) := []]
        [Wd(Validate) := []][Wd(Known) := []][Wd(Unknown) := []], []))
  {
    k.New(Filter, Wd(Internet));
    k.New(Filter, Wd(AuthServs));
    k.New(Filter, Wd(Locked));
    k.New(Filter, Wd(Global));
    k.New(Filter, Wd(Validate));
    k.New(Filter, Wd(Known));
    k.New(Filter, Wd(Unknown));
    if down {
      k.New(Filter, Wd(AuthDown));
    }
  }

  /** Link a chain into filter Internet and fill it with a ruleset. */
  method LinkRuleset(k: Kernel, tests: seq<Test>, kind: WdChain, rules: seq<FwRule>)
    requires {Wd(Internet), Wd(kind)} <= k.tables.filter.Keys && kind != Internet && k.tables.filter[Wd(kind)] == []
    modifies k
    ensures k.tables == old(k.tables).Put(Filter, old(k.tables).filter
        [Wd(Internet) := old(k.tables).filter[Wd(Internet)] + [Rule(tests, Jump(Wd(kind)))]]
        [Wd(kind) := FilterRules(rules)])
  {
    k.Add(Filter, Wd(Internet), Rule(tests, Jump(Wd(kind))));
    LoadRuleset(k, Filter, rules, Wd(kind));
    assert [] + FilterRules(rules) == FilterRules(rules);
  }

  /** The head of filter Internet, up to the auth servers (src/fw_iptables.c:365-381). */
  method LinkFilterHead(k: Kernel, cfg: Config, ext: string, last: seq<Option<string>>)
    requires {FORWARD, Wd(Internet), Wd(AuthServs)} <= k.tables.filter.Keys && Wd(AuthServs) in k.tables.nats
    requires k.tables.filter[Wd(Internet)] == [] && k.tables.filter[Wd(AuthServs)] == [] && k.tables.nats[Wd(AuthServs)] == []
    modifies k
    ensures k.tables.mangle == old(k.tables).mangle
    ensures k.tables.nats == old(k.tables).nats[Wd(AuthServs) := Map(ServerRule, KnownIps(last))]
    ensures k.tables.filter == old(k.tables).filter
        [FORWARD := [FromGateway(cfg, Internet)] + old(k.tables).filter[FORWARD]]
        [Wd(Internet) := FilterHead(ext)]
        [Wd(AuthServs) := Map(ServerRule, KnownIps(last))]
  {
    LinkFilterStart(k, cfg, ext);
    SetAuthServers(k, last);
    assert [] + Map(ServerRule, KnownIps(last)) == Map(ServerRule, KnownIps(last));
  }

  method LinkFilterStart(k: Kernel, cfg: Config, ext: string)
    requires FORWARD in k.tables.filter && Wd(Internet) in k.tables.filter && k.tables.filter[Wd(Internet)] == []
    requires Wd(AuthServs) in k.tables.filter
    modifies k
    ensures k.tables == old(k.tables).Put(Filter, old(k.tables).filter
        [FORWARD := [FromGateway(cfg, Internet)] + old(k.tables).filter[FORWARD]]
        [Wd(Internet) := FilterHead(ext)])
  {
    k.Insert(Filter, FORWARD, FromGateway(cfg, Internet));
    k.Add(Filter, Wd(Internet), Rule([StateInvalid], Drop));
    k.Add(Filter, Wd(Internet), Rule([OutIface(ext), Proto("tcp"), SynOnly], ClampMss));
    k.Add(Filter, Wd(Internet), Rule([], Jump(Wd(AuthServs))));
    assert k.tables.filter[Wd(Internet)] == FilterHead(ext);
  }

  method LinkFilterClasses(k: Kernel, cfg: Config)
    requires {Wd(Internet), Wd(Validate), Wd(Known)} <= k.tables.filter.Keys
    requires k.tables.filter[Wd(Validate)] == [] && k.tables.filter[Wd(Known)] == []
    modifies k
    ensures k.tables == old(k.tables).Put(Filter, old(k.tables).filter
        [Wd(Internet) := old(k.tables).filter[Wd(Internet)] + FilterClasses()]
        [Wd(Validate) := FilterRules(Rules(cfg, VALIDATING_USERS))]
        [Wd(Known) := FilterRules(Rules(cfg, KNOWN_USERS))])
  {
    ghost var internet := k.tables.filter[Wd(Internet)];
    LinkRuleset(k, [Marked(MARK_PROBATION)], Validate, Rules(cfg, VALIDATING_USERS));
    LinkRuleset(k, [Marked(MARK_KNOWN)], Known, Rules(cfg, KNOWN_USERS));
    assert k.tables.filter[Wd(Internet)] == internet + FilterClasses();
  }

  /** The body of filter Internet: locked, global, validating and known users (src/fw_iptables.c:383-394). */
  method LinkFilterBody(k: Kernel, cfg: Config, ext: string)
    requires {Wd(Internet), Wd(Locked), Wd(Global), Wd(Validate), Wd(Known)} <= k.tables.filter.Keys
    requires k.tables.filter[Wd(Locked)] == [] && k.tables.filter[Wd(Global)] == []
    requires k.tables.filter[Wd(Validate)] == [] && k.tables.filter[Wd(Known)] == []
    requires Wd(Global) in k.tables.nats && k.tables.nats[Wd(Global)] == []
    requires k.tables.filter[Wd(Internet)] == FilterHead(ext)
    modifies k
    ensures k.tables.mangle == old(k.tables).mangle
    ensures k.tables.nats == old(k.tables).nats[Wd(Global) := NatRules(Rules(cfg, GLOBAL))]
    ensures k.tables.filter == old(k.tables).filter
        [Wd(Internet) := FilterHead(ext) + FilterBody()]
        [Wd(Locked) := FilterRules(Rules(cfg, LOCKED_USERS))]
        [Wd(Global) := FilterRules(Rules(cfg, GLOBAL))]
        [Wd(Validate) := FilterRules(Rules(cfg, VALIDATING_USERS))]
        [Wd(Known) := FilterRules(Rules(cfg, KNOWN_USERS))]
  {
    ghost var t := k.tables.filter;
    LinkFilterGlobals(k, cfg, ext);
    LinkFilterClasses(k, cfg);
    BodyShape(t, FilterHead(ext) + FilterGlobals(), FilterClasses(), FilterHead(ext) + FilterBody(),
              FilterRules(Rules(cfg, LOCKED_USERS)), FilterRules(Rules(cfg, GLOBAL)),
              FilterRules(Rules(cfg, VALIDATING_USERS)), FilterRules(Rules(cfg, KNOWN_USERS)));
  }

  function FilterGlobals(): seq<Rule> {
    [Rule([Marked(MARK_LOCKED)], Jump(Wd(Locked))), Rule([], Jump(Wd(Global)))]
  }

  /** The locked and the global chain, in filter and in nat. */
  method LinkFilterGlobals(k: Kernel, cfg: Config, ext: string)
    requires {Wd(Internet), Wd(Locked), Wd(Global)} <= k.tables.filter.Keys
    requires k.tables.filter[Wd(Locked)] == [] && k.tables.filter[Wd(Global)] == []
    requires Wd(Global) in k.tables.nats && k.tables.nats[Wd(Global)] == []
    requires k.tables.filter[Wd(Internet)] == FilterHead(ext)
    modifies k
    ensures k.tables.mangle == old(k.tables).mangle
    ensures k.tables.nats == old(k.tables).nats[Wd(Global) := NatRules(Rules(cfg, GLOBAL))]
    ensures k.tables.filter == old(k.tables).filter
        [Wd(Internet) := FilterHead(ext) + FilterGlobals()]
        [Wd(Locked) := FilterRules(Rules(cfg, LOCKED_USERS))]
        [Wd(Global) := FilterRules(Rules(cfg, GLOBAL))]
  {
    LinkRuleset(k, [Marked(MARK_LOCKED)], Locked, Rules(cfg, LOCKED_USERS));
    LinkRuleset(k, [], Global, Rules(cfg, GLOBAL));
    LoadRuleset(k, Nat, Rules(cfg, GLOBAL), Wd(Global));
    assert [] + NatRules(Rules(cfg, GLOBAL)) == NatRules(Rules(cfg, GLOBAL));
    assert k.tables.filter[Wd(Internet)] == FilterHead(ext) + FilterGlobals();
  }

  lemma BodyShape(t: Table, start: seq<Rule>, classes: seq<Rule>, internet: seq<Rule>,
                  locked: seq<Rule>, global: seq<Rule>, validate: seq<Rule>, known: seq<Rule>)
    requires internet == start + classes
    ensures var t1 := t[Wd(Internet) := start][Wd(Locked) := locked][Wd(Global) := global];
            t1[Wd(Internet) := t1[Wd(Internet)] + classes][Wd(Validate) := validate][Wd(Known) := known] ==
            t[Wd(Internet) := internet][Wd(Locked) := locked][Wd(Global) := global][Wd(Validate) := validate][Wd(Known) := known]
  {
  }

  /** The tail of filter Internet: auth-down and unknown users (src/fw_iptables.c:396-404). */
  method LinkFilterTail(k: Kernel, cfg: Config, down: bool)
    requires {Wd(Internet), Wd(Unknown)} <= k.tables.filter.Keys && k.tables.filter[Wd(Unknown)] == []
    requires down ==> Wd(AuthDown) in k.tables.filter && k.tables.filter[Wd(AuthDown)] == []
    modifies k
    ensures k.tables == old(k.tables).Put(Filter, WithDown(down, old(k.tables).filter
        [Wd(Internet) := old(k.tables).filter[Wd(Internet)] + FilterTail(down)]
        [Wd(Unknown) := FilterRules(Rules(cfg, UNKNOWN_USERS)) + [Rule([], Reject)]],
        FilterRules(Rules(cfg, AUTH_IS_DOWN))))
  {
    ghost var internet := k.tables.filter[Wd(Internet)];
    if down {
      LinkRuleset(k, [Marked(MARK_AUTH_IS_DOWN)], AuthDown, Rules(cfg, AUTH_IS_DOWN));
    }
    LinkRuleset(k, [], Unknown, Rules(cfg, UNKNOWN_USERS));
    k.Add(Filter, Wd(Unknown), Rule([], Reject));
    assert k.tables.filter[Wd(Internet)] == internet + FilterTail(down);
  }

  lemma EditNat(down: bool, prior: Table, c: NatChains, authServs: seq<Rule>, global: seq<Rule>)
    ensures NatTable(down, prior, c)[Wd(AuthServs) := authServs] == NatTable(down, prior, c.(authServs := authServs))
    ensures NatTable(down, prior, c)[Wd(Global) := global] == NatTable(down, prior, c.(global := global))
  {
  }

  lemma EditFilter(down: bool, prior: Table, c: FilterChains, authServs: seq<Rule>, global: seq<Rule>)
    ensures FilterTable(down, prior, c)[Wd(AuthServs) := authServs] == FilterTable(down, prior, c.(authServs := authServs))
    ensures FilterTable(down, prior, c)[Wd(Global) := global] == FilterTable(down, prior, c.(global := global))
  {
  }

  /** The order in which iptables_fw_init fills the filter chains does not show in the result. */
  lemma FilterShape(down: bool, prior: Table, c: FilterChains, head: seq<Rule>, body: seq<Rule>)
    ensures
      var t0 := WithDown(down, prior
        [Wd(Internet) := []][Wd(AuthServs) := []][Wd(Locked) := []][Wd(Global) := []]
        [Wd(Validate) := []][Wd(Known) := []][Wd(Unknown) := []], []);
      var t1 := t0[FORWARD := c.forward][Wd(Internet) := head][Wd(AuthServs) := c.authServs];
      var t2 := t1[Wd(Internet) := body][Wd(Locked) := c.locked][Wd(Global) := c.global][Wd(Validate) := c.validate][Wd(Known) := c.known];
      FilterTable(down, prior, c) == WithDown(down, t2[Wd(Internet) := c.internet][Wd(Unknown) := c.unknown], c.authDown)
  {
  }

  /** The filter part of iptables_fw_init, with the shared nat chains. */
  method InitFilter(k: Kernel, cfg: Config, down: bool, ext: string, last: seq<Option<string>>, ghost natPrior: Table)
    requires NoWdChain(k.tables.filter) && FORWARD in k.tables.filter && cfg.extInterface == Some(ext)
    requires NoWdChain(natPrior) && PREROUTING in natPrior
    requires k.tables.nats == NatOf(cfg, down, natPrior, Fw([], [], 0, [], []))
    modifies k
    ensures k.tables.mangle == old(k.tables).mangle
    ensures k.tables.nats == NatOf(cfg, down, natPrior, Fresh(cfg, KnownIps(last)))
    ensures k.tables.filter == FilterOf(cfg, down, old(k.tables).filter, Fresh(cfg, KnownIps(last)))
  {
    NewFilterChains(k, down);
    LinkFilterHead(k, cfg, ext, last);
    LinkFilterBody(k, cfg, ext);
    LinkFilterTail(k, cfg, down);
    FilterShape(down, old(k.tables).filter, FilterChainsOf(cfg, down, old(k.tables).filter, Fresh(cfg, KnownIps(last))),
                FilterHead(ext), FilterHead(ext) + FilterBody());
    NatFilled(cfg, down, natPrior, KnownIps(last));
  }

  /** The nat chains that are filled along with the filter part. */
  lemma NatFilled(cfg: Config, down: bool, prior: Table, ips: seq<string>)
    requires PREROUTING in prior
    ensures NatOf(cfg, down, prior, Fw([], [], 0, [], []))[Wd(AuthServs) := Map(ServerRule, ips)][Wd(Global) := NatRules(Rules(cfg, GLOBAL))]
         == NatOf(cfg, down, prior, Fresh(cfg, ips))
  {
    var c := NatChainsOf(cfg, down, prior, Fw([], [], 0, [], []));
    EditNat(down, prior, c, Map(ServerRule, ips), []);
    EditNat(down, prior, c.(authServs := Map(ServerRule, ips)), [], NatRules(Rules(cfg, GLOBAL)));
  }

  /** iptables_fw_init: nothing is done without an external interface; otherwise every
      command succeeds and the tables hold exactly the realised fresh state. */
  method FwInit(k: Kernel, cfg: Config, last: seq<Option<string>>) returns (ok: bool)
    requires Clean(cfg, k.tables)
    modifies k
    ensures ok <==> cfg.extInterface.Some?
    ensures !ok ==> k.tables == old(k.tables)
    ensures ok ==> k.tables == Realise(cfg, old(k.tables), Fresh(cfg, KnownIps(last)))
  {
    var down := HasAuthDown(cfg);
    if cfg.extInterface.None? {
      return false;
    }
    InitMangle(k, cfg, down);
    InitNat(k, cfg, down);
    InitFilter(k, cfg, down, cfg.extInterface.value, last, old(k.tables).nats);
    ok := true;
  }
}
