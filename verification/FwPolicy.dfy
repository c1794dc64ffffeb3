/** What the built chains mean for a packet. */
module FwPolicy {
  import opened Base
  import opened Config
  import opened Iptables
  import opened Firewall
  import opened FwEdits

  // ----- The flat policy -----

  /** Does a configured rule speak about this packet? */
  predicate Applies(r: FwRule, p: Packet) {
    && (r.mask.Some? && r.maskIsIpset ==> DstSet(r.mask.value) in p.facts)
    && (r.mask.Some? && !r.maskIsIpset ==> r.mask.value == "0.0.0.0/0" || Dst(r.mask.value) in p.facts)
    && (r.protocol.Some? ==> Proto(r.protocol.value) in p.facts)
    && (r.port.Some? ==> Dport(r.port.value) in p.facts)
  }

  /** The decision of the first applicable rule that decides; log rules never do. */
  function Decide(rules: seq<FwRule>, p: Packet): Option<Target> {
    if rules == [] then None
    else if Applies(rules[0], p) && !rules[0].target.TargetLog? && !rules[0].target.TargetUlog? then
      Some(match rules[0].target case TargetDrop => Drop case TargetReject => Reject case _ => Accept)
    else Decide(rules[1..], p)
  }

  lemma {:induction false} DecideAppend(a: seq<FwRule>, b: seq<FwRule>, p: Packet)
    ensures Decide(a + b, p) == if Decide(a, p).Some? then Decide(a, p) else Decide(b, p)
  {
    if a == [] {
      assert a + b == b;
    } else {
      assert (a + b)[1..] == a[1..] + b;
      DecideAppend(a[1..], b, p);
    }
  }

  function When(c: bool, rules: seq<FwRule>): seq<FwRule> {
    if c then rules else []
  }

  /** The rules that concern a packet with this mark, in order of precedence. */
  function FlatRules(cfg: Config, fw: Fw, mark: int): seq<FwRule> {
    Map(HostRule, fw.ips)
    + (When(mark == 0x254, Rules(cfg, LOCKED_USERS))
    + (fw.globals
    + (When(mark == MARK_PROBATION, Rules(cfg, VALIDATING_USERS))
    + (When(mark == MARK_KNOWN, Rules(cfg, KNOWN_USERS))
    + (When(mark == 0x253, Rules(cfg, AUTH_IS_DOWN))
    + Rules(cfg, UNKNOWN_USERS))))))
  }

  function Policy(cfg: Config, fw: Fw, p: Packet, mark: int): Target {
    if StateInvalid in p.facts then Drop
    else match Decide(FlatRules(cfg, fw, mark), p) case Some(v) => v case None => Reject
  }

  // ----- The filter table means the flat policy -----

  lemma AsHexMarks()
    ensures AsHex(MARK_PROBATION) == 1 && AsHex(MARK_KNOWN) == 2
    ensures AsHex(MARK_AUTH_IS_DOWN) == 0x253 && AsHex(MARK_LOCKED) == 0x254
  {
    assert AsHex(25) == 0x25;
  }

  /** A granted mark of 254 is not the mark the Locked link tests. */
  lemma LockedMarkNeverMatches(p: Packet)
    ensures !Holds(Marked(MARK_LOCKED), p, MARK_LOCKED)
  {
    AsHexMarks();
  }

  lemma TestsHold(r: FwRule, p: Packet, mark: int)
    ensures HoldsAll(RuleTests(r), p, mark) <==> Applies(r, p)
  {
    var masks := if r.mask.None? then [] else if r.maskIsIpset then [DstSet(r.mask.value)] else [Dst(r.mask.value)];
    var protos := if r.protocol.None? then [] else [Proto(r.protocol.value)];
    var ports := if r.port.None? then [] else [Dport(r.port.value)];
    HoldsAppend(masks + protos, ports, p, mark);
    HoldsAppend(masks, protos, p, mark);
    if masks != [] { HoldsOne(masks[0], p, mark); }
    if protos != [] { HoldsOne(protos[0], p, mark); }
    if ports != [] { HoldsOne(ports[0], p, mark); }
  }

  lemma HoldsAppend(a: seq<Test>, b: seq<Test>, p: Packet, mark: int)
    ensures HoldsAll(a + b, p, mark) <==> HoldsAll(a, p, mark) && HoldsAll(b, p, mark)
  {
    if HoldsAll(a + b, p, mark) {
      forall i | 0 <= i < |a| ensures Holds(a[i], p, mark) { assert (a + b)[i] == a[i]; }
      forall i | 0 <= i < |b| ensures Holds(b[i], p, mark) { assert (a + b)[|a| + i] == b[i]; }
    }
  }

  /** A compiled ruleset decides like its source. */
  lemma {:induction false} WalkRules(t: Table, rules: seq<FwRule>, p: Packet, mark: int, stack: nat)
    ensures Walk(t, FilterRules(rules), p, mark, stack) ==
            match Decide(rules, p) case Some(v) => Final(v) case None => Fall(mark)
  {
    if rules != [] {
      TestsHold(rules[0], p, mark);
      WalkRules(t, rules[1..], p, mark, stack);
      assert FilterRules(rules)[1..] == FilterRules(rules[1..]);
    }
  }

  /** A link to a compiled ruleset is the ruleset in place, for the packets the link tests. */
  lemma WalkLink(t: Table, tests: seq<Test>, kind: WdChain, rules: seq<FwRule>, rest: seq<Rule>, p: Packet, mark: int, stack: nat)
    requires stack > 0 && Wd(kind) in t && t[Wd(kind)] == FilterRules(rules)
    ensures Walk(t, [Rule(tests, Jump(Wd(kind)))] + rest, p, mark, stack) ==
            match Decide(When(HoldsAll(tests, p, mark), rules), p)
            case Some(v) => Final(v)
            case None => Walk(t, rest, p, mark, stack)
  {
    var link := Rule(tests, Jump(Wd(kind)));
    if HoldsAll(tests, p, mark) {
      WalkJump(t, link, rest, p, mark, stack);
      WalkRules(t, rules, p, mark, stack - 1);
    } else {
      WalkSkip(t, link, rest, p, mark, stack);
    }
  }

  lemma MarkedHolds(p: Packet, mark: int)
    ensures HoldsAll([Marked(MARK_PROBATION)], p, mark) <==> mark == MARK_PROBATION
    ensures HoldsAll([Marked(MARK_KNOWN)], p, mark) <==> mark == MARK_KNOWN
    ensures HoldsAll([Marked(MARK_AUTH_IS_DOWN)], p, mark) <==> mark == 0x253
    ensures HoldsAll([Marked(MARK_LOCKED)], p, mark) <==> mark == 0x254
    ensures HoldsAll([], p, mark)
  {
    AsHexMarks();
    HoldsOne(Marked(MARK_PROBATION), p, mark);
    HoldsOne(Marked(MARK_KNOWN), p, mark);
    HoldsOne(Marked(MARK_AUTH_IS_DOWN), p, mark);
    HoldsOne(Marked(MARK_LOCKED), p, mark);
  }

  lemma WalkUnknown(t: Table, cfg: Config, p: Packet, mark: int, stack: nat)
    requires stack > 0 && Wd(Unknown) in t && t[Wd(Unknown)] == FilterRules(Rules(cfg, UNKNOWN_USERS)) + [Rule([], Reject)]
    ensures Walk(t, [Rule([], Jump(Wd(Unknown)))], p, mark, stack) ==
            match Decide(Rules(cfg, UNKNOWN_USERS), p) case Some(v) => Final(v) case None => Final(Reject)
  {
    var link := Rule([], Jump(Wd(Unknown)));
    assert [link] == [link] + [];
    WalkJump(t, link, [], p, mark, stack);
    WalkRules(t, Rules(cfg, UNKNOWN_USERS), p, mark, stack - 1);
    WalkAppend(t, FilterRules(Rules(cfg, UNKNOWN_USERS)), [Rule([], Reject)], p, mark, stack - 1);
  }

  lemma WalkTail(t: Table, cfg: Config, down: bool, p: Packet, mark: int, stack: nat)
    requires stack > 0 && Wd(Unknown) in t && t[Wd(Unknown)] == FilterRules(Rules(cfg, UNKNOWN_USERS)) + [Rule([], Reject)]
    requires down ==> Wd(AuthDown) in t && t[Wd(AuthDown)] == FilterRules(Rules(cfg, AUTH_IS_DOWN))
    requires down == HasAuthDown(cfg)
    ensures Walk(t, FilterTail(down), p, mark, stack) ==
            match Decide(When(mark == 0x253, Rules(cfg, AUTH_IS_DOWN)) + Rules(cfg, UNKNOWN_USERS), p)
            case Some(v) => Final(v) case None => Final(Reject)
  {
    MarkedHolds(p, mark);
    var last := [Rule([], Jump(Wd(Unknown)))];
    WalkUnknown(t, cfg, p, mark, stack);
    DecideAppend(When(mark == 0x253, Rules(cfg, AUTH_IS_DOWN)), Rules(cfg, UNKNOWN_USERS), p);
    if down {
      WalkLink(t, [Marked(MARK_AUTH_IS_DOWN)], AuthDown, Rules(cfg, AUTH_IS_DOWN), last, p, mark, stack);
      assert FilterTail(down) == [Rule([Marked(MARK_AUTH_IS_DOWN)], Jump(Wd(AuthDown)))] + last;
    } else {
      assert FilterTail(down) == last;
    }
  }

  lemma WalkBody(t: Table, cfg: Config, fw: Fw, rest: seq<Rule>, p: Packet, mark: int, stack: nat)
    requires stack > 0 && {Wd(Locked), Wd(Global), Wd(Validate), Wd(Known)} <= t.Keys
    requires t[Wd(Locked)] == FilterRules(Rules(cfg, LOCKED_USERS)) && t[Wd(Global)] == FilterRules(fw.globals)
    requires t[Wd(Validate)] == FilterRules(Rules(cfg, VALIDATING_USERS)) && t[Wd(Known)] == FilterRules(Rules(cfg, KNOWN_USERS))
    ensures Walk(t, FilterBody() + rest, p, mark, stack) ==
            match Decide(When(mark == 0x254, Rules(cfg, LOCKED_USERS)), p)
            case Some(v) => Final(v)
            case None => match Decide(fw.globals, p)
            case Some(v) => Final(v)
            case None => match Decide(When(mark == MARK_PROBATION, Rules(cfg, VALIDATING_USERS)), p)
            case Some(v) => Final(v)
            case None => match Decide(When(mark == MARK_KNOWN, Rules(cfg, KNOWN_USERS)), p)
            case Some(v) => Final(v)
            case None => Walk(t, rest, p, mark, stack)
  {
    MarkedHolds(p, mark);
    var locked, global := Rule([Marked(MARK_LOCKED)], Jump(Wd(Locked))), Rule([], Jump(Wd(Global)));
    var validate, known := Rule([Marked(MARK_PROBATION)], Jump(Wd(Validate))), Rule([Marked(MARK_KNOWN)], Jump(Wd(Known)));
    assert FilterBody() + rest == [locked] + ([global] + ([validate] + ([known] + rest)));
    WalkLink(t, locked.tests, Locked, Rules(cfg, LOCKED_USERS), [global] + ([validate] + ([known] + rest)), p, mark, stack);
    WalkLink(t, global.tests, Global, fw.globals, [validate] + ([known] + rest), p, mark, stack);
    WalkLink(t, validate.tests, Validate, Rules(cfg, VALIDATING_USERS), [known] + rest, p, mark, stack);
    WalkLink(t, known.tests, Known, Rules(cfg, KNOWN_USERS), rest, p, mark, stack);
  }

  lemma WalkHead(t: Table, ext: string, ips: seq<string>, rest: seq<Rule>, p: Packet, mark: int, stack: nat)
    requires stack > 0 && Wd(AuthServs) in t && t[Wd(AuthServs)] == Map(ServerRule, ips)
    ensures Walk(t, FilterHead(ext) + rest, p, mark, stack) ==
            if StateInvalid in p.facts then Final(Drop)
            else match Decide(Map(HostRule, ips), p) case Some(v) => Final(v) case None => Walk(t, rest, p, mark, stack)
  {
    var invalid, mss := Rule([StateInvalid], Drop), Rule([OutIface(ext), Proto("tcp"), SynOnly], ClampMss);
    var link := Rule([], Jump(Wd(AuthServs)));
    assert FilterHead(ext) + rest == [invalid] + ([mss] + ([link] + rest));
    HoldsOne(StateInvalid, p, mark);
    if StateInvalid !in p.facts {
      WalkSkip(t, invalid, [mss] + ([link] + rest), p, mark, stack);
      assert ([mss] + ([link] + rest))[1..] == [link] + rest;
      ServersAreHosts(ips);
      WalkLink(t, [], AuthServs, Map(HostRule, ips), rest, p, mark, stack);
    }
  }

  lemma ServersAreHosts(ips: seq<string>)
    ensures Map(ServerRule, ips) == FilterRules(Map(HostRule, ips))
  {
    forall i | 0 <= i < |ips| ensures ServerRule(ips[i]) == FilterRule(HostRule(ips[i])) {
      HostCompiles(ips[i]);
    }
  }

  lemma FlatDecision(cfg: Config, fw: Fw, p: Packet, mark: int)
    ensures Decide(FlatRules(cfg, fw, mark), p) ==
            match Decide(Map(HostRule, fw.ips), p)
            case Some(v) => Some(v)
            case None => match Decide(When(mark == 0x254, Rules(cfg, LOCKED_USERS)), p)
            case Some(v) => Some(v)
            case None => match Decide(fw.globals, p)
            case Some(v) => Some(v)
            case None => match Decide(When(mark == MARK_PROBATION, Rules(cfg, VALIDATING_USERS)), p)
            case Some(v) => Some(v)
            case None => match Decide(When(mark == MARK_KNOWN, Rules(cfg, KNOWN_USERS)), p)
            case Some(v) => Some(v)
            case None => Decide(When(mark == 0x253, Rules(cfg, AUTH_IS_DOWN)) + Rules(cfg, UNKNOWN_USERS), p)
  {
    var r5 := When(mark == 0x253, Rules(cfg, AUTH_IS_DOWN)) + Rules(cfg, UNKNOWN_USERS);
    var r4 := When(mark == MARK_KNOWN, Rules(cfg, KNOWN_USERS)) + r5;
    var r3 := When(mark == MARK_PROBATION, Rules(cfg, VALIDATING_USERS)) + r4;
    var r2 := fw.globals + r3;
    var r1 := When(mark == 0x254, Rules(cfg, LOCKED_USERS)) + r2;
    DecideAppend(Map(HostRule, fw.ips), r1, p);
    DecideAppend(When(mark == 0x254, Rules(cfg, LOCKED_USERS)), r2, p);
    DecideAppend(fw.globals, r3, p);
    DecideAppend(When(mark == MARK_PROBATION, Rules(cfg, VALIDATING_USERS)), r4, p);
    DecideAppend(When(mark == MARK_KNOWN, Rules(cfg, KNOWN_USERS)), r5, p);
  }

  lemma InternetMeansPolicy(cfg: Config, prior: Table, fw: Fw, p: Packet, mark: int, stack: nat)
    requires FORWARD in prior && cfg.extInterface.Some? && stack > 0
    ensures var t := FilterOf(cfg, HasAuthDown(cfg), prior, fw);
            Walk(t, t[Wd(Internet)], p, mark, stack) == Final(Policy(cfg, fw, p, mark))
  {
    var down, ext := HasAuthDown(cfg), cfg.extInterface.value;
    var t := FilterOf(cfg, down, prior, fw);
    var body := FilterBody() + FilterTail(down);
    assert t[Wd(Internet)] == FilterHead(ext) + body;
    WalkHead(t, ext, fw.ips, body, p, mark, stack);
    WalkBody(t, cfg, fw, FilterTail(down), p, mark, stack);
    WalkTail(t, cfg, down, p, mark, stack);
    FlatDecision(cfg, fw, p, mark);
  }

  /** For every configuration, state and packet from the gateway interface, the built filter
      table gives the flat policy's verdict, and always a final one: nothing after the hook
      in FORWARD is consulted. */
  lemma FilterMeansPolicy(cfg: Config, prior: Tables, fw: Fw, p: Packet, mark: int, stack: nat)
    requires Clean(cfg, prior) && cfg.extInterface.Some? && p.iface == cfg.gwInterface && stack >= 2
    ensures var t := Realise(cfg, prior, fw).filter;
            Walk(t, t[FORWARD], p, mark, stack) == Final(Policy(cfg, fw, p, mark))
  {
    var t := Realise(cfg, prior, fw).filter;
    HoldsOne(InIface(cfg.gwInterface), p, mark);
    WalkJump(t, FromGateway(cfg, Internet), prior.filter[FORWARD], p, mark, stack);
    InternetMeansPolicy(cfg, prior.filter, fw, p, mark, stack - 1);
  }

  // ----- The nat table: who is sent to the portal -----

  predicate ToRouter(cfg: Config, p: Packet) {
    cfg.gwAddress == "0.0.0.0/0" || Dst(cfg.gwAddress) in p.facts
  }

  predicate IsTcp80(p: Packet) {
    Proto("tcp") in p.facts && Dport("80") in p.facts
  }

  /** Some rule of the list accepts the packet. */
  predicate Whitelists(rules: seq<FwRule>, p: Packet) {
    exists i :: 0 <= i < |rules| && rules[i].target.TargetAccept? && Applies(rules[i], p)
  }

  predicate LoggedIn(mark: int) {
    mark == MARK_KNOWN || mark == MARK_PROBATION
  }

  /** The packets that are exempt from the portal. */
  predicate Exempt(cfg: Config, fw: Fw, p: Packet, mark: int) {
    || ToRouter(cfg, p)
    || LoggedIn(mark)
    || Whitelists(Map(HostRule, fw.ips), p)
    || Whitelists(fw.globals, p)
    || (HasAuthDown(cfg) && mark == 0x253)
  }

  predicate Captured(cfg: Config, fw: Fw, p: Packet, mark: int) {
    IsTcp80(p) && !Exempt(cfg, fw, p, mark)
  }

  predicate Proxied(cfg: Config, p: Packet, mark: int) {
    cfg.proxyPort != 0 && IsTcp80(p) && LoggedIn(mark) && !ToRouter(cfg, p)
  }

  function NatOutcome(cfg: Config, fw: Fw, p: Packet, mark: int): Outcome {
    if Captured(cfg, fw, p, mark) then Final(Redirect(cfg.gwPort))
    else if Proxied(cfg, p, mark) then Final(Redirect(cfg.proxyPort))
    else if Exempt(cfg, fw, p, mark) then Final(Accept)
    else Fall(mark)
  }

  /** In nat only ACCEPT rules decide, so the order of a ruleset does not matter. */
  lemma {:induction false} WalkNatRules(t: Table, rules: seq<FwRule>, p: Packet, mark: int, stack: nat)
    ensures Walk(t, NatRules(rules), p, mark, stack) == if Whitelists(rules, p) then Final(Accept) else Fall(mark)
  {
    WalkRules(t, Base.Filter(NatKeeps, rules), p, mark, stack);
    NatDecides(rules, p);
  }

  lemma {:induction false} NatDecides(rules: seq<FwRule>, p: Packet)
    ensures Decide(Base.Filter(NatKeeps, rules), p) == if Whitelists(rules, p) then Some(Accept) else None
  {
    if rules != [] {
      NatDecides(rules[1..], p);
      var head := if NatKeeps(rules[0]) then [rules[0]] else [];
      DecideAppend(head, Base.Filter(NatKeeps, rules[1..]), p);
      WhitelistsTail(rules, p);
    }
  }

  lemma WhitelistsTail(rules: seq<FwRule>, p: Packet)
    requires rules != []
    ensures Whitelists(rules, p) <==> (rules[0].target.TargetAccept? && Applies(rules[0], p)) || Whitelists(rules[1..], p)
  {
    if Whitelists(rules[1..], p) {
      var i :| 0 <= i < |rules[1..]| && rules[1..][i].target.TargetAccept? && Applies(rules[1..][i], p);
      assert rules[i + 1].target.TargetAccept? && Applies(rules[i + 1], p);
    }
    if Whitelists(rules, p) {
      var i :| 0 <= i < |rules| && rules[i].target.TargetAccept? && Applies(rules[i], p);
      assert i > 0 ==> rules[1..][i - 1] == rules[i];
    }
  }

  lemma WalkServers(t: Table, ips: seq<string>, p: Packet, mark: int, stack: nat)
    ensures Walk(t, Map(ServerRule, ips), p, mark, stack) ==
            if Whitelists(Map(HostRule, ips), p) then Final(Accept) else Fall(mark)
  {
    ServersAreHosts(ips);
    FilterAll(NatKeeps, Map(HostRule, ips));
    WalkNatRules(t, Map(HostRule, ips), p, mark, stack);
  }

  lemma Tcp80Holds(p: Packet, mark: int)
    ensures HoldsAll(TCP80, p, mark) <==> IsTcp80(p)
    ensures HoldsAll(TCP80 + [Marked(MARK_KNOWN)], p, mark) <==> IsTcp80(p) && mark == MARK_KNOWN
    ensures HoldsAll(TCP80 + [Marked(MARK_PROBATION)], p, mark) <==> IsTcp80(p) && mark == MARK_PROBATION
  {
    MarkedHolds(p, mark);
    assert TCP80 == [Proto("tcp")] + [Dport("80")];
    HoldsAppend([Proto("tcp")], [Dport("80")], p, mark);
    HoldsOne(Proto("tcp"), p, mark);
    HoldsOne(Dport("80"), p, mark);
    HoldsAppend(TCP80, [Marked(MARK_KNOWN)], p, mark);
    HoldsAppend(TCP80, [Marked(MARK_PROBATION)], p, mark);
  }

  /** The last rule of nat Unknown: the portal redirect. */
  lemma WalkPortal(t: Table, cfg: Config, p: Packet, mark: int, stack: nat)
    ensures Walk(t, [Rule(TCP80, Redirect(cfg.gwPort))], p, mark, stack) ==
            if IsTcp80(p) then Final(Redirect(cfg.gwPort)) else Fall(mark)
  {
    Tcp80Holds(p, mark);
    assert [Rule(TCP80, Redirect(cfg.gwPort))][1..] == [];
  }

  lemma WalkNatDown(t: Table, cfg: Config, down: bool, p: Packet, mark: int, stack: nat)
    requires stack > 0 && (down ==> Wd(AuthDown) in t && t[Wd(AuthDown)] == NAT_DOWN)
    ensures Walk(t, Optional(down, [Rule([], Jump(Wd(AuthDown)))]) + [Rule(TCP80, Redirect(cfg.gwPort))], p, mark, stack) ==
            if down && mark == 0x253 then Final(Accept)
            else if IsTcp80(p) then Final(Redirect(cfg.gwPort)) else Fall(mark)
  {
    var portal := [Rule(TCP80, Redirect(cfg.gwPort))];
    WalkPortal(t, cfg, p, mark, stack);
    if down {
      MarkedHolds(p, mark);
      WalkJump(t, Rule([], Jump(Wd(AuthDown))), portal, p, mark, stack);
      assert NAT_DOWN[1..] == [];
    } else {
      assert [] + portal == portal;
    }
  }

  lemma WalkNatUnknown(t: Table, cfg: Config, down: bool, fw: Fw, p: Packet, mark: int, stack: nat)
    requires stack > 0 && (down ==> Wd(AuthDown) in t && t[Wd(AuthDown)] == NAT_DOWN)
    requires Wd(AuthServs) in t && t[Wd(AuthServs)] == Map(ServerRule, fw.ips)
    requires Wd(Global) in t && t[Wd(Global)] == NatRules(fw.globals)
    ensures Walk(t, NatUnknown(cfg, down), p, mark, stack) ==
            if Whitelists(Map(HostRule, fw.ips), p) || Whitelists(fw.globals, p) || (down && mark == 0x253) then Final(Accept)
            else if IsTcp80(p) then Final(Redirect(cfg.gwPort)) else Fall(mark)
  {
    var servers, global := Rule([], Jump(Wd(AuthServs))), Rule([], Jump(Wd(Global)));
    var rest := Optional(down, [Rule([], Jump(Wd(AuthDown)))]) + [Rule(TCP80, Redirect(cfg.gwPort))];
    assert NatUnknown(cfg, down) == [servers] + ([global] + rest);
    WalkJump(t, servers, [global] + rest, p, mark, stack);
    WalkServers(t, fw.ips, p, mark, stack - 1);
    WalkJump(t, global, rest, p, mark, stack);
    WalkNatRules(t, fw.globals, p, mark, stack - 1);
    WalkNatDown(t, cfg, down, p, mark, stack);
  }

  const NAT_PLAIN := [Rule([Marked(MARK_KNOWN)], Accept), Rule([Marked(MARK_PROBATION)], Accept), Rule([], Jump(Wd(Unknown)))]

  lemma WalkNatPlain(t: Table, p: Packet, mark: int, stack: nat)
    requires stack > 0 && Wd(Unknown) in t
    ensures Walk(t, NAT_PLAIN, p, mark, stack) == if LoggedIn(mark) then Final(Accept) else Walk(t, t[Wd(Unknown)], p, mark, stack - 1)
  {
    MarkedHolds(p, mark);
    var known, probation := Rule([Marked(MARK_KNOWN)], Accept), Rule([Marked(MARK_PROBATION)], Accept);
    var link := Rule([], Jump(Wd(Unknown)));
    assert NAT_PLAIN == [known] + ([probation] + ([link] + []));
    if mark == MARK_KNOWN {
      WalkEnd(t, known, [probation] + ([link] + []), p, mark, stack);
    } else {
      WalkSkip(t, known, [probation] + ([link] + []), p, mark, stack);
      if mark == MARK_PROBATION {
        WalkEnd(t, probation, [link] + [], p, mark, stack);
      } else {
        WalkSkip(t, probation, [link] + [], p, mark, stack);
        WalkJump(t, link, [], p, mark, stack);
      }
    }
  }

  /** nat Internet up to the link to Unknown. */
  lemma WalkNatInternet(t: Table, cfg: Config, p: Packet, mark: int, stack: nat)
    requires stack > 0 && Wd(Unknown) in t
    ensures Walk(t, NatInternet(cfg), p, mark, stack) ==
            if LoggedIn(mark) then
              (if cfg.proxyPort != 0 && IsTcp80(p) then Final(Redirect(cfg.proxyPort)) else Final(Accept))
            else Walk(t, t[Wd(Unknown)], p, mark, stack - 1)
  {
    Tcp80Holds(p, mark);
    WalkNatPlain(t, p, mark, stack);
    if cfg.proxyPort == 0 {
      assert NatInternet(cfg) == NAT_PLAIN;
    } else {
      var known := Rule(TCP80 + [Marked(MARK_KNOWN)], Redirect(cfg.proxyPort));
      var probation := Rule(TCP80 + [Marked(MARK_PROBATION)], Redirect(cfg.proxyPort));
      assert NatInternet(cfg) == [known] + ([probation] + NAT_PLAIN);
      if IsTcp80(p) && mark == MARK_KNOWN {
        WalkEnd(t, known, [probation] + NAT_PLAIN, p, mark, stack);
      } else {
        WalkSkip(t, known, [probation] + NAT_PLAIN, p, mark, stack);
        if IsTcp80(p) && mark == MARK_PROBATION {
          WalkEnd(t, probation, NAT_PLAIN, p, mark, stack);
        } else {
          WalkSkip(t, probation, NAT_PLAIN, p, mark, stack);
        }
      }
    }
  }

  lemma WalkNatOutgoing(cfg: Config, prior: Table, fw: Fw, p: Packet, mark: int, stack: nat)
    requires PREROUTING in prior && stack >= 3
    ensures var t := NatOf(cfg, HasAuthDown(cfg), prior, fw);
            Walk(t, t[Wd(Outgoing)], p, mark, stack) == NatOutcome(cfg, fw, p, mark)
  {
    WalkNatBuilt(NatOf(cfg, HasAuthDown(cfg), prior, fw), cfg, fw, p, mark, stack);
  }

  /** A nat table that holds WiFiDog's chains, whatever else it holds. */
  ghost predicate NatBuilt(t: Table, cfg: Config, fw: Fw) {
    && {Wd(Outgoing), Wd(Router), Wd(Internet), Wd(Unknown), Wd(AuthServs), Wd(Global)} <= t.Keys
    && t[Wd(Outgoing)] == [Rule([Dst(cfg.gwAddress)], Jump(Wd(Router))), Rule([], Jump(Wd(Internet)))]
    && t[Wd(Router)] == [Rule([], Accept)]
    && t[Wd(Internet)] == NatInternet(cfg)
    && t[Wd(Unknown)] == NatUnknown(cfg, HasAuthDown(cfg))
    && t[Wd(AuthServs)] == Map(ServerRule, fw.ips)
    && t[Wd(Global)] == NatRules(fw.globals)
    && (HasAuthDown(cfg) ==> Wd(AuthDown) in t && t[Wd(AuthDown)] == NAT_DOWN)
  }

  lemma WalkNatBuilt(t: Table, cfg: Config, fw: Fw, p: Packet, mark: int, stack: nat)
    requires NatBuilt(t, cfg, fw) && stack >= 3
    ensures Walk(t, t[Wd(Outgoing)], p, mark, stack) == NatOutcome(cfg, fw, p, mark)
  {
    var router, internet := Rule([Dst(cfg.gwAddress)], Jump(Wd(Router))), Rule([], Jump(Wd(Internet)));
    assert t[Wd(Outgoing)] == [router] + ([internet] + []);
    HoldsOne(Dst(cfg.gwAddress), p, mark);
    if ToRouter(cfg, p) {
      WalkJump(t, router, [internet] + [], p, mark, stack);
    } else {
      WalkSkip(t, router, [internet] + [], p, mark, stack);
      WalkJump(t, internet, [], p, mark, stack);
      WalkNatInternet(t, cfg, p, mark, stack - 1);
      WalkNatUnknown(t, cfg, HasAuthDown(cfg), fw, p, mark, stack - 2);
    }
  }

  /** Nobody else's chain changes. */
  lemma ForeignKept(cfg: Config, prior: Tables, fw: Fw, id: TableId, c: Chain)
    requires Clean(cfg, prior) && cfg.extInterface.Some? && c in prior.Get(id) && c.Foreign?
    ensures c in Realise(cfg, prior, fw).Get(id) && Realise(cfg, prior, fw).Get(id)[c] == prior.Get(id)[c]
    ensures Closed(prior.Get(id), prior.Get(id)[c])
  {
  }

  /** A packet from the gateway interface that the earlier nat rules let fall through is
      redirected to the portal exactly when it is captured; otherwise it is proxied,
      accepted, or falls through. */
  lemma NatMeansPortal(cfg: Config, prior: Tables, fw: Fw, p: Packet, mark: int, m: int, stack: nat)
    requires Clean(cfg, prior) && cfg.extInterface.Some? && p.iface == cfg.gwInterface && stack >= 4
    requires NoReturn(prior.nats[PREROUTING])
    requires Walk(prior.nats, prior.nats[PREROUTING], p, mark, stack) == Fall(m)
    ensures var t := Realise(cfg, prior, fw).nats;
            Walk(t, t[PREROUTING], p, mark, stack) == NatOutcome(cfg, fw, p, m)
  {
    var t := Realise(cfg, prior, fw).nats;
    var hook := FromGateway(cfg, Outgoing);
    forall c | c in prior.nats && c.Foreign? {
      ForeignKept(cfg, prior, fw, Nat, c);
    }
    WalkSameTable(prior.nats, t, prior.nats[PREROUTING], p, mark, stack);
    WalkAppend(t, prior.nats[PREROUTING], [hook], p, mark, stack);
    HoldsOne(InIface(cfg.gwInterface), p, m);
    assert [hook] == [hook] + [];
    WalkJump(t, hook, [], p, m, stack);
    WalkNatOutgoing(cfg, prior.nats, fw, p, m, stack - 1);
  }

  predicate Passes(r: Rule) {
    r.target != Drop && r.target != Reject
  }

  /** nat Global is filter Global without its DROP and REJECT rules. */
  lemma GlobalsAgree(cfg: Config, prior: Tables, fw: Fw)
    requires Clean(cfg, prior) && cfg.extInterface.Some?
    ensures var t := Realise(cfg, prior, fw);
            t.nats[Wd(Global)] == Base.Filter(Passes, t.filter[Wd(Global)])
  {
    NatIsFiltered(fw.globals);
  }

  lemma {:induction false} NatIsFiltered(rules: seq<FwRule>)
    ensures NatRules(rules) == Base.Filter(Passes, FilterRules(rules))
  {
    if rules != [] {
      NatIsFiltered(rules[1..]);
      assert FilterRules(rules)[1..] == FilterRules(rules[1..]);
      var head := if NatKeeps(rules[0]) then [rules[0]] else [];
      assert Base.Filter(NatKeeps, rules) == head + Base.Filter(NatKeeps, rules[1..]);
      MapAppend(FilterRule, head, Base.Filter(NatKeeps, rules[1..]));
    }
  }

  /** A packet that filter accepts through Global is never captured by the portal. */
  lemma AcceptedGloballyIsNotCaptured(cfg: Config, fw: Fw, p: Packet, mark: int)
    requires Decide(fw.globals, p) == Some(Accept)
    ensures !Captured(cfg, fw, p, mark)
  {
    AcceptWhitelists(fw.globals, p);
  }

  lemma {:induction false} AcceptWhitelists(rules: seq<FwRule>, p: Packet)
    requires Decide(rules, p) == Some(Accept)
    ensures Whitelists(rules, p)
  {
    if rules[0].target.TargetAccept? && Applies(rules[0], p) {
    } else {
      AcceptWhitelists(rules[1..], p);
      WhitelistsTail(rules, p);
    }
  }

  // ----- The mangle table: which mark a packet carries -----

  /** The mark of the last client rule for ip and mac. */
  function LastMark(outgoing: seq<ClientMark>, ip: string, mac: string): Option<int> {
    if outgoing == [] then None
    else
      var c := outgoing[|outgoing| - 1];
      if c.ip == ip && c.mac == mac then Some(c.mark) else LastMark(outgoing[..|outgoing| - 1], ip, mac)
  }

  /** The mark a packet leaves WiFiDog's mangle hooks with. */
  function MarkOf(cfg: Config, fw: Fw, ip: string, mac: string, before: int): int {
    match LastMark(fw.outgoing, ip, mac)
    case Some(m) => m
    case None =>
      if mac in cfg.trustedMacs then MARK_KNOWN
      else if HasAuthDown(cfg) && fw.downs > 0 then 0x253
      else before
  }

  lemma WalkOneMark(t: Table, c: ClientMark, p: Packet, mark: int, stack: nat)
    ensures Walk(t, [MarkRule(c)], p, mark, stack) == Fall(if c.ip == p.src && c.mac == p.mac then c.mark else mark)
  {
    assert MarkRule(c).tests == [Src(c.ip)] + [MacSource(c.mac)];
    HoldsAppend([Src(c.ip)], [MacSource(c.mac)], p, mark);
    HoldsOne(Src(c.ip), p, mark);
    HoldsOne(MacSource(c.mac), p, mark);
    assert [MarkRule(c)][1..] == [];
  }

  lemma {:induction false} WalkOutgoing(t: Table, outgoing: seq<ClientMark>, p: Packet, mark: int, stack: nat)
    ensures Walk(t, Map(MarkRule, outgoing), p, mark, stack) ==
            Fall(match LastMark(outgoing, p.src, p.mac) case Some(m) => m case None => mark)
  {
    if outgoing != [] {
      var n := |outgoing| - 1;
      var c := outgoing[n];
      WalkOutgoing(t, outgoing[..n], p, mark, stack);
      assert outgoing == outgoing[..n] + [c];
      MapSnoc(MarkRule, outgoing[..n], c);
      WalkAppend(t, Map(MarkRule, outgoing[..n]), [MarkRule(c)], p, mark, stack);
      WalkOneMark(t, c, p, match LastMark(outgoing[..n], p.src, p.mac) case Some(m) => m case None => mark, stack);
    }
  }

  lemma {:induction false} WalkTrusted(t: Table, macs: seq<string>, p: Packet, mark: int, stack: nat)
    ensures Walk(t, Map(TrustedRule, macs), p, mark, stack) == Fall(if p.mac in macs then MARK_KNOWN else mark)
  {
    if macs != [] {
      HoldsOne(MacSource(macs[0]), p, mark);
      assert Map(TrustedRule, macs)[1..] == Map(TrustedRule, macs[1..]);
      WalkTrusted(t, macs[1..], p, MARK_KNOWN, stack);
      WalkTrusted(t, macs[1..], p, mark, stack);
    }
  }

  lemma {:induction false} WalkDowns(t: Table, fw: Fw, p: Packet, mark: int, stack: nat)
    ensures Walk(t, DownRules(fw), p, mark, stack) == Fall(if fw.downs > 0 then 0x253 else mark)
    decreases fw.downs
  {
    AsHexMarks();
    if fw.downs > 0 {
      assert DownRules(fw)[1..] == DownRules(fw.(downs := fw.downs - 1));
      WalkDowns(t, fw.(downs := fw.downs - 1), p, 0x253, stack);
    }
  }

  /** The hooks hand the packet on to the rules that were there before, with the mark of its
      client rule, else of its trusted MAC, else of the auth-down rule; and those rules then
      do what they did before WiFiDog was installed. */
  lemma MangleMeansMark(cfg: Config, prior: Tables, fw: Fw, p: Packet, before: int, stack: nat)
    requires Clean(cfg, prior) && cfg.extInterface.Some? && p.iface == cfg.gwInterface && stack >= 1
    ensures var t := Realise(cfg, prior, fw).mangle;
            Walk(t, t[PREROUTING], p, before, stack) ==
            Walk(prior.mangle, prior.mangle[PREROUTING], p, MarkOf(cfg, fw, p.src, p.mac, before), stack)
  {
    var t := Realise(cfg, prior, fw).mangle;
    forall c | c in prior.mangle && c.Foreign? {
      ForeignKept(cfg, prior, fw, Mangle, c);
    }
    WalkSameTable(prior.mangle, t, prior.mangle[PREROUTING], p, MarkOf(cfg, fw, p.src, p.mac, before), stack);
    WalkHooks(t, cfg, fw, prior.mangle[PREROUTING], p, before, stack);
  }

  lemma WalkHooks(t: Table, cfg: Config, fw: Fw, rest: seq<Rule>, p: Packet, before: int, stack: nat)
    requires p.iface == cfg.gwInterface && stack >= 1
    requires Wd(Trusted) in t && t[Wd(Trusted)] == Map(TrustedRule, cfg.trustedMacs)
    requires Wd(Outgoing) in t && t[Wd(Outgoing)] == Map(MarkRule, fw.outgoing)
    requires HasAuthDown(cfg) ==> Wd(AuthDown) in t && t[Wd(AuthDown)] == DownRules(fw)
    ensures Walk(t, Prerouting(cfg, HasAuthDown(cfg), rest), p, before, stack) ==
            Walk(t, rest, p, MarkOf(cfg, fw, p.src, p.mac, before), stack)
  {
    var trusted, outgoing := FromGateway(cfg, Trusted), FromGateway(cfg, Outgoing);
    var m := if HasAuthDown(cfg) && fw.downs > 0 then 0x253 else before;
    var m' := if p.mac in cfg.trustedMacs then MARK_KNOWN else m;
    HoldsOne(InIface(cfg.gwInterface), p, before);
    HoldsOne(InIface(cfg.gwInterface), p, m);
    HoldsOne(InIface(cfg.gwInterface), p, m');
    if HasAuthDown(cfg) {
      WalkJump(t, FromGateway(cfg, AuthDown), [trusted] + ([outgoing] + rest), p, before, stack);
      WalkDowns(t, fw, p, before, stack - 1);
    }
    WalkJump(t, trusted, [outgoing] + rest, p, m, stack);
    WalkTrusted(t, cfg.trustedMacs, p, m, stack - 1);
    WalkJump(t, outgoing, rest, p, m', stack);
    WalkOutgoing(t, fw.outgoing, p, m', stack - 1);
  }

  // ----- The mangle table on the way out: downloads are counted and let through -----

  lemma {:induction false} WalkIncoming(t: Table, ips: seq<string>, p: Packet, mark: int, stack: nat)
    ensures Walk(t, Map(IncomingRule, ips), p, mark, stack) ==
            if exists ip :: ip in ips && (ip == "0.0.0.0/0" || Dst(ip) in p.facts) then Final(Accept) else Fall(mark)
  {
    if ips != [] {
      HoldsOne(Dst(ips[0]), p, mark);
      assert Map(IncomingRule, ips) == [IncomingRule(ips[0])] + Map(IncomingRule, ips[1..]);
      WalkIncoming(t, ips[1..], p, mark, stack);
      assert ips[0] in ips;
      assert forall ip :: ip in ips <==> ip == ips[0] || ip in ips[1..];
    }
  }

  /** A packet that leaves by the gateway interface for an address that was granted is accepted
      there; every other packet goes on to the rules that were there before, with its mark. */
  lemma PostroutingAcceptsClients(cfg: Config, prior: Tables, fw: Fw, p: Packet, mark: int, stack: nat)
    requires Clean(cfg, prior) && cfg.extInterface.Some? && stack >= 1
    ensures var t := Realise(cfg, prior, fw).mangle;
            Walk(t, t[POSTROUTING], p, mark, stack) ==
            if OutIface(cfg.gwInterface) in p.facts
               && exists ip :: ip in fw.incoming && (ip == "0.0.0.0/0" || Dst(ip) in p.facts)
            then Final(Accept)
            else Walk(prior.mangle, prior.mangle[POSTROUTING], p, mark, stack)
  {
    var t, rest, hook := Realise(cfg, prior, fw).mangle, prior.mangle[POSTROUTING], ToGateway(cfg);
    forall c | c in prior.mangle && c.Foreign? {
      ForeignKept(cfg, prior, fw, Mangle, c);
    }
    WalkSameTable(prior.mangle, t, rest, p, mark, stack);
    HoldsOne(OutIface(cfg.gwInterface), p, mark);
    assert t[POSTROUTING] == [hook] + rest && t[Wd(Incoming)] == Map(IncomingRule, fw.incoming);
    if OutIface(cfg.gwInterface) in p.facts {
      WalkJump(t, hook, rest, p, mark, stack);
      WalkIncoming(t, fw.incoming, p, mark, stack - 1);
    } else {
      WalkSkip(t, hook, rest, p, mark, stack);
    }
  }

  /** Once a client is allowed, packets to its address that leave by the gateway interface are let
      through, and packets from its address and MAC go on with its mark. */
  lemma AllowTakesEffect(cfg: Config, prior: Tables, fw: Fw, ip: string, mac: string, mark: int, p: Packet, before: int, stack: nat)
    requires Clean(cfg, prior) && cfg.extInterface.Some? && stack >= 1
    ensures var t := Realise(cfg, prior, Edited(cfg, fw, AllowClient(ip, mac, mark))).mangle;
            && (OutIface(cfg.gwInterface) in p.facts && Dst(ip) in p.facts ==>
                  Walk(t, t[POSTROUTING], p, before, stack) == Final(Accept))
            && (p.iface == cfg.gwInterface && p.src == ip && p.mac == mac ==>
                  Walk(t, t[PREROUTING], p, before, stack) ==
                  Walk(prior.mangle, prior.mangle[PREROUTING], p, mark, stack))
  {
    var after := Edited(cfg, fw, AllowClient(ip, mac, mark));
    assert after.incoming[|fw.incoming|] == ip;
    PostroutingAcceptsClients(cfg, prior, after, p, before, stack);
    if p.iface == cfg.gwInterface && p.src == ip && p.mac == mac {
      MangleMeansMark(cfg, prior, after, p, before, stack);
    }
  }

  // ----- Packets of other interfaces -----

  /** A last rule that the packet can never match makes no difference. */
  lemma {:induction false} WalkSkipLast(t: Table, rules: seq<Rule>, r: Rule, p: Packet, mark: int, stack: nat)
    requires forall m :: !HoldsAll(r.tests, p, m)
    ensures Walk(t, rules + [r], p, mark, stack) == Walk(t, rules, p, mark, stack)
    decreases |rules|
  {
    if rules == [] {
      assert rules + [r] == [r] + [];
      WalkSkip(t, r, [], p, mark, stack);
    } else {
      assert (rules + [r])[1..] == rules[1..] + [r];
      forall m {
        WalkSkipLast(t, rules[1..], r, p, m, stack);
      }
    }
  }

  lemma OtherHook(cfg: Config, k: WdChain, p: Packet)
    requires p.iface != cfg.gwInterface
    ensures forall m :: !HoldsAll(FromGateway(cfg, k).tests, p, m)
  {
    forall m {
      HoldsOne(InIface(cfg.gwInterface), p, m);
    }
  }

  lemma OtherPrerouting(t: Table, cfg: Config, down: bool, rest: seq<Rule>, p: Packet, mark: int, stack: nat)
    requires p.iface != cfg.gwInterface
    ensures Walk(t, Prerouting(cfg, down, rest), p, mark, stack) == Walk(t, rest, p, mark, stack)
  {
    var trusted, outgoing := FromGateway(cfg, Trusted), FromGateway(cfg, Outgoing);
    OtherHook(cfg, AuthDown, p);
    OtherHook(cfg, Trusted, p);
    OtherHook(cfg, Outgoing, p);
    WalkSkip(t, outgoing, rest, p, mark, stack);
    WalkSkip(t, trusted, [outgoing] + rest, p, mark, stack);
    if down {
      WalkSkip(t, FromGateway(cfg, AuthDown), [trusted] + ([outgoing] + rest), p, mark, stack);
    }
  }

  /** The rules that were there before do the same among WiFiDog's chains. */
  lemma SameElsewhere(cfg: Config, prior: Tables, fw: Fw, id: TableId, hook: Chain, p: Packet, mark: int, stack: nat)
    requires Clean(cfg, prior) && cfg.extInterface.Some? && hook in prior.Get(id)
    ensures Walk(Realise(cfg, prior, fw).Get(id), prior.Get(id)[hook], p, mark, stack) ==
            Walk(prior.Get(id), prior.Get(id)[hook], p, mark, stack)
  {
    forall c | c in prior.Get(id) && c.Foreign? {
      ForeignKept(cfg, prior, fw, id, c);
    }
    WalkSameTable(prior.Get(id), Realise(cfg, prior, fw).Get(id), prior.Get(id)[hook], p, mark, stack);
  }

  lemma OtherMangle(cfg: Config, prior: Tables, fw: Fw, p: Packet, mark: int, stack: nat)
    requires Clean(cfg, prior) && cfg.extInterface.Some? && p.iface != cfg.gwInterface
    ensures var t := Realise(cfg, prior, fw).mangle;
            Walk(t, t[PREROUTING], p, mark, stack) == Walk(prior.mangle, prior.mangle[PREROUTING], p, mark, stack)
  {
    var t := Realise(cfg, prior, fw).mangle;
    SameElsewhere(cfg, prior, fw, Mangle, PREROUTING, p, mark, stack);
    OtherPrerouting(t, cfg, HasAuthDown(cfg), prior.mangle[PREROUTING], p, mark, stack);
  }

  lemma OtherNat(cfg: Config, prior: Tables, fw: Fw, p: Packet, mark: int, stack: nat)
    requires Clean(cfg, prior) && cfg.extInterface.Some? && p.iface != cfg.gwInterface
    ensures var t := Realise(cfg, prior, fw).nats;
            Walk(t, t[PREROUTING], p, mark, stack) == Walk(prior.nats, prior.nats[PREROUTING], p, mark, stack)
  {
    var t := Realise(cfg, prior, fw).nats;
    SameElsewhere(cfg, prior, fw, Nat, PREROUTING, p, mark, stack);
    OtherHook(cfg, Outgoing, p);
    WalkSkipLast(t, prior.nats[PREROUTING], FromGateway(cfg, Outgoing), p, mark, stack);
  }

  lemma OtherFilter(cfg: Config, prior: Tables, fw: Fw, p: Packet, mark: int, stack: nat)
    requires Clean(cfg, prior) && cfg.extInterface.Some? && p.iface != cfg.gwInterface
    ensures var t := Realise(cfg, prior, fw).filter;
            Walk(t, t[FORWARD], p, mark, stack) == Walk(prior.filter, prior.filter[FORWARD], p, mark, stack)
  {
    var t := Realise(cfg, prior, fw).filter;
    SameElsewhere(cfg, prior, fw, Filter, FORWARD, p, mark, stack);
    OtherHook(cfg, Internet, p);
    WalkSkip(t, FromGateway(cfg, Internet), prior.filter[FORWARD], p, mark, stack);
  }

  /** A packet from any other interface meets the rules that were there before and nothing else. */
  lemma OtherInterfacesUntouched(cfg: Config, prior: Tables, fw: Fw, p: Packet, mark: int, stack: nat)
    requires Clean(cfg, prior) && cfg.extInterface.Some? && p.iface != cfg.gwInterface
    ensures var t := Realise(cfg, prior, fw);
            && Walk(t.mangle, t.mangle[PREROUTING], p, mark, stack) == Walk(prior.mangle, prior.mangle[PREROUTING], p, mark, stack)
            && Walk(t.nats, t.nats[PREROUTING], p, mark, stack) == Walk(prior.nats, prior.nats[PREROUTING], p, mark, stack)
            && Walk(t.filter, t.filter[FORWARD], p, mark, stack) == Walk(prior.filter, prior.filter[FORWARD], p, mark, stack)
  {
    OtherMangle(cfg, prior, fw, p, mark, stack);
    OtherNat(cfg, prior, fw, p, mark, stack);
    OtherFilter(cfg, prior, fw, p, mark, stack);
  }
}
