/** What the filter table does to a packet besides deciding about it: logging, and clamping the
    segment size of new connections. */
module FwNotes {
  import opened Base
  import opened Config
  import opened Iptables
  import opened Firewall
  import opened FwEdits
  import opened FwPolicy

  /** The matched targets that do not end a walk, in the order they are met. */
  function Noted(t: Table, rules: seq<Rule>, p: Packet, mark: int, stack: nat): seq<Target>
    decreases stack, |rules|
  {
    if rules == [] then []
    else if !HoldsAll(rules[0].tests, p, mark) then Noted(t, rules[1..], p, mark, stack)
    else match rules[0].target
      case SetMark(m) => Noted(t, rules[1..], p, m, stack)
      case Log => [Log] + Noted(t, rules[1..], p, mark, stack)
      case Ulog => [Ulog] + Noted(t, rules[1..], p, mark, stack)
      case ClampMss => [ClampMss] + Noted(t, rules[1..], p, mark, stack)
      case Jump(c) =>
        if stack == 0 || c !in t then []
        else Noted(t, t[c], p, mark, stack - 1)
             + (match Walk(t, t[c], p, mark, stack - 1)
                case Fall(m) => Noted(t, rules[1..], p, m, stack)
                case _ => [])
      case _ => []
  }

  /** What a configured ruleset logs: each applicable log rule before the rule that decides. */
  function Logged(rules: seq<FwRule>, p: Packet): seq<Target> {
    if rules == [] then []
    else if !Applies(rules[0], p) then Logged(rules[1..], p)
    else match rules[0].target
      case TargetLog => [Log] + Logged(rules[1..], p)
      case TargetUlog => [Ulog] + Logged(rules[1..], p)
      case _ => []
  }

  /** A ruleset, and what comes after it if it does not decide. */
  function LoggedThen(rules: seq<FwRule>, p: Packet, more: seq<Target>): seq<Target> {
    Logged(rules, p) + if Decide(rules, p).Some? then [] else more
  }

  lemma {:induction false} LoggedAppend(a: seq<FwRule>, b: seq<FwRule>, p: Packet, more: seq<Target>)
    ensures LoggedThen(a + b, p, more) == LoggedThen(a, p, LoggedThen(b, p, more))
  {
    if a == [] {
      assert a + b == b;
    } else {
      assert (a + b)[1..] == a[1..] + b;
      LoggedAppend(a[1..], b, p, more);
      LoggedFirst(a, p, LoggedThen(b, p, more));
      LoggedFirst(a + b, p, more);
    }
  }

  lemma LoggedFirst(rules: seq<FwRule>, p: Packet, more: seq<Target>)
    requires rules != []
    ensures var later := LoggedThen(rules[1..], p, more);
            LoggedThen(rules, p, more) ==
            if !Applies(rules[0], p) then later
            else if rules[0].target.TargetLog? then [Log] + later
            else if rules[0].target.TargetUlog? then [Ulog] + later
            else []
  {
  }

  lemma NotedRule(t: Table, r: FwRule, rest: seq<Rule>, p: Packet, mark: int, stack: nat)
    ensures Noted(t, [FilterRule(r)] + rest, p, mark, stack) == LoggedThen([r], p, Noted(t, rest, p, mark, stack))
  {
    TestsHold(r, p, mark);
    assert ([FilterRule(r)] + rest)[1..] == rest;
    assert [r][1..] == [];
    assert Logged([], p) == [] && Decide([], p) == None;
  }

  lemma {:induction false} NotedRules(t: Table, rules: seq<FwRule>, rest: seq<Rule>, p: Packet, mark: int, stack: nat)
    ensures Noted(t, FilterRules(rules) + rest, p, mark, stack) == LoggedThen(rules, p, Noted(t, rest, p, mark, stack))
  {
    if rules == [] {
      assert FilterRules(rules) + rest == rest;
    } else {
      var r, more := rules[0], rules[1..];
      assert rules == [r] + more;
      assert FilterRules(rules) + rest == [FilterRule(r)] + (FilterRules(more) + rest);
      NotedRule(t, r, FilterRules(more) + rest, p, mark, stack);
      NotedRules(t, more, rest, p, mark, stack);
      LoggedAppend([r], more, p, Noted(t, rest, p, mark, stack));
    }
  }

  /** A link to a compiled ruleset logs like the ruleset in place. */
  lemma NotedLink(t: Table, tests: seq<Test>, kind: WdChain, rules: seq<FwRule>, rest: seq<Rule>, p: Packet, mark: int, stack: nat)
    requires stack > 0 && Wd(kind) in t && t[Wd(kind)] == FilterRules(rules)
    ensures Noted(t, [Rule(tests, Jump(Wd(kind)))] + rest, p, mark, stack) ==
            LoggedThen(When(HoldsAll(tests, p, mark), rules), p, Noted(t, rest, p, mark, stack))
  {
    assert ([Rule(tests, Jump(Wd(kind)))] + rest)[1..] == rest;
    if HoldsAll(tests, p, mark) {
      assert FilterRules(rules) + [] == FilterRules(rules);
      NotedRules(t, rules, [], p, mark, stack - 1);
      WalkRules(t, rules, p, mark, stack - 1);
    }
  }

  lemma NotedUnknown(t: Table, cfg: Config, p: Packet, mark: int, stack: nat)
    requires stack > 0 && Wd(Unknown) in t && t[Wd(Unknown)] == FilterRules(Rules(cfg, UNKNOWN_USERS)) + [Rule([], Reject)]
    ensures Noted(t, [Rule([], Jump(Wd(Unknown)))], p, mark, stack) == LoggedThen(Rules(cfg, UNKNOWN_USERS), p, [])
  {
    assert [Rule([], Jump(Wd(Unknown)))][1..] == [];
    NotedRules(t, Rules(cfg, UNKNOWN_USERS), [Rule([], Reject)], p, mark, stack - 1);
  }

  lemma NotedTail(t: Table, cfg: Config, down: bool, p: Packet, mark: int, stack: nat)
    requires stack > 0 && Wd(Unknown) in t && t[Wd(Unknown)] == FilterRules(Rules(cfg, UNKNOWN_USERS)) + [Rule([], Reject)]
    requires down ==> Wd(AuthDown) in t && t[Wd(AuthDown)] == FilterRules(Rules(cfg, AUTH_IS_DOWN))
    requires down == HasAuthDown(cfg)
    ensures Noted(t, FilterTail(down), p, mark, stack) ==
            LoggedThen(When(mark == 0x253, Rules(cfg, AUTH_IS_DOWN)) + Rules(cfg, UNKNOWN_USERS), p, [])
  {
    MarkedHolds(p, mark);
    NotedUnknown(t, cfg, p, mark, stack);
    LoggedAppend(When(mark == 0x253, Rules(cfg, AUTH_IS_DOWN)), Rules(cfg, UNKNOWN_USERS), p, []);
    var last := [Rule([], Jump(Wd(Unknown)))];
    if down {
      NotedLink(t, [Marked(MARK_AUTH_IS_DOWN)], AuthDown, Rules(cfg, AUTH_IS_DOWN), last, p, mark, stack);
      assert FilterTail(down) == [Rule([Marked(MARK_AUTH_IS_DOWN)], Jump(Wd(AuthDown)))] + last;
    } else {
      assert FilterTail(down) == last;
    }
  }

  lemma NotedBody(t: Table, cfg: Config, fw: Fw, rest: seq<Rule>, p: Packet, mark: int, stack: nat)
    requires stack > 0 && {Wd(Locked), Wd(Global), Wd(Validate), Wd(Known)} <= t.Keys
    requires t[Wd(Locked)] == FilterRules(Rules(cfg, LOCKED_USERS)) && t[Wd(Global)] == FilterRules(fw.globals)
    requires t[Wd(Validate)] == FilterRules(Rules(cfg, VALIDATING_USERS)) && t[Wd(Known)] == FilterRules(Rules(cfg, KNOWN_USERS))
    ensures Noted(t, FilterBody() + rest, p, mark, stack) ==
            LoggedThen(When(mark == 0x254, Rules(cfg, LOCKED_USERS)), p,
            LoggedThen(fw.globals, p,
            LoggedThen(When(mark == MARK_PROBATION, Rules(cfg, VALIDATING_USERS)), p,
            LoggedThen(When(mark == MARK_KNOWN, Rules(cfg, KNOWN_USERS)), p,
            Noted(t, rest, p, mark, stack)))))
  {
    MarkedHolds(p, mark);
    var locked, global := Rule([Marked(MARK_LOCKED)], Jump(Wd(Locked))), Rule([], Jump(Wd(Global)));
    var validate, known := Rule([Marked(MARK_PROBATION)], Jump(Wd(Validate))), Rule([Marked(MARK_KNOWN)], Jump(Wd(Known)));
    assert FilterBody() + rest == [locked] + ([global] + ([validate] + ([known] + rest)));
    NotedLink(t, locked.tests, Locked, Rules(cfg, LOCKED_USERS), [global] + ([validate] + ([known] + rest)), p, mark, stack);
    NotedLink(t, global.tests, Global, fw.globals, [validate] + ([known] + rest), p, mark, stack);
    NotedLink(t, validate.tests, Validate, Rules(cfg, VALIDATING_USERS), [known] + rest, p, mark, stack);
    NotedLink(t, known.tests, Known, Rules(cfg, KNOWN_USERS), rest, p, mark, stack);
  }

  /** The packet opens a TCP connection towards the outside. */
  predicate OpensOutside(ext: string, p: Packet) {
    OutIface(ext) in p.facts && Proto("tcp") in p.facts && SynOnly in p.facts
  }

  function Clamped(ext: string, p: Packet): seq<Target> {
    if OpensOutside(ext, p) then [ClampMss] else []
  }

  lemma NotedHead(t: Table, ext: string, ips: seq<string>, rest: seq<Rule>, p: Packet, mark: int, stack: nat)
    requires stack > 0 && Wd(AuthServs) in t && t[Wd(AuthServs)] == Map(ServerRule, ips)
    ensures Noted(t, FilterHead(ext) + rest, p, mark, stack) ==
            if StateInvalid in p.facts then []
            else Clamped(ext, p) + LoggedThen(Map(HostRule, ips), p, Noted(t, rest, p, mark, stack))
  {
    var invalid, mss := Rule([StateInvalid], Drop), Rule([OutIface(ext), Proto("tcp"), SynOnly], ClampMss);
    var link := Rule([], Jump(Wd(AuthServs)));
    assert FilterHead(ext) + rest == [invalid] + ([mss] + ([link] + rest));
    HoldsOne(StateInvalid, p, mark);
    if StateInvalid !in p.facts {
      SynHolds(ext, p, mark);
      assert ([invalid] + ([mss] + ([link] + rest)))[1..] == [mss] + ([link] + rest);
      assert ([mss] + ([link] + rest))[1..] == [link] + rest;
      ServersAreHosts(ips);
      NotedLink(t, [], AuthServs, Map(HostRule, ips), rest, p, mark, stack);
    }
  }

  lemma SynHolds(ext: string, p: Packet, mark: int)
    ensures HoldsAll([OutIface(ext), Proto("tcp"), SynOnly], p, mark) <==> OpensOutside(ext, p)
  {
    assert [OutIface(ext), Proto("tcp"), SynOnly] == [OutIface(ext)] + ([Proto("tcp")] + [SynOnly]);
    HoldsAppend([OutIface(ext)], [Proto("tcp")] + [SynOnly], p, mark);
    HoldsAppend([Proto("tcp")], [SynOnly], p, mark);
    HoldsOne(OutIface(ext), p, mark);
    HoldsOne(Proto("tcp"), p, mark);
    HoldsOne(SynOnly, p, mark);
  }

  lemma FlatLogged(cfg: Config, fw: Fw, p: Packet, mark: int)
    ensures LoggedThen(FlatRules(cfg, fw, mark), p, []) ==
            LoggedThen(Map(HostRule, fw.ips), p,
            LoggedThen(When(mark == 0x254, Rules(cfg, LOCKED_USERS)), p,
            LoggedThen(fw.globals, p,
            LoggedThen(When(mark == MARK_PROBATION, Rules(cfg, VALIDATING_USERS)), p,
            LoggedThen(When(mark == MARK_KNOWN, Rules(cfg, KNOWN_USERS)), p,
            LoggedThen(When(mark == 0x253, Rules(cfg, AUTH_IS_DOWN)) + Rules(cfg, UNKNOWN_USERS), p, []))))))
  {
    var r5 := When(mark == 0x253, Rules(cfg, AUTH_IS_DOWN)) + Rules(cfg, UNKNOWN_USERS);
    var r4 := When(mark == MARK_KNOWN, Rules(cfg, KNOWN_USERS)) + r5;
    var r3 := When(mark == MARK_PROBATION, Rules(cfg, VALIDATING_USERS)) + r4;
    var r2 := fw.globals + r3;
    var r1 := When(mark == 0x254, Rules(cfg, LOCKED_USERS)) + r2;
    LoggedAppend(Map(HostRule, fw.ips), r1, p, []);
    LoggedAppend(When(mark == 0x254, Rules(cfg, LOCKED_USERS)), r2, p, []);
    LoggedAppend(fw.globals, r3, p, []);
    LoggedAppend(When(mark == MARK_PROBATION, Rules(cfg, VALIDATING_USERS)), r4, p, []);
    LoggedAppend(When(mark == MARK_KNOWN, Rules(cfg, KNOWN_USERS)), r5, p, []);
  }

  /** A filter table that holds WiFiDog's chains, whatever else it holds. */
  ghost predicate FilterBuilt(t: Table, cfg: Config, ext: string, fw: Fw) {
    && {Wd(Internet), Wd(AuthServs), Wd(Locked), Wd(Global), Wd(Validate), Wd(Known), Wd(Unknown)} <= t.Keys
    && t[Wd(Internet)] == FilterHead(ext) + (FilterBody() + FilterTail(HasAuthDown(cfg)))
    && t[Wd(AuthServs)] == Map(ServerRule, fw.ips)
    && t[Wd(Locked)] == FilterRules(Rules(cfg, LOCKED_USERS)) && t[Wd(Global)] == FilterRules(fw.globals)
    && t[Wd(Validate)] == FilterRules(Rules(cfg, VALIDATING_USERS)) && t[Wd(Known)] == FilterRules(Rules(cfg, KNOWN_USERS))
    && t[Wd(Unknown)] == FilterRules(Rules(cfg, UNKNOWN_USERS)) + [Rule([], Reject)]
    && (HasAuthDown(cfg) ==> Wd(AuthDown) in t && t[Wd(AuthDown)] == FilterRules(Rules(cfg, AUTH_IS_DOWN)))
  }

  lemma RealisedIsBuilt(cfg: Config, prior: Table, fw: Fw)
    requires FORWARD in prior && cfg.extInterface.Some?
    ensures FilterBuilt(FilterOf(cfg, HasAuthDown(cfg), prior, fw), cfg, cfg.extInterface.value, fw)
    ensures FilterOf(cfg, HasAuthDown(cfg), prior, fw)[FORWARD] == [FromGateway(cfg, Internet)] + prior[FORWARD]
  {
    var down := HasAuthDown(cfg);
    Assoc(FilterHead(cfg.extInterface.value), FilterBody(), FilterTail(down));
  }

  lemma NotedInternet(t: Table, cfg: Config, ext: string, fw: Fw, p: Packet, mark: int, stack: nat)
    requires FilterBuilt(t, cfg, ext, fw) && stack > 0
    ensures Noted(t, t[Wd(Internet)], p, mark, stack) ==
            if StateInvalid in p.facts then [] else Clamped(ext, p) + Logged(FlatRules(cfg, fw, mark), p)
  {
    var down := HasAuthDown(cfg);
    NotedHead(t, ext, fw.ips, FilterBody() + FilterTail(down), p, mark, stack);
    NotedBody(t, cfg, fw, FilterTail(down), p, mark, stack);
    NotedTail(t, cfg, down, p, mark, stack);
    FlatLogged(cfg, fw, p, mark);
  }

  /** A matching jump to a chain that decides notes what the chain notes. */
  lemma NotedHook(t: Table, r: Rule, rest: seq<Rule>, p: Packet, mark: int, stack: nat)
    requires HoldsAll(r.tests, p, mark) && r.target.Jump? && r.target.chain in t && stack > 0
    requires Walk(t, t[r.target.chain], p, mark, stack - 1).Final?
    ensures Noted(t, [r] + rest, p, mark, stack) == Noted(t, t[r.target.chain], p, mark, stack - 1)
  {
    assert ([r] + rest)[0] == r;
  }

  lemma NotedForward(t: Table, cfg: Config, rest: seq<Rule>, p: Packet, mark: int, stack: nat)
    requires p.iface == cfg.gwInterface && stack >= 2 && FORWARD in t && Wd(Internet) in t
    requires t[FORWARD] == [FromGateway(cfg, Internet)] + rest && Walk(t, t[Wd(Internet)], p, mark, stack - 1).Final?
    ensures Noted(t, t[FORWARD], p, mark, stack) == Noted(t, t[Wd(Internet)], p, mark, stack - 1)
  {
    HoldsOne(InIface(cfg.gwInterface), p, mark);
    NotedHook(t, FromGateway(cfg, Internet), rest, p, mark, stack);
  }

  lemma NotedFilter(cfg: Config, prior: Table, fw: Fw, p: Packet, mark: int, stack: nat)
    requires FORWARD in prior && cfg.extInterface.Some? && p.iface == cfg.gwInterface && stack >= 2
    ensures var t := FilterOf(cfg, HasAuthDown(cfg), prior, fw);
            Noted(t, t[FORWARD], p, mark, stack) ==
            if StateInvalid in p.facts then []
            else Clamped(cfg.extInterface.value, p) + Logged(FlatRules(cfg, fw, mark), p)
  {
    var t := FilterOf(cfg, HasAuthDown(cfg), prior, fw);
    RealisedIsBuilt(cfg, prior, fw);
    InternetMeansPolicy(cfg, prior, fw, p, mark, stack - 1);
    NotedInternet(t, cfg, cfg.extInterface.value, fw, p, mark, stack - 1);
    NotedForward(t, cfg, prior[FORWARD], p, mark, stack);
  }

  /** A packet from the gateway interface that is not invalid is logged by exactly the applicable
      LOG and ULOG rules that stand before the rule deciding about it in the flat policy, in that
      order; and exactly the packets that open a TCP connection towards the outside are clamped. */
  lemma FilterNotesPolicy(cfg: Config, prior: Tables, fw: Fw, p: Packet, mark: int, stack: nat)
    requires Clean(cfg, prior) && cfg.extInterface.Some? && p.iface == cfg.gwInterface && stack >= 2
    ensures var t, ext := Realise(cfg, prior, fw).filter, cfg.extInterface.value;
            Noted(t, t[FORWARD], p, mark, stack) ==
            if StateInvalid in p.facts then []
            else (if OutIface(ext) in p.facts && Proto("tcp") in p.facts && SynOnly in p.facts then [ClampMss] else [])
                 + Logged(FlatRules(cfg, fw, mark), p)
  {
    NotedFilter(cfg, prior.filter, fw, p, mark, stack);
  }
}
