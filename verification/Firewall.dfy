/** fw_iptables.c and firewall.c: the commands that build, edit and remove WiFiDog's chains. */
module Firewall {
  import opened Base
  import opened Config
  import opened Iptables

  const MARK_NONE := 0
  const MARK_PROBATION := 1
  const MARK_KNOWN := 2
  const MARK_AUTH_IS_DOWN := 253
  const MARK_LOCKED := 254

  /** What the kernel reads back from a "0x%u" argument: the decimal digits of n taken as
      hexadecimal ones, so 254 is matched as 0x254. */
  function AsHex(n: nat): nat {
    if n < 10 then n else 16 * AsHex(n / 10) + n % 10
  }


  // ----- Abstract firewall state -----

  /** A client rule of mangle Outgoing: packets from ip and mac get the mark. */
  datatype ClientMark = ClientMark(ip: string, mac: string, mark: int)

  /** Everything that changes in WiFiDog's chains after start-up. */
  datatype Fw = Fw(
    ips: seq<string>,            // AuthServs, both tables
    globals: seq<FwRule>,        // Global, filter table
    downs: nat,                  // how many rules mangle AuthDown holds
    outgoing: seq<ClientMark>,   // mangle Outgoing
    incoming: seq<string>)       // mangle Incoming

  function Fresh(cfg: Config, ips: seq<string>): Fw {
    Fw(ips, Rules(cfg, GLOBAL), 0, [], [])
  }

  /** iptables_fw_access with FW_ACCESS_ALLOW, then with FW_ACCESS_DENY. */
  function Grant(fw: Fw, ip: string, mac: string, mark: int): Fw {
    fw.(outgoing := fw.outgoing + [ClientMark(ip, mac, mark)], incoming := fw.incoming + [ip])
  }

  function Revoke(fw: Fw, ip: string, mac: string, mark: int): Fw {
    fw.(outgoing := RemoveFirst(fw.outgoing, ClientMark(ip, mac, mark)), incoming := RemoveFirst(fw.incoming, ip))
  }

  /** The global rule a host whitelisting amounts to. */
  function HostRule(host: string): FwRule {
    FwRule(TargetAccept, None, None, Some(host), false)
  }

  // ----- Compiling configured rules -----

  function RuleTests(r: FwRule): seq<Test> {
    (if r.mask.None? then [] else if r.maskIsIpset then [DstSet(r.mask.value)] else [Dst(r.mask.value)])
    + (if r.protocol.None? then [] else [Proto(r.protocol.value)])
    + (if r.port.None? then [] else [Dport(r.port.value)])
  }

  function RuleTarget(t: FwTarget): Target {
    match t
    case TargetDrop => Drop case TargetReject => Reject case TargetAccept => Accept
    case TargetLog => Log case TargetUlog => Ulog
  }

  function FilterRule(r: FwRule): Rule {
    Rule(RuleTests(r), RuleTarget(r.target))
  }

  predicate NatKeeps(r: FwRule) {
    !r.target.TargetDrop? && !r.target.TargetReject?
  }

  /** iptables_compile: the nat table has no DROP or REJECT (src/fw_iptables.c:139-195). */
  function Compile(id: TableId, r: FwRule): Option<Rule> {
    if id.Nat? && !NatKeeps(r) then None else Some(FilterRule(r))
  }

  function FilterRules(rs: seq<FwRule>): seq<Rule> {
    Map(FilterRule, rs)
  }

  function NatRules(rs: seq<FwRule>): seq<Rule> {
    Map(FilterRule, Base.Filter(NatKeeps, rs))
  }

  function CompileAll(id: TableId, rs: seq<FwRule>): seq<Rule> {
    if id.Nat? then NatRules(rs) else FilterRules(rs)
  }

  // ----- What the three tables hold -----

  function MarkRule(c: ClientMark): Rule {
    Rule([Src(c.ip), MacSource(c.mac)], SetMark(c.mark))
  }

  function IncomingRule(ip: string): Rule {
    Rule([Dst(ip)], Accept)
  }

  function TrustedRule(mac: string): Rule {
    Rule([MacSource(mac)], SetMark(MARK_KNOWN))
  }

  function ServerRule(ip: string): Rule {
    Rule([Dst(ip)], Accept)
  }

  function FromGateway(cfg: Config, k: WdChain): Rule {
    Rule([InIface(cfg.gwInterface)], Jump(Wd(k)))
  }

  function ToGateway(cfg: Config): Rule {
    Rule([OutIface(cfg.gwInterface)], Jump(Wd(Incoming)))
  }

  function Marked(mark: nat): Test {
    MarkIs(AsHex(mark))
  }

  function Optional<T>(c: bool, s: seq<T>): seq<T> {
    if c then s else []
  }

  function WithDown(down: bool, t: Table, rules: seq<Rule>): Table {
    if down then t[Wd(AuthDown) := rules] else t
  }

  const DOWN_RULE := Rule([], SetMark(AsHex(MARK_AUTH_IS_DOWN)))

  function DownRules(fw: Fw): seq<Rule> {
    seq(fw.downs, _ => DOWN_RULE)
  }

  /** Each hook was inserted at position 1, so the last one inserted is traversed first. */
  function Prerouting(cfg: Config, down: bool, prior: seq<Rule>): seq<Rule> {
    var hooked := [FromGateway(cfg, Trusted)] + ([FromGateway(cfg, Outgoing)] + prior);
    if down then [FromGateway(cfg, AuthDown)] + hooked else hooked
  }

  datatype MangleChains = MangleChains(
    prerouting: seq<Rule>, postrouting: seq<Rule>, trusted: seq<Rule>, outgoing: seq<Rule>, incoming: seq<Rule>,
    authDown: seq<Rule>)

  function MangleTable(down: bool, prior: Table, c: MangleChains): Table {
    WithDown(down, prior
      [Wd(Trusted) := c.trusted]
      [Wd(Outgoing) := c.outgoing]
      [Wd(Incoming) := c.incoming]
      [PREROUTING := c.prerouting]
      [POSTROUTING := c.postrouting],
      c.authDown)
  }

  function MangleChainsOf(cfg: Config, down: bool, prior: Table, fw: Fw): MangleChains
    requires PREROUTING in prior && POSTROUTING in prior
  {
    MangleChains(
      Prerouting(cfg, down, prior[PREROUTING]),
      [ToGateway(cfg)] + prior[POSTROUTING],
      Map(TrustedRule, cfg.trustedMacs),
      Map(MarkRule, fw.outgoing),
      Map(IncomingRule, fw.incoming),
      DownRules(fw))
  }

  function MangleOf(cfg: Config, down: bool, prior: Table, fw: Fw): Table
    requires PREROUTING in prior && POSTROUTING in prior
  {
    MangleTable(down, prior, MangleChainsOf(cfg, down, prior, fw))
  }

  const TCP80 := [Proto("tcp"), Dport("80")]

  function NatInternet(cfg: Config): seq<Rule> {
    Optional(cfg.proxyPort != 0,
             [Rule(TCP80 + [Marked(MARK_KNOWN)], Redirect(cfg.proxyPort)),
              Rule(TCP80 + [Marked(MARK_PROBATION)], Redirect(cfg.proxyPort))])
    + [Rule([Marked(MARK_KNOWN)], Accept),
       Rule([Marked(MARK_PROBATION)], Accept),
       Rule([], Jump(Wd(Unknown)))]
  }

  function NatUnknown(cfg: Config, down: bool): seq<Rule> {
    [Rule([], Jump(Wd(AuthServs))), Rule([], Jump(Wd(Global)))]
    + Optional(down, [Rule([], Jump(Wd(AuthDown)))])
    + [Rule(TCP80, Redirect(cfg.gwPort))]
  }

  const NAT_DOWN := [Rule([Marked(MARK_AUTH_IS_DOWN)], Accept)]

  datatype NatChains = NatChains(
    prerouting: seq<Rule>, outgoing: seq<Rule>, router: seq<Rule>, internet: seq<Rule>, unknown: seq<Rule>,
    authServs: seq<Rule>, global: seq<Rule>)

  function NatTable(down: bool, prior: Table, c: NatChains): Table {
    WithDown(down, prior
      [PREROUTING := c.prerouting]
      [Wd(Outgoing) := c.outgoing]
      [Wd(Router) := c.router]
      [Wd(Internet) := c.internet]
      [Wd(Unknown) := c.unknown]
      [Wd(AuthServs) := c.authServs]
      [Wd(Global) := c.global],
      NAT_DOWN)
  }

  function NatChainsOf(cfg: Config, down: bool, prior: Table, fw: Fw): NatChains
    requires PREROUTING in prior
  {
    NatChains(
      prior[PREROUTING] + [FromGateway(cfg, Outgoing)],
      [Rule([Dst(cfg.gwAddress)], Jump(Wd(Router))), Rule([], Jump(Wd(Internet)))],
      [Rule([], Accept)],
      NatInternet(cfg),
      NatUnknown(cfg, down),
      Map(ServerRule, fw.ips),
      NatRules(fw.globals))
  }

  function NatOf(cfg: Config, down: bool, prior: Table, fw: Fw): Table
    requires PREROUTING in prior
  {
    NatTable(down, prior, NatChainsOf(cfg, down, prior, fw))
  }

  function FilterHead(ext: string): seq<Rule> {
    [Rule([StateInvalid], Drop),
     Rule([OutIface(ext), Proto("tcp"), SynOnly], ClampMss),
     Rule([], Jump(Wd(AuthServs)))]
  }

  function FilterClasses(): seq<Rule> {
    [Rule([Marked(MARK_PROBATION)], Jump(Wd(Validate))), Rule([Marked(MARK_KNOWN)], Jump(Wd(Known)))]
  }

  function FilterBody(): seq<Rule> {
    [Rule([Marked(MARK_LOCKED)], Jump(Wd(Locked))), Rule([], Jump(Wd(Global)))] + FilterClasses()
  }

  function FilterTail(down: bool): seq<Rule> {
    Optional(down, [Rule([Marked(MARK_AUTH_IS_DOWN)], Jump(Wd(AuthDown)))]) + [Rule([], Jump(Wd(Unknown)))]
  }

  datatype FilterChains = FilterChains(
    forward: seq<Rule>, internet: seq<Rule>, authServs: seq<Rule>, locked: seq<Rule>, global: seq<Rule>,
    validate: seq<Rule>, known: seq<Rule>, unknown: seq<Rule>, authDown: seq<Rule>)

  function FilterTable(down: bool, prior: Table, c: FilterChains): Table {
    WithDown(down, prior
      [FORWARD := c.forward]
      [Wd(Internet) := c.internet]
      [Wd(AuthServs) := c.authServs]
      [Wd(Locked) := c.locked]
      [Wd(Global) := c.global]
      [Wd(Validate) := c.validate]
      [Wd(Known) := c.known]
      [Wd(Unknown) := c.unknown],
      c.authDown)
  }

  function FilterOf(cfg: Config, down: bool, prior: Table, fw: Fw): Table
    requires FORWARD in prior && cfg.extInterface.Some?
  {
    FilterTable(down, prior, FilterChainsOf(cfg, down, prior, fw))
  }

  function FilterChainsOf(cfg: Config, down: bool, prior: Table, fw: Fw): FilterChains
    requires FORWARD in prior && cfg.extInterface.Some?
  {
    FilterChains(
      [FromGateway(cfg, Internet)] + prior[FORWARD],
      FilterHead(cfg.extInterface.value) + FilterBody() + FilterTail(down),
      Map(ServerRule, fw.ips),
      FilterRules(Rules(cfg, LOCKED_USERS)),
      FilterRules(fw.globals),
      FilterRules(Rules(cfg, VALIDATING_USERS)),
      FilterRules(Rules(cfg, KNOWN_USERS)),
      FilterRules(Rules(cfg, UNKNOWN_USERS)) + [Rule([], Reject)],
      FilterRules(Rules(cfg, AUTH_IS_DOWN)))
  }

  /** Prior tables that have the kernel's hooks and do not mention WiFiDog's chains. */
  ghost predicate NoWdChain(t: Table) {
    forall c :: c in t ==> !c.Wd?
  }

  /** No rule of the list mentions a WiFiDog chain. */
  ghost predicate Unrelated(id: string, rules: seq<Rule>) {
    forall i, k {:trigger Mentions(id, rules[i], Wd(k))} :: 0 <= i < |rules| ==> !Mentions(id, rules[i], Wd(k))
  }

  /** No chain of the table already bears the name of one of WiFiDog's. */
  ghost predicate NamesFree(id: string, t: Table) {
    forall c, k {:trigger ChainText(id, c), Wd(k)} :: c in t ==> ChainText(id, c) != ChainText(id, Wd(k))
  }

  ghost predicate CleanTable(id: string, t: Table) {
    && NoWdChain(t)
    && NamesFree(id, t)
    && (forall c :: c in t ==> Unrelated(id, t[c]) && Closed(t, t[c]))
  }

  ghost predicate Clean(cfg: Config, prior: Tables) {
    && CleanTable(GatewayId(cfg), prior.mangle) && PREROUTING in prior.mangle && POSTROUTING in prior.mangle
    && CleanTable(GatewayId(cfg), prior.nats) && PREROUTING in prior.nats
    && CleanTable(GatewayId(cfg), prior.filter) && FORWARD in prior.filter
  }

  /** The interface name cut to fit a chain name (src/fw_iptables.c:84-88). */
  function GatewayId(cfg: Config): string {
    if |cfg.gwInterface| > 15 then cfg.gwInterface[..15] else cfg.gwInterface
  }

  /** The tables that stand for an abstract firewall state. */
  ghost function Realise(cfg: Config, prior: Tables, fw: Fw): Tables
    requires Clean(cfg, prior) && cfg.extInterface.Some?
  {
    Tables(MangleOf(cfg, HasAuthDown(cfg), prior.mangle, fw), NatOf(cfg, HasAuthDown(cfg), prior.nats, fw), FilterOf(cfg, HasAuthDown(cfg), prior.filter, fw))
  }
}
