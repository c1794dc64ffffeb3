/** The kernel's packet tables as a machine: named chains of rules, the editing commands
    of the iptables tool with their failure conditions, and first-match traversal. */
module Iptables {
  import opened Base

  /** The twelve chains WiFiDog creates (src/fw_iptables.h). */
  datatype WdChain =
    | Outgoing | Internet | Router | Incoming | AuthServs | Global
    | Validate | Known | Unknown | Locked | Trusted | AuthDown

  /** A kernel hook WiFiDog attaches to, another chain that is not its own, or one of its own. */
  datatype Chain = PREROUTING | POSTROUTING | FORWARD | Foreign(name: string) | Wd(kind: WdChain)

  datatype Test =
    | InIface(iface: string)
    | OutIface(iface: string)
    | Src(addr: string)
    | MacSource(mac: string)
    | Dst(mask: string)
    | DstSet(ipset: string)
    | Proto(proto: string)
    | Dport(ports: string)
    | StateInvalid
    | SynOnly
    | MarkIs(mark: int)

  datatype Target =
    | Accept | Drop | Reject | Redirect(port: int)
    | SetMark(mark: int) | Log | Ulog | ClampMss
    | Return | Jump(chain: Chain)

  datatype Rule = Rule(tests: seq<Test>, target: Target)

  type Table = map<Chain, seq<Rule>>

  datatype TableId = Mangle | Nat | Filter

  datatype Tables = Tables(mangle: Table, nats: Table, filter: Table) {
    function Get(id: TableId): Table {
      match id case Mangle => mangle case Nat => nats case Filter => filter
    }

    function Put(id: TableId, t: Table): Tables {
      match id
      case Mangle => this.(mangle := t)
      case Nat => this.(nats := t)
      case Filter => this.(filter := t)
    }
  }

  // ----- Editing commands -----

  datatype Op =
    | NewChain(chain: Chain)
    | Append(chain: Chain, rule: Rule)
    | InsertFirst(chain: Chain, rule: Rule)
    | DeleteRule(chain: Chain, rule: Rule)
    | DeleteAt(chain: Chain, number: int)
    | Flush(chain: Chain)
    | DropChain(chain: Chain)

  predicate JumpsTo(rules: seq<Rule>, c: Chain) {
    exists i :: 0 <= i < |rules| && rules[i].target == Jump(c)
  }

  predicate Referenced(t: Table, c: Chain) {
    exists d :: d in t && JumpsTo(t[d], c)
  }

  predicate Resolvable(t: Table, r: Rule) {
    r.target.Jump? ==> r.target.chain in t
  }

  /** The edited table, or None when the tool refuses the command and changes nothing. */
  function Edit(t: Table, op: Op): Option<Table> {
    match op
    case NewChain(c) => if c in t then None else Some(t[c := []])
    case Append(c, r) => if c in t && Resolvable(t, r) then Some(t[c := t[c] + [r]]) else None
    case InsertFirst(c, r) => if c in t && Resolvable(t, r) then Some(t[c := [r] + t[c]]) else None
    case DeleteRule(c, r) => if c in t && r in t[c] then Some(t[c := RemoveFirst(t[c], r)]) else None
    case DeleteAt(c, n) =>
      if c in t && 1 <= n <= |t[c]| then Some(t[c := t[c][..n - 1] + t[c][n..]]) else None
    case Flush(c) => if c in t then Some(t[c := []]) else None
    case DropChain(c) => if c in t && t[c] == [] && !Referenced(t, c) then Some(t - {c}) else None
  }

  /** A table with rules appended to one of its chains. */
  function Extend(t: Table, c: Chain, rules: seq<Rule>): Table
    requires c in t
  {
    t[c := t[c] + rules]
  }

  lemma ExtendNone(t: Table, c: Chain)
    requires c in t
    ensures Extend(t, c, []) == t
  {
    assert t[c] + [] == t[c];
  }

  lemma ExtendTwice(t: Table, c: Chain, a: seq<Rule>, b: seq<Rule>)
    requires c in t
    ensures Extend(Extend(t, c, a), c, b) == Extend(t, c, a + b)
  {
    assert t[c] + a + b == t[c] + (a + b);
  }

  /** The running kernel: every method of the firewall layer edits it command by command. */
  class Kernel {
    var tables: Tables

    constructor (initial: Tables)
      ensures tables == initial
    {
      tables := initial;
    }

    /** One iptables command (src/fw_iptables.c:97-129). */
    method Do(id: TableId, op: Op) returns (ok: bool)
      modifies this
      ensures ok == Edit(old(tables).Get(id), op).Some?
      ensures ok ==> tables == old(tables).Put(id, Edit(old(tables).Get(id), op).value)
      ensures !ok ==> tables == old(tables)
    {
      match Edit(tables.Get(id), op) {
        case Some(t) =>
          tables := tables.Put(id, t);
          ok := true;
        case None =>
          ok := false;
      }
    }

    // The same commands where they are proved never to be refused.

    method New(id: TableId, c: Chain)
      requires c !in tables.Get(id)
      modifies this
      ensures tables == old(tables).Put(id, old(tables).Get(id)[c := []])
    {
      var _ := Do(id, NewChain(c));
    }

    method Add(id: TableId, c: Chain, r: Rule)
      requires c in tables.Get(id) && Resolvable(tables.Get(id), r)
      modifies this
      ensures tables == old(tables).Put(id, Extend(old(tables).Get(id), c, [r]))
    {
      var _ := Do(id, Append(c, r));
    }

    method Insert(id: TableId, c: Chain, r: Rule)
      requires c in tables.Get(id) && Resolvable(tables.Get(id), r)
      modifies this
      ensures tables == old(tables).Put(id, old(tables).Get(id)[c := [r] + old(tables).Get(id)[c]])
    {
      var _ := Do(id, InsertFirst(c, r));
    }

    method Clear(id: TableId, c: Chain)
      requires c in tables.Get(id)
      modifies this
      ensures tables == old(tables).Put(id, old(tables).Get(id)[c := []])
    {
      var _ := Do(id, Flush(c));
    }

    /** -D with a rule: the first equal rule goes; without one the refusal changes nothing. */
    method Forget(id: TableId, c: Chain, r: Rule)
      requires c in tables.Get(id)
      modifies this
      ensures tables == old(tables).Put(id, old(tables).Get(id)[c := RemoveFirst(old(tables).Get(id)[c], r)])
    {
      ghost var t := tables.Get(id);
      assert t[c := t[c]] == t;
      var _ := Do(id, DeleteRule(c, r));
    }
  }

  // ----- Traversal -----

  /** A packet: its interface, source and MAC, and the other atomic tests it satisfies. */
  datatype Packet = Packet(iface: string, src: string, mac: string, facts: set<Test>)

  predicate Holds(t: Test, p: Packet, mark: int) {
    match t
    case InIface(i) => i == p.iface
    case Src(a) => a == p.src
    case MacSource(m) => m == p.mac
    case MarkIs(m) => m == mark
    case Dst(mask) => mask == "0.0.0.0/0" || t in p.facts
    case _ => t in p.facts
  }

  predicate HoldsAll(tests: seq<Test>, p: Packet, mark: int) {
    forall i :: 0 <= i < |tests| ==> Holds(tests[i], p, mark)
  }

  /** How a list of rules ends for a packet: a final target, or running off the end
      (or hitting RETURN) with the mark the packet then carries. Overflow means the
      traversal needed a deeper jump stack than it was given. */
  datatype Outcome = Final(verdict: Target) | Fall(mark: int) | Overflow

  /** First-match traversal with a jump stack of the given depth. MARK, LOG, ULOG and
      TCPMSS do not end the traversal. */
  function Walk(t: Table, rules: seq<Rule>, p: Packet, mark: int, stack: nat): Outcome
    decreases stack, |rules|
  {
    if rules == [] then Fall(mark)
    else if !HoldsAll(rules[0].tests, p, mark) then Walk(t, rules[1..], p, mark, stack)
    else match rules[0].target
      case SetMark(m) => Walk(t, rules[1..], p, m, stack)
      case Log => Walk(t, rules[1..], p, mark, stack)
      case Ulog => Walk(t, rules[1..], p, mark, stack)
      case ClampMss => Walk(t, rules[1..], p, mark, stack)
      case Return => Fall(mark)
      case Jump(c) =>
        if stack == 0 || c !in t then Overflow
        else (match Walk(t, t[c], p, mark, stack - 1)
              case Fall(m) => Walk(t, rules[1..], p, m, stack)
              case o => o)
      case v => Final(v)
  }

  lemma HoldsOne(x: Test, p: Packet, mark: int)
    ensures HoldsAll([x], p, mark) <==> Holds(x, p, mark)
  {
    assert [x][0] == x;
  }

  /** A rule that does not match is skipped. */
  lemma WalkSkip(t: Table, r: Rule, rest: seq<Rule>, p: Packet, mark: int, stack: nat)
    requires !HoldsAll(r.tests, p, mark)
    ensures Walk(t, [r] + rest, p, mark, stack) == Walk(t, rest, p, mark, stack)
  {
    assert ([r] + rest)[1..] == rest;
  }

  /** A matching rule with a final target ends the traversal. */
  lemma WalkEnd(t: Table, r: Rule, rest: seq<Rule>, p: Packet, mark: int, stack: nat)
    requires HoldsAll(r.tests, p, mark)
    requires r.target.Accept? || r.target.Drop? || r.target.Reject? || r.target.Redirect?
    ensures Walk(t, [r] + rest, p, mark, stack) == Final(r.target)
  {
  }

  /** A matching jump runs the chain and, if that falls through, goes on with its mark. */
  lemma WalkJump(t: Table, r: Rule, rest: seq<Rule>, p: Packet, mark: int, stack: nat)
    requires HoldsAll(r.tests, p, mark) && r.target.Jump? && r.target.chain in t && stack > 0
    ensures Walk(t, [r] + rest, p, mark, stack) ==
            match Walk(t, t[r.target.chain], p, mark, stack - 1)
            case Fall(m) => Walk(t, rest, p, m, stack)
            case o => o
  {
    assert ([r] + rest)[1..] == rest;
  }

  predicate NoReturn(rules: seq<Rule>) {
    forall i :: 0 <= i < |rules| ==> rules[i].target != Return
  }

  /** A list of rules may be traversed in two pieces. */
  lemma {:induction false} WalkAppend(t: Table, a: seq<Rule>, b: seq<Rule>, p: Packet, mark: int, stack: nat)
    requires NoReturn(a)
    ensures Walk(t, a + b, p, mark, stack) ==
            match Walk(t, a, p, mark, stack) case Fall(m) => Walk(t, b, p, m, stack) case o => o
    decreases |a|
  {
    if a == [] {
      assert a + b == b;
    } else {
      assert (a + b)[1..] == a[1..] + b;
      forall m {
        WalkAppend(t, a[1..], b, p, m, stack);
      }
    }
  }

  /** Rules that can only reach chains on which two tables agree behave alike in both. */
  lemma {:induction false} WalkSameTable(t: Table, u: Table, rules: seq<Rule>, p: Packet, mark: int, stack: nat)
    requires Closed(t, rules)
    requires forall c :: c in t && c.Foreign? ==> c in u && u[c] == t[c] && Closed(t, t[c])
    ensures Walk(u, rules, p, mark, stack) == Walk(t, rules, p, mark, stack)
    decreases stack, |rules|
  {
    if rules != [] {
      assert Closed(t, rules[1..]);
      forall m {
        WalkSameTable(t, u, rules[1..], p, m, stack);
      }
      if rules[0].target.Jump? && stack > 0 {
        WalkSameTable(t, u, t[rules[0].target.chain], p, mark, stack - 1);
      }
    }
  }

  /** Every jump in the list goes to an existing chain that is neither a hook nor WiFiDog's. */
  predicate Closed(t: Table, rules: seq<Rule>) {
    forall i :: 0 <= i < |rules| && rules[i].target.Jump? ==> rules[i].target.chain in t && rules[i].target.chain.Foreign?
  }

  // ----- Listings -----

  predicate Contains(s: string, sub: string) {
    exists i :: 0 <= i <= |s| && sub <= s[i..]
  }

  function ChainText(id: string, c: Chain): string {
    match c
    case PREROUTING => "PREROUTING"
    case POSTROUTING => "POSTROUTING"
    case FORWARD => "FORWARD"
    case Foreign(n) => n
    case Wd(k) => "WD_" + id + "_" + KindText(k)
  }

  function KindText(k: WdChain): string {
    match k
    case Outgoing => "Outgoing" case Internet => "Internet" case Router => "Router"
    case Incoming => "Incoming" case AuthServs => "AuthServs" case Global => "Global"
    case Validate => "Validate" case Known => "Known" case Unknown => "Unknown"
    case Locked => "Locked" case Trusted => "Trusted" case AuthDown => "AuthDown"
  }

  function TestText(t: Test): string {
    match t
    case InIface(x) => x case OutIface(x) => x case Src(x) => x case MacSource(x) => x
    case Dst(x) => x case DstSet(x) => x case Proto(x) => x case Dport(x) => x
    case StateInvalid => "INVALID" case SynOnly => "SYN" case MarkIs(_) => "mark"
  }

  function TestsText(ts: seq<Test>): string {
    if ts == [] then "" else TestText(ts[0]) + " " + TestsText(ts[1..])
  }

  function TargetText(id: string, t: Target): string {
    match t
    case Accept => "ACCEPT" case Drop => "DROP" case Reject => "REJECT" case Redirect(_) => "REDIRECT"
    case SetMark(_) => "MARK" case Log => "LOG" case Ulog => "ULOG" case ClampMss => "TCPMSS"
    case Return => "RETURN" case Jump(c) => ChainText(id, c)
  }

  /** The words of one line of `iptables -L -n -v`: target first, then the tests. */
  function ListingLine(id: string, r: Rule): string {
    TargetText(id, r.target) + " " + TestsText(r.tests)
  }

  /** strstr over the listing line (src/fw_iptables.c:530). */
  predicate Mentions(id: string, r: Rule, victim: Chain) {
    Contains(ListingLine(id, r), ChainText(id, victim))
  }

  lemma JumpMentions(id: string, r: Rule)
    requires r.target.Jump?
    ensures Mentions(id, r, r.target.chain)
  {
    var line, name := ListingLine(id, r), ChainText(id, r.target.chain);
    assert name <= line[0..];
  }

  function Spares(id: string, victim: Chain): Rule -> bool {
    (r: Rule) => !Mentions(id, r, victim)
  }

  /** The rules of a list that do not mention the victim, in order. */
  function Unmentioned(id: string, rules: seq<Rule>, victim: Chain): seq<Rule> {
    Base.Filter(Spares(id, victim), rules)
  }
}
