/** iptables_fw_destroy: the way back to the tables that were there before. */
module FwTeardown {
  import opened Base
  import opened Config
  import opened Iptables
  import opened Firewall
  import opened FwSetup
  import opened FwEdits

  /** iptables_fw_destroy_mention: deletes by number the first listed rule that mentions the
      victim and starts over, so it ends with exactly the other rules in their order
      (src/fw_iptables.c:505-557). `spares` is the test on one line of the listing. */
  method DestroyMention(k: Kernel, table: TableId, chain: Chain, spares: Rule -> bool) returns (deleted: bool)
    requires chain in k.tables.Get(table)
    modifies k
    ensures k.tables == old(k.tables).Put(table, old(k.tables).Get(table)[chain := Base.Filter(spares, old(k.tables).Get(table)[chain])])
    ensures deleted <==> exists i :: 0 <= i < |old(k.tables).Get(table)[chain]| && !spares(old(k.tables).Get(table)[chain][i])
    decreases |k.tables.Get(table)[chain]|
  {
    var rules := k.tables.Get(table)[chain];
    var n := 0;
    while n < |rules| && spares(rules[n])
      invariant 0 <= n <= |rules|
      invariant forall i :: 0 <= i < n ==> spares(rules[i])
    {
      n := n + 1;
    }
    deleted := n < |rules|;
    if deleted {
      FilterDropAt(spares, rules, n);
      var _ := k.Do(table, DeleteAt(chain, n + 1));
      var _ := DestroyMention(k, table, chain, spares);
    } else {
      FilterAll(spares, rules);
    }
  }

  function UnmentionedAll(id: string, rules: seq<Rule>, victims: seq<WdChain>): seq<Rule>
    decreases |victims|
  {
    if victims == [] then rules else UnmentionedAll(id, Unmentioned(id, rules, Wd(victims[0])), victims[1..])
  }

  /** Hooks that each mention a victim vanish; rules that mention none keep their order. */
  lemma {:induction false} HooksVanish(id: string, front: seq<Rule>, prior: seq<Rule>, back: seq<Rule>, victims: seq<WdChain>)
    requires Unrelated(id, prior)
    requires forall r :: r in front || r in back ==> exists i :: 0 <= i < |victims| && Mentions(id, r, Wd(victims[i]))
    ensures UnmentionedAll(id, front + prior + back, victims) == prior
    decreases |victims|
  {
    if victims == [] {
      NoMembers(front);
      NoMembers(back);
      assert front + prior + back == prior;
    } else {
      var keep := Spares(id, Wd(victims[0]));
      FilterAppend(keep, front + prior, back);
      FilterAppend(keep, front, prior);
      FilterAll(keep, prior);
      var f, b := Base.Filter(keep, front), Base.Filter(keep, back);
      forall r | r in f || r in b
        ensures exists i :: 0 <= i < |victims[1..]| && Mentions(id, r, Wd(victims[1..][i]))
      {
        FilterMembers(keep, front, r);
        FilterMembers(keep, back, r);
        var i :| 0 <= i < |victims| && Mentions(id, r, Wd(victims[i]));
        assert victims[1..][i - 1] == victims[i];
      }
      HooksVanish(id, f, prior, b, victims[1..]);
    }
  }

  /** A table on its way back to prior: only WiFiDog chains are extra, those of `empty` hold
      nothing, and every prior chain outside `hooked` is as it was. */
  ghost predicate Leftover(t: Table, prior: Table, hooked: set<Chain>, full: set<WdChain>, empty: set<WdChain>) {
    && (forall c :: c in t <==> c in prior || (c.Wd? && c.kind in full + empty))
    && (forall c :: c in prior && c !in hooked ==> t[c] == prior[c])
    && (forall k :: k in empty ==> t[Wd(k)] == [])
  }

  /** All the destroy_mention calls on one hook chain. */
  method Unhook(k: Kernel, id: string, table: TableId, chain: Chain, victims: seq<WdChain>)
    requires chain in k.tables.Get(table)
    modifies k
    ensures k.tables == old(k.tables).Put(table, old(k.tables).Get(table)
        [chain := UnmentionedAll(id, old(k.tables).Get(table)[chain], victims)])
    decreases |victims|
  {
    ghost var all, t := k.tables, k.tables.Get(table);
    if victims != [] {
      var _ := DestroyMention(k, table, chain, Spares(id, Wd(victims[0])));
      ghost var kept := Base.Filter(Spares(id, Wd(victims[0])), t[chain]);
      Unhook(k, id, table, chain, victims[1..]);
      PutTwice(all, table, t, chain, kept, UnmentionedAll(id, kept, victims[1..]));
    } else {
      assert t[chain := t[chain]] == t;
    }
  }

  lemma PutTwice(all: Tables, table: TableId, t: Table, chain: Chain, a: seq<Rule>, b: seq<Rule>)
    requires t == all.Get(table)
    ensures all.Put(table, t[chain := a]).Put(table, all.Put(table, t[chain := a]).Get(table)[chain := b])
         == all.Put(table, t[chain := b])
  {
    assert t[chain := a][chain := b] == t[chain := b];
  }

  /** -F on a WiFiDog chain; refused without effect when the chain does not exist. */
  method FlushWd(k: Kernel, table: TableId, kind: WdChain, ghost prior: Table, ghost full: set<WdChain>, ghost empty: set<WdChain>)
    requires NoWdChain(prior) && Leftover(k.tables.Get(table), prior, {}, full, empty)
    modifies k
    ensures k.tables == old(k.tables).Put(table, k.tables.Get(table))
    ensures Leftover(k.tables.Get(table), prior, {}, full - {kind}, if kind in full then empty + {kind} else empty)
  {
    FlushLeftover(k.tables.Get(table), prior, full, empty, kind);
    var _ := k.Do(table, Flush(Wd(kind)));
  }

  lemma FlushLeftover(t: Table, prior: Table, full: set<WdChain>, empty: set<WdChain>, kind: WdChain)
    requires NoWdChain(prior) && Leftover(t, prior, {}, full, empty)
    ensures var t1 := if Wd(kind) in t then t[Wd(kind) := []] else t;
            Leftover(t1, prior, {}, full - {kind}, if kind in full then empty + {kind} else empty)
  {
  }

  /** -X on a flushed WiFiDog chain: it is refused only when the chain does not exist, since
      nothing refers to it any more. */
  method DropWd(k: Kernel, id: string, table: TableId, kind: WdChain, ghost prior: Table, ghost empty: set<WdChain>) returns (ok: bool)
    requires CleanTable(id, prior) && Leftover(k.tables.Get(table), prior, {}, {}, empty)
    modifies k
    ensures ok <==> kind in empty
    ensures k.tables == old(k.tables).Put(table, k.tables.Get(table))
    ensures Leftover(k.tables.Get(table), prior, {}, {}, empty - {kind})
  {
    assert !Referenced(k.tables.Get(table), Wd(kind)) by {
      forall d | d in k.tables.Get(table)
        ensures !JumpsTo(k.tables.Get(table)[d], Wd(kind))
      {
        assert d in prior ==> Closed(prior, prior[d]);
      }
    }
    ok := k.Do(table, DropChain(Wd(kind)));
  }

  ghost function Kinds(s: seq<WdChain>): set<WdChain> {
    set k | k in s
  }

  predicate Distinct(s: seq<WdChain>) {
    forall i, j :: 0 <= i < j < |s| ==> s[i] != s[j]
  }

  method FlushAll(k: Kernel, table: TableId, kinds: seq<WdChain>, ghost prior: Table, ghost full: set<WdChain>)
    requires NoWdChain(prior) && Leftover(k.tables.Get(table), prior, {}, full, {}) && full <= Kinds(kinds)
    modifies k
    ensures k.tables == old(k.tables).Put(table, k.tables.Get(table))
    ensures Leftover(k.tables.Get(table), prior, {}, {}, full)
  {
    var i := 0;
    while i < |kinds|
      invariant 0 <= i <= |kinds|
      invariant k.tables == old(k.tables).Put(table, k.tables.Get(table))
      invariant Leftover(k.tables.Get(table), prior, {}, full - Kinds(kinds[..i]), full * Kinds(kinds[..i]))
    {
      ghost var f, e := full - Kinds(kinds[..i]), full * Kinds(kinds[..i]);
      assert Kinds(kinds[..i + 1]) == Kinds(kinds[..i]) + {kinds[i]};
      FlushWd(k, table, kinds[i], prior, f, e);
      assert full - Kinds(kinds[..i + 1]) == f - {kinds[i]};
      assert full * Kinds(kinds[..i + 1]) == if kinds[i] in f then e + {kinds[i]} else e;
      i := i + 1;
    }
    assert kinds[..i] == kinds;
    assert full - Kinds(kinds) == {} && full * Kinds(kinds) == full;
  }

  /** Drops the flushed chains; when they all exist no command is refused. */
  method DropAll(k: Kernel, id: string, table: TableId, kinds: seq<WdChain>, ghost prior: Table, ghost empty: set<WdChain>) returns (ok: bool)
    requires CleanTable(id, prior) && Leftover(k.tables.Get(table), prior, {}, {}, empty) && empty <= Kinds(kinds)
    requires Distinct(kinds)
    modifies k
    ensures k.tables == old(k.tables).Put(table, prior)
    ensures empty == Kinds(kinds) ==> ok
  {
    var i := 0;
    ok := true;
    while i < |kinds|
      invariant 0 <= i <= |kinds|
      invariant k.tables == old(k.tables).Put(table, k.tables.Get(table))
      invariant Leftover(k.tables.Get(table), prior, {}, {}, empty - Kinds(kinds[..i]))
      invariant empty == Kinds(kinds) ==> ok
    {
      ghost var e := empty - Kinds(kinds[..i]);
      assert Kinds(kinds[..i + 1]) == Kinds(kinds[..i]) + {kinds[i]};
      assert kinds[i] !in kinds[..i];
      var done := DropWd(k, id, table, kinds[i], prior, e);
      ok := ok && done;
      assert empty - Kinds(kinds[..i + 1]) == e - {kinds[i]};
      i := i + 1;
    }
    assert kinds[..i] == kinds;
    assert empty - Kinds(kinds) == {};
    NothingLeft(k.tables.Get(table), prior);
  }

  lemma NothingLeft(t: Table, prior: Table)
    requires Leftover(t, prior, {}, {}, {})
    ensures t == prior
  {
  }

  function MangleKinds(down: bool): seq<WdChain> {
    [Trusted, Outgoing] + Optional(down, [AuthDown]) + [Incoming]
  }

  function NatKinds(down: bool): seq<WdChain> {
    [AuthServs, Outgoing] + Optional(down, [AuthDown]) + [Router, Internet, Global, Unknown]
  }

  function FilterKinds(down: bool): seq<WdChain> {
    [Internet, AuthServs, Locked, Global, Validate, Known, Unknown] + Optional(down, [AuthDown])
  }

  /** All of WiFiDog's chains of a table, or none of them, sit on top of prior. */
  ghost predicate Hooked(id: string, t: Table, prior: Table, chain: Chain, victims: seq<WdChain>, full: set<WdChain>)
    requires chain in prior
  {
    && Leftover(t, prior, {chain}, full, {})
    && UnmentionedAll(id, t[chain], victims) == prior[chain]
  }

  ghost predicate HookedMangle(id: string, t: Table, prior: Table, down: bool, full: set<WdChain>)
    requires PREROUTING in prior && POSTROUTING in prior
  {
    && Leftover(t, prior, {PREROUTING, POSTROUTING}, full, {})
    && UnmentionedAll(id, t[PREROUTING], MangleVictims(down)) == prior[PREROUTING]
    && UnmentionedAll(id, t[POSTROUTING], [Incoming]) == prior[POSTROUTING]
  }

  function MangleVictims(down: bool): seq<WdChain> {
    [Trusted, Outgoing] + Optional(down, [AuthDown])
  }

  ghost function AllOrNone(all: bool, kinds: seq<WdChain>): set<WdChain> {
    if all then Kinds(kinds) else {}
  }

  ghost predicate Installed(cfg: Config, t: Tables, prior: Tables, all: bool)
    requires Clean(cfg, prior)
  {
    var id, down := GatewayId(cfg), HasAuthDown(cfg);
    && HookedMangle(id, t.mangle, prior.mangle, down, AllOrNone(all, MangleKinds(down)))
    && Hooked(id, t.nats, prior.nats, PREROUTING, [Outgoing], AllOrNone(all, NatKinds(down)))
    && Hooked(id, t.filter, prior.filter, FORWARD, [Internet], AllOrNone(all, FilterKinds(down)))
  }

  lemma DistinctKinds(down: bool)
    ensures Distinct(MangleKinds(down)) && Distinct(NatKinds(down)) && Distinct(FilterKinds(down))
  {
  }

  /** One table's part of iptables_fw_destroy: unhook, flush everything, drop everything. */
  method DestroyTable(k: Kernel, id: string, table: TableId, chain: Chain, victims: seq<WdChain>, kinds: seq<WdChain>,
                      ghost prior: Table, ghost all: bool) returns (ok: bool)
    requires CleanTable(id, prior) && chain in prior
    requires Distinct(kinds)
    requires Hooked(id, k.tables.Get(table), prior, chain, victims, AllOrNone(all, kinds))
    modifies k
    ensures k.tables == old(k.tables).Put(table, prior)
    ensures all ==> ok
  {
    Unhook(k, id, table, chain, victims);
    FlushAll(k, table, kinds, prior, AllOrNone(all, kinds));
    ok := DropAll(k, id, table, kinds, prior, AllOrNone(all, kinds));
  }

  method DestroyMangle(k: Kernel, id: string, down: bool, ghost prior: Table, ghost all: bool) returns (ok: bool)
    requires CleanTable(id, prior) && PREROUTING in prior && POSTROUTING in prior
    requires HookedMangle(id, k.tables.mangle, prior, down, AllOrNone(all, MangleKinds(down)))
    modifies k
    ensures k.tables == old(k.tables).Put(Mangle, prior)
    ensures all ==> ok
  {
    DistinctKinds(down);
    Unhook(k, id, Mangle, PREROUTING, MangleVictims(down));
    ok := DestroyTable(k, id, Mangle, POSTROUTING, [Incoming], MangleKinds(down), prior, all);
  }

  method DestroyNatAndFilter(k: Kernel, id: string, down: bool, ghost nats: Table, ghost filter: Table, ghost all: bool) returns (ok: bool)
    requires CleanTable(id, nats) && PREROUTING in nats && CleanTable(id, filter) && FORWARD in filter
    requires Hooked(id, k.tables.nats, nats, PREROUTING, [Outgoing], AllOrNone(all, NatKinds(down)))
    requires Hooked(id, k.tables.filter, filter, FORWARD, [Internet], AllOrNone(all, FilterKinds(down)))
    modifies k
    ensures k.tables == Tables(old(k.tables).mangle, nats, filter)
    ensures all ==> ok
  {
    DistinctKinds(down);
    ok := DestroyTable(k, id, Nat, PREROUTING, [Outgoing], NatKinds(down), nats, all);
    var ok2 := DestroyTable(k, id, Filter, FORWARD, [Internet], FilterKinds(down), filter, all);
    ok := ok && ok2;
  }

  /** iptables_fw_destroy (src/fw_iptables.c:416-497): whatever is installed, prior comes back;
      and with every chain there, no -X is refused. */
  method FwDestroy(k: Kernel, cfg: Config, ghost prior: Tables, ghost all: bool) returns (ok: bool)
    requires Clean(cfg, prior) && Installed(cfg, k.tables, prior, all)
    modifies k
    ensures k.tables == prior
    ensures all ==> ok
  {
    var id, down := GatewayId(cfg), HasAuthDown(cfg);
    ok := DestroyMangle(k, id, down, prior.mangle, all);
    var ok2 := DestroyNatAndFilter(k, id, down, prior.nats, prior.filter, all);
    ok := ok && ok2;
  }

  // ----- Every realised state can be torn down -----

  ghost function DownKind(down: bool): set<WdChain> {
    if down then {AuthDown} else {}
  }

  lemma KindSets(down: bool)
    ensures Kinds(MangleKinds(down)) == {Trusted, Outgoing, Incoming} + DownKind(down)
    ensures Kinds(NatKinds(down)) == {AuthServs, Outgoing, Router, Internet, Global, Unknown} + DownKind(down)
    ensures Kinds(FilterKinds(down)) == {Internet, AuthServs, Locked, Global, Validate, Known, Unknown} + DownKind(down)
  {
  }

  lemma MangleLeftover(down: bool, prior: Table, c: MangleChains)
    requires NoWdChain(prior) && PREROUTING in prior && POSTROUTING in prior
    ensures Leftover(MangleTable(down, prior, c), prior, {PREROUTING, POSTROUTING}, {Trusted, Outgoing, Incoming} + DownKind(down), {})
  {
  }

  lemma NatLeftover(down: bool, prior: Table, c: NatChains)
    requires NoWdChain(prior) && PREROUTING in prior
    ensures Leftover(NatTable(down, prior, c), prior, {PREROUTING},
                     {AuthServs, Outgoing, Router, Internet, Global, Unknown} + DownKind(down), {})
  {
  }

  lemma FilterLeftover(down: bool, prior: Table, c: FilterChains)
    requires NoWdChain(prior) && FORWARD in prior
    ensures Leftover(FilterTable(down, prior, c), prior, {FORWARD},
                     {Internet, AuthServs, Locked, Global, Validate, Known, Unknown} + DownKind(down), {})
  {
  }

  lemma MangleLeftoverKinds(down: bool, prior: Table, c: MangleChains)
    requires NoWdChain(prior) && PREROUTING in prior && POSTROUTING in prior
    ensures Leftover(MangleTable(down, prior, c), prior, {PREROUTING, POSTROUTING}, Kinds(MangleKinds(down)), {})
  {
    KindSets(down);
    MangleLeftover(down, prior, c);
  }

  lemma NatLeftoverKinds(down: bool, prior: Table, c: NatChains)
    requires NoWdChain(prior) && PREROUTING in prior
    ensures Leftover(NatTable(down, prior, c), prior, {PREROUTING}, Kinds(NatKinds(down)), {})
  {
    KindSets(down);
    NatLeftover(down, prior, c);
  }

  lemma FilterLeftoverKinds(down: bool, prior: Table, c: FilterChains)
    requires NoWdChain(prior) && FORWARD in prior
    ensures Leftover(FilterTable(down, prior, c), prior, {FORWARD}, Kinds(FilterKinds(down)), {})
  {
    KindSets(down);
    FilterLeftover(down, prior, c);
  }

  lemma JumpVanishes(id: string, front: seq<Rule>, prior: seq<Rule>, back: seq<Rule>, victims: seq<WdChain>)
    requires Unrelated(id, prior)
    requires forall r :: r in front || r in back ==> r.target.Jump? && r.target.chain.Wd? && r.target.chain.kind in victims
    ensures UnmentionedAll(id, front + prior + back, victims) == prior
  {
    forall r | r in front || r in back
      ensures exists i :: 0 <= i < |victims| && Mentions(id, r, Wd(victims[i]))
    {
      JumpMentions(id, r);
      var i :| 0 <= i < |victims| && victims[i] == r.target.chain.kind;
      assert Mentions(id, r, Wd(victims[i]));
    }
    HooksVanish(id, front, prior, back, victims);
  }

  lemma TableHooked(id: string, t: Table, prior: Table, chain: Chain, front: seq<Rule>, back: seq<Rule>, victims: seq<WdChain>, full: set<WdChain>)
    requires chain in prior && Leftover(t, prior, {chain}, full, {})
    requires t[chain] == front + prior[chain] + back && Unrelated(id, prior[chain])
    requires forall r :: r in front || r in back ==> r.target.Jump? && r.target.chain.Wd? && r.target.chain.kind in victims
    ensures Hooked(id, t, prior, chain, victims, full)
  {
    JumpVanishes(id, front, prior[chain], back, victims);
  }

  lemma TwiceHooked(id: string, t: Table, prior: Table, front: seq<Rule>, post: seq<Rule>, down: bool, full: set<WdChain>)
    requires PREROUTING in prior && POSTROUTING in prior && Leftover(t, prior, {PREROUTING, POSTROUTING}, full, {})
    requires t[PREROUTING] == front + prior[PREROUTING] + [] && Unrelated(id, prior[PREROUTING])
    requires t[POSTROUTING] == post + prior[POSTROUTING] + [] && Unrelated(id, prior[POSTROUTING])
    requires forall r :: r in front ==> r.target.Jump? && r.target.chain.Wd? && r.target.chain.kind in MangleVictims(down)
    requires forall r :: r in post ==> r.target == Jump(Wd(Incoming))
    ensures HookedMangle(id, t, prior, down, full)
  {
    JumpVanishes(id, front, prior[PREROUTING], [], MangleVictims(down));
    JumpVanishes(id, post, prior[POSTROUTING], [], [Incoming]);
  }

  ghost predicate UnrelatedTable(id: string, t: Table) {
    forall c :: c in t ==> Unrelated(id, t[c])
  }

  lemma MangleHooked(cfg: Config, id: string, down: bool, prior: Table, c: MangleChains)
    requires NoWdChain(prior) && UnrelatedTable(id, prior) && PREROUTING in prior && POSTROUTING in prior
    requires c.prerouting == Prerouting(cfg, down, prior[PREROUTING]) && c.postrouting == [ToGateway(cfg)] + prior[POSTROUTING]
    ensures HookedMangle(id, MangleTable(down, prior, c), prior, down, Kinds(MangleKinds(down)))
  {
    MangleLeftoverKinds(down, prior, c);
    var front := Optional(down, [FromGateway(cfg, AuthDown)]) + [FromGateway(cfg, Trusted), FromGateway(cfg, Outgoing)];
    assert c.prerouting == front + prior[PREROUTING] + [];
    assert c.postrouting == [ToGateway(cfg)] + prior[POSTROUTING] + [];
    TwiceHooked(id, MangleTable(down, prior, c), prior, front, [ToGateway(cfg)], down, Kinds(MangleKinds(down)));
  }

  lemma NatHooked(id: string, down: bool, prior: Table, c: NatChains, hook: Rule)
    requires NoWdChain(prior) && UnrelatedTable(id, prior) && PREROUTING in prior
    requires c.prerouting == prior[PREROUTING] + [hook] && hook.target == Jump(Wd(Outgoing))
    ensures Hooked(id, NatTable(down, prior, c), prior, PREROUTING, [Outgoing], Kinds(NatKinds(down)))
  {
    NatLeftoverKinds(down, prior, c);
    HooksInPlace(down, prior, c);
    HookedLast(id, NatTable(down, prior, c), prior, PREROUTING, hook, Outgoing, Kinds(NatKinds(down)));
  }

  lemma HooksInPlace(down: bool, prior: Table, c: NatChains)
    requires PREROUTING in prior
    ensures PREROUTING in NatTable(down, prior, c) && NatTable(down, prior, c)[PREROUTING] == c.prerouting
  {
  }

  /** One hook behind, or in front of, the rules that were there. */
  lemma HookedLast(id: string, t: Table, prior: Table, chain: Chain, hook: Rule, kind: WdChain, full: set<WdChain>)
    requires chain in prior && Leftover(t, prior, {chain}, full, {}) && UnrelatedTable(id, prior)
    requires chain in t && t[chain] == prior[chain] + [hook] && hook.target == Jump(Wd(kind))
    ensures Hooked(id, t, prior, chain, [kind], full)
  {
    assert prior[chain] + [hook] == [] + prior[chain] + [hook];
    TableHooked(id, t, prior, chain, [], [hook], [kind], full);
  }

  lemma HookedFirst(id: string, t: Table, prior: Table, chain: Chain, hook: Rule, kind: WdChain, full: set<WdChain>)
    requires chain in prior && Leftover(t, prior, {chain}, full, {}) && UnrelatedTable(id, prior)
    requires chain in t && t[chain] == [hook] + prior[chain] && hook.target == Jump(Wd(kind))
    ensures Hooked(id, t, prior, chain, [kind], full)
  {
    assert [hook] + prior[chain] == [hook] + prior[chain] + [];
    TableHooked(id, t, prior, chain, [hook], [], [kind], full);
  }

  lemma ForwardInPlace(down: bool, prior: Table, c: FilterChains)
    requires FORWARD in prior
    ensures FORWARD in FilterTable(down, prior, c) && FilterTable(down, prior, c)[FORWARD] == c.forward
  {
  }

  lemma FilterHooked(id: string, down: bool, prior: Table, c: FilterChains, hook: Rule)
    requires NoWdChain(prior) && UnrelatedTable(id, prior) && FORWARD in prior
    requires c.forward == [hook] + prior[FORWARD] && hook.target == Jump(Wd(Internet))
    ensures Hooked(id, FilterTable(down, prior, c), prior, FORWARD, [Internet], Kinds(FilterKinds(down)))
  {
    FilterLeftoverKinds(down, prior, c);
    ForwardInPlace(down, prior, c);
    HookedFirst(id, FilterTable(down, prior, c), prior, FORWARD, hook, Internet, Kinds(FilterKinds(down)));
  }

  lemma RealisedIsInstalled(cfg: Config, prior: Tables, fw: Fw)
    requires Clean(cfg, prior) && cfg.extInterface.Some?
    ensures Installed(cfg, Realise(cfg, prior, fw), prior, true)
  {
    var id, down := GatewayId(cfg), HasAuthDown(cfg);
    MangleHooked(cfg, id, down, prior.mangle, MangleChainsOf(cfg, down, prior.mangle, fw));
    NatHooked(id, down, prior.nats, NatChainsOf(cfg, down, prior.nats, fw), FromGateway(cfg, Outgoing));
    FilterHooked(id, down, prior.filter, FilterChainsOf(cfg, down, prior.filter, fw), FromGateway(cfg, Internet));
  }

  /** The destroy at start-up finds nothing of ours and changes nothing. */
  lemma CleanIsInstalled(cfg: Config, prior: Tables)
    requires Clean(cfg, prior)
    ensures Installed(cfg, prior, prior, false)
  {
    var id, down := GatewayId(cfg), HasAuthDown(cfg);
    TwiceHooked(id, prior.mangle, prior.mangle, [], [], down, {});
    TableHooked(id, prior.nats, prior.nats, PREROUTING, [], [], [Outgoing], {});
    TableHooked(id, prior.filter, prior.filter, FORWARD, [], [], [Internet], {});
  }

  /** A whole life of the gateway on the firewall: the destroy and init of start-up, any
      edits, and the destroy of the shutdown. The tables end as they began, and the last
      destroy has no -X refused. */
  method Lifetime(k: Kernel, cfg: Config, last: seq<Option<string>>, edits: seq<Edit>) returns (ok: bool)
    requires Clean(cfg, k.tables)
    modifies k
    ensures k.tables == old(k.tables)
    ensures ok <==> cfg.extInterface.Some?
  {
    ghost var prior := k.tables;
    CleanIsInstalled(cfg, prior);
    var _ := FwDestroy(k, cfg, prior, false);
    ok := FwInit(k, cfg, last);
    if ok {
      ghost var fw := Fresh(cfg, KnownIps(last));
      ApplyAll(k, cfg, edits, prior, fw);
      RealisedIsInstalled(cfg, prior, EditedAll(cfg, fw, edits));
      ok := FwDestroy(k, cfg, prior, true);
    }
  }
}
