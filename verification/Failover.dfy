/** Trying the auth servers in turn (src/centralserver.c:174-345, src/conf.c:1057-1073). */
module Failover {
  import opened Base
  import opened Config
  import opened Iptables
  import opened Firewall
  import opened FwSetup
  import opened FwEdits

  datatype Server = Server(hostname: string, last: Option<string>)

  /** What the network answers to one attempt. */
  datatype Socket = NoSocket | Refused | Accepted(fd: nat)
  datatype Answer = NoAddress(popular: seq<bool>) | Address(ip: string, socket: Socket)

  /** The server is blamed and the next one is tried. */
  predicate Bad(a: Answer) {
    if a.NoAddress? then true in a.popular else a.socket.Refused?
  }

  /** What an attempt leaves in the server's record. */
  function Touched(s: Server, a: Answer): Server {
    match a
    case NoAddress(popular) => if true in popular then s.(last := None) else s
    case Address(ip, _) => s.(last := Some(ip))
  }

  function Rotated(servers: seq<Server>): seq<Server> {
    if servers == [] then [] else servers[1..] + [servers[0]]
  }

  function Lasts(servers: seq<Server>): (r: seq<Option<string>>)
    ensures |r| == |servers| && forall i :: 0 <= i < |servers| ==> r[i] == servers[i].last
  {
    if servers == [] then [] else [servers[0].last] + Lasts(servers[1..])
  }

  /** Every address that is known is in the whitelist. */
  predicate Whitelisted(servers: seq<Server>, ips: seq<string>) {
    forall i :: 0 <= i < |servers| && servers[i].last.Some? && servers[i].last.value != "0.0.0.0" ==>
      servers[i].last.value in ips
  }

  lemma {:induction false} KnownAreListed(last: seq<Option<string>>, i: nat)
    requires i < |last| && last[i].Some? && last[i].value != "0.0.0.0"
    ensures last[i].value in KnownIps(last)
  {
    if i > 0 {
      KnownAreListed(last[1..], i - 1);
    }
  }

  /** The whitelist holds the known addresses other than 0.0.0.0, and no others. */
  lemma {:induction false} KnownIpsAre(last: seq<Option<string>>, ip: string)
    ensures ip in KnownIps(last) <==> Some(ip) in last && ip != "0.0.0.0"
  {
    if last != [] {
      KnownIpsAre(last[1..], ip);
      assert Some(ip) in last <==> last[0] == Some(ip) || Some(ip) in last[1..];
    }
  }

  lemma RefreshWhitelists(servers: seq<Server>)
    ensures Whitelisted(servers, KnownIps(Lasts(servers)))
  {
    forall i | 0 <= i < |servers| && servers[i].last.Some? && servers[i].last.value != "0.0.0.0"
      ensures servers[i].last.value in KnownIps(Lasts(servers)) {
      KnownAreListed(Lasts(servers), i);
    }
  }

  /** The servers after k of them were found bad. */
  function After(servers: seq<Server>, world: nat -> Answer, k: nat): seq<Server>
    requires k <= |servers|
  {
    servers[k..] + Tried(servers, world, k)
  }

  function Tried(servers: seq<Server>, world: nat -> Answer, k: nat): (r: seq<Server>)
    requires k <= |servers|
    ensures |r| == k && forall i :: 0 <= i < k ==> r[i] == Touched(servers[i], world(i))
  {
    if k == 0 then [] else Tried(servers, world, k - 1) + [Touched(servers[k - 1], world(k - 1))]
  }

  /** The first attempt at or after k that is not just another bad server. */
  function Stop(world: nat -> Answer, k: nat, n: nat): (r: nat)
    requires k <= n
    ensures k <= r <= n && (r < n ==> !Bad(world(r)))
    ensures forall i :: k <= i < r ==> Bad(world(i))
    decreases n - k
  {
    if k < n && Bad(world(k)) then Stop(world, k + 1, n) else k
  }

  /** The shared configuration and the kernel it is applied to. */
  class Central {
    var servers: seq<Server>
    const cfg: Config
    const kernel: Kernel
    ghost const prior: Tables
    ghost var fw: Fw
    ghost var tried: seq<string>

    /** The kernel holds what the firewall state stands for. */
    ghost predicate Matches()
      reads this, kernel
    {
      Clean(cfg, prior) && cfg.extInterface.Some? && kernel.tables == Realise(cfg, prior, fw)
    }

    ghost predicate Valid()
      reads this, kernel
    {
      Matches() && Whitelisted(servers, fw.ips)
    }

    /** Takes over a firewall that was just set up from the servers' addresses. */
    constructor (cfg: Config, servers: seq<Server>, kernel: Kernel, ghost prior: Tables)
      requires Clean(cfg, prior) && cfg.extInterface.Some?
      requires kernel.tables == Realise(cfg, prior, Fresh(cfg, KnownIps(Lasts(servers))))
      ensures Valid() && this.servers == servers && this.kernel == kernel && this.cfg == cfg && tried == []
    {
      this.servers, this.cfg, this.kernel, this.prior := servers, cfg, kernel, prior;
      this.fw := Fresh(cfg, KnownIps(Lasts(servers)));
      this.tried := [];
      new;
      RefreshWhitelists(servers);
    }

    /** mark_auth_server_bad on the first server. */
    method MarkBad()
      requires Valid()
      modifies this
      ensures Valid() && servers == Rotated(old(servers)) && fw == old(fw) && tried == old(tried)
    {
      if |servers| > 1 {
        servers := servers[1..] + [servers[0]];
      } else if |servers| == 1 {
        assert servers == servers[1..] + [servers[0]];
      }
    }

    /** The address of the first server is now ip: when that is news, the chains are refilled. */
    method Learn(ip: string)
      requires Valid() && servers != []
      modifies this, kernel
      ensures Valid() && tried == old(tried)
      ensures servers == old(servers)[0 := old(servers[0]).(last := Some(ip))]
      ensures fw == if old(servers[0]).last == Some(ip) then old(fw) else old(fw).(ips := KnownIps(Lasts(servers)))
    {
      if servers[0].last != Some(ip) {
        servers := servers[0 := servers[0].(last := Some(ip))];
        Refill();
      } else {
        assert servers == servers[0 := servers[0].(last := Some(ip))];
      }
    }

    /** fw_clear_authservers then fw_set_authservers. */
    method Refill()
      requires Matches()
      modifies this`fw, kernel
      ensures Valid() && fw == old(fw).(ips := KnownIps(Lasts(servers)))
    {
      var last := CollectLasts();
      ServersRefresh(kernel, last, cfg, prior, fw);
      assert last == Lasts(servers);
      assert Edited(cfg, fw, RefreshServers(last)) == fw.(ips := KnownIps(last));
      fw := fw.(ips := KnownIps(last));
      RefreshWhitelists(servers);
    }

    method CollectLasts() returns (last: seq<Option<string>>)
      ensures last == Lasts(servers)
    {
      last := [];
      for i := 0 to |servers|
        invariant |last| == i && forall j :: 0 <= j < i ==> last[j] == servers[j].last
      {
        last := last + [servers[i].last];
      }
    }

    /** Whether any popular server resolves. */
    method AnyPopular(popular: seq<bool>) returns (dns: bool)
      ensures dns <==> true in popular
    {
      dns := false;
      for i := 0 to |popular|
        invariant !dns && true !in popular[..i]
      {
        if popular[i] {
          return true;
        }
        assert popular[..i + 1] == popular[..i] + [popular[i]];
      }
      assert popular[..|popular|] == popular;
    }

    /** One attempt on the first server: resolve it, learn its address, connect. */
    method Attempt(answer: Answer) returns (sockfd: int, next: bool)
      requires Valid() && servers != []
      modifies this, kernel
      ensures Valid() && next == Bad(answer) && sockfd == Sockfd(answer)
      ensures tried == old(tried) + [old(servers[0]).hostname]
      ensures var list := old(servers)[0 := Touched(old(servers[0]), answer)];
              servers == if Bad(answer) then Rotated(list) else list
      ensures fw == old(fw).(ips := fw.ips)
    {
      tried := tried + [servers[0].hostname];
      sockfd, next := -1, false;
      match answer
      case NoAddress(popular) =>
        next := AnyPopular(popular);
        if next {
          servers := servers[0 := servers[0].(last := None)];
          MarkBad();
        } else {
          assert servers == servers[0 := servers[0]];
        }
      case Address(ip, socket) =>
        Learn(ip);
        match socket
        case NoSocket =>
        case Refused =>
          MarkBad();
          next := true;
        case Accepted(fd) => sockfd := fd;
    }

    /** connect_auth_server: ask the servers in turn until one connects or none is left. */
    method ConnectAuthServer(world: nat -> Answer) returns (sockfd: int)
      requires Valid()
      modifies this, kernel
      ensures Valid() && fw == old(fw).(ips := fw.ips)
      ensures servers == EndedAt(old(servers), world, Stop(world, 0, |old(servers)|))
      ensures var n := |old(servers)|;
              var k := Stop(world, 0, n);
              && Hostnames(servers) == RotatedBy(Hostnames(old(servers)), k)
              && tried == old(tried) + Hostnames(if k < n then old(servers)[..k + 1] else old(servers))
              && (sockfd != -1 <==> k < n && Sockfd(world(k)) != -1)
              && (sockfd != -1 ==> servers != [] && servers[0].hostname == old(servers)[k].hostname
                                   && servers[0].last == Some(world(k).ip) && sockfd == Sockfd(world(k)))
              && (k == n ==> sockfd == -1 && Hostnames(servers) == Hostnames(old(servers)))
    {
      ghost var start, end := servers, Stop(world, 0, |servers|);
      RotatesByFailures(start, world, end);
      ConnectedIsInFront(start, world);
      assert After(start, world, 0) == start;
      sockfd := Connect(0, world, start, end);
    }

    /** _connect_auth_server at its level of recursion; attempt `end` will be the last. */
    method Connect(level: nat, world: nat -> Answer, ghost start: seq<Server>, ghost end: nat) returns (sockfd: int)
      requires Valid() && level <= |start| && servers == After(start, world, level)
      requires end == Stop(world, level, |start|)
      modifies this, kernel
      ensures Valid() && fw == old(fw).(ips := fw.ips)
      ensures servers == EndedAt(start, world, end)
      ensures tried == old(tried) + Hostnames(Asked(start, level, end))
      ensures sockfd == if end < |start| then Sockfd(world(end)) else -1
      decreases |start| - level, 1
    {
      sockfd := -1;
      if |servers| == 0 || level + 1 > |servers| {
        Exhausted(start, world, tried);
      } else {
        sockfd := ConnectFirst(level, world, start, end);
      }
    }

    method ConnectFirst(level: nat, world: nat -> Answer, ghost start: seq<Server>, ghost end: nat) returns (sockfd: int)
      requires Valid() && level < |start| && servers == After(start, world, level)
      requires end == Stop(world, level, |start|)
      modifies this, kernel
      ensures Valid() && fw == old(fw).(ips := fw.ips)
      ensures servers == EndedAt(start, world, end)
      ensures tried == old(tried) + Hostnames(Asked(start, level, end))
      ensures sockfd == if end < |start| then Sockfd(world(end)) else -1
      decreases |start| - level, 0
    {
      var next;
      AskedStep(tried, start, level, end);
      FirstIs(start, world, level);
      NextAfter(start, world, level);
      StopsHere(start, world, level);
      sockfd, next := Attempt(world(level));
      if next {
        sockfd := Connect(level + 1, world, start, end);
      }
    }
  }

  // ----- What failing over amounts to -----

  function RotatedBy<T>(s: seq<T>, k: nat): seq<T>
    requires k <= |s|
  {
    s[k..] + s[..k]
  }

  /** Each bad server rotates the list left by one; after all of them the order is restored. */
  lemma RotatesByFailures(start: seq<Server>, world: nat -> Answer, k: nat)
    requires k <= |start|
    ensures Hostnames(EndedAt(start, world, k)) == RotatedBy(Hostnames(start), k)
    ensures k == |start| ==> Hostnames(EndedAt(start, world, k)) == Hostnames(start)
  {
    FullTurn(Hostnames(start), k);
    if k < |start| {
      RotatesToFront(start, world, k);
    } else {
      TriedHosts(start, world, k);
    }
  }

  lemma RotatesToFront(start: seq<Server>, world: nat -> Answer, k: nat)
    requires k < |start|
    ensures Hostnames(EndedAt(start, world, k)) == RotatedBy(Hostnames(start), k)
  {
    TriedHosts(start, world, k);
    FrontHosts(start, k, Touched(start[k], world(k)));
    JoinHosts([Touched(start[k], world(k))] + start[k + 1..], Tried(start, world, k), Hostnames(start), k);
  }

  lemma JoinHosts(front: seq<Server>, back: seq<Server>, names: seq<string>, k: nat)
    requires k <= |names| && Hostnames(front) == names[k..] && Hostnames(back) == names[..k]
    ensures Hostnames(front + back) == RotatedBy(names, k)
  {
    HostnamesAppend(front, back);
  }

  lemma TriedHosts(start: seq<Server>, world: nat -> Answer, k: nat)
    requires k <= |start|
    ensures Hostnames(Tried(start, world, k)) == Hostnames(start)[..k]
  {
    SameHosts(Tried(start, world, k), Hostnames(start)[..k]);
  }

  lemma FrontHosts(start: seq<Server>, k: nat, first: Server)
    requires k < |start| && first.hostname == start[k].hostname
    ensures Hostnames([first] + start[k + 1..]) == Hostnames(start)[k..]
  {
    SameHosts([first] + start[k + 1..], Hostnames(start)[k..]);
  }

  lemma {:induction false} HostnamesAppend(a: seq<Server>, b: seq<Server>)
    ensures Hostnames(a + b) == Hostnames(a) + Hostnames(b)
  {
    if a == [] {
      assert a + b == b;
    } else {
      assert (a + b)[1..] == a[1..] + b;
      HostnamesAppend(a[1..], b);
    }
  }

  lemma FullTurn(names: seq<string>, k: nat)
    requires k <= |names|
    ensures k == |names| ==> RotatedBy(names, k) == names == names[..k]
  {
  }

  lemma SameHosts(servers: seq<Server>, names: seq<string>)
    requires |names| == |servers| && forall i :: 0 <= i < |servers| ==> servers[i].hostname == names[i]
    ensures Hostnames(servers) == names
  {
  }

  lemma EndedAtIndex(start: seq<Server>, world: nat -> Answer, k: nat, i: nat)
    requires k <= |start| && i < |start|
    ensures |EndedAt(start, world, k)| == |start|
    ensures EndedAt(start, world, k)[i] ==
            if i < |start| - k then (if i == 0 then Touched(start[k], world(k)) else start[k + i])
            else Touched(start[i - (|start| - k)], world(i - (|start| - k)))
  {
  }

  /** The servers passed over are those whose name failed to resolve while some popular name did
      resolve, or that refused the connection; the attempt that ends it is neither. */
  lemma StopsAtFirstGood(world: nat -> Answer, n: nat)
    ensures var k := Stop(world, 0, n);
            && (forall i :: 0 <= i < k ==>
                  match world(i)
                  case NoAddress(popular) => true in popular
                  case Address(_, socket) => socket == Refused)
            && (k < n ==>
                  match world(k)
                  case NoAddress(popular) => true !in popular
                  case Address(_, socket) => socket != Refused)
  {
  }

  /** Where each server ends up, and with which address on record: the k that were bad move to the
      back, a server that did not resolve while others did loses its address, and one that resolved
      has the new one; servers that were not asked are as before. */
  lemma EachServerAfter(start: seq<Server>, world: nat -> Answer, k: nat, i: nat)
    requires k <= |start| && i < |start|
    ensures var ended := EndedAt(start, world, k);
            && |ended| == |start|
            && ended[if i < k then |start| - k + i else i - k] ==
               if i > k then start[i]
               else match world(i)
                    case NoAddress(popular) => if true in popular then start[i].(last := None) else start[i]
                    case Address(ip, _) => start[i].(last := Some(ip))
  {
    EndedAtIndex(start, world, k, if i < k then |start| - k + i else i - k);
  }

  /** A connection is to the server now in front, whose address is the one connected to; every
      server asked before it was found bad, and they were asked in order. */
  lemma ConnectedIsInFront(start: seq<Server>, world: nat -> Answer)
    ensures var k := Stop(world, 0, |start|);
            && (forall i :: 0 <= i < k ==> Bad(world(i)))
            && Asked(start, 0, k) == (if k < |start| then start[..k + 1] else start)
            && (k < |start| && Sockfd(world(k)) != -1 ==>
                  var front := EndedAt(start, world, k)[0];
                  front.hostname == start[k].hostname && front.last == Some(world(k).ip))
  {
    var k := Stop(world, 0, |start|);
    if k < |start| {
      EndedAtIndex(start, world, k, 0);
    }
  }

  /** The whitelist is in the kernel: a known address is accepted by AuthServs in both tables. */
  lemma ServersAreAccepted(cfg: Config, prior: Tables, fw: Fw, servers: seq<Server>, i: nat)
    requires Clean(cfg, prior) && cfg.extInterface.Some? && Whitelisted(servers, fw.ips)
    requires i < |servers| && servers[i].last.Some? && servers[i].last.value != "0.0.0.0"
    ensures var t, rule := Realise(cfg, prior, fw), Rule([Dst(servers[i].last.value)], Accept);
            && Wd(AuthServs) in t.nats && rule in t.nats[Wd(AuthServs)]
            && Wd(AuthServs) in t.filter && rule in t.filter[Wd(AuthServs)]
  {
    ServersEdit(cfg, prior, fw, fw.ips);
    assert fw.(ips := fw.ips) == fw;
    MapMember(ServerRule, fw.ips, servers[i].last.value);
  }

  lemma MapMember<T, U>(f: T -> U, s: seq<T>, x: T)
    requires x in s
    ensures f(x) in Map(f, s)
  {
    var i :| 0 <= i < |s| && s[i] == x;
    assert Map(f, s)[i] == f(x);
  }

  lemma Exhausted(start: seq<Server>, world: nat -> Answer, before: seq<string>)
    ensures After(start, world, |start|) == EndedAt(start, world, |start|)
    ensures before + Hostnames(Asked(start, |start|, |start|)) == before
  {
  }

  lemma FirstIs(start: seq<Server>, world: nat -> Answer, level: nat)
    requires level < |start|
    ensures |After(start, world, level)| == |start| && After(start, world, level)[0] == start[level]
  {
  }

  lemma StopsHere(start: seq<Server>, world: nat -> Answer, level: nat)
    requires level < |start|
    ensures After(start, world, level)[0 := Touched(start[level], world(level))] == EndedAt(start, world, level)
  {
  }

  function Sockfd(answer: Answer): int {
    if answer.Address? && answer.socket.Accepted? then answer.socket.fd else -1
  }

  /** The list when attempt k was the last: server k in front, those found bad at the back. */
  function EndedAt(start: seq<Server>, world: nat -> Answer, k: nat): seq<Server>
    requires k <= |start|
  {
    if k < |start| then [Touched(start[k], world(k))] + start[k + 1..] + Tried(start, world, k)
    else Tried(start, world, k)
  }

  /** The servers asked from one level up to attempt k. */
  function Asked(start: seq<Server>, level: nat, k: nat): seq<Server>
    requires level <= k <= |start|
  {
    start[level..if k < |start| then k + 1 else k]
  }

  function Hostnames(servers: seq<Server>): (r: seq<string>)
    ensures |r| == |servers| && forall i :: 0 <= i < |servers| ==> r[i] == servers[i].hostname
  {
    if servers == [] then [] else [servers[0].hostname] + Hostnames(servers[1..])
  }

  lemma AskedStep(before: seq<string>, start: seq<Server>, level: nat, k: nat)
    requires level < |start| && level <= k <= |start|
    ensures before + Hostnames(Asked(start, level, k)) ==
            if level == k then before + [start[level].hostname]
            else before + [start[level].hostname] + Hostnames(Asked(start, level + 1, k))
  {
    var asked := Asked(start, level, k);
    assert asked[0] == start[level];
    if level == k {
      assert asked[1..] == [];
    } else {
      assert asked[1..] == Asked(start, level + 1, k);
    }
  }

  lemma NextAfter(start: seq<Server>, world: nat -> Answer, level: nat)
    requires level < |start|
    ensures After(start, world, level + 1) ==
            Rotated(After(start, world, level)[0 := Touched(start[level], world(level))])
  {
  }
}
