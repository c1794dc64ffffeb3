/** client_list.c: the linked list of connected clients, on the heap. */
module ClientList {
  import opened Base
  import opened Counters

  datatype Client = Client(
    id: nat, ip: string, mac: string, token: string, state: int, fd: int, counters: Counters)

  function NewCounters(now: int): Counters {
    Counters(0, 0, 0, 0, 0, 0, now)
  }

  /** What client_dup copies: everything but the firewall state and the socket, which stay
      zero in the copy (src/client_list.c:177-202). */
  function Duplicate(c: Client): Client {
    c.(state := 0, fd := 0)
  }

  class Node {
    var c: Client
    var next: Node?

    constructor (c: Client)
      ensures this.c == c && next == null
    {
      this.c := c;
      next := null;
    }
  }

  /** The node at position i, or null past the end. */
  ghost function At(nodes: seq<Node>, i: nat): Node? {
    if i < |nodes| then nodes[i] else null
  }

  /** The nodes, in order, from head to the end of the chain. */
  ghost predicate Linked(head: Node?, nodes: seq<Node>)
    reads nodes
  {
    && head == At(nodes, 0)
    && (forall i {:trigger nodes[i].next} :: 0 <= i < |nodes| ==> nodes[i].next == At(nodes, i + 1))
  }

  ghost predicate NoRepeat(nodes: seq<Node>) {
    forall i, j :: 0 <= i < j < |nodes| ==> nodes[i] != nodes[j]
  }

  /** Where the node at position i of the shorter list points. */
  lemma NextWithout(nodes: seq<Node>, k: nat, i: nat)
    requires k < |nodes| && i < |nodes| - 1
    requires forall i :: 0 <= i < |nodes| ==> nodes[i].next == if i == k - 1 then At(nodes, k + 1) else At(nodes, i + 1)
    ensures RemoveAt(nodes, k)[i].next == At(RemoveAt(nodes, k), i + 1)
  {
    var rest, j := RemoveAt(nodes, k), if i < k then i else i + 1;
    assert rest[i] == nodes[j];
    assert nodes[j].next == if j == k - 1 then At(nodes, k + 1) else At(nodes, j + 1);
  }

  lemma NoRepeatWithout(nodes: seq<Node>, k: nat)
    requires k < |nodes| && NoRepeat(nodes)
    ensures NoRepeat(RemoveAt(nodes, k))
  {
    var rest := RemoveAt(nodes, k);
    assert forall i :: 0 <= i < |rest| ==> rest[i] == nodes[if i < k then i else i + 1];
  }

  /** Once position k is bypassed, the other nodes are linked in the same order. */
  lemma SpineWithout(nodes: seq<Node>, k: nat)
    requires k < |nodes| && NoRepeat(nodes)
    requires forall i :: 0 <= i < |nodes| ==> nodes[i].next == if i == k - 1 then At(nodes, k + 1) else At(nodes, i + 1)
    ensures Linked(if k == 0 then At(nodes, 1) else nodes[0], RemoveAt(nodes, k)) && NoRepeat(RemoveAt(nodes, k))
  {
    NoRepeatWithout(nodes, k);
    forall i | 0 <= i < |RemoveAt(nodes, k)| ensures RemoveAt(nodes, k)[i].next == At(RemoveAt(nodes, k), i + 1) {
      NextWithout(nodes, k, i);
    }
  }

  /** Linking a node behind the last one extends the chain. */
  lemma SpineSnoc(nodes: seq<Node>, n: Node)
    requires n !in nodes && NoRepeat(nodes) && n.next == null
    requires forall i :: 0 <= i < |nodes| ==> nodes[i].next == if i + 1 == |nodes| then n else At(nodes, i + 1)
    ensures Linked(At(nodes + [n], 0), nodes + [n]) && NoRepeat(nodes + [n])
  {
    var all := nodes + [n];
    forall i | 0 <= i < |all| ensures all[i].next == At(all, i + 1) {
      if i < |nodes| {
        assert all[i] == nodes[i];
      }
    }
  }

  ghost function Values(nodes: seq<Node>): (r: seq<Client>)
    reads nodes
    ensures |r| == |nodes| && forall i :: 0 <= i < |nodes| ==> r[i] == nodes[i].c
  {
    if nodes == [] then [] else [nodes[0].c] + Values(nodes[1..])
  }

  /** What a copy has in common with its original, field by field. */
  predicate SameSession(d: Client, c: Client) {
    && d.id == c.id && d.ip == c.ip && d.mac == c.mac && d.token == c.token
    && d.counters.incoming == c.counters.incoming && d.counters.outgoing == c.counters.outgoing
    && d.counters.incomingHistory == c.counters.incomingHistory && d.counters.outgoingHistory == c.counters.outgoingHistory
    && d.counters.incomingDelta == c.counters.incomingDelta && d.counters.outgoingDelta == c.counters.outgoingDelta
    && d.counters.lastUpdated == c.counters.lastUpdated
  }

  lemma {:induction false} CopiedValues(copies: seq<Node>, nodes: seq<Node>)
    requires |copies| == |nodes| && forall i :: 0 <= i < |nodes| ==> copies[i].c == Duplicate(nodes[i].c)
    ensures Values(copies) == Map(Duplicate, Values(nodes))
  {
    if nodes != [] {
      CopiedValues(copies[1..], nodes[1..]);
    }
  }

  lemma {:induction false} ValuesWithout(nodes: seq<Node>, k: nat)
    requires k < |nodes|
    ensures Values(RemoveAt(nodes, k)) == RemoveAt(Values(nodes), k)
  {
    if k == 0 {
      assert RemoveAt(nodes, k) == nodes[1..];
      assert RemoveAt(Values(nodes), k) == Values(nodes[1..]);
    } else {
      RemoveAtLater(nodes, k);
      RemoveAtLater(Values(nodes), k);
      ValuesWithout(nodes[1..], k - 1);
      FirstValue(nodes[0], RemoveAt(nodes[1..], k - 1));
    }
  }

  lemma FirstValue(n: Node, rest: seq<Node>)
    ensures Values([n] + rest) == [n.c] + Values(rest)
  {
    assert ([n] + rest)[1..] == rest;
  }

  /** One turn of client_list_dup's loop: a copy becomes the first or the next node of the chain. */
  method Attach(head: Node?, prev: Node?, c: Client, ghost copies: seq<Node>) returns (top: Node, n: Node)
    requires Linked(head, copies) && NoRepeat(copies)
    requires prev == if copies == [] then null else copies[|copies| - 1]
    modifies if prev == null then {} else {prev}
    ensures fresh(n) && n.c == c
    ensures Linked(top, copies + [n]) && NoRepeat(copies + [n])
    ensures forall m :: m in copies ==> m.c == old(m.c)
  {
    n := new Node(c);
    if head == null {
      top := n;
    } else {
      top := head;
      prev.next := n;
    }
    SpineSnoc(copies, n);
  }

  class ClientList {
    var first: Node?
    var nextId: nat
    ghost var nodes: seq<Node>
    ghost var freed: set<Node>

    ghost predicate Valid()
      reads this, nodes
    {
      && Linked(first, nodes)
      && NoRepeat(nodes)
      && (forall n :: n in nodes ==> n !in freed)
    }

    ghost function Contents(): (r: seq<Client>)
      reads this, nodes
    {
      Values(nodes)
    }

    constructor ()
      ensures Valid() && nodes == [] && nextId == 1 && freed == {}
    {
      first, nextId, nodes, freed := null, 1, [], {};
    }

    /** client_list_insert_client (src/client_list.c:94-105). */
    method Insert(n: Node)
      requires Valid() && n !in nodes && n !in freed
      modifies this, n
      ensures Valid() && nodes == [n] + old(nodes) && freed == old(freed)
      ensures n.c == old(n.c).(id := old(nextId)) && nextId == old(nextId) + 1
      ensures Contents() == [n.c] + old(Contents())
    {
      n.c := n.c.(id := nextId);
      nextId := nextId + 1;
      n.next := first;
      first := n;
      nodes := [n] + nodes;
      assert nodes[1..] == old(nodes);
      forall i | 1 <= i < |nodes| ensures nodes[i].next == At(nodes, i + 1) {
        assert nodes[i] == old(nodes)[i - 1];
        assert nodes[i].next == At(old(nodes), i);
      }
    }

    /** client_list_add (src/client_list.c:115-135). */
    method Add(ip: string, mac: string, token: string, now: int) returns (n: Node)
      requires Valid()
      modifies this
      ensures Valid() && fresh(n) && nodes == [n] + old(nodes) && freed == old(freed)
      ensures nextId == old(nextId) + 1
      ensures Contents() == [n.c] + old(Contents())
      ensures n.c == Client(old(nextId), ip, mac, token, 0, 0, Counters(0, 0, 0, 0, 0, 0, now))
    {
      n := new Node(Client(0, ip, mac, token, 0, 0, NewCounters(now)));
      Insert(n);
    }

    /** The common loop of the five find functions (src/client_list.c:209-303). */
    method Find(p: Client -> bool) returns (n: Node?, ghost k: nat)
      requires Valid()
      ensures k == FirstIndex(p, Contents()) && n == At(nodes, k)
      ensures n == At(nodes, FirstIndex(p, Contents()))
    {
      n, k := first, 0;
      while n != null && !p(n.c)
        invariant k <= |nodes| && n == At(nodes, k)
        invariant forall i :: 0 <= i < k ==> !p(Contents()[i])
        decreases |nodes| - k
      {
        n := n.next;
        k := k + 1;
      }
      FirstIndexUnique(p, Contents(), k);
    }

    /** client_list_dup: a fresh chain of copies in the same order (src/client_list.c:142-171). */
    method Dup() returns (head: Node?, copied: nat, ghost copies: seq<Node>)
      requires Valid()
      ensures fresh(copies) && Linked(head, copies) && NoRepeat(copies)
      ensures copied == |copies| == |nodes|
      ensures Values(copies) == Map(Duplicate, Contents())
      ensures forall i :: 0 <= i < |nodes| ==> SameSession(copies[i].c, nodes[i].c)
    {
      var cur := first;
      var prev: Node? := null;
      head, copied, copies := null, 0, [];
      while cur != null
        invariant copied == |copies| <= |nodes| && cur == At(nodes, copied)
        invariant fresh(copies) && Linked(head, copies) && NoRepeat(copies)
        invariant prev == if copied == 0 then null else copies[copied - 1]
        invariant forall i :: 0 <= i < copied ==> copies[i].c == Duplicate(nodes[i].c)
        decreases |nodes| - copied
      {
        assert cur.next == At(nodes, copied + 1);
        head, prev := Attach(head, prev, Duplicate(cur.c), copies);
        copies := copies + [prev];
        copied := copied + 1;
        cur := cur.next;
      }
      CopiedValues(copies, nodes);
    }

    /** The forward loop of client_list_remove: the node before n (src/client_list.c:375-377). */
    method FindBefore(n: Node) returns (p: Node, ghost k: nat)
      requires Valid() && nodes != [] && nodes[0] != n
      ensures k < |nodes| && p == nodes[k] && p.next == At(nodes, k + 1)
      ensures n !in nodes[..k + 1] && (p.next == null || p.next == n)
    {
      p, k := first, 0;
      while p.next != null && p.next != n
        invariant k < |nodes| && p == nodes[k] && p.next == At(nodes, k + 1)
        invariant n !in nodes[..k + 1]
        decreases |nodes| - k
      {
        p := p.next;
        k := k + 1;
        assert nodes[..k + 1] == nodes[..k] + [p];
      }
    }

    method Unlink(n: Node) returns (found: bool, ghost k: nat)
      requires Valid()
      modifies this, nodes
      ensures Valid() && nextId == old(nextId) && freed == old(freed)
      ensures found <==> n in old(nodes)
      ensures !found ==> nodes == old(nodes)
      ensures found ==> k < |old(nodes)| && old(nodes)[k] == n && nodes == RemoveAt(old(nodes), k)
      ensures forall m :: m in old(nodes) ==> m.c == old(m.c)
      ensures n.c == old(n.c)
    {
      found, k := false, 0;
      ghost var links := nodes;
      if first == null {
      } else if first == n {
        first := first.next;
        found := true;
      } else {
        var p, j := FindBefore(n);
        if p.next != null {
          k := j + 1;
          assert n == nodes[k] && n.next == At(nodes, k + 1);
          p.next := n.next;
          found := true;
        } else {
          assert nodes[..j + 1] == nodes;
        }
      }
      if found {
        assert forall i :: 0 <= i < |links| ==> links[i].next == if i == k - 1 then At(links, k + 1) else At(links, i + 1);
        nodes := RemoveAt(nodes, k);
        SpineWithout(links, k);
      }
    }

    /** client_list_remove: unlinks exactly the given node, if it is there (src/client_list.c:362-385). */
    method Remove(n: Node) returns (found: bool, ghost k: nat)
      requires Valid()
      modifies this, nodes
      ensures Valid() && nextId == old(nextId) && freed == old(freed)
      ensures found <==> n in old(nodes)
      ensures found ==> k < |old(nodes)| && old(nodes)[k] == n && nodes == RemoveAt(old(nodes), k)
      ensures !found ==> nodes == old(nodes)
      ensures n !in nodes && forall i :: 0 <= i < |nodes| ==> nodes[i] in old(nodes)
      ensures Contents() == if found then RemoveAt(old(Contents()), k) else old(Contents())
      ensures n.c == old(n.c)
    {
      found, k := Unlink(n);
      ghost var links := old(nodes);
      assert Values(links) == old(Values(links));
      if found {
        RemoveAtFrom(links, k);
        ValuesWithout(links, k);
      }
    }

    /** client_free_node: a node is freed once, and only when no list holds it
        (src/client_list.c:327-341). */
    ghost method Free(n: Node)
      requires Valid() && n !in nodes && n !in freed
      modifies this`freed
      ensures Valid() && freed == old(freed) + {n}
    {
      freed := freed + {n};
    }

    /** client_list_destroy: frees every node of a chain that is in no list, reading each next
        pointer before the node goes (src/client_list.c:309-319). */
    method DestroyChain(head: Node?, ghost chain: seq<Node>)
      requires Valid() && Linked(head, chain) && NoRepeat(chain)
      requires forall n :: n in chain ==> n !in nodes && n !in freed
      modifies this`freed
      ensures Valid() && freed == old(freed) + set n | n in chain
    {
      var list := head;
      ghost var k := 0;
      while list != null
        invariant k <= |chain| && list == At(chain, k)
        invariant Valid() && freed == old(freed) + set n | n in chain[..k]
        decreases |chain| - k
      {
        assert chain[k] !in chain[..k];
        var next := list.next;
        Free(list);
        assert chain[..k + 1] == chain[..k] + [chain[k]];
        k := k + 1;
        list := next;
      }
      assert chain[..k] == chain;
    }

    /** An update of one listed client in place. */
    method Set(n: Node, c: Client, ghost k: nat)
      requires Valid() && k < |nodes| && nodes[k] == n
      modifies n`c
      ensures Valid() && Contents() == old(Contents())[k := c]
    {
      n.c := c;
    }
  }
}
