/** Small sequence vocabulary shared by the other modules. */
module Base {

  datatype Option<+T> = None | Some(value: T)

  /** s without its first occurrence of x, or s itself when x does not occur. */
  function RemoveFirst<T(==)>(s: seq<T>, x: T): (r: seq<T>)
    ensures x !in s ==> r == s
    ensures x in s ==> |r| == |s| - 1
  {
    if s == [] then []
    else if s[0] == x then s[1..]
    else [s[0]] + RemoveFirst(s[1..], x)
  }

  /** Exactly one copy goes, when there is one. */
  lemma {:induction false} RemoveFirstMultiset<T>(s: seq<T>, x: T)
    ensures multiset(RemoveFirst(s, x)) == multiset(s) - multiset{x}
  {
    if s != [] {
      assert s == [s[0]] + s[1..];
      if s[0] != x {
        RemoveFirstMultiset(s[1..], x);
      }
    }
  }

  /** The copy that goes is the first one: everything before and after it keeps its place. */
  lemma {:induction false} RemoveFirstSplit<T>(s: seq<T>, x: T) returns (k: nat)
    requires x in s
    ensures k < |s| && s[k] == x && x !in s[..k]
    ensures RemoveFirst(s, x) == s[..k] + s[k + 1..]
  {
    if s[0] == x {
      k := 0;
    } else {
      var j := RemoveFirstSplit(s[1..], x);
      k := j + 1;
      assert s[..k] == [s[0]] + s[1..][..j];
      assert s[1..][j + 1..] == s[k + 1..];
    }
  }

  lemma {:induction false} RemoveFirstAppend<T>(s: seq<T>, x: T, y: T)
    ensures RemoveFirst(s + [y], x) == if x in s then RemoveFirst(s, x) + [y] else if x == y then s else s + [y]
  {
    if s == [] {
    } else {
      assert (s + [y])[1..] == s[1..] + [y];
      if s[0] != x {
        RemoveFirstAppend(s[1..], x, y);
        assert x in s <==> x in s[1..];
        if x !in s && x == y {
          assert [s[0]] + s[1..] == s;
        }
      }
    }
  }

  /** Removing what was just added leaves as many copies of everything as before. */
  lemma RemoveAdded<T>(s: seq<T>, x: T)
    ensures multiset(RemoveFirst(s + [x], x)) == multiset(s)
    ensures x !in s ==> RemoveFirst(s + [x], x) == s
  {
    RemoveFirstMultiset(s + [x], x);
    RemoveFirstAppend(s, x, x);
  }

  /** The index of the first element that satisfies p, or the length when none does. */
  function FirstIndex<T>(p: T -> bool, s: seq<T>): (k: nat)
    ensures k <= |s|
    ensures forall i :: 0 <= i < k ==> !p(s[i])
    ensures k < |s| ==> p(s[k])
  {
    if s == [] || p(s[0]) then 0 else 1 + FirstIndex(p, s[1..])
  }

  lemma FirstIndexUnique<T>(p: T -> bool, s: seq<T>, k: nat)
    requires k <= |s| && (forall i :: 0 <= i < k ==> !p(s[i])) && (k < |s| ==> p(s[k]))
    ensures FirstIndex(p, s) == k
  {
  }

  lemma Assoc<T>(a: seq<T>, b: seq<T>, c: seq<T>)
    ensures a + b + c == a + (b + c)
  {
  }

  lemma SliceStep<T>(s: seq<T>, i: nat)
    requires i < |s|
    ensures s[i..] == [s[i]] + s[i + 1..]
  {
  }

  function RemoveAt<T>(s: seq<T>, k: nat): seq<T>
    requires k < |s|
  {
    s[..k] + s[k + 1..]
  }

  lemma RemoveAtFrom<T>(s: seq<T>, k: nat)
    requires k < |s|
    ensures forall j :: 0 <= j < |RemoveAt(s, k)| ==> RemoveAt(s, k)[j] in s
  {
    forall j | 0 <= j < |RemoveAt(s, k)| ensures RemoveAt(s, k)[j] in s {
      assert RemoveAt(s, k)[j] == s[if j < k then j else j + 1];
    }
  }

  lemma RemoveAtLater<T>(s: seq<T>, k: nat)
    requires 0 < k < |s|
    ensures RemoveAt(s, k) == [s[0]] + RemoveAt(s[1..], k - 1)
  {
  }

  function Map<T, U>(f: T -> U, s: seq<T>): (r: seq<U>)
    ensures |r| == |s|
    ensures forall i :: 0 <= i < |s| ==> r[i] == f(s[i])
  {
    if s == [] then [] else [f(s[0])] + Map(f, s[1..])
  }

  lemma MapAppend<T, U>(f: T -> U, a: seq<T>, b: seq<T>)
    ensures Map(f, a + b) == Map(f, a) + Map(f, b)
  {
  }

  lemma MapSnoc<T, U>(f: T -> U, s: seq<T>, x: T)
    ensures Map(f, s + [x]) == Map(f, s) + [f(x)]
  {
  }

  lemma MapStep<T, U>(f: T -> U, s: seq<T>, i: nat)
    requires i < |s|
    ensures Map(f, s[..i + 1]) == Map(f, s[..i]) + [f(s[i])]
  {
  }

  lemma {:induction false} RemoveFirstMap<T, U>(f: T -> U, s: seq<T>, x: T)
    requires forall a :: a in s && f(a) == f(x) ==> a == x
    ensures RemoveFirst(Map(f, s), f(x)) == Map(f, RemoveFirst(s, x))
    ensures f(x) in Map(f, s) <==> x in s
  {
    if s != [] {
      assert Map(f, s)[1..] == Map(f, s[1..]);
      if s[0] != x {
        RemoveFirstMap(f, s[1..], x);
        MapAppend(f, [s[0]], RemoveFirst(s[1..], x));
      }
    }
  }

  function Filter<T>(keep: T -> bool, s: seq<T>): (r: seq<T>) {
    if s == [] then [] else (if keep(s[0]) then [s[0]] else []) + Filter(keep, s[1..])
  }

  lemma {:induction false} FilterAppend<T>(keep: T -> bool, a: seq<T>, b: seq<T>)
    ensures Filter(keep, a + b) == Filter(keep, a) + Filter(keep, b)
  {
    if a == [] {
      assert a + b == b;
    } else {
      assert (a + b)[1..] == a[1..] + b;
      FilterAppend(keep, a[1..], b);
      Assoc(if keep(a[0]) then [a[0]] else [], Filter(keep, a[1..]), Filter(keep, b));
    }
  }

  lemma {:induction false} FilterAll<T>(keep: T -> bool, s: seq<T>)
    requires forall i :: 0 <= i < |s| ==> keep(s[i])
    ensures Filter(keep, s) == s
  {
    if s != [] {
      FilterAll(keep, s[1..]);
    }
  }

  /** An element that is not kept may as well be absent. */
  lemma {:induction false} FilterDropAt<T>(keep: T -> bool, s: seq<T>, n: nat)
    requires n < |s| && !keep(s[n])
    ensures Filter(keep, s[..n] + s[n + 1..]) == Filter(keep, s)
  {
    if n == 0 {
      assert s[..n] + s[n + 1..] == s[1..];
    } else {
      var rest := s[1..];
      FilterDropAt(keep, rest, n - 1);
      assert (s[..n] + s[n + 1..])[1..] == rest[..n - 1] + rest[n..];
    }
  }

  /** Elements that are not kept may come and go. */
  lemma FilterDropLast<T>(keep: T -> bool, s: seq<T>, x: T)
    requires !keep(x)
    ensures Filter(keep, s + [x]) == Filter(keep, s)
  {
    FilterAppend(keep, s, [x]);
    assert Filter(keep, [x]) == [];
  }

  lemma {:induction false} FilterDropFirst<T>(keep: T -> bool, s: seq<T>, x: T)
    requires !keep(x)
    ensures Filter(keep, RemoveFirst(s, x)) == Filter(keep, s)
  {
    if s != [] && s[0] != x {
      FilterDropFirst(keep, s[1..], x);
      assert RemoveFirst(s, x)[1..] == RemoveFirst(s[1..], x);
    }
  }

  lemma HasMember<T>(s: seq<T>)
    requires s != []
    ensures exists x :: x in s
  {
    assert s[0] in s;
  }

  lemma NoMembers<T>(s: seq<T>)
    requires forall x :: x !in s
    ensures s == []
  {
    if s != [] {
      HasMember(s);
    }
  }

  lemma {:induction false} FilterMembers<T>(keep: T -> bool, s: seq<T>, x: T)
    ensures x in Filter(keep, s) <==> x in s && keep(x)
  {
    if s != [] {
      FilterMembers(keep, s[1..], x);
    }
  }

  /** Dropping an element that is kept commutes with filtering. */
  lemma {:induction false} FilterRemoveFirst<T>(keep: T -> bool, s: seq<T>, x: T)
    requires keep(x)
    ensures Filter(keep, RemoveFirst(s, x)) == RemoveFirst(Filter(keep, s), x)
    ensures x in s <==> x in Filter(keep, s)
  {
    if s != [] {
      FilterRemoveFirst(keep, s[1..], x);
      if s[0] == x {
        assert Filter(keep, s) == [x] + Filter(keep, s[1..]);
      } else {
        FilterAppend(keep, [s[0]], RemoveFirst(s[1..], x));
        if keep(s[0]) {
          assert Filter(keep, s) == [s[0]] + Filter(keep, s[1..]);
          assert Filter(keep, s)[1..] == Filter(keep, s[1..]);
        } else {
          assert Filter(keep, s) == Filter(keep, s[1..]);
        }
        assert Filter(keep, [s[0]]) == if keep(s[0]) then [s[0]] else [];
      }
      assert x in s <==> s[0] == x || x in s[1..];
    }
  }
}
