/** The intrusive, circular, doubly linked list that alarms are chained on. */
module AlarmList {

  /** An alarm, or the head of a list of them.  `time` and `rollover` are the
      fields the tick routine looks at. */
  class Alarm {
    var next: Alarm
    var previous: Alarm
    var time: nat
    var rollover: bool

    constructor ()
      ensures next == previous == this
    {
      next, previous := this, this;
      time, rollover := 0, false;
    }
  }

  predicate Distinct<T(==)>(s: seq<T>) {
    forall i, j :: 0 <= i < j < |s| ==> s[i] != s[j]
  }

  /** The nodes of the circle: the head, the entries, the head again. */
  ghost function Node(head: Alarm, ring: seq<Alarm>, i: nat): Alarm
    requires i <= |ring| + 1
  {
    if i == 0 || i == |ring| + 1 then head else ring[i - 1]
  }

  /** The link between the `i`-th node and the next one, in both directions. */
  ghost predicate LinkAt(head: Alarm, ring: seq<Alarm>, i: nat)
    requires i <= |ring|
    reads head`next, head`previous, ring`next, ring`previous
  {
    && Node(head, ring, i).next == Node(head, ring, i + 1)
    && Node(head, ring, i + 1).previous == Node(head, ring, i)
  }

  ghost predicate Linked(head: Alarm, ring: seq<Alarm>)
    reads head`next, head`previous, ring`next, ring`previous
  {
    forall i :: 0 <= i <= |ring| ==> LinkAt(head, ring, i)
  }

  /** The nodes of the circle are different, but for the head at both ends. */
  lemma NodesApart(head: Alarm, ring: seq<Alarm>, pool: set<Alarm>, i: nat, j: nat)
    requires head !in pool && (forall a :: a in ring ==> a in pool) && Distinct(ring)
    requires i <= |ring| + 1 && j <= |ring| + 1
    ensures Node(head, ring, i) == Node(head, ring, j) ==>
              i == j || (i == 0 && j == |ring| + 1) || (j == 0 && i == |ring| + 1)
  {
  }

  /** The nodes of the circle once entry `k` is cut out. */
  lemma CutNodes(head: Alarm, was: seq<Alarm>, k: nat, i: nat)
    requires k < |was| && i <= |was| - 1
    ensures var cut := was[..k] + was[k + 1..];
            && Node(head, was, k + 1) == was[k]
            && Node(head, cut, i) == Node(head, was, if i <= k then i else i + 1)
            && Node(head, cut, i + 1) == Node(head, was, if i < k then i + 1 else i + 2)
  {
  }

  /** A link other than those at entry `k` shares no end with them. */
  lemma CutApart(head: Alarm, was: seq<Alarm>, pool: set<Alarm>, k: nat, j: nat)
    requires head !in pool && (forall a :: a in was ==> a in pool) && Distinct(was)
    requires k < |was| && j <= |was| && j != k && j != k + 1
    ensures Node(head, was, j) != Node(head, was, k) && Node(head, was, j) != Node(head, was, k + 1)
    ensures Node(head, was, j + 1) != Node(head, was, k + 1) && Node(head, was, j + 1) != Node(head, was, k + 2)
    ensures Node(head, was, j) == head || Node(head, was, j) in pool
    ensures Node(head, was, j + 1) == head || Node(head, was, j + 1) in pool
  {
    NodesApart(head, was, pool, j, k);
    NodesApart(head, was, pool, j, k + 1);
    NodesApart(head, was, pool, j + 1, k + 1);
    NodesApart(head, was, pool, j + 1, k + 2);
  }

  class List {
    const head: Alarm
    /** Every alarm that may ever be on the list. */
    const pool: set<Alarm>
    /** The alarms on it, in list order. */
    ghost var ring: seq<Alarm>

    ghost predicate Valid()
      reads this, head`next, head`previous, pool`next, pool`previous
    {
      && head !in pool
      && (forall a :: a in ring ==> a in pool)
      && Distinct(ring)
      && Linked(head, ring)
      && (forall a :: a in pool && a !in ring ==> a.next == a && a.previous == a)
    }

    constructor (pool: set<Alarm>)
      requires forall a :: a in pool ==> a.next == a && a.previous == a
      ensures Valid() && ring == [] && this.pool == pool && fresh(head)
    {
      var h := new Alarm();
      head := h;
      this.pool := pool;
      ring := [];
    }

    /** Insert at the front. */
    method Insert(entry: Alarm)
      requires Valid() && entry in pool && entry !in ring
      modifies this`ring, head`next, head`previous, pool`next, pool`previous
      ensures Valid() && ring == [entry] + old(ring)
    {
      assert LinkAt(head, ring, 0);
      entry.previous := head;
      entry.next := head.next;
      head.next.previous := entry;
      head.next := entry;
      ghost var was := ring;
      ring := [entry] + ring;
      forall i | 0 <= i <= |ring| ensures LinkAt(head, ring, i) {
        if i >= 1 {
          assert old(LinkAt(head, was, i - 1));
          assert Node(head, ring, i + 1) == Node(head, was, i);
          if i >= 2 {
            assert Node(head, ring, i) == Node(head, was, i - 1);
          }
        }
      }
    }

    /** Close the gap around `entry` and point it to itself. */
    static method Unlink(entry: Alarm)
      modifies entry.next`previous, entry.previous`next, entry`next, entry`previous
      ensures entry.next == entry && entry.previous == entry
      ensures old(entry.next) != entry ==> old(entry.next).previous == old(entry.previous)
      ensures old(entry.previous) != entry ==> old(entry.previous).next == old(entry.next)
    {
      entry.next.previous := entry.previous;
      entry.previous.next := entry.next;
      entry.previous := entry;
      entry.next := entry;
    }

    /** Take `entry` off the list.  Taking it off twice is harmless. */
    method Remove(entry: Alarm)
      requires Valid() && entry in pool
      modifies this`ring, head`next, head`previous, pool`next, pool`previous
      ensures Valid() && ring == Without(old(ring), {entry})
    {
      hide Without, Distinct, Node;
      ghost var was := ring;
      ghost var k := IndexIn(was, entry);
      Neighbours(entry, k);
      Unlink(entry);
      if k < |was| {
        CutOne(was, k);
        WithoutOne(was, k);
        ring := was[..k] + was[k + 1..];
        forall i | 0 <= i <= |ring| ensures LinkAt(head, ring, i) {
          CutNodes(head, was, k, i);
          if i != k {
            var j := if i < k then i else i + 1;
            assert old(LinkAt(head, was, j));
            CutApart(head, was, pool, k, j);
          }
        }
      } else {
        WithoutNone(was, {entry});
      }
    }

    lemma Neighbours(entry: Alarm, k: nat)
      requires Valid() && entry in pool && k <= |ring|
      requires if k < |ring| then ring[k] == entry else entry !in ring
      ensures entry.next == head || entry.next in pool
      ensures entry.previous == head || entry.previous in pool
      ensures k < |ring| ==>
                && entry.previous == Node(head, ring, k) && Node(head, ring, k).next == entry
                && entry.next == Node(head, ring, k + 2) && Node(head, ring, k + 2).previous == entry
                && entry != Node(head, ring, k) && entry != Node(head, ring, k + 2)
    {
      if k < |ring| {
        assert Node(head, ring, k + 1) == ring[k];
        assert LinkAt(head, ring, k) && LinkAt(head, ring, k + 1);
      }
    }

  }

  /** Where `x` is in `s`, or the length of `s`. */
  function IndexIn<T(==)>(s: seq<T>, x: T): (k: nat)
    ensures k <= |s|
    ensures if k < |s| then s[k] == x else x !in s
  {
    if s == [] || s[0] == x then 0 else 1 + IndexIn(s[1..], x)
  }

  /** A sequence without some of its elements. */
  function Without<T(==)>(s: seq<T>, dropped: set<T>): (r: seq<T>)
    ensures |r| <= |s|
  {
    if s == [] then []
    else (if s[0] in dropped then [] else [s[0]]) + Without(s[1..], dropped)
  }

  lemma CutOne<T>(s: seq<T>, k: nat)
    requires k < |s| && Distinct(s)
    ensures Distinct(s[..k] + s[k + 1..])
    ensures forall x :: x in s[..k] + s[k + 1..] <==> x in s && x != s[k]
  {
    var cut := s[..k] + s[k + 1..];
    forall x | x in s && x != s[k] ensures x in cut {
      var j :| 0 <= j < |s| && s[j] == x;
      assert cut[if j < k then j else j - 1] == x;
    }
  }

  lemma {:induction false} WithoutNone<T>(s: seq<T>, dropped: set<T>)
    requires forall x :: x in s ==> x !in dropped
    ensures Without(s, dropped) == s
  {
    if s != [] {
      WithoutNone(s[1..], dropped);
    }
  }

  lemma {:induction false} WithoutOne<T>(s: seq<T>, k: nat)
    requires k < |s| && Distinct(s)
    ensures Without(s, {s[k]}) == s[..k] + s[k + 1..]
  {
    if k == 0 {
      WithoutNone(s[1..], {s[0]});
    } else {
      assert s[1..][k - 1] == s[k];
      WithoutOne(s[1..], k - 1);
    }
  }

  lemma {:induction false} WithoutAppend<T>(a: seq<T>, b: seq<T>, dropped: set<T>)
    ensures Without(a + b, dropped) == Without(a, dropped) + Without(b, dropped)
  {
    if a == [] {
      assert a + b == b;
      assert Without(a, dropped) + Without(b, dropped) == Without(b, dropped);
    } else {
      var h := if a[0] in dropped then [] else [a[0]];
      assert (a + b)[1..] == a[1..] + b && (a + b)[0] == a[0];
      WithoutAppend(a[1..], b, dropped);
      assert h + (Without(a[1..], dropped) + Without(b, dropped))
          == (h + Without(a[1..], dropped)) + Without(b, dropped);
    }
  }

  lemma {:induction false} WithoutMembers<T>(s: seq<T>, dropped: set<T>)
    ensures forall x :: x in Without(s, dropped) <==> x in s && x !in dropped
  {
    if s != [] {
      WithoutMembers(s[1..], dropped);
      assert forall x :: x in s <==> x == s[0] || x in s[1..];
    }
  }

  lemma {:induction false} WithoutDistinct<T>(s: seq<T>, dropped: set<T>)
    requires Distinct(s)
    ensures Distinct(Without(s, dropped))
  {
    if s != [] {
      WithoutDistinct(s[1..], dropped);
      WithoutMembers(s[1..], dropped);
      if s[0] !in dropped {
        assert Without(s, dropped) == [s[0]] + Without(s[1..], dropped);
        assert s[0] !in s[1..];
      }
    }
  }

  lemma {:induction false} WithoutTwice<T>(s: seq<T>, a: set<T>, b: set<T>)
    ensures Without(Without(s, a), b) == Without(s, a + b)
  {
    if s != [] {
      WithoutTwice(s[1..], a, b);
      if s[0] !in a {
        assert Without(s, a) == [s[0]] + Without(s[1..], a);
        assert Without(s, a)[1..] == Without(s[1..], a);
      } else {
        assert Without(s, a) == Without(s[1..], a);
      }
    }
  }

  lemma {:induction false} WithoutSame<T>(s: seq<T>, a: set<T>, b: set<T>)
    requires forall x :: x in s ==> (x in a <==> x in b)
    ensures Without(s, a) == Without(s, b)
  {
    if s != [] {
      assert forall x :: x in s[1..] ==> x in s;
      WithoutSame(s[1..], a, b);
    }
  }

  lemma {:induction false} WithoutMember<T>(s: seq<T>, dropped: set<T>, x: T)
    ensures x in Without(s, dropped) <==> x in s && x !in dropped
  {
    if s != [] {
      WithoutMember(s[1..], dropped, x);
      assert x in s <==> x == s[0] || x in s[1..];
    }
  }
}
