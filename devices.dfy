/** The disk and network lists of a snapshot: each keeps the enumerated
    devices that pass a filter, in enumeration order, and copies their
    figures into the snapshot's entries. */
module Devices {
  import opened Records

  /** The entries of `s` that satisfy `keep`, in their order in `s`. */
  function Filter<T>(s: seq<T>, keep: T -> bool): (r: seq<T>)
    ensures |r| <= |s|
    ensures forall i :: 0 <= i < |r| ==> keep(r[i])
    decreases |s|
  {
    if s == [] then []
    else (if keep(s[0]) then [s[0]] else []) + Filter(s[1..], keep)
  }

  /** `f` applied to every entry of `s`, in order. */
  function Map<T, U>(s: seq<T>, f: T -> U): (r: seq<U>)
    ensures |r| == |s|
  {
    seq(|s|, i requires 0 <= i < |s| => f(s[i]))
  }

  lemma {:induction false} FilterAppend<T>(a: seq<T>, b: seq<T>, keep: T -> bool)
    ensures Filter(a + b, keep) == Filter(a, keep) + Filter(b, keep)
    decreases |a|
  {
    if a == [] {
      assert a + b == b;
    } else {
      assert (a + b)[1..] == a[1..] + b;
      FilterAppend(a[1..], b, keep);
    }
  }

  lemma {:induction false} FilterMembers<T>(s: seq<T>, keep: T -> bool)
    ensures forall x :: x in Filter(s, keep) <==> x in s && keep(x)
    decreases |s|
  {
    if s != [] {
      FilterMembers(s[1..], keep);
      assert s == [s[0]] + s[1..];
    }
  }

  lemma MapAppend<T, U>(a: seq<T>, b: seq<T>, f: T -> U)
    ensures Map(a + b, f) == Map(a, f) + Map(b, f)
  {
  }

  lemma MapMembers<T, U>(s: seq<T>, f: T -> U)
    ensures forall y :: y in Map(s, f) <==> exists x :: x in s && f(x) == y
  {
    forall y | y in Map(s, f)
      ensures exists x :: x in s && f(x) == y
    {
      var i :| 0 <= i < |s| && Map(s, f)[i] == y;
      assert s[i] in s;
    }
    forall y | exists x :: x in s && f(x) == y
      ensures y in Map(s, f)
    {
      var x :| x in s && f(x) == y;
      var i :| 0 <= i < |s| && s[i] == x;
      assert Map(s, f)[i] == y;
    }
  }

  // ---------------------------------------------------------------
  // Disks
  // ---------------------------------------------------------------

  /** A volume counts when its total capacity is non-zero. */
  predicate HasCapacity(d: DiskReading) {
    d.totalSpace > 0
  }

  function ToDiskStats(d: DiskReading): DiskStats {
    DiskStats(d.name, d.availableSpace, d.totalSpace)
  }

  /** The snapshot's disk list. */
  function Disks(ds: seq<DiskReading>): (r: seq<DiskStats>)
    ensures |r| <= |ds|
    ensures forall i :: 0 <= i < |r| ==> r[i].total > 0
  {
    Map(Filter(ds, HasCapacity), ToDiskStats)
  }

  /** The disk list is built volume by volume, in enumeration order: a
      volume contributes its own entry when it has capacity and nothing
      otherwise. */
  lemma DisksInOrder(a: seq<DiskReading>, b: seq<DiskReading>, d: DiskReading)
    ensures Disks(a + b) == Disks(a) + Disks(b)
    ensures Disks([d]) == if d.totalSpace > 0 then [DiskStats(d.name, d.availableSpace, d.totalSpace)] else []
  {
    FilterAppend(a, b, HasCapacity);
    MapAppend(Filter(a, HasCapacity), Filter(b, HasCapacity), ToDiskStats);
    assert [d][1..] == [];
    assert Filter([d], HasCapacity) == if HasCapacity(d) then [d] else [];
    assert Map([d], ToDiskStats) == [ToDiskStats(d)];
  }

  /** A volume is listed exactly when it has capacity, with its name and
      figures unchanged, and nothing else is listed. */
  lemma DisksExactly(ds: seq<DiskReading>)
    ensures forall d :: d in ds ==> (DiskStats(d.name, d.availableSpace, d.totalSpace) in Disks(ds) <==> d.totalSpace > 0)
    ensures forall e :: e in Disks(ds) ==>
              exists d :: d in ds && d.totalSpace > 0 && e == DiskStats(d.name, d.availableSpace, d.totalSpace)
  {
    FilterMembers(ds, HasCapacity);
    MapMembers(Filter(ds, HasCapacity), ToDiskStats);
  }

  // ---------------------------------------------------------------
  // Network
  // ---------------------------------------------------------------

  /** An interface counts when it has received or transmitted any byte. */
  predicate HasTraffic(n: NetReading) {
    n.totalReceived > 0 || n.totalTransmitted > 0
  }

  function ToNetStats(n: NetReading): NetStats {
    NetStats(n.name, n.totalReceived, n.totalTransmitted,
             n.packetsReceived, n.packetsTransmitted,
             n.errorsReceived, n.errorsTransmitted)
  }

  /** The snapshot's network list. */
  function Network(ns: seq<NetReading>): (r: seq<NetStats>)
    ensures |r| <= |ns|
    ensures forall i :: 0 <= i < |r| ==> r[i].rxBytes > 0 || r[i].txBytes > 0
  {
    Map(Filter(ns, HasTraffic), ToNetStats)
  }

  /** The network list is built interface by interface, in enumeration
      order. */
  lemma NetworkInOrder(a: seq<NetReading>, b: seq<NetReading>, n: NetReading)
    ensures Network(a + b) == Network(a) + Network(b)
    ensures Network([n]) == if n.totalReceived > 0 || n.totalTransmitted > 0 then [ToNetStats(n)] else []
  {
    FilterAppend(a, b, HasTraffic);
    MapAppend(Filter(a, HasTraffic), Filter(b, HasTraffic), ToNetStats);
    assert [n][1..] == [];
    assert Filter([n], HasTraffic) == if HasTraffic(n) then [n] else [];
    assert Map([n], ToNetStats) == [ToNetStats(n)];
  }

  /** An interface is listed exactly when it has traffic, with all six
      counters unchanged, and nothing else is listed. */
  lemma NetworkExactly(ns: seq<NetReading>)
    ensures forall n :: n in ns ==>
              (ToNetStats(n) in Network(ns) <==> n.totalReceived > 0 || n.totalTransmitted > 0)
    ensures forall e :: e in Network(ns) ==>
              exists n :: n in ns && (n.totalReceived > 0 || n.totalTransmitted > 0) &&
                e == NetStats(n.name, n.totalReceived, n.totalTransmitted,
                              n.packetsReceived, n.packetsTransmitted,
                              n.errorsReceived, n.errorsTransmitted)
  {
    FilterMembers(ns, HasTraffic);
    MapMembers(Filter(ns, HasTraffic), ToNetStats);
  }
}
