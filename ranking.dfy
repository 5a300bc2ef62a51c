/** The top-processes ranking of one sample: the process table is mapped to
    entries in enumeration order, sorted in place by CPU usage, highest
    first, with a stable sort, and cut down to the first ten. */
module Ranking {
  import opened Records

  /** How many processes a snapshot lists at most. */
  const TOP_COUNT: nat := 10

  /** The sort key: CPU usage in hundredths of a percent. */
  function Key(p: ProcessStats): int {
    p.cpu
  }

  /** The entry for one process; a missing executable path becomes "". */
  function ToProcessStats(p: ProcessReading): ProcessStats {
    ProcessStats(p.pid, p.name, p.exe.GetOr(""), p.memory, p.cpuUsage)
  }

  /** The entries of a process table, in enumeration order. */
  function ProcessList(rs: seq<ProcessReading>): (ps: seq<ProcessStats>)
    ensures |ps| == |rs|
    ensures forall i :: 0 <= i < |rs| ==>
              ps[i].pid == rs[i].pid && ps[i].name == rs[i].name && ps[i].memory == rs[i].memory &&
              ps[i].cpu == rs[i].cpuUsage && ps[i].exe == (if rs[i].exe.Some? then rs[i].exe.value else "")
  {
    seq(|rs|, i requires 0 <= i < |rs| => ToProcessStats(rs[i]))
  }

  /** Every entry is at least as busy as every entry after it. */
  predicate SortedDesc(s: seq<ProcessStats>) {
    forall i, j :: 0 <= i < j < |s| ==> Key(s[i]) >= Key(s[j])
  }

  /** The entries of `s` whose key is `k`, in their order in `s`. */
  function WithKey(s: seq<ProcessStats>, k: int): seq<ProcessStats> {
    if s == [] then []
    else (if Key(s[0]) == k then [s[0]] else []) + WithKey(s[1..], k)
  }

  // ---------------------------------------------------------------
  // The stable descending sort, as a function
  // ---------------------------------------------------------------

  /** Puts `x` behind the entries of `t` that are at least as busy as it,
      walking from the back past those that are less busy (one step of a
      stable insertion sort). */
  function Insert(t: seq<ProcessStats>, x: ProcessStats): (r: seq<ProcessStats>)
    ensures |r| == |t| + 1
    decreases |t|
  {
    if t == [] || Key(t[|t| - 1]) >= Key(x) then t + [x]
    else Insert(t[..|t| - 1], x) + [t[|t| - 1]]
  }

  /** The stable sort by key, highest first. */
  function SortDesc(s: seq<ProcessStats>): (r: seq<ProcessStats>)
    ensures |r| == |s|
    decreases |s|
  {
    if s == [] then [] else Insert(SortDesc(s[..|s| - 1]), s[|s| - 1])
  }

  /** The ranking a snapshot carries: the first ten of the sorted table. */
  function Ranked(rs: seq<ProcessReading>): (top: seq<ProcessStats>)
    ensures |top| == Min(TOP_COUNT, |rs|)
  {
    var sorted := SortDesc(ProcessList(rs));
    sorted[..Min(TOP_COUNT, |sorted|)]
  }

  // ---------------------------------------------------------------
  // Facts about WithKey
  // ---------------------------------------------------------------

  lemma {:induction false} WithKeyAppend(a: seq<ProcessStats>, b: seq<ProcessStats>, k: int)
    ensures WithKey(a + b, k) == WithKey(a, k) + WithKey(b, k)
    decreases |a|
  {
    if a == [] {
      assert a + b == b;
    } else {
      var head := if Key(a[0]) == k then [a[0]] else [];
      assert (a + b)[0] == a[0] && (a + b)[1..] == a[1..] + b;
      assert WithKey(a + b, k) == head + WithKey(a[1..] + b, k);
      assert WithKey(a, k) == head + WithKey(a[1..], k);
      WithKeyAppend(a[1..], b, k);
      assert head + (WithKey(a[1..], k) + WithKey(b, k)) == (head + WithKey(a[1..], k)) + WithKey(b, k);
    }
  }

  /** Filtering by key keeps only entries of the sequence with that key. */
  lemma {:induction false} WithKeyElements(s: seq<ProcessStats>, k: int)
    ensures forall y :: y in WithKey(s, k) ==> y in s && Key(y) == k
    decreases |s|
  {
    if s != [] {
      WithKeyElements(s[1..], k);
    }
  }

  // ---------------------------------------------------------------
  // Properties of Insert and SortDesc
  // ---------------------------------------------------------------

  lemma {:induction false} InsertMultiset(t: seq<ProcessStats>, x: ProcessStats)
    ensures multiset(Insert(t, x)) == multiset(t) + multiset{x}
    decreases |t|
  {
    if t == [] || Key(t[|t| - 1]) >= Key(x) {
    } else {
      var init, last := t[..|t| - 1], t[|t| - 1];
      InsertMultiset(init, x);
      assert t == init + [last];
    }
  }

  lemma {:induction false} InsertSorted(t: seq<ProcessStats>, x: ProcessStats)
    requires SortedDesc(t)
    ensures SortedDesc(Insert(t, x))
    decreases |t|
  {
    if t == [] || Key(t[|t| - 1]) >= Key(x) {
    } else {
      var init, last := t[..|t| - 1], t[|t| - 1];
      InsertSorted(init, x);
      InsertMultiset(init, x);
      var r := Insert(init, x);
      forall i | 0 <= i < |r|
        ensures Key(r[i]) >= Key(last)
      {
        assert r[i] in multiset(init) + multiset{x};
        if r[i] != x {
          assert r[i] in init;
          var j :| 0 <= j < |init| && init[j] == r[i];
          assert t[j] == r[i];
        }
      }
    }
  }

  /** Inserting `x` keeps the order of equal-key entries: `x` lands behind
      every entry of `t` that has its key. */
  lemma {:induction false} InsertWithKey(t: seq<ProcessStats>, x: ProcessStats, k: int)
    ensures WithKey(Insert(t, x), k) == WithKey(t + [x], k)
    decreases |t|
  {
    if t == [] || Key(t[|t| - 1]) >= Key(x) {
    } else {
      var init, last := t[..|t| - 1], t[|t| - 1];
      InsertWithKey(init, x, k);
      assert t == init + [last];
      assert t + [x] == init + [last] + [x];
      WithKeyAppend(Insert(init, x), [last], k);
      WithKeyAppend(init, [x], k);
      WithKeyAppend(init + [last], [x], k);
      WithKeyAppend(init, [last], k);
    }
  }

  lemma {:induction false} SortDescSorted(s: seq<ProcessStats>)
    ensures SortedDesc(SortDesc(s))
    decreases |s|
  {
    if s != [] {
      SortDescSorted(s[..|s| - 1]);
      InsertSorted(SortDesc(s[..|s| - 1]), s[|s| - 1]);
    }
  }

  lemma {:induction false} SortDescPermutation(s: seq<ProcessStats>)
    ensures multiset(SortDesc(s)) == multiset(s)
    decreases |s|
  {
    if s != [] {
      var init, last := s[..|s| - 1], s[|s| - 1];
      SortDescPermutation(init);
      InsertMultiset(SortDesc(init), last);
      assert s == init + [last];
    }
  }

  /** Stability: for every key, the entries with that key appear in the
      sorted sequence in exactly their enumeration order. */
  lemma {:induction false} SortDescStable(s: seq<ProcessStats>, k: int)
    ensures WithKey(SortDesc(s), k) == WithKey(s, k)
    decreases |s|
  {
    if s != [] {
      var init, last := s[..|s| - 1], s[|s| - 1];
      SortDescStable(init, k);
      InsertWithKey(SortDesc(init), last, k);
      WithKeyAppend(SortDesc(init), [last], k);
      WithKeyAppend(init, [last], k);
      assert s == init + [last];
    }
  }

  lemma HeadKeyPresent(s: seq<ProcessStats>)
    ensures s != [] ==> WithKey(s, Key(s[0])) != []
  {
  }

  lemma SortedTail(s: seq<ProcessStats>)
    requires s != [] && SortedDesc(s)
    ensures SortedDesc(s[1..])
  {
    forall i, j | 0 <= i < j < |s| - 1
      ensures Key(s[1..][i]) >= Key(s[1..][j])
    {
      assert s[1..][i] == s[i + 1] && s[1..][j] == s[j + 1];
    }
  }

  /** Two non-empty sequences sorted by key that agree on the order within
      every key start with the same entry. */
  lemma SameHead(r1: seq<ProcessStats>, r2: seq<ProcessStats>)
    requires r1 != [] && r2 != []
    requires SortedDesc(r1) && SortedDesc(r2)
    requires forall k :: WithKey(r1, k) == WithKey(r2, k)
    ensures r1[0] == r2[0]
  {
    var m1, m2 := Key(r1[0]), Key(r2[0]);
    WithKeyElements(r1, m2);
    WithKeyElements(r2, m1);
    assert WithKey(r1, m1)[0] == r1[0];
    assert WithKey(r2, m2)[0] == r2[0];
    assert WithKey(r2, m1) == WithKey(r1, m1);
    assert WithKey(r1, m2) == WithKey(r2, m2);
    assert r1[0] in r2;
    assert r2[0] in r1;
    assert m1 == m2;
  }

  /** Dropping one same head from two sequences keeps them agreeing on the
      order within every key. */
  lemma SameTails(r1: seq<ProcessStats>, r2: seq<ProcessStats>, k: int)
    requires r1 != [] && r2 != [] && r1[0] == r2[0]
    requires WithKey(r1, k) == WithKey(r2, k)
    ensures WithKey(r1[1..], k) == WithKey(r2[1..], k)
  {
    var head := if Key(r1[0]) == k then [r1[0]] else [];
    assert WithKey(r1, k) == head + WithKey(r1[1..], k);
    assert WithKey(r2, k) == head + WithKey(r2[1..], k);
    assert WithKey(r1[1..], k) == WithKey(r1, k)[|head|..];
  }

  /** Two sequences sorted by key that agree on the order within every key
      are the same sequence. */
  lemma {:induction false} SortedUnique(r1: seq<ProcessStats>, r2: seq<ProcessStats>)
    requires SortedDesc(r1) && SortedDesc(r2)
    requires forall k :: WithKey(r1, k) == WithKey(r2, k)
    ensures r1 == r2
    decreases |r1|
  {
    HeadKeyPresent(r1);
    HeadKeyPresent(r2);
    if r1 != [] && r2 != [] {
      SameHead(r1, r2);
      SortedTail(r1);
      SortedTail(r2);
      forall k
        ensures WithKey(r1[1..], k) == WithKey(r2[1..], k)
      {
        SameTails(r1, r2, k);
      }
      SortedUnique(r1[1..], r2[1..]);
      assert r1 == [r1[0]] + r1[1..];
      assert r2 == [r2[0]] + r2[1..];
    }
  }

  /** SortDesc is the stable descending sort: any sequence sorted by key
      that keeps the enumeration order within every key equals it. So any
      stable sort, such as the merge sort behind Rust's `sort_by`, gives
      this result. */
  lemma StableSortIsSortDesc(s: seq<ProcessStats>, r: seq<ProcessStats>)
    requires SortedDesc(r)
    requires forall k :: WithKey(r, k) == WithKey(s, k)
    ensures r == SortDesc(s)
  {
    SortDescSorted(s);
    forall k
      ensures WithKey(r, k) == WithKey(SortDesc(s), k)
    {
      SortDescStable(s, k);
    }
    SortedUnique(r, SortDesc(s));
  }

  // ---------------------------------------------------------------
  // Properties of the ranking
  // ---------------------------------------------------------------

  lemma RankedSorted(rs: seq<ProcessReading>)
    ensures SortedDesc(Ranked(rs))
  {
    SortDescSorted(ProcessList(rs));
  }

  /** Every ranked entry is a distinct entry of the process table. */
  lemma RankedFromTable(rs: seq<ProcessReading>)
    ensures multiset(Ranked(rs)) <= multiset(ProcessList(rs))
  {
    var sorted := SortDesc(ProcessList(rs));
    var n := Min(TOP_COUNT, |sorted|);
    SortDescPermutation(ProcessList(rs));
    assert sorted == sorted[..n] + sorted[n..];
  }

  /** In a sorted sequence, every entry of the first `n` is at least as busy
      as every entry left after them. */
  lemma SortedPrefixIsTop(sorted: seq<ProcessStats>, n: nat)
    requires SortedDesc(sorted) && n <= |sorted|
    ensures forall e, i ::
              e in multiset(sorted) - multiset(sorted[..n]) && 0 <= i < n ==> Key(sorted[i]) >= Key(e)
  {
    assert sorted == sorted[..n] + sorted[n..];
    assert multiset(sorted) - multiset(sorted[..n]) == multiset(sorted[n..]);
    forall e, i | e in multiset(sorted[n..]) && 0 <= i < n
      ensures Key(sorted[i]) >= Key(e)
    {
      var j :| 0 <= j < |sorted[n..]| && sorted[n..][j] == e;
      assert sorted[n + j] == e;
    }
  }

  /** The ranking holds the busiest processes: no entry left out is busier
      than any entry kept. */
  lemma RankedIsTop(rs: seq<ProcessReading>)
    ensures var top := Ranked(rs);
      forall e, i :: e in multiset(ProcessList(rs)) - multiset(top) && 0 <= i < |top|
        ==> Key(top[i]) >= Key(e)
  {
    var sorted := SortDesc(ProcessList(rs));
    SortDescPermutation(ProcessList(rs));
    SortDescSorted(ProcessList(rs));
    SortedPrefixIsTop(sorted, Min(TOP_COUNT, |sorted|));
  }

  /** Stability of the ranking: among the processes with one CPU usage, the
      ranking lists the earliest-enumerated ones, in enumeration order. */
  lemma RankedStable(rs: seq<ProcessReading>, k: int)
    ensures WithKey(Ranked(rs), k) <= WithKey(ProcessList(rs), k)
  {
    var sorted := SortDesc(ProcessList(rs));
    var n := Min(TOP_COUNT, |sorted|);
    assert sorted == sorted[..n] + sorted[n..];
    WithKeyAppend(sorted[..n], sorted[n..], k);
    SortDescStable(ProcessList(rs), k);
  }

  // ---------------------------------------------------------------
  // The in-place sort and the ranking as the agent computes them
  // ---------------------------------------------------------------

  /** Insert puts `x` right behind the first `j` entries when it must walk
      past all the others and may not walk past the `j`-th. */
  lemma {:induction false} InsertPassed(t: seq<ProcessStats>, j: nat, x: ProcessStats)
    requires j <= |t| && (j == 0 || Key(t[j - 1]) >= Key(x))
    requires forall k :: j <= k < |t| ==> Key(t[k]) < Key(x)
    ensures Insert(t, x) == t[..j] + [x] + t[j..]
    decreases |t|
  {
    if j < |t| {
      var init, last := t[..|t| - 1], t[|t| - 1];
      assert Key(last) < Key(x);
      assert Insert(t, x) == Insert(init, x) + [last];
      assert j == 0 || init[j - 1] == t[j - 1];
      assert forall k :: j <= k < |init| ==> init[k] == t[k];
      InsertPassed(init, j, x);
      assert init[..j] == t[..j];
      assert init[j..] + [last] == t[j..];
      calc {
        Insert(t, x);
        Insert(init, x) + [last];
        init[..j] + [x] + init[j..] + [last];
        t[..j] + [x] + (init[j..] + [last]);
      }
    } else {
      assert t[..j] == t && t[j..] == [];
    }
  }

  /** Moves `a[i]` left past the less busy entries of the sorted prefix
      `a[..i]`, shifting them one place right. */
  method InsertInPlace(a: array<ProcessStats>, i: nat)
    requires i < a.Length
    modifies a
    ensures a[..i + 1] == Insert(old(a[..i]), old(a[i]))
    ensures forall k :: i < k < a.Length ==> a[k] == old(a[k])
  {
    var x := a[i];
    ghost var t := a[..i];
    var j := i;
    while j > 0 && Key(a[j - 1]) < Key(x)
      invariant 0 <= j <= i
      invariant forall k :: 0 <= k < j ==> a[k] == t[k]
      invariant forall k :: j < k <= i ==> a[k] == t[k - 1]
      invariant forall k :: i < k < a.Length ==> a[k] == old(a[k])
      invariant forall k :: j <= k < i ==> Key(t[k]) < Key(x)
    {
      a[j] := a[j - 1];
      j := j - 1;
    }
    a[j] := x;
    InsertPassed(t, j, x);
    ghost var r := t[..j] + [x] + t[j..];
    forall k | 0 <= k <= i
      ensures a[k] == r[k]
    {
      if k < j {
        assert r[k] == t[k];
      } else if j < k {
        assert r[k] == t[k - 1];
      }
    }
    assert a[..i + 1] == r;
  }

  /** Sorting one more entry of `s` inserts it into the sorted prefix. */
  lemma SortDescStep(s: seq<ProcessStats>, i: nat)
    requires i < |s|
    ensures SortDesc(s[..i + 1]) == Insert(SortDesc(s[..i]), s[i])
  {
    assert s[..i + 1][..i] == s[..i];
    assert s[..i + 1][i] == s[i];
  }

  /** Stable in-place sort of `a` by key, highest first. */
  method SortInPlace(a: array<ProcessStats>)
    modifies a
    ensures a[..] == SortDesc(old(a[..]))
  {
    ghost var orig := a[..];
    var i := 0;
    while i < a.Length
      invariant 0 <= i <= a.Length
      invariant a[..i] == SortDesc(orig[..i])
      invariant forall k :: i <= k < a.Length ==> a[k] == orig[k]
    {
      InsertInPlace(a, i);
      SortDescStep(orig, i);
      i := i + 1;
    }
    assert a[..] == a[..a.Length];
    assert orig == orig[..a.Length];
  }

  /** Lines up the process table, sorts it and keeps the first ten. */
  method RankProcesses(rs: seq<ProcessReading>) returns (top: seq<ProcessStats>)
    ensures top == Ranked(rs)
    ensures |top| == Min(TOP_COUNT, |rs|)
  {
    var procs := ProcessList(rs);
    var a := new ProcessStats[|procs|](i requires 0 <= i < |procs| => procs[i]);
    assert a[..] == procs;
    SortInPlace(a);
    top := a[..Min(TOP_COUNT, a.Length)];
  }
}
