/** Notices and the newest-first order both notice views sort them into
    (`data.sort((a, b) => b.date - a.date)`, a stable sort). Dates are
    timestamps as integers. */
module Notices {
  import opened Seqs

  datatype Notice = Notice(id: string, message: string, date: int)

  /** Non-increasing by date. */
  predicate NewestFirst(ns: seq<Notice>) {
    forall i, j :: 0 <= i < j < |ns| ==> ns[i].date >= ns[j].date
  }

  /** A notice at least as new as a newest-first list can go in front of it. */
  lemma PrependNewestFirst(n: Notice, ns: seq<Notice>)
    requires NewestFirst(ns)
    requires forall k :: 0 <= k < |ns| ==> ns[k].date <= n.date
    ensures NewestFirst([n] + ns)
  {
  }

  /** Dropping the newest notice keeps the order of the rest. */
  lemma TailNewestFirst(ns: seq<Notice>)
    requires |ns| > 0 && NewestFirst(ns)
    ensures NewestFirst(ns[1..])
    ensures forall k :: 0 <= k < |ns[1..]| ==> ns[1..][k].date <= ns[0].date
  {
  }

  /** The notices of `ns` dated `d`, in order. */
  function WithDate(ns: seq<Notice>, d: int): seq<Notice> {
    if |ns| == 0 then []
    else (if ns[0].date == d then [ns[0]] else []) + WithDate(ns[1..], d)
  }

  /** Place `n` into a newest-first list after every strictly newer notice
      and before the rest. */
  function Insert(n: Notice, sorted: seq<Notice>): (r: seq<Notice>)
    requires NewestFirst(sorted)
    ensures NewestFirst(r)
    ensures multiset(r) == multiset{n} + multiset(sorted)
    ensures |r| == |sorted| + 1
    ensures r[0] == n || (|sorted| > 0 && r[0] == sorted[0])
  {
    if |sorted| == 0 || sorted[0].date <= n.date then [n] + sorted
    else
      var rest := Insert(n, sorted[1..]);
      assert sorted == [sorted[0]] + sorted[1..];
      assert multiset(sorted) == multiset{sorted[0]} + multiset(sorted[1..]);
      TailNewestFirst(sorted);
      PrependNewestFirst(sorted[0], rest);
      var r := [sorted[0]] + rest;
      assert r[0] == sorted[0] && r[1..] == rest;
      r
  }

  /** The sort: a newest-first permutation of its input. */
  function SortNewestFirst(ns: seq<Notice>): (r: seq<Notice>)
    ensures NewestFirst(r)
    ensures multiset(r) == multiset(ns)
    ensures |r| == |ns|
  {
    if |ns| == 0 then []
    else
      assert ns == [ns[0]] + ns[1..];
      Insert(ns[0], SortNewestFirst(ns[1..]))
  }

  /** `WithDate` of a list with a known first notice. */
  lemma WithDateCons(x: Notice, xs: seq<Notice>, d: int)
    ensures WithDate([x] + xs, d) == (if x.date == d then [x] else []) + WithDate(xs, d)
  {
    assert ([x] + xs)[1..] == xs;
  }

  /** Inserting `n` adds it in front of the notices sharing its date and
      leaves other dates alone. */
  lemma {:induction false} InsertWithDate(n: Notice, sorted: seq<Notice>, d: int)
    requires NewestFirst(sorted)
    ensures WithDate(Insert(n, sorted), d) == (if n.date == d then [n] else []) + WithDate(sorted, d)
  {
    if |sorted| == 0 || sorted[0].date <= n.date {
      WithDateCons(n, sorted, d);
    } else {
      TailNewestFirst(sorted);
      InsertWithDate(n, sorted[1..], d);
      var rest := Insert(n, sorted[1..]);
      assert Insert(n, sorted) == [sorted[0]] + rest;
      WithDateCons(sorted[0], rest, d);
      WithDateCons(sorted[0], sorted[1..], d);
      assert [sorted[0]] + sorted[1..] == sorted;
      assert n.date == d ==> sorted[0].date != d;
    }
  }

  /** The sort is stable: notices with equal dates keep their relative order. */
  lemma {:induction false} SortStable(ns: seq<Notice>, d: int)
    ensures WithDate(SortNewestFirst(ns), d) == WithDate(ns, d)
  {
    if |ns| > 0 {
      SortStable(ns[1..], d);
      InsertWithDate(ns[0], SortNewestFirst(ns[1..]), d);
    }
  }

  /** A notice newer than every other comes out first. */
  lemma NewestComesFirst(ns: seq<Notice>, n: Notice)
    requires forall k :: 0 <= k < |ns| ==> ns[k].date < n.date
    ensures SortNewestFirst(ns + [n])[0] == n
  {
    var r := SortNewestFirst(ns + [n]);
    assert n in multiset(ns + [n]);
    assert n in multiset(r);
    var i :| 0 <= i < |r| && r[i] == n;
    assert r[0] in multiset(ns + [n]);
  }
}
