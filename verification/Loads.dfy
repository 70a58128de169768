/**
 The load table of a client: how many connections each server carries, what counting and
 releasing do to it, and what "least loaded" means.
 */
module Loads {
  import opened Prelude

  /** ServerLoadInfo; lastUsed is a clock reading. */
  datatype LoadInfo = LoadInfo(active: int, total: int, lastUsed: int)

  type Table = map<PeerID, LoadInfo>

  function Active(t: Table, p: PeerID): int {
    if p in t then t[p].active else 0
  }

  function Total(t: Table, p: PeerID): int {
    if p in t then t[p].total else 0
  }

  /** TrackConnection. */
  function Track(t: Table, p: PeerID, now: int): Table {
    t[p := LoadInfo(Active(t, p) + 1, Total(t, p) + 1, now)]
  }

  /** ReleaseConnection: an unknown server is ignored, and the count never goes below zero. */
  function Release(t: Table, p: PeerID): Table {
    if p in t then t[p := t[p].(active := if t[p].active - 1 < 0 then 0 else t[p].active - 1)] else t
  }

  /** servers[i] is the first of the servers with the least load. */
  ghost predicate LeftmostLeast(t: Table, servers: seq<PeerID>, i: nat) {
    && i < |servers|
    && (forall j :: 0 <= j < |servers| ==> Active(t, servers[i]) <= Active(t, servers[j]))
    && (forall j :: 0 <= j < i ==> Active(t, servers[i]) < Active(t, servers[j]))
  }

  ghost predicate NonNegative(t: Table) {
    forall p :: p in t ==> t[p].active >= 0
  }

  /** The sum of the active connections of all servers. */
  ghost function SumActive(t: Table): int {
    if t == map[] then 0 else
      var p :| p in t;
      t[p].active + SumActive(t - {p})
  }

  /** The sum does not depend on the order of summation. */
  lemma {:induction false} SumWithout(t: Table, p: PeerID)
    requires p in t
    ensures SumActive(t) == t[p].active + SumActive(t - {p})
    decreases |t|
  {
    var q :| q in t && SumActive(t) == t[q].active + SumActive(t - {q});
    if p != q {
      SumWithout(t - {q}, p);
      SumWithout(t - {p}, q);
      assert t - {q} - {p} == t - {p} - {q};
    }
  }

  lemma SumTrack(t: Table, p: PeerID, now: int)
    ensures SumActive(Track(t, p, now)) == SumActive(t) + 1
  {
    var t' := Track(t, p, now);
    SumWithout(t', p);
    assert t' - {p} == t - {p};
    if p in t {
      SumWithout(t, p);
    } else {
      assert t - {p} == t;
    }
  }

  lemma {:induction false} SumNonNegative(t: Table)
    requires NonNegative(t)
    ensures SumActive(t) >= 0
    decreases |t|
  {
    if t != map[] {
      var p :| p in t;
      SumWithout(t, p);
      SumNonNegative(t - {p});
    }
  }

  /** If each of the servers in s carries at least low, together they carry at least |s| times as much. */
  lemma {:induction false} SumAtLeast(t: Table, s: set<PeerID>, low: int)
    requires NonNegative(t) && forall p :: p in s ==> low <= Active(t, p)
    requires low >= 0
    ensures |s| * low <= SumActive(t)
    decreases |s|
  {
    SumNonNegative(t);
    if s != {} {
      var p :| p in s;
      if p in t {
        SumWithout(t, p);
        var t' := t - {p};
        forall q | q in s - {p} ensures low <= Active(t', q) {
        }
        SumAtLeast(t', s - {p}, low);
        assert |s| * low == |s - {p}| * low + low;
      } else {
        assert low == 0;
      }
    }
  }

  /** If only servers of s are known and each carries at most high, so much for the sum. */
  lemma {:induction false} SumAtMost(t: Table, s: set<PeerID>, high: int)
    requires t.Keys <= s && high >= 0 && forall p :: p in s ==> Active(t, p) <= high
    ensures SumActive(t) <= |s| * high
    decreases |s|
  {
    if s == {} {
      assert t == map[];
    } else {
      var p :| p in s;
      var t' := t - {p};
      forall q | q in s - {p} ensures Active(t', q) <= high {
      }
      SumAtMost(t', s - {p}, high);
      assert |s| * high == |s - {p}| * high + high;
      if p in t {
        SumWithout(t, p);
      } else {
        assert t' == t;
      }
    }
  }

  lemma {:induction false} MoreTimes(n: int, a: int, b: int)
    requires n >= 0
    ensures a < b ==> n * a + n <= n * b
    ensures a <= b ==> n * a <= n * b
    decreases n
  {
    if n > 0 {
      MoreTimes(n - 1, a, b);
      assert n * a == (n - 1) * a + a && n * b == (n - 1) * b + b;
    }
  }

  lemma Quotient(x: int, n: int, q: int)
    requires n > 0
    ensures n * q <= x < n * q + n ==> x / n == q
    ensures n * q <= x ==> q <= x / n
  {
    var d := x / n;
    assert n * d <= x < n * d + n;
    MoreTimes(n, d, q);
    MoreTimes(n, q, d);
  }

  ghost function Servers(servers: seq<PeerID>): set<PeerID> {
    set p | p in servers
  }

  /** A least-loaded choice among at least n distinct servers carries at most an n-th of the sum. */
  lemma LeastIsBelowAverage(t: Table, servers: seq<PeerID>, i: nat, n: nat)
    requires NonNegative(t) && LeftmostLeast(t, servers, i)
    requires 0 < n <= |Servers(servers)|
    ensures Active(t, servers[i]) <= SumActive(t) / n
  {
    var low := Active(t, servers[i]);
    SumAtLeast(t, Servers(servers), low);
    MoreTimes(low, n, |Servers(servers)|);
    assert n * low <= |Servers(servers)| * low;
    Quotient(SumActive(t), n, low);
  }

  /** Loads that differ by at most one and add up to k are all k/n rounded down or up. */
  lemma BalancedShares(t: Table, s: set<PeerID>, p: PeerID)
    requires NonNegative(t) && t.Keys <= s && p in s
    requires forall q, r :: q in s && r in s ==> Active(t, q) <= Active(t, r) + 1
    ensures var n, k := |s|, SumActive(t);
            n > 0 && (Active(t, p) == k / n || Active(t, p) == (k + n - 1) / n)
  {
    var n, k, a := |s|, SumActive(t), Active(t, p);
    assert s == {p} + (s - {p});
    if q :| q in s && Active(t, q) == a - 1 {
      SharesAbove(t, s, q, a);
      SharesBelow(t, s, p, a - 1);
      CeilingShare(n, k, a);
    } else {
      SharesAbove(t, s, p, a + 1);
      SumAtLeast(t, s, a);
      FloorShare(n, k, a);
    }
  }

  lemma SharesBelow(t: Table, s: set<PeerID>, p: PeerID, low: int)
    requires NonNegative(t) && p in s && low >= 0 && Active(t, p) == low + 1
    requires forall r :: r in s ==> low <= Active(t, r)
    ensures |s| * low + 1 <= SumActive(t)
  {
    SumWithout(t, p);
    var t' := t - {p};
    forall r | r in s - {p} ensures low <= Active(t', r) {
      assert low <= Active(t, r);
    }
    SumAtLeast(t', s - {p}, low);
    assert |s| * low == |s - {p}| * low + low;
  }

  lemma SharesAbove(t: Table, s: set<PeerID>, q: PeerID, a: int)
    requires t.Keys <= s && q in s && Active(t, q) == a - 1 && a >= 0
    requires forall r :: r in s ==> Active(t, r) <= a
    ensures SumActive(t) <= |s| * a - 1
  {
    var t' := t - {q};
    forall r | r in s - {q} ensures Active(t', r) <= a {
    }
    SumAtMost(t', s - {q}, a);
    assert |s| * a == |s - {q}| * a + a;
    if q in t {
      SumWithout(t, q);
    } else {
      assert t' == t;
    }
  }

  lemma CeilingShare(n: nat, k: int, a: int)
    requires n > 0 && n * (a - 1) + 1 <= k <= n * a - 1
    ensures a == (k + n - 1) / n
  {
    assert n * (a - 1) == n * a - n;
    Quotient(k + n - 1, n, a);
  }

  lemma FloorShare(n: nat, k: int, a: int)
    requires n > 0 && n * a <= k <= n * (a + 1) - 1
    ensures a == k / n
  {
    Quotient(k, n, a);
  }
}
