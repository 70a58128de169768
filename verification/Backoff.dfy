/**
 Connection failure tracking: after maxFailures failures in a row a peer is left alone for
 blacklistTime. Times are readings of one non-decreasing clock.
 */
module Backoff {
  import opened Prelude

  /** PeerFailureInfo. */
  datatype FailureInfo = FailureInfo(count: int, lastFailure: int, lastSuccess: int)

  type Failures = map<PeerID, FailureInfo>

  datatype Policy = Policy(maxFailures: int, blacklistTime: int)

  const NEVER: int := 0

  function Info(f: Failures, p: PeerID): FailureInfo {
    if p in f then f[p] else FailureInfo(0, NEVER, NEVER)
  }

  /** isBlacklisted: the answer. */
  predicate Blacklisted(pol: Policy, f: Failures, p: PeerID, now: int) {
    p in f && f[p].count >= pol.maxFailures && now - f[p].lastFailure < pol.blacklistTime
  }

  /** isBlacklisted: an expired blacklisting resets the count. */
  function Gate(pol: Policy, f: Failures, p: PeerID, now: int): Failures {
    if p in f && f[p].count >= pol.maxFailures && now - f[p].lastFailure >= pol.blacklistTime
    then f[p := f[p].(count := 0)] else f
  }

  /** recordConnectionFailure. */
  function RecordFailure(f: Failures, p: PeerID, now: int): Failures {
    f[p := Info(f, p).(count := Info(f, p).count + 1, lastFailure := now)]
  }

  /** recordConnectionSuccess. */
  function RecordSuccess(f: Failures, p: PeerID, now: int): Failures {
    f[p := Info(f, p).(count := 0, lastSuccess := now)]
  }

  /** What happens after a peer has passed the gate. */
  datatype Dial = NotDialled | Failed(at: int) | Succeeded(at: int)

  /** One turn of the discovery loop with one peer: the gate at a given time, then perhaps a dial. */
  datatype Attempt = Attempt(peer: PeerID, gateAt: int, dial: Dial)

  function Try(pol: Policy, f: Failures, a: Attempt): Failures {
    if Blacklisted(pol, f, a.peer, a.gateAt) then f
    else
      var f' := Gate(pol, f, a.peer, a.gateAt);
      match a.dial
      case NotDialled => f'
      case Failed(at) => RecordFailure(f', a.peer, at)
      case Succeeded(at) => RecordSuccess(f', a.peer, at)
  }

  function TryAll(pol: Policy, f: Failures, attempts: seq<Attempt>): Failures
    decreases |attempts|
  {
    if attempts == [] then f else TryAll(pol, Try(pol, f, attempts[0]), attempts[1..])
  }

  lemma {:induction false} TryAllSnoc(pol: Policy, f: Failures, attempts: seq<Attempt>, a: Attempt)
    ensures TryAll(pol, f, attempts + [a]) == Try(pol, TryAll(pol, f, attempts), a)
    decreases |attempts|
  {
    if attempts == [] {
      assert attempts + [a] == [a] && [a][1..] == [];
    } else {
      TryAllSnoc(pol, Try(pol, f, attempts[0]), attempts[1..], a);
      assert (attempts + [a])[1..] == attempts[1..] + [a];
    }
  }

  // ---------------------------------------------------------------------------------------------
  // Histories

  /** A recorded dial of the peer under watch. */
  datatype Mark = Mark(ok: bool, at: int)

  /** The marks that a turn of the loop adds to the history of p. */
  function NewMarks(pol: Policy, f: Failures, a: Attempt, p: PeerID): seq<Mark> {
    if a.peer != p || Blacklisted(pol, f, p, a.gateAt) || a.dial.NotDialled? then []
    else [Mark(a.dial.Succeeded?, a.dial.at)]
  }

  /** All recorded dials of p, in order. */
  function History(pol: Policy, f: Failures, attempts: seq<Attempt>, p: PeerID): seq<Mark>
    decreases |attempts|
  {
    if attempts == [] then []
    else NewMarks(pol, f, attempts[0], p) + History(pol, Try(pol, f, attempts[0]), attempts[1..], p)
  }

  /** The last clock reading of a turn. */
  function EndOf(a: Attempt): int {
    if a.dial.NotDialled? then a.gateAt else a.dial.at
  }

  /** The clock never runs backwards, from now on. */
  ghost predicate InTime(now: int, attempts: seq<Attempt>)
    decreases |attempts|
  {
    attempts == [] || (now <= attempts[0].gateAt <= EndOf(attempts[0]) && InTime(EndOf(attempts[0]), attempts[1..]))
  }

  /** Some failure in h[i..j] comes at least blacklistTime after the one before it. */
  ghost predicate HasPause(pol: Policy, h: seq<Mark>, i: nat, j: nat)
    requires j <= |h|
  {
    exists k :: i < k < j && h[k].at - h[k - 1].at >= pol.blacklistTime
  }

  ghost predicate AllFailed(h: seq<Mark>, i: nat, j: nat)
    requires j <= |h|
  {
    forall k :: i <= k < j ==> !h[k].ok
  }

  /** Every maxFailures + 1 consecutive failures contain a pause. */
  ghost predicate Paused(pol: Policy, h: seq<Mark>)
    requires pol.maxFailures >= 1
  {
    forall i: nat, j: nat :: j == i + pol.maxFailures + 1 <= |h| && AllFailed(h, i, j) ==> HasPause(pol, h, i, j)
  }

  // ---------------------------------------------------------------------------------------------
  // What the record says about the history

  /** How many failures in a row the history ends with. */
  function Streak(h: seq<Mark>): (k: nat)
    ensures k <= |h|
  {
    if h == [] || h[|h| - 1].ok then 0 else 1 + Streak(h[..|h| - 1])
  }

  lemma {:induction false} StreakFailed(h: seq<Mark>)
    ensures AllFailed(h, |h| - Streak(h), |h|)
    ensures Streak(h) < |h| ==> h[|h| - Streak(h) - 1].ok
    decreases |h|
  {
    if h != [] && !h[|h| - 1].ok {
      StreakFailed(h[..|h| - 1]);
    }
  }

  lemma StreakSnoc(h: seq<Mark>, m: Mark)
    ensures Streak(h + [m]) == if m.ok then 0 else 1 + Streak(h)
  {
    assert (h + [m])[..|h|] == h;
  }

  /** The history ends with maxFailures failures, or twice as many, and so on, and nothing else since the last success. */
  predicate Due(pol: Policy, h: seq<Mark>)
    requires pol.maxFailures >= 1
  {
    Streak(h) > 0 && Streak(h) % pol.maxFailures == 0
  }

  /** When the last dial of p with this outcome was. */
  function LastTime(h: seq<Mark>, ok: bool): int {
    if h == [] then NEVER else if h[|h| - 1].ok == ok then h[|h| - 1].at else LastTime(h[..|h| - 1], ok)
  }

  /** The failure count that belongs to a streak of k failures: it starts again after every maxFailures of them. */
  function CountFor(pol: Policy, k: nat): int
    requires pol.maxFailures >= 1
  {
    if k == 0 then 0 else (k - 1) % pol.maxFailures + 1
  }

  lemma {:induction false} CountCycle(pol: Policy, k: nat)
    requires pol.maxFailures >= 1
    ensures 0 <= CountFor(pol, k) <= pol.maxFailures
    ensures CountFor(pol, k) == pol.maxFailures <==> k > 0 && k % pol.maxFailures == 0
    ensures CountFor(pol, k + 1) == if CountFor(pol, k) == pol.maxFailures then 1 else CountFor(pol, k) + 1
  {
    var n := pol.maxFailures;
    if k > 0 {
      NextRemainder(k - 1, n);
    } else {
      assert 0 % n == 0;
    }
  }

  lemma NextRemainder(x: nat, n: nat)
    requires n >= 1
    ensures (x + 1) % n == if x % n == n - 1 then 0 else x % n + 1
  {
    var q, r := x / n, x % n;
    assert x == q * n + r;
    if r == n - 1 {
      assert x + 1 == (q + 1) * n;
      Remainder(x + 1, n, q + 1, 0);
    } else {
      Remainder(x + 1, n, q, r + 1);
    }
  }

  lemma Remainder(x: nat, n: nat, q: int, r: int)
    requires n >= 1 && x == q * n + r && 0 <= r < n
    ensures x % n == r
  {
    var d := x / n - q;
    assert x % n - r == -(d * n);
    assert d >= 1 ==> d * n >= n;
    assert d <= -1 ==> d * n + n <= 0;
  }

  /** Every dial that follows maxFailures failures in a row, or twice as many, and so on, comes a blacklistTime after the last of them. */
  ghost predicate Rested(pol: Policy, h: seq<Mark>)
    requires pol.maxFailures >= 1
  {
    forall i :: 0 < i < |h| && Due(pol, h[..i]) ==> h[i].at - h[i - 1].at >= pol.blacklistTime
  }

  /** What the record of p says, from its history h alone: the times of the last failure and the last success, and the count, unless an expired blacklisting has been noticed. */
  ghost predicate Mirrors(pol: Policy, f: Failures, p: PeerID, h: seq<Mark>, now: int)
    requires pol.maxFailures >= 1
  {
    var info := Info(f, p);
    && info.lastFailure == LastTime(h, false) && info.lastSuccess == LastTime(h, true)
    && (Streak(h) > 0 ==> p in f && info.lastFailure == h[|h| - 1].at)
    && (info.count == CountFor(pol, Streak(h)) || (info.count == 0 && Due(pol, h) && now - info.lastFailure >= pol.blacklistTime))
  }

  lemma AnswerExact(pol: Policy, f: Failures, p: PeerID, h: seq<Mark>, now: int, later: int)
    requires pol.maxFailures >= 1 && Mirrors(pol, f, p, h, now) && now <= later
    ensures Blacklisted(pol, f, p, later) <==> Due(pol, h) && later - h[|h| - 1].at < pol.blacklistTime
  {
    CountCycle(pol, Streak(h));
  }

  lemma GateMirrors(pol: Policy, f: Failures, p: PeerID, h: seq<Mark>, now: int, gateAt: int)
    requires pol.maxFailures >= 1 && Mirrors(pol, f, p, h, now) && now <= gateAt
    ensures Mirrors(pol, Gate(pol, f, p, gateAt), p, h, gateAt)
    ensures !Blacklisted(pol, f, p, gateAt) ==> Info(Gate(pol, f, p, gateAt), p).count < pol.maxFailures
  {
    CountCycle(pol, Streak(h));
  }

  lemma RecordMirrors(pol: Policy, f: Failures, p: PeerID, h: seq<Mark>, now: int, m: Mark)
    requires pol.maxFailures >= 1 && Mirrors(pol, f, p, h, now) && now <= m.at && Rested(pol, h)
    requires Info(f, p).count < pol.maxFailures
    ensures var f' := if m.ok then RecordSuccess(f, p, m.at) else RecordFailure(f, p, m.at);
            Mirrors(pol, f', p, h + [m], m.at) && Rested(pol, h + [m])
  {
    var h' := h + [m];
    assert h'[..|h|] == h;
    StreakSnoc(h, m);
    CountCycle(pol, Streak(h));
    forall i | 0 < i < |h'| && Due(pol, h'[..i]) ensures h'[i].at - h'[i - 1].at >= pol.blacklistTime {
      if i < |h| {
        assert h'[..i] == h[..i];
      }
    }
  }

  /** A turn that adds no mark to the history of p leaves its record to the gate, at most. */
  lemma UnmarkedTurn(pol: Policy, f: Failures, a: Attempt, p: PeerID)
    requires NewMarks(pol, f, a, p) == []
    ensures Info(Try(pol, f, a), p) == Info(f, p) || Info(Try(pol, f, a), p) == Info(Gate(pol, f, p, a.gateAt), p)
    ensures p in f ==> p in Try(pol, f, a)
  {
  }

  lemma MarkedTurn(pol: Policy, f: Failures, a: Attempt, p: PeerID)
    requires NewMarks(pol, f, a, p) != []
    ensures a.peer == p && !Blacklisted(pol, f, p, a.gateAt)
    ensures NewMarks(pol, f, a, p) == [Mark(a.dial.Succeeded?, EndOf(a))]
    ensures var f' := Gate(pol, f, p, a.gateAt);
            Try(pol, f, a) == if a.dial.Succeeded? then RecordSuccess(f', p, EndOf(a)) else RecordFailure(f', p, EndOf(a))
  {
  }

  lemma MirrorsLater(pol: Policy, f: Failures, f': Failures, p: PeerID, h: seq<Mark>, now: int, later: int)
    requires pol.maxFailures >= 1 && Mirrors(pol, f, p, h, now) && now <= later
    requires Info(f', p) == Info(f, p) && (p in f ==> p in f')
    ensures Mirrors(pol, f', p, h, later)
  {
  }

  lemma AttemptMirrors(pol: Policy, f: Failures, a: Attempt, p: PeerID, h: seq<Mark>, now: int)
    requires pol.maxFailures >= 1 && Mirrors(pol, f, p, h, now) && Rested(pol, h) && now <= a.gateAt <= EndOf(a)
    ensures var h' := h + NewMarks(pol, f, a, p);
            Mirrors(pol, Try(pol, f, a), p, h', EndOf(a)) && Rested(pol, h')
  {
    var f' := Gate(pol, f, p, a.gateAt);
    GateMirrors(pol, f, p, h, now, a.gateAt);
    if NewMarks(pol, f, a, p) == [] {
      assert h + [] == h;
      UnmarkedTurn(pol, f, a, p);
      if Info(Try(pol, f, a), p) == Info(f, p) {
        MirrorsLater(pol, f, Try(pol, f, a), p, h, now, EndOf(a));
      } else {
        MirrorsLater(pol, f', Try(pol, f, a), p, h, a.gateAt, EndOf(a));
      }
    } else {
      MarkedTurn(pol, f, a, p);
      RecordMirrors(pol, f', p, h, a.gateAt, Mark(a.dial.Succeeded?, EndOf(a)));
    }
  }

  lemma {:induction false} RecordsMirror(pol: Policy, f: Failures, attempts: seq<Attempt>, p: PeerID, h: seq<Mark>, now: int)
    requires pol.maxFailures >= 1 && Mirrors(pol, f, p, h, now) && Rested(pol, h) && InTime(now, attempts)
    ensures var h' := h + History(pol, f, attempts, p);
            Mirrors(pol, TryAll(pol, f, attempts), p, h', EndTime(now, attempts)) && Rested(pol, h')
    decreases |attempts|
  {
    if attempts == [] {
      assert h + [] == h;
    } else {
      var a := attempts[0];
      var h1 := h + NewMarks(pol, f, a, p);
      AttemptMirrors(pol, f, a, p, h, now);
      RecordsMirror(pol, Try(pol, f, a), attempts[1..], p, h1, EndOf(a));
      assert h + History(pol, f, attempts, p) == h1 + History(pol, Try(pol, f, a), attempts[1..], p);
    }
  }

  /** The clock after the attempts. */
  function EndTime(now: int, attempts: seq<Attempt>): int
    decreases |attempts|
  {
    if attempts == [] then now else EndTime(EndOf(attempts[0]), attempts[1..])
  }

  lemma FromTheStart(pol: Policy, attempts: seq<Attempt>, p: PeerID, start: int)
    requires pol.maxFailures >= 1 && InTime(start, attempts)
    ensures var h := History(pol, map[], attempts, p);
            Mirrors(pol, TryAll(pol, map[], attempts), p, h, EndTime(start, attempts)) && Rested(pol, h)
  {
    RecordsMirror(pol, map[], attempts, p, [], start);
    assert [] + History(pol, map[], attempts, p) == History(pol, map[], attempts, p);
  }

  lemma CountInRange(pol: Policy, f: Failures, p: PeerID, h: seq<Mark>, now: int)
    requires pol.maxFailures >= 1 && Mirrors(pol, f, p, h, now)
    ensures 0 <= Info(f, p).count <= pol.maxFailures
  {
    CountCycle(pol, Streak(h));
  }

  /**
   The blacklist, from the outside: at any moment after any gated history, a peer is blacklisted
   if and only if the history ends with maxFailures failures in a row, or a multiple of that,
   since its last success, and the last of them is less than blacklistTime ago. And no dial
   of any kind follows such a streak sooner than that.
   */
  lemma BlacklistExact(pol: Policy, attempts: seq<Attempt>, p: PeerID, start: int, now: int)
    requires pol.maxFailures >= 1 && InTime(start, attempts) && EndTime(start, attempts) <= now
    ensures var h := History(pol, map[], attempts, p);
            && (Blacklisted(pol, TryAll(pol, map[], attempts), p, now) <==> Due(pol, h) && now - h[|h| - 1].at < pol.blacklistTime)
            && Rested(pol, h)
  {
    FromTheStart(pol, attempts, p, start);
    var h := History(pol, map[], attempts, p);
    AnswerExact(pol, TryAll(pol, map[], attempts), p, h, EndTime(start, attempts), now);
  }

  /** The times on record are those of the last failure and the last success. */
  lemma TimesOnRecord(pol: Policy, attempts: seq<Attempt>, p: PeerID, start: int)
    requires pol.maxFailures >= 1 && InTime(start, attempts)
    ensures var info, h := Info(TryAll(pol, map[], attempts), p), History(pol, map[], attempts, p);
            info.lastFailure == LastTime(h, false) && info.lastSuccess == LastTime(h, true)
  {
    FromTheStart(pol, attempts, p, start);
  }

  /** The last n marks are failures, each less than blacklistTime after the one before. */
  ghost predicate Burst(pol: Policy, h: seq<Mark>, n: nat) {
    && n <= |h| && AllFailed(h, |h| - n, |h|)
    && forall k :: |h| - n < k < |h| ==> h[k].at - h[k - 1].at < pol.blacklistTime
  }

  lemma {:induction false} BurstInStreak(h: seq<Mark>, n: nat, k: nat)
    requires n <= |h| && AllFailed(h, |h| - n, |h|) && k <= n
    ensures Streak(h) >= n && Streak(h[..|h| - k]) == Streak(h) - k
    decreases n
  {
    if n > 0 {
      var front := h[..|h| - 1];
      assert AllFailed(front, |front| - (n - 1), |front|);
      BurstInStreak(front, n - 1, if k == 0 then 0 else k - 1);
      if k > 0 {
        assert front[..|front| - (k - 1)] == h[..|h| - k];
      } else {
        assert h[..|h| - 0] == h;
      }
    }
  }

  lemma MultipleIsLarge(x: nat, n: nat)
    requires n >= 1
    ensures x > 0 && x % n == 0 ==> x >= n
    ensures (x - x % n) % n == 0
  {
    var q := x / n;
    assert x == q * n + x % n;
    Remainder(x - x % n, n, q, 0);
  }

  lemma DueFailed(pol: Policy, h: seq<Mark>)
    requires pol.maxFailures >= 1 && Due(pol, h)
    ensures pol.maxFailures <= |h| && AllFailed(h, |h| - pol.maxFailures, |h|)
  {
    StreakFailed(h);
    MultipleIsLarge(Streak(h), pol.maxFailures);
  }

  /** No rest is due inside a burst. */
  lemma NotDueInside(pol: Policy, h: seq<Mark>, k: nat)
    requires pol.maxFailures >= 1 && Rested(pol, h) && Burst(pol, h, pol.maxFailures) && 0 < k < pol.maxFailures
    ensures !Due(pol, h[..|h| - k])
  {
    var i := |h| - k;
    assert h[i].at - h[i - 1].at < pol.blacklistTime;
  }

  /** A burst of maxFailures failures ends where a rest is due: some multiple of maxFailures is reached in it, and only its end is left. */
  lemma BurstIsDue(pol: Policy, h: seq<Mark>)
    requires pol.maxFailures >= 1 && Rested(pol, h) && Burst(pol, h, pol.maxFailures)
    ensures Due(pol, h)
  {
    var n := pol.maxFailures;
    var k := Streak(h) % n;
    BurstInStreak(h, n, k);
    MultipleIsLarge(Streak(h), n);
    if k > 0 {
      NotDueInside(pol, h, k);
    }
  }

  /**
   The rule of thumb about the blacklist, both ways: a blacklisted peer has failed its last
   maxFailures dials, the last less than blacklistTime ago; and a peer whose last maxFailures
   dials failed in quick succession, the last less than blacklistTime ago, is blacklisted.
   */
  lemma BlacklistedAfterBurst(pol: Policy, attempts: seq<Attempt>, p: PeerID, start: int, now: int)
    requires pol.maxFailures >= 1 && InTime(start, attempts) && EndTime(start, attempts) <= now
    ensures var h, b := History(pol, map[], attempts, p), Blacklisted(pol, TryAll(pol, map[], attempts), p, now);
            && (b ==> pol.maxFailures <= |h| && AllFailed(h, |h| - pol.maxFailures, |h|) && now - h[|h| - 1].at < pol.blacklistTime)
            && (Burst(pol, h, pol.maxFailures) && now - h[|h| - 1].at < pol.blacklistTime ==> b)
  {
    BlacklistExact(pol, attempts, p, start, now);
    var h := History(pol, map[], attempts, p);
    if Due(pol, h) {
      DueFailed(pol, h);
    } else if Burst(pol, h, pol.maxFailures) {
      BurstIsDue(pol, h);
    }
  }

  /**
   Backoff over whole histories. Whatever the peers dialled, the outcomes and the times, any
   maxFailures + 1 consecutive recorded failures of one peer, with no success between them,
   contain two adjacent ones at least blacklistTime apart; and its failure count never
   exceeds maxFailures.
   */
  lemma BackoffGuarantee(pol: Policy, attempts: seq<Attempt>, p: PeerID, start: int)
    requires pol.maxFailures >= 1 && InTime(start, attempts)
    ensures Paused(pol, History(pol, map[], attempts, p))
    ensures 0 <= Info(TryAll(pol, map[], attempts), p).count <= pol.maxFailures
  {
    FromTheStart(pol, attempts, p, start);
    var h := History(pol, map[], attempts, p);
    CountInRange(pol, TryAll(pol, map[], attempts), p, h, EndTime(start, attempts));
    RestedIsPaused(pol, h);
  }

  lemma RestedIsPaused(pol: Policy, h: seq<Mark>)
    requires pol.maxFailures >= 1 && Rested(pol, h)
    ensures Paused(pol, h)
  {
    forall i: nat, j: nat | j == i + pol.maxFailures + 1 <= |h| && AllFailed(h, i, j) ensures HasPause(pol, h, i, j) {
      RestInside(pol, h, i);
    }
  }

  lemma RestInside(pol: Policy, h: seq<Mark>, i: nat)
    requires pol.maxFailures >= 1 && Rested(pol, h) && i + pol.maxFailures + 1 <= |h| && AllFailed(h, i, i + pol.maxFailures + 1)
    ensures HasPause(pol, h, i, i + pol.maxFailures + 1)
  {
    var n := pol.maxFailures;
    var g := h[..i + n];
    var k := Streak(g) % n;
    assert AllFailed(g, |g| - n, |g|);
    BurstInStreak(g, n, k);
    MultipleIsLarge(Streak(g), n);
    var m := i + n - k;
    assert g[..|g| - k] == h[..m];
    assert Due(pol, h[..m]);
    assert h[m].at - h[m - 1].at >= pol.blacklistTime;
  }

  /**
   The bound on the count needs every dial to be gated and at least one failure to be
   allowed: with maxFailures 0 a first failure is recorded all the same.
   */
  lemma CountBoundExact(pol: Policy)
    ensures pol.maxFailures >= 1 <==>
            forall attempts, p :: InTime(0, attempts) ==> Info(TryAll(pol, map[], attempts), p).count <= pol.maxFailures
  {
    if pol.maxFailures >= 1 {
      forall attempts, p | InTime(0, attempts) ensures Info(TryAll(pol, map[], attempts), p).count <= pol.maxFailures {
        BackoffGuarantee(pol, attempts, p, 0);
      }
    } else {
      var p := PeerID("");
      var a := Attempt(p, 0, Failed(0));
      assert [a][1..] == [];
      assert InTime(0, [a]);
      assert Info(TryAll(pol, map[], [a]), p).count == 1;
    }
  }
}
