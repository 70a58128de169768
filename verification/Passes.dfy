/**
 One pass of server discovery, as a fold over the peers taken from the discovery channel,
 and what every pass guarantees: bookkeeping, the list it builds, the connections it leaves
 open, and its compliance with the failure backoff. A server keeps up a mesh: it skips
 blacklisted peers, records how dials went and keeps only exit-capable peers. A client does
 none of these three.
 */
module Passes {
  import opened Counting
  import opened Prelude
  import opened Backoff

  const NOT_CONNECTED: int := 0
  const CONNECTED: int := 1

  /** libp2p's connectedness of each peer. */
  type Links = map<PeerID, int>

  function Link(links: Links, p: PeerID): int {
    if p in links then links[p] else NOT_CONNECTED
  }

  /** A peer from the channel, with everything the environment answers while it is looked at. */
  datatype Visit = Visit(peer: PeerID, gateAt: int, dialOk: bool, dialAt: int, capable: bool)

  datatype Setting = Setting(self: PeerID, maxServers: int, policy: Policy, mesh: bool)

  /** What became of a peer; dialled tells whether this pass connected to it just now. */
  datatype Fate =
    | IsSelf
    | Skipped
    | DialFailed
    | Filtered(dialled: bool)
    | Accepted(dialled: bool)

  datatype Pass = Pass(
    failures: Failures, links: Links,
    servers: seq<PeerID>,
    connected: nat, filtered: nat, skipped: nat,
    fates: seq<Fate>, stopped: bool)

  function Begin(f: Failures, links: Links): Pass {
    Pass(f, links, [], 0, 0, 0, [], false)
  }

  /** The exit-capability check, after the peer is known to be connected. */
  function Screen(st: Setting, ps: Pass, v: Visit, dialled: bool): Pass {
    if v.capable || !st.mesh then
      ps.(servers := ps.servers + [v.peer], fates := ps.fates + [Accepted(dialled)])
    else
      ps.(filtered := ps.filtered + 1,
          links := if dialled then ps.links[v.peer := NOT_CONNECTED] else ps.links,
          fates := ps.fates + [Filtered(dialled)])
  }

  /** The pass after a successful dial. */
  function Dialled(st: Setting, ps: Pass, v: Visit): Pass {
    ps.(failures := if st.mesh then RecordSuccess(ps.failures, v.peer, v.dialAt) else ps.failures,
        links := ps.links[v.peer := CONNECTED],
        connected := ps.connected + 1)
  }

  /** Connecting to a peer that is not connected, then screening it. */
  function GatedTurn(st: Setting, ps: Pass, v: Visit): Pass {
    if Link(ps.links, v.peer) != NOT_CONNECTED then Screen(st, ps, v, false)
    else if v.dialOk then Screen(st, Dialled(st, ps, v), v, true)
    else
      ps.(failures := if st.mesh then RecordFailure(ps.failures, v.peer, v.dialAt) else ps.failures,
          fates := ps.fates + [DialFailed])
  }

  /** The pass after the blacklist check has let a peer through. */
  function Gated(st: Setting, ps: Pass, v: Visit): Pass {
    if st.mesh then ps.(failures := Gate(st.policy, ps.failures, v.peer, v.gateAt)) else ps
  }

  /** One iteration of the loop. */
  function Turn(st: Setting, ps: Pass, v: Visit): Pass {
    if ps.stopped then ps
    else if v.peer == st.self then ps.(fates := ps.fates + [IsSelf])
    else if |ps.servers| >= st.maxServers then ps.(stopped := true)
    else if st.mesh && Blacklisted(st.policy, ps.failures, v.peer, v.gateAt) then
      ps.(skipped := ps.skipped + 1, fates := ps.fates + [Skipped])
    else GatedTurn(st, Gated(st, ps, v), v)
  }

  /** The pass after the given visits. */
  function Fold(st: Setting, begin: Pass, visits: seq<Visit>): Pass
    decreases |visits|
  {
    if visits == [] then begin
    else Turn(st, Fold(st, begin, visits[..|visits| - 1]), visits[|visits| - 1])
  }

  lemma FoldSnoc(st: Setting, begin: Pass, visits: seq<Visit>, i: nat)
    requires i < |visits|
    ensures Fold(st, begin, visits[..i + 1]) == Turn(st, Fold(st, begin, visits[..i]), visits[i])
  {
    assert visits[..i + 1][..i] == visits[..i];
  }

  lemma {:induction false} StoppedStays(st: Setting, begin: Pass, visits: seq<Visit>, i: nat)
    requires i <= |visits| && Fold(st, begin, visits[..i]).stopped
    ensures Fold(st, begin, visits) == Fold(st, begin, visits[..i])
    decreases |visits| - i
  {
    if i < |visits| {
      FoldSnoc(st, begin, visits, i);
      StoppedStays(st, begin, visits, i + 1);
    } else {
      assert visits[..i] == visits;
    }
  }

  // ---------------------------------------------------------------------------------------------
  // Bookkeeping

  /** The visited peers that were accepted, in the order they were visited. */
  function AcceptedOf(visits: seq<Visit>, fates: seq<Fate>): seq<PeerID>
    requires |fates| <= |visits|
    decreases |fates|
  {
    if fates == [] then []
    else
      var k := |fates| - 1;
      AcceptedOf(visits, fates[..k]) + if fates[k].Accepted? then [visits[k].peer] else []
  }

  lemma {:induction false} AcceptedOfPrefix(visits: seq<Visit>, more: seq<Visit>, fates: seq<Fate>)
    requires |fates| <= |visits|
    ensures AcceptedOf(visits + more, fates) == AcceptedOf(visits, fates)
    decreases |fates|
  {
    if fates != [] {
      AcceptedOfPrefix(visits, more, fates[..|fates| - 1]);
    }
  }

  ghost predicate Balanced(st: Setting, ps: Pass) {
    && ps.skipped == Number(ps.fates, IsSkipped)
    && ps.filtered == Number(ps.fates, IsFiltered)
    && |ps.servers| == Number(ps.fates, IsAccepted)
    && ps.connected == Number(ps.fates, IsDialled)
    && |ps.fates| == Number(ps.fates, IsOwn) + ps.skipped + Number(ps.fates, IsFailed) + ps.filtered + |ps.servers|
    && |ps.servers| <= (if st.maxServers < 0 then 0 else st.maxServers)
    && (ps.stopped ==> |ps.servers| >= st.maxServers)
  }

  predicate IsOwn(x: Fate) { x.IsSelf? }
  predicate IsSkipped(x: Fate) { x.Skipped? }
  predicate IsFailed(x: Fate) { x.DialFailed? }
  predicate IsFiltered(x: Fate) { x.Filtered? }
  predicate IsAccepted(x: Fate) { x.Accepted? }
  predicate IsDialled(x: Fate) { (x.Filtered? || x.Accepted?) && x.dialled }

  /** A peer with no connection, which the pass has to dial. */
  predicate Unlinked(ps: Pass, v: Visit) {
    Link(ps.links, v.peer) == NOT_CONNECTED
  }

  /** What becomes of a peer that is not skipped: each fate exactly when the peer deserves it. */
  ghost predicate Deserved(st: Setting, before: Pass, v: Visit, x: Fate) {
    && (x.DialFailed? <==> Unlinked(before, v) && !v.dialOk)
    && (x.Accepted? <==> (Unlinked(before, v) ==> v.dialOk) && (st.mesh ==> v.capable))
    && (x.Filtered? <==> (Unlinked(before, v) ==> v.dialOk) && st.mesh && !v.capable)
    && (x.Filtered? || x.Accepted? ==> (x.dialled <==> Unlinked(before, v)))
  }

  /** Why a peer met its fate, given the pass as it stood when the peer was taken. */
  ghost predicate Justified(st: Setting, before: Pass, v: Visit, x: Fate) {
    && (x.IsSelf? <==> v.peer == st.self)
    && (!x.IsSelf? ==> |before.servers| < st.maxServers)
    && (!x.IsSelf? ==> (x.Skipped? <==> st.mesh && Blacklisted(st.policy, before.failures, v.peer, v.gateAt)))
    && (!x.IsSelf? && !x.Skipped? ==> Deserved(st, before, v, x))
  }

  /** The pass ps after a peer has met fate x. */
  ghost predicate Extended(ps: Pass, ps': Pass, v: Visit, x: Fate) {
    && ps'.fates == ps.fates + [x] && !ps'.stopped
    && ps'.servers == ps.servers + (if x.Accepted? then [v.peer] else [])
    && ps'.skipped == ps.skipped + (if IsSkipped(x) then 1 else 0)
    && ps'.filtered == ps.filtered + (if IsFiltered(x) then 1 else 0)
    && ps'.connected == ps.connected + (if IsDialled(x) then 1 else 0)
  }

  /** The pass was, or is now, stopped, and nothing else has changed. */
  ghost predicate Halted(st: Setting, ps: Pass, ps': Pass, v: Visit) {
    ps' == ps.(stopped := true) && (ps.stopped || (v.peer != st.self && |ps.servers| >= st.maxServers))
  }

  lemma GatedShape(st: Setting, ps: Pass, v: Visit) returns (x: Fate)
    requires !ps.stopped
    ensures Extended(ps, GatedTurn(st, ps, v), v, x) && !x.IsSelf? && !x.Skipped? && Deserved(st, ps, v, x)
  {
    var dialled := Unlinked(ps, v);
    x := if dialled && !v.dialOk then DialFailed else if v.capable || !st.mesh then Accepted(dialled) else Filtered(dialled);
  }

  lemma TurnShape(st: Setting, ps: Pass, v: Visit) returns (x: Fate)
    ensures var ps' := Turn(st, ps, v);
            Halted(st, ps, ps', v) || (Extended(ps, ps', v, x) && Justified(st, ps, v, x))
  {
    if ps.stopped || v.peer == st.self || |ps.servers| >= st.maxServers {
      x := IsSelf;
    } else if st.mesh && Blacklisted(st.policy, ps.failures, v.peer, v.gateAt) {
      x := Skipped;
    } else {
      x := GatedShape(st, Gated(st, ps, v), v);
    }
  }

  lemma BalancedExtended(st: Setting, ps: Pass, ps': Pass, v: Visit, x: Fate)
    requires Balanced(st, ps) && Extended(ps, ps', v, x) && Justified(st, ps, v, x)
    ensures Balanced(st, ps')
  {
    NumberAppend(ps.fates, x, IsOwn);
    NumberAppend(ps.fates, x, IsSkipped);
    NumberAppend(ps.fates, x, IsFailed);
    NumberAppend(ps.fates, x, IsFiltered);
    NumberAppend(ps.fates, x, IsAccepted);
    NumberAppend(ps.fates, x, IsDialled);
  }

  /** The books of a pass over the given visits. */
  ghost predicate Booked(st: Setting, visits: seq<Visit>, ps: Pass) {
    && Balanced(st, ps)
    && |ps.fates| <= |visits|
    && (!ps.stopped ==> |ps.fates| == |visits|)
    && (ps.stopped ==> |ps.fates| < |visits| && visits[|ps.fates|].peer != st.self)
    && ps.servers == AcceptedOf(visits, ps.fates)
  }

  lemma BookedSnoc(st: Setting, front: seq<Visit>, v: Visit, ps: Pass, ps': Pass, x: Fate)
    requires Booked(st, front, ps)
    requires Halted(st, ps, ps', v) || (Extended(ps, ps', v, x) && Justified(st, ps, v, x) && |ps.fates| == |front|)
    ensures Booked(st, front + [v], ps')
  {
    AcceptedOfPrefix(front, [v], ps.fates);
    if Extended(ps, ps', v, x) && Justified(st, ps, v, x) {
      BalancedExtended(st, ps, ps', v, x);
      assert ps'.fates[..|ps.fates|] == ps.fates;
    }
  }

  lemma BookedTurn(st: Setting, front: seq<Visit>, v: Visit, ps: Pass)
    requires Booked(st, front, ps)
    ensures Booked(st, front + [v], Turn(st, ps, v))
  {
    var x := TurnShape(st, ps, v);
    BookedSnoc(st, front, v, ps, Turn(st, ps, v), x);
  }

  lemma NothingBooked(st: Setting, f: Failures, links: Links)
    ensures Booked(st, [], Begin(f, links))
  {
  }

  /**
   Conservation: the peers taken before the loop stops are each exactly one of self, skipped,
   dial-failed, filtered and accepted, and the four counters say how many; the new list holds
   the accepted ones in the order they came, at most max(0, maxServers) of them; and the loop
   stops early only when the list is full.
   */
  lemma {:induction false} PassConservation(st: Setting, f: Failures, links: Links, visits: seq<Visit>)
    ensures Booked(st, visits, Fold(st, Begin(f, links), visits))
    decreases |visits|
  {
    if visits != [] {
      var front, v := visits[..|visits| - 1], visits[|visits| - 1];
      PassConservation(st, f, links, front);
      BookedTurn(st, front, v, Fold(st, Begin(f, links), front));
      assert visits == front + [v];
    } else {
      NothingBooked(st, f, links);
    }
  }

  /** Every fate is justified; in particular each entry of the list passed the blacklist and capability checks and is not this node. */
  lemma {:induction false} FatesJustified(st: Setting, f: Failures, links: Links, visits: seq<Visit>, i: nat)
    requires i < |Fold(st, Begin(f, links), visits).fates|
    ensures i < |visits|
    ensures Justified(st, Fold(st, Begin(f, links), visits[..i]), visits[i], Fold(st, Begin(f, links), visits).fates[i])
    decreases |visits|
  {
    PassConservation(st, f, links, visits);
    var front, v := visits[..|visits| - 1], visits[|visits| - 1];
    PassConservation(st, f, links, front);
    var ps := Fold(st, Begin(f, links), front);
    var x := TurnShape(st, ps, v);
    if i < |ps.fates| {
      FatesJustified(st, f, links, front, i);
      assert front[..i] == visits[..i];
    } else {
      assert front == visits[..i];
    }
  }

  lemma {:induction false} AcceptedMember(visits: seq<Visit>, fates: seq<Fate>, p: PeerID) returns (i: nat)
    requires |fates| <= |visits| && p in AcceptedOf(visits, fates)
    ensures i < |fates| && fates[i].Accepted? && visits[i].peer == p
    decreases |fates|
  {
    var k := |fates| - 1;
    if fates[k].Accepted? && visits[k].peer == p {
      i := k;
    } else {
      i := AcceptedMember(visits, fates[..k], p);
    }
  }

  lemma SelfNeverListed(st: Setting, f: Failures, links: Links, visits: seq<Visit>)
    ensures st.self !in Fold(st, Begin(f, links), visits).servers
  {
    var ps := Fold(st, Begin(f, links), visits);
    PassConservation(st, f, links, visits);
    if st.self in ps.servers {
      var i := AcceptedMember(visits, ps.fates, st.self);
      FatesJustified(st, f, links, visits, i);
    }
  }

  // ---------------------------------------------------------------------------------------------
  // Connection hygiene

  /** Peer p is connected as before the pass, unless it was not and is listed now: then it is connected. Listed peers have a connection. */
  ghost predicate TidyAt(links: Links, ps: Pass, p: PeerID) {
    && Link(ps.links, p) == (if p in ps.servers && Link(links, p) == NOT_CONNECTED then CONNECTED else Link(links, p))
    && (p in ps.servers ==> Link(ps.links, p) != NOT_CONNECTED)
  }

  ghost predicate Tidy(links: Links, ps: Pass) {
    forall p :: TidyAt(links, ps, p)
  }

  lemma ScreenTidy(st: Setting, links: Links, ps: Pass, v: Visit, dialled: bool, p: PeerID)
    requires p != v.peer ==> TidyAt(links, ps, p)
    requires p == v.peer && dialled ==> Link(links, p) == NOT_CONNECTED && Link(ps.links, p) == CONNECTED && p !in ps.servers
    requires p == v.peer && !dialled ==> TidyAt(links, ps, p) && Link(ps.links, p) != NOT_CONNECTED
    ensures TidyAt(links, Screen(st, ps, v, dialled), p)
  {
  }

  lemma GatedTidy(st: Setting, links: Links, ps: Pass, v: Visit, p: PeerID)
    requires TidyAt(links, ps, p)
    ensures TidyAt(links, GatedTurn(st, ps, v), p)
  {
    if Link(ps.links, v.peer) == NOT_CONNECTED && v.dialOk {
      ScreenTidy(st, links, Dialled(st, ps, v), v, true, p);
    } else if Link(ps.links, v.peer) != NOT_CONNECTED {
      ScreenTidy(st, links, ps, v, false, p);
    }
  }

  lemma TidyTurn(st: Setting, links: Links, ps: Pass, v: Visit, p: PeerID)
    requires TidyAt(links, ps, p)
    ensures TidyAt(links, Turn(st, ps, v), p)
  {
    GatedTidy(st, links, Gated(st, ps, v), v, p);
  }

  /**
   Connection hygiene, duplicates in the channel included: when only the pass changes
   connectedness, it leaves every peer that it does not list exactly as connected as it
   found it, and every server that it lists connected.
   */
  lemma {:induction false} PassTidy(st: Setting, f: Failures, links: Links, visits: seq<Visit>)
    ensures Tidy(links, Fold(st, Begin(f, links), visits))
    decreases |visits|
  {
    if visits != [] {
      var front, v := visits[..|visits| - 1], visits[|visits| - 1];
      PassTidy(st, f, links, front);
      forall p ensures TidyAt(links, Fold(st, Begin(f, links), visits), p) {
        TidyTurn(st, links, Fold(st, Begin(f, links), front), v, p);
      }
    }
  }

  // ---------------------------------------------------------------------------------------------
  // Backoff

  /** The peer is looked at: it is not this node, and the list is not full. */
  predicate Taken(st: Setting, before: Pass, v: Visit) {
    !before.stopped && v.peer != st.self && |before.servers| < st.maxServers
  }

  /** What the environment makes of a peer that may be dialled: only an unconnected peer is, and it answers or does not. */
  function DialOf(links: Links, v: Visit): Dial {
    if Link(links, v.peer) != NOT_CONNECTED then NotDialled
    else if v.dialOk then Succeeded(v.dialAt)
    else Failed(v.dialAt)
  }

  /** The turns of the loop as the failure records see them, read off the visits. */
  function Attempts(st: Setting, begin: Pass, visits: seq<Visit>): seq<Attempt>
    decreases |visits|
  {
    if visits == [] then []
    else
      var front, v := visits[..|visits| - 1], visits[|visits| - 1];
      var before := Fold(st, begin, front);
      Attempts(st, begin, front) + if Taken(st, before, v) then [Attempt(v.peer, v.gateAt, DialOf(before.links, v))] else []
  }

  lemma TurnGated(st: Setting, ps: Pass, v: Visit)
    requires st.mesh
    ensures Turn(st, ps, v).failures ==
            if Taken(st, ps, v) then Try(st.policy, ps.failures, Attempt(v.peer, v.gateAt, DialOf(ps.links, v))) else ps.failures
  {
  }

  /** A mesh pass changes the failure records as the visits say: every peer taken passes the gate, and every unconnected one that may be dialled is recorded as it answered. */
  lemma {:induction false} PassIsGated(st: Setting, f: Failures, links: Links, visits: seq<Visit>)
    requires st.mesh
    ensures Fold(st, Begin(f, links), visits).failures == TryAll(st.policy, f, Attempts(st, Begin(f, links), visits))
    decreases |visits|
  {
    if visits != [] {
      var front, v := visits[..|visits| - 1], visits[|visits| - 1];
      var before := Fold(st, Begin(f, links), front);
      PassIsGated(st, f, links, front);
      TurnGated(st, before, v);
      if Taken(st, before, v) {
        TryAllSnoc(st.policy, f, Attempts(st, Begin(f, links), front), Attempt(v.peer, v.gateAt, DialOf(before.links, v)));
      } else {
        assert Attempts(st, Begin(f, links), front) + [] == Attempts(st, Begin(f, links), front);
      }
    }
  }

  /** How many of the visited peers were taken, not blacklisted, unconnected, and answered the dial. */
  function Reached(st: Setting, begin: Pass, visits: seq<Visit>): nat
    decreases |visits|
  {
    if visits == [] then 0
    else
      var front, v := visits[..|visits| - 1], visits[|visits| - 1];
      var before := Fold(st, begin, front);
      Reached(st, begin, front) +
      Bit(Taken(st, before, v) && !(st.mesh && Blacklisted(st.policy, before.failures, v.peer, v.gateAt))
          && Link(before.links, v.peer) == NOT_CONNECTED && v.dialOk)
  }

  /** The pass reports exactly the connections it made. */
  lemma {:induction false} ConnectionsCounted(st: Setting, f: Failures, links: Links, visits: seq<Visit>)
    ensures Fold(st, Begin(f, links), visits).connected == Reached(st, Begin(f, links), visits)
    decreases |visits|
  {
    if visits != [] {
      ConnectionsCounted(st, f, links, visits[..|visits| - 1]);
    }
  }

  lemma {:induction false} TryAllConcat(pol: Policy, f: Failures, xs: seq<Attempt>, ys: seq<Attempt>)
    ensures TryAll(pol, f, xs + ys) == TryAll(pol, TryAll(pol, f, xs), ys)
    decreases |xs|
  {
    if xs == [] {
      assert xs + ys == ys;
    } else {
      TryAllConcat(pol, Try(pol, f, xs[0]), xs[1..], ys);
      assert (xs + ys)[1..] == xs[1..] + ys;
    }
  }

  lemma ClientTurn(st: Setting, ps: Pass, v: Visit)
    requires !st.mesh
    ensures var ps' := Turn(st, ps, v);
            ps'.failures == ps.failures && ps'.skipped == ps.skipped && ps'.filtered == ps.filtered
  {
  }

  lemma {:induction false} ClientCounters(st: Setting, f: Failures, links: Links, visits: seq<Visit>)
    requires !st.mesh
    ensures var ps := Fold(st, Begin(f, links), visits);
            ps.failures == f && ps.skipped == 0 && ps.filtered == 0
    decreases |visits|
  {
    if visits != [] {
      var front := visits[..|visits| - 1];
      ClientCounters(st, f, links, front);
      ClientTurn(st, Fold(st, Begin(f, links), front), visits[|visits| - 1]);
    }
  }

  /** A client's pass neither reads nor writes the failure records, and drops a peer only when it cannot be dialled. */
  lemma ClientPass(st: Setting, f: Failures, links: Links, visits: seq<Visit>)
    requires !st.mesh
    ensures var ps := Fold(st, Begin(f, links), visits);
            && ps.failures == f
            && |ps.fates| == Number(ps.fates, IsOwn) + Number(ps.fates, IsFailed) + |ps.servers|
  {
    ClientCounters(st, f, links, visits);
    PassConservation(st, f, links, visits);
  }

  /** One round of the periodic discovery; connectedness may have changed in any way since the last one. */
  datatype Round = Round(links: Links, visits: seq<Visit>)

  function AfterRounds(st: Setting, f: Failures, rounds: seq<Round>): Failures
    decreases |rounds|
  {
    if rounds == [] then f
    else AfterRounds(st, Fold(st, Begin(f, rounds[0].links), rounds[0].visits).failures, rounds[1..])
  }

  function RoundAttempts(st: Setting, f: Failures, r: Round): seq<Attempt> {
    Attempts(st, Begin(f, r.links), r.visits)
  }

  function AllAttempts(st: Setting, f: Failures, rounds: seq<Round>): seq<Attempt>
    decreases |rounds|
  {
    if rounds == [] then []
    else RoundAttempts(st, f, rounds[0]) +
         AllAttempts(st, Fold(st, Begin(f, rounds[0].links), rounds[0].visits).failures, rounds[1..])
  }

  lemma {:induction false} RoundsAreGated(st: Setting, f: Failures, rounds: seq<Round>)
    requires st.mesh
    ensures AfterRounds(st, f, rounds) == TryAll(st.policy, f, AllAttempts(st, f, rounds))
    decreases |rounds|
  {
    if rounds != [] {
      var r := rounds[0];
      PassIsGated(st, f, r.links, r.visits);
      var f' := Fold(st, Begin(f, r.links), r.visits).failures;
      RoundsAreGated(st, f', rounds[1..]);
      TryAllConcat(st.policy, f, RoundAttempts(st, f, r), AllAttempts(st, f', rounds[1..]));
    }
  }

  /**
   Any number of discovery rounds, with any peers, answers and non-decreasing times: no peer's
   failure count ever exceeds maxFailures, and any maxFailures + 1 consecutive failed dials of
   one peer contain a pause of at least blacklistTime.
   */
  lemma DiscoveryBacksOff(st: Setting, rounds: seq<Round>, p: PeerID, start: int)
    requires st.mesh && st.policy.maxFailures >= 1 && InTime(start, AllAttempts(st, map[], rounds))
    ensures 0 <= Info(AfterRounds(st, map[], rounds), p).count <= st.policy.maxFailures
    ensures Paused(st.policy, History(st.policy, map[], AllAttempts(st, map[], rounds), p))
  {
    RoundsAreGated(st, map[], rounds);
    BackoffGuarantee(st.policy, AllAttempts(st, map[], rounds), p, start);
  }

  /** Over any number of rounds, exactly the peers whose dials have failed maxFailures times in a row, or a multiple of that, are blacklisted, for blacklistTime. */
  lemma DiscoveryBlacklists(st: Setting, rounds: seq<Round>, p: PeerID, start: int, now: int)
    requires st.mesh && st.policy.maxFailures >= 1
    requires InTime(start, AllAttempts(st, map[], rounds)) && EndTime(start, AllAttempts(st, map[], rounds)) <= now
    ensures var h := History(st.policy, map[], AllAttempts(st, map[], rounds), p);
            Blacklisted(st.policy, AfterRounds(st, map[], rounds), p, now) <==>
            Due(st.policy, h) && now - h[|h| - 1].at < st.policy.blacklistTime
  {
    RoundsAreGated(st, map[], rounds);
    BlacklistExact(st.policy, AllAttempts(st, map[], rounds), p, start, now);
  }
}
