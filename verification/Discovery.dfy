/**
 ServerDiscovery: the cached server list, the load records and the failure records, updated
 in place. Its methods are tied to the functions of Loads, Backoff and Passes.
 */
module Discovery {
  import opened Prelude
  import opened Loads
  import B = Backoff
  import opened Passes

  /** The largest Go int. */
  const MAX_INT: int := 0x7fff_ffff_ffff_ffff

  class ServerLoadInfo {
    const peerID: PeerID
    var activeConns: int
    var totalConns: int
    var lastUsed: int

    constructor (peerID: PeerID, activeConns: int, totalConns: int, lastUsed: int)
      ensures this.peerID == peerID && this.activeConns == activeConns && this.totalConns == totalConns && this.lastUsed == lastUsed
    {
      this.peerID, this.activeConns, this.totalConns, this.lastUsed := peerID, activeConns, totalConns, lastUsed;
    }
  }

  class PeerFailureInfo {
    const peerID: PeerID
    var failureCount: int
    var lastFailure: int
    var lastSuccess: int

    constructor (peerID: PeerID)
      ensures this.peerID == peerID && failureCount == 0 && lastFailure == B.NEVER && lastSuccess == B.NEVER
    {
      this.peerID, failureCount, lastFailure, lastSuccess := peerID, 0, B.NEVER, B.NEVER;
    }
  }

  /** The connectedness kept by the libp2p host. */
  class Network {
    var links: Links

    constructor ()
      ensures links == map[]
    {
      links := map[];
    }

    function Connectedness(p: PeerID): int
      reads this
    {
      Link(links, p)
    }

    /** Host.Connect, which succeeds or fails as the environment decides. */
    method Connect(p: PeerID, succeeds: bool) returns (ok: bool)
      modifies this
      ensures ok == succeeds
      ensures links == if ok then old(links)[p := CONNECTED] else old(links)
    {
      if succeeds {
        links := links[p := CONNECTED];
      }
      ok := succeeds;
    }

    method ClosePeer(p: PeerID)
      modifies this
      ensures links == old(links)[p := NOT_CONNECTED]
    {
      links := links[p := NOT_CONNECTED];
    }
  }

  datatype Strategy = First | Random | LoadBalance | Preferred | Other

  /** The servers of the cached list that may be offered: not this node, connected, and, in mesh mode, exit-capable. */
  predicate Offered(self: PeerID, links: Links, mesh: bool, capable: PeerID -> bool, p: PeerID) {
    p != self && Link(links, p) == CONNECTED && (mesh ==> capable(p))
  }

  function Filter(servers: seq<PeerID>, keep: PeerID -> bool): seq<PeerID>
    decreases |servers|
  {
    if servers == [] then []
    else Filter(servers[..|servers| - 1], keep) +
         if keep(servers[|servers| - 1]) then [servers[|servers| - 1]] else []
  }

  /** The servers GetAvailableServers returns from a list, in the list's order. */
  function Offer(self: PeerID, links: Links, mesh: bool, capable: PeerID -> bool, servers: seq<PeerID>): seq<PeerID> {
    Filter(servers, p => Offered(self, links, mesh, capable, p))
  }

  /** out holds the elements of servers at the positions at, which are all those of kept elements, in order. */
  ghost predicate Selects(servers: seq<PeerID>, keep: PeerID -> bool, out: seq<PeerID>, at: seq<nat>) {
    && |out| == |at|
    && (forall i :: 0 <= i < |at| ==> at[i] < |servers| && keep(servers[at[i]]) && out[i] == servers[at[i]])
    && (forall i, j :: 0 <= i < j < |at| ==> at[i] < at[j])
    && (forall k :: 0 <= k < |servers| && keep(servers[k]) ==> k in at)
  }

  lemma SelectsKept(front: seq<PeerID>, x: PeerID, keep: PeerID -> bool, out: seq<PeerID>, at: seq<nat>)
    requires Selects(front, keep, out, at) && keep(x)
    ensures Selects(front + [x], keep, out + [x], at + [|front|])
  {
    var at' := at + [|front|];
    assert at'[|at|] == |front|;
    forall k | 0 <= k < |front| && keep(front[k]) ensures k in at' {
      assert k in at;
    }
  }

  lemma SelectsDropped(front: seq<PeerID>, x: PeerID, keep: PeerID -> bool, out: seq<PeerID>, at: seq<nat>)
    requires Selects(front, keep, out, at) && !keep(x)
    ensures Selects(front + [x], keep, out, at)
  {
  }

  /** Filtering keeps exactly the wanted elements, in their order. */
  lemma {:induction false} FilterSelects(servers: seq<PeerID>, keep: PeerID -> bool) returns (at: seq<nat>)
    ensures Selects(servers, keep, Filter(servers, keep), at)
    decreases |servers|
  {
    if servers == [] {
      at := [];
    } else {
      var front, last := servers[..|servers| - 1], servers[|servers| - 1];
      at := FilterSelects(front, keep);
      assert servers == front + [last];
      if keep(last) {
        SelectsKept(front, last, keep, Filter(front, keep), at);
        at := at + [|front|];
      } else {
        SelectsDropped(front, last, keep, Filter(front, keep), at);
      }
    }
  }

  /** Choosing among the wanted servers: servers[i] is the first least-loaded of them, unless every load is at the maximum, when it is the first of them. */
  ghost predicate BestWhere(t: Table, servers: seq<PeerID>, wanted: PeerID -> bool, i: nat) {
    && i < |servers| && wanted(servers[i])
    && if exists j :: 0 <= j < |servers| && wanted(servers[j]) && Active(t, servers[j]) < MAX_INT
       then forall j :: 0 <= j < |servers| && wanted(servers[j]) ==>
              Active(t, servers[i]) <= Active(t, servers[j]) && (j < i ==> Active(t, servers[i]) < Active(t, servers[j]))
       else forall j :: 0 <= j < i ==> !wanted(servers[j])
  }

  /** Choosing from all. */
  ghost predicate BestOf(t: Table, servers: seq<PeerID>, i: nat) {
    i < |servers| && if exists j :: 0 <= j < |servers| && Active(t, servers[j]) < MAX_INT then LeftmostLeast(t, servers, i) else i == 0
  }

  /** Choosing from a selection is choosing among the wanted ones. */
  lemma BestOfSelection(t: Table, servers: seq<PeerID>, keep: PeerID -> bool, out: seq<PeerID>, at: seq<nat>, i: nat)
    requires Selects(servers, keep, out, at) && BestOf(t, out, i)
    ensures at[i] < |servers| && out[i] == servers[at[i]] && BestWhere(t, servers, keep, at[i])
  {
    forall j | 0 <= j < |servers| && keep(servers[j])
      ensures exists m :: 0 <= m < |at| && at[m] == j && out[m] == servers[j] && (j < at[i] ==> m < i)
    {
      assert j in at;
      var m :| 0 <= m < |at| && at[m] == j;
    }
  }

  function Wanted(preferred: seq<string>, name: PeerID -> string): PeerID -> bool {
    p => name(p) in preferred
  }

  /** The preferred strategy: the best of the servers whose text form is in the preferred list, or of all if none is available. */
  ghost predicate BestPreferred(t: Table, available: seq<PeerID>, preferred: seq<string>, name: PeerID -> string, i: nat) {
    if exists p :: p in available && name(p) in preferred
    then BestWhere(t, available, Wanted(preferred, name), i)
    else BestOf(t, available, i)
  }

  lemma PreferredFrom(t: Table, servers: seq<PeerID>, preferred: seq<string>, name: PeerID -> string, m: nat) returns (i: nat)
    requires BestOf(t, Filter(servers, Wanted(preferred, name)), m)
    ensures i < |servers| && Filter(servers, Wanted(preferred, name))[m] == servers[i] && BestPreferred(t, servers, preferred, name, i)
  {
    var keep := Wanted(preferred, name);
    var at := FilterSelects(servers, keep);
    BestOfSelection(t, servers, keep, Filter(servers, keep), at, m);
    i := at[m];
    assert servers[i] in servers && name(servers[i]) in preferred;
  }

  lemma NonePreferred(servers: seq<PeerID>, preferred: seq<string>, name: PeerID -> string)
    requires Filter(servers, Wanted(preferred, name)) == []
    ensures forall p :: p in servers ==> name(p) !in preferred
  {
    var at := FilterSelects(servers, Wanted(preferred, name));
    forall p | p in servers ensures name(p) !in preferred {
      var k :| 0 <= k < |servers| && servers[k] == p;
      assert k !in at;
    }
  }

  /** What each strategy promises about the server it picks among the available ones. */
  ghost predicate Suits(strategy: Strategy, t: Table, available: seq<PeerID>, preferred: seq<string>, name: PeerID -> string, i: nat) {
    match strategy
    case First => i == 0 < |available|
    case Other => i == 0 < |available|
    case Random => i < |available|
    case LoadBalance => BestOf(t, available, i)
    case Preferred => BestPreferred(t, available, preferred, name, i)
  }

  /** An answer of SelectServer: none when nothing is available; otherwise a server that suits the strategy, counted once. */
  ghost predicate Answers(strategy: Strategy, t: Table, t': Table, available: seq<PeerID>, preferred: seq<string>,
                          name: PeerID -> string, server: Option<PeerID>, i: nat, now: int) {
    if available == [] then server == None && t' == t
    else
      && i < |available| && server == Some(available[i]) && t' == Track(t, available[i], now)
      && Suits(strategy, t, available, preferred, name, i)
  }

  /** Within the range of a Go int the preferred choice is the first of the least-loaded preferred servers, if any is available. */
  lemma PreferredIsLeftmostLeast(t: Table, available: seq<PeerID>, preferred: seq<string>, name: PeerID -> string, i: nat)
    requires forall p :: p in available ==> Active(t, p) <= MAX_INT
    requires BestPreferred(t, available, preferred, name, i) && exists p :: p in available && name(p) in preferred
    ensures i < |available| && name(available[i]) in preferred
    ensures forall j :: 0 <= j < |available| && name(available[j]) in preferred ==>
              Active(t, available[i]) <= Active(t, available[j]) && (j < i ==> Active(t, available[i]) < Active(t, available[j]))
  {
    assert BestWhere(t, available, Wanted(preferred, name), i);
    if forall j :: 0 <= j < |available| && name(available[j]) in preferred ==> Active(t, available[j]) >= MAX_INT {
      assert forall j :: 0 <= j < |available| ==> available[j] in available;
    }
  }

  /** Within the range of a Go int the choice is always the first least-loaded server. */
  lemma BestIsLeftmostLeast(t: Table, servers: seq<PeerID>, i: nat)
    requires i < |servers| && forall p :: p in servers ==> Active(t, p) <= MAX_INT
    ensures BestOf(t, servers, i) <==> LeftmostLeast(t, servers, i)
  {
    if forall j :: 0 <= j < |servers| ==> Active(t, servers[j]) >= MAX_INT {
      assert forall j :: 0 <= j < |servers| ==> servers[j] in servers && Active(t, servers[j]) == MAX_INT;
      assert Active(t, servers[0]) == MAX_INT;
    }
  }

  class ServerDiscovery {
    const self: PeerID
    const network: Network
    const policy: B.Policy
    const maxServers: int
    const updateInterval: int
    var serverPeers: seq<PeerID>
    var lastUpdate: Option<int>  // None is Go's zero time, longer ago than any interval
    var started: bool
    var serverLoads: map<PeerID, ServerLoadInfo>
    var peerFailures: map<PeerID, PeerFailureInfo>

    /** Every record is filed under its own peer, so no two keys share a record. */
    ghost predicate Valid()
      reads this`serverLoads, this`peerFailures, serverLoads.Values, peerFailures.Values
    {
      && (forall p :: p in serverLoads ==> serverLoads[p].peerID == p)
      && (forall p :: p in peerFailures ==> peerFailures[p].peerID == p)
    }

    ghost function LoadTable(): Table
      reads this`serverLoads, serverLoads.Values
    {
      map p | p in serverLoads ::
        LoadInfo(serverLoads[p].activeConns, serverLoads[p].totalConns, serverLoads[p].lastUsed)
    }

    ghost function FailureTable(): B.Failures
      reads this`peerFailures, peerFailures.Values
    {
      map p | p in peerFailures ::
        B.FailureInfo(peerFailures[p].failureCount, peerFailures[p].lastFailure, peerFailures[p].lastSuccess)
    }

    constructor (self: PeerID, network: Network, maxServers: int, updateInterval: int)
      ensures Valid() && this.self == self && this.network == network
      ensures this.maxServers == maxServers && this.updateInterval == updateInterval
      ensures policy == B.Policy(3, 600)  // three failures, ten minutes
      ensures LoadTable() == map[] && FailureTable() == map[] && serverPeers == [] && !started
      // so the first call that needs servers refreshes, whatever the clock says
      ensures forall now :: Stale(now)
    {
      this.self, this.network, this.maxServers, this.updateInterval := self, network, maxServers, updateInterval;
      this.policy := B.Policy(3, 600);
      serverPeers, lastUpdate, started := [], None, false;
      serverLoads, peerFailures := map[], map[];
    }

    // -------------------------------------------------------------------------------------------
    // Load records

    method TrackConnection(p: PeerID, now: int)
      requires Valid()
      modifies this`serverLoads, serverLoads.Values
      ensures Valid() && LoadTable() == Track(old(LoadTable()), p, now) && FailureTable() == old(FailureTable())
      ensures fresh(serverLoads.Values - old(serverLoads.Values))
    {
      if p in serverLoads {
        var info := serverLoads[p];
        info.activeConns := info.activeConns + 1;
        info.totalConns := info.totalConns + 1;
        info.lastUsed := now;
      } else {
        var info := new ServerLoadInfo(p, 1, 1, now);
        serverLoads := serverLoads[p := info];
      }
    }

    method ReleaseConnection(p: PeerID)
      requires Valid()
      modifies serverLoads.Values
      ensures Valid() && LoadTable() == Release(old(LoadTable()), p)
    {
      if p in serverLoads {
        var info := serverLoads[p];
        info.activeConns := info.activeConns - 1;
        if info.activeConns < 0 {
          info.activeConns := 0;
        }
      }
    }

    // -------------------------------------------------------------------------------------------
    // Selection

    /** The loop of GetAvailableServers over the cached list. */
    method OfferedServers(capable: PeerID -> bool) returns (available: seq<PeerID>)
      ensures available == Offer(self, network.links, started, capable, serverPeers)
    {
      ghost var links, mesh := network.links, started;
      ghost var keep := p => Offered(self, links, mesh, capable, p);
      available := [];
      var i := 0;
      while i < |serverPeers|
        invariant 0 <= i <= |serverPeers|
        invariant available == Filter(serverPeers[..i], keep)
      {
        var server := serverPeers[i];
        assert serverPeers[..i + 1][..i] == serverPeers[..i];
        i := i + 1;
        if server == self {
          continue;
        }
        if network.Connectedness(server) != CONNECTED {
          continue;
        }
        if started && !capable(server) {
          continue;
        }
        available := available + [server];
      }
      assert serverPeers[..i] == serverPeers;
    }

    /** The cached list was last replaced more than an update interval ago, or never. */
    predicate Stale(now: int)
      reads this`lastUpdate
    {
      lastUpdate.None? || now - lastUpdate.value > updateInterval
    }

    /** The cached list, the connections and the failure records, after a refresh if the cache is stale and the search works. */
    ghost function Refreshed(found: bool, visits: seq<Visit>, now: int): Pass
      reads this, peerFailures.Values, network
    {
      var begin := Begin(FailureTable(), network.links);
      if found && Stale(now) then Fold(Where(started), begin, visits)
      else begin.(servers := serverPeers)
    }

    /** The refresh at the start of GetAvailableServers: a client refreshes without the mesh's checks, and a failed search changes nothing. */
    method RefreshIfStale(found: bool, visits: seq<Visit>, now: int)
      requires Valid()
      modifies this`serverPeers, this`lastUpdate, this`peerFailures, peerFailures.Values, network
      ensures Valid() && fresh(peerFailures.Values - old(peerFailures.Values))
      ensures Mirrors(old(Refreshed(found, visits, now))) && serverPeers == old(Refreshed(found, visits, now)).servers
      ensures lastUpdate == if found && old(Stale(now)) then Some(now) else old(lastUpdate)
      // a list no older than the update interval is served as it is, and so is any list when the search fails
      ensures (old(lastUpdate).Some? && now <= old(lastUpdate).value + updateInterval) || !found ==>
                serverPeers == old(serverPeers) && lastUpdate == old(lastUpdate)
                && network.links == old(network.links) && FailureTable() == old(FailureTable())
      // otherwise a started node makes a server's pass, which consults and keeps the failure records, and any other node a client's, which does not
      ensures (old(lastUpdate).None? || now > old(lastUpdate).value + updateInterval) && found ==>
                var ps := Fold(Setting(self, maxServers, policy, started), Begin(old(FailureTable()), old(network.links)), visits);
                serverPeers == ps.servers && lastUpdate == Some(now) && network.links == ps.links
                && FailureTable() == (if started then ps.failures else old(FailureTable()))
    {
      if !started {
        ClientPass(Where(false), FailureTable(), network.links, visits);
      }
      if Stale(now) {
        if !started {
          var _ := RefreshServerListForClient(found, visits, now);
        } else {
          var _, _, _, _ := RefreshServerList(found, visits, now);
        }
      }
    }

    /** GetAvailableServers. */
    method GetAvailableServers(capable: PeerID -> bool, found: bool, visits: seq<Visit>, now: int)
      returns (available: seq<PeerID>)
      requires Valid()
      modifies this`serverPeers, this`lastUpdate, this`peerFailures, peerFailures.Values, network
      ensures Valid() && fresh(peerFailures.Values - old(peerFailures.Values)) && LoadTable() == old(LoadTable())
      ensures Mirrors(old(Refreshed(found, visits, now))) && serverPeers == old(Refreshed(found, visits, now)).servers
      ensures lastUpdate == if found && old(Stale(now)) then Some(now) else old(lastUpdate)
      ensures available == Offer(self, network.links, started, capable, serverPeers)
    {
      RefreshIfStale(found, visits, now);
      available := OfferedServers(capable);
    }

    method SelectLoadBalancedServer(servers: seq<PeerID>, now: int) returns (server: PeerID, ghost i: nat)
      requires Valid() && servers != []
      modifies this`serverLoads, serverLoads.Values
      ensures Valid() && BestOf(old(LoadTable()), servers, i) && server == servers[i]
      ensures FailureTable() == old(FailureTable())
      ensures LoadTable() == Track(old(LoadTable()), server, now)
      ensures fresh(serverLoads.Values - old(serverLoads.Values))
    {
      ghost var t := LoadTable();
      var best: int := -1;
      var bestLoad := MAX_INT;
      var k := 0;
      while k < |servers|
        invariant 0 <= k <= |servers|
        invariant best == -1 ==> bestLoad == MAX_INT && forall j :: 0 <= j < k ==> Active(t, servers[j]) >= MAX_INT
        invariant best != -1 ==> 0 <= best < k && bestLoad == Active(t, servers[best]) < MAX_INT
        invariant best != -1 ==> forall j :: 0 <= j < k ==> bestLoad <= Active(t, servers[j])
        invariant best != -1 ==> forall j :: 0 <= j < best ==> bestLoad < Active(t, servers[j])
      {
        var currentLoad := if servers[k] in serverLoads then serverLoads[servers[k]].activeConns else 0;
        if currentLoad < bestLoad {
          bestLoad, best := currentLoad, k;
        }
        k := k + 1;
      }
      if best == -1 {
        best := 0;
      }
      i, server := best, servers[best];
      TrackConnection(server, now);
    }

    /** The loop of selectPreferredServer. */
    method PreferredServers(servers: seq<PeerID>, preferred: seq<string>, name: PeerID -> string) returns (liked: seq<PeerID>)
      ensures liked == Filter(servers, Wanted(preferred, name))
    {
      liked := [];
      var k := 0;
      while k < |servers|
        invariant 0 <= k <= |servers|
        invariant liked == Filter(servers[..k], Wanted(preferred, name))
      {
        assert servers[..k + 1][..k] == servers[..k];
        var peerIDStr := name(servers[k]);
        var found := false;
        var m := 0;
        while m < |preferred| && !found
          invariant 0 <= m <= |preferred|
          invariant found <==> peerIDStr in preferred[..m]
          decreases |preferred| - m, !found
        {
          found := peerIDStr == preferred[m];
          m := m + 1;
        }
        assert preferred[..|preferred|] == preferred;
        if found {
          liked := liked + [servers[k]];
        }
        k := k + 1;
      }
      assert servers[..k] == servers;
    }

    method SelectPreferredServer(servers: seq<PeerID>, preferred: seq<string>, name: PeerID -> string, now: int)
      returns (server: PeerID, ghost i: nat)
      requires Valid() && servers != []
      modifies this`serverLoads, serverLoads.Values
      ensures Valid() && LoadTable() == Track(old(LoadTable()), server, now) && FailureTable() == old(FailureTable())
      ensures fresh(serverLoads.Values - old(serverLoads.Values))
      ensures i < |servers| && server == servers[i] && BestPreferred(old(LoadTable()), servers, preferred, name, i)
    {
      ghost var t := LoadTable();
      var liked := PreferredServers(servers, preferred, name);
      if |liked| > 0 {
        ghost var m;
        server, m := SelectLoadBalancedServer(liked, now);
        i := PreferredFrom(t, servers, preferred, name, m);
      } else {
        server, i := SelectLoadBalancedServer(servers, now);
        NonePreferred(servers, preferred, name);
      }
    }

    /** SelectServer on the available servers; draw stands for the random number of the random strategy. */
    method Pick(strategy: Strategy, servers: seq<PeerID>, preferred: seq<string>, name: PeerID -> string, draw: nat, now: int)
      returns (server: Option<PeerID>, ghost i: nat)
      requires Valid()
      modifies this`serverLoads, serverLoads.Values
      ensures Valid() && fresh(serverLoads.Values - old(serverLoads.Values)) && FailureTable() == old(FailureTable())
      ensures Answers(strategy, old(LoadTable()), LoadTable(), servers, preferred, name, server, i, now)
    {
      i := 0;
      if |servers| == 0 {
        return None, 0;
      }
      var chosen;
      match strategy {
        case Random =>
          i := draw % |servers|;
          chosen := servers[draw % |servers|];
          TrackConnection(chosen, now);
        case LoadBalance =>
          chosen, i := SelectLoadBalancedServer(servers, now);
        case Preferred =>
          chosen, i := SelectPreferredServer(servers, preferred, name, now);
        case _ =>
          chosen := servers[0];
          TrackConnection(chosen, now);
      }
      server := Some(chosen);
    }

    /** SelectServer: refresh if needed, then answer from the available servers. */
    method SelectServer(strategy: Strategy, capable: PeerID -> bool, preferred: seq<string>, name: PeerID -> string, draw: nat,
                        found: bool, visits: seq<Visit>, now: int)
      returns (server: Option<PeerID>, ghost i: nat)
      requires Valid()
      modifies this`serverPeers, this`lastUpdate, this`peerFailures, peerFailures.Values, network
      modifies this`serverLoads, serverLoads.Values
      ensures Valid() && Mirrors(old(Refreshed(found, visits, now))) && serverPeers == old(Refreshed(found, visits, now)).servers
      ensures lastUpdate == if found && old(Stale(now)) then Some(now) else old(lastUpdate)
      ensures var available := Offer(self, network.links, started, capable, serverPeers);
              Answers(strategy, old(LoadTable()), LoadTable(), available, preferred, name, server, i, now)
    {
      var servers := GetAvailableServers(capable, found, visits, now);
      server, i := Pick(strategy, servers, preferred, name, draw, now);
    }

    // -------------------------------------------------------------------------------------------
    // Failure records

    method IsBlacklisted(p: PeerID, now: int) returns (b: bool)
      requires Valid()
      modifies peerFailures.Values
      ensures Valid() && b == B.Blacklisted(policy, old(FailureTable()), p, now)
      ensures FailureTable() == B.Gate(policy, old(FailureTable()), p, now)
    {
      if p !in peerFailures {
        return false;
      }
      var info := peerFailures[p];
      if info.failureCount >= policy.maxFailures {
        if now - info.lastFailure < policy.blacklistTime {
          return true;
        }
        info.failureCount := 0;
      }
      b := false;
    }

    method RecordConnectionFailure(p: PeerID, now: int)
      requires Valid()
      modifies this`peerFailures, peerFailures.Values
      ensures Valid() && fresh(peerFailures.Values - old(peerFailures.Values))
      ensures FailureTable() == B.RecordFailure(old(FailureTable()), p, now)
    {
      if p !in peerFailures {
        var created := new PeerFailureInfo(p);
        peerFailures := peerFailures[p := created];
      }
      var info := peerFailures[p];
      info.failureCount := info.failureCount + 1;
      info.lastFailure := now;
    }

    method RecordConnectionSuccess(p: PeerID, now: int)
      requires Valid()
      modifies this`peerFailures, peerFailures.Values
      ensures Valid() && fresh(peerFailures.Values - old(peerFailures.Values))
      ensures FailureTable() == B.RecordSuccess(old(FailureTable()), p, now)
    {
      if p !in peerFailures {
        var created := new PeerFailureInfo(p);
        peerFailures := peerFailures[p := created];
      }
      var info := peerFailures[p];
      info.failureCount := 0;
      info.lastSuccess := now;
    }

    // -------------------------------------------------------------------------------------------
    // Discovery passes

    ghost function Where(mesh: bool): Setting {
      Setting(self, maxServers, policy, mesh)
    }

    /** Dialling a peer that is not connected, and recording how it went. */
    method DialPeer(v: Visit) returns (ok: bool)
      requires Valid()
      modifies this`peerFailures, peerFailures.Values, network
      ensures Valid() && fresh(peerFailures.Values - old(peerFailures.Values)) && ok == v.dialOk
      ensures FailureTable() == if ok then B.RecordSuccess(old(FailureTable()), v.peer, v.dialAt)
                                else B.RecordFailure(old(FailureTable()), v.peer, v.dialAt)
      ensures network.links == if ok then old(network.links)[v.peer := CONNECTED] else old(network.links)
    {
      ok := network.Connect(v.peer, v.dialOk);
      if !ok {
        RecordConnectionFailure(v.peer, v.dialAt);
      } else {
        RecordConnectionSuccess(v.peer, v.dialAt);
      }
    }

    /** The body of the discovery loop for a peer that is neither this node nor over the limit. */
    method ExaminePeer(v: Visit, ghost ps: Pass) returns (x: Fate, ghost ps': Pass)
      requires !ps.stopped && v.peer != self && |ps.servers| < maxServers
      requires Valid() && Mirrors(ps)
      modifies this`peerFailures, peerFailures.Values, network
      ensures Valid() && Mirrors(ps') && fresh(peerFailures.Values - old(peerFailures.Values))
      ensures ps' == Turn(Where(true), ps, v) && Extended(ps, ps', v, x)
      ensures Justified(Where(true), ps, v, x)
    {
      var y := TurnShape(Where(true), ps, v);
      assert (ps.fates + [y])[|ps.fates|] == y;
      var blacklisted := IsBlacklisted(v.peer, v.gateAt);
      if blacklisted {
        return Skipped, Turn(Where(true), ps, v);
      }
      x, ps' := ConnectAndScreen(v, Gated(Where(true), ps, v));
    }

    /** The same, once the peer has passed the blacklist check. */
    method ConnectAndScreen(v: Visit, ghost ps: Pass) returns (x: Fate, ghost ps': Pass)
      requires Valid() && Mirrors(ps) && !ps.stopped
      modifies this`peerFailures, peerFailures.Values, network
      ensures Valid() && Mirrors(ps') && fresh(peerFailures.Values - old(peerFailures.Values))
      ensures ps' == GatedTurn(Where(true), ps, v) && Extended(ps, ps', v, x)
    {
      ps' := GatedTurn(Where(true), ps, v);
      var connectedness := network.Connectedness(v.peer);
      if connectedness == NOT_CONNECTED {
        var dialled := DialPeer(v);
        if !dialled {
          return DialFailed, ps';
        }
      }
      if !v.capable {
        if connectedness == NOT_CONNECTED {
          network.ClosePeer(v.peer);
        }
        return Filtered(connectedness == NOT_CONNECTED), ps';
      }
      x := Accepted(connectedness == NOT_CONNECTED);
    }

    /** This node's records and connections are those of the pass. */
    ghost predicate Mirrors(ps: Pass)
      reads this`peerFailures, peerFailures.Values, network
    {
      FailureTable() == ps.failures && network.links == ps.links
    }

    /** The loop of refreshServerList over the discovery channel. */
    method CollectServers(visits: seq<Visit>)
      returns (newServers: seq<PeerID>, connected: nat, filtered: nat, skipped: nat, ghost ps: Pass)
      requires Valid()
      modifies this`peerFailures, peerFailures.Values, network
      ensures ps == Fold(Where(true), Begin(old(FailureTable()), old(network.links)), visits) && Valid() && Mirrors(ps)
      ensures fresh(peerFailures.Values - old(peerFailures.Values))
      ensures newServers == ps.servers && (connected, filtered, skipped) == (ps.connected, ps.filtered, ps.skipped)
    {
      ghost var begin := Begin(FailureTable(), network.links);
      ps := begin;
      newServers, connected, filtered, skipped := [], 0, 0, 0;
      var peerCount := 0;
      var i := 0;
      while i < |visits|
        invariant 0 <= i <= |visits| && Valid() && Mirrors(ps)
        invariant fresh(peerFailures.Values - old(peerFailures.Values))
        invariant ps == Fold(Where(true), begin, visits[..i]) && !ps.stopped
        invariant newServers == ps.servers && peerCount == |newServers|
        invariant connected == ps.connected && filtered == ps.filtered && skipped == ps.skipped
      {
        var v := visits[i];
        FoldSnoc(Where(true), begin, visits, i);
        i := i + 1;
        if v.peer == self {
          ps := OwnTurn(true, ps, v);
          continue;
        }
        if peerCount >= maxServers {
          ps := FullTurn(true, ps, v);
          StoppedStays(Where(true), begin, visits, i);
          return;
        }
        var x: Fate;
        x, ps := ExaminePeer(v, ps);
        if x.Accepted? {
          newServers := newServers + [v.peer];
          peerCount := peerCount + 1;
        }
        connected, filtered, skipped := Counters(x, connected, filtered, skipped);
      }
      assert visits[..i] == visits;
    }

    lemma OwnTurn(mesh: bool, ps: Pass, v: Visit) returns (ps': Pass)
      requires !ps.stopped && v.peer == self
      ensures ps' == Turn(Where(mesh), ps, v) == ps.(fates := ps.fates + [IsSelf])
    {
      ps' := Turn(Where(mesh), ps, v);
    }

    lemma FullTurn(mesh: bool, ps: Pass, v: Visit) returns (ps': Pass)
      requires !ps.stopped && v.peer != self && |ps.servers| >= maxServers
      ensures ps' == Turn(Where(mesh), ps, v) == ps.(stopped := true)
    {
      ps' := Turn(Where(mesh), ps, v);
    }

    /** The loop of refreshServerListForClient over the discovery channel. */
    method CollectServersForClient(visits: seq<Visit>) returns (newServers: seq<PeerID>, ghost ps: Pass)
      modifies network
      ensures ps == Fold(Where(false), Begin(FailureTable(), old(network.links)), visits)
      ensures network.links == ps.links && newServers == ps.servers
    {
      ghost var begin := Begin(FailureTable(), network.links);
      ps := begin;
      newServers := [];
      var peerCount := 0;
      var i := 0;
      while i < |visits|
        invariant 0 <= i <= |visits|
        invariant ps == Fold(Where(false), begin, visits[..i]) && !ps.stopped
        invariant network.links == ps.links && newServers == ps.servers && peerCount == |newServers|
      {
        var v := visits[i];
        FoldSnoc(Where(false), begin, visits, i);
        i := i + 1;
        if v.peer == self {
          ps := OwnTurn(false, ps, v);
          continue;
        }
        if peerCount >= maxServers {
          ps := FullTurn(false, ps, v);
          StoppedStays(Where(false), begin, visits, i);
          return;
        }
        ps := Turn(Where(false), ps, v);
        if network.Connectedness(v.peer) == NOT_CONNECTED {
          var dialled := network.Connect(v.peer, v.dialOk);
          if !dialled {
            continue;
          }
        }
        newServers := newServers + [v.peer];
        peerCount := peerCount + 1;
      }
      assert visits[..i] == visits;
    }

    static method Counters(x: Fate, connected: nat, filtered: nat, skipped: nat) returns (c: nat, f: nat, s: nat)
      ensures c == connected + (if IsDialled(x) then 1 else 0)
      ensures f == filtered + (if IsFiltered(x) then 1 else 0)
      ensures s == skipped + (if IsSkipped(x) then 1 else 0)
    {
      c := if (x.Filtered? || x.Accepted?) && x.dialled then connected + 1 else connected;
      f := if x.Filtered? then filtered + 1 else filtered;
      s := if x.Skipped? then skipped + 1 else skipped;
    }

    /** refreshServerList: found tells whether the search could be started, visits what its channel yields. */
    method RefreshServerList(found: bool, visits: seq<Visit>, now: int)
      returns (ok: bool, connected: nat, filtered: nat, skipped: nat)
      requires Valid()
      modifies this`serverPeers, this`lastUpdate, this`peerFailures, peerFailures.Values, network
      ensures Valid() && ok == found && fresh(peerFailures.Values - old(peerFailures.Values))
      ensures !ok ==> FailureTable() == old(FailureTable()) && network.links == old(network.links)
                      && serverPeers == old(serverPeers) && lastUpdate == old(lastUpdate)
      ensures ok ==> var ps := Fold(Where(true), Begin(old(FailureTable()), old(network.links)), visits);
                     && Mirrors(ps) && serverPeers == ps.servers && lastUpdate == Some(now)
                     && (connected, filtered, skipped) == (ps.connected, ps.filtered, ps.skipped)
    {
      connected, filtered, skipped := 0, 0, 0;
      if !found {
        return false, 0, 0, 0;
      }
      ghost var ps;
      var newServers;
      newServers, connected, filtered, skipped, ps := CollectServers(visits);
      serverPeers := newServers;
      lastUpdate := Some(now);
      ok := true;
    }

    /** refreshServerListForClient. */
    method RefreshServerListForClient(found: bool, visits: seq<Visit>, now: int) returns (ok: bool)
      modifies this`serverPeers, this`lastUpdate, network
      ensures ok == found
      ensures !ok ==> network.links == old(network.links) && serverPeers == old(serverPeers) && lastUpdate == old(lastUpdate)
      ensures ok ==> var ps := Fold(Where(false), Begin(old(FailureTable()), old(network.links)), visits);
                     && network.links == ps.links && serverPeers == ps.servers && lastUpdate == Some(now)
                     && FailureTable() == ps.failures
    {
      if !found {
        return false;
      }
      ghost var ps;
      var newServers;
      ClientPass(Where(false), FailureTable(), network.links, visits);
      newServers, ps := CollectServersForClient(visits);
      serverPeers := newServers;
      lastUpdate := Some(now);
      ok := true;
    }
  }

  /**
   The offer, exactly: the cached servers that are not this node, are connected and, in mesh
   mode, exit-capable, every one of them and in the order of the cache.
   */
  lemma OfferedExactly(self: PeerID, links: Links, mesh: bool, capable: PeerID -> bool, servers: seq<PeerID>) returns (at: seq<nat>)
    ensures var available := Offer(self, links, mesh, capable, servers);
            && |available| == |at|
            && (forall i :: 0 <= i < |at| ==> at[i] < |servers| && available[i] == servers[at[i]])
            && (forall i, j :: 0 <= i < j < |at| ==> at[i] < at[j])
            && (forall k: nat :: k < |servers| ==>
                  (k in at <==> servers[k] != self && Link(links, servers[k]) == 1 && (mesh ==> capable(servers[k]))))
  {
    at := FilterSelects(servers, p => Offered(self, links, mesh, capable, p));
  }

  /**
   Whatever the strategy, the server it picks is in the cached list, is not this node, is
   connected, and is exit-capable in mesh mode; and one is picked as long as there is such a
   server.
   */
  lemma SelectedIsOffered(strategy: Strategy, t: Table, t': Table, self: PeerID, links: Links, mesh: bool, capable: PeerID -> bool,
                          servers: seq<PeerID>, preferred: seq<string>, name: PeerID -> string, server: Option<PeerID>, i: nat, now: int)
    requires Answers(strategy, t, t', Offer(self, links, mesh, capable, servers), preferred, name, server, i, now)
    ensures server.Some? ==>
              server.value in servers && server.value != self && Link(links, server.value) == 1 && (mesh ==> capable(server.value))
    ensures server.None? <==>
              forall p :: p in servers ==> p == self || Link(links, p) != 1 || (mesh && !capable(p))
  {
    var at := OfferedExactly(self, links, mesh, capable, servers);
    if server.Some? {
      assert at[i] in at;
    } else {
      forall p | p in servers ensures p == self || Link(links, p) != 1 || (mesh && !capable(p)) {
        var k: nat :| k < |servers| && servers[k] == p;
        assert k !in at;
      }
    }
  }

  /** Selecting a server changes no other server's record, and its own counts by one. */
  lemma TrackTouchesOne(t: Table, p: PeerID, now: int, q: PeerID)
    ensures Active(Track(t, p, now), q) == Active(t, q) + (if q == p then 1 else 0)
    ensures Total(Track(t, p, now), q) == Total(t, q) + (if q == p then 1 else 0)
    ensures q != p ==> (q in Track(t, p, now) <==> q in t) && (q in t ==> Track(t, p, now)[q] == t[q])
    ensures p in Track(t, p, now) && Track(t, p, now)[p].lastUsed == now
  {
  }

  /** Releasing a server takes one off its active count if there is one to take, and changes nothing else. */
  lemma ReleaseTouchesOne(t: Table, p: PeerID, q: PeerID)
    requires NonNegative(t)
    ensures Active(Release(t, p), q) == Active(t, q) - (if q == p && Active(t, q) > 0 then 1 else 0)
    ensures Release(t, p).Keys == t.Keys && (q in t ==> Release(t, p)[q].(active := 0) == t[q].(active := 0))
  {
  }
}
