/**
 Source-routed relay chains: printing a hop list into a protocol string, matching it,
 popping one hop at every node, and whole runs from the first peer to the exit.
 */
module Routes {
  import opened Prelude
  import opened Segments

  const VERSION: string := "1.0.0"
  const PREFIX: string := "/goxic-proxy/relay/"
  const MIDDLE: string := "/proxy/"

  /** The three submatches of the relay pattern; tail is empty when the optional group is absent. */
  datatype Route = Route(version: string, proxyID: string, tail: string)

  /** The character classes of the pattern: [^/]+, [^/]+ and, in the optional group, .+ */
  ghost predicate WellFormed(r: Route) {
    && r.version != "" && '/' !in r.version
    && r.proxyID != "" && '/' !in r.proxyID
    && '\n' !in r.tail
  }

  function Base(version: string, proxyID: string): string {
    PREFIX + version + MIDDLE + proxyID
  }

  function Suffix(tail: string): string {
    if tail == "" then "" else SEP + tail
  }

  /** The string a route stands for. */
  function Print(r: Route): string {
    Base(r.version, r.proxyID) + Suffix(r.tail)
  }

  /** The first position at or after i that holds a '/', or the end. */
  function Scan(s: string, i: nat): (r: nat)
    requires i <= |s|
    ensures i <= r <= |s|
    ensures r < |s| ==> s[r] == '/'
    ensures forall k :: i <= k < r ==> s[k] != '/'
    decreases |s| - i
  {
    if i == |s| || s[i] == '/' then i else Scan(s, i + 1)
  }

  /** The part after the proxy ID: nothing, or "/next/" and a non-empty tail without newlines. */
  function ParseTail(version: string, proxyID: string, s: string): Option<Route> {
    if s == "" then Some(Route(version, proxyID, ""))
    else if SEP <= s && |s| > |SEP| && '\n' !in s[|SEP|..] then Some(Route(version, proxyID, s[|SEP|..]))
    else None
  }

  function ParseProxy(version: string, s: string): Option<Route> {
    var j := Scan(s, 0);
    if j == 0 then None else ParseTail(version, s[..j], s[j..])
  }

  function ParseVersion(s: string): Option<Route> {
    var i := Scan(s, 0);
    if i == 0 || !(MIDDLE <= s[i..]) then None else ParseProxy(s[..i], s[i + |MIDDLE|..])
  }

  /** FindStringSubmatch of ^/goxic-proxy/relay/([^/]+)/proxy/([^/]+)(?:/next/(.+))?$ */
  function Parse(s: string): Option<Route> {
    if PREFIX <= s then ParseVersion(s[|PREFIX|..]) else None
  }

  /** The same, scanning character by character. */
  method FindSubmatch(s: string) returns (m: Option<Route>)
    ensures m == Parse(s)
  {
    if !(PREFIX <= s) {
      return None;
    }
    var rest := s[|PREFIX|..];
    var i := ScanLoop(rest);
    if i == 0 || !(MIDDLE <= rest[i..]) {
      return None;
    }
    var version := rest[..i];
    rest := rest[i + |MIDDLE|..];
    var j := ScanLoop(rest);
    if j == 0 {
      return None;
    }
    m := ParseTail(version, rest[..j], rest[j..]);
  }

  method ScanLoop(s: string) returns (i: nat)
    ensures i == Scan(s, 0)
  {
    i := 0;
    while i < |s| && s[i] != '/'
      invariant i <= |s| && Scan(s, 0) == Scan(s, i)
    {
      i := i + 1;
    }
  }

  lemma ScanStops(x: string, y: string)
    requires '/' !in x && (y == "" || y[0] == '/')
    ensures Scan(x + y, 0) == |x|
  {
    assert forall k :: 0 <= k < |x| ==> (x + y)[k] == x[k];
    assert y != "" ==> (x + y)[|x|] == y[0];
  }

  lemma PrefixDrop(p: string, x: string)
    ensures p <= p + x && (p + x)[..|p|] == p && (p + x)[|p|..] == x
  {
  }

  lemma PrefixRestore(p: string, s: string)
    requires p <= s
    ensures s == p + s[|p|..]
  {
  }

  lemma ParseTailExact(v: string, id: string, s: string, r: Route)
    ensures ParseTail(v, id, s) == Some(r) <==> r.version == v && r.proxyID == id && '\n' !in r.tail && s == Suffix(r.tail)
  {
    PrefixDrop(SEP, r.tail);
    if SEP <= s {
      PrefixRestore(SEP, s);
    }
  }

  lemma ParseProxyExact(v: string, s: string, r: Route)
    ensures ParseProxy(v, s) == Some(r) <==>
            r.version == v && r.proxyID != "" && '/' !in r.proxyID && '\n' !in r.tail && s == r.proxyID + Suffix(r.tail)
  {
    if r.proxyID != "" && '/' !in r.proxyID && s == r.proxyID + Suffix(r.tail) {
      ScanStops(r.proxyID, Suffix(r.tail));
      PrefixDrop(r.proxyID, Suffix(r.tail));
    }
    var j := Scan(s, 0);
    assert s == s[..j] + s[j..];
    ParseTailExact(v, s[..j], s[j..], r);
  }

  /** A slash-free word followed by a separator is found by scanning for its slash. */
  lemma WordFound(s: string, x: string, mid: string, y: string)
    requires '/' !in x && mid != "" && mid[0] == '/' && s == x + (mid + y)
    ensures var i := Scan(s, 0); x == s[..i] && mid <= s[i..] && y == s[i + |mid|..]
  {
    ScanStops(x, mid + y);
    PrefixDrop(x, mid + y);
    PrefixDrop(mid, y);
    assert s[|x| + |mid|..] == s[|x|..][|mid|..];
  }

  lemma WordSplits(s: string, mid: string)
    ensures var i := Scan(s, 0);
            '/' !in s[..i] && (mid <= s[i..] ==> s == s[..i] + (mid + s[i + |mid|..]))
  {
    var i := Scan(s, 0);
    assert s == s[..i] + s[i..];
    if mid <= s[i..] {
      PrefixRestore(mid, s[i..]);
      assert s[i + |mid|..] == s[i..][|mid|..];
    }
  }

  lemma ParseVersionExact(s: string, r: Route)
    ensures ParseVersion(s) == Some(r) <==> WellFormed(r) && s == r.version + (MIDDLE + (r.proxyID + Suffix(r.tail)))
  {
    var end := r.proxyID + Suffix(r.tail);
    var i := Scan(s, 0);
    WordSplits(s, MIDDLE);
    if WellFormed(r) && s == r.version + (MIDDLE + end) {
      WordFound(s, r.version, MIDDLE, end);
    }
    if MIDDLE <= s[i..] {
      ParseProxyExact(s[..i], s[i + |MIDDLE|..], r);
    }
  }

  /** The matcher accepts exactly the printed well-formed routes, and reads each one back in one way. */
  lemma ParsePrinted(s: string, r: Route)
    ensures Parse(s) == Some(r) <==> WellFormed(r) && Print(r) == s
  {
    var end := r.version + (MIDDLE + (r.proxyID + Suffix(r.tail)));
    assert Print(r) == PREFIX + end;
    PrefixDrop(PREFIX, end);
    if PREFIX <= s {
      PrefixRestore(PREFIX, s);
      ParseVersionExact(s[|PREFIX|..], r);
    }
  }

  /** What the pattern says: a version and a proxy ID, both non-empty and without slashes, and perhaps "/next/" and a non-empty rest without newlines. */
  lemma ParseExact(s: string, version: string, proxyID: string, tail: string)
    ensures Parse(s) == Some(Route(version, proxyID, tail)) <==>
            && version != "" && '/' !in version && proxyID != "" && '/' !in proxyID && '\n' !in tail
            && s == "/goxic-proxy/relay/" + version + "/proxy/" + proxyID + (if tail == "" then "" else "/next/" + tail)
  {
    ParsePrinted(s, Route(version, proxyID, tail));
  }

  lemma PrintParse(s: string)
    requires Parse(s).Some?
    ensures WellFormed(Parse(s).value) && Print(Parse(s).value) == s
  {
    ParsePrinted(s, Parse(s).value);
  }

  // ---------------------------------------------------------------------------------------------
  // One node

  /** peer.Decode and peer.ID.String. */
  datatype Codec = Codec(encode: PeerID -> string, decode: string -> Option<PeerID>)

  ghost predicate Lawful(c: Codec) {
    forall p: PeerID {:trigger c.encode(p)} ::
      && c.decode(c.encode(p)) == Some(p)
      && c.encode(p) != "" && '/' !in c.encode(p) && '\n' !in c.encode(p)
  }

  /** Whether opening a stream to a peer with a protocol string succeeds. */
  type Dialer = (PeerID, string) -> bool

  datatype Action =
    | Unmatched
    | BadNextPeers
    | Undecodable(segment: string)
    | DialFailed(peer: PeerID, protocol: string)
    | Forwarded(peer: PeerID, protocol: string)
    | Exited(proxyID: string)

  /** "/next/x" for every piece. */
  function Chain(xs: seq<string>): string {
    if xs == [] then "" else SEP + xs[0] + Chain(xs[1..])
  }

  /** What a node does with the protocol string of an incoming stream. */
  function Handling(c: Codec, dial: Dialer, s: string): Action {
    match Parse(s)
    case None => Unmatched
    case Some(r) => if r.tail == "" then Exited(r.proxyID) else Forwarding(c, dial, r)
  }

  function Forwarding(c: Codec, dial: Dialer, r: Route): Action {
    var pieces := Split(r.tail);
    if pieces[0] == "" then BadNextPeers
    else match c.decode(pieces[0])
      case None => Undecodable(pieces[0])
      case Some(p) =>
        var protocol := Base(r.version, r.proxyID) + Chain(Compact(pieces[1..]));
        if dial(p, protocol) then Forwarded(p, protocol) else DialFailed(p, protocol)
  }

  /** Handle: match, then either forward or act as the exit. */
  method Handle(c: Codec, dial: Dialer, s: string) returns (a: Action)
    ensures a == Handling(c, dial, s)
  {
    var m := FindSubmatch(s);
    if m.None? {
      return Unmatched;
    }
    if m.value.tail != "" {
      a := ForwardToNextPeer(c, dial, m.value);
    } else {
      a := Exited(m.value.proxyID);
    }
  }

  /** forwardToNextPeer up to the opening of the outgoing stream. */
  method ForwardToNextPeer(c: Codec, dial: Dialer, r: Route) returns (a: Action)
    ensures a == Forwarding(c, dial, r)
  {
    var nextPeers := SplitLoop(r.tail);
    if |nextPeers| < 1 || nextPeers[0] == "" {
      return BadNextPeers;
    }
    var decoded := c.decode(nextPeers[0]);
    if decoded.None? {
      return Undecodable(nextPeers[0]);
    }
    var base := Base(r.version, r.proxyID);
    var protocolID := base;
    var i := 1;
    while i < |nextPeers|
      invariant 1 <= i <= |nextPeers|
      invariant protocolID + Chain(Compact(nextPeers[i..])) == base + Chain(Compact(nextPeers[1..]))
    {
      ghost var left := nextPeers[i..];
      assert left[1..] == nextPeers[i + 1..];
      if nextPeers[i] != "" {
        assert Compact(left) == [left[0]] + Compact(left[1..]);
        assert Chain(Compact(left)) == SEP + left[0] + Chain(Compact(left[1..]));
        protocolID := protocolID + SEP + nextPeers[i];
      } else {
        assert Compact(left) == Compact(left[1..]);
      }
      i := i + 1;
    }
    assert protocolID == base + Chain(Compact(nextPeers[1..]));
    var ok := dial(decoded.value, protocolID);
    a := if ok then Forwarded(decoded.value, protocolID) else DialFailed(decoded.value, protocolID);
  }

  function Encoded(c: Codec, peers: seq<PeerID>): seq<string> {
    seq(|peers|, i requires 0 <= i < |peers| => c.encode(peers[i]))
  }

  /** The protocol string OpenRelay sends to the first of the peers. */
  function Opening(c: Codec, proxyID: string, peers: seq<PeerID>): string
    requires peers != []
  {
    Base(VERSION, proxyID) + Chain(Encoded(c, peers[1..]))
  }

  /** OpenRelay: no peers is an error; otherwise a stream to the first one carries the rest. */
  method OpenRelay(c: Codec, dial: Dialer, proxyID: string, peers: seq<PeerID>) returns (a: Option<Action>)
    ensures a == if peers == [] then None
                 else if dial(peers[0], Opening(c, proxyID, peers)) then Some(Forwarded(peers[0], Opening(c, proxyID, peers)))
                 else Some(DialFailed(peers[0], Opening(c, proxyID, peers)))
  {
    if |peers| == 0 {
      return None;
    }
    ghost var rest := Encoded(c, peers[1..]);
    var base := Base(VERSION, proxyID);
    var protocolID := base;
    var i := 1;
    while i < |peers|
      invariant 1 <= i <= |peers|
      invariant protocolID + Chain(rest[i - 1..]) == base + Chain(rest)
    {
      assert rest[i - 1..][1..] == rest[i..];
      protocolID := protocolID + SEP + c.encode(peers[i]);
      i := i + 1;
    }
    assert protocolID == Opening(c, proxyID, peers);
    var ok := dial(peers[0], protocolID);
    a := Some(if ok then Forwarded(peers[0], protocolID) else DialFailed(peers[0], protocolID));
  }

  lemma {:induction false} ChainJoin(xs: seq<string>)
    ensures Chain(xs) == if xs == [] then "" else SEP + Join(xs)
    decreases |xs|
  {
    if xs != [] {
      ChainJoin(xs[1..]);
      if |xs| == 1 {
        assert Chain(xs) == SEP + xs[0];
      }
    }
  }

  // ---------------------------------------------------------------------------------------------
  // Whole routes

  /** The hops a protocol string still asks for: the non-empty pieces of its tail, in order. */
  function Hops(s: string): seq<string> {
    match Parse(s)
    case None => []
    case Some(r) => if r.tail == "" then [] else Compact(Split(r.tail))
  }

  /** The string asks for a hop before anything else (its first piece is not empty). */
  ghost predicate Startable(s: string) {
    Parse(s).Some? && (Parse(s).value.tail == "" || Split(Parse(s).value.tail)[0] != "")
  }

  /** A string rebuilt from kept pieces parses to the same version and proxy ID and asks for exactly those pieces. */
  lemma Rebuilt(version: string, proxyID: string, xs: seq<string>)
    requires WellFormed(Route(version, proxyID, "")) && "" !in xs && forall x :: x in xs ==> '\n' !in x
    requires xs != [] ==> WellSplit(xs)
    ensures var s := Base(version, proxyID) + Chain(xs);
            Parse(s) == Some(Route(version, proxyID, Join(xs))) && Hops(s) == xs && Startable(s)
  {
    var r := Route(version, proxyID, Join(xs));
    ChainJoin(xs);
    CharsJoin(xs, '\n');
    JoinNonEmpty(xs);
    assert Base(version, proxyID) + Chain(xs) == Print(r);
    ParsePrinted(Print(r), r);
    if xs != [] {
      SplitJoin(xs);
      CompactFixed(xs);
    }
  }

  lemma JoinNonEmpty(xs: seq<string>)
    requires "" !in xs
    ensures Join(xs) == "" <==> xs == []
  {
    if |xs| == 1 {
      assert xs[0] in xs;
    }
  }

  lemma {:induction false} CompactFixed(xs: seq<string>)
    requires "" !in xs
    ensures Compact(xs) == xs
    decreases |xs|
  {
    if xs != [] {
      assert xs[0] in xs;
      CompactFixed(xs[1..]);
      assert xs == [xs[0]] + xs[1..];
    }
  }

  /** The one string that asks for the given hops. */
  function Asking(version: string, proxyID: string, hops: seq<string>): string {
    Print(Route(version, proxyID, Join(hops)))
  }

  /**
   The string sent on, whatever the accepted string it comes from, matches the pattern again
   with the same version and proxy ID, and asks for exactly the remaining non-empty pieces; it
   is at least seven characters shorter. It is forwarded if and only if the dial succeeds.
   */
  lemma ForwardStep(c: Codec, dial: Dialer, s: string)
    requires Handling(c, dial, s).Forwarded? || Handling(c, dial, s).DialFailed?
    ensures var a, r := Handling(c, dial, s), Parse(s).value;
            && (a.Forwarded? <==> dial(a.peer, a.protocol))
            && Hops(s) != [] && c.decode(Hops(s)[0]) == Some(a.peer)
            && Hops(a.protocol) == Hops(s)[1..] && Startable(a.protocol)
            && Parse(a.protocol).value.version == r.version && Parse(a.protocol).value.proxyID == r.proxyID
            && a.protocol == Asking(r.version, r.proxyID, Hops(s)[1..])
            && |a.protocol| + 7 <= |s|
  {
    PrintParse(s);
    SentOn(c, dial, s);
    HopsOf(s);
    ForwardedParses(Parse(s).value);
  }

  lemma SentOn(c: Codec, dial: Dialer, s: string)
    requires Handling(c, dial, s).Forwarded? || Handling(c, dial, s).DialFailed?
    ensures Parse(s).Some? && Parse(s).value.tail != ""
    ensures var a, r := Handling(c, dial, s), Parse(s).value;
            var pieces := Split(r.tail);
            && pieces[0] != "" && c.decode(pieces[0]) == Some(a.peer)
            && a.protocol == Base(r.version, r.proxyID) + Chain(Compact(pieces[1..]))
            && (a.Forwarded? <==> dial(a.peer, a.protocol))
  {
  }

  lemma HopsOf(s: string)
    requires Parse(s).Some? && Parse(s).value.tail != "" && Split(Parse(s).value.tail)[0] != ""
    ensures var pieces := Split(Parse(s).value.tail); Hops(s) == [pieces[0]] + Compact(pieces[1..])
  {
  }

  lemma ForwardedParses(r: Route)
    requires WellFormed(r) && r.tail != "" && Split(r.tail)[0] != ""
    ensures var xs := Compact(Split(r.tail)[1..]);
            var p := Base(r.version, r.proxyID) + Chain(xs);
            Parse(p) == Some(Route(r.version, r.proxyID, Join(xs))) && Hops(p) == xs && Startable(p) && |p| + 7 <= |Print(r)|
            && p == Asking(r.version, r.proxyID, xs)
  {
    KeptPieces(r.tail);
    Rebuilt(r.version, r.proxyID, Compact(Split(r.tail)[1..]));
    PrintParse(Base(r.version, r.proxyID) + Chain(Compact(Split(r.tail)[1..])));
    Shorter(r);
  }

  lemma Shorter(r: Route)
    requires r.tail != "" && Split(r.tail)[0] != ""
    ensures |Base(r.version, r.proxyID) + Chain(Compact(Split(r.tail)[1..]))| + 7 <= |Print(r)|
  {
    JoinSplit(r.tail);
    ChainLength(Split(r.tail));
    BaseLength(r);
  }

  lemma KeptPieces(tail: string)
    requires '\n' !in tail
    ensures var xs := Compact(Split(tail)[1..]);
            (xs != [] ==> WellSplit(xs)) && forall x :: x in xs ==> '\n' !in x
  {
    var pieces := Split(tail);
    SplitWell(tail);
    JoinSplit(tail);
    JoinChars(pieces, tail, '\n');
    if Compact(pieces[1..]) != [] {
      CompactWell(pieces[1..]);
    }
  }

  lemma BaseLength(r: Route)
    requires r.tail != ""
    ensures |Print(r)| == |Base(r.version, r.proxyID)| + |SEP| + |r.tail|
  {
  }

  lemma ChainLength(pieces: seq<string>)
    requires |pieces| > 0 && pieces[0] != ""
    ensures |Chain(Compact(pieces[1..]))| + 1 <= |Join(pieces)|
  {
    ChainJoin(Compact(pieces[1..]));
    CompactLength(pieces[1..]);
    if |pieces| == 1 {
      assert pieces[1..] == [];
    }
  }

  /** The peers a stream is forwarded to, in order, and what the last node does. */
  datatype Journey = Journey(visited: seq<PeerID>, end: Action)

  function Run(c: Codec, dial: Dialer, s: string): (j: Journey)
    ensures !j.end.Forwarded?
    decreases |s|
  {
    var a := Handling(c, dial, s);
    if a.Forwarded? then
      ForwardStep(c, dial, s);
      var rest := Run(c, dial, a.protocol);
      Journey([a.peer] + rest.visited, rest.end)
    else Journey([], a)
  }

  /** How a run for the given IDs over the given hops must end after k successful forwards. */
  ghost predicate EndsAt(c: Codec, dial: Dialer, version: string, proxyID: string, hops: seq<string>, k: nat, end: Action)
    requires k <= |hops|
  {
    if k == |hops| then end == Exited(proxyID)
    else match c.decode(hops[k])
      case None => end == Undecodable(hops[k])
      case Some(p) =>
        var protocol := Asking(version, proxyID, hops[k + 1..]);
        end == DialFailed(p, protocol) && !dial(p, protocol)
  }

  /** The i-th forward went to the i-th hop, which could be dialled with the string that asks for the hops after it. */
  ghost predicate Visits(c: Codec, dial: Dialer, version: string, proxyID: string, hops: seq<string>, i: nat, p: PeerID)
    requires i < |hops|
  {
    c.decode(hops[i]) == Some(p) && dial(p, Asking(version, proxyID, hops[i + 1..]))
  }

  ghost predicate Follows(c: Codec, dial: Dialer, version: string, proxyID: string, hops: seq<string>, j: Journey) {
    && |j.visited| <= |hops|
    && (forall i :: 0 <= i < |j.visited| ==> Visits(c, dial, version, proxyID, hops, i, j.visited[i]))
    && EndsAt(c, dial, version, proxyID, hops, |j.visited|, j.end)
  }

  /** One forward more, in front. */
  lemma FollowsFrom(c: Codec, dial: Dialer, version: string, proxyID: string, hops: seq<string>, p: PeerID, j: Journey)
    requires hops != [] && Visits(c, dial, version, proxyID, hops, 0, p) && Follows(c, dial, version, proxyID, hops[1..], j)
    ensures Follows(c, dial, version, proxyID, hops, Journey([p] + j.visited, j.end))
  {
    var rest := hops[1..];
    forall i | 0 < i < |hops| ensures rest[i - 1] == hops[i] && rest[i..] == hops[i + 1..] {
    }
    var all := [p] + j.visited;
    forall i | 0 <= i < |all| ensures Visits(c, dial, version, proxyID, hops, i, all[i]) {
      if i > 0 {
        assert Visits(c, dial, version, proxyID, rest, i - 1, j.visited[i - 1]);
      }
    }
  }

  /**
   The run of any accepted string visits its non-empty pieces in order, one forward each,
   until one fails to decode or cannot be dialled with the string that asks for the pieces
   after it; if none fails, the node after the last hop, and only that one, acts as the exit,
   for the original proxy ID.
   */
  lemma {:induction false} RunVisitsHops(c: Codec, dial: Dialer, s: string)
    requires Startable(s)
    ensures Follows(c, dial, Parse(s).value.version, Parse(s).value.proxyID, Hops(s), Run(c, dial, s))
    decreases |s|
  {
    var r := Parse(s).value;
    var a := Handling(c, dial, s);
    if a.Forwarded? {
      ForwardStep(c, dial, s);
      RunVisitsHops(c, dial, a.protocol);
      FollowsFrom(c, dial, r.version, r.proxyID, Hops(s), a.peer, Run(c, dial, a.protocol));
    } else {
      RunStops(c, dial, s);
    }
  }

  lemma RunStops(c: Codec, dial: Dialer, s: string)
    requires Startable(s) && !Handling(c, dial, s).Forwarded?
    ensures EndsAt(c, dial, Parse(s).value.version, Parse(s).value.proxyID, Hops(s), 0, Handling(c, dial, s))
  {
    PrintParse(s);
    if Handling(c, dial, s).DialFailed? {
      ForwardStep(c, dial, s);
    } else if Parse(s).value.tail != "" {
      HopsOf(s);
    }
  }

  /** A string that does not match is refused, and an accepted one whose first piece is empty is dropped at once, whatever follows; no forwarded string ever meets either end. */
  lemma LeadingEmptyPiece(c: Codec, dial: Dialer, s: string)
    ensures Run(c, dial, s).end == Unmatched <==> Parse(s).None?
    ensures Run(c, dial, s).end == BadNextPeers <==> Parse(s).Some? && !Startable(s)
    decreases |s|
  {
    var a := Handling(c, dial, s);
    if a.Forwarded? {
      ForwardStep(c, dial, s);
      RunVisitsHops(c, dial, a.protocol);
    }
  }

  /** The encoded peers of a route, as pieces of a tail. */
  lemma EncodedPieces(c: Codec, peers: seq<PeerID>)
    requires Lawful(c)
    ensures var xs := Encoded(c, peers);
            && "" !in xs && (forall x :: x in xs ==> '\n' !in x)
            && (xs != [] ==> WellSplit(xs) && Split(Join(xs)) == xs && Compact(xs) == xs)
  {
    var xs := Encoded(c, peers);
    forall x | x in xs ensures x != "" && '/' !in x && '\n' !in x {
      var i :| 0 <= i < |xs| && xs[i] == x;
    }
    forall i | 0 <= i < |xs| ensures Closed(xs[i]) && Free(xs[i]) {
      SlashFreeClosed(xs[i]);
      ClosedIsFree(xs[i]);
    }
    if xs != [] {
      SplitJoin(xs);
      CompactFixed(xs);
    }
  }

  /** What OpenRelay prints is a well-formed request for exactly the remaining peers. */
  lemma OpeningHops(c: Codec, proxyID: string, peers: seq<PeerID>)
    requires Lawful(c) && peers != [] && proxyID != "" && '/' !in proxyID
    ensures var s := Opening(c, proxyID, peers);
            && Parse(s) == Some(Route("1.0.0", proxyID, Join(Encoded(c, peers[1..]))))
            && Startable(s) && Hops(s) == Encoded(c, peers[1..])
  {
    EncodedPieces(c, peers[1..]);
    Rebuilt(VERSION, proxyID, Encoded(c, peers[1..]));
  }

  /** The node that receives the opening string of some peers sends the next one the opening string of the rest. */
  lemma OpeningHandled(c: Codec, dial: Dialer, proxyID: string, peers: seq<PeerID>)
    requires Lawful(c) && |peers| > 1 && proxyID != "" && '/' !in proxyID
    ensures var next := Opening(c, proxyID, peers[1..]);
            Handling(c, dial, Opening(c, proxyID, peers)) ==
            if dial(peers[1], next) then Forwarded(peers[1], next) else DialFailed(peers[1], next)
  {
    OpeningHops(c, proxyID, peers);
    var xs := Encoded(c, peers[1..]);
    EncodedPieces(c, peers[1..]);
    JoinNonEmpty(xs);
    EncodedPieces(c, peers[1..][1..]);
    assert xs[1..] == Encoded(c, peers[1..][1..]);
    assert Compact(xs[1..]) == xs[1..];
  }

  /** Each listed peer can be dialled by the one before it, with the string it is sent. */
  ghost predicate Reachable(c: Codec, dial: Dialer, proxyID: string, peers: seq<PeerID>) {
    forall i :: 0 < i < |peers| ==> dial(peers[i], Opening(c, proxyID, peers[i..]))
  }

  lemma ReachableStep(c: Codec, dial: Dialer, proxyID: string, peers: seq<PeerID>)
    requires |peers| > 1
    ensures Reachable(c, dial, proxyID, peers) <==>
            dial(peers[1], Opening(c, proxyID, peers[1..])) && Reachable(c, dial, proxyID, peers[1..])
  {
    var rest := peers[1..];
    assert forall i :: 0 < i < |rest| ==> rest[i] == peers[i + 1] && rest[i..] == peers[i + 1..];
    if dial(peers[1], Opening(c, proxyID, rest)) && Reachable(c, dial, proxyID, rest) {
      forall i | 0 < i < |peers| ensures dial(peers[i], Opening(c, proxyID, peers[i..])) {
        assert i > 1 ==> dial(rest[i - 1], Opening(c, proxyID, rest[i - 1..]));
      }
    }
  }

  lemma {:induction false} RouteFollowed(c: Codec, dial: Dialer, proxyID: string, peers: seq<PeerID>)
    requires Lawful(c) && peers != [] && proxyID != "" && '/' !in proxyID
    ensures Run(c, dial, Opening(c, proxyID, peers)) == Journey(peers[1..], Exited(proxyID))
            <==> Reachable(c, dial, proxyID, peers)
    decreases |peers|
  {
    var s := Opening(c, proxyID, peers);
    if |peers| == 1 {
      OpeningHops(c, proxyID, peers);
      assert peers[1..] == [];
    } else {
      OpeningHandled(c, dial, proxyID, peers);
      ReachableStep(c, dial, proxyID, peers);
      RouteFollowed(c, dial, proxyID, peers[1..]);
      assert peers[1..] == [peers[1]] + peers[1..][1..];
    }
  }

  /**
   Source routing is exact. Running OpenRelay's string hop by hop visits exactly the listed
   peers after the first, in order, and ends with exit handling for the given proxy ID, if
   and only if the proxy ID is non-empty and slash-free and every dial on the way succeeds.
   */
  lemma SourceRoutingExact(c: Codec, dial: Dialer, proxyID: string, peers: seq<PeerID>)
    requires Lawful(c) && peers != []
    ensures Run(c, dial, Opening(c, proxyID, peers)) == Journey(peers[1..], Exited(proxyID))
            <==> proxyID != "" && '/' !in proxyID && Reachable(c, dial, proxyID, peers)
  {
    if proxyID != "" && '/' !in proxyID {
      RouteFollowed(c, dial, proxyID, peers);
    } else if Run(c, dial, Opening(c, proxyID, peers)).end == Exited(proxyID) {
      ExitedIDs(c, dial, Opening(c, proxyID, peers));
    }
  }

  lemma {:induction false} ExitedIDs(c: Codec, dial: Dialer, s: string)
    requires Run(c, dial, s).end.Exited?
    ensures var id := Run(c, dial, s).end.proxyID; id != "" && '/' !in id
    decreases |s|
  {
    var a := Handling(c, dial, s);
    if a.Forwarded? {
      ForwardStep(c, dial, s);
      ExitedIDs(c, dial, a.protocol);
    } else {
      PrintParse(s);
    }
  }
}
