/**
 The whole path of a connection: SOCKS5 negotiation and request, the relay route, the target
 frame, and the bridges that carry the bytes to the exit.
 */
module EndToEnd {
  import opened Prelude
  import opened Wire
  import opened Socks5
  import R = Routes
  import B = Bridges

  /** What a client says: its greeting, its request, and the payload bytes that arrive along with them. */
  datatype Dialogue = Dialogue(methods: Bytes, address: Address, reserved: byte, port: nat, early: Bytes)

  ghost predicate Acceptable(d: Dialogue) {
    |d.methods| < 256 && 0 in d.methods && ValidAddress(d.address) && d.port < 65536
  }

  function Target(ip6: IPv6Text, d: Dialogue): Bytes
    requires ValidAddress(d.address)
  {
    JoinHostPort(HostText(ip6, d.address), d.port)
  }

  /** The dialogue arrives in these chunks, with none of the fields of the handshake cut short. */
  ghost predicate Arrives(d: Dialogue, chunks: Chunks)
    requires Acceptable(d)
  {
    && Proper(chunks)
    && Flatten(chunks) == EncodeGreeting(d.methods) + (EncodeRequest(d.address, d.reserved, d.port) + d.early)
    && AllWhole(chunks, [2, |d.methods|] + RequestSizes(d.address))
  }

  /** Both parsers, one after the other, when the first writes of the reply succeed. */
  function Accept(ip6: IPv6Text, chunks: Chunks, writes: nat): Parsed<Bytes> {
    var auth := Negotiation(chunks, writes > 0);
    if auth.result.Err? then Parsed(Err(auth.result.error), auth.rest, if writes > 0 then auth.reply else [])
    else
      var request := Request(ip6, auth.rest);
      Parsed(request.result, request.rest, auth.reply + if writes > 1 then request.reply else [])
  }

  /** The part of handleConnection that decides where a connection goes. */
  method AcceptConnection(ip6: IPv6Text, conn: Conn) returns (r: Result<Bytes, Error>)
    requires conn.Valid()
    modifies conn
    ensures conn.Valid()
    ensures var p := Accept(ip6, old(conn.incoming), old(conn.writesLeft));
            r == p.result && conn.incoming == p.rest && conn.sent == old(conn.sent) + p.reply
  {
    var auth := HandleAuthentication(conn);
    if auth.Err? {
      return Err(auth.error);
    }
    r := HandleRequest(ip6, conn);
  }

  /** The handshake yields the target, leaves exactly the bytes the client sent after it, and has answered only the greeting. */
  lemma HandshakeParsed(ip6: IPv6Text, d: Dialogue, chunks: Chunks, writes: nat)
    requires Acceptable(d) && Arrives(d, chunks) && writes > 0
    ensures var p := Accept(ip6, chunks, writes);
            p.result == Ok(Target(ip6, d)) && Flatten(p.rest) == d.early && p.reply == [5, 0]
  {
    AllWholeAppend(chunks, [2, |d.methods|], RequestSizes(d.address));
    NegotiationExact(chunks, d.methods, EncodeRequest(d.address, d.reserved, d.port) + d.early, true);
    RequestExact(ip6, d.address, d.reserved, d.port, Negotiation(chunks, true).rest, d.early);
  }

  /** The target of a dialogue reads back as the address and port the client asked for. */
  lemma TargetNames(ip6: IPv6Text, d: Dialogue)
    requires ValidAddress(d.address)
    ensures Names(ip6, d.address, HostPart(Target(ip6, d))) && PortPart(Target(ip6, d)) == d.port
  {
    HostPortReads(HostText(ip6, d.address), d.port);
    HostTextNames(ip6, d.address);
  }

  /**
   A refused greeting ends the connection: whatever follows it, a wrong version, an offer
   without "no authentication" and a reply that cannot be sent each give their error and their
   reply, and leave the request unread.
   */
  lemma GreetingRefused(ip6: IPv6Text, version: byte, methods: Bytes, tail: Bytes, chunks: Chunks, writes: nat)
    requires Proper(chunks) && |methods| < 256 && Flatten(chunks) == [version, |methods|] + (methods + tail)
    requires AllWhole(chunks, [2, |methods|])
    ensures var p := Accept(ip6, chunks, writes);
            && (version != 5 ==> p.result == Err(BadVersion) && p.reply == [] && Flatten(p.rest) == methods + tail)
            && (version == 5 && 0 !in methods ==>
                  p.result == Err(NoAcceptableMethod) && p.reply == (if writes > 0 then [5, 255] else []) && Flatten(p.rest) == tail)
            && (version == 5 && 0 in methods && writes == 0 ==>
                  p.result == Err(WriteFailed) && p.reply == [] && Flatten(p.rest) == tail)
  {
    NegotiationVerdict(chunks, version, methods, tail, writes > 0);
  }

  /** No connection gets a target without an accepted greeting, however the greeting arrives. */
  lemma NoTargetWithoutGreeting(ip6: IPv6Text, methods: Bytes, tail: Bytes, chunks: Chunks, writes: nat)
    requires Proper(chunks) && |methods| < 256 && Flatten(chunks) == EncodeGreeting(methods) + tail
    ensures Accept(ip6, chunks, writes).result.Ok? ==>
            writes > 0 && Whole(chunks, 2) && (0 in methods || !Whole(ReadSome(chunks, 2).1, |methods|))
  {
    NegotiationAccepted(chunks, methods, tail, writes > 0);
  }

  /** The same for any bytes at all. */
  lemma NoTargetWithoutNegotiation(ip6: IPv6Text, chunks: Chunks, writes: nat)
    ensures Accept(ip6, chunks, writes).result.Ok? ==> Negotiation(chunks, writes > 0).result == Ok(())
    ensures Negotiation(chunks, writes > 0).result.Err? ==> Accept(ip6, chunks, writes).result.Err?
                                                            && Accept(ip6, chunks, writes).rest == Negotiation(chunks, writes > 0).rest
  {
  }

  /**
   A refused request after an accepted greeting: the error its header deserves; the reply to
   the greeting, followed by the refusal if one more write succeeds; and nothing read past
   the header.
   */
  lemma RequestRefused(ip6: IPv6Text, methods: Bytes, version: byte, cmd: byte, reserved: byte, atyp: byte, tail: Bytes,
                       chunks: Chunks, writes: nat)
    requires Proper(chunks) && |methods| < 256 && 0 in methods && writes > 0
    requires Flatten(chunks) == EncodeGreeting(methods) + ([version, cmd, reserved, atyp] + tail)
    requires AllWhole(chunks, [2, |methods|] + [4])
    requires version != 5 || cmd != 1 || (atyp != 1 && atyp != 3 && atyp != 4)
    ensures var p := Accept(ip6, chunks, writes);
            && p.result == Err(if version != 5 then BadVersion else if cmd != 1 then BadCommand else BadAddressType)
            && p.reply == [5, 0] + (if version != 5 || writes == 1 then [] else [5, if cmd != 1 then 7 else 8, 0, 1, 0, 0, 0, 0, 0, 0])
            && Flatten(p.rest) == tail
  {
    AllWholeAppend(chunks, [2, |methods|], [4]);
    OneWhole(After(chunks, [2, |methods|]), 4);
    var head: Bytes := [version, cmd, reserved, atyp];
    NegotiationExact(chunks, methods, head + tail, true);
    NegotiationVerdict(chunks, 5, methods, head + tail, true);
    RequestRefusals(ip6, version, cmd, reserved, atyp, Negotiation(chunks, true).rest, tail);
  }

  /** The exit has read the bytes got of a stream that starts with the frame of target and goes on with payload. */
  lemma ReadSoFar(target: Bytes, payload: Bytes, got: Bytes)
    requires 1 <= |target| <= 255 && got <= Frame(target) + payload
    ensures if |got| <= |target| then Unframe(got).0 == None
            else Unframe(got).0 == Some(target) && Unframe(got).1 <= payload
  {
    var whole := Frame(target) + payload;
    if |got| <= |target| {
      assert got == whole[..|got|] == Frame(target)[..|got|];
      PartialFrame(target, got);
    } else {
      var rest := got[1 + |target|..];
      assert Frame(target) == whole[..1 + |target|];
      assert got == Frame(target) + rest;
      FrameRoundTrip(target, rest);
      assert rest == whole[1 + |target|..|got|] == payload[..|rest|];
    }
  }

  /** What the exit has read after a run over n bridges, the first of which starts with the client's early bytes before it and the frame past it. */
  ghost function ReadByExit(n: nat, early: Bytes, target: Bytes, es: seq<B.Event>): Bytes
    requires n > 0 && B.Possible(B.Start(n, early, Frame(target)), es)
  {
    B.After(B.Start(n, early, Frame(target)), es).fwd.delivered
  }

  lemma Regroup(x: Bytes, y: Bytes, z: Bytes)
    ensures x + y + z == x + (y + z)
  {
  }

  lemma ExitReadsInOrder(n: nat, early: Bytes, target: Bytes, es: seq<B.Event>)
    requires n > 0 && B.Possible(B.Start(n, early, Frame(target)), es)
    ensures ReadByExit(n, early, target, es) <= Frame(target) + (early + B.Written(es, B.Fwd))
  {
    var frame, written := Frame(target), B.Written(es, B.Fwd);
    B.StreamConservation(n, early, frame, es, B.Fwd);
    Regroup(frame, early, written);
  }

  /**
   End to end, for any list of peers, any fragmentation of the streams and any interleaving of
   the bridges: the handshake yields the target the client asked for; the route runs through
   exactly the listed peers and ends with the last one acting as the exit; the exit never
   makes out any other target; and whatever it reads after the frame is at all times an
   initial part of the client's payload.
   */
  lemma ConnectionReachesItsTarget(
    ip6: IPv6Text, d: Dialogue, chunks: Chunks,
    writes: nat, codec: R.Codec, dial: R.Dialer, proxyID: string, peers: seq<PeerID>, es: seq<B.Event>)
    requires Acceptable(d) && Arrives(d, chunks) && writes > 0 && 1 <= |Target(ip6, d)| <= 255
    requires R.Lawful(codec) && peers != [] && R.Reachable(codec, dial, proxyID, peers) && proxyID != "" && '/' !in proxyID
    requires B.Possible(B.Start(|peers|, d.early, Frame(Target(ip6, d))), es)
    ensures Accept(ip6, chunks, writes).result == Ok(Target(ip6, d)) && Flatten(Accept(ip6, chunks, writes).rest) == d.early
    ensures R.Run(codec, dial, R.Opening(codec, proxyID, peers)) == R.Journey(peers[1..], R.Exited(proxyID))
    ensures var got := ReadByExit(|peers|, d.early, Target(ip6, d), es);
            if |got| <= |Target(ip6, d)| then Unframe(got).0 == None
            else Unframe(got).0 == Some(Target(ip6, d)) && Unframe(got).1 <= d.early + B.Written(es, B.Fwd)
  {
    HandshakeParsed(ip6, d, chunks, writes);
    R.SourceRoutingExact(codec, dial, proxyID, peers);
    ExitReadsInOrder(|peers|, d.early, Target(ip6, d), es);
    ReadSoFar(Target(ip6, d), d.early + B.Written(es, B.Fwd), ReadByExit(|peers|, d.early, Target(ip6, d), es));
  }

  /**
   Nothing is withheld: when the bridges come to rest and nothing along the chain has ended,
   the exit has made out the target and read the client's whole payload, early bytes first.
   */
  lemma PayloadArrivesWhole(n: nat, early: Bytes, target: Bytes, es: seq<B.Event>)
    requires n > 0 && 1 <= |target| <= 255 && B.Possible(B.Start(n, early, Frame(target)), es)
    requires var c := B.After(B.Start(n, early, Frame(target)), es);
             B.AtRest(c) && forall h :: 0 <= h < n ==> !B.Ending(c, h)
    ensures Unframe(ReadByExit(n, early, target, es)) == (Some(target), early + B.Written(es, B.Fwd))
  {
    var frame, written := Frame(target), B.Written(es, B.Fwd);
    B.RestIsDoneOrDelivered(n, early, frame, es);
    assert B.LaneOf(B.After(B.Start(n, early, frame), es), B.Fwd).delivered == frame + early + written;
    Regroup(frame, early, written);
    FrameRoundTrip(target, early + written);
  }
}
