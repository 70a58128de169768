/**
 The SOCKS5 front end: method negotiation and the CONNECT request (sections 3, 4 and 5 of
 RFC 1928), the textual target they produce, and the length-prefixed frame that carries
 the target to the exit node.
 */
module Socks5 {
  import opened Prelude
  import opened Wire

  datatype Error =
    | EndOfStream
    | BadVersion
    | NoAcceptableMethod
    | BadCommand
    | BadAddressType
    | WriteFailed

  datatype Address =
    | IPv4(octets: Bytes)
    | Domain(name: Bytes)
    | IPv6(groups: Bytes)

  predicate ValidAddress(a: Address) {
    match a
    case IPv4(o) => |o| == 4
    case Domain(d) => |d| < 256
    case IPv6(g) => |g| == 16
  }

  /** net.IP.String on sixteen octets. */
  type IPv6Text = Bytes -> Bytes

  const COLON: byte := 58
  const DOT: byte := 46
  const OPEN: byte := 91
  const CLOSE: byte := 93

  // ---------------------------------------------------------------------------------------------
  // Text forms

  /** strconv.Itoa of a non-negative number. */
  function Decimal(n: nat): (r: Bytes)
    ensures r != [] && forall i :: 0 <= i < |r| ==> 48 <= r[i] <= 57
  {
    (if n < 10 then [] else Decimal(n / 10)) + [48 + n % 10]
  }

  function Dotted(o: Bytes): Bytes
    requires |o| == 4
  {
    Decimal(o[0]) + [DOT] + Decimal(o[1]) + [DOT] + Decimal(o[2]) + [DOT] + Decimal(o[3])
  }

  function HostText(ip6: IPv6Text, a: Address): Bytes
    requires ValidAddress(a)
  {
    match a
    case IPv4(o) => Dotted(o)
    case Domain(d) => d
    case IPv6(g) => ip6(g)
  }

  function Bracketed(host: Bytes): Bytes {
    if COLON in host then [OPEN] + host + [CLOSE] else host
  }

  /** net.JoinHostPort: a host that contains a colon is put in brackets. */
  function JoinHostPort(host: Bytes, port: nat): Bytes {
    Bracketed(host) + [COLON] + Decimal(port)
  }

  function Value(digits: Bytes): int {
    if digits == [] then 0 else Value(digits[..|digits| - 1]) * 10 + digits[|digits| - 1] - 48
  }

  lemma {:induction false} DecimalValue(n: nat)
    ensures Value(Decimal(n)) == n
  {
    if n >= 10 {
      DecimalValue(n / 10);
    }
    var d := Decimal(n);
    assert d[..|d| - 1] == if n < 10 then [] else Decimal(n / 10);
  }

  /** The last piece with a word added to it. */
  function Grow(pieces: seq<Bytes>, word: Bytes): (r: seq<Bytes>)
    requires pieces != []
    ensures r != []
  {
    pieces[..|pieces| - 1] + [pieces[|pieces| - 1] + word]
  }

  lemma GrowTwice(pieces: seq<Bytes>, x: Bytes, y: Bytes)
    requires pieces != []
    ensures Grow(Grow(pieces, x), y) == Grow(pieces, x + y)
  {
    assert pieces[|pieces| - 1] + x + y == pieces[|pieces| - 1] + (x + y);
  }

  /** The pieces of a text between its bytes sep. */
  function Cut(text: Bytes, sep: byte): (pieces: seq<Bytes>)
    ensures pieces != []
  {
    if text == [] then [[]]
    else
      var front, last := Cut(text[..|text| - 1], sep), text[|text| - 1];
      if last == sep then front + [[]] else Grow(front, [last])
  }

  lemma CutSnoc(text: Bytes, sep: byte, x: byte)
    ensures Cut(text + [x], sep) == if x == sep then Cut(text, sep) + [[]] else Grow(Cut(text, sep), [x])
  {
    assert (text + [x])[..|text|] == text;
  }

  lemma {:induction false} CutWord(text: Bytes, sep: byte, word: Bytes)
    requires sep !in word
    ensures Cut(text + word, sep) == Grow(Cut(text, sep), word)
    decreases |word|
  {
    var front := Cut(text, sep);
    if word == [] {
      assert text + word == text;
      assert front[|front| - 1] + word == front[|front| - 1];
    } else {
      var init, last := word[..|word| - 1], word[|word| - 1];
      CutWord(text, sep, init);
      CutSnoc(text + init, sep, last);
      GrowTwice(front, init, [last]);
      assert last in word && init + [last] == word;
      assert text + init + [last] == text + word;
    }
  }

  /** A separator and a word without one make one more piece. */
  lemma CutNext(text: Bytes, sep: byte, word: Bytes)
    requires sep !in word
    ensures Cut(text + [sep] + word, sep) == Cut(text, sep) + [word]
  {
    CutSnoc(text, sep, sep);
    CutWord(text + [sep], sep, word);
    assert Grow(Cut(text, sep) + [[]], word) == Cut(text, sep) + [[] + word];
    assert [] + word == word;
  }

  function Numbers(pieces: seq<Bytes>): (r: seq<int>)
    ensures |r| == |pieces|
  {
    seq(|pieces|, i requires 0 <= i < |pieces| => Value(pieces[i]))
  }

  /** The numbers between the dots of an IPv4 text. */
  function Octets(text: Bytes): seq<int> {
    Numbers(Cut(text, 46))
  }

  lemma FourDecimals(a: nat, b: nat, c: nat, d: nat)
    ensures Numbers([Decimal(a), Decimal(b), Decimal(c), Decimal(d)]) == [a, b, c, d]
  {
    DecimalValue(a);
    DecimalValue(b);
    DecimalValue(c);
    DecimalValue(d);
  }

  /** A dotted text reads back as the four octets, in order. */
  lemma DottedReads(o: Bytes)
    requires |o| == 4
    ensures Octets(Dotted(o)) == [o[0] as int, o[1] as int, o[2] as int, o[3] as int]
  {
    CutFour(Decimal(o[0]), Decimal(o[1]), Decimal(o[2]), Decimal(o[3]));
    FourDecimals(o[0], o[1], o[2], o[3]);
  }

  lemma CutFour(a: Bytes, b: Bytes, c: Bytes, d: Bytes)
    requires 46 !in a && 46 !in b && 46 !in c && 46 !in d
    ensures Cut(a + [46] + b + [46] + c + [46] + d, 46) == [a, b, c, d]
  {
    CutWord([], 46, a);
    assert [] + a == a && Cut(a, 46) == [a];
    CutNext(a, 46, b);
    CutNext(a + [46] + b, 46, c);
    CutNext(a + [46] + b + [46] + c, 46, d);
  }

  /** Where the last sep of a text is; -1 if there is none. */
  function LastAt(text: Bytes, sep: byte): (i: int)
    ensures -1 <= i < |text|
  {
    if text == [] then -1
    else if text[|text| - 1] == sep then |text| - 1
    else LastAt(text[..|text| - 1], sep)
  }

  lemma {:induction false} LastAtWord(text: Bytes, sep: byte, word: Bytes)
    requires sep !in word
    ensures LastAt(text + [sep] + word, sep) == |text|
    decreases |word|
  {
    var whole := text + [sep] + word;
    if word != [] {
      assert word[|word| - 1] in word;
      assert whole[..|whole| - 1] == text + [sep] + word[..|word| - 1];
      LastAtWord(text, sep, word[..|word| - 1]);
    }
  }

  /** A host without the brackets around it, if it has colons of its own. */
  function Unbracketed(b: Bytes): Bytes {
    if 58 in b && |b| >= 2 && b[0] == 91 && b[|b| - 1] == 93 then b[1..|b| - 1] else b
  }

  /** The host of a target: what is before the last colon. */
  function HostPart(text: Bytes): Bytes {
    var i := LastAt(text, 58);
    Unbracketed(if i < 0 then text else text[..i])
  }

  /** The port of a target: the number after the last colon. */
  function PortPart(text: Bytes): int {
    Value(text[LastAt(text, 58) + 1..])
  }

  lemma Unbracket(host: Bytes)
    ensures Unbracketed(Bracketed(host)) == host
  {
    if 58 in host {
      var k :| 0 <= k < |host| && host[k] == 58;
      assert Bracketed(host)[k + 1] == 58;
      assert Bracketed(host)[1..|host| + 1] == host;
    }
  }

  lemma SplitAtColon(b: Bytes, digits: Bytes)
    requires 58 !in digits
    ensures var text := b + [58] + digits;
            LastAt(text, 58) == |b| && text[..|b|] == b && text[|b| + 1..] == digits
  {
    LastAtWord(b, 58, digits);
  }

  /** A joined target reads back as its host and its port. */
  lemma HostPortReads(host: Bytes, port: nat)
    ensures HostPart(JoinHostPort(host, port)) == host && PortPart(JoinHostPort(host, port)) == port
  {
    SplitAtColon(Bracketed(host), Decimal(port));
    DecimalValue(port);
    Unbracket(host);
  }

  /** Different IPv4 addresses have different dotted forms. */
  lemma DottedInjective(o: Bytes, o': Bytes)
    requires |o| == 4 && |o'| == 4 && Dotted(o) == Dotted(o')
    ensures o == o'
  {
    DottedReads(o);
    DottedReads(o');
    var octets := Octets(Dotted(o));
    assert forall i :: 0 <= i < 4 ==> o[i] == octets[i] && o'[i] == octets[i];
  }

  /** Different hosts or ports give different targets, whatever bytes the hosts contain. */
  lemma HostPortInjective(host: Bytes, port: nat, host': Bytes, port': nat)
    requires JoinHostPort(host, port) == JoinHostPort(host', port')
    ensures host == host' && port == port'
  {
    HostPortReads(host, port);
    HostPortReads(host', port');
  }

  // ---------------------------------------------------------------------------------------------
  // Method negotiation

  /** The outcome of a parsing step: its result, what is left to read, and the bytes it tries to send back. */
  datatype Parsed<+T> = Parsed(result: Result<T, Error>, rest: Chunks, reply: Bytes)

  function Negotiation(chunks: Chunks, canWrite: bool): Parsed<()> {
    var (head, rest) := Fill(chunks, 2);
    if head.None? then Parsed(Err(EndOfStream), rest, [])
    else if head.value[0] != 5 then Parsed(Err(BadVersion), rest, [])
    else
      var (methods, rest') := Fill(rest, head.value[1]);
      if methods.None? then Parsed(Err(EndOfStream), rest', [])
      else if 0 !in methods.value then Parsed(Err(NoAcceptableMethod), rest', [5, 255])
      else Parsed(if canWrite then Ok(()) else Err(WriteFailed), rest', [5, 0])
  }

  method HandleAuthentication(conn: Conn) returns (r: Result<(), Error>)
    requires conn.Valid()
    modifies conn
    ensures conn.Valid()
    ensures var p := Negotiation(old(conn.incoming), old(conn.writesLeft) > 0);
            r == p.result && conn.incoming == p.rest
            && conn.sent == old(conn.sent) + (if old(conn.writesLeft) > 0 then p.reply else [])
            && conn.writesLeft == old(conn.writesLeft) - (if p.reply != [] && old(conn.writesLeft) > 0 then 1 else 0)
  {
    var head := conn.ReadField(2);
    if head.None? {
      return Err(EndOfStream);
    }
    var version, nmethods := head.value[0], head.value[1];
    if version != 5 {
      return Err(BadVersion);
    }
    var methods := conn.ReadField(nmethods);
    if methods.None? {
      return Err(EndOfStream);
    }
    var noAuthSupported := false;
    var i := 0;
    while i < |methods.value| && !noAuthSupported
      invariant 0 <= i <= |methods.value|
      invariant noAuthSupported <==> 0 in methods.value[..i]
      decreases |methods.value| - i, !noAuthSupported
    {
      if methods.value[i] == 0 {
        noAuthSupported := true;
      }
      i := i + 1;
    }
    assert methods.value[..|methods.value|] == methods.value;
    if !noAuthSupported {
      var _ := conn.Write([5, 255]);
      return Err(NoAcceptableMethod);
    }
    var ok := conn.Write([5, 0]);
    r := if ok then Ok(()) else Err(WriteFailed);
  }

  function EncodeGreeting(methods: Bytes): Bytes
    requires |methods| < 256
  {
    [5, |methods|] + methods
  }

  /**
   A greeting is accepted with exactly its own bytes consumed if and only if it offers the
   method "no authentication", the reply can be sent, and neither of its two fields is cut short.
   */
  lemma NegotiationExact(chunks: Chunks, methods: Bytes, tail: Bytes, canWrite: bool)
    requires Proper(chunks) && |methods| < 256 && Flatten(chunks) == EncodeGreeting(methods) + tail
    ensures var p := Negotiation(chunks, canWrite);
            p.result == Ok(()) && Flatten(p.rest) == tail <==>
            0 in methods && canWrite && AllWhole(chunks, [2, |methods|])
    ensures AllWhole(chunks, [2, |methods|]) ==>
            Proper(Negotiation(chunks, canWrite).rest) && Negotiation(chunks, canWrite).rest == After(chunks, [2, |methods|])
  {
    TwoWhole(chunks, 2, |methods|);
    var head: Bytes := [5, |methods|];
    assert Flatten(chunks) == head + (methods + tail);
    FillSplits(chunks, 2);
    if Whole(chunks, 2) {
      FillField(chunks, head, methods + tail);
      var (got, rest) := Fill(chunks, 2);
      assert got.value[0] == 5 && got.value[1] == |methods|;
      FillSplits(rest, |methods|);
      if Whole(rest, |methods|) {
        FillField(rest, methods, tail);
      }
    }
  }

  /**
   How negotiation ends, and with which reply, for every greeting of any version that arrives
   whole: the reply always tells the client exactly what happened, except that a wrong version
   gets none.
   */
  lemma NegotiationVerdict(chunks: Chunks, version: byte, methods: Bytes, tail: Bytes, canWrite: bool)
    requires Proper(chunks) && |methods| < 256 && Flatten(chunks) == [version, |methods|] + (methods + tail)
    requires AllWhole(chunks, [2, |methods|])
    ensures var p := Negotiation(chunks, canWrite);
            && (p.result == Err(BadVersion) <==> version != 5)
            && (p.result == Err(NoAcceptableMethod) <==> version == 5 && 0 !in methods)
            && (p.result == Err(WriteFailed) <==> version == 5 && 0 in methods && !canWrite)
            && p.result != Err(EndOfStream)
            && p.reply == (if version != 5 then [] else if 0 in methods then [5, 0] else [5, 255])
            && Flatten(p.rest) == if version != 5 then methods + tail else tail
  {
    TwoWhole(chunks, 2, |methods|);
    var head: Bytes := [version, |methods|];
    FillField(chunks, head, methods + tail);
    var (got, rest) := Fill(chunks, 2);
    assert got.value[0] == version && got.value[1] == |methods|;
    FillField(rest, methods, tail);
  }

  /**
   Exactly when a greeting is accepted, however its bytes arrive: the reply can be sent, the
   two header bytes came in one read, and either the client offered "no authentication" or
   the read of its methods was cut short. A client that did not offer it is thus accepted
   if and only if that second read is short.
   */
  lemma NegotiationAccepted(chunks: Chunks, methods: Bytes, tail: Bytes, canWrite: bool)
    requires Proper(chunks) && |methods| < 256 && Flatten(chunks) == EncodeGreeting(methods) + tail
    ensures Negotiation(chunks, canWrite).result == Ok(()) <==>
            canWrite && Whole(chunks, 2) && (0 in methods || !Whole(ReadSome(chunks, 2).1, |methods|))
  {
    var head: Bytes := [5, |methods|];
    assert Flatten(chunks) == head + (methods + tail);
    FillSplits(chunks, 2);
    var (got, rest) := Fill(chunks, 2);
    if Whole(chunks, 2) {
      FillField(chunks, head, methods + tail);
      assert got.value[0] == 5 && got.value[1] == |methods|;
      FillSplits(rest, |methods|);
      if Whole(rest, |methods|) {
        FillField(rest, methods, tail);
      } else {
        assert Fill(rest, |methods|).0.value[|methods| - 1] == 0;
      }
    } else {
      assert got.value[1] == 0;
    }
  }

  /**
   Cutting the list of methods short is not detected: the zero left in the buffer reads as the
   method "no authentication", which this client never offered, and its last byte stays unread.
   */
  lemma ShortGreetingAccepted()
    ensures var chunks: Chunks := [[5, 2], [2], [1]];
            && Proper(chunks) && Flatten(chunks) == EncodeGreeting([2, 1])
            && Negotiation(chunks, true) == Parsed(Ok(()), [[1]], [5, 0])
  {
    var chunks: Chunks := [[5, 2], [2], [1]];
    assert chunks[1..] == [[2], [1]] && chunks[1..][1..] == [[1]] && chunks[1..][1..][1..] == [];
    assert ([5, 2] + Zeros(2))[..2] == [5, 2];
    assert ([2] + Zeros(2))[..2] == [2, 0];
    assert Fill(chunks, 2) == (Some([5, 2]), [[2], [1]]);
    assert Fill([[2], [1]], 2) == (Some([2, 0]), [[1]]);
    assert [2, 0][1] == 0;
  }

  // ---------------------------------------------------------------------------------------------
  // The CONNECT request

  function ConnectResponse(status: byte): Bytes {
    [5, status, 0, 1, 0, 0, 0, 0, 0, 0]
  }

  method SendConnectResponse(conn: Conn, status: byte)
    modifies conn`sent, conn`writesLeft
    ensures conn.sent == old(conn.sent) + (if old(conn.writesLeft) > 0 then ConnectResponse(status) else [])
    ensures conn.writesLeft == old(conn.writesLeft) - (if old(conn.writesLeft) > 0 then 1 else 0)
  {
    var _ := conn.Write([5, status, 0, 1, 0, 0, 0, 0, 0, 0]);
  }

  /** A field of n bytes turned into text. */
  function FieldText(chunks: Chunks, n: nat, text: Bytes -> Bytes): Parsed<Bytes> {
    var (field, rest) := Fill(chunks, n);
    Parsed(if field.None? then Err(EndOfStream) else Ok(text(field.value)), rest, [])
  }

  function HostField(ip6: IPv6Text, atyp: byte, chunks: Chunks): Parsed<Bytes> {
    if atyp == 1 then
      FieldText(chunks, 4, (b: Bytes) => if |b| == 4 then Dotted(b) else [])
    else if atyp == 3 then
      var (len, rest) := Fill(chunks, 1);
      if len.None? then Parsed(Err(EndOfStream), rest, []) else FieldText(rest, len.value[0], (b: Bytes) => b)
    else if atyp == 4 then
      FieldText(chunks, 16, ip6)
    else
      Parsed(Err(BadAddressType), chunks, ConnectResponse(8))
  }

  function PortField(host: Bytes, chunks: Chunks): Parsed<Bytes> {
    var (port, rest) := Fill(chunks, 2);
    Parsed(if port.None? then Err(EndOfStream) else Ok(JoinHostPort(host, port.value[0] as int * 256 + port.value[1] as int)), rest, [])
  }

  function Request(ip6: IPv6Text, chunks: Chunks): Parsed<Bytes> {
    var (head, rest) := Fill(chunks, 4);
    if head.None? then Parsed(Err(EndOfStream), rest, [])
    else if head.value[0] != 5 then Parsed(Err(BadVersion), rest, [])
    else if head.value[1] != 1 then Parsed(Err(BadCommand), rest, ConnectResponse(7))
    else
      var host := HostField(ip6, head.value[3], rest);
      if host.result.Err? then host else PortField(host.result.value, host.rest)
  }

  /** The part of handleRequest that depends on the address type. */
  method ReadHost(ip6: IPv6Text, conn: Conn, atyp: byte) returns (r: Result<Bytes, Error>)
    requires conn.Valid()
    modifies conn
    ensures conn.Valid()
    ensures var p := HostField(ip6, atyp, old(conn.incoming));
            r == p.result && conn.incoming == p.rest
            && conn.sent == old(conn.sent) + (if old(conn.writesLeft) > 0 then p.reply else [])
            && conn.writesLeft == old(conn.writesLeft) - (if p.reply != [] && old(conn.writesLeft) > 0 then 1 else 0)
  {
    if atyp == 1 {
      var ipBuf := conn.ReadField(4);
      r := if ipBuf.None? then Err(EndOfStream) else Ok(Dotted(ipBuf.value));
    } else if atyp == 3 {
      var lenBuf := conn.ReadField(1);
      if lenBuf.None? {
        return Err(EndOfStream);
      }
      var domainBuf := conn.ReadField(lenBuf.value[0]);
      r := if domainBuf.None? then Err(EndOfStream) else Ok(domainBuf.value);
    } else if atyp == 4 {
      var ipBuf := conn.ReadField(16);
      r := if ipBuf.None? then Err(EndOfStream) else Ok(ip6(ipBuf.value));
    } else {
      SendConnectResponse(conn, 8);
      r := Err(BadAddressType);
    }
  }

  method HandleRequest(ip6: IPv6Text, conn: Conn) returns (r: Result<Bytes, Error>)
    requires conn.Valid()
    modifies conn
    ensures conn.Valid()
    ensures var p := Request(ip6, old(conn.incoming));
            r == p.result && conn.incoming == p.rest
            && conn.sent == old(conn.sent) + (if old(conn.writesLeft) > 0 then p.reply else [])
            && conn.writesLeft == old(conn.writesLeft) - (if p.reply != [] && old(conn.writesLeft) > 0 then 1 else 0)
  {
    var head := conn.ReadField(4);
    if head.None? {
      return Err(EndOfStream);
    }
    var version, cmd, atyp := head.value[0], head.value[1], head.value[3];
    if version != 5 {
      return Err(BadVersion);
    }
    if cmd != 1 {
      SendConnectResponse(conn, 7);
      return Err(BadCommand);
    }
    var addr := ReadHost(ip6, conn, atyp);
    if addr.Err? {
      return addr;
    }
    HostReplies(ip6, atyp, Fill(old(conn.incoming), 4).1);
    var portBuf := conn.ReadField(2);
    if portBuf.None? {
      return Err(EndOfStream);
    }
    var port := portBuf.value[0] as int * 256 + portBuf.value[1] as int;
    r := Ok(JoinHostPort(addr.value, port));
  }

  lemma HostReplies(ip6: IPv6Text, atyp: byte, chunks: Chunks)
    ensures HostField(ip6, atyp, chunks).result.Ok? ==> HostField(ip6, atyp, chunks).reply == []
  {
  }

  function AddressType(a: Address): byte {
    match a case IPv4(_) => 1 case Domain(_) => 3 case IPv6(_) => 4
  }

  function EncodeAddress(a: Address): Bytes
    requires ValidAddress(a)
  {
    match a
    case IPv4(o) => o
    case Domain(d) => [|d|] + d
    case IPv6(g) => g
  }

  function EncodePort(port: nat): Bytes
    requires port < 65536
  {
    [port / 256, port % 256]
  }

  /** A CONNECT request; the reserved byte may hold anything. */
  function EncodeRequest(a: Address, reserved: byte, port: nat): Bytes
    requires ValidAddress(a) && port < 65536
  {
    [5, 1, reserved, AddressType(a)] + (EncodeAddress(a) + EncodePort(port))
  }

  /** The fields a request is read in. */
  function AddressSizes(a: Address): seq<nat> {
    match a
    case IPv4(_) => [4]
    case Domain(d) => [1, |d|]
    case IPv6(_) => [16]
  }

  function RequestSizes(a: Address): seq<nat> {
    [4] + AddressSizes(a) + [2]
  }

  lemma PortStage(host: Bytes, port: nat, chunks: Chunks, tail: Bytes)
    requires Proper(chunks) && port < 65536 && Flatten(chunks) == EncodePort(port) + tail
    ensures var p := PortField(host, chunks);
            && (Whole(chunks, 2) ==> p.result == Ok(JoinHostPort(host, port)) && Flatten(p.rest) == tail && Proper(p.rest))
            && (!Whole(chunks, 2) && p.result.Ok? ==> |Flatten(p.rest)| > |tail|)
  {
    FillSplits(chunks, 2);
    if Whole(chunks, 2) {
      FillField(chunks, EncodePort(port), tail);
    }
  }

  lemma PortConsumesTwo(host: Bytes, chunks: Chunks)
    requires Proper(chunks)
    ensures var p := PortField(host, chunks); p.result.Ok? ==> |Flatten(p.rest)| >= |Flatten(chunks)| - 2
  {
    FillSplits(chunks, 2);
  }

  lemma FieldStage(chunks: Chunks, field: Bytes, tail: Bytes, text: Bytes -> Bytes)
    requires Proper(chunks) && Flatten(chunks) == field + tail
    ensures var p := FieldText(chunks, |field|, text);
            && Proper(p.rest)
            && p.rest == ReadSome(chunks, |field|).1
            && (Whole(chunks, |field|) ==> p.result == Ok(text(field)) && Flatten(p.rest) == tail)
            && (!Whole(chunks, |field|) && p.result.Ok? ==> |Flatten(p.rest)| > |tail|)
  {
    FillSplits(chunks, |field|);
    if Whole(chunks, |field|) {
      FillField(chunks, field, tail);
    }
  }

  lemma AddressStage(ip6: IPv6Text, a: Address, chunks: Chunks, tail: Bytes)
    requires Proper(chunks) && ValidAddress(a) && Flatten(chunks) == EncodeAddress(a) + tail
    ensures var p := HostField(ip6, AddressType(a), chunks);
            && Proper(p.rest)
            && (AllWhole(chunks, AddressSizes(a)) ==>
                  p.result == Ok(HostText(ip6, a)) && Flatten(p.rest) == tail && p.rest == After(chunks, AddressSizes(a)))
            && (!AllWhole(chunks, AddressSizes(a)) && p.result.Ok? ==> |Flatten(p.rest)| > |tail|)
  {
    match a {
      case Domain(d) =>
        var len: Bytes := [|d|];
        assert Flatten(chunks) == len + (d + tail);
        var (got, rest) := Fill(chunks, 1);
        TwoWhole(chunks, 1, |d|);
        FillSplits(chunks, 1);
        FillField(chunks, len, d + tail);
        assert got.value[0] == |d|;
        FieldStage(rest, d, tail, (b: Bytes) => b);
      case IPv4(o) =>
        OneWhole(chunks, 4);
        FieldStage(chunks, o, tail, (b: Bytes) => if |b| == 4 then Dotted(b) else []);
      case IPv6(g) =>
        OneWhole(chunks, 16);
        FieldStage(chunks, g, tail, ip6);
    }
  }

  /**
   Request parsing undoes encoding: the parser returns the encoded host and port and consumes
   exactly the encoded bytes, leaving the payload untouched, if and only if none of the fields
   it reads is cut short by the connection.
   */
  lemma RequestExact(ip6: IPv6Text, a: Address, reserved: byte, port: nat, chunks: Chunks, payload: Bytes)
    requires Proper(chunks) && ValidAddress(a) && port < 65536
    requires Flatten(chunks) == EncodeRequest(a, reserved, port) + payload
    ensures var p := Request(ip6, chunks);
            p.result == Ok(JoinHostPort(HostText(ip6, a), port)) && Flatten(p.rest) == payload <==>
            AllWhole(chunks, RequestSizes(a))
    ensures AllWhole(chunks, RequestSizes(a)) ==> Proper(Request(ip6, chunks).rest)
  {
    var head: Bytes := [5, 1, reserved, AddressType(a)];
    var tail := EncodePort(port) + payload;
    assert Flatten(chunks) == head + (EncodeAddress(a) + tail);
    RequestWhole(chunks, a);
    FillSplits(chunks, 4);
    if Whole(chunks, 4) {
      FillField(chunks, head, EncodeAddress(a) + tail);
      var rest := Fill(chunks, 4).1;
      RequestUnfolds(ip6, AddressType(a), reserved, chunks);
      PortAfterAddress(ip6, a, port, rest, payload);
    } else {
      ShortHeader(ip6, chunks);
    }
  }

  lemma RequestWhole(chunks: Chunks, a: Address)
    ensures var rest := ReadSome(chunks, 4).1;
            AllWhole(chunks, RequestSizes(a)) <==>
            Whole(chunks, 4) && AllWhole(rest, AddressSizes(a)) && Whole(After(rest, AddressSizes(a)), 2)
  {
    var rest := ReadSome(chunks, 4).1;
    assert RequestSizes(a) == [4] + (AddressSizes(a) + [2]);
    AllWholeAppend(chunks, [4], AddressSizes(a) + [2]);
    OneWhole(chunks, 4);
    AllWholeAppend(rest, AddressSizes(a), [2]);
    OneWhole(After(rest, AddressSizes(a)), 2);
  }

  /** The three refusals of a request, each exactly when its header deserves it, with its reply, and before anything past the header is read. */
  lemma RequestRefusals(ip6: IPv6Text, version: byte, cmd: byte, reserved: byte, atyp: byte, chunks: Chunks, tail: Bytes)
    requires Proper(chunks) && Whole(chunks, 4) && Flatten(chunks) == [version, cmd, reserved, atyp] + tail
    ensures var p := Request(ip6, chunks);
            var known := atyp == 1 || atyp == 3 || atyp == 4;
            && (p.result == Err(BadVersion) <==> version != 5)
            && (p.result == Err(BadCommand) <==> version == 5 && cmd != 1)
            && (p.result == Err(BadAddressType) <==> version == 5 && cmd == 1 && !known)
            && p.reply == (if version != 5 || (cmd == 1 && known) then []
                           else [5, if cmd != 1 then 7 else 8, 0, 1, 0, 0, 0, 0, 0, 0])
            && (version != 5 || cmd != 1 || !known ==> Flatten(p.rest) == tail)
  {
    var head: Bytes := [version, cmd, reserved, atyp];
    FillField(chunks, head, tail);
    var (got, rest) := Fill(chunks, 4);
    assert got.value[0] == version && got.value[1] == cmd && got.value[3] == atyp;
  }

  /** The text of a target names this address: four numbers for an IPv4 address, the name as it is, or what net.IP makes of the sixteen bytes. */
  ghost predicate Names(ip6: IPv6Text, a: Address, host: Bytes) {
    match a
    case IPv4(o) => Octets(host) == seq(|o|, i requires 0 <= i < |o| => o[i] as int)
    case Domain(d) => host == d
    case IPv6(g) => host == ip6(g)
  }

  /** What a client writes to ask for an address. */
  function Asked(a: Address): Bytes
    requires ValidAddress(a)
  {
    match a
    case IPv4(o) => [1] + o
    case Domain(d) => [3, |d|] + d
    case IPv6(g) => [4] + g
  }

  lemma AskedIsEncoded(a: Address, reserved: byte, port: nat)
    requires ValidAddress(a) && port < 65536
    ensures [5, 1, reserved] + Asked(a) + [port / 256, port % 256] == EncodeRequest(a, reserved, port)
  {
  }

  /** A host text stands for its address. */
  lemma HostTextNames(ip6: IPv6Text, a: Address)
    requires ValidAddress(a)
    ensures Names(ip6, a, HostText(ip6, a))
  {
    if a.IPv4? {
      DottedReads(a.octets);
    }
  }

  /** What an unshortened request is answered with: a target that reads back as the address and port that were asked for, no reply yet, and the payload left unread. */
  lemma RequestMeans(ip6: IPv6Text, a: Address, reserved: byte, port: nat, chunks: Chunks, payload: Bytes)
    requires Proper(chunks) && ValidAddress(a) && port < 65536 && AllWhole(chunks, RequestSizes(a))
    requires Flatten(chunks) == [5, 1, reserved] + Asked(a) + [port / 256, port % 256] + payload
    ensures var p := Request(ip6, chunks);
            && p.result.Ok? && Names(ip6, a, HostPart(p.result.value)) && PortPart(p.result.value) == port
            && p.reply == [] && Flatten(p.rest) == payload
  {
    AskedIsEncoded(a, reserved, port);
    RequestExact(ip6, a, reserved, port, chunks, payload);
    HostPortReads(HostText(ip6, a), port);
    HostTextNames(ip6, a);
    SilentSuccess(ip6, chunks);
  }

  /** A request that yields a target has not been answered yet. */
  lemma SilentSuccess(ip6: IPv6Text, chunks: Chunks)
    ensures Request(ip6, chunks).result.Ok? ==> Request(ip6, chunks).reply == []
  {
  }

  lemma RequestUnfolds(ip6: IPv6Text, atyp: byte, reserved: byte, chunks: Chunks)
    requires Fill(chunks, 4).0 == Some([5, 1, reserved, atyp])
    ensures var host := HostField(ip6, atyp, Fill(chunks, 4).1);
            Request(ip6, chunks) == if host.result.Err? then host else PortField(host.result.value, host.rest)
  {
  }

  lemma ShortHeader(ip6: IPv6Text, chunks: Chunks)
    requires Proper(chunks) && !Whole(chunks, 4)
    ensures Request(ip6, chunks).result.Err?
  {
    FillSplits(chunks, 4);
  }

  lemma PortAfterAddress(ip6: IPv6Text, a: Address, port: nat, chunks: Chunks, payload: Bytes)
    requires Proper(chunks) && ValidAddress(a) && port < 65536
    requires Flatten(chunks) == EncodeAddress(a) + (EncodePort(port) + payload)
    ensures var host := HostField(ip6, AddressType(a), chunks);
            var whole := AllWhole(chunks, AddressSizes(a)) && Whole(After(chunks, AddressSizes(a)), 2);
            && (whole ==> host.result.Ok?)
            && (host.result.Ok? ==>
                  var p := PortField(host.result.value, host.rest);
                  && (p.result == Ok(JoinHostPort(HostText(ip6, a), port)) && Flatten(p.rest) == payload <==> whole)
                  && (whole ==> Proper(p.rest)))
  {
    AddressStage(ip6, a, chunks, EncodePort(port) + payload);
    var host := HostField(ip6, AddressType(a), chunks);
    if host.result.Ok? {
      PortConsumesTwo(host.result.value, host.rest);
      if AllWhole(chunks, AddressSizes(a)) {
        PortStage(HostText(ip6, a), port, host.rest, payload);
      }
    }
  }

  /** A stream that ends before the greeting, or before the methods it announces, is an error and gets no reply. */
  lemma GreetingMissing(chunks: Chunks, n: byte, canWrite: bool)
    requires Proper(chunks) && (Flatten(chunks) == [] || (Flatten(chunks) == [5, n] && n > 0 && Whole(chunks, 2)))
    ensures Negotiation(chunks, canWrite) == Parsed(Err(EndOfStream), [], [])
  {
    FillSplits(chunks, 2);
    if Flatten(chunks) != [] {
      var head: Bytes := [5, n];
      assert head + [] == head;
      FillField(chunks, head, []);
      assert Fill(chunks, 2).0.value[1] == n;
      NothingToRead(Fill(chunks, 2).1, n);
    } else {
      NothingToRead(chunks, 2);
    }
  }

  lemma NothingToRead(chunks: Chunks, n: nat)
    requires Proper(chunks) && Flatten(chunks) == [] && n > 0
    ensures Fill(chunks, n) == (None, [])
  {
    ReadSomeSplits(chunks, n);
  }

  /** A stream that ends before one of the fields of a request is an error and gets no reply. */
  lemma RequestMissing(ip6: IPv6Text, a: Address, reserved: byte, port: nat, chunks: Chunks, got: Bytes)
    requires Proper(chunks) && ValidAddress(a) && port < 65536 && Flatten(chunks) == got
    requires var head: Bytes := [5, 1, reserved, AddressType(a)];
             || got == []
             || (got == head && Whole(chunks, 4))
             || (a.Domain? && a.name != [] && got == head + [|a.name|] && AllWhole(chunks, [4] + [1]))
             || (got == head + EncodeAddress(a) && AllWhole(chunks, [4] + AddressSizes(a)))
    ensures Request(ip6, chunks) == Parsed(Err(EndOfStream), [], [])
  {
    var head: Bytes := [5, 1, reserved, AddressType(a)];
    if got == [] {
      NothingToRead(chunks, 4);
    } else {
      var tail := got[4..];
      assert got == head + tail;
      AllWholeAppend(chunks, [4], if tail == EncodeAddress(a) then AddressSizes(a) else [1]);
      OneWhole(chunks, 4);
      FillField(chunks, head, tail);
      RequestUnfolds(ip6, AddressType(a), reserved, chunks);
      AddressMissing(ip6, a, Fill(chunks, 4).1, tail);
    }
  }

  lemma AddressMissing(ip6: IPv6Text, a: Address, chunks: Chunks, got: Bytes)
    requires Proper(chunks) && ValidAddress(a) && Flatten(chunks) == got
    requires || got == []
             || (a.Domain? && a.name != [] && got == [|a.name|] && Whole(chunks, 1))
             || (got == EncodeAddress(a) && AllWhole(chunks, AddressSizes(a)))
    ensures var host := HostField(ip6, AddressType(a), chunks);
            (if host.result.Err? then host else PortField(host.result.value, host.rest)) == Parsed(Err(EndOfStream), [], [])
  {
    if got == EncodeAddress(a) && AllWhole(chunks, AddressSizes(a)) {
      assert got + [] == got;
      AddressStage(ip6, a, chunks, []);
      NothingToRead(HostField(ip6, AddressType(a), chunks).rest, 2);
    } else if got == [] {
      NothingToRead(chunks, if a.IPv4? then 4 else if a.Domain? then 1 else 16);
    } else {
      assert got + [] == got;
      FillField(chunks, got, []);
      assert Fill(chunks, 1).0.value[0] == |a.name|;
      NothingToRead(Fill(chunks, 1).1, |a.name|);
    }
  }

  // ---------------------------------------------------------------------------------------------
  // The target frame

  /** What sendTargetAddr writes: the length truncated to one byte, then the address. */
  function Frame(target: Bytes): Bytes {
    [|target| % 256] + target
  }

  method SendTargetAddr(stream: Conn, target: Bytes) returns (ok: bool)
    requires stream.Valid()
    modifies stream`sent, stream`writesLeft
    ensures stream.Valid()
    ensures ok <==> old(stream.writesLeft) >= 2
    ensures stream.writesLeft == if ok then old(stream.writesLeft) - 2 else 0
    ensures stream.sent == old(stream.sent) +
              (match old(stream.writesLeft) case 0 => [] case 1 => [|target| % 256] case _ => Frame(target))
  {
    var lengthByte: byte := |target| % 256;
    ok := stream.Write([lengthByte]);
    if !ok {
      return false;
    }
    ok := stream.Write(target);
  }

  /** What readTargetAddr makes of the bytes of a stream: the address, and what stays unread. */
  function Unframe(bs: Bytes): (r: (Option<Bytes>, Bytes))
    ensures r.0.Some? ==> r.0.value != []
  {
    if bs == [] then (None, [])
    else if bs[0] == 0 then (None, bs[1..])
    else if |bs| < 1 + bs[0] as int then (None, [])
    else (Some(bs[1..1 + bs[0] as int]), bs[1 + bs[0] as int..])
  }

  /** readTargetAddr: however the stream is cut into reads, only its bytes matter. */
  method ReadTargetAddr(stream: Conn) returns (target: Option<Bytes>)
    requires stream.Valid()
    modifies stream`incoming
    ensures stream.Valid()
    ensures (target, Flatten(stream.incoming)) == Unframe(Flatten(old(stream.incoming)))
  {
    ghost var all := Flatten(stream.incoming);
    ReadSomeSplits(stream.incoming, 1);
    var lengthBytes := new byte[1](i => 0);
    var n := stream.Read(lengthBytes, 0);
    if n == -1 {
      return None;
    }
    ghost var got := ReadSome(old(stream.incoming), 1).0.value;
    assert lengthBytes[..] == got == [lengthBytes[0]];
    assert all == [lengthBytes[0]] + Flatten(stream.incoming);
    assert all[1..] == Flatten(stream.incoming);
    var addrLength: int := lengthBytes[0];
    if addrLength == 0 || addrLength > 255 {
      return None;
    }
    ghost var left := Flatten(stream.incoming);
    var addrBytes := new byte[addrLength](i => 0);
    var ok := stream.ReadFull(addrBytes);
    if !ok {
      return None;
    }
    assert all[1..1 + addrLength] == left[..addrLength] && all[1 + addrLength..] == left[addrLength..];
    target := Some(addrBytes[..]);
  }

  /**
   The exit reads back exactly the framed target, and leaves exactly the payload, if and only
   if the target has 1 to 255 bytes.
   */
  lemma FrameRoundTrip(target: Bytes, payload: Bytes)
    ensures Unframe(Frame(target) + payload) == (Some(target), payload) <==> 1 <= |target| <= 255
  {
    var bs := Frame(target) + payload;
    var k := |target| % 256;
    assert bs[0] == k;
    if 1 <= |target| <= 255 {
      assert bs[1..1 + k] == target && bs[1 + k..] == payload;
    }
  }

  /** A target of 256 bytes or more: the exit takes the remainder of its length for the whole, and the rest of the target for payload; a multiple of 256 is refused. */
  lemma LongTarget(target: Bytes, payload: Bytes)
    requires |target| >= 256
    ensures var k := |target| % 256;
            Unframe(Frame(target) + payload) == if k == 0 then (None, target + payload) else (Some(target[..k]), target[k..] + payload)
  {
    var bs, k := Frame(target) + payload, |target| % 256;
    assert bs[1..] == target + payload;
    assert bs[1..1 + k] == target[..k] && bs[1 + k..] == target[k..] + payload;
  }

  /**
   What the exit reads: a target exactly when the stream starts with its length, from 1 to 255,
   and its bytes. An empty stream, a zero length and a stream that ends inside the target are
   refused, and only the zero length leaves anything unread.
   */
  lemma UnframeExact(bs: Bytes, target: Bytes, rest: Bytes)
    ensures Unframe(bs) == (Some(target), rest) <==> 1 <= |target| <= 255 && bs == [|target|] + target + rest
    ensures Unframe(bs).0 == None <==> bs == [] || bs[0] == 0 || |bs| <= bs[0] as int
    ensures Unframe(bs).0 == None ==> Unframe(bs).1 == if bs != [] && bs[0] == 0 then bs[1..] else []
  {
    if 1 <= |target| <= 255 && bs == [|target|] + target + rest {
      assert bs[1..1 + |target|] == target && bs[1 + |target|..] == rest;
    }
    if bs != [] && |bs| > bs[0] as int {
      var n := bs[0] as int;
      assert bs == [bs[0]] + bs[1..1 + n] + bs[1 + n..];
    }
  }

  /** While the frame is still incomplete the exit gets no target at all. */
  lemma PartialFrame(target: Bytes, got: Bytes)
    requires 1 <= |target| <= 255 && |got| < |Frame(target)| && got <= Frame(target)
    ensures Unframe(got).0 == None
  {
    if got != [] {
      assert got[0] == Frame(target)[0];
    }
  }

  lemma DecimalLength(n: nat)
    requires n < 65536
    ensures 1 <= |Decimal(n)| <= 5
    ensures n < 256 ==> |Decimal(n)| <= 3
  {
    if n >= 10 { var m := n / 10;
      if m >= 10 { var m2 := m / 10;
        if m2 >= 10 { var m3 := m2 / 10;
          if m3 >= 10 { assert |Decimal(m3 / 10)| == 1; }
          assert |Decimal(m3)| <= 2; }
        assert |Decimal(m2)| <= 3; }
      assert |Decimal(m)| <= 4; }
  }

  /** Which targets fit the frame: the host with its brackets, if any, the colon and the port digits. */
  lemma TargetFits(host: Bytes, port: nat)
    requires port < 65536
    ensures 1 <= |JoinHostPort(host, port)| <= 255 <==>
            |host| + |Decimal(port)| <= if COLON in host then 252 else 254
    ensures COLON !in host && |host| <= 249 ==> 1 <= |JoinHostPort(host, port)| <= 255
  {
    DecimalLength(port);
  }

  /** Every IPv4 target survives the frame. */
  lemma IPv4Fits(o: Bytes, port: nat)
    requires |o| == 4 && port < 65536
    ensures 1 <= |JoinHostPort(Dotted(o), port)| <= 255
  {
    forall i | 0 <= i < 4 ensures 1 <= |Decimal(o[i])| <= 3 {
      DecimalLength(o[i]);
    }
    DecimalLength(port);
  }
}
