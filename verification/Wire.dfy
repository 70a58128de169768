/**
 Byte connections as a reader meets them. What will arrive is a sequence of non-empty chunks;
 one Read call returns bytes of the first chunk only, so every way of cutting the stream into
 short reads is some choice of chunks.
 */
module Wire {
  import opened Prelude

  type Chunks = seq<Bytes>

  ghost predicate Proper(chunks: Chunks) {
    forall i :: 0 <= i < |chunks| ==> chunks[i] != []
  }

  /** The bytes of the chunks, in order. */
  function Flatten(chunks: Chunks): Bytes {
    if chunks == [] then [] else chunks[0] + Flatten(chunks[1..])
  }

  /** One Read into n bytes: what it delivers (None at the end of the stream) and what is left. */
  function ReadSome(chunks: Chunks, n: nat): (r: (Option<Bytes>, Chunks)) {
    if n == 0 then (Some([]), chunks)
    else if chunks == [] then (None, [])
    else if |chunks[0]| <= n then (Some(chunks[0]), chunks[1..])
    else (Some(chunks[0][..n]), [chunks[0][n..]] + chunks[1..])
  }

  function Zeros(n: nat): (r: Bytes)
    ensures |r| == n && forall i :: 0 <= i < n ==> r[i] == 0
  {
    seq(n, i => 0)
  }

  /** One Read into a fresh buffer of n bytes: the whole buffer, zeros where nothing arrived. */
  function Fill(chunks: Chunks, n: nat): (r: (Option<Bytes>, Chunks))
    ensures r.0.Some? ==> |r.0.value| == n
  {
    var (got, rest) := ReadSome(chunks, n);
    match got
    case None => (None, rest)
    case Some(bs) => (Some((bs + Zeros(n))[..n]), rest)
  }

  /** The next Read of n bytes is not cut short. */
  predicate Whole(chunks: Chunks, n: nat) {
    n == 0 || (chunks != [] && n <= |chunks[0]|)
  }

  /** What is left after reads of the given sizes. */
  function After(chunks: Chunks, sizes: seq<nat>): Chunks
    decreases |sizes|
  {
    if sizes == [] then chunks else After(ReadSome(chunks, sizes[0]).1, sizes[1..])
  }

  /** Successive reads of the given sizes all arrive whole. */
  predicate AllWhole(chunks: Chunks, sizes: seq<nat>)
    decreases |sizes|
  {
    sizes == [] || (Whole(chunks, sizes[0]) && AllWhole(ReadSome(chunks, sizes[0]).1, sizes[1..]))
  }

  class Conn {
    var incoming: Chunks
    var sent: Bytes
    var writesLeft: nat  // how many more writes will succeed

    ghost predicate Valid()
      reads this
    {
      Proper(incoming)
    }

    constructor (incoming: Chunks, writesLeft: nat)
      requires Proper(incoming)
      ensures Valid() && this.incoming == incoming && sent == [] && this.writesLeft == writesLeft
    {
      this.incoming, this.sent, this.writesLeft := incoming, [], writesLeft;
    }

    /** conn.Read(buf[from:]). */
    method Read(buf: array<byte>, from: nat) returns (n: int)
      requires Valid() && from <= buf.Length
      modifies this`incoming, buf
      ensures Valid() && incoming == ReadSome(old(incoming), buf.Length - from).1
      ensures var got := ReadSome(old(incoming), buf.Length - from).0;
              if got.None? then n == -1 && buf[..] == old(buf[..])
              else n == |got.value| <= buf.Length - from
                   && buf[..] == old(buf[..from]) + got.value + old(buf[from + |got.value|..])
    {
      var (got, rest) := ReadSome(incoming, buf.Length - from);
      incoming := rest;
      match got {
        case None =>
          n := -1;
        case Some(bs) =>
          n := |bs|;
          forall i | 0 <= i < |bs| {
            buf[from + i] := bs[i];
          }
      }
    }

    /** conn.Read into a buffer made for it; the callers of this never look at the count. */
    method ReadField(n: nat) returns (field: Option<Bytes>)
      requires Valid()
      modifies this`incoming
      ensures Valid() && (field, incoming) == Fill(old(incoming), n)
    {
      var buf := new byte[n](i => 0);
      var k := Read(buf, 0);
      field := if k == -1 then None else Some(buf[..]);
      if k != -1 {
        ghost var got := ReadSome(old(incoming), n).0.value;
        assert buf[..] == (got + Zeros(n))[..n];
      }
    }

    /** io.ReadFull(conn, buf): keep reading until the buffer is full or the stream ends. */
    method ReadFull(buf: array<byte>) returns (ok: bool)
      requires Valid()
      modifies this`incoming, buf
      ensures Valid()
      ensures ok <==> |Flatten(old(incoming))| >= buf.Length
      ensures ok ==> buf[..] == Flatten(old(incoming))[..buf.Length]
                     && Flatten(incoming) == Flatten(old(incoming))[buf.Length..]
      ensures !ok ==> Flatten(incoming) == []
    {
      ghost var all := Flatten(incoming);
      var n := 0;
      while n < buf.Length
        invariant 0 <= n <= buf.Length && Valid()
        invariant all == buf[..n] + Flatten(incoming)
        decreases buf.Length - n
      {
        ghost var before := buf[..n];
        ReadSomeSplits(incoming, buf.Length - n);
        var k := Read(buf, n);
        if k == -1 {
          return false;
        }
        assert buf[..n + k] == before + buf[n..n + k];
        n := n + k;
      }
      assert buf[..n] == buf[..];
      ok := true;
    }

    /** conn.Write(bs). */
    method Write(bs: Bytes) returns (ok: bool)
      modifies this`sent, this`writesLeft
      ensures ok <==> old(writesLeft) > 0
      ensures sent == old(sent) + (if ok then bs else [])
      ensures writesLeft == if ok then old(writesLeft) - 1 else old(writesLeft)
    {
      ok := writesLeft > 0;
      if ok {
        sent, writesLeft := sent + bs, writesLeft - 1;
      }
    }
  }

  /** A Read takes a non-empty prefix of what is pending, unless nothing was asked for or nothing is left. */
  lemma ReadSomeSplits(chunks: Chunks, n: nat)
    requires Proper(chunks)
    ensures var (got, rest) := ReadSome(chunks, n);
            && Proper(rest)
            && (got.None? <==> n > 0 && Flatten(chunks) == [])
            && (got.None? ==> rest == [])
            && (got.Some? ==> Flatten(chunks) == got.value + Flatten(rest) && |got.value| <= n)
            && (got.Some? && n > 0 ==> got.value != [])
            && (got.Some? ==> (|got.value| == n <==> Whole(chunks, n)))
  {
    if n > 0 && chunks != [] && |chunks[0]| > n {
      var rest := [chunks[0][n..]] + chunks[1..];
      assert rest[1..] == chunks[1..];
      assert chunks[0] == chunks[0][..n] + chunks[0][n..];
    }
  }

  /** A whole read fills the buffer with exactly the next n bytes; a short one consumes fewer. */
  lemma FillSplits(chunks: Chunks, n: nat)
    requires Proper(chunks)
    ensures var (got, rest) := Fill(chunks, n);
            && Proper(rest)
            && (got.None? <==> n > 0 && Flatten(chunks) == [])
            && (got.Some? ==> |Flatten(chunks)| - n <= |Flatten(rest)| <= |Flatten(chunks)|)
            && (got.Some? && Whole(chunks, n) ==> Flatten(chunks) == got.value + Flatten(rest))
            && (got.Some? && !Whole(chunks, n) ==> |Flatten(rest)| > |Flatten(chunks)| - n && got.value[n - 1] == 0)
            && (Whole(chunks, n) ==> got.Some?)
            && rest == ReadSome(chunks, n).1
  {
    ReadSomeSplits(chunks, n);
    var got := ReadSome(chunks, n).0;
    if got.Some? && |got.value| == n {
      assert (got.value + Zeros(n))[..n] == got.value;
    }
  }

  /** What a read puts in its buffer: the next bytes of the stream, as many as it consumes, and zeros after them. */
  lemma FillPadded(chunks: Chunks, n: nat)
    requires Proper(chunks) && Fill(chunks, n).0.Some?
    ensures var (got, rest) := Fill(chunks, n);
            exists k :: 0 <= k <= n && Flatten(chunks) == got.value[..k] + Flatten(rest) && got.value[k..] == Zeros(n - k)
  {
    ReadSomeSplits(chunks, n);
    var bs := ReadSome(chunks, n).0.value;
    var k := |bs|;
    var value := (bs + Zeros(n))[..n];
    assert value[..k] == bs && value[k..] == Zeros(n - k);
  }

  lemma CutAt(a: Bytes, b: Bytes, c: Bytes, d: Bytes)
    requires a + b == c + d && |a| == |c|
    ensures a == c && b == d
  {
    assert a == (a + b)[..|a|] && b == (a + b)[|a|..];
    assert c == (c + d)[..|c|] && d == (c + d)[|c|..];
  }

  /** A whole read of the leading field takes that field and nothing else. */
  lemma FillField(chunks: Chunks, field: Bytes, tail: Bytes)
    requires Proper(chunks) && Flatten(chunks) == field + tail && Whole(chunks, |field|)
    ensures var (got, rest) := Fill(chunks, |field|);
            got == Some(field) && Flatten(rest) == tail && Proper(rest) && rest == ReadSome(chunks, |field|).1
  {
    FillSplits(chunks, |field|);
    var (got, rest) := Fill(chunks, |field|);
    CutAt(got.value, Flatten(rest), field, tail);
  }

  lemma {:induction false} AllWholeAppend(chunks: Chunks, xs: seq<nat>, ys: seq<nat>)
    ensures AllWhole(chunks, xs + ys) <==> AllWhole(chunks, xs) && AllWhole(After(chunks, xs), ys)
    decreases |xs|
  {
    if xs == [] {
      assert xs + ys == ys;
    } else {
      assert (xs + ys)[1..] == xs[1..] + ys;
      AllWholeAppend(ReadSome(chunks, xs[0]).1, xs[1..], ys);
    }
  }

  lemma OneWhole(chunks: Chunks, n: nat)
    ensures AllWhole(chunks, [n]) <==> Whole(chunks, n)
    ensures After(chunks, [n]) == ReadSome(chunks, n).1
  {
    var sizes: seq<nat> := [n];
    assert sizes[1..] == [];
  }

  lemma TwoWhole(chunks: Chunks, m: nat, n: nat)
    ensures var rest := ReadSome(chunks, m).1;
            && (AllWhole(chunks, [m, n]) <==> Whole(chunks, m) && Whole(rest, n))
            && After(chunks, [m, n]) == ReadSome(rest, n).1
  {
    var sizes: seq<nat> := [m, n];
    assert sizes[1..] == [n];
    OneWhole(ReadSome(chunks, m).1, n);
  }
}
