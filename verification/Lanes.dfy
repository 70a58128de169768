/**
 One direction of a chain of bridges: n copy loops in a row, each moving bytes from the pipe
 behind it, through its own buffer, to the pipe in front of it. The loops of all hops run
 concurrently, every read and write may be partial, the environment may break any loop at any
 moment, and any hop may be torn down.
 */
module Lanes {
  import opened Prelude

  /** One direction of a stream. */
  datatype Pipe = Pipe(
    data: Bytes,     // written but not yet read
    eof: bool,       // its writer has closed the writing end
    shut: bool,      // its reader has closed the reading end
    written: Bytes   // everything ever written, kept only to state what is handed on
  )

  /** Where a copying goroutine is; ok tells whether io.Copy returned a nil error. */
  datatype Phase =
    | Copying
    | Posting(ok: bool)   // io.Copy has returned, the result is not yet on the channel
    | Closing(ok: bool)   // posted, the deferred CloseWrite is still to run
    | Finished(ok: bool)

  /** A copier is intact until bytes of its source or of its buffer have been dropped. */
  datatype Copier = Copier(phase: Phase, buf: Bytes, intact: bool)

  /** ahead: what was in the second pipe before the bridges started; delivered: everything the sink has read. */
  datatype Lane = Lane(ahead: Bytes, pipes: seq<Pipe>, copiers: seq<Copier>, delivered: Bytes)

  datatype Move =
    | Send(bs: Bytes)        // the source writes
    | CloseSource            // the source closes its writing end
    | Receive(n: nat)        // the sink reads n bytes
    | Read(k: nat, n: nat)   // copier k reads n bytes into its empty buffer
    | Write(k: nat, n: nat)  // copier k writes n bytes of its buffer
    | End(k: nat)            // copier k meets the end of its source
    | Abort(k: nat)          // copier k's read or write returns because this hop has closed that end
    | Fault(k: nat)          // copier k's read or write fails for any other reason
    | Post(k: nat)           // copier k puts its result on the done channel
    | CloseWrite(k: nat)     // copier k's deferred CloseWrite
    | ShutSource(k: nat)     // teardown closes the stream copier k reads from
    | ShutTarget(k: nat)     // teardown closes the stream copier k writes to

  ghost predicate Shaped(l: Lane) {
    |l.pipes| == |l.copiers| + 1 && l.copiers != []
  }

  predicate AtEnd(m: Move) {
    m.Send? || m.CloseSource? || m.Receive?
  }

  /** The end a copier is using now has been closed by its own hop: the reading end when its buffer is empty, else the writing end. */
  predicate Cut(c: Copier, source: Pipe, target: Pipe) {
    if c.buf == [] then source.shut else target.eof
  }

  predicate Enabled(l: Lane, m: Move)
    requires Shaped(l)
  {
    (AtEnd(m) || m.k < |l.copiers|) &&
    match m
    case Send(_) => !l.pipes[0].eof
    case CloseSource => true
    case Receive(n) => 0 < n <= |l.pipes[|l.copiers|].data|
    case Read(k, n) => l.copiers[k].phase.Copying? && l.copiers[k].buf == [] && !l.pipes[k].shut && 0 < n <= |l.pipes[k].data|
    case Write(k, n) => l.copiers[k].phase.Copying? && !l.pipes[k + 1].eof && 0 < n <= |l.copiers[k].buf|
    case End(k) => l.copiers[k].phase.Copying? && l.copiers[k].buf == [] && l.pipes[k].data == [] && l.pipes[k].eof && !l.pipes[k].shut
    case Abort(k) => l.copiers[k].phase.Copying? && Cut(l.copiers[k], l.pipes[k], l.pipes[k + 1])
    case Fault(k) => l.copiers[k].phase.Copying?
    case Post(k) => l.copiers[k].phase.Posting?
    case CloseWrite(k) => l.copiers[k].phase.Closing?
    case ShutSource(_) => true
    case ShutTarget(_) => true
  }

  function SetPipe(l: Lane, k: nat, p: Pipe): Lane
    requires k < |l.pipes|
  {
    l.(pipes := l.pipes[k := p])
  }

  function SetCopier(l: Lane, k: nat, c: Copier): Lane
    requires k < |l.copiers|
  {
    l.(copiers := l.copiers[k := c])
  }

  function Fill(p: Pipe, bs: Bytes): Pipe {
    p.(data := p.data + bs, written := p.written + bs)
  }

  function Apply(l: Lane, m: Move): (l': Lane)
    requires Shaped(l) && Enabled(l, m)
    ensures Shaped(l') && |l'.copiers| == |l.copiers| && l'.ahead == l.ahead
  {
    match m
    case Send(bs) =>
      SetPipe(l, 0, Fill(l.pipes[0], bs))
    case CloseSource =>
      SetPipe(l, 0, l.pipes[0].(eof := true))
    case Receive(n) =>
      var last := |l.copiers|;
      var p := l.pipes[last];
      SetPipe(l, last, p.(data := p.data[n..])).(delivered := l.delivered + p.data[..n])
    case Read(k, n) =>
      var p, c := l.pipes[k], l.copiers[k];
      SetCopier(SetPipe(l, k, p.(data := p.data[n..])), k, c.(buf := c.buf + p.data[..n]))
    case Write(k, n) =>
      var c := l.copiers[k];
      SetCopier(SetPipe(l, k + 1, Fill(l.pipes[k + 1], c.buf[..n])), k, c.(buf := c.buf[n..]))
    case End(k) =>
      SetCopier(l, k, l.copiers[k].(phase := Posting(true)))
    case Abort(k) =>
      SetCopier(l, k, Copier(Posting(false), [], false))
    case Fault(k) =>
      SetCopier(l, k, Copier(Posting(false), [], false))
    case Post(k) =>
      SetCopier(l, k, l.copiers[k].(phase := Closing(l.copiers[k].phase.ok)))
    case CloseWrite(k) =>
      var done := SetCopier(l, k, l.copiers[k].(phase := Finished(l.copiers[k].phase.ok)));
      SetPipe(done, k + 1, l.pipes[k + 1].(eof := true))
    case ShutSource(k) =>
      var p, c := l.pipes[k], l.copiers[k];
      SetCopier(SetPipe(l, k, p.(data := [], shut := true)), k, c.(intact := c.intact && p.data == [] && p.eof))
    case ShutTarget(k) =>
      SetPipe(l, k + 1, l.pipes[k + 1].(eof := true))
  }

  // ---------------------------------------------------------------------------------------------
  // What a move does to the flags around one copier

  /** A copier's phase, and whether its side has closed the streams it reads from and writes to. */
  datatype Local = Local(phase: Phase, shut: bool, eof: bool)

  function LocalOf(l: Lane, k: nat): Local
    requires Shaped(l) && k < |l.copiers|
  {
    Local(l.copiers[k].phase, l.pipes[k].shut, l.pipes[k + 1].eof)
  }

  predicate OfCopier(m: Move, k: nat) {
    !AtEnd(m) && m.k == k
  }

  function LocalMove(loc: Local, m: Move): Local
    requires (m.Post? ==> loc.phase.Posting?) && (m.CloseWrite? ==> loc.phase.Closing?)
  {
    match m
    case End(_) => loc.(phase := Posting(true))
    case Abort(_) => loc.(phase := Posting(false))
    case Fault(_) => loc.(phase := Posting(false))
    case Post(_) => loc.(phase := Closing(loc.phase.ok))
    case CloseWrite(_) => loc.(phase := Finished(loc.phase.ok), eof := true)
    case ShutSource(_) => loc.(shut := true)
    case ShutTarget(_) => loc.(eof := true)
    case _ => loc
  }

  lemma OwnMove(l: Lane, m: Move, k: nat)
    requires Shaped(l) && Enabled(l, m) && k < |l.copiers| && OfCopier(m, k)
    ensures LocalOf(Apply(l, m), k) == LocalMove(LocalOf(l, k), m)
  {
  }

  lemma OthersMove(l: Lane, m: Move, k: nat)
    requires Shaped(l) && Enabled(l, m) && k < |l.copiers| && !OfCopier(m, k)
    ensures LocalOf(Apply(l, m), k) == LocalOf(l, k)
  {
  }

  // ---------------------------------------------------------------------------------------------
  // The invariant

  /** What copier k has to hand on: what was in front of it at the start, then everything written behind it. */
  function Due(l: Lane, k: nat): Bytes
    requires Shaped(l) && k < |l.copiers|
  {
    (if k == 0 then l.ahead else []) + l.pipes[k].written
  }

  /** How one copier stands to the pipes on either side of it; due is what it has to hand on. */
  ghost predicate CopierInv(c: Copier, source: Pipe, target: Pipe, due: Bytes) {
    && target.written + c.buf <= due
    && (c.intact ==> target.written + c.buf + source.data == due)
    && (c.phase.Copying? && !c.intact ==> source.shut)
    && (c.intact && source.shut ==> source.data == [] && source.eof)
    && (!c.phase.Copying? ==> c.buf == [])
    && (!c.phase.Copying? && c.phase.ok ==> c.intact && source.data == [] && source.eof)
    && (!c.phase.Copying? && !c.phase.ok ==> !c.intact)
  }

  ghost predicate InvAt(l: Lane, k: nat)
    requires Shaped(l) && k < |l.copiers|
  {
    CopierInv(l.copiers[k], l.pipes[k], l.pipes[k + 1], Due(l, k))
  }

  /** The sink loses nothing it was given. */
  ghost predicate SinkInv(l: Lane)
    requires Shaped(l)
  {
    l.delivered + l.pipes[|l.copiers|].data == l.pipes[|l.copiers|].written
  }

  ghost predicate Inv(l: Lane) {
    Shaped(l) && SinkInv(l) && forall k :: 0 <= k < |l.copiers| ==> InvAt(l, k)
  }

  lemma ReadInv(c: Copier, source: Pipe, target: Pipe, due: Bytes, n: nat)
    requires CopierInv(c, source, target, due) && c.phase.Copying? && !source.shut && n <= |source.data|
    ensures CopierInv(c.(buf := c.buf + source.data[..n]), source.(data := source.data[n..]), target, due)
  {
    assert source.data == source.data[..n] + source.data[n..];
    var t, b, x, y := target.written, c.buf, source.data[..n], source.data[n..];
    assert t + (b + x) + y == t + b + (x + y) == due;
  }

  lemma WriteInv(c: Copier, source: Pipe, target: Pipe, due: Bytes, n: nat)
    requires CopierInv(c, source, target, due) && c.phase.Copying? && n <= |c.buf|
    ensures CopierInv(c.(buf := c.buf[n..]), source, Fill(target, c.buf[..n]), due)
  {
    assert (target.written + c.buf[..n]) + c.buf[n..] == target.written + c.buf;
  }

  lemma FilledInv(c: Copier, source: Pipe, target: Pipe, due: Bytes, bs: Bytes)
    requires CopierInv(c, source, target, due) && !source.eof
    ensures CopierInv(c, Fill(source, bs), target, due + bs)
  {
    assert target.written + c.buf + (source.data + bs) == target.written + c.buf + source.data + bs;
  }

  /** A copier that has dropped its buffer, its source, or both. */
  lemma DroppedInv(c: Copier, source: Pipe, target: Pipe, due: Bytes, c': Copier)
    requires CopierInv(c, source, target, due) && c' == Copier(Posting(false), [], false)
    ensures CopierInv(c', source, target, due)
  {
    assert target.written <= target.written + c.buf;
    assert target.written + c'.buf == target.written;
  }

  lemma MoveKeepsCopier(l: Lane, m: Move, k: nat)
    requires Inv(l) && Enabled(l, m) && k < |l.copiers|
    ensures InvAt(Apply(l, m), k)
  {
    var c, source, target, due := l.copiers[k], l.pipes[k], l.pipes[k + 1], Due(l, k);
    assert InvAt(l, k);
    match m {
      case Read(j, n) =>
        if j == k { ReadInv(c, source, target, due, n); }
      case Write(j, n) =>
        if j == k { WriteInv(c, source, target, due, n); }
        if j + 1 == k { FilledSource(l, k, l.copiers[j].buf[..n]); }
      case Send(bs) =>
        if k == 0 { FilledSource(l, k, bs); }
      case Abort(j) =>
        if j == k { DroppedInv(c, source, target, due, Apply(l, m).copiers[k]); }
      case Fault(j) =>
        if j == k { DroppedInv(c, source, target, due, Apply(l, m).copiers[k]); }
      case _ =>
    }
  }

  lemma FilledSource(l: Lane, k: nat, bs: Bytes)
    requires Shaped(l) && k < |l.copiers| && InvAt(l, k) && !l.pipes[k].eof
    ensures CopierInv(l.copiers[k], Fill(l.pipes[k], bs), l.pipes[k + 1], (if k == 0 then l.ahead else []) + (l.pipes[k].written + bs))
  {
    FilledInv(l.copiers[k], l.pipes[k], l.pipes[k + 1], Due(l, k), bs);
    assert (if k == 0 then l.ahead else []) + (l.pipes[k].written + bs) == Due(l, k) + bs;
  }

  lemma MoveKeepsSink(l: Lane, m: Move)
    requires Shaped(l) && SinkInv(l) && Enabled(l, m)
    ensures SinkInv(Apply(l, m))
  {
    var last := |l.copiers|;
    var p := l.pipes[last];
    if m.Receive? {
      assert p.data == p.data[..m.n] + p.data[m.n..];
    }
    if m.Write? && m.k + 1 == last {
      var bs := l.copiers[m.k].buf[..m.n];
      assert l.delivered + (p.data + bs) == p.written + bs;
    }
  }

  /** Every move of every copier, of the endpoints and of a teardown keeps the invariant. */
  lemma MoveKeepsInv(l: Lane, m: Move)
    requires Inv(l) && Enabled(l, m)
    ensures Inv(Apply(l, m))
  {
    MoveKeepsSink(l, m);
    forall k: nat | k < |l.copiers| ensures InvAt(Apply(l, m), k) {
      MoveKeepsCopier(l, m, k);
    }
  }

  /** n copiers about to start; early is already in the first pipe and ahead in the one after it. */
  function Start(n: nat, early: Bytes, ahead: Bytes): (l: Lane)
    requires n > 0
    ensures Shaped(l) && |l.copiers| == n
  {
    Lane(
      ahead,
      seq(n + 1, i => var bs := if i == 0 then early else if i == 1 then ahead else []; Pipe(bs, false, false, bs)),
      seq(n, i => Copier(Copying, [], true)),
      [])
  }

  lemma StartAt(n: nat, early: Bytes, ahead: Bytes, k: nat)
    requires k < n
    ensures InvAt(Start(n, early, ahead), k)
  {
    var l := Start(n, early, ahead);
    var behind: Bytes := if k == 0 then early else if k == 1 then ahead else [];
    var front: Bytes := if k == 0 then ahead else [];
    assert l.copiers[k] == Copier(Copying, [], true);
    assert l.pipes[k] == Pipe(behind, false, false, behind) && l.pipes[k + 1] == Pipe(front, false, false, front);
    assert front + [] == front && front + behind == Due(l, k);
  }

  lemma StartInv(n: nat, early: Bytes, ahead: Bytes)
    requires n > 0
    ensures Inv(Start(n, early, ahead))
  {
    var l := Start(n, early, ahead);
    forall k: nat | k < n ensures InvAt(l, k) {
      StartAt(n, early, ahead, k);
    }
    assert [] + l.pipes[n].data == l.pipes[n].written;
  }

  // ---------------------------------------------------------------------------------------------
  // What the invariant says

  /** Everything that went into the lane: what was ahead at the start, then what the source wrote. */
  function Sent(l: Lane): Bytes
    requires Shaped(l)
  {
    l.ahead + l.pipes[0].written
  }

  lemma {:induction false} WrittenIsPrefix(l: Lane, k: nat)
    requires Inv(l) && 0 < k <= |l.copiers|
    ensures l.pipes[k].written <= Sent(l)
    decreases k
  {
    assert InvAt(l, k - 1);
    var before := l.pipes[k].written + l.copiers[k - 1].buf;
    assert l.pipes[k].written <= before <= Due(l, k - 1);
    if k > 1 {
      WrittenIsPrefix(l, k - 1);
    }
  }

  /** Delivered bytes are always an initial part of the bytes sent, before and after any loss. */
  lemma DeliveredIsPrefix(l: Lane)
    requires Inv(l)
    ensures l.delivered <= Sent(l)
  {
    WrittenIsPrefix(l, |l.copiers|);
  }

  /** The bytes still under way past pipe j: pipes and buffers, oldest first. */
  function UnderWay(l: Lane, j: nat): Bytes
    requires Shaped(l) && j <= |l.copiers|
    decreases |l.copiers| - j
  {
    if j == |l.copiers| then l.pipes[j].data
    else UnderWay(l, j + 1) + l.copiers[j].buf + l.pipes[j].data
  }

  /** No copier from j on has lost anything. */
  ghost predicate IntactFrom(l: Lane, j: nat)
    requires j <= |l.copiers|
  {
    forall k :: j <= k < |l.copiers| ==> l.copiers[k].intact
  }

  lemma {:induction false} NothingMissing(l: Lane, j: nat)
    requires Inv(l) && 0 < j <= |l.copiers| && IntactFrom(l, j)
    ensures l.pipes[j].written == l.delivered + UnderWay(l, j)
    decreases |l.copiers| - j
  {
    if j < |l.copiers| {
      NothingMissing(l, j + 1);
      assert InvAt(l, j);
      assert l.delivered + (UnderWay(l, j + 1) + l.copiers[j].buf + l.pipes[j].data)
          == l.delivered + UnderWay(l, j + 1) + l.copiers[j].buf + l.pipes[j].data;
    }
  }

  /** While nothing has been dropped, sent is delivered followed by what the hops hold, in order. */
  lemma Conservation(l: Lane)
    requires Inv(l) && IntactFrom(l, 0)
    ensures Sent(l) == l.delivered + UnderWay(l, 0)
  {
    NothingMissing(l, 1);
    assert InvAt(l, 0);
    assert l.delivered + (UnderWay(l, 1) + l.copiers[0].buf + l.pipes[0].data)
        == l.delivered + UnderWay(l, 1) + l.copiers[0].buf + l.pipes[0].data;
  }

  ghost predicate ReturnedNil(c: Copier) {
    !c.phase.Copying? && c.phase.ok
  }

  /** A copy loop that returned nil has handed on every byte of its source, whatever happens anywhere else, and no more can come. */
  lemma NilMeansHandedOn(l: Lane, k: nat)
    requires Inv(l) && k < |l.copiers| && ReturnedNil(l.copiers[k])
    ensures l.pipes[k + 1].written == Due(l, k) && l.pipes[k].eof
  {
    assert InvAt(l, k);
    assert l.pipes[k + 1].written + [] + [] == l.pipes[k + 1].written;
  }

  /** If every copy loop returned nil, all that was sent is delivered or waits at the sink. */
  lemma AllNilDrains(l: Lane)
    requires Inv(l) && forall k :: 0 <= k < |l.copiers| ==> ReturnedNil(l.copiers[k])
    ensures Sent(l) == l.delivered + l.pipes[|l.copiers|].data
  {
    NilChain(l, |l.copiers|);
  }

  lemma {:induction false} NilChain(l: Lane, k: nat)
    requires Inv(l) && 0 < k <= |l.copiers| && forall i :: 0 <= i < k ==> ReturnedNil(l.copiers[i])
    ensures l.pipes[k].written == Sent(l)
    decreases k
  {
    NilMeansHandedOn(l, k - 1);
    if k > 1 {
      NilChain(l, k - 1);
    }
  }

  /** A copy loop posts nil exactly when it has met the end of its source with an empty buffer. */
  lemma CleanEndIsNil(l: Lane, m: Move, k: nat)
    requires Shaped(l) && Enabled(l, m) && k < |l.copiers|
    ensures ReturnedNil(Apply(l, m).copiers[k]) <==> ReturnedNil(l.copiers[k]) || m == End(k)
  {
  }

  // ---------------------------------------------------------------------------------------------
  // Progress

  /**
   The reader ahead cannot hold the move up. A write may have to wait for room in the stream;
   whatever the flow control, one byte goes into an empty stream and into one whose reader
   has closed it.
   */
  predicate Unhindered(l: Lane, m: Move)
    requires Shaped(l) && Enabled(l, m)
  {
    m.Write? ==> m.n == 1 && (l.pipes[m.k + 1].data == [] || l.pipes[m.k + 1].shut)
  }

  /** Copier k has bytes to write and may have to wait for its reader. */
  predicate HeldUp(l: Lane, k: nat)
    requires Shaped(l) && k < |l.copiers|
  {
    l.copiers[k].buf != [] && l.pipes[k + 1].data != [] && !l.pipes[k + 1].shut
  }

  /** A copy loop that is not held up, and whose ends its own hop has not closed, can go on without any error if it holds bytes, has some to read or has met the end. */
  lemma CopyProgress(l: Lane, k: nat) returns (m: Move)
    requires Shaped(l) && k < |l.copiers| && l.copiers[k].phase.Copying? && !HeldUp(l, k)
    requires l.copiers[k].buf != [] || l.pipes[k].data != [] || l.pipes[k].eof
    requires !l.pipes[k].shut && !l.pipes[k + 1].eof
    ensures (m.Read? || m.Write? || m.End?) && m.k == k && Enabled(l, m) && Unhindered(l, m)
  {
    var c, p := l.copiers[k], l.pipes[k];
    m := if c.buf != [] then Write(k, 1) else if p.data != [] then Read(k, |p.data|) else End(k);
  }

  /** How many single-byte reads and writes take all bytes from pipe j on to the end of the lane, and carried more along with them. */
  function Distance(l: Lane, j: nat, carried: nat): nat
    requires Shaped(l) && j <= |l.copiers|
    decreases |l.copiers| - j
  {
    if j == |l.copiers| then 0
    else
      var into := carried + |l.pipes[j].data|;
      var out := into + |l.copiers[j].buf|;
      into + out + Distance(l, j + 1, out)
  }

  /** What the lane holds from pipe j on is no more than before. */
  ghost predicate NoMoreFrom(l: Lane, l': Lane, j: nat) {
    && Shaped(l) && Shaped(l') && |l.copiers| == |l'.copiers|
    && forall i :: j <= i < |l.copiers| ==> |l'.copiers[i].buf| <= |l.copiers[i].buf| && |l'.pipes[i].data| <= |l.pipes[i].data|
  }

  lemma {:induction false} DistanceMonotone(l: Lane, l': Lane, j: nat, carried: nat, carried': nat)
    requires NoMoreFrom(l, l', j) && j <= |l.copiers| && carried' <= carried
    ensures Distance(l', j, carried') <= Distance(l, j, carried)
    decreases |l.copiers| - j
  {
    if j < |l.copiers| {
      var into, into' := carried + |l.pipes[j].data|, carried' + |l'.pipes[j].data|;
      DistanceMonotone(l, l', j + 1, into + |l.copiers[j].buf|, into' + |l'.copiers[j].buf|);
    }
  }

  lemma {:induction false} ReadDistance(l: Lane, k: nat, n: nat, j: nat, carried: nat)
    requires Shaped(l) && Enabled(l, Read(k, n)) && j <= k
    ensures Distance(Apply(l, Read(k, n)), j, carried) <= Distance(l, j, carried) - n
    decreases k - j
  {
    var l' := Apply(l, Read(k, n));
    var out := carried + |l.pipes[j].data| + |l.copiers[j].buf|;
    if j == k {
      DistanceMonotone(l, l', k + 1, out, out);
    } else {
      ReadDistance(l, k, n, j + 1, out);
    }
  }

  lemma {:induction false} WriteDistance(l: Lane, k: nat, n: nat, j: nat, carried: nat)
    requires Shaped(l) && Enabled(l, Write(k, n)) && j <= k
    ensures Distance(Apply(l, Write(k, n)), j, carried) <= Distance(l, j, carried) - n
    decreases k - j
  {
    var l' := Apply(l, Write(k, n));
    var out := carried + |l.pipes[j].data| + |l.copiers[j].buf|;
    if j < k {
      WriteDistance(l, k, n, j + 1, out);
    } else if k + 1 < |l.copiers| {
      var next := out + |l.pipes[k + 1].data| + |l.copiers[k + 1].buf|;
      DistanceMonotone(l, l', k + 2, next, next);
    }
  }

  /** Copying bytes brings them nearer to the end of the lane; no other move of a copier or a teardown takes any away from it. */
  lemma MoveDistance(l: Lane, m: Move)
    requires Shaped(l) && Enabled(l, m) && !AtEnd(m)
    ensures Distance(Apply(l, m), 0, 0) <= Distance(l, 0, 0) - (if m.Read? || m.Write? then 1 else 0)
  {
    if m.Read? {
      ReadDistance(l, m.k, m.n, 0, 0);
    } else if m.Write? {
      WriteDistance(l, m.k, m.n, 0, 0);
    } else {
      DistanceMonotone(l, Apply(l, m), 0, 0, 0);
    }
  }

  lemma {:induction false} CarryMore(l: Lane, j: nat, carried: nat, more: nat)
    requires Shaped(l) && j <= |l.copiers|
    ensures Distance(l, j, carried + more) == Distance(l, j, carried) + 2 * (|l.copiers| - j) * more
    decreases |l.copiers| - j
  {
    if j < |l.copiers| {
      CarryMore(l, j + 1, carried + |l.pipes[j].data| + |l.copiers[j].buf|, more);
    }
  }

  /** Every byte the source writes has to be read and written once by every copier. */
  lemma EndDistance(l: Lane, m: Move)
    requires Shaped(l) && Enabled(l, m) && AtEnd(m)
    ensures Distance(Apply(l, m), 0, 0) <= Distance(l, 0, 0) + (if m.Send? then 2 * |l.copiers| * |m.bs| else 0)
  {
    var l' := Apply(l, m);
    if m.Send? {
      CarryMore(l, 0, 0, |m.bs|);
      var out := |l'.pipes[0].data| + |l.copiers[0].buf|;
      DistanceMonotone(l, l', 1, out, out);
    } else {
      DistanceMonotone(l, l', 0, 0, 0);
    }
  }
}
