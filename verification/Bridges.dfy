/**
 A chain of n bridges between a client and an exit (or target). Every bridge runs two copying
 goroutines and a main goroutine that waits for the first of them on a two-slot done channel
 and then closes both streams. The SOCKS bridge, the relay hops and the exit bridge all have
 this shape; only the order in which they close the two streams differs.
 */
module Bridges {
  import opened Prelude
  import L = Lanes

  /** Fwd copies from the client's side to the exit's side, Bwd the other way. */
  datatype Dir = Fwd | Bwd

  /** A result on the done channel. The channel carries ok; dir says who sent it. */
  datatype Report = Report(dir: Dir, ok: bool)

  datatype Main =
    | Waiting
    | Got(first: Report)
    | ClosedOutcome(first: Report)
    | ClosedIncome(first: Report)
    | Returned(first: Report)

  datatype Hop = Hop(done: seq<Report>, main: Main)

  const SLOTS: nat := 2

  /** Hop h is copier h of the forward lane and copier n - 1 - h of the backward lane. */
  datatype Chain = Chain(fwd: L.Lane, bwd: L.Lane, hops: seq<Hop>)

  datatype Event =
    | Outside(dir: Dir, move: L.Move)    // the client or the exit sends, closes or receives
    | Copy(dir: Dir, h: nat, move: L.Move) // Read, Write, End, Abort or Fault of a copier
    | Post(dir: Dir, h: nat)
    | CloseWrite(dir: Dir, h: nat)
    | Take(h: nat)                       // main receives the first result
    | CloseOutcome(h: nat)
    | CloseIncome(h: nat)

  predicate OfLoop(m: L.Move) {
    m.Read? || m.Write? || m.End? || m.Abort? || m.Fault?
  }

  ghost predicate Shaped(c: Chain) {
    L.Shaped(c.fwd) && L.Shaped(c.bwd) && |c.fwd.copiers| == |c.bwd.copiers| == |c.hops|
  }

  function Place(c: Chain, d: Dir, h: nat): nat
    requires h < |c.hops|
  {
    if d == Fwd then h else |c.hops| - 1 - h
  }

  function LaneOf(c: Chain, d: Dir): L.Lane {
    if d == Fwd then c.fwd else c.bwd
  }

  function SetLane(c: Chain, d: Dir, l: L.Lane): Chain {
    if d == Fwd then c.(fwd := l) else c.(bwd := l)
  }

  function PhaseOf(c: Chain, d: Dir, h: nat): L.Phase
    requires Shaped(c) && h < |c.hops|
  {
    LaneOf(c, d).copiers[Place(c, d, h)].phase
  }

  function MoveLane(c: Chain, d: Dir, m: L.Move): (c': Chain)
    requires Shaped(c) && L.Enabled(LaneOf(c, d), m)
    ensures Shaped(c') && c'.hops == c.hops
  {
    SetLane(c, d, L.Apply(LaneOf(c, d), m))
  }

  predicate CanMove(c: Chain, d: Dir, m: L.Move)
    requires Shaped(c)
  {
    L.Enabled(LaneOf(c, d), m)
  }

  predicate Enabled(c: Chain, e: Event)
    requires Shaped(c)
  {
    (e.Outside? || e.h < |c.hops|) &&
    match e
    case Outside(d, m) => L.AtEnd(m) && CanMove(c, d, m)
    case Copy(d, h, m) => OfLoop(m) && m.k == Place(c, d, h) && CanMove(c, d, m)
    case Post(d, h) => PhaseOf(c, d, h).Posting? && |c.hops[h].done| < SLOTS
    case CloseWrite(d, h) => PhaseOf(c, d, h).Closing?
    case Take(h) => c.hops[h].main.Waiting? && c.hops[h].done != []
    case CloseOutcome(h) => c.hops[h].main.Got? || c.hops[h].main.ClosedIncome?
    case CloseIncome(h) => c.hops[h].main.Got? || c.hops[h].main.ClosedOutcome?
  }

  function SetHop(c: Chain, h: nat, hop: Hop): Chain
    requires h < |c.hops|
  {
    c.(hops := c.hops[h := hop])
  }

  function Apply(c: Chain, e: Event): (c': Chain)
    requires Shaped(c) && Enabled(c, e)
    ensures Shaped(c') && |c'.hops| == |c.hops|
  {
    match e
    case Outside(d, m) => MoveLane(c, d, m)
    case Copy(d, h, m) => MoveLane(c, d, m)
    case Post(d, h) =>
      var hop := c.hops[h];
      SetHop(MoveLane(c, d, L.Post(Place(c, d, h))), h, hop.(done := hop.done + [Report(d, PhaseOf(c, d, h).ok)]))
    case CloseWrite(d, h) => MoveLane(c, d, L.CloseWrite(Place(c, d, h)))
    case Take(h) =>
      var hop := c.hops[h];
      SetHop(c, h, Hop(hop.done[1..], Got(hop.done[0])))
    case CloseOutcome(h) =>
      var hop := c.hops[h];
      var main := if hop.main.Got? then ClosedOutcome(hop.main.first) else Returned(hop.main.first);
      SetHop(MoveLane(MoveLane(c, Fwd, L.ShutTarget(Place(c, Fwd, h))), Bwd, L.ShutSource(Place(c, Bwd, h))), h, hop.(main := main))
    case CloseIncome(h) =>
      var hop := c.hops[h];
      var main := if hop.main.Got? then ClosedIncome(hop.main.first) else Returned(hop.main.first);
      SetHop(MoveLane(MoveLane(c, Fwd, L.ShutSource(Place(c, Fwd, h))), Bwd, L.ShutTarget(Place(c, Bwd, h))), h, hop.(main := main))
  }

  // ---------------------------------------------------------------------------------------------
  // What one hop's goroutines know

  /** The part of a chain that the three goroutines of one hop decide. */
  datatype View = View(fwd: L.Local, bwd: L.Local, done: seq<Report>, main: Main)

  function ViewOf(c: Chain, h: nat): View
    requires Shaped(c) && h < |c.hops|
  {
    View(L.LocalOf(c.fwd, h), L.LocalOf(c.bwd, Place(c, Bwd, h)), c.hops[h].done, c.hops[h].main)
  }

  function Side(v: View, d: Dir): L.Local {
    if d == Fwd then v.fwd else v.bwd
  }

  function SetSide(v: View, d: Dir, loc: L.Local): View {
    if d == Fwd then v.(fwd := loc) else v.(bwd := loc)
  }

  /** Every result posted so far, oldest first. */
  function Reports(v: View): seq<Report> {
    (if v.main.Waiting? then [] else [v.main.first]) + v.done
  }

  ghost predicate Posted(p: L.Phase) {
    p.Closing? || p.Finished?
  }

  /** The reports are exactly one from each copier that has posted, with its own result. */
  ghost predicate ReportsMatch(v: View) {
    && (forall r :: r in Reports(v) ==> Posted(Side(v, r.dir).phase) && r.ok == Side(v, r.dir).phase.ok)
    && (forall d :: Posted(Side(v, d).phase) ==> Report(d, Side(v, d).phase.ok) in Reports(v))
    && |Reports(v)| == (if Posted(v.fwd.phase) then 1 else 0) + (if Posted(v.bwd.phase) then 1 else 0)
  }

  /** Exactly who has closed which stream, and when: main both ways, a copier's CloseWrite the end it wrote to. */
  ghost predicate ClosesMatch(v: View) {
    && (v.fwd.shut <==> v.main.ClosedIncome? || v.main.Returned?)
    && (v.bwd.shut <==> v.main.ClosedOutcome? || v.main.Returned?)
    && (v.fwd.eof <==> v.fwd.phase.Finished? || v.main.ClosedOutcome? || v.main.Returned?)
    && (v.bwd.eof <==> v.bwd.phase.Finished? || v.main.ClosedIncome? || v.main.Returned?)
  }

  ghost predicate ViewInv(v: View) {
    ReportsMatch(v) && ClosesMatch(v)
  }

  ghost predicate Inv(c: Chain) {
    Shaped(c) && L.Inv(c.fwd) && L.Inv(c.bwd) && forall h :: 0 <= h < |c.hops| ==> ViewInv(ViewOf(c, h))
  }

  predicate ViewEnabled(v: View, e: Event) {
    match e
    case Outside(_, _) => false
    case Copy(d, _, m) => OfLoop(m) && Side(v, d).phase.Copying?
    case Post(d, _) => Side(v, d).phase.Posting? && |v.done| < SLOTS
    case CloseWrite(d, _) => Side(v, d).phase.Closing?
    case Take(_) => v.main.Waiting? && v.done != []
    case CloseOutcome(_) => v.main.Got? || v.main.ClosedIncome?
    case CloseIncome(_) => v.main.Got? || v.main.ClosedOutcome?
  }

  /** A hop's own events, seen on its view. */
  function ViewApply(v: View, e: Event): View
    requires ViewEnabled(v, e)
  {
    match e
    case Copy(d, h, m) => SetSide(v, d, L.LocalMove(Side(v, d), m))
    case Post(d, h) =>
      SetSide(v, d, L.LocalMove(Side(v, d), L.Post(h))).(done := v.done + [Report(d, Side(v, d).phase.ok)])
    case CloseWrite(d, h) => SetSide(v, d, L.LocalMove(Side(v, d), L.CloseWrite(h)))
    case Take(h) => v.(done := v.done[1..], main := Got(v.done[0]))
    case CloseOutcome(h) =>
      View(v.fwd.(eof := true), v.bwd.(shut := true), v.done,
           if v.main.Got? then ClosedOutcome(v.main.first) else Returned(v.main.first))
    case CloseIncome(h) =>
      View(v.fwd.(shut := true), v.bwd.(eof := true), v.done,
           if v.main.Got? then ClosedIncome(v.main.first) else Returned(v.main.first))
  }

  lemma ReportsAfter(v: View, e: Event)
    requires ViewEnabled(v, e)
    ensures Reports(ViewApply(v, e)) ==
            Reports(v) + (if e.Post? then [Report(e.dir, Side(v, e.dir).phase.ok)] else [])
  {
  }

  lemma ViewKeepsCloses(v: View, e: Event)
    requires ClosesMatch(v) && ViewEnabled(v, e)
    ensures ClosesMatch(ViewApply(v, e))
  {
  }

  lemma PostKeepsReports(v: View, e: Event)
    requires ReportsMatch(v) && ViewEnabled(v, e) && e.Post?
    ensures ReportsMatch(ViewApply(v, e))
  {
    ReportsAfter(v, e);
    var v' := ViewApply(v, e);
    var r := Report(e.dir, Side(v, e.dir).phase.ok);
    var rs, rs' := Reports(v), Reports(v');
    assert rs' == rs + [r];
    assert rs'[|rs|] == r;
    forall d: Dir | Posted(Side(v', d).phase) ensures Report(d, Side(v', d).phase.ok) in rs' {
      if d != e.dir {
        assert Report(d, Side(v, d).phase.ok) in rs;
      }
    }
  }

  lemma OthersKeepReports(v: View, e: Event)
    requires ReportsMatch(v) && ViewEnabled(v, e) && !e.Post?
    ensures ReportsMatch(ViewApply(v, e))
  {
    ReportsAfter(v, e);
    var v' := ViewApply(v, e);
    assert Reports(v') == Reports(v);
    forall d: Dir
      ensures Posted(Side(v', d).phase) <==> Posted(Side(v, d).phase)
      ensures Posted(Side(v, d).phase) ==> Side(v', d).phase.ok == Side(v, d).phase.ok
    {
    }
  }

  lemma ViewKeepsInv(v: View, e: Event)
    requires ViewInv(v) && ViewEnabled(v, e)
    ensures ViewInv(ViewApply(v, e))
  {
    ViewKeepsCloses(v, e);
    if e.Post? {
      PostKeepsReports(v, e);
    } else {
      OthersKeepReports(v, e);
    }
  }

  predicate Concerns(e: Event, h: nat) {
    !e.Outside? && e.h == h
  }

  /** How moves in one lane show on the view of a hop. */
  lemma MoveView(c: Chain, d: Dir, m: L.Move, h: nat)
    requires Shaped(c) && CanMove(c, d, m) && h < |c.hops|
    ensures var v, v' := ViewOf(c, h), ViewOf(MoveLane(c, d, m), h);
            if L.OfCopier(m, Place(c, d, h)) then v' == SetSide(v, d, L.LocalMove(Side(v, d), m)) else v' == v
  {
    var k := Place(c, d, h);
    if L.OfCopier(m, k) {
      L.OwnMove(LaneOf(c, d), m, k);
    } else {
      L.OthersMove(LaneOf(c, d), m, k);
    }
  }

  lemma SetHopView(c: Chain, h: nat, hop: Hop, h': nat)
    requires Shaped(c) && h < |c.hops| && h' < |c.hops|
    ensures ViewOf(SetHop(c, h, hop), h') ==
            if h' == h then ViewOf(c, h).(done := hop.done, main := hop.main) else ViewOf(c, h')
  {
  }

  /** Every event acts on the view of its own hop and on no other. */
  lemma StepView(c: Chain, e: Event, h: nat)
    requires Shaped(c) && Enabled(c, e) && h < |c.hops|
    ensures var v, v' := ViewOf(c, h), ViewOf(Apply(c, e), h);
            if Concerns(e, h) then ViewEnabled(v, e) && v' == ViewApply(v, e) else v' == v
  {
    match e {
      case Outside(d, m) => MoveView(c, d, m, h);
      case Copy(d, i, m) => MoveView(c, d, m, h);
      case Post(d, i) => PostView(c, d, i, h);
      case CloseWrite(d, i) => MoveView(c, d, L.CloseWrite(Place(c, d, i)), h);
      case Take(i) => SetHopView(c, i, Apply(c, e).hops[i], h);
      case CloseOutcome(i) => CloseOutcomeView(c, i, h);
      case CloseIncome(i) => CloseIncomeView(c, i, h);
    }
  }

  lemma PostView(c: Chain, d: Dir, i: nat, h: nat)
    requires Shaped(c) && Enabled(c, Post(d, i)) && h < |c.hops|
    ensures var v, v' := ViewOf(c, h), ViewOf(Apply(c, Post(d, i)), h);
            if h == i then ViewEnabled(v, Post(d, i)) && v' == ViewApply(v, Post(d, i)) else v' == v
  {
    var m := L.Post(Place(c, d, i));
    MoveView(c, d, m, h);
    var c1 := MoveLane(c, d, m);
    var hop := c.hops[i].(done := c.hops[i].done + [Report(d, PhaseOf(c, d, i).ok)]);
    SetHopView(c1, i, hop, h);
    assert Side(ViewOf(c, i), d).phase == PhaseOf(c, d, i);
  }

  lemma CloseOutcomeView(c: Chain, i: nat, h: nat)
    requires Shaped(c) && Enabled(c, CloseOutcome(i)) && h < |c.hops|
    ensures var v, v' := ViewOf(c, h), ViewOf(Apply(c, CloseOutcome(i)), h);
            if h == i then ViewEnabled(v, CloseOutcome(i)) && v' == ViewApply(v, CloseOutcome(i)) else v' == v
  {
    CloseView(c, L.ShutTarget(Place(c, Fwd, i)), L.ShutSource(Place(c, Bwd, i)), i, Apply(c, CloseOutcome(i)).hops[i], h);
  }

  lemma CloseIncomeView(c: Chain, i: nat, h: nat)
    requires Shaped(c) && Enabled(c, CloseIncome(i)) && h < |c.hops|
    ensures var v, v' := ViewOf(c, h), ViewOf(Apply(c, CloseIncome(i)), h);
            if h == i then ViewEnabled(v, CloseIncome(i)) && v' == ViewApply(v, CloseIncome(i)) else v' == v
  {
    CloseView(c, L.ShutSource(Place(c, Fwd, i)), L.ShutTarget(Place(c, Bwd, i)), i, Apply(c, CloseIncome(i)).hops[i], h);
  }

  lemma CloseView(c: Chain, f: L.Move, b: L.Move, i: nat, hop: Hop, h: nat)
    requires Shaped(c) && i < |c.hops| && h < |c.hops|
    requires (f.ShutTarget? || f.ShutSource?) && (b.ShutTarget? || b.ShutSource?)
    requires f.k == Place(c, Fwd, i) && b.k == Place(c, Bwd, i)
    ensures var v, v' := ViewOf(c, h), ViewOf(SetHop(MoveLane(MoveLane(c, Fwd, f), Bwd, b), i, hop), h);
            if h == i then v' == View(L.LocalMove(v.fwd, f), L.LocalMove(v.bwd, b), hop.done, hop.main) else v' == v
  {
    MoveView(c, Fwd, f, h);
    var c1 := MoveLane(c, Fwd, f);
    MoveView(c1, Bwd, b, h);
    SetHopView(MoveLane(c1, Bwd, b), i, hop, h);
  }

  lemma MoveLaneKeepsLanes(c: Chain, d: Dir, m: L.Move)
    requires Shaped(c) && L.Inv(c.fwd) && L.Inv(c.bwd) && CanMove(c, d, m)
    ensures L.Inv(MoveLane(c, d, m).fwd) && L.Inv(MoveLane(c, d, m).bwd)
  {
    L.MoveKeepsInv(LaneOf(c, d), m);
  }

  lemma StepKeepsLanes(c: Chain, e: Event)
    requires Shaped(c) && L.Inv(c.fwd) && L.Inv(c.bwd) && Enabled(c, e)
    ensures L.Inv(Apply(c, e).fwd) && L.Inv(Apply(c, e).bwd)
  {
    match e {
      case Outside(d, m) => MoveLaneKeepsLanes(c, d, m);
      case Copy(d, h, m) => MoveLaneKeepsLanes(c, d, m);
      case Post(d, h) => MoveLaneKeepsLanes(c, d, L.Post(Place(c, d, h)));
      case CloseWrite(d, h) => MoveLaneKeepsLanes(c, d, L.CloseWrite(Place(c, d, h)));
      case Take(h) =>
      case CloseOutcome(h) =>
        MoveLaneKeepsLanes(c, Fwd, L.ShutTarget(h));
        MoveLaneKeepsLanes(MoveLane(c, Fwd, L.ShutTarget(h)), Bwd, L.ShutSource(Place(c, Bwd, h)));
      case CloseIncome(h) =>
        MoveLaneKeepsLanes(c, Fwd, L.ShutSource(h));
        MoveLaneKeepsLanes(MoveLane(c, Fwd, L.ShutSource(h)), Bwd, L.ShutTarget(Place(c, Bwd, h)));
    }
  }

  lemma StepKeepsInv(c: Chain, e: Event)
    requires Inv(c) && Enabled(c, e)
    ensures Inv(Apply(c, e))
  {
    StepKeepsLanes(c, e);
    var c' := Apply(c, e);
    forall h: nat | h < |c'.hops| ensures ViewInv(ViewOf(c', h)) {
      StepView(c, e, h);
      assert ViewInv(ViewOf(c, h));
      if Concerns(e, h) {
        ViewKeepsInv(ViewOf(c, h), e);
      }
    }
  }

  // ---------------------------------------------------------------------------------------------
  // Runs

  /** n bridges about to start; the client's early bytes wait before hop 0, ahead is already past it. */
  function Start(n: nat, early: Bytes, ahead: Bytes): (c: Chain)
    requires n > 0
    ensures Shaped(c)
  {
    Chain(L.Start(n, early, ahead), L.Start(n, [], []), seq(n, i => Hop([], Waiting)))
  }

  /** The events can happen one after the other. */
  ghost predicate Possible(c: Chain, es: seq<Event>)
    requires Shaped(c)
    decreases |es|
  {
    es == [] || (Enabled(c, es[0]) && Possible(Apply(c, es[0]), es[1..]))
  }

  function After(c: Chain, es: seq<Event>): (c': Chain)
    requires Shaped(c) && Possible(c, es)
    ensures Shaped(c') && |c'.hops| == |c.hops|
    decreases |es|
  {
    if es == [] then c else After(Apply(c, es[0]), es[1..])
  }

  lemma {:induction false} RunKeepsInv(c: Chain, es: seq<Event>)
    requires Inv(c) && Possible(c, es)
    ensures Inv(After(c, es))
    decreases |es|
  {
    if es != [] {
      StepKeepsInv(c, es[0]);
      RunKeepsInv(Apply(c, es[0]), es[1..]);
    }
  }

  lemma StartInv(n: nat, early: Bytes, ahead: Bytes)
    requires n > 0
    ensures Inv(Start(n, early, ahead))
  {
    L.StartInv(n, early, ahead);
    L.StartInv(n, [], []);
  }

  /** What the given endpoint wrote during a run. */
  function Written(es: seq<Event>, d: Dir): Bytes {
    if es == [] then []
    else (if es[0].Outside? && es[0].dir == d && es[0].move.Send? then es[0].move.bs else []) + Written(es[1..], d)
  }

  lemma {:induction false} SentIsWritten(c: Chain, es: seq<Event>, d: Dir)
    requires Shaped(c) && Possible(c, es)
    ensures L.Sent(LaneOf(After(c, es), d)) == L.Sent(LaneOf(c, d)) + Written(es, d)
    decreases |es|
  {
    if es != [] {
      var c' := Apply(c, es[0]);
      SentIsWritten(c', es[1..], d);
      SentStep(c, es[0], d);
    }
  }

  lemma SentMove(c: Chain, d: Dir, m: L.Move, d': Dir)
    requires Shaped(c) && CanMove(c, d, m)
    ensures L.Sent(LaneOf(MoveLane(c, d, m), d')) == L.Sent(LaneOf(c, d')) + (if d == d' && m.Send? then m.bs else [])
  {
  }

  lemma SentMoves(c: Chain, f: L.Move, b: L.Move, d: Dir)
    requires Shaped(c) && CanMove(c, Fwd, f) && CanMove(c, Bwd, b) && !f.Send? && !b.Send?
    ensures L.Sent(LaneOf(MoveLane(MoveLane(c, Fwd, f), Bwd, b), d)) == L.Sent(LaneOf(c, d))
  {
    SentMove(c, Fwd, f, d);
    SentMove(MoveLane(c, Fwd, f), Bwd, b, d);
  }

  lemma SentStep(c: Chain, e: Event, d: Dir)
    requires Shaped(c) && Enabled(c, e)
    ensures L.Sent(LaneOf(Apply(c, e), d)) == L.Sent(LaneOf(c, d)) + Written([e], d)
  {
    assert [e][1..] == [];
    match e {
      case Outside(d', m) => SentMove(c, d', m, d);
      case Copy(d', _, m) => SentMove(c, d', m, d);
      case Post(d', h) => SentMove(c, d', L.Post(Place(c, d', h)), d);
      case CloseWrite(d', h) => SentMove(c, d', L.CloseWrite(Place(c, d', h)), d);
      case Take(h) =>
      case CloseOutcome(h) => SentMoves(c, L.ShutTarget(Place(c, Fwd, h)), L.ShutSource(Place(c, Bwd, h)), d);
      case CloseIncome(h) => SentMoves(c, L.ShutSource(Place(c, Fwd, h)), L.ShutTarget(Place(c, Bwd, h)), d);
    }
  }

  /** No bridge has closed a stream yet and no copy loop has failed. */
  ghost predicate Open(c: Chain)
    requires Shaped(c)
  {
    forall h, d {:trigger PhaseOf(c, d, h)} :: 0 <= h < |c.hops| ==>
      (c.hops[h].main.Waiting? || c.hops[h].main.Got?) && (PhaseOf(c, d, h).Copying? || PhaseOf(c, d, h).ok)
  }

  lemma OpenIsIntact(c: Chain, d: Dir)
    requires Inv(c) && Open(c)
    ensures L.IntactFrom(LaneOf(c, d), 0)
  {
    var l := LaneOf(c, d);
    forall k | 0 <= k < |l.copiers| ensures l.copiers[k].intact {
      var h := Place(c, d, k);
      assert Place(c, d, h) == k;
      assert PhaseOf(c, d, h) == l.copiers[k].phase;
      assert ViewInv(ViewOf(c, h));
      assert L.InvAt(l, k);
    }
  }

  /**
   Byte-stream conservation, under every interleaving of the copy loops of n bridges, the
   endpoints and the teardowns: in both directions what is delivered is at all times an
   initial part of what was sent, and while the bridges are open nothing is missing: sent
   is delivered followed by the bytes the hops hold, in order.
   */
  lemma StreamConservation(n: nat, early: Bytes, ahead: Bytes, es: seq<Event>, d: Dir)
    requires n > 0 && Possible(Start(n, early, ahead), es)
    ensures var l := LaneOf(After(Start(n, early, ahead), es), d);
            && L.Sent(l) == (if d == Fwd then ahead + early else []) + Written(es, d)
            && l.delivered <= L.Sent(l)
            && (Open(After(Start(n, early, ahead), es)) ==> L.Sent(l) == l.delivered + L.UnderWay(l, 0))
  {
    var c := Start(n, early, ahead);
    StartInv(n, early, ahead);
    RunKeepsInv(c, es);
    SentIsWritten(c, es, d);
    var c' := After(c, es);
    L.DeliveredIsPrefix(LaneOf(c', d));
    if Open(c') {
      OpenIsIntact(c', d);
      L.Conservation(LaneOf(c', d));
    }
  }

  /**
   If the first result a bridge receives is nil, that direction has handed on every byte that
   ever came to it, whatever the other hops lost before or after it, and no more can come.
   */
  lemma FirstNilHandedOver(c: Chain, h: nat)
    requires Inv(c) && h < |c.hops| && !c.hops[h].main.Waiting? && c.hops[h].main.first.ok
    ensures var d := c.hops[h].main.first.dir;
            var l := LaneOf(c, d);
            var k := Place(c, d, h);
            l.pipes[k + 1].written == L.Due(l, k) && l.pipes[k].eof
  {
    var v := ViewOf(c, h);
    assert ViewInv(v);
    var d := v.main.first.dir;
    assert Reports(v)[0] == v.main.first;
    assert v.main.first in Reports(v);
    var l := LaneOf(c, d);
    var k := Place(c, d, h);
    assert l.copiers[k].phase == Side(v, d).phase;
    L.NilMeansHandedOn(l, k);
  }

  /** The loop of hop h in direction d has returned a nil error. */
  predicate ReturnedNil(c: Chain, d: Dir, h: nat)
    requires Shaped(c) && h < |c.hops|
  {
    !PhaseOf(c, d, h).Copying? && PhaseOf(c, d, h).ok
  }

  /** The loop of hop h in direction d met the end of its stream during the run. */
  ghost predicate MetEnd(es: seq<Event>, d: Dir, h: nat) {
    exists i :: 0 <= i < |es| && IsEnd(es[i], d, h)
  }

  predicate IsEnd(e: Event, d: Dir, h: nat) {
    e.Copy? && e.dir == d && e.h == h && e.move.End?
  }

  lemma NilStep(c: Chain, e: Event, d: Dir, h: nat)
    requires Shaped(c) && Enabled(c, e) && h < |c.hops|
    ensures ReturnedNil(Apply(c, e), d, h) <==> ReturnedNil(c, d, h) || IsEnd(e, d, h)
  {
    StepView(c, e, h);
    var v, v' := ViewOf(c, h), ViewOf(Apply(c, e), h);
    assert Side(v, d).phase == PhaseOf(c, d, h) && Side(v', d).phase == PhaseOf(Apply(c, e), d, h);
    if Concerns(e, h) {
      NilView(v, e, d, h);
    }
  }

  lemma NilView(v: View, e: Event, d: Dir, h: nat)
    requires ViewEnabled(v, e) && Concerns(e, h)
    ensures var p, p' := Side(v, d).phase, Side(ViewApply(v, e), d).phase;
            !p'.Copying? && p'.ok <==> (!p.Copying? && p.ok) || IsEnd(e, d, h)
  {
  }

  lemma {:induction false} NilAfter(c: Chain, es: seq<Event>, d: Dir, h: nat)
    requires Shaped(c) && Possible(c, es) && h < |c.hops|
    ensures ReturnedNil(After(c, es), d, h) <==> ReturnedNil(c, d, h) || MetEnd(es, d, h)
    decreases |es|
  {
    if es != [] {
      NilStep(c, es[0], d, h);
      NilAfter(Apply(c, es[0]), es[1..], d, h);
      assert forall i :: 0 < i < |es| ==> es[i] == es[1..][i - 1];
      if MetEnd(es[1..], d, h) {
        var i :| 0 <= i < |es| - 1 && IsEnd(es[1..][i], d, h);
        assert IsEnd(es[i + 1], d, h);
      }
    }
  }

  function Dirs(rs: seq<Report>): seq<Dir> {
    seq(|rs|, i requires 0 <= i < |rs| => rs[i].dir)
  }

  /** Which loops of hop h posted during the run, in order. */
  function PostOrder(es: seq<Event>, h: nat): seq<Dir> {
    if es == [] then [] else (if es[0].Post? && es[0].h == h then [es[0].dir] else []) + PostOrder(es[1..], h)
  }

  /** What main has received and what waits on the channel are the results in the order they were posted. */
  lemma {:induction false} ResultsInOrder(c: Chain, es: seq<Event>, h: nat)
    requires Shaped(c) && Possible(c, es) && h < |c.hops|
    ensures Dirs(Reports(ViewOf(After(c, es), h))) == Dirs(Reports(ViewOf(c, h))) + PostOrder(es, h)
    decreases |es|
  {
    if es != [] {
      ResultsStep(c, es[0], h);
      ResultsInOrder(Apply(c, es[0]), es[1..], h);
    }
  }

  lemma ResultsStep(c: Chain, e: Event, h: nat)
    requires Shaped(c) && Enabled(c, e) && h < |c.hops|
    ensures Dirs(Reports(ViewOf(Apply(c, e), h))) ==
            Dirs(Reports(ViewOf(c, h))) + (if e.Post? && e.h == h then [e.dir] else [])
  {
    StepView(c, e, h);
    if Concerns(e, h) {
      ReportsAfter(ViewOf(c, h), e);
    }
  }

  /** The first result a bridge receives is that of the first loop to post one, and is nil if and only if that loop had met the end of its stream. */
  lemma FirstNilIsCleanEnd(n: nat, early: Bytes, ahead: Bytes, es: seq<Event>, h: nat)
    requires n > 0 && Possible(Start(n, early, ahead), es) && h < n
    requires !After(Start(n, early, ahead), es).hops[h].main.Waiting?
    ensures var first := After(Start(n, early, ahead), es).hops[h].main.first;
            && PostOrder(es, h) != [] && first.dir == PostOrder(es, h)[0]
            && (first.ok <==> MetEnd(es, first.dir, h))
  {
    var c0 := Start(n, early, ahead);
    var c := After(c0, es);
    StartInv(n, early, ahead);
    RunKeepsInv(c0, es);
    var v := ViewOf(c, h);
    assert ViewInv(v);
    assert Reports(v)[0] == v.main.first;
    assert v.main.first in Reports(v);
    var d := v.main.first.dir;
    assert PhaseOf(c, d, h) == Side(v, d).phase;
    NilAfter(c0, es, d, h);
    ResultsInOrder(c0, es, h);
    assert Dirs(Reports(v))[0] == d;
  }

  /**
   If the copy loops of one direction have all returned nil, nothing is lost in that
   direction: what was sent is what was delivered and what the last pipe still holds.
   */
  lemma CompleteWhenAllNil(n: nat, early: Bytes, ahead: Bytes, es: seq<Event>, d: Dir)
    requires n > 0 && Possible(Start(n, early, ahead), es)
    requires var c := After(Start(n, early, ahead), es);
             forall h {:trigger PhaseOf(c, d, h)} :: 0 <= h < |c.hops| ==> !PhaseOf(c, d, h).Copying? && PhaseOf(c, d, h).ok
    ensures var l := LaneOf(After(Start(n, early, ahead), es), d);
            l.delivered + l.pipes[|l.copiers|].data == (if d == Fwd then ahead + early else []) + Written(es, d)
  {
    var c0 := Start(n, early, ahead);
    StartInv(n, early, ahead);
    RunKeepsInv(c0, es);
    SentIsWritten(c0, es, d);
    var c := After(c0, es);
    var l := LaneOf(c, d);
    forall k: nat | k < |l.copiers| ensures !l.copiers[k].phase.Copying? && l.copiers[k].phase.ok {
      var h := Place(c, d, k);
      assert Place(c, d, h) == k;
      assert PhaseOf(c, d, h) == l.copiers[k].phase;
    }
    L.AllNilDrains(l);
  }

  // ---------------------------------------------------------------------------------------------
  // Completion

  /** Neither copier ever waits for room on the done channel. */
  lemma PostNeverBlocks(c: Chain, d: Dir, h: nat)
    requires Inv(c) && h < |c.hops| && PhaseOf(c, d, h).Posting?
    ensures Enabled(c, Post(d, h))
  {
    var v := ViewOf(c, h);
    assert ViewInv(v);
    assert Side(v, d).phase == PhaseOf(c, d, h);
    assert |v.done| <= |Reports(v)|;
  }

  function PhaseRank(p: L.Phase): nat {
    match p case Copying => 3 case Posting(_) => 2 case Closing(_) => 1 case Finished(_) => 0
  }

  function MainRank(m: Main): nat {
    match m case Waiting => 3 case Got(_) => 2 case ClosedOutcome(_) => 1 case ClosedIncome(_) => 1 case Returned(_) => 0
  }

  /** How many steps, apart from copying bytes, the goroutines of hop h still have to take. */
  function Remaining(c: Chain, h: nat): nat
    requires Shaped(c) && h < |c.hops|
  {
    ViewRank(ViewOf(c, h))
  }

  function ViewRank(v: View): nat {
    PhaseRank(v.fwd.phase) + PhaseRank(v.bwd.phase) + MainRank(v.main)
  }

  /** A step of hop h that is not the copying of bytes. */
  predicate Advances(e: Event, h: nat) {
    Concerns(e, h) && !(e.Copy? && (e.move.Read? || e.move.Write?))
  }

  lemma RemainingStep(c: Chain, e: Event, h: nat)
    requires Shaped(c) && Enabled(c, e) && h < |c.hops|
    ensures Remaining(Apply(c, e), h) == Remaining(c, h) - (if Advances(e, h) then 1 else 0)
  {
    StepView(c, e, h);
    if Concerns(e, h) {
      ViewRankStep(ViewOf(c, h), e, h);
    }
  }

  lemma ViewRankStep(v: View, e: Event, h: nat)
    requires ViewEnabled(v, e) && Concerns(e, h)
    ensures ViewRank(ViewApply(v, e)) == ViewRank(v) - (if Advances(e, h) then 1 else 0)
  {
  }

  function CountAdvances(es: seq<Event>, h: nat): nat {
    if es == [] then 0 else (if Advances(es[0], h) then 1 else 0) + CountAdvances(es[1..], h)
  }

  /** In any run, hop h takes exactly as many steps as its measure drops. */
  lemma {:induction false} AdvancesCounted(c: Chain, es: seq<Event>, h: nat)
    requires Shaped(c) && Possible(c, es) && h < |c.hops|
    ensures CountAdvances(es, h) == Remaining(c, h) - Remaining(After(c, es), h)
    decreases |es|
  {
    if es != [] {
      RemainingStep(c, es[0], h);
      AdvancesCounted(Apply(c, es[0]), es[1..], h);
    }
  }

  /** An error of a read or write whose end is still open: it may happen, but nothing makes it. */
  predicate Faulty(e: Event) {
    e.Copy? && e.move.Fault?
  }

  /** A step that is bound to come: it is no error, and no reader can hold it up. */
  predicate Forced(c: Chain, e: Event)
    requires Shaped(c) && Enabled(c, e)
  {
    !Faulty(e) && (e.Copy? ==> L.Unhindered(LaneOf(c, e.dir), e.move))
  }

  /** No goroutine of the hop is bound to take a step. */
  ghost predicate Quiet(c: Chain, h: nat)
    requires Shaped(c) && h < |c.hops|
  {
    forall e :: Concerns(e, h) && Enabled(c, e) ==> !Forced(c, e)
  }

  /** One of the hop's loops is over. */
  ghost predicate Ended(c: Chain, h: nat)
    requires Shaped(c) && h < |c.hops|
  {
    !c.hops[h].main.Waiting? || exists d :: !PhaseOf(c, d, h).Copying?
  }

  predicate SourceEnded(c: Chain, d: Dir, h: nat)
    requires Shaped(c) && h < |c.hops|
  {
    LaneOf(c, d).pipes[Place(c, d, h)].eof
  }

  /** One of the hop's loops is over, or has the end of its stream before it. */
  ghost predicate Ending(c: Chain, h: nat)
    requires Shaped(c) && h < |c.hops|
  {
    Ended(c, h) || exists d :: SourceEnded(c, d, h)
  }

  predicate HeldUp(c: Chain, d: Dir, h: nat)
    requires Shaped(c) && h < |c.hops|
  {
    L.HeldUp(LaneOf(c, d), Place(c, d, h))
  }

  /** Once one loop of a hop is over, some goroutine of the hop is bound to go on until all of them have finished. */
  lemma HopProgress(c: Chain, h: nat) returns (e: Event)
    requires Inv(c) && h < |c.hops| && Ended(c, h) && Remaining(c, h) > 0
    ensures Advances(e, h) && Enabled(c, e) && Forced(c, e)
  {
    var v := ViewOf(c, h);
    assert ViewInv(v);
    assert forall d :: Side(v, d).phase == PhaseOf(c, d, h);
    if d :| Side(v, d).phase.Posting? {
      PostNeverBlocks(c, d, h);
      e := Post(d, h);
    } else if d :| Side(v, d).phase.Closing? {
      e := CloseWrite(d, h);
    } else if v.main.Got? || v.main.ClosedIncome? {
      e := CloseOutcome(h);
    } else if v.main.ClosedOutcome? {
      e := CloseIncome(h);
    } else if v.main.Returned? {
      var d :| Side(v, d).phase.Copying?;
      e := Copy(d, h, L.Abort(Place(c, d, h)));
    } else {
      var d :| Side(v, d).phase.Finished?;
      assert Report(d, Side(v, d).phase.ok) in Reports(v);
      e := Take(h);
    }
  }

  /** As long as neither loop of a hop is over, a loop that is not held up and has bytes, or has met the end, is bound to go on. */
  lemma LoopProgress(c: Chain, d: Dir, h: nat) returns (e: Event)
    requires Inv(c) && h < |c.hops| && !Ended(c, h) && !HeldUp(c, d, h)
    requires var l, k := LaneOf(c, d), Place(c, d, h);
             l.copiers[k].buf != [] || l.pipes[k].data != [] || l.pipes[k].eof
    ensures Concerns(e, h) && Enabled(c, e) && Forced(c, e)
  {
    var v := ViewOf(c, h);
    assert ViewInv(v);
    assert Side(v, d).phase == PhaseOf(c, d, h) && L.LocalOf(LaneOf(c, d), Place(c, d, h)) == Side(v, d);
    var m := L.CopyProgress(LaneOf(c, d), Place(c, d, h));
    e := Copy(d, h, m);
  }

  lemma QuietEnded(c: Chain, h: nat)
    requires Inv(c) && h < |c.hops| && Quiet(c, h)
    ensures Ended(c, h) <==> Remaining(c, h) == 0
  {
    if Ended(c, h) && Remaining(c, h) > 0 {
      var e := HopProgress(c, h);
      assert false;
    }
  }

  /** No hop is bound to take a step, and the two ends have read all that has come to them. */
  ghost predicate AtRest(c: Chain)
    requires Shaped(c)
  {
    && (forall h :: 0 <= h < |c.hops| ==> Quiet(c, h))
    && (forall d :: LaneOf(c, d).pipes[|c.hops|].data == [])
  }

  /** A loop can wait for room only if the loop ahead of it does. */
  lemma HeldUpGoesOn(c: Chain, d: Dir, k: nat)
    requires Inv(c) && AtRest(c) && k < |c.hops| && L.HeldUp(LaneOf(c, d), k)
    ensures k + 1 < |c.hops| && L.HeldUp(LaneOf(c, d), k + 1)
  {
    var l := LaneOf(c, d);
    assert k + 1 != |c.hops|;
    var h := Place(c, d, k + 1);
    assert Place(c, d, h) == k + 1 && Quiet(c, h);
    QuietEnded(c, h);
    assert ViewInv(ViewOf(c, h));
    assert L.LocalOf(l, k + 1) == Side(ViewOf(c, h), d);
    assert !Ended(c, h);
    if !HeldUp(c, d, h) {
      var e := LoopProgress(c, d, h);
      assert false;
    }
  }

  lemma {:induction false} NobodyHeldUp(c: Chain, d: Dir, k: nat)
    requires Inv(c) && AtRest(c) && k < |c.hops|
    ensures !L.HeldUp(LaneOf(c, d), k)
    decreases |c.hops| - k
  {
    if L.HeldUp(LaneOf(c, d), k) {
      HeldUpGoesOn(c, d, k);
      NobodyHeldUp(c, d, k + 1);
    }
  }

  /** In a chain at rest a hop has finished if and only if something in it ended. */
  lemma QuietHop(c: Chain, h: nat)
    requires Inv(c) && AtRest(c) && h < |c.hops|
    ensures Ending(c, h) <==> Remaining(c, h) == 0
  {
    assert Quiet(c, h);
    QuietEnded(c, h);
    if d :| SourceEnded(c, d, h) && !Ended(c, h) {
      NobodyHeldUp(c, d, Place(c, d, h));
      var e := LoopProgress(c, d, h);
      assert false;
    }
  }

  /** A finished hop has ended the source of the forward loop after it and of the backward loop before it. */
  lemma FinishedEndsNeighbours(c: Chain, h: nat)
    requires Inv(c) && h < |c.hops| && Remaining(c, h) == 0
    ensures h + 1 < |c.hops| ==> Ending(c, h + 1)
    ensures h > 0 ==> Ending(c, h - 1)
  {
    assert ViewInv(ViewOf(c, h));
    assert h + 1 < |c.hops| ==> SourceEnded(c, Fwd, h + 1);
    assert h > 0 ==> Place(c, Bwd, h - 1) == Place(c, Bwd, h) + 1;
    assert h > 0 ==> SourceEnded(c, Bwd, h - 1);
  }

  lemma {:induction false} TeardownGoesUp(c: Chain, from: nat, h: nat)
    requires Inv(c) && AtRest(c) && from <= h < |c.hops| && Remaining(c, from) == 0
    ensures Remaining(c, h) == 0
    decreases h - from
  {
    if from < h {
      FinishedEndsNeighbours(c, from);
      QuietHop(c, from + 1);
      TeardownGoesUp(c, from + 1, h);
    }
  }

  lemma {:induction false} TeardownGoesDown(c: Chain, from: nat, h: nat)
    requires Inv(c) && AtRest(c) && h <= from < |c.hops| && Remaining(c, from) == 0
    ensures Remaining(c, h) == 0
    decreases from - h
  {
    if h < from {
      FinishedEndsNeighbours(c, from);
      QuietHop(c, from - 1);
      TeardownGoesDown(c, from - 1, h);
    }
  }

  /** Teardown runs through the whole chain: once anything ends anywhere, the chain rests only when every goroutine of every hop has finished. */
  lemma TeardownCascades(c: Chain, h0: nat, h: nat)
    requires Inv(c) && AtRest(c) && h0 < |c.hops| && Ending(c, h0) && h < |c.hops|
    ensures Remaining(c, h) == 0
  {
    QuietHop(c, h0);
    if h0 <= h {
      TeardownGoesUp(c, h0, h);
    } else {
      TeardownGoesDown(c, h0, h);
    }
  }

  /** A loop at rest that has not ended holds nothing and has nothing to read. */
  lemma IdleLoopIsEmpty(c: Chain, d: Dir, k: nat)
    requires Inv(c) && AtRest(c) && k < |c.hops| && !Ending(c, Place(c, d, k))
    ensures var l := LaneOf(c, d); l.copiers[k].buf == [] && l.pipes[k].data == [] && l.copiers[k].intact
  {
    var l, h := LaneOf(c, d), Place(c, d, k);
    assert Place(c, d, h) == k && Quiet(c, h);
    assert PhaseOf(c, d, h) == l.copiers[k].phase;
    assert ViewInv(ViewOf(c, h));
    assert L.LocalOf(l, k) == Side(ViewOf(c, h), d);
    assert L.InvAt(l, k);
    NobodyHeldUp(c, d, k);
    if l.copiers[k].buf != [] || l.pipes[k].data != [] {
      var e := LoopProgress(c, d, h);
      assert false;
    }
  }

  lemma {:induction false} NothingUnderWay(l: L.Lane, j: nat)
    requires L.Shaped(l) && j <= |l.copiers| && l.pipes[|l.copiers|].data == []
    requires forall k :: j <= k < |l.copiers| ==> l.copiers[k].buf == [] && l.pipes[k].data == []
    ensures L.UnderWay(l, j) == []
    decreases |l.copiers| - j
  {
    if j < |l.copiers| {
      NothingUnderWay(l, j + 1);
    }
  }

  /** While nothing has ended, a chain at rest has delivered every byte, in both directions. */
  lemma RestDelivers(c: Chain, d: Dir)
    requires Inv(c) && AtRest(c) && forall h :: 0 <= h < |c.hops| ==> !Ending(c, h)
    ensures LaneOf(c, d).delivered == L.Sent(LaneOf(c, d))
  {
    var l := LaneOf(c, d);
    forall k: nat | k < |l.copiers| ensures l.copiers[k].buf == [] && l.pipes[k].data == [] && l.copiers[k].intact {
      assert !Ending(c, Place(c, d, k));
      IdleLoopIsEmpty(c, d, k);
    }
    L.Conservation(l);
    NothingUnderWay(l, 0);
  }

  /** Both loops have run their deferred CloseWrite and main has returned. */
  ghost predicate HopDone(c: Chain, h: nat)
    requires Shaped(c) && h < |c.hops|
  {
    c.hops[h].main.Returned? && PhaseOf(c, Fwd, h).Finished? && PhaseOf(c, Bwd, h).Finished?
  }

  /**
   What a chain of bridges has done when it comes to rest, in any run: if anything ended,
   at any hop and for any reason, every goroutine of every hop is over and every stream is
   closed; if nothing ended, every byte written at either end has been read at the other.
   */
  lemma RestIsDoneOrDelivered(n: nat, early: Bytes, ahead: Bytes, es: seq<Event>)
    requires n > 0 && Possible(Start(n, early, ahead), es) && AtRest(After(Start(n, early, ahead), es))
    ensures var c := After(Start(n, early, ahead), es);
            if exists h0 :: 0 <= h0 < n && Ending(c, h0)
            then forall h :: 0 <= h < n ==> HopDone(c, h)
            else forall d :: LaneOf(c, d).delivered == (if d == Fwd then ahead + early else []) + Written(es, d)
  {
    var c0 := Start(n, early, ahead);
    var c := After(c0, es);
    StartInv(n, early, ahead);
    RunKeepsInv(c0, es);
    if h0: nat :| h0 < n && Ending(c, h0) {
      forall h: nat | h < n ensures HopDone(c, h) {
        TeardownCascades(c, h0, h);
        assert ViewOf(c, h).fwd.phase == PhaseOf(c, Fwd, h) && ViewOf(c, h).bwd.phase == PhaseOf(c, Bwd, h);
      }
    } else {
      forall d: Dir
        ensures LaneOf(c, d).delivered == (if d == Fwd then ahead + early else []) + Written(es, d)
      {
        RestDelivers(c, d);
        SentIsWritten(c0, es, d);
      }
    }
  }

  // The work of a whole chain

  function RemainingFrom(c: Chain, h: nat): nat
    requires Shaped(c) && h <= |c.hops|
    decreases |c.hops| - h
  {
    if h == |c.hops| then 0 else Remaining(c, h) + RemainingFrom(c, h + 1)
  }

  /** How many steps the hops can still take if the endpoints write nothing more. */
  function Work(c: Chain): nat
    requires Shaped(c)
  {
    L.Distance(c.fwd, 0, 0) + L.Distance(c.bwd, 0, 0) + RemainingFrom(c, 0)
  }

  lemma {:induction false} RemainingFromStep(c: Chain, e: Event, h: nat)
    requires Shaped(c) && Enabled(c, e) && h <= |c.hops|
    ensures RemainingFrom(Apply(c, e), h) ==
            RemainingFrom(c, h) - (if !e.Outside? && e.h >= h && Advances(e, e.h) then 1 else 0)
    decreases |c.hops| - h
  {
    if h < |c.hops| {
      RemainingStep(c, e, h);
      RemainingFromStep(c, e, h + 1);
    }
  }

  function Effort(m: L.Move): nat {
    if m.Read? || m.Write? then 1 else 0
  }

  lemma LaneWork(c: Chain, d: Dir, m: L.Move)
    requires Shaped(c) && CanMove(c, d, m) && !L.AtEnd(m)
    ensures var c' := MoveLane(c, d, m);
            L.Distance(c'.fwd, 0, 0) + L.Distance(c'.bwd, 0, 0) <= L.Distance(c.fwd, 0, 0) + L.Distance(c.bwd, 0, 0) - Effort(m)
  {
    L.MoveDistance(LaneOf(c, d), m);
  }

  lemma CloseWork(c: Chain, f: L.Move, b: L.Move)
    requires Shaped(c) && CanMove(c, Fwd, f) && CanMove(c, Bwd, b) && !L.AtEnd(f) && !L.AtEnd(b)
    ensures var c' := MoveLane(MoveLane(c, Fwd, f), Bwd, b);
            L.Distance(c'.fwd, 0, 0) + L.Distance(c'.bwd, 0, 0) <= L.Distance(c.fwd, 0, 0) + L.Distance(c.bwd, 0, 0)
  {
    LaneWork(c, Fwd, f);
    LaneWork(MoveLane(c, Fwd, f), Bwd, b);
  }

  lemma LanesStep(c: Chain, e: Event)
    requires Shaped(c) && Enabled(c, e) && !e.Outside?
    ensures var c' := Apply(c, e);
            L.Distance(c'.fwd, 0, 0) + L.Distance(c'.bwd, 0, 0)
            <= L.Distance(c.fwd, 0, 0) + L.Distance(c.bwd, 0, 0) - (if e.Copy? then Effort(e.move) else 0)
  {
    match e {
      case Copy(d, h, m) => LaneWork(c, d, m);
      case Post(d, h) => LaneWork(c, d, L.Post(Place(c, d, h)));
      case CloseWrite(d, h) => LaneWork(c, d, L.CloseWrite(Place(c, d, h)));
      case Take(h) =>
      case CloseOutcome(h) => CloseWork(c, L.ShutTarget(Place(c, Fwd, h)), L.ShutSource(Place(c, Bwd, h)));
      case CloseIncome(h) => CloseWork(c, L.ShutSource(Place(c, Fwd, h)), L.ShutTarget(Place(c, Bwd, h)));
    }
  }

  lemma HopWork(c: Chain, e: Event)
    requires Shaped(c) && Enabled(c, e) && !e.Outside?
    ensures Work(Apply(c, e)) < Work(c)
  {
    LanesStep(c, e);
    RemainingFromStep(c, e, 0);
  }

  lemma OutsideWork(c: Chain, e: Event)
    requires Shaped(c) && Enabled(c, e) && e.Outside?
    ensures Work(Apply(c, e)) <= Work(c) + (if e.move.Send? then 2 * |c.hops| * |e.move.bs| else 0)
  {
    L.EndDistance(LaneOf(c, e.dir), e.move);
    RemainingFromStep(c, e, 0);
  }

  function HopEvents(es: seq<Event>): nat {
    if es == [] then 0 else (if es[0].Outside? then 0 else 1) + HopEvents(es[1..])
  }

  function BytesSent(es: seq<Event>): nat {
    |Written(es, Fwd)| + |Written(es, Bwd)|
  }

  /** No run goes on for ever: the hops take at most as many steps as there is work, plus two per hop for every byte the endpoints add. */
  lemma {:induction false} WorkBoundsSteps(c: Chain, es: seq<Event>)
    requires Shaped(c) && Possible(c, es)
    ensures HopEvents(es) + Work(After(c, es)) <= Work(c) + 2 * |c.hops| * BytesSent(es)
    decreases |es|
  {
    if es != [] {
      var c' := Apply(c, es[0]);
      WorkBoundsSteps(c', es[1..]);
      if es[0].Outside? {
        OutsideWork(c, es[0]);
        var sent := if es[0].move.Send? then |es[0].move.bs| else 0;
        assert BytesSent(es) == sent + BytesSent(es[1..]);
        TimesSum(2 * |c.hops|, sent, BytesSent(es[1..]));
      } else {
        HopWork(c, es[0]);
        assert BytesSent(es) == BytesSent(es[1..]);
      }
    }
  }

  lemma TimesSum(w: nat, a: nat, b: nat)
    ensures w * (a + b) == w * a + w * b
  {
  }

  /** Once main has closed both streams no byte is copied any more, so every event of the hop counts down its measure. */
  lemma NothingCopiedAfterReturn(c: Chain, e: Event, h: nat)
    requires Inv(c) && h < |c.hops| && c.hops[h].main.Returned? && Enabled(c, e) && Concerns(e, h)
    ensures Advances(e, h) && Apply(c, e).hops[h].main.Returned?
  {
    assert ViewInv(ViewOf(c, h));
  }

  function CountEvents(es: seq<Event>, h: nat): nat {
    if es == [] then 0 else (if Concerns(es[0], h) then 1 else 0) + CountEvents(es[1..], h)
  }

  /**
   After a teardown, any run gives the hop exactly as many events as its measure drops, at
   most six, and when the measure is used up both of its copiers have finished.
   */
  lemma TeardownCompletes(c: Chain, es: seq<Event>, h: nat)
    requires Inv(c) && Possible(c, es) && h < |c.hops| && c.hops[h].main.Returned?
    ensures CountEvents(es, h) == Remaining(c, h) - Remaining(After(c, es), h) <= 6
    ensures Remaining(After(c, es), h) == 0 <==>
            PhaseOf(After(c, es), Fwd, h).Finished? && PhaseOf(After(c, es), Bwd, h).Finished?
  {
    AfterTeardown(c, es, h);
    var c' := After(c, es);
    assert PhaseOf(c', Fwd, h) == ViewOf(c', h).fwd.phase && PhaseOf(c', Bwd, h) == ViewOf(c', h).bwd.phase;
  }

  lemma {:induction false} AfterTeardown(c: Chain, es: seq<Event>, h: nat)
    requires Inv(c) && Possible(c, es) && h < |c.hops| && c.hops[h].main.Returned?
    ensures CountEvents(es, h) == Remaining(c, h) - Remaining(After(c, es), h)
    ensures After(c, es).hops[h].main.Returned?
    decreases |es|
  {
    if es != [] {
      TeardownStep(c, es[0], h);
      StepKeepsInv(c, es[0]);
      AfterTeardown(Apply(c, es[0]), es[1..], h);
    }
  }

  lemma TeardownStep(c: Chain, e: Event, h: nat)
    requires Inv(c) && Enabled(c, e) && h < |c.hops| && c.hops[h].main.Returned?
    ensures Remaining(Apply(c, e), h) == Remaining(c, h) - (if Concerns(e, h) then 1 else 0)
    ensures Apply(c, e).hops[h].main.Returned?
  {
    RemainingStep(c, e, h);
    StepView(c, e, h);
    if Concerns(e, h) {
      NothingCopiedAfterReturn(c, e, h);
    }
  }
}
