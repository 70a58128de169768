/**
 All the connections of one client at once: every SOCKS connection has its own goroutine,
 and they share the connection counter and the load table. Each event is one atomic step of
 one goroutine; choosing a server (under the read lock) and counting it (under the write
 lock) are separate steps, and so are checking the connection limit and counting the
 connection.
 */
module ClientNode {
  import opened Prelude
  import opened Counting
  import opened Loads

  /** How a handler ends. */
  datatype Fate =
    | Rejected                 // over the limit
    | Unserved                 // failed before a server was counted
    | Leaked(server: PeerID)   // counted a server and returned without releasing it
    | Served(server: PeerID)   // released its server

  /** Where handleConnection is. */
  datatype Stage =
    | Arrived
    | Admitted                   // under the limit, not yet counted
    | Negotiating
    | Requesting
    | Selecting
    | Chosen(server: PeerID)     // chosen under the read lock, not yet tracked
    | Dialing(server: PeerID)    // tracked, opening the relay stream
    | Announcing(server: PeerID) // sending the target address
    | Bridging(server: PeerID)
    | Leaving(fate: Fate)        // returned; the deferred decrement is still to run
    | Gone(fate: Fate)

  /** limit is int32(MaxConnections); active is the atomic int32 counter. */
  datatype Client = Client(limit: int, active: int, loads: Table, handlers: seq<Stage>)

  datatype Event =
    | Accept
    | Check(h: nat)
    | Count(h: nat)
    | Proceed(h: nat, ok: bool)  // the outcome of negotiation, request, selection, dialling or announcing
    | Choose(h: nat, servers: seq<PeerID>, i: nat)
    | TrackServer(h: nat, now: int)
    | ReleaseServer(h: nat)
    | Leave(h: nat)

  const TWO31: int := 0x8000_0000

  /** Conversion to int32. */
  function Int32(x: int): int {
    (x + TWO31) % (2 * TWO31) - TWO31
  }

  function Fresh(maxConnections: int): Client {
    Client(Int32(maxConnections), 0, map[], [])
  }

  /** Where a handler goes when the operation of its stage succeeds or fails. */
  function Outcome(s: Stage, ok: bool): Stage {
    match s
    case Negotiating => if ok then Requesting else Leaving(Unserved)
    case Requesting => if ok then Selecting else Leaving(Unserved)
    case Selecting => Leaving(Unserved)
    case Dialing(p) => if ok then Announcing(p) else Leaving(Leaked(p))
    case Announcing(p) => if ok then Bridging(p) else Leaving(Leaked(p))
    case _ => s
  }

  predicate CanProceed(s: Stage, ok: bool) {
    s.Negotiating? || s.Requesting? || s.Dialing? || s.Announcing? || (s.Selecting? && !ok)
  }

  predicate Enabled(c: Client, e: Event) {
    e.Accept? || (e.h < |c.handlers| &&
      var s := c.handlers[e.h];
      match e
      case Check(_) => s.Arrived?
      case Count(_) => s.Admitted?
      case Proceed(_, ok) => CanProceed(s, ok)
      case Choose(_, servers, i) => s.Selecting? && i < |servers|
      case TrackServer(_, _) => s.Chosen?
      case ReleaseServer(_) => s.Bridging?
      case Leave(_) => s.Leaving?)
  }

  /** The stage the event's handler moves to. */
  function NextStage(c: Client, e: Event): Stage
    requires Enabled(c, e) && !e.Accept?
  {
    var s := c.handlers[e.h];
    match e
    case Check(_) => if c.active > c.limit then Leaving(Rejected) else Admitted
    case Count(_) => Negotiating
    case Proceed(_, ok) => Outcome(s, ok)
    case Choose(_, servers, i) => Chosen(servers[i])
    case TrackServer(_, _) => Dialing(s.server)
    case ReleaseServer(_) => Leaving(Served(s.server))
    case Leave(_) => Gone(s.fate)
  }

  function NextLoads(c: Client, e: Event): Table
    requires Enabled(c, e)
  {
    match e
    case TrackServer(h, now) => Track(c.loads, c.handlers[h].server, now)
    case ReleaseServer(h) => Release(c.loads, c.handlers[h].server)
    case _ => c.loads
  }

  function NextActive(c: Client, e: Event): int {
    if e.Count? then Int32(c.active + 1) else if e.Leave? then Int32(c.active - 1) else c.active
  }

  function Apply(c: Client, e: Event): (c': Client)
    requires Enabled(c, e)
    ensures c'.limit == c.limit
  {
    Client(c.limit, NextActive(c, e), NextLoads(c, e),
           if e.Accept? then c.handlers + [Arrived] else c.handlers[e.h := NextStage(c, e)])
  }

  ghost predicate Possible(c: Client, es: seq<Event>)
    decreases |es|
  {
    es == [] || (Enabled(c, es[0]) && Possible(Apply(c, es[0]), es[1..]))
  }

  function After(c: Client, es: seq<Event>): Client
    requires Possible(c, es)
    decreases |es|
  {
    if es == [] then c else After(Apply(c, es[0]), es[1..])
  }

  // ---------------------------------------------------------------------------------------------
  // Counting handlers

  /** What an event does to the number of handlers of a kind that a newly accepted one is not. */
  lemma NumberStep(c: Client, e: Event, p: Stage -> bool)
    requires Enabled(c, e) && !p(Arrived)
    ensures Number(Apply(c, e).handlers, p) == Number(c.handlers, p) +
            if e.Accept? then 0 else Bit(p(NextStage(c, e))) - Bit(p(c.handlers[e.h]))
    ensures !e.Accept? && p(c.handlers[e.h]) ==> Number(c.handlers, p) > 0
  {
    if e.Accept? {
      NumberAppend(c.handlers, Arrived, p);
    } else {
      NumberUpdate(c.handlers, e.h, NextStage(c, e), p);
    }
  }

  // ---------------------------------------------------------------------------------------------
  // Kinds of handlers

  function FateOf(s: Stage): Option<Fate> {
    if s.Leaving? || s.Gone? then Some(s.fate) else None
  }

  /** Counted by the connection counter and not yet taken off it. */
  predicate IsLive(s: Stage) {
    !s.Arrived? && !s.Admitted? && !s.Gone? && s != Leaving(Rejected)
  }

  predicate IsAdmitted(s: Stage) {
    s.Admitted?
  }

  /** Rejected, with the deferred decrement already run. */
  predicate IsRejected(s: Stage) {
    s == Gone(Rejected)
  }

  predicate IsPending(s: Stage) {
    s.Chosen?
  }

  predicate IsTracked(s: Stage) {
    s.Dialing? || s.Announcing? || s.Bridging? || (FateOf(s).Some? && (s.fate.Leaked? || s.fate.Served?))
  }

  function Tracking(p: PeerID): Stage -> bool {
    (s: Stage) => s in {Dialing(p), Announcing(p), Bridging(p)} || FateOf(s) in {Some(Leaked(p)), Some(Served(p))}
  }

  function Releasing(p: PeerID): Stage -> bool {
    (s: Stage) => FateOf(s) == Some(Served(p))
  }

  function Holding(p: PeerID): Stage -> bool {
    (s: Stage) => s in {Dialing(p), Announcing(p), Bridging(p)}
  }

  function Leaking(p: PeerID): Stage -> bool {
    (s: Stage) => FateOf(s) == Some(Leaked(p))
  }

  function PendingOn(p: PeerID): Stage -> bool {
    (s: Stage) => s == Chosen(p)
  }

  // ---------------------------------------------------------------------------------------------
  // The life of a handler

  /** What an event is to its handler. */
  datatype Step =
    | Checked
    | Entered
    | Succeeded
    | Failed
    | Chose(server: PeerID)
    | Tracked
    | Released
    | Left

  /** The steps of handler h in a run, in order. */
  function Trace(es: seq<Event>, h: nat): seq<Step> {
    if es == [] then []
    else
      var e := es[|es| - 1];
      Trace(es[..|es| - 1], h) + if e.Accept? || e.h != h then [] else StepOf(e)
  }

  function StepOf(e: Event): seq<Step> {
    match e
    case Accept => []
    case Check(_) => [Checked]
    case Count(_) => [Entered]
    case Proceed(_, ok) => [if ok then Succeeded else Failed]
    case Choose(_, servers, i) => if i < |servers| then [Chose(servers[i])] else []
    case TrackServer(_, _) => [Tracked]
    case ReleaseServer(_) => [Released]
    case Leave(_) => [Left]
  }

  /** Under the limit, counted, negotiated, and asked for a target. */
  function Asked(): seq<Step> {
    [Checked, Entered, Succeeded, Succeeded]
  }

  /** A handler's steps before it returned, by how it ends. */
  ghost predicate Ending(fate: Fate, t: seq<Step>) {
    match fate
    case Rejected => t == [Checked]
    case Unserved => t == [Checked, Entered, Failed] || t == [Checked, Entered, Succeeded, Failed] || t == Asked() + [Failed]
    case Leaked(p) => t == Asked() + [Chose(p), Tracked, Failed] || t == Asked() + [Chose(p), Tracked, Succeeded, Failed]
    case Served(p) => t == Asked() + [Chose(p), Tracked, Succeeded, Succeeded, Released]
  }

  /** Every way for a handler to get where it is. */
  ghost predicate Story(s: Stage, t: seq<Step>) {
    match s
    case Arrived => t == []
    case Admitted => t == [Checked]
    case Negotiating => t == [Checked, Entered]
    case Requesting => t == [Checked, Entered, Succeeded]
    case Selecting => t == Asked()
    case Chosen(p) => t == Asked() + [Chose(p)]
    case Dialing(p) => t == Asked() + [Chose(p), Tracked]
    case Announcing(p) => t == Asked() + [Chose(p), Tracked, Succeeded]
    case Bridging(p) => t == Asked() + [Chose(p), Tracked, Succeeded, Succeeded]
    case Leaving(fate) => Ending(fate, t)
    case Gone(fate) => t != [] && t[|t| - 1] == Left && Ending(fate, t[..|t| - 1])
  }

  lemma StoryStep(c: Client, e: Event, t: seq<Step>, t': seq<Step>)
    requires Enabled(c, e) && !e.Accept? && Story(c.handlers[e.h], t) && t' == t + StepOf(e)
    ensures Story(NextStage(c, e), t')
  {
    if e.Leave? {
      assert t'[..|t|] == t;
    }
  }

  /** The steps of handler h so far tell its story. */
  ghost predicate Told(c: Client, past: seq<Event>, h: nat) {
    if h < |c.handlers| then Story(c.handlers[h], Trace(past, h)) else Trace(past, h) == []
  }

  lemma TraceSnoc(past: seq<Event>, e: Event, h: nat)
    ensures Trace(past + [e], h) == Trace(past, h) + if e.Accept? || e.h != h then [] else StepOf(e)
  {
    assert (past + [e])[..|past|] == past;
  }

  lemma OthersStep(c: Client, e: Event, past: seq<Event>, h: nat)
    requires Enabled(c, e) && (e.Accept? || e.h != h)
    ensures Trace(past + [e], h) == Trace(past, h)
    ensures h < |c.handlers| ==> Apply(c, e).handlers[h] == c.handlers[h]
    ensures e.Accept? && h == |c.handlers| ==> Apply(c, e).handlers[h] == Arrived
  {
    TraceSnoc(past, e, h);
    assert Trace(past, h) + [] == Trace(past, h);
  }

  lemma ToldStep(c: Client, e: Event, past: seq<Event>, h: nat)
    requires Enabled(c, e) && Told(c, past, h)
    ensures Told(Apply(c, e), past + [e], h)
  {
    if !e.Accept? && e.h == h {
      TraceSnoc(past, e, h);
      StoryStep(c, e, Trace(past, h), Trace(past + [e], h));
    } else {
      OthersStep(c, e, past, h);
    }
  }

  /** The last event of a run. */
  lemma {:induction false} LastEvent(c: Client, es: seq<Event>)
    requires es != [] && Possible(c, es)
    ensures var front, e := es[..|es| - 1], es[|es| - 1];
            Possible(c, front) && Enabled(After(c, front), e) && After(c, es) == Apply(After(c, front), e)
    decreases |es|
  {
    if |es| > 1 {
      LastEvent(Apply(c, es[0]), es[1..]);
      assert es[..|es| - 1][1..] == es[1..][..|es| - 2];
    }
  }

  lemma {:induction false} ToldAfter(c: Client, es: seq<Event>, h: nat)
    requires Told(c, [], h) && Possible(c, es)
    ensures Told(After(c, es), es, h)
    decreases |es|
  {
    if es != [] {
      var front, e := es[..|es| - 1], es[|es| - 1];
      LastEvent(c, es);
      ToldAfter(c, front, h);
      ToldStep(After(c, front), e, front, h);
      assert es == front + [e];
    }
  }

  /**
   The life of a handler, over all runs: where it is tells exactly what it has done. A rejected
   one has only been checked; one that failed before a server was counted chose none or
   failed to find one; one that leaked its server failed to open the stream or to send the
   target; and one that released it did everything, once, in order.
   */
  lemma LifeCycle(maxConnections: int, es: seq<Event>, h: nat)
    requires Possible(Fresh(maxConnections), es) && h < |After(Fresh(maxConnections), es).handlers|
    ensures Story(After(Fresh(maxConnections), es).handlers[h], Trace(es, h))
  {
    ToldAfter(Fresh(maxConnections), es, h);
  }

  /** A server is chosen only for a connection that was admitted and counted and whose negotiation and request have both succeeded. */
  lemma ChosenAfterRequest(maxConnections: int, es: seq<Event>, h: nat, p: PeerID)
    requires Possible(Fresh(maxConnections), es) && h < |After(Fresh(maxConnections), es).handlers| && Chose(p) in Trace(es, h)
    ensures |Trace(es, h)| >= 5 && Trace(es, h)[..5] == [Checked, Entered, Succeeded, Succeeded, Chose(p)]
  {
    LifeCycle(maxConnections, es, h);
    StoryOfChoice(After(Fresh(maxConnections), es).handlers[h], Trace(es, h), p);
  }

  lemma StoryOfChoice(s: Stage, t: seq<Step>, p: PeerID)
    requires Story(s, t) && Chose(p) in t
    ensures |t| >= 5 && t[..5] == Asked() + [Chose(p)]
  {
    if s.Gone? {
      EndingOfChoice(s.fate, t[..|t| - 1], p);
    } else if s.Leaving? {
      EndingOfChoice(s.fate, t, p);
    }
  }

  lemma EndingOfChoice(fate: Fate, t: seq<Step>, p: PeerID)
    requires Ending(fate, t) && Chose(p) in t
    ensures |t| >= 5 && t[..5] == Asked() + [Chose(p)]
  {
  }

  // ---------------------------------------------------------------------------------------------
  // The connection counter

  lemma Int32Add(x: int, d: int)
    ensures Int32(Int32(x) + d) == Int32(x + d)
    ensures -TWO31 <= x < TWO31 ==> Int32(x) == x
  {
  }

  /** Conversion to int32 is the one value of that range that is the same modulo 2^32. */
  lemma Int32Exact(x: int, y: int)
    ensures y == Int32(x) <==> -0x8000_0000 <= y < 0x8000_0000 && (y - x) % 0x1_0000_0000 == 0
  {
  }

  /** The counter is live handlers minus completed rejections, modulo 2^32: a rejected connection takes one off without having been counted. */
  ghost predicate Counted(c: Client) {
    c.active == Int32(Number(c.handlers, IsLive) - Number(c.handlers, IsRejected))
  }

  lemma CountedStep(c: Client, e: Event)
    requires Enabled(c, e) && Counted(c)
    ensures Counted(Apply(c, e))
  {
    NumberStep(c, e, IsLive);
    NumberStep(c, e, IsRejected);
    var before := Number(c.handlers, IsLive) - Number(c.handlers, IsRejected);
    Int32Add(before, 1);
    Int32Add(before, -1);
  }

  /** The counter equation holds in every run. */
  lemma {:induction false} CounterAccounting(c: Client, es: seq<Event>)
    requires Counted(c) && Possible(c, es)
    ensures Counted(After(c, es))
    decreases |es|
  {
    if es != [] {
      CountedStep(c, es[0]);
      CounterAccounting(Apply(c, es[0]), es[1..]);
    }
  }

  /** All along the run at most p handlers are between check and increment. */
  ghost predicate FewAdmitting(c: Client, es: seq<Event>, p: nat)
    requires Possible(c, es)
    decreases |es|
  {
    && Number(c.handlers, IsAdmitted) <= p
    && (es != [] ==> FewAdmitting(Apply(c, es[0]), es[1..], p))
  }

  ghost predicate WithinLimit(c: Client, p: nat) {
    var n := Number(c.handlers, IsLive) + Number(c.handlers, IsAdmitted);
    n == 0 || n <= c.limit + p + Number(c.handlers, IsRejected)
  }

  lemma WithinLimitStep(c: Client, e: Event, p: nat)
    requires Enabled(c, e) && Counted(c) && WithinLimit(c, p) && -TWO31 <= c.limit && c.limit + p < TWO31
    requires Number(Apply(c, e).handlers, IsAdmitted) <= p
    ensures WithinLimit(Apply(c, e), p)
  {
    NumberStep(c, e, IsLive);
    NumberStep(c, e, IsAdmitted);
    NumberStep(c, e, IsRejected);
    var net := Number(c.handlers, IsLive) - Number(c.handlers, IsRejected);
    if net >= -TWO31 {
      Int32Add(net, 0);
    }
  }

  /**
   Admission over all interleavings: with at most p handlers between the check and the
   increment, live handlers never exceed the limit + p + the rejections completed so far.
   */
  lemma {:induction false} AdmissionBound(c: Client, es: seq<Event>, p: nat)
    requires Counted(c) && WithinLimit(c, p) && -TWO31 <= c.limit && c.limit + p < TWO31
    requires Possible(c, es) && FewAdmitting(c, es, p)
    ensures WithinLimit(After(c, es), p)
    decreases |es|
  {
    if es != [] {
      CountedStep(c, es[0]);
      WithinLimitStep(c, es[0], p);
      AdmissionBound(Apply(c, es[0]), es[1..], p);
    }
  }

  /** From a fresh client whose MaxConnections fits an int32; the counter is exact as long as it has not wrapped. */
  lemma AdmissionFromFresh(maxConnections: nat, es: seq<Event>, p: nat)
    requires maxConnections + p < TWO31
    requires Possible(Fresh(maxConnections), es) && FewAdmitting(Fresh(maxConnections), es, p)
    ensures var c := After(Fresh(maxConnections), es);
            var live, rejected := Number(c.handlers, IsLive), Number(c.handlers, IsRejected);
            && live <= maxConnections + p + rejected
            && (c.active == live - rejected <==> rejected - live <= TWO31)
  {
    var c := Fresh(maxConnections);
    Int32Add(maxConnections, 0);
    AdmissionBound(c, es, p);
    CounterAccounting(c, es);
    var c' := After(c, es);
    LimitKept(c, es);
    Int32Add(Number(c'.handlers, IsLive) - Number(c'.handlers, IsRejected), 0);
  }

  lemma {:induction false} LimitKept(c: Client, es: seq<Event>)
    requires Possible(c, es)
    ensures After(c, es).limit == c.limit
    decreases |es|
  {
    if es != [] {
      LimitKept(Apply(c, es[0]), es[1..]);
    }
  }

  /** One more event at the end of a run. */
  lemma {:induction false} Extend(c: Client, es: seq<Event>, e: Event)
    requires Possible(c, es) && Enabled(After(c, es), e)
    ensures Possible(c, es + [e]) && After(c, es + [e]) == Apply(After(c, es), e)
    decreases |es|
  {
    if es == [] {
      assert [] + [e] == [e] && [e][1..] == [];
    } else {
      Extend(Apply(c, es[0]), es[1..], e);
      assert (es + [e])[1..] == es[1..] + [e];
    }
  }

  lemma {:induction false} ExtendFew(c: Client, es: seq<Event>, e: Event, p: nat)
    requires Possible(c, es) && Enabled(After(c, es), e) && Possible(c, es + [e])
    requires FewAdmitting(c, es, p) && Number(Apply(After(c, es), e).handlers, IsAdmitted) <= p
    ensures FewAdmitting(c, es + [e], p)
    decreases |es|
  {
    if es == [] {
      assert [] + [e] == [e] && [e][1..] == [];
    } else {
      assert (es + [e])[1..] == es[1..] + [e];
      ExtendFew(Apply(c, es[0]), es[1..], e, p);
    }
  }

  // ---------------------------------------------------------------------------------------------
  // The admission bound is attained

  /** How many handlers are live, have been rejected, and have passed the check only. */
  datatype Tally = Tally(live: nat, rejected: nat, admitted: nat)

  ghost predicate Shows(c: Client, t: Tally) {
    && Number(c.handlers, IsLive) == t.live && Number(c.handlers, IsRejected) == t.rejected
    && Number(c.handlers, IsAdmitted) == t.admitted <= |c.handlers|
    && forall i :: |c.handlers| - t.admitted <= i < |c.handlers| ==> c.handlers[i].Admitted?
  }

  /** A run of a fresh client, with at most p handlers between check and increment, that ends with this tally. */
  ghost predicate Reached(max: nat, p: nat, es: seq<Event>, t: Tally) {
    Possible(Fresh(max), es) && FewAdmitting(Fresh(max), es, p) && Shows(After(Fresh(max), es), t)
  }

  lemma ReachedCounter(max: nat, p: nat, es: seq<Event>, t: Tally)
    requires max < TWO31 && Reached(max, p, es, t) && -TWO31 <= t.live - t.rejected < TWO31
    ensures After(Fresh(max), es).active == t.live - t.rejected && After(Fresh(max), es).limit == max
  {
    CounterAccounting(Fresh(max), es);
    LimitKept(Fresh(max), es);
    Int32Add(max, 0);
    Int32Add(t.live - t.rejected, 0);
  }

  lemma ExtendReached(max: nat, p: nat, es: seq<Event>, e: Event)
    requires Possible(Fresh(max), es) && FewAdmitting(Fresh(max), es, p) && Enabled(After(Fresh(max), es), e)
    requires Number(Apply(After(Fresh(max), es), e).handlers, IsAdmitted) <= p
    ensures Possible(Fresh(max), es + [e]) && FewAdmitting(Fresh(max), es + [e], p)
    ensures After(Fresh(max), es + [e]) == Apply(After(Fresh(max), es), e)
  {
    Extend(Fresh(max), es, e);
    ExtendFew(Fresh(max), es, e, p);
  }

  lemma NumbersStep(c: Client, e: Event)
    requires Enabled(c, e)
    ensures forall p :: p in {IsLive, IsRejected, IsAdmitted} ==>
            Number(Apply(c, e).handlers, p) == Number(c.handlers, p) +
            if e.Accept? then 0 else Bit(p(NextStage(c, e))) - Bit(p(c.handlers[e.h]))
  {
    NumberStep(c, e, IsLive);
    NumberStep(c, e, IsRejected);
    NumberStep(c, e, IsAdmitted);
  }

  lemma AdmittedTally(c: Client, t: Tally)
    requires Shows(c, t) && c.active <= c.limit
    ensures var n := |c.handlers|;
            var c1 := Apply(c, Accept);
            && Number(c1.handlers, IsAdmitted) == t.admitted && Enabled(c1, Check(n))
            && Shows(Apply(c1, Check(n)), t.(admitted := t.admitted + 1))
  {
    NumbersStep(c, Accept);
    NumbersStep(Apply(c, Accept), Check(|c.handlers|));
  }

  /** A new connection passes the check while the counter is not over the limit. */
  lemma AdmitOne(max: nat, p: nat, es: seq<Event>, t: Tally) returns (es': seq<Event>)
    requires max < TWO31 && Reached(max, p, es, t) && t.admitted < p && -TWO31 <= t.live - t.rejected <= max
    ensures Reached(max, p, es', t.(admitted := t.admitted + 1))
  {
    ReachedCounter(max, p, es, t);
    var c := After(Fresh(max), es);
    AdmittedTally(c, t);
    ExtendReached(max, p, es, Accept);
    ExtendReached(max, p, es + [Accept], Check(|c.handlers|));
    es' := es + [Accept] + [Check(|c.handlers|)];
  }

  /** A handler that has passed the check is counted, whatever the counter says by then. */
  lemma CountOne(max: nat, p: nat, es: seq<Event>, t: Tally) returns (es': seq<Event>)
    requires Reached(max, p, es, t) && t.admitted > 0
    ensures Reached(max, p, es', Tally(t.live + 1, t.rejected, t.admitted - 1))
  {
    var c := After(Fresh(max), es);
    var e := Count(|c.handlers| - t.admitted);
    NumbersStep(c, e);
    AdmittedWithin(Fresh(max), es, p);
    ExtendReached(max, p, es, e);
    es' := es + [e];
  }

  /** What one rejected connection does to the tally. */
  lemma RejectedTally(c: Client, t: Tally)
    requires Shows(c, t) && t.admitted == 0 && c.active > c.limit
    ensures var n := |c.handlers|;
            var c1 := Apply(c, Accept);
            && Number(c1.handlers, IsAdmitted) == 0 && Enabled(c1, Check(n))
            && var c2 := Apply(c1, Check(n));
            && Number(c2.handlers, IsAdmitted) == 0 && Enabled(c2, Leave(n))
            && Shows(Apply(c2, Leave(n)), t.(rejected := t.rejected + 1))
  {
    var n := |c.handlers|;
    NumbersStep(c, Accept);
    var c1 := Apply(c, Accept);
    NumbersStep(c1, Check(n));
    NumbersStep(Apply(c1, Check(n)), Leave(n));
  }

  /** A new connection that meets a counter over the limit is rejected, and its deferred decrement runs. */
  lemma RejectOne(max: nat, p: nat, es: seq<Event>, t: Tally) returns (es': seq<Event>)
    requires max < TWO31 && Reached(max, p, es, t) && t.admitted == 0 && max < t.live - t.rejected < TWO31
    ensures Reached(max, p, es', t.(rejected := t.rejected + 1))
  {
    ReachedCounter(max, p, es, t);
    var c := After(Fresh(max), es);
    var n := |c.handlers|;
    RejectedTally(c, t);
    ExtendReached(max, p, es, Accept);
    ExtendReached(max, p, es + [Accept], Check(n));
    ExtendReached(max, p, es + [Accept] + [Check(n)], Leave(n));
    es' := es + [Accept] + [Check(n)] + [Leave(n)];
  }

  lemma {:induction false} AdmittedWithin(c: Client, es: seq<Event>, p: nat)
    requires Possible(c, es) && FewAdmitting(c, es, p)
    ensures Number(After(c, es).handlers, IsAdmitted) <= p
    decreases |es|
  {
    if es != [] {
      AdmittedWithin(Apply(c, es[0]), es[1..], p);
    }
  }

  /** n connections one after the other, on a fresh client. */
  lemma {:induction false} FillUp(max: nat, p: nat, n: nat) returns (es: seq<Event>)
    requires max < TWO31 && p > 0 && n <= max
    ensures Reached(max, p, es, Tally(n, 0, 0))
    decreases n
  {
    if n == 0 {
      es := [];
    } else {
      es := FillUp(max, p, n - 1);
      es := AdmitOne(max, p, es, Tally(n - 1, 0, 0));
      es := CountOne(max, p, es, Tally(n - 1, 0, 1));
    }
  }

  /** Each rejection makes room for a connection that nobody has left: after k of them a counter at the limit hides k live handlers. */
  lemma {:induction false} HideBehindRejections(max: nat, p: nat, k: nat) returns (es: seq<Event>)
    requires max + p < TWO31 && p > 0
    ensures Reached(max, p, es, Tally(max + k, k, 0))
    decreases k
  {
    if k == 0 {
      es := FillUp(max, p, max);
    } else {
      es := HideBehindRejections(max, p, k - 1);
      es := AdmitOne(max, p, es, Tally(max + k - 1, k - 1, 0));
      es := CountOne(max, p, es, Tally(max + k - 1, k - 1, 1));
      es := RejectOne(max, p, es, Tally(max + k, k - 1, 0));
    }
  }

  lemma {:induction false} AdmitMany(max: nat, p: nat, k: nat, n: nat) returns (es: seq<Event>)
    requires max + p < TWO31 && 0 < p && n <= p
    ensures Reached(max, p, es, Tally(max + k, k, n))
    decreases n
  {
    if n == 0 {
      es := HideBehindRejections(max, p, k);
    } else {
      es := AdmitMany(max, p, k, n - 1);
      es := AdmitOne(max, p, es, Tally(max + k, k, n - 1));
    }
  }

  lemma {:induction false} CountMany(max: nat, p: nat, k: nat, n: nat) returns (es: seq<Event>)
    requires max + p < TWO31 && 0 < p && n <= p
    ensures Reached(max, p, es, Tally(max + k + n, k, p - n))
    decreases n
  {
    if n == 0 {
      es := AdmitMany(max, p, k, p);
    } else {
      es := CountMany(max, p, k, n - 1);
      es := CountOne(max, p, es, Tally(max + k + n - 1, k, p - n + 1));
    }
  }

  /**
   The admission bound cannot be lowered: for every limit, every p and every k there is a run
   of a fresh client, never with more than p handlers between check and increment, that
   completes k rejections and has max + p + k live handlers. The limit itself is thus
   exceeded by one as soon as p is 1, and by any amount once connections are rejected.
   */
  lemma AdmissionBoundAttained(max: nat, p: nat, k: nat) returns (es: seq<Event>)
    requires max + p < TWO31 && p > 0
    ensures Possible(Fresh(max), es) && FewAdmitting(Fresh(max), es, p)
    ensures var c := After(Fresh(max), es);
            Number(c.handlers, IsLive) == max + p + k && Number(c.handlers, IsRejected) == k
  {
    es := CountMany(max, p, k, p);
  }

  // ---------------------------------------------------------------------------------------------
  // The load table

  /** Server p's counts are exactly what the handlers say: counted once each, and taken off only by those that released. */
  ghost predicate Accounted(c: Client, p: PeerID) {
    && Total(c.loads, p) == Number(c.handlers, Tracking(p))
    && Active(c.loads, p) == Number(c.handlers, Tracking(p)) - Number(c.handlers, Releasing(p))
    && Active(c.loads, p) == Number(c.handlers, Holding(p)) + Number(c.handlers, Leaking(p))
  }

  lemma AccountedStep(c: Client, e: Event, p: PeerID)
    requires Enabled(c, e) && Accounted(c, p)
    ensures Accounted(Apply(c, e), p)
    // the guard against negative counts in ReleaseConnection never fires
    ensures e.ReleaseServer? && c.handlers[e.h].server == p ==> Active(c.loads, p) >= 1
  {
    TotalStep(c, e, p);
    ActiveStep(c, e, p);
    KindsOfTracking(c.handlers, p);
    KindsOfTracking(Apply(c, e).handlers, p);
  }

  lemma TotalStep(c: Client, e: Event, p: PeerID)
    requires Enabled(c, e) && Total(c.loads, p) == Number(c.handlers, Tracking(p))
    ensures Total(Apply(c, e).loads, p) == Number(Apply(c, e).handlers, Tracking(p))
  {
    NumberStep(c, e, Tracking(p));
  }

  lemma ActiveStep(c: Client, e: Event, p: PeerID)
    requires Enabled(c, e) && Active(c.loads, p) == Number(c.handlers, Holding(p)) + Number(c.handlers, Leaking(p))
    ensures Active(Apply(c, e).loads, p) == Number(Apply(c, e).handlers, Holding(p)) + Number(Apply(c, e).handlers, Leaking(p))
    ensures e.ReleaseServer? && c.handlers[e.h].server == p ==> Active(c.loads, p) >= 1
  {
    NumberStep(c, e, Holding(p));
    NumberStep(c, e, Leaking(p));
  }

  /** A handler that has counted a server holds it, has released it, or has leaked it. */
  lemma {:induction false} KindsOfTracking(hs: seq<Stage>, p: PeerID)
    ensures Number(hs, Tracking(p)) == Number(hs, Holding(p)) + Number(hs, Leaking(p)) + Number(hs, Releasing(p))
    decreases |hs|
  {
    if hs != [] {
      KindsOfTracking(hs[1..], p);
    }
  }

  /**
   Load accounting: in every run, for every server, the active count is tracks minus releases,
   which is the handlers holding it plus those that left without releasing it; the total is
   the number of tracks.
   */
  lemma {:induction false} LoadAccounting(c: Client, es: seq<Event>, p: PeerID)
    requires Accounted(c, p) && Possible(c, es)
    ensures Accounted(After(c, es), p)
    ensures 0 <= Active(After(c, es).loads, p) <= Total(After(c, es).loads, p)
    decreases |es|
  {
    if es != [] {
      AccountedStep(c, es[0], p);
      LoadAccounting(Apply(c, es[0]), es[1..], p);
    }
  }

  /** The event makes handleConnection return with server p counted and not released. */
  predicate Leaks(c: Client, e: Event, p: PeerID)
    requires Enabled(c, e)
  {
    e.Proceed? && !e.ok && c.handlers[e.h] in {Dialing(p), Announcing(p)}
  }

  function LeaksIn(c: Client, es: seq<Event>, p: PeerID): nat
    requires Possible(c, es)
    decreases |es|
  {
    if es == [] then 0 else Bit(Leaks(c, es[0], p)) + LeaksIn(Apply(c, es[0]), es[1..], p)
  }

  lemma LeakStep(c: Client, e: Event, p: PeerID)
    requires Enabled(c, e)
    ensures Number(Apply(c, e).handlers, Leaking(p)) == Number(c.handlers, Leaking(p)) + Bit(Leaks(c, e, p))
  {
    NumberStep(c, e, Leaking(p));
  }

  lemma {:induction false} LeaksCounted(c: Client, es: seq<Event>, p: PeerID)
    requires Possible(c, es)
    ensures Number(After(c, es).handlers, Leaking(p)) == Number(c.handlers, Leaking(p)) + LeaksIn(c, es, p)
    decreases |es|
  {
    if es != [] {
      LeakStep(c, es[0], p);
      LeaksCounted(Apply(c, es[0]), es[1..], p);
    }
  }

  /** No relay stream to p failed to open and no target address failed to be sent to p. */
  ghost predicate LeakFree(c: Client, es: seq<Event>, p: PeerID)
    requires Possible(c, es)
    decreases |es|
  {
    es == [] || (!Leaks(c, es[0], p) && LeakFree(Apply(c, es[0]), es[1..], p))
  }

  lemma {:induction false} LeakFreeExact(c: Client, es: seq<Event>, p: PeerID)
    requires Possible(c, es)
    ensures LeakFree(c, es, p) <==> LeaksIn(c, es, p) == 0
    decreases |es|
  {
    if es != [] {
      LeakFreeExact(Apply(c, es[0]), es[1..], p);
    }
  }

  /**
   What the count of a server is worth: after any run it is the number of handlers using the
   server plus the number of times opening its relay stream or sending it the target address
   has failed; so it is exact if and only if neither has ever failed.
   */
  lemma CountExactIffLeakFree(maxConnections: int, es: seq<Event>, p: PeerID)
    requires Possible(Fresh(maxConnections), es)
    ensures var c := After(Fresh(maxConnections), es);
            && Active(c.loads, p) == Number(c.handlers, Holding(p)) + LeaksIn(Fresh(maxConnections), es, p)
            && (Active(c.loads, p) == Number(c.handlers, Holding(p)) <==> LeakFree(Fresh(maxConnections), es, p))
  {
    var c0 := Fresh(maxConnections);
    LoadAccounting(c0, es, p);
    LeaksCounted(c0, es, p);
    LeakFreeExact(c0, es, p);
  }

  /** Every connection the client ever had is over. */
  ghost predicate Idle(c: Client) {
    forall s :: s in c.handlers ==> s.Gone?
  }

  /** The newest handler takes a step at the end of a run. */
  lemma NewestStep(c0: Client, es: seq<Event>, others: seq<Stage>, e: Event)
    requires Possible(c0, es) && Enabled(After(c0, es), e) && !e.Accept? && e.h == |others|
    requires |After(c0, es).handlers| == |others| + 1 && After(c0, es).handlers[..|others|] == others
    ensures Possible(c0, es + [e])
    ensures var c := After(c0, es);
            After(c0, es + [e]) == Client(c.limit, NextActive(c, e), NextLoads(c, e), others + [NextStage(c, e)])
  {
    Extend(c0, es, e);
    var c := After(c0, es);
    assert c.handlers[e.h := NextStage(c, e)] == others + [NextStage(c, e)];
  }

  /** A new connection that is admitted and gets through the handshake. */
  lemma UpToSelecting(c0: Client, es: seq<Event>) returns (es': seq<Event>)
    requires Possible(c0, es) && After(c0, es).active == 0 <= After(c0, es).limit
    ensures Possible(c0, es')
    ensures var c := After(c0, es); After(c0, es') == c.(active := 1, handlers := c.handlers + [Selecting])
  {
    var others := After(c0, es).handlers;
    var n := |others|;
    Extend(c0, es, Accept);
    es' := es + [Accept];
    NewestStep(c0, es', others, Check(n));
    es' := es' + [Check(n)];
    NewestStep(c0, es', others, Count(n));
    es' := es' + [Count(n)];
    NewestStep(c0, es', others, Proceed(n, true));
    es' := es' + [Proceed(n, true)];
    NewestStep(c0, es', others, Proceed(n, true));
    es' := es' + [Proceed(n, true)];
  }

  /** Its server is chosen and counted, the stream cannot be opened, and it leaves. */
  lemma FailsToDial(c0: Client, es: seq<Event>, others: seq<Stage>, p: PeerID) returns (es': seq<Event>)
    requires Possible(c0, es) && After(c0, es).handlers == others + [Selecting] && After(c0, es).active == 1
    ensures Possible(c0, es')
    ensures var c := After(c0, es);
            After(c0, es') == c.(active := 0, loads := Track(c.loads, p, 0), handlers := others + [Gone(Leaked(p))])
  {
    var n := |others|;
    NewestStep(c0, es, others, Choose(n, [p], 0));
    es' := es + [Choose(n, [p], 0)];
    NewestStep(c0, es', others, TrackServer(n, 0));
    es' := es' + [TrackServer(n, 0)];
    NewestStep(c0, es', others, Proceed(n, false));
    es' := es' + [Proceed(n, false)];
    NewestStep(c0, es', others, Leave(n));
    es' := es' + [Leave(n)];
  }

  /** A connection that gets as far as its server and cannot open the stream. */
  lemma FailedDial(c0: Client, es: seq<Event>, p: PeerID) returns (es': seq<Event>)
    requires Possible(c0, es) && After(c0, es).active == 0 <= After(c0, es).limit
    ensures Possible(c0, es')
    ensures var c := After(c0, es); After(c0, es') == c.(loads := Track(c.loads, p, 0), handlers := c.handlers + [Gone(Leaked(p))])
  {
    es' := UpToSelecting(c0, es);
    es' := FailsToDial(c0, es', After(c0, es).handlers, p);
  }

  /** Its server is chosen, counted, dialled and told the target. */
  lemma UpToBridging(c0: Client, es: seq<Event>, others: seq<Stage>, p: PeerID) returns (es': seq<Event>)
    requires Possible(c0, es) && After(c0, es).handlers == others + [Selecting]
    ensures Possible(c0, es')
    ensures var c := After(c0, es); After(c0, es') == c.(loads := Track(c.loads, p, 0), handlers := others + [Bridging(p)])
  {
    var n := |others|;
    NewestStep(c0, es, others, Choose(n, [p], 0));
    es' := es + [Choose(n, [p], 0)];
    NewestStep(c0, es', others, TrackServer(n, 0));
    es' := es' + [TrackServer(n, 0)];
    NewestStep(c0, es', others, Proceed(n, true));
    es' := es' + [Proceed(n, true)];
    NewestStep(c0, es', others, Proceed(n, true));
    es' := es' + [Proceed(n, true)];
  }

  /** The bridge ends, and the server is released. */
  lemma IsServed(c0: Client, es: seq<Event>, others: seq<Stage>, p: PeerID) returns (es': seq<Event>)
    requires Possible(c0, es) && After(c0, es).handlers == others + [Bridging(p)] && After(c0, es).active == 1
    ensures Possible(c0, es')
    ensures var c := After(c0, es);
            After(c0, es') == c.(active := 0, loads := Release(c.loads, p), handlers := others + [Gone(Served(p))])
  {
    var n := |others|;
    NewestStep(c0, es, others, ReleaseServer(n));
    es' := es + [ReleaseServer(n)];
    NewestStep(c0, es', others, Leave(n));
    es' := es' + [Leave(n)];
  }

  /** Connections that go well leave no load behind: a fresh client can serve any number of them through p and end with none counted, neither for p nor by the connection counter. */
  lemma {:induction false} ServedLeavesNoLoad(max: nat, p: PeerID, k: nat) returns (es: seq<Event>)
    requires max < TWO31
    ensures Possible(Fresh(max), es)
    ensures var c := After(Fresh(max), es);
            && |c.handlers| == k && (forall s :: s in c.handlers ==> s == Gone(Served(p)))
            && Active(c.loads, p) == 0 && Total(c.loads, p) == k && c.active == 0 && c.limit == max
    decreases k
  {
    Int32Add(max, 0);
    if k == 0 {
      es := [];
    } else {
      var before := ServedLeavesNoLoad(max, p, k - 1);
      var others := After(Fresh(max), before).handlers;
      es := UpToSelecting(Fresh(max), before);
      es := UpToBridging(Fresh(max), es, others, p);
      es := IsServed(Fresh(max), es, others, p);
    }
  }

  /** Leaks do happen and stay: for every k a fresh client has a run that ends with no connection at all and k counted for server p. */
  lemma {:induction false} IdleButLoaded(max: nat, p: PeerID, k: nat) returns (es: seq<Event>)
    requires max < TWO31
    ensures Possible(Fresh(max), es)
    ensures var c := After(Fresh(max), es);
            Idle(c) && Active(c.loads, p) == k && c.active == 0 && c.limit == max
    decreases k
  {
    Int32Add(max, 0);
    if k == 0 {
      es := [];
    } else {
      var before := IdleButLoaded(max, p, k - 1);
      es := FailedDial(Fresh(max), before, p);
    }
  }

  ghost predicate AllAccounted(c: Client) {
    forall p :: Accounted(c, p)
  }

  lemma AllAccountedStep(c: Client, e: Event)
    requires Enabled(c, e) && AllAccounted(c)
    ensures AllAccounted(Apply(c, e)) && NonNegative(c.loads)
  {
    forall p: PeerID ensures Accounted(Apply(c, e), p) {
      AccountedStep(c, e, p);
    }
    AccountedNonNegative(c);
  }

  lemma AccountedNonNegative(c: Client)
    requires AllAccounted(c)
    ensures NonNegative(c.loads)
  {
    forall p | p in c.loads ensures c.loads[p].active >= 0 {
      assert Accounted(c, p);
    }
  }

  // ---------------------------------------------------------------------------------------------
  // Peak load under racing selectors

  /** n: how many distinct servers every choice sees; total: a bound on all active connections; p: how many choices are pending. */
  datatype Regime = Regime(n: nat, total: int, p: nat)

  ghost predicate Calm(c: Client, r: Regime) {
    SumActive(c.loads) <= r.total && Number(c.handlers, IsPending) <= r.p
  }

  /** Choices follow the load-balancing strategy over at least n distinct servers. */
  ghost predicate BalancedChoice(c: Client, e: Event, n: nat) {
    e.Choose? ==> LeftmostLeast(c.loads, e.servers, e.i) && n <= |Servers(e.servers)|
  }

  ghost predicate Racing(c: Client, es: seq<Event>, r: Regime)
    requires Possible(c, es)
    decreases |es|
  {
    && Calm(c, r)
    && (es != [] ==> BalancedChoice(c, es[0], r.n) && Racing(Apply(c, es[0]), es[1..], r))
  }

  /** The load of server q, counting the choices that are still to be tracked. */
  function Committed(c: Client, q: PeerID): int {
    Active(c.loads, q) + Number(c.handlers, PendingOn(q))
  }

  lemma CommittedStep(c: Client, e: Event, q: PeerID)
    requires Enabled(c, e)
    ensures Committed(Apply(c, e), q) <= Committed(c, q) || (e.Choose? && e.servers[e.i] == q)
            || (e.ReleaseServer? && Active(c.loads, q) < 1)
    ensures Number(c.handlers, PendingOn(q)) <= Number(c.handlers, IsPending)
    ensures !e.ReleaseServer? ==> Active(c.loads, q) <= Active(Apply(c, e).loads, q)
    ensures e.Choose? ==> Apply(c, e).loads == c.loads
  {
    NumberStep(c, e, PendingOn(q));
    NumberImplies(c.handlers, PendingOn(q), IsPending);
  }

  lemma PeakStep(c: Client, e: Event, r: Regime, q: PeerID)
    requires Enabled(c, e) && AllAccounted(c) && r.n > 0
    requires Calm(c, r) && Calm(Apply(c, e), r) && BalancedChoice(c, e, r.n)
    requires Committed(c, q) <= r.total / r.n + r.p
    ensures Committed(Apply(c, e), q) <= r.total / r.n + r.p
  {
    CommittedStep(c, e, q);
    AccountedNonNegative(c);
    assert Accounted(c, q);
    if e.Choose? && e.servers[e.i] == q {
      LeastIsBelowAverage(c.loads, e.servers, e.i, r.n);
      Quotient(r.total, r.n, SumActive(c.loads) / r.n);
      NumberImplies(Apply(c, e).handlers, PendingOn(q), IsPending);
    }
    if e.ReleaseServer? {
      AccountedStep(c, e, q);
      ReleaseLowers(c, e, q);
    }
  }

  lemma ReleaseLowers(c: Client, e: Event, q: PeerID)
    requires Enabled(c, e) && e.ReleaseServer? && AllAccounted(c)
    ensures Committed(Apply(c, e), q) <= Committed(c, q)
  {
    NumberStep(c, e, PendingOn(q));
    AccountedStep(c, e, q);
  }

  /**
   Peak load under racing selectors: if every choice is a least-loaded one among at least n
   distinct servers, the sum of active connections never exceeds C, and at most P choices are
   pending at any time, then no server's active count, even with its pending choices, ever
   exceeds C/n + P, although the servers on offer change and releases interleave.
   */
  lemma {:induction false} PeakLoad(c: Client, es: seq<Event>, r: Regime, q: PeerID)
    requires AllAccounted(c) && r.n > 0 && Committed(c, q) <= r.total / r.n + r.p
    requires Possible(c, es) && Racing(c, es, r)
    ensures Active(After(c, es).loads, q) <= Committed(After(c, es), q) <= r.total / r.n + r.p
    decreases |es|
  {
    if es != [] {
      PeakStep(c, es[0], r, q);
      AllAccountedStep(c, es[0]);
      PeakLoad(Apply(c, es[0]), es[1..], r, q);
    }
  }

  /** From a fresh client, whatever MaxConnections is. */
  lemma PeakLoadFromFresh(maxConnections: int, es: seq<Event>, r: Regime, q: PeerID)
    requires r.n > 0 && Possible(Fresh(maxConnections), es) && Racing(Fresh(maxConnections), es, r)
    ensures Active(After(Fresh(maxConnections), es).loads, q) <= r.total / r.n + r.p
  {
    FreshAccounted(maxConnections);
    PeakLoad(Fresh(maxConnections), es, r, q);
  }

  // ---------------------------------------------------------------------------------------------
  // Fairness without releases

  /** Nothing is released, and every choice is a least-loaded one among exactly the servers in s. */
  ghost predicate FairStep(c: Client, e: Event, s: set<PeerID>) {
    !e.ReleaseServer? && (e.Choose? ==> LeftmostLeast(c.loads, e.servers, e.i) && Servers(e.servers) == s)
  }

  ghost predicate Filling(c: Client, es: seq<Event>, s: set<PeerID>, p: nat)
    requires Possible(c, es)
    decreases |es|
  {
    && Number(c.handlers, IsPending) <= p
    && (es != [] ==> FairStep(c, es[0], s) && Filling(Apply(c, es[0]), es[1..], s, p))
  }

  ghost predicate Even(c: Client, s: set<PeerID>, p: nat) {
    forall q, q' :: q in s && q' in s ==> Committed(c, q) <= Active(c.loads, q') + p
  }

  /** Only servers of s are chosen or counted, and the sum of the counts is the number of tracks. */
  ghost predicate Confined(c: Client, s: set<PeerID>) {
    && c.loads.Keys <= s
    && (forall h :: 0 <= h < |c.handlers| && c.handlers[h].Chosen? ==> c.handlers[h].server in s)
    && SumActive(c.loads) == Number(c.handlers, IsTracked)
  }

  lemma EvenStep(c: Client, e: Event, s: set<PeerID>, p: nat)
    requires Enabled(c, e) && Even(c, s, p) && FairStep(c, e, s) && Number(Apply(c, e).handlers, IsPending) <= p
    ensures Even(Apply(c, e), s, p)
  {
    var c' := Apply(c, e);
    forall q, q' | q in s && q' in s ensures Committed(c', q) <= Active(c'.loads, q') + p {
      CommittedStep(c, e, q);
      CommittedStep(c, e, q');
      if e.Choose? && e.servers[e.i] == q {
        NumberImplies(c'.handlers, PendingOn(q), IsPending);
        assert q' in Servers(e.servers);
      } else {
        assert Committed(c, q) <= Active(c.loads, q') + p;
      }
    }
  }

  lemma ConfinedStep(c: Client, e: Event, s: set<PeerID>)
    requires Enabled(c, e) && Confined(c, s) && FairStep(c, e, s)
    ensures Confined(Apply(c, e), s)
  {
    NumberStep(c, e, IsTracked);
    if e.TrackServer? {
      SumTrack(c.loads, c.handlers[e.h].server, e.now);
    }
    if e.Choose? {
      assert e.servers[e.i] in Servers(e.servers);
    }
  }

  /** For every server in s, its count plus its pending choices is at most any other server's count + p. */
  lemma {:induction false} Fairness(c: Client, es: seq<Event>, s: set<PeerID>, p: nat)
    requires Even(c, s, p) && Confined(c, s) && Possible(c, es) && Filling(c, es, s, p)
    ensures Even(After(c, es), s, p) && Confined(After(c, es), s)
    decreases |es|
  {
    if es != [] {
      EvenStep(c, es[0], s, p);
      ConfinedStep(c, es[0], s);
      Fairness(Apply(c, es[0]), es[1..], s, p);
    }
  }

  lemma {:induction false} AccountedAfter(c: Client, es: seq<Event>)
    requires AllAccounted(c) && Possible(c, es)
    ensures AllAccounted(After(c, es))
    decreases |es|
  {
    if es != [] {
      AllAccountedStep(c, es[0]);
      AccountedAfter(Apply(c, es[0]), es[1..]);
    }
  }

  lemma FreshAccounted(maxConnections: int)
    ensures AllAccounted(Fresh(maxConnections))
  {
  }

  /**
   One selection at a time, without releases, over n fixed servers: after k selections every
   server carries k/n connections, rounded down or up.
   */
  lemma SelectionsAreSpreadEvenly(maxConnections: int, es: seq<Event>, s: set<PeerID>, q: PeerID)
    requires Possible(Fresh(maxConnections), es) && Filling(Fresh(maxConnections), es, s, 1) && q in s
    requires Number(After(Fresh(maxConnections), es).handlers, IsPending) == 0
    ensures var c := After(Fresh(maxConnections), es);
            var n, k := |s|, Number(c.handlers, IsTracked);
            n > 0 && (Active(c.loads, q) == k / n || Active(c.loads, q) == (k + n - 1) / n)
  {
    var c0 := Fresh(maxConnections);
    FreshAccounted(maxConnections);
    Fairness(c0, es, s, 1);
    AccountedAfter(c0, es);
    var c := After(c0, es);
    AccountedNonNegative(c);
    forall q, q' | q in s && q' in s ensures Active(c.loads, q) <= Active(c.loads, q') + 1 {
      assert Committed(c, q) <= Active(c.loads, q') + 1;
    }
    BalancedShares(c.loads, s, q);
  }
}
