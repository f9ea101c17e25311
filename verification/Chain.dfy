/** The resolver chain under concurrency: metrics, blocklist, cache, coalescing
    and forwarding as one machine.  Each query is a thread that moves from stage
    to stage; steps of different threads interleave freely with each other, with
    matcher swaps and with upstream replies. */
module Chain {
  import opened Dns
  import opened CacheKey
  import opened Lifetime
  import Matcher
  import M = LruModel
  import H = LruHistory
  import Stages

  datatype Query = Query(id: U16, question: seq<RRVal>) {
    predicate Single() { |question| == 1 }

    function Name(): string
      requires Single()
    {
      question[0].name
    }

    function Key(): string
      requires Single()
    {
      KeyOf(QuestionOf(question[0]))
    }
  }

  datatype Answer = Reply(msg: MsgVal) | Failed(error: string)

  /** The answer under the caller's own ID. */
  function Stamp(a: Answer, id: U16): Answer {
    match a
    case Reply(m) => Reply(m.(id := id))
    case Failed(_) => a
  }

  /** What the blocklist stage synthesises. */
  function NxDomain(q: Query): MsgVal { MsgVal(q.id, true, RCODE_NAME_ERROR, q.question, [], [], []) }

  datatype Outcome = OBlocked | ONxdomain | OForwarded | OError

  function OutcomeOf(marker: bool, a: Answer): Outcome {
    match a
    case Failed(_) => OError
    case Reply(m) =>
      if m.rcode == RCODE_NAME_ERROR then (if marker then OBlocked else ONxdomain) else OForwarded
  }

  datatype Phase =
    | AtBlocklist
    | AtCache
    | AtCoalesce
    | InFlight                 // inside singleflight.Do
    | Forwarding               // not exactly one question: past every stage
    | AtStore(reply: MsgVal)   // back in the cache stage after a miss
    | Answered(answer: Answer) // on the way out through the metrics stage
    | Done(answer: Answer, outcome: Outcome)

  /** How a query was dealt with, once that is settled. */
  datatype Route = Undecided | RBlocked | RHit | RMiss | RMulti

  /** blocked and upstream are the two context markers, fresh for every query;
      flight and joinedAt are set when the query enters a flight. */
  datatype Thread = Thread(q: Query, phase: Phase, route: Route, blocked: bool, upstream: bool,
                           flight: nat, joinedAt: nat)

  datatype Flight = Flight(key: string, leader: nat, callers: set<nat>, returned: set<nat>,
                           startedAt: nat, result: Option<Answer>, endedAt: nat)

  datatype Counters = Counters(hits: nat, misses: nat, coalesced: nat, total: nat, blocked: nat)

  /** time counts steps; clock is the latest clock reading the cache has seen, in
      nanoseconds since the chain was built. */
  datatype State = State(cfg: Config, matcher: Option<set<string>>, cache: M.Cache, clock: int,
                         threads: map<nat, Thread>, flights: seq<Flight>, group: map<string, nat>,
                         counters: Counters, time: nat)

  function Init(cfg: Config, capacity: int, matcher: Option<set<string>>): State {
    State(cfg, matcher, M.Empty(capacity), 0, map[], [], map[], Counters(0, 0, 0, 0, 0), 0)
  }

  datatype Step =
    | Arrive(t: nat, q: Query)
    | Swap(matcher: Option<set<string>>)
    | CheckBlock(t: nat)
    | Lookup(t: nat, now: int)
    | Enter(t: nat)                     // singleflight.Do: join or start
    | Finish(f: nat, answer: Answer)    // the flight's one call of next returns
    | Return(t: nat)                    // a caller comes back from Do
    | StoreReply(t: nat, at: int)
    | Forward(t: nat, answer: Answer)
    | Count(t: nat)

  predicate At(s: State, t: nat, phase: Phase) { t in s.threads && s.threads[t].phase == phase }

  /** A lookup reads the clock under the cache's lock, so never behind an earlier
      reading; a store reads it before taking the lock, so perhaps behind. */
  predicate Enabled(s: State, step: Step) {
    match step
    case Arrive(t, _) => t !in s.threads
    case Swap(_) => true
    case CheckBlock(t) => At(s, t, AtBlocklist)
    case Lookup(t, now) => At(s, t, AtCache) && s.threads[t].q.Single() && s.clock <= now
    case Enter(t) => At(s, t, AtCoalesce) && s.threads[t].q.Single()
    case Finish(f, _) => f < |s.flights| && s.flights[f].result.None?
    case Return(t) =>
      At(s, t, InFlight) && s.threads[t].flight < |s.flights| && s.flights[s.threads[t].flight].result.Some?
    case StoreReply(t, _) => t in s.threads && s.threads[t].phase.AtStore? && s.threads[t].q.Single()
    case Forward(t, _) => At(s, t, Forwarding)
    case Count(t) => t in s.threads && s.threads[t].phase.Answered?
  }

  function SetThread(s: State, t: nat, th: Thread): State { s.(threads := s.threads[t := th]) }

  function SetFlight(s: State, f: nat, fl: Flight): State
    requires f < |s.flights|
  {
    s.(flights := s.flights[f := fl])
  }

  function Apply(s: State, step: Step): State
    requires Enabled(s, step)
  {
    Act(s, step).(time := s.time + 1)
  }

  function Act(s: State, step: Step): State
    requires Enabled(s, step)
  {
    match step
    case Arrive(t, q) => SetThread(s, t, Thread(q, AtBlocklist, Undecided, false, false, 0, 0))
    case Swap(m) => s.(matcher := m)
    case CheckBlock(t) => DoCheckBlock(s, t)
    case Lookup(t, now) => DoLookup(s, t, now)
    case Enter(t) => DoEnter(s, t)
    case Finish(f, a) => DoFinish(s, f, a)
    case Return(t) => DoReturn(s, t)
    case StoreReply(t, at) =>
      var th := s.threads[t];
      SetThread(s, t, th.(phase := Answered(Reply(th.phase.reply))))
        .(cache := Stages.AfterMiss(s.cache, th.q.Key(), th.phase.reply, at, s.cfg), clock := Max(s.clock, at))
    case Forward(t, a) =>
      SetThread(s, t, s.threads[t].(phase := Answered(a), upstream := a.Reply?))
    case Count(t) => DoCount(s, t)
  }

  predicate Matches(m: Option<set<string>>, q: Query) {
    q.Single() && m.Some? && Matcher.Blocked(m.value, q.Name())
  }

  function DoCheckBlock(s: State, t: nat): State
    requires t in s.threads
  {
    var th := s.threads[t];
    SetThread(s, t,
      if !th.q.Single() then th.(phase := Forwarding, route := RMulti)
      else if Matches(s.matcher, th.q) then
        th.(phase := Answered(Reply(NxDomain(th.q))), route := RBlocked, blocked := true)
      else th.(phase := AtCache))
  }

  function DoLookup(s: State, t: nat, now: int): State
    requires t in s.threads && s.threads[t].q.Single()
  {
    var th := s.threads[t];
    var (c, hit) := M.Lookup(s.cache, th.q.Key(), now);
    if hit.Some? then
      SetThread(s, t, th.(phase := Answered(Reply(hit.value.(id := th.q.id))), route := RHit))
        .(cache := c, clock := now, counters := s.counters.(hits := s.counters.hits + 1))
    else
      SetThread(s, t, th.(phase := AtCoalesce, route := RMiss))
        .(cache := c, clock := now, counters := s.counters.(misses := s.counters.misses + 1))
  }

  /** Join the flight in progress for the key, or start one. */
  function DoEnter(s: State, t: nat): State
    requires t in s.threads && s.threads[t].q.Single()
  {
    var th := s.threads[t];
    var k := th.q.Key();
    if k in s.group && s.group[k] < |s.flights| then
      var f := s.group[k];
      var fl := s.flights[f];
      SetThread(SetFlight(s, f, fl.(callers := fl.callers + {t})), t,
                th.(phase := InFlight, flight := f, joinedAt := s.time))
    else
      var f := |s.flights|;
      SetThread(s.(flights := s.flights + [Flight(k, t, {t}, {}, s.time, None, 0)], group := s.group[k := f]), t,
                th.(phase := InFlight, flight := f, joinedAt := s.time))
  }

  /** The leader's call returns: the flight closes for new callers, and a
      successful exchange sets the upstream marker of the context it ran in. */
  function DoFinish(s: State, f: nat, a: Answer): State
    requires f < |s.flights|
  {
    var fl := s.flights[f];
    var s' := SetFlight(s, f, fl.(result := Some(a), endedAt := s.time)).(group := s.group - {fl.key});
    if a.Reply? && fl.leader in s.threads then
      SetThread(s', fl.leader, s.threads[fl.leader].(upstream := true))
    else s'
  }

  function DoReturn(s: State, t: nat): State
    requires t in s.threads && s.threads[t].flight < |s.flights| && s.flights[s.threads[t].flight].result.Some?
  {
    var th := s.threads[t];
    var fl := s.flights[th.flight];
    var a := Stamp(fl.result.value, th.q.id);
    SetThread(SetFlight(s, th.flight, fl.(returned := fl.returned + {t})), t,
              th.(phase := if a.Reply? then AtStore(a.msg) else Answered(a)))
      .(counters := s.counters.(coalesced := s.counters.coalesced + if |fl.callers| >= 2 then 1 else 0))
  }

  function DoCount(s: State, t: nat): State
    requires t in s.threads && s.threads[t].phase.Answered?
  {
    var th := s.threads[t];
    var a := th.phase.answer;
    var o := OutcomeOf(th.blocked, a);
    SetThread(s, t, th.(phase := Done(a, o)))
      .(counters := s.counters.(total := s.counters.total + 1,
                                blocked := s.counters.blocked + if o.OBlocked? then 1 else 0))
  }

  // ------------------------------------------------------------- invariant

  /** t is among the callers of the flight it points at. */
  predicate Caller(s: State, t: nat)
    requires t in s.threads
  {
    s.threads[t].flight < |s.flights| && t in s.flights[s.threads[t].flight].callers
  }

  /** t has come back from its flight with that flight's result under its own ID. */
  predicate Served(s: State, t: nat, a: Answer)
    requires t in s.threads
  {
    && Caller(s, t)
    && var fl := s.flights[s.threads[t].flight];
       t in fl.returned && fl.result.Some? && a == Stamp(fl.result.value, s.threads[t].q.id)
  }

  /** Flight f is over and brought this message, whatever its ID. */
  predicate Brought(fl: Flight, key: string, m: MsgVal) {
    fl.key == key && fl.result.Some? && fl.result.value.Reply? && m == fl.result.value.msg.(id := m.id)
  }

  /** Some finished flight for the key brought the message. */
  ghost predicate Sourced(flights: seq<Flight>, key: string, m: MsgVal) {
    exists f :: 0 <= f < |flights| && Brought(flights[f], key, m)
  }

  /** The message is a copy of one that a flight for the key brought, aged by an
      elapsed time within that message's lifetime. */
  ghost predicate FromCache(flights: seq<Flight>, cfg: Config, key: string, m: MsgVal) {
    exists orig, elapsed: nat :: Sourced(flights, key, orig) && AgedWithin(cfg, orig, elapsed, m)
  }

  /** The age is that of the code, a uint32 of whole seconds; it wraps only past 2^32. */
  predicate AgedWithin(cfg: Config, orig: MsgVal, elapsed: nat, m: MsgVal) {
    elapsed <= LifetimeOf(orig, cfg) && m == Aged(orig, (elapsed / M.SECOND) % 0x1_0000_0000).(id := m.id)
  }

  ghost predicate AnswerOk(s: State, t: nat, a: Answer)
    requires t in s.threads
  {
    var th := s.threads[t];
    match th.route
    case Undecided => false
    case RBlocked => a == Reply(NxDomain(th.q)) && !th.upstream
    case RHit =>
      && !th.upstream && th.q.Single() && a.Reply? && a.msg.id == th.q.id
      && FromCache(s.flights, s.cfg, th.q.Key(), a.msg)
    case RMiss => Served(s, t, a)
    case RMulti => th.upstream == a.Reply?
  }

  ghost predicate ThreadOk(s: State, t: nat)
    requires t in s.threads
  {
    var th := s.threads[t];
    && (th.blocked <==> th.route.RBlocked?)
    && (th.route.RMulti? ==> !th.q.Single())
    && (th.route.RBlocked? || th.route.RHit? || th.route.RMiss? ==> th.q.Single())
    && match th.phase
       case AtBlocklist => th.route.Undecided? && !th.upstream
       case AtCache => th.route.Undecided? && !th.upstream && th.q.Single()
       case AtCoalesce => th.route.RMiss? && !th.upstream
       case Forwarding => th.route.RMulti? && !th.upstream
       case InFlight => th.route.RMiss? && Caller(s, t) && t !in s.flights[th.flight].returned
       case AtStore(m) => th.route.RMiss? && Served(s, t, Reply(m))
       case Answered(a) => AnswerOk(s, t, a)
       case Done(a, o) => AnswerOk(s, t, a) && o == OutcomeOf(th.blocked, a)
  }

  /** c belongs to flight f: same key, joined while it ran, and its upstream marker
      is set exactly if it is the leader and the flight brought a reply. */
  predicate CallerOk(s: State, f: nat, c: nat)
    requires f < |s.flights|
  {
    var fl := s.flights[f];
    && c in s.threads
    && var th := s.threads[c];
       && th.flight == f && th.route.RMiss? && th.q.Single() && th.q.Key() == fl.key
       && fl.startedAt <= th.joinedAt < s.time && (fl.result.Some? ==> th.joinedAt < fl.endedAt)
       && (th.upstream <==> c == fl.leader && fl.result.Some? && fl.result.value.Reply?)
       && (th.phase.InFlight? || th.phase.AtStore? || th.phase.Answered? || th.phase.Done?)
  }

  ghost predicate FlightOk(s: State, f: nat)
    requires f < |s.flights|
  {
    var fl := s.flights[f];
    && fl.leader in fl.callers && fl.returned <= fl.callers && (fl.returned != {} ==> fl.result.Some?)
    && fl.startedAt < s.time && (fl.result.Some? ==> fl.endedAt < s.time)
    && (fl.result.None? ==> fl.key in s.group && s.group[fl.key] == f)
    && forall c {:trigger CallerOk(s, f, c)} :: c in fl.callers ==> CallerOk(s, f, c)
  }

  predicate GroupOk(s: State, k: string)
    requires k in s.group
  {
    var f := s.group[k];
    f < |s.flights| && s.flights[f].key == k && s.flights[f].result.None?
  }

  ghost predicate CacheOk(s: State) {
    M.Valid(s.cache) && forall e {:trigger e in s.cache.list} :: e in s.cache.list ==> EntryOk(s, e)
  }

  /** An entry was brought by a flight for its key, was stored at a time gone by and
      lives for its message's lifetime. */
  ghost predicate EntryOk(s: State, e: M.Entry) {
    && Sourced(s.flights, e.key, e.msg)
    && e.storedAt <= s.clock && e.expiresAt == e.storedAt + LifetimeOf(e.msg, s.cfg)
  }

  ghost predicate ThreadsOk(s: State) {
    forall t {:trigger ThreadOk(s, t)} :: t in s.threads ==> ThreadOk(s, t)
  }

  ghost predicate FlightsOk(s: State) {
    && (forall f: nat {:trigger FlightOk(s, f)} :: f < |s.flights| ==> FlightOk(s, f))
    && (forall k {:trigger GroupOk(s, k)} :: k in s.group ==> GroupOk(s, k))
  }

  ghost predicate Inv(s: State) { ThreadsOk(s) && FlightsOk(s) && CacheOk(s) }

  // -------------------------------------------------- what steps leave alone

  /** b continues a: only t may have come back in between. */
  predicate FlightGrew(a: Flight, b: Flight, t: nat) {
    && b.key == a.key && b.leader == a.leader && b.startedAt == a.startedAt && a.callers <= b.callers
    && (a.result.Some? ==> b.result == a.result && b.endedAt == a.endedAt)
    && a.returned <= b.returned && b.returned <= a.returned + {t}
  }

  ghost predicate Grew(a: seq<Flight>, b: seq<Flight>, t: nat) {
    |a| <= |b| && forall f {:trigger FlightGrew(a[f], b[f], t)} :: 0 <= f < |a| ==> FlightGrew(a[f], b[f], t)
  }

  lemma SourcedGrows(a: seq<Flight>, b: seq<Flight>, t: nat, key: string, m: MsgVal)
    requires Grew(a, b, t) && Sourced(a, key, m)
    ensures Sourced(b, key, m)
  {
    var f :| 0 <= f < |a| && Brought(a[f], key, m);
    assert FlightGrew(a[f], b[f], t);
    assert Brought(b[f], key, m);
  }

  lemma CacheGrows(s: State, s': State, t: nat)
    requires CacheOk(s) && s'.cache == s.cache && s'.cfg == s.cfg && s'.clock == s.clock
    requires Grew(s.flights, s'.flights, t)
    ensures CacheOk(s')
  {
    forall e | e in s'.cache.list ensures EntryOk(s', e) {
      assert EntryOk(s, e);
      SourcedGrows(s.flights, s'.flights, t, e.key, e.msg);
    }
  }

  /** A thread that did not move is still in order. */
  lemma OtherThread(s: State, s': State, t0: nat, t: nat)
    requires t in s.threads && t in s'.threads && s'.threads[t] == s.threads[t] && t != t0
    requires Grew(s.flights, s'.flights, t0) && s'.cfg == s.cfg && ThreadOk(s, t)
    ensures ThreadOk(s', t)
  {
    var th := s.threads[t];
    if th.flight < |s.flights| {
      assert FlightGrew(s.flights[th.flight], s'.flights[th.flight], t0);
    }
    if (th.phase.Answered? || th.phase.Done?) && th.route.RHit? {
      var k, m := th.q.Key(), th.phase.answer.msg;
      var orig, elapsed: nat :| Sourced(s.flights, k, orig) && AgedWithin(s.cfg, orig, elapsed, m);
      SourcedGrows(s.flights, s'.flights, t0, k, orig);
    }
  }

  /** A step that touches neither flights nor group, and one thread at most. */
  lemma QuietStep(s: State, s': State, t: nat)
    requires ThreadsOk(s) && FlightsOk(s)
    requires s'.flights == s.flights && s'.group == s.group && s'.time == s.time + 1 && s'.cfg == s.cfg
    requires s.threads.Keys <= s'.threads.Keys <= s.threads.Keys + {t}
    requires forall u :: u in s.threads && u != t ==> s'.threads[u] == s.threads[u]
    requires t in s'.threads ==> ThreadOk(s', t)
    requires forall f: nat {:trigger CallerOk(s', f, t)} ::
      f < |s.flights| && t in s.flights[f].callers ==> CallerOk(s', f, t)
    ensures ThreadsOk(s') && FlightsOk(s') && Grew(s.flights, s'.flights, t)
  {
    forall f | 0 <= f < |s.flights| ensures FlightGrew(s.flights[f], s'.flights[f], t) { }
    forall u | u in s'.threads ensures ThreadOk(s', u) {
      if u != t { assert ThreadOk(s, u); OtherThread(s, s', t, u); }
    }
    forall f: nat | f < |s'.flights| ensures FlightOk(s', f) {
      assert FlightOk(s, f);
      forall c | c in s'.flights[f].callers ensures CallerOk(s', f, c) {
        assert CallerOk(s, f, c);
      }
    }
    forall k | k in s'.group ensures GroupOk(s', k) { assert GroupOk(s, k); }
  }

  /** Before it enters a flight a thread is nobody's caller. */
  lemma NotYetCaller(s: State, t: nat, f: nat)
    requires FlightsOk(s) && f < |s.flights|
    requires t !in s.threads || s.threads[t].phase.AtBlocklist? || s.threads[t].phase.AtCache? ||
             s.threads[t].phase.AtCoalesce? || s.threads[t].phase.Forwarding?
    ensures t !in s.flights[f].callers
  {
    assert FlightOk(s, f);
    assert t in s.flights[f].callers ==> CallerOk(s, f, t);
  }

  // ---------------------------------------------------------- step by step

  lemma ArriveInv(s: State, t: nat, q: Query)
    requires Inv(s) && t !in s.threads
    ensures Inv(Apply(s, Arrive(t, q)))
  {
    var s' := Apply(s, Arrive(t, q));
    forall f: nat | f < |s.flights| ensures t !in s.flights[f].callers { NotYetCaller(s, t, f); }
    QuietStep(s, s', t);
    CacheGrows(s, s', t);
  }

  lemma SwapInv(s: State, m: Option<set<string>>)
    requires Inv(s)
    ensures Inv(Apply(s, Swap(m)))
  {
    var s' := Apply(s, Swap(m));
    forall f: nat | f < |s.flights| ensures FlightOk(s', f) {
      assert FlightOk(s, f);
      forall c | c in s.flights[f].callers ensures CallerOk(s', f, c) { assert CallerOk(s, f, c); }
    }
    forall f | 0 <= f < |s.flights| ensures FlightGrew(s.flights[f], s'.flights[f], 0) { }
    forall k | k in s'.group ensures GroupOk(s', k) { assert GroupOk(s, k); }
    forall u | u in s'.threads ensures ThreadOk(s', u) {
      assert ThreadOk(s, u);
      OtherThread(s, s', u + 1, u) by {
        forall f | 0 <= f < |s.flights| ensures FlightGrew(s.flights[f], s'.flights[f], u + 1) { }
      }
    }
    CacheGrows(s, s', 0);
  }

  lemma CheckBlockInv(s: State, t: nat)
    requires Inv(s) && Enabled(s, CheckBlock(t))
    ensures Inv(Apply(s, CheckBlock(t)))
  {
    var s' := Apply(s, CheckBlock(t));
    assert ThreadOk(s, t);
    forall f: nat | f < |s.flights| ensures t !in s.flights[f].callers { NotYetCaller(s, t, f); }
    QuietStep(s, s', t);
    CacheGrows(s, s', t);
  }

  lemma LookupInv(s: State, t: nat, now: int)
    requires Inv(s) && Enabled(s, Lookup(t, now))
    ensures Inv(Apply(s, Lookup(t, now)))
  {
    var s' := Apply(s, Lookup(t, now));
    assert ThreadOk(s, t);
    forall f: nat | f < |s.flights| ensures t !in s.flights[f].callers { NotYetCaller(s, t, f); }
    var k := s.threads[t].q.Key();
    var hit := M.Lookup(s.cache, k, now).1;
    if hit.Some? {
      var e := M.Find(s.cache.list, k);
      assert e in s.cache.list;
      var m := hit.value.(id := s.threads[t].q.id);
      assert EntryOk(s, e);
      H.AgeOf(now - e.storedAt);
      assert AgedWithin(s.cfg, e.msg, now - e.storedAt, m);
      assert FromCache(s'.flights, s.cfg, k, m);
    }
    QuietStep(s, s', t);
    var op := M.Get(k, now);
    M.StepValid(s.cache, op);
    H.StepMembers(s.cache, op);
    forall e | e in s'.cache.list ensures EntryOk(s', e) { assert EntryOk(s, e); }
  }

  lemma StoreInv(s: State, t: nat, at: int)
    requires Inv(s) && Enabled(s, StoreReply(t, at))
    ensures Inv(Apply(s, StoreReply(t, at)))
  {
    var s' := Apply(s, StoreReply(t, at));
    var th := s.threads[t];
    var k, m := th.q.Key(), th.phase.reply;
    assert ThreadOk(s, t);
    forall f: nat | f < |s.flights| && t in s.flights[f].callers ensures CallerOk(s', f, t) {
      assert FlightOk(s, f) && CallerOk(s, f, t);
    }
    QuietStep(s, s', t);
    var fl := s.flights[th.flight];
    assert FlightOk(s, th.flight) && CallerOk(s, th.flight, t);
    assert Brought(fl, k, m);
    OfferSourced(s, s', k, m, at);
  }

  /** Offering the cache a sourced reply keeps every entry sourced. */
  lemma OfferSourced(s: State, s': State, k: string, m: MsgVal, at: int)
    requires CacheOk(s) && Sourced(s.flights, k, m) && s'.flights == s.flights && s'.cfg == s.cfg
    requires s'.cache == Stages.AfterMiss(s.cache, k, m, at, s.cfg) && s'.clock == Max(s.clock, at)
    ensures CacheOk(s')
  {
    var op := M.Store(k, m, at, LifetimeOf(m, s.cfg));
    M.StepValid(s.cache, op);
    H.StepMembers(s.cache, op);
    forall e | e in s'.cache.list ensures EntryOk(s', e) {
      if e in s.cache.list { assert EntryOk(s, e); }
    }
  }

  lemma ForwardInv(s: State, t: nat, a: Answer)
    requires Inv(s) && Enabled(s, Forward(t, a))
    ensures Inv(Apply(s, Forward(t, a)))
  {
    var s' := Apply(s, Forward(t, a));
    assert ThreadOk(s, t);
    forall f: nat | f < |s.flights| ensures t !in s.flights[f].callers { NotYetCaller(s, t, f); }
    QuietStep(s, s', t);
    CacheGrows(s, s', t);
  }

  lemma CountInv(s: State, t: nat)
    requires Inv(s) && Enabled(s, Count(t))
    ensures Inv(Apply(s, Count(t)))
  {
    var s' := Apply(s, Count(t));
    assert ThreadOk(s, t);
    forall f: nat | f < |s.flights| && t in s.flights[f].callers ensures CallerOk(s', f, t) {
      assert FlightOk(s, f) && CallerOk(s, f, t);
    }
    QuietStep(s, s', t);
    CacheGrows(s, s', t);
  }

  lemma JoinInv(s: State, t: nat)
    requires Inv(s) && Enabled(s, Enter(t)) && s.threads[t].q.Key() in s.group
    ensures Inv(Apply(s, Enter(t)))
  {
    var s', k := Apply(s, Enter(t)), s.threads[t].q.Key();
    assert ThreadOk(s, t) && GroupOk(s, k);
    var f0 := s.group[k];
    forall f | 0 <= f < |s.flights| ensures FlightGrew(s.flights[f], s'.flights[f], t) { }
    forall u | u in s'.threads ensures ThreadOk(s', u) {
      if u != t {
        assert ThreadOk(s, u);
        OtherThread(s, s', t, u);
      } else {
        NotYetCaller(s, t, f0);
        assert FlightOk(s, f0);
      }
    }
    forall f: nat | f < |s'.flights| ensures FlightOk(s', f) {
      assert FlightOk(s, f);
      NotYetCaller(s, t, f);
      forall c | c in s'.flights[f].callers ensures CallerOk(s', f, c) {
        if c != t { assert CallerOk(s, f, c); }
      }
    }
    forall x | x in s'.group ensures GroupOk(s', x) { assert GroupOk(s, x); }
    CacheGrows(s, s', t);
  }

  lemma StartInv(s: State, t: nat)
    requires Inv(s) && Enabled(s, Enter(t)) && s.threads[t].q.Key() !in s.group
    ensures Inv(Apply(s, Enter(t)))
  {
    var s', k := Apply(s, Enter(t)), s.threads[t].q.Key();
    assert ThreadOk(s, t);
    forall f | 0 <= f < |s.flights| ensures FlightGrew(s.flights[f], s'.flights[f], t) { }
    forall u | u in s'.threads ensures ThreadOk(s', u) {
      if u != t {
        assert ThreadOk(s, u);
        OtherThread(s, s', t, u);
      }
    }
    forall f: nat | f < |s'.flights| ensures FlightOk(s', f) {
      if f < |s.flights| {
        assert FlightOk(s, f);
        NotYetCaller(s, t, f);
        forall c | c in s'.flights[f].callers ensures CallerOk(s', f, c) { assert CallerOk(s, f, c); }
      } else {
        assert CallerOk(s', f, t);
      }
    }
    forall x | x in s'.group ensures GroupOk(s', x) { if x != k { assert GroupOk(s, x); } }
    CacheGrows(s, s', t);
  }

  lemma FinishInv(s: State, f0: nat, a: Answer)
    requires Inv(s) && Enabled(s, Finish(f0, a))
    ensures Inv(Apply(s, Finish(f0, a)))
  {
    var s', fl := Apply(s, Finish(f0, a)), s.flights[f0];
    var l := fl.leader;
    assert FlightOk(s, f0) && CallerOk(s, f0, l);
    forall u: nat, f | 0 <= f < |s.flights| ensures FlightGrew(s.flights[f], s'.flights[f], u) { }
    forall u | u in s'.threads ensures ThreadOk(s', u) {
      assert ThreadOk(s, u);
      if u != l || !a.Reply? { OtherThread(s, s', u + 1, u); }
    }
    forall f: nat | f < |s'.flights| ensures FlightOk(s', f) {
      assert FlightOk(s, f);
      forall c | c in s'.flights[f].callers ensures CallerOk(s', f, c) { assert CallerOk(s, f, c); }
    }
    forall k | k in s'.group ensures GroupOk(s', k) { assert GroupOk(s, k); }
    CacheGrows(s, s', l);
  }

  lemma ReturnThreads(s: State, t: nat)
    requires Inv(s) && Enabled(s, Return(t))
    ensures ThreadsOk(Apply(s, Return(t))) && Grew(s.flights, Apply(s, Return(t)).flights, t)
  {
    var s', f0 := Apply(s, Return(t)), s.threads[t].flight;
    assert ThreadOk(s, t) && FlightOk(s, f0) && CallerOk(s, f0, t);
    forall f | 0 <= f < |s.flights| ensures FlightGrew(s.flights[f], s'.flights[f], t) { }
    forall u | u in s'.threads ensures ThreadOk(s', u) {
      if u != t {
        assert ThreadOk(s, u);
        OtherThread(s, s', t, u);
      }
    }
  }

  lemma ReturnFlights(s: State, t: nat)
    requires Inv(s) && Enabled(s, Return(t))
    ensures FlightsOk(Apply(s, Return(t)))
  {
    var s', f0 := Apply(s, Return(t)), s.threads[t].flight;
    assert ThreadOk(s, t) && FlightOk(s, f0) && CallerOk(s, f0, t);
    forall f: nat | f < |s'.flights| ensures FlightOk(s', f) {
      assert FlightOk(s, f);
      forall c | c in s'.flights[f].callers ensures CallerOk(s', f, c) { assert CallerOk(s, f, c); }
    }
    forall k | k in s'.group ensures GroupOk(s', k) { assert GroupOk(s, k); }
  }

  lemma ReturnInv(s: State, t: nat)
    requires Inv(s) && Enabled(s, Return(t))
    ensures Inv(Apply(s, Return(t)))
  {
    ReturnThreads(s, t);
    ReturnFlights(s, t);
    CacheGrows(s, Apply(s, Return(t)), t);
  }

  /** Every step of every thread keeps the invariant. */
  lemma StepInv(s: State, step: Step)
    requires Inv(s) && Enabled(s, step)
    ensures Inv(Apply(s, step))
  {
    match step
    case Arrive(t, q) => ArriveInv(s, t, q);
    case Swap(m) => SwapInv(s, m);
    case CheckBlock(t) => CheckBlockInv(s, t);
    case Lookup(t, now) => LookupInv(s, t, now);
    case Enter(t) => if s.threads[t].q.Key() in s.group { JoinInv(s, t); } else { StartInv(s, t); }
    case Finish(f, a) => FinishInv(s, f, a);
    case Return(t) => ReturnInv(s, t);
    case StoreReply(t, at) => StoreInv(s, t, at);
    case Forward(t, a) => ForwardInv(s, t, a);
    case Count(t) => CountInv(s, t);
  }
}
