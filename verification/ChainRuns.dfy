/** What holds over whole runs of the resolver chain. */
module ChainRuns {
  import opened Dns
  import opened CacheKey
  import opened Lifetime
  import opened Chain
  import opened Matcher
  import M = LruModel
  import H = LruHistory

  predicate Legal(s: State, steps: seq<Step>)
    decreases |steps|, 0
  {
    steps == [] ||
    (Legal(s, steps[..|steps| - 1]) && Enabled(Run(s, steps[..|steps| - 1]), steps[|steps| - 1]))
  }

  function Run(s: State, steps: seq<Step>): State
    requires Legal(s, steps)
    decreases |steps|, 1
  {
    if steps == [] then s else Apply(Run(s, steps[..|steps| - 1]), steps[|steps| - 1])
  }

  /** A state some run of a freshly built chain reaches. */
  ghost predicate Reachable(s: State) {
    exists cfg, capacity, matcher, steps ::
      Legal(Init(cfg, capacity, matcher), steps) && s == Run(Init(cfg, capacity, matcher), steps)
  }

  lemma InitInv(cfg: Config, capacity: int, matcher: Option<set<string>>)
    ensures Inv(Init(cfg, capacity, matcher)) && Tallied(Init(cfg, capacity, matcher))
  {
    var s := Init(cfg, capacity, matcher);
    assert Routed(s, RHit) == {} && Routed(s, RMiss) == {} && Finished(s) == {} && FinishedBlocked(s) == {};
  }

  lemma {:induction false} RunInv(s: State, steps: seq<Step>)
    requires Inv(s) && Tallied(s) && Legal(s, steps)
    ensures Inv(Run(s, steps)) && Tallied(Run(s, steps))
  {
    if steps != [] {
      var n := |steps| - 1;
      RunInv(s, steps[..n]);
      StepInv(Run(s, steps[..n]), steps[n]);
      StepTallied(Run(s, steps[..n]), steps[n]);
    }
  }

  lemma ReachableInv(s: State)
    requires Reachable(s)
    ensures Inv(s) && Tallied(s)
  {
    var cfg, capacity, matcher, steps :|
      Legal(Init(cfg, capacity, matcher), steps) && s == Run(Init(cfg, capacity, matcher), steps);
    InitInv(cfg, capacity, matcher);
    RunInv(Init(cfg, capacity, matcher), steps);
  }

  // -------------------------------------------------------------- counters

  function Routed(s: State, r: Route): set<nat> { set t | t in s.threads && s.threads[t].route == r }

  function Finished(s: State): set<nat> { set t | t in s.threads && s.threads[t].phase.Done? }

  function FinishedBlocked(s: State): set<nat> {
    set t | t in s.threads && s.threads[t].phase.Done? && s.threads[t].phase.outcome.OBlocked?
  }

  /** What a flight has added to the coalesced counter so far. */
  function Weight(fl: Flight): nat { if |fl.callers| >= 2 then |fl.returned| else 0 }

  function TotalWeight(flights: seq<Flight>): nat {
    if flights == [] then 0 else TotalWeight(flights[..|flights| - 1]) + Weight(flights[|flights| - 1])
  }

  /** Every counter is the number of things it counts. */
  predicate Tallied(s: State) {
    && s.counters.hits == |Routed(s, RHit)| && s.counters.misses == |Routed(s, RMiss)|
    && s.counters.total == |Finished(s)| && s.counters.blocked == |FinishedBlocked(s)|
    && s.counters.coalesced == TotalWeight(s.flights)
  }

  lemma {:induction false} WeightUpdate(flights: seq<Flight>, i: nat, fl: Flight)
    requires i < |flights|
    ensures TotalWeight(flights[i := fl]) == TotalWeight(flights) - Weight(flights[i]) + Weight(fl)
  {
    var n := |flights| - 1;
    var changed := flights[i := fl];
    if i == n {
      assert changed[..n] == flights[..n];
    } else {
      WeightUpdate(flights[..n], i, fl);
      assert changed[..n] == flights[..n][i := fl];
    }
  }

  lemma WeightSnoc(flights: seq<Flight>, fl: Flight)
    ensures TotalWeight(flights + [fl]) == TotalWeight(flights) + Weight(fl)
  {
    assert (flights + [fl])[..|flights|] == flights;
  }

  lemma StepTallied(s: State, step: Step)
    requires Inv(s) && Tallied(s) && Enabled(s, step)
    ensures Tallied(Apply(s, step))
  {
    StepSets(s, step);
    StepWeight(s, step);
  }

  /** As far as the counted sets go, u stands in s' as it stood in s. */
  predicate Alike(s: State, s': State, u: nat)
    requires u in s'.threads
  {
    var r', p' := s'.threads[u].route, s'.threads[u].phase;
    if u in s.threads then
      var r, p := s.threads[u].route, s.threads[u].phase;
      r.RHit? == r'.RHit? && r.RMiss? == r'.RMiss? && p.Done? == p'.Done? && (p.Done? ==> p'.outcome == p.outcome)
    else !r'.RHit? && !r'.RMiss? && !p'.Done?
  }

  lemma SetsSame(s: State, s': State)
    requires s.threads.Keys <= s'.threads.Keys
    requires forall u :: u in s'.threads ==> Alike(s, s', u)
    ensures Routed(s', RHit) == Routed(s, RHit) && Routed(s', RMiss) == Routed(s, RMiss)
    ensures Finished(s') == Finished(s) && FinishedBlocked(s') == FinishedBlocked(s)
  {
    assert forall u :: u in s.threads ==> u in s.threads.Keys && u in s'.threads.Keys;
  }

  lemma RouteSets(s: State, s': State, t: nat)
    requires t in s.threads && t in s'.threads && s'.threads == s.threads[t := s'.threads[t]]
    requires s.threads[t].route.Undecided? && !s.threads[t].phase.Done? && !s'.threads[t].phase.Done?
    requires s'.threads[t].route.RHit? || s'.threads[t].route.RMiss?
    ensures var hit := s'.threads[t].route.RHit?;
      && |Routed(s', RHit)| == |Routed(s, RHit)| + (if hit then 1 else 0)
      && |Routed(s', RMiss)| == |Routed(s, RMiss)| + (if hit then 0 else 1)
      && Finished(s') == Finished(s) && FinishedBlocked(s') == FinishedBlocked(s)
  {
    if s'.threads[t].route.RHit? {
      assert Routed(s', RHit) == Routed(s, RHit) + {t} && Routed(s', RMiss) == Routed(s, RMiss);
    } else {
      assert Routed(s', RHit) == Routed(s, RHit) && Routed(s', RMiss) == Routed(s, RMiss) + {t};
    }
  }

  lemma LookupCounts(s: State, t: nat, now: int)
    requires Inv(s) && Enabled(s, Lookup(t, now))
    ensures var s' := Apply(s, Lookup(t, now));
      var th := s'.threads[t];
      && s'.threads == s.threads[t := th] && !th.phase.Done? && (th.route.RHit? || th.route.RMiss?)
      && s'.counters.hits == s.counters.hits + (if th.route.RHit? then 1 else 0)
      && s'.counters.misses == s.counters.misses + (if th.route.RHit? then 0 else 1)
      && s'.counters.total == s.counters.total && s'.counters.blocked == s.counters.blocked
  {
  }

  lemma DoneSets(s: State, s': State, t: nat)
    requires t in s.threads && t in s'.threads && s'.threads == s.threads[t := s'.threads[t]]
    requires !s.threads[t].phase.Done? && s'.threads[t].phase.Done? && s'.threads[t].route == s.threads[t].route
    ensures Routed(s', RHit) == Routed(s, RHit) && Routed(s', RMiss) == Routed(s, RMiss)
    ensures |Finished(s')| == |Finished(s)| + 1
    ensures |FinishedBlocked(s')| == |FinishedBlocked(s)| + if s'.threads[t].phase.outcome.OBlocked? then 1 else 0
  {
    SameRoutes(s, s', t, RHit);
    SameRoutes(s, s', t, RMiss);
    OneMoreDone(s, s', t);
  }

  lemma SameRoutes(s: State, s': State, t: nat, r: Route)
    requires t in s.threads && t in s'.threads && s'.threads == s.threads[t := s'.threads[t]]
    requires s'.threads[t].route == s.threads[t].route
    ensures Routed(s', r) == Routed(s, r)
  {
  }

  lemma OneMoreDone(s: State, s': State, t: nat)
    requires t in s.threads && t in s'.threads && s'.threads == s.threads[t := s'.threads[t]]
    requires !s.threads[t].phase.Done? && s'.threads[t].phase.Done?
    ensures |Finished(s')| == |Finished(s)| + 1
    ensures |FinishedBlocked(s')| == |FinishedBlocked(s)| + if s'.threads[t].phase.outcome.OBlocked? then 1 else 0
  {
    assert Finished(s') == Finished(s) + {t};
    if s'.threads[t].phase.outcome.OBlocked? {
      assert FinishedBlocked(s') == FinishedBlocked(s) + {t};
    } else {
      assert FinishedBlocked(s') == FinishedBlocked(s);
    }
  }

  /** Steps other than a lookup or a count leave every counted set and number. */
  lemma StepAlike(s: State, step: Step)
    requires Inv(s) && Enabled(s, step) && !step.Lookup? && !step.Count?
    ensures var s' := Apply(s, step);
      && s.threads.Keys <= s'.threads.Keys
      && (forall u :: u in s'.threads ==> Alike(s, s', u))
      && s'.counters.(coalesced := 0) == s.counters.(coalesced := 0)
  {
    if step.CheckBlock? { assert ThreadOk(s, step.t); }
  }

  /** The counters move with the sets they count. */
  lemma StepSets(s: State, step: Step)
    requires Inv(s) && Tallied(s) && Enabled(s, step)
    ensures var s' := Apply(s, step);
      && s'.counters.hits == |Routed(s', RHit)| && s'.counters.misses == |Routed(s', RMiss)|
      && s'.counters.total == |Finished(s')| && s'.counters.blocked == |FinishedBlocked(s')|
  {
    var s' := Apply(s, step);
    if step.Lookup? {
      assert ThreadOk(s, step.t);
      LookupCounts(s, step.t, step.now);
      RouteSets(s, s', step.t);
    } else if step.Count? {
      DoneSets(s, s', step.t);
    } else {
      StepAlike(s, step);
      SetsSame(s, s');
    }
  }

  lemma StepWeight(s: State, step: Step)
    requires Inv(s) && Tallied(s) && Enabled(s, step)
    ensures Apply(s, step).counters.coalesced == TotalWeight(Apply(s, step).flights)
  {
    if step.Enter? {
      EnterWeight(s, step.t);
    } else if step.Finish? {
      FinishWeight(s, step.f, step.answer);
    } else if step.Return? {
      ReturnWeight(s, step.t);
    } else {
      FlightsSame(s, step);
    }
  }

  lemma FlightsSame(s: State, step: Step)
    requires Enabled(s, step) && !step.Enter? && !step.Finish? && !step.Return?
    ensures Apply(s, step).flights == s.flights
    ensures Apply(s, step).counters.coalesced == s.counters.coalesced
  {
  }

  lemma EnterWeight(s: State, t: nat)
    requires Inv(s) && Tallied(s) && Enabled(s, Enter(t))
    ensures var s' := Apply(s, Enter(t)); s'.counters.coalesced == TotalWeight(s'.flights)
  {
    var k := s.threads[t].q.Key();
    if k in s.group {
      assert GroupOk(s, k);
      var f := s.group[k];
      var fl := s.flights[f];
      assert FlightOk(s, f);
      var fl' := fl.(callers := fl.callers + {t});
      assert Apply(s, Enter(t)).flights == s.flights[f := fl'];
      assert Weight(fl) == 0 && Weight(fl') == 0;    // nobody is back from a running flight
      WeightUpdate(s.flights, f, fl');
    } else {
      var fl := Flight(k, t, {t}, {}, s.time, None, 0);
      assert Apply(s, Enter(t)).flights == s.flights + [fl];
      WeightSnoc(s.flights, fl);
    }
  }

  lemma FinishWeight(s: State, f: nat, a: Answer)
    requires Tallied(s) && Enabled(s, Finish(f, a))
    ensures var s' := Apply(s, Finish(f, a)); s'.counters.coalesced == TotalWeight(s'.flights)
  {
    var s' := Apply(s, Finish(f, a));
    assert s'.flights == s.flights[f := s'.flights[f]];
    WeightUpdate(s.flights, f, s'.flights[f]);
  }

  lemma ReturnWeight(s: State, t: nat)
    requires Inv(s) && Tallied(s) && Enabled(s, Return(t))
    ensures var s' := Apply(s, Return(t)); s'.counters.coalesced == TotalWeight(s'.flights)
  {
    assert ThreadOk(s, t);
    var f := s.threads[t].flight;
    var fl := s.flights[f];
    var fl' := fl.(returned := fl.returned + {t});
    assert |fl'.returned| == |fl.returned| + 1;
    assert Apply(s, Return(t)).flights == s.flights[f := fl'];
    WeightUpdate(s.flights, f, fl');
  }

  // ------------------------------------------------------- block decisions

  /** The step moves thread t. */
  predicate Moves(step: Step, t: nat) { !step.Swap? && !step.Finish? && step.t == t }

  /** A step that does not move t leaves it as it is, but for its upstream marker. */
  lemma NotMoved(s: State, step: Step, t: nat)
    requires Enabled(s, step) && t in s.threads && !Moves(step, t)
    ensures t in Apply(s, step).threads
    ensures Apply(s, step).threads[t] == s.threads[t].(upstream := Apply(s, step).threads[t].upstream)
  {
  }

  lemma MovedOn(s: State, step: Step, t: nat)
    requires t in s.threads && ThreadOk(s, t) && !s.threads[t].phase.AtBlocklist?
    requires Enabled(s, step) && Moves(step, t)
    ensures t in Apply(s, step).threads
    ensures var th, th' := s.threads[t], Apply(s, step).threads[t];
      && th'.q == th.q && !th'.phase.AtBlocklist? && (th'.route.RBlocked? <==> th.route.RBlocked?)
      && (!th.route.Undecided? ==> Stands(th, th'))
  {
  }

  /** Once past the blocklist, a thread keeps its query and stays blocked or not. */
  lemma StepKeepsDecision(s: State, step: Step, t: nat)
    requires Inv(s) && Enabled(s, step) && t in s.threads && !s.threads[t].phase.AtBlocklist?
    ensures t in Apply(s, step).threads
    ensures var th, th' := s.threads[t], Apply(s, step).threads[t];
      th'.q == th.q && !th'.phase.AtBlocklist? && (th'.route.RBlocked? <==> th.route.RBlocked?)
  {
    assert ThreadOk(s, t);
    if Moves(step, t) { MovedOn(s, step, t); } else { NotMoved(s, step, t); }
  }

  lemma CheckDecides(s: State, t: nat)
    requires Inv(s) && Enabled(s, CheckBlock(t))
    ensures var th := Apply(s, CheckBlock(t)).threads[t];
      th.q == s.threads[t].q && !th.phase.AtBlocklist? && (th.route.RBlocked? <==> Matches(s.matcher, th.q))
  {
    assert ThreadOk(s, t);
  }

  /** From its blocklist check on, whether a query counts as blocked is settled by
      the matcher that was current at the check. */
  lemma {:induction false} DecisionStands(s: State, steps: seq<Step>, i: nat, t: nat)
    requires Inv(s) && Tallied(s) && Legal(s, steps) && i < |steps| && steps[i] == CheckBlock(t)
    ensures Legal(s, steps[..i]) && t in Run(s, steps[..i]).threads && t in Run(s, steps).threads
    ensures var then', th := Run(s, steps[..i]), Run(s, steps).threads[t];
      && th.q == then'.threads[t].q && !th.phase.AtBlocklist?
      && (th.route.RBlocked? <==> Matches(then'.matcher, th.q))
  {
    var n := |steps| - 1;
    RunInv(s, steps[..n]);
    var before := Run(s, steps[..n]);
    if i < n {
      DecisionStands(s, steps[..n], i, t);
      assert steps[..n][..i] == steps[..i];
      StepKeepsDecision(before, steps[n], t);
    } else {
      CheckDecides(before, t);
    }
  }

  /** The NXDOMAIN that a blocked query gets. */
  predicate Synthesised(q: Query, a: Answer) {
    && a.Reply? && a.msg.response && a.msg.rcode == RCODE_NAME_ERROR
    && a.msg.id == q.id && a.msg.question == q.question
    && a.msg.answer == a.msg.ns == a.msg.extra == []
  }

  /** There is a blocklist, the query has one question, and the canonical form of its
      name is an entry or lies under one. */
  ghost predicate Listed(m: Option<set<string>>, q: Query) {
    && m.Some? && |q.question| == 1
    && var name := Canonicalise(q.question[0].name);
       name != "" && exists e :: e in m.value && AtOrUnder(name, e)
  }

  lemma MatchesListed(m: Option<set<string>>, q: Query)
    ensures Matches(m, q) <==> Listed(m, q)
  {
    if m.Some? && |q.question| == 1 { BlockedExactly(m.value, q.question[0].name); }
  }

  /** The outcome a finished query should have, given the matcher that judged it. */
  ghost predicate RightOutcome(m: Option<set<string>>, th: Thread)
    requires th.phase.Done?
  {
    var a, o := th.phase.answer, th.phase.outcome;
    if Listed(m, th.q) then o == OBlocked && Synthesised(th.q, a)
    else if a.Failed? then o == OError
    else if a.msg.rcode == RCODE_NAME_ERROR then o == ONxdomain
    else o == OForwarded
  }

  /** A query that arrived in the run and is past the blocklist was checked. */
  lemma {:induction false} WasChecked(s: State, steps: seq<Step>, t: nat) returns (i: nat)
    requires Legal(s, steps) && t !in s.threads
    requires t in Run(s, steps).threads && !Run(s, steps).threads[t].phase.AtBlocklist?
    ensures i < |steps| && steps[i] == CheckBlock(t)
  {
    var n := |steps| - 1;
    var before := Run(s, steps[..n]);
    if steps[n] == CheckBlock(t) {
      i := n;
    } else {
      if t !in before.threads || before.threads[t].phase.AtBlocklist? {
        StillUnchecked(before, steps[n], t);
      }
      i := WasChecked(s, steps[..n], t);
    }
  }

  lemma StillUnchecked(s: State, step: Step, t: nat)
    requires Enabled(s, step) && step != CheckBlock(t)
    requires t !in s.threads || s.threads[t].phase.AtBlocklist?
    ensures t in Apply(s, step).threads ==> Apply(s, step).threads[t].phase.AtBlocklist?
  {
    if t in s.threads && !Moves(step, t) { NotMoved(s, step, t); }
  }

  /** The check at step i decided query t as it has ended. */
  ghost predicate DecidedBy(s: State, steps: seq<Step>, i: nat, t: nat)
    requires Legal(s, steps) && i < |steps|
    requires t in Run(s, steps).threads && Run(s, steps).threads[t].phase.Done?
  {
    && steps[i] == CheckBlock(t) && Legal(s, steps[..i])
    && RightOutcome(Run(s, steps[..i]).matcher, Run(s, steps).threads[t])
  }

  /** Every query that arrived and finished in a run was checked against the
      blocklist, and that check decided it: a single-question query is answered
      NXDOMAIN with outcome "blocked" exactly when the matcher current then matches
      it, whatever the cache holds; every other query is counted by its reply alone. */
  lemma BlockDecision(s: State, steps: seq<Step>, t: nat)
    requires Inv(s) && Tallied(s) && Legal(s, steps) && t !in s.threads
    requires t in Run(s, steps).threads && Run(s, steps).threads[t].phase.Done?
    ensures exists i: nat :: i < |steps| && DecidedBy(s, steps, i, t)
  {
    var i := WasChecked(s, steps, t);
    DecisionAt(s, steps, i, t);
    assert DecidedBy(s, steps, i, t);
  }

  lemma DecisionAt(s: State, steps: seq<Step>, i: nat, t: nat)
    requires Inv(s) && Tallied(s) && Legal(s, steps) && i < |steps| && steps[i] == CheckBlock(t)
    requires t in Run(s, steps).threads && Run(s, steps).threads[t].phase.Done?
    ensures Legal(s, steps[..i]) && RightOutcome(Run(s, steps[..i]).matcher, Run(s, steps).threads[t])
  {
    DecisionStands(s, steps, i, t);
    RunInv(s, steps);
    assert ThreadOk(Run(s, steps), t);
    MatchesListed(Run(s, steps[..i]).matcher, Run(s, steps).threads[t].q);
  }

  lemma MatcherStep(s: State, step: Step)
    requires Enabled(s, step)
    ensures Apply(s, step).matcher == if step.Swap? then step.matcher else s.matcher
  {
  }

  /** A swap is what every check sees until the next swap. */
  lemma {:induction false} SwapHolds(s: State, steps: seq<Step>, j: nat, m: Option<set<string>>)
    requires Legal(s, steps) && j < |steps| && steps[j] == Swap(m)
    requires forall i :: j < i < |steps| ==> !steps[i].Swap?
    ensures Run(s, steps).matcher == m
  {
    var n := |steps| - 1;
    MatcherStep(Run(s, steps[..n]), steps[n]);
    if j < n { SwapHolds(s, steps[..n], j, m); }
  }

  /** So adding or removing an entry acts on the very next query: a query checked
      at i, after swap j and before any other, is blocked exactly when the entries
      swapped in block its name. */
  lemma SwapActsAtOnce(s: State, steps: seq<Step>, j: nat, i: nat, t: nat, entries: set<string>)
    requires Inv(s) && Tallied(s) && Legal(s, steps) && j < i < |steps|
    requires steps[j] == Swap(Some(entries)) && steps[i] == CheckBlock(t)
    requires forall n :: j < n < i ==> !steps[n].Swap?
    requires t in Run(s, steps).threads && Run(s, steps).threads[t].phase.Done?
    ensures RightOutcome(Some(entries), Run(s, steps).threads[t])
  {
    DecisionAt(s, steps, i, t);
    SwapHolds(s, steps[..i], j, Some(entries));
  }

  /** Nothing synthesised is ever cached: each entry was brought by a finished
      flight for its key, none of whose callers had been blocked. */
  lemma OnlyUpstreamCached(s: State, e: M.Entry)
    requires Reachable(s) && e in s.cache.list
    ensures exists f: nat :: f < |s.flights| && Brought(s.flights[f], e.key, e.msg) && NoneBlocked(s, f)
  {
    ReachableInv(s);
    var f :| 0 <= f < |s.flights| && Brought(s.flights[f], e.key, e.msg);
    assert FlightOk(s, f);
    forall c | c in s.flights[f].callers ensures c in s.threads && !s.threads[c].blocked {
      assert CallerOk(s, f, c) && ThreadOk(s, c);
    }
  }

  predicate NoneBlocked(s: State, f: nat)
    requires f < |s.flights|
  {
    forall c :: c in s.flights[f].callers ==> c in s.threads && !s.threads[c].blocked
  }

  /** Every cache hit is a copy, under the caller's own ID, of a message that the
      next stage returned for the same question up to the case of its name, aged
      by no more than that message's lifetime. */
  lemma HitProvenance(s: State, t: nat)
    requires Reachable(s) && t in s.threads && s.threads[t].route.RHit?
    ensures var th := s.threads[t];
      && th.q.Single() && (th.phase.Answered? || th.phase.Done?)
      && th.phase.answer.Reply? && th.phase.answer.msg.id == th.q.id
      && exists f: nat, elapsed: nat :: f < |s.flights| && AnsweredBy(s, t, f, elapsed)
  {
    ReachableInv(s);
    assert ThreadOk(s, t);
    var th := s.threads[t];
    var m := th.phase.answer.msg;
    var orig, elapsed: nat :| Sourced(s.flights, th.q.Key(), orig) && AgedWithin(s.cfg, orig, elapsed, m);
    var f :| 0 <= f < |s.flights| && Brought(s.flights[f], th.q.Key(), orig);
    LeaderAsked(s, f, th.q);
    assert AnsweredBy(s, t, f, elapsed);
  }

  /** The leader of a flight under q's key asked q's question. */
  lemma LeaderAsked(s: State, f: nat, q: Query)
    requires Inv(s) && f < |s.flights| && q.Single() && s.flights[f].key == q.Key()
    ensures var l := s.flights[f].leader;
      && l in s.threads && s.threads[l].q.Single()
      && SameQuestion(q.question[0], s.threads[l].q.question[0])
  {
    var l := s.flights[f].leader;
    assert FlightOk(s, f) && CallerOk(s, f, l);
    KeyInjective(q.question[0], s.threads[l].q.question[0]);
  }

  /** Flight f asked t's question, and t's reply is its message aged within its lifetime. */
  predicate AnsweredBy(s: State, t: nat, f: nat, elapsed: nat)
    requires t in s.threads && s.threads[t].q.Single()
    requires (s.threads[t].phase.Answered? || s.threads[t].phase.Done?) && s.threads[t].phase.answer.Reply?
    requires f < |s.flights|
  {
    var fl, th := s.flights[f], s.threads[t];
    && fl.leader in s.threads && s.threads[fl.leader].q.Single()
    && SameQuestion(th.q.question[0], s.threads[fl.leader].q.question[0])
    && fl.result.Some? && fl.result.value.Reply?
    && AgedWithin(s.cfg, fl.result.value.msg, elapsed, th.phase.answer.msg)
  }

  // -------------------------------------------- the cache inside the chain

  /** What a step asks of the cache. */
  function CacheOp(s: State, step: Step): seq<M.Op>
    requires Enabled(s, step)
  {
    match step
    case Lookup(t, now) => [M.Get(s.threads[t].q.Key(), now)]
    case StoreReply(t, at) =>
      var reply := s.threads[t].phase.reply;
      var ttl := LifetimeOf(reply, s.cfg);
      if ttl > 0 then [M.Store(s.threads[t].q.Key(), reply, at, ttl)] else []
    case _ => []
  }

  function CacheOps(s: State, steps: seq<Step>): seq<M.Op>
    requires Legal(s, steps)
  {
    if steps == [] then []
    else
      var n := |steps| - 1;
      CacheOps(s, steps[..n]) + CacheOp(Run(s, steps[..n]), steps[n])
  }

  lemma RunSnoc(capacity: int, ops: seq<M.Op>, op: M.Op)
    ensures M.Run(capacity, ops + [op]) == M.Step(M.Run(capacity, ops), op)
  {
    assert (ops + [op])[..|ops|] == ops;
  }

  /** The chain drives the cache by a trace of timed Stores and Gets. */
  lemma {:induction false} CacheIsRun(cfg: Config, capacity: int, matcher: Option<set<string>>, steps: seq<Step>)
    requires Legal(Init(cfg, capacity, matcher), steps)
    ensures var s := Init(cfg, capacity, matcher);
      Run(s, steps).cache == M.Run(capacity, CacheOps(s, steps))
  {
    var s := Init(cfg, capacity, matcher);
    if steps != [] {
      var n := |steps| - 1;
      CacheIsRun(cfg, capacity, matcher, steps[..n]);
      var before, ops := Run(s, steps[..n]), CacheOps(s, steps[..n]);
      var more := CacheOp(before, steps[n]);
      CacheStep(before, steps[n]);
      if more != [] {
        RunSnoc(capacity, ops, more[0]);
        assert ops + more == ops + [more[0]];
      } else {
        assert ops + more == ops;
      }
    }
  }

  lemma CacheStep(s: State, step: Step)
    requires Enabled(s, step)
    ensures |CacheOp(s, step)| <= 1
    ensures Apply(s, step).cache == if CacheOp(s, step) == [] then s.cache else M.Step(s.cache, CacheOp(s, step)[0])
  {
  }

  lemma StepClock(s: State, step: Step)
    requires Enabled(s, step)
    ensures s.clock <= Apply(s, step).clock && Apply(s, step).cfg == s.cfg
    ensures forall op :: op in CacheOp(s, step) ==>
      op.now <= Apply(s, step).clock && (op.Get? ==> s.clock <= op.now)
  {
  }

  /** That trace keeps the clock rule, so all that holds of every clocked trace
      holds of the cache in every run of the chain. */
  lemma {:induction false} ClockHolds(s: State, steps: seq<Step>)
    requires Legal(s, steps)
    ensures H.ClockOk(CacheOps(s, steps)) && Run(s, steps).cfg == s.cfg
    ensures forall i :: 0 <= i < |CacheOps(s, steps)| ==> CacheOps(s, steps)[i].now <= Run(s, steps).clock
  {
    if steps != [] {
      var n := |steps| - 1;
      ClockHolds(s, steps[..n]);
      CacheStep(Run(s, steps[..n]), steps[n]);
      StepClock(Run(s, steps[..n]), steps[n]);
    }
  }

  lemma LookupClock(s: State, steps: seq<Step>, t: nat, now: int)
    requires Legal(s, steps) && Enabled(Run(s, steps), Lookup(t, now))
    ensures H.ClockOk(CacheOps(s, steps) + [M.Get(Run(s, steps).threads[t].q.Key(), now)])
  {
    ClockHolds(s, steps);
  }

  /** In every run, a lookup at time now hits exactly when the key's latest Store,
      made at time at, has not been evicted since and now <= at + its lifetime. */
  lemma HitFromHistory(cfg: Config, capacity: int, matcher: Option<set<string>>, steps: seq<Step>, t: nat, now: int)
    requires Legal(Init(cfg, capacity, matcher), steps)
    requires Enabled(Run(Init(cfg, capacity, matcher), steps), Lookup(t, now))
    ensures var s := Run(Init(cfg, capacity, matcher), steps);
      var k, ops := s.threads[t].q.Key(), CacheOps(Init(cfg, capacity, matcher), steps);
      var i := H.LastStore(ops, k);
      Apply(s, Lookup(t, now)).threads[t].route.RHit? <==>
        i >= 0 && !H.EvictedSince(capacity, ops, i, k) && now <= ops[i].now + ops[i].ttl
  {
    var s0 := Init(cfg, capacity, matcher);
    var k := Run(s0, steps).threads[t].q.Key();
    CacheIsRun(cfg, capacity, matcher, steps);
    LookupClock(s0, steps, t, now);
    H.GetFromHistory(capacity, CacheOps(s0, steps), k, now);
    LookupReply(Run(s0, steps), t, now);
  }

  lemma LookupReply(s: State, t: nat, now: int)
    requires Enabled(s, Lookup(t, now))
    ensures var r := M.Reply(s.cache, M.Get(s.threads[t].q.Key(), now));
      var th, th' := s.threads[t], Apply(s, Lookup(t, now)).threads[t];
      && th'.q == th.q && (th'.route.RHit? <==> r.Some?) && (!th'.route.RHit? ==> th'.route.RMiss?)
      && (r.Some? ==> th'.phase == Answered(Reply(r.value.(id := th.q.id))))
  {
  }

  // ------------------------------------------------ what a hit is worth

  /** Step i of the run offers the cache reply under key k, at clock reading at. */
  predicate StoresAt(s: State, steps: seq<Step>, i: nat, k: string, reply: MsgVal, at: int)
    requires i < |steps|
  {
    && Legal(s, steps[..i]) && steps[i].StoreReply? && steps[i].at == at
    && Enabled(Run(s, steps[..i]), steps[i])
    && var th := Run(s, steps[..i]).threads[steps[i].t];
       th.q.Key() == k && th.phase == AtStore(reply)
  }

  /** Every Store of the trace comes from such a step, for the reply's lifetime. */
  lemma {:induction false} StoreSource(s: State, steps: seq<Step>, n: nat) returns (i: nat)
    requires Legal(s, steps) && n < |CacheOps(s, steps)| && CacheOps(s, steps)[n].Store?
    ensures var op := CacheOps(s, steps)[n];
      i < |steps| && StoresAt(s, steps, i, op.key, op.msg, op.now) && op.ttl == LifetimeOf(op.msg, s.cfg) > 0
  {
    var last := |steps| - 1;
    var init := steps[..last];
    if n < |CacheOps(s, init)| {
      i := StoreSource(s, init, n);
      assert init[..i] == steps[..i] && init[i] == steps[i];
    } else {
      ClockHolds(s, init);
      i := last;
    }
  }

  /** m is reply, stored at time at, as shown at time now: aged by the whole seconds
      between, which its lifetime covers; and every TTL is exact unless the lifetime
      was stretched past it. */
  predicate ShownFor(cfg: Config, reply: MsgVal, at: int, now: int, m: MsgVal) {
    && at <= now && AgedWithin(cfg, reply, now - at, m)
    && (Exact(reply, cfg) ==> TtlsLess(reply, m, (now - at) / M.SECOND))
  }

  /** The message m shown by a lookup at now, for key k, is what step i stored. */
  ghost predicate HitOf(s: State, steps: seq<Step>, i: nat, k: string, now: int, m: MsgVal)
    requires Legal(s, steps) && i < |steps|
  {
    && steps[i].StoreReply? && Legal(s, steps[..i]) && Enabled(Run(s, steps[..i]), steps[i])
    && var reply := Run(s, steps[..i]).threads[steps[i].t].phase.reply;
       && StoresAt(s, steps, i, k, reply, steps[i].at) && Sourced(Run(s, steps).flights, k, reply)
       && ShownFor(s.cfg, reply, steps[i].at, now, m)
  }

  /** A lookup that hits shows a reply that an earlier step of the run stored. */
  lemma HitWhenFound(cfg: Config, capacity: int, matcher: Option<set<string>>, steps: seq<Step>, t: nat, now: int)
    returns (i: nat)
    requires Legal(Init(cfg, capacity, matcher), steps)
    requires Enabled(Run(Init(cfg, capacity, matcher), steps), Lookup(t, now))
    requires Apply(Run(Init(cfg, capacity, matcher), steps), Lookup(t, now)).threads[t].route.RHit?
    ensures var s := Init(cfg, capacity, matcher);
      var th := Apply(Run(s, steps), Lookup(t, now)).threads[t];
      && th.q.Single() && th.phase.Answered? && th.phase.answer.Reply?
      && i < |steps| && HitOf(s, steps, i, th.q.Key(), now, th.phase.answer.msg)
  {
    var s0 := Init(cfg, capacity, matcher);
    var s, ops := Run(s0, steps), CacheOps(s0, steps);
    var k := s.threads[t].q.Key();
    CacheIsRun(cfg, capacity, matcher, steps);
    LookupReply(s, t, now);
    HitFromHistory(cfg, capacity, matcher, steps, t, now);
    var n := H.LastStore(ops, k);
    i := StoreSource(s0, steps, n);
    StoredSourced(cfg, capacity, matcher, steps, k, now);
    LookupClock(s0, steps, t, now);
    ShownFromTrace(capacity, ops, k, now, cfg);
    ShownUnderId(cfg, ops[n].msg, ops[n].now, now, M.Reply(s.cache, M.Get(k, now)).value, s.threads[t].q.id);
  }

  /** What the latest Store of a hit key passed in was brought by a flight. */
  lemma StoredSourced(cfg: Config, capacity: int, matcher: Option<set<string>>, steps: seq<Step>, k: string, now: int)
    requires Legal(Init(cfg, capacity, matcher), steps)
    requires M.Reply(Run(Init(cfg, capacity, matcher), steps).cache, M.Get(k, now)).Some?
    ensures var s := Init(cfg, capacity, matcher);
      var n := H.LastStore(CacheOps(s, steps), k);
      n >= 0 && Sourced(Run(s, steps).flights, k, CacheOps(s, steps)[n].msg)
  {
    var s := Init(cfg, capacity, matcher);
    InitInv(cfg, capacity, matcher);
    RunInv(s, steps);
    CacheIsRun(cfg, capacity, matcher, steps);
    H.HeldFromHistory(capacity, CacheOps(s, steps), k);
    assert EntryOk(Run(s, steps), M.Find(Run(s, steps).cache.list, k));
  }

  lemma ShownFromTrace(capacity: int, ops: seq<M.Op>, k: string, now: int, cfg: Config)
    requires H.ClockOk(ops + [M.Get(k, now)]) && M.Reply(M.Run(capacity, ops), M.Get(k, now)).Some?
    ensures var n := H.LastStore(ops, k);
      n >= 0 && (ops[n].ttl == LifetimeOf(ops[n].msg, cfg) > 0 ==>
        ShownFor(cfg, ops[n].msg, ops[n].now, now, M.Reply(M.Run(capacity, ops), M.Get(k, now)).value))
  {
    var n := H.LastStore(ops, k);
    H.GetFromHistory(capacity, ops, k, now);
    H.LateStaysLate(ops, n, k, now);
    ExactInRuns(capacity, ops, k, now, n, M.Reply(M.Run(capacity, ops), M.Get(k, now)).value, cfg);
  }

  lemma ShownUnderId(cfg: Config, reply: MsgVal, at: int, now: int, m: MsgVal, id: U16)
    requires ShownFor(cfg, reply, at, now, m)
    ensures ShownFor(cfg, reply, at, now, m.(id := id))
  {
    var age := (now - at) / M.SECOND;
    if Exact(reply, cfg) {
      forall j: nat | j < |TtlRecords(m)| ensures TtlLess(reply, m.(id := id), age, j) {
        assert TtlLess(reply, m, age, j);
      }
    }
  }

  /** Once a query's route is settled it stays, and so does the answer once there. */
  lemma StepKeepsAnswer(s: State, step: Step, t: nat)
    requires Inv(s) && Enabled(s, step) && t in s.threads && !s.threads[t].route.Undecided?
    ensures t in Apply(s, step).threads && Stands(s.threads[t], Apply(s, step).threads[t])
  {
    assert ThreadOk(s, t);
    if Moves(step, t) { MovedOn(s, step, t); } else { NotMoved(s, step, t); }
  }

  predicate Stands(th: Thread, th': Thread) {
    && th'.q == th.q && th'.route == th.route
    && (th.phase.Answered? || th.phase.Done? ==>
        (th'.phase.Answered? || th'.phase.Done?) && th'.phase.answer == th.phase.answer)
  }

  lemma {:induction false} AnswerStands(s: State, steps: seq<Step>, j: nat, t: nat)
    requires Inv(s) && Tallied(s) && Legal(s, steps) && j <= |steps| && Legal(s, steps[..j])
    requires t in Run(s, steps[..j]).threads && !Run(s, steps[..j]).threads[t].route.Undecided?
    ensures t in Run(s, steps).threads && Stands(Run(s, steps[..j]).threads[t], Run(s, steps).threads[t])
  {
    if j == |steps| {
      assert steps[..j] == steps;
    } else {
      var n := |steps| - 1;
      assert steps[..n][..j] == steps[..j];
      AnswerStands(s, steps[..n], j, t);
      RunInv(s, steps[..n]);
      StepKeepsAnswer(Run(s, steps[..n]), steps[n], t);
    }
  }

  lemma {:induction false} LegalPrefix(s: State, steps: seq<Step>, j: nat)
    requires Legal(s, steps) && j < |steps|
    ensures Legal(s, steps[..j]) && Enabled(Run(s, steps[..j]), steps[j])
    ensures Legal(s, steps[..j + 1]) && Run(s, steps[..j + 1]) == Apply(Run(s, steps[..j]), steps[j])
  {
    var n := |steps| - 1;
    if j < n {
      LegalPrefix(s, steps[..n], j);
      assert steps[..n][..j] == steps[..j] && steps[..n][..j + 1] == steps[..j + 1];
    } else {
      assert steps[..j + 1] == steps;
    }
  }

  /** In every run: a query looked up at step j that ends as a hit was answered with
      a reply that some earlier step stored under the same key, brought by a flight
      for it, aged by the whole seconds from that store to the lookup and within the
      reply's lifetime.  For a positive answer under MinTTL <= 0 every TTL shown is
      exactly the one the next stage returned minus that age. */
  lemma HitShown(cfg: Config, capacity: int, matcher: Option<set<string>>, steps: seq<Step>, j: nat, t: nat, now: int)
    requires Legal(Init(cfg, capacity, matcher), steps) && j < |steps| && steps[j] == Lookup(t, now)
    requires t in Run(Init(cfg, capacity, matcher), steps).threads
    requires Run(Init(cfg, capacity, matcher), steps).threads[t].route.RHit?
    ensures var s := Init(cfg, capacity, matcher);
      var th := Run(s, steps).threads[t];
      && th.q.Single() && (th.phase.Answered? || th.phase.Done?) && th.phase.answer.Reply?
      && th.phase.answer.msg.id == th.q.id && Legal(s, steps[..j])
      && exists i: nat :: i < j && HitOf(s, steps[..j], i, th.q.Key(), now, th.phase.answer.msg)
  {
    var s := Init(cfg, capacity, matcher);
    InitInv(cfg, capacity, matcher);
    LegalPrefix(s, steps, j);
    var before := Run(s, steps[..j]);
    LookupReply(before, t, now);
    AnswerStands(s, steps, j + 1, t);
    var i := HitWhenFound(cfg, capacity, matcher, steps[..j], t, now);
  }

  // ------------------------------------------------------------ coalescing

  /** What a flight brought is what its one call of the next stage returned. */
  lemma {:induction false} FlightResult(s: State, steps: seq<Step>, f: nat)
    requires Legal(s, steps) && f < |Run(s, steps).flights| && Run(s, steps).flights[f].result.Some?
    requires f < |s.flights| ==> s.flights[f].result.None?
    ensures exists i :: 0 <= i < |steps| && steps[i] == Finish(f, Run(s, steps).flights[f].result.value)
  {
    var n := |steps| - 1;
    var before := Run(s, steps[..n]);
    if steps[n].Finish? && steps[n].f == f {
      assert steps[n] == Finish(f, Run(s, steps).flights[f].result.value);
    } else {
      ResultStays(before, steps[n], f);
      FlightResult(s, steps[..n], f);
      var i :| 0 <= i < n && steps[..n][i] == Finish(f, before.flights[f].result.value);
      assert steps[i] == steps[..n][i];
    }
  }

  lemma ResultStays(s: State, step: Step, f: nat)
    requires Enabled(s, step) && !(step.Finish? && step.f == f)
    requires f < |Apply(s, step).flights| && Apply(s, step).flights[f].result.Some?
    ensures f < |s.flights| && s.flights[f].result == Apply(s, step).flights[f].result
  {
  }

  /** At most one call of the next stage per key is in progress. */
  lemma OneFlightPerKey(s: State, f: nat, g: nat)
    requires Reachable(s) && f < |s.flights| && g < |s.flights|
    requires s.flights[f].result.None? && s.flights[g].result.None? && s.flights[f].key == s.flights[g].key
    ensures f == g
  {
    ReachableInv(s);
    assert FlightOk(s, f) && FlightOk(s, g);
  }

  /** The answer is the result, field for field, but under the given ID; an error is
      passed on as it is. */
  predicate Handed(result: Answer, answer: Answer, id: U16) {
    match result
    case Failed(_) => answer == result
    case Reply(m) =>
      && answer.Reply? && answer.msg.id == id
      && answer.msg.response == m.response && answer.msg.rcode == m.rcode && answer.msg.question == m.question
      && answer.msg.answer == m.answer && answer.msg.ns == m.ns && answer.msg.extra == m.extra
  }

  /** A query that missed and has its answer got it from a flight for its own key
      that overlapped its wait: the flight's result or error, under its own ID. */
  lemma CallerServed(s: State, t: nat)
    requires Reachable(s) && t in s.threads && s.threads[t].route.RMiss?
    requires s.threads[t].phase.Answered? || s.threads[t].phase.Done?
    ensures var th := s.threads[t];
      && th.flight < |s.flights| && th.q.Single()
      && var fl := s.flights[th.flight];
         && fl.key == th.q.Key() && t in fl.callers && t in fl.returned
         && fl.startedAt <= th.joinedAt < fl.endedAt < s.time
         && fl.result.Some? && Handed(fl.result.value, th.phase.answer, th.q.id)
  {
    ReachableInv(s);
    var f := s.threads[t].flight;
    assert ThreadOk(s, t);
    assert FlightOk(s, f) && CallerOk(s, f, t);
  }

  /** A missed query with a reply offered that reply to the cache on its way out; a
      query without exactly one question was answered by the next stage directly, and
      its upstream marker says whether with a reply. */
  lemma {:induction false} Delivered(s: State, steps: seq<Step>, t: nat)
    requires Inv(s) && Tallied(s) && Legal(s, steps) && t !in s.threads && t in Run(s, steps).threads
    requires Run(s, steps).threads[t].phase.Answered? || Run(s, steps).threads[t].phase.Done?
    ensures var th := Run(s, steps).threads[t];
      && (th.route.RMiss? && th.phase.answer.Reply? ==> exists i :: OffersAt(s, steps, i, t, th.phase.answer.msg))
      && (|th.q.question| != 1 ==>
          && (exists i :: 0 <= i < |steps| && steps[i] == Forward(t, th.phase.answer))
          && (th.upstream <==> th.phase.answer.Reply?))
  {
    var n := |steps| - 1;
    var before, after := Run(s, steps[..n]), Run(s, steps);
    RunInv(s, steps[..n]);
    RunInv(s, steps);
    assert ThreadOk(after, t);
    AnsweredStep(before, steps[n], t);
    if t in before.threads && (before.threads[t].phase.Answered? || before.threads[t].phase.Done?) {
      Delivered(s, steps[..n], t);
      var th := before.threads[t];
      if th.route.RMiss? && th.phase.answer.Reply? {
        var i :| OffersAt(s, steps[..n], i, t, th.phase.answer.msg);
        OffersLater(s, steps, n, i, t, th.phase.answer.msg);
      }
      if |th.q.question| != 1 {
        var i :| 0 <= i < n && steps[..n][i] == Forward(t, th.phase.answer);
        assert steps[i] == steps[..n][i];
      }
    } else if steps[n].StoreReply? {
      assert OffersAt(s, steps, n, t, after.threads[t].phase.answer.msg);
    }
  }

  /** Step i offers the cache query t's reply under its key. */
  ghost predicate OffersAt(s: State, steps: seq<Step>, i: int, t: nat, reply: MsgVal) {
    && 0 <= i < |steps| && Legal(s, steps[..i]) && steps[i].StoreReply? && steps[i].t == t
    && t in Run(s, steps[..i]).threads && Run(s, steps[..i]).threads[t].phase == AtStore(reply)
  }

  lemma OffersLater(s: State, steps: seq<Step>, n: nat, i: int, t: nat, reply: MsgVal)
    requires n <= |steps| && OffersAt(s, steps[..n], i, t, reply)
    ensures OffersAt(s, steps, i, t, reply)
  {
    assert steps[..n][..i] == steps[..i] && steps[..n][i] == steps[i];
  }

  /** How a query comes to its answer. */
  lemma AnsweredStep(s: State, step: Step, t: nat)
    requires Inv(s) && Enabled(s, step) && t in Apply(s, step).threads
    requires Apply(s, step).threads[t].phase.Answered? || Apply(s, step).threads[t].phase.Done?
    ensures var th' := Apply(s, step).threads[t];
      if t in s.threads && (s.threads[t].phase.Answered? || s.threads[t].phase.Done?) then
        Stands(s.threads[t], th')
      else
        && t in s.threads && Moves(step, t) && th'.q == s.threads[t].q
        && (th'.route.RMiss? && th'.phase.answer.Reply? ==>
            step.StoreReply? && s.threads[t].phase == AtStore(th'.phase.answer.msg))
        && (|th'.q.question| != 1 ==> step == Forward(t, th'.phase.answer))
  {
    if t in s.threads {
      assert ThreadOk(s, t);
      if !Moves(step, t) { NotMoved(s, step, t); }
    }
  }

  /** A flight sets one upstream marker, its leader's, exactly when it has brought
      a reply; so no two callers of a flight carry one. */
  lemma OneMarkerPerFlight(s: State, f: nat, c: nat)
    requires Reachable(s) && f < |s.flights| && c in s.flights[f].callers
    ensures c in s.threads && s.flights[f].leader in s.flights[f].callers
    ensures s.threads[c].upstream <==>
      c == s.flights[f].leader && s.flights[f].result.Some? && s.flights[f].result.value.Reply?
  {
    ReachableInv(s);
    assert FlightOk(s, f) && CallerOk(s, f, c);
  }

  /** Blocked queries and cache hits never carry an upstream marker. */
  lemma NoMarkerWithoutUpstream(s: State, t: nat)
    requires Reachable(s) && t in s.threads && (s.threads[t].route.RBlocked? || s.threads[t].route.RHit?)
    ensures !s.threads[t].upstream
  {
    ReachableInv(s);
    assert ThreadOk(s, t);
  }

  /** What the coalesced counter should read once everyone is back: nothing for a
      flight of one caller, n for a flight of n callers or more than one. */
  function Coalesced(flights: seq<Flight>): nat {
    if flights == [] then 0
    else
      var n := |flights| - 1;
      Coalesced(flights[..n]) + if |flights[n].callers| >= 2 then |flights[n].callers| else 0
  }

  lemma {:induction false} FullWeight(flights: seq<Flight>)
    requires forall f :: 0 <= f < |flights| ==> flights[f].returned == flights[f].callers
    ensures TotalWeight(flights) == Coalesced(flights)
  {
    if flights != [] { FullWeight(flights[..|flights| - 1]); }
  }

  lemma CoalescedCount(s: State)
    requires Reachable(s) && forall t :: t in s.threads ==> s.threads[t].phase.Done?
    ensures s.counters.coalesced == Coalesced(s.flights)
  {
    ReachableInv(s);
    forall f: nat | f < |s.flights| ensures s.flights[f].returned == s.flights[f].callers {
      assert FlightOk(s, f);
      forall c | c in s.flights[f].callers ensures c in s.flights[f].returned {
        assert CallerOk(s, f, c) && ThreadOk(s, c);
      }
    }
    FullWeight(s.flights);
  }

  // ---------------------------------------------------------- conservation

  function NotSingle(s: State): set<nat> { set t | t in s.threads && |s.threads[t].q.question| != 1 }

  /** When no query is in progress: the queries counted are the blocked ones, the
      cache hits, the cache misses and those without exactly one question. */
  lemma QueriesConserved(s: State)
    requires Reachable(s) && forall t :: t in s.threads ==> s.threads[t].phase.Done?
    ensures s.counters.total == |s.threads|
    ensures s.counters.total == s.counters.blocked + s.counters.hits + s.counters.misses + |NotSingle(s)|
  {
    ReachableInv(s);
    forall t | t in s.threads ensures Classified(s, t) {
      assert ThreadOk(s, t);
    }
    Partition(s);
    FourWays(FinishedBlocked(s), Routed(s, RHit), Routed(s, RMiss), NotSingle(s));
  }

  /** A finished query is blocked, a hit, a miss or without a single question. */
  predicate Classified(s: State, t: nat)
    requires t in s.threads
  {
    var th := s.threads[t];
    && th.phase.Done? && !th.route.Undecided?
    && (th.phase.outcome.OBlocked? <==> th.route.RBlocked?)
    && (!th.q.Single() <==> th.route.RMulti?)
  }

  lemma Partition(s: State)
    requires forall t :: t in s.threads ==> Classified(s, t)
    ensures Finished(s) == s.threads.Keys
    ensures Finished(s) == FinishedBlocked(s) + Routed(s, RHit) + Routed(s, RMiss) + NotSingle(s)
    ensures FinishedBlocked(s) !! Routed(s, RHit) !! Routed(s, RMiss) !! NotSingle(s)
  {
  }

  lemma FourWays<T>(a: set<T>, b: set<T>, c: set<T>, d: set<T>)
    requires a !! b !! c !! d
    ensures |a + b + c + d| == |a| + |b| + |c| + |d|
  {
  }
}
