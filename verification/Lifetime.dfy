/** How long an answer may be cached, and what TTL a client is then shown. */
module Lifetime {
  import opened Dns
  import opened LruModel
  import opened LruHistory

  /** The cache section of the configuration; durations in nanoseconds. */
  datatype Config = Config(minTTL: int, maxTTL: int, negativeTTLMax: int)

  function Min(a: int, b: int): int { if a < b then a else b }
  function Max(a: int, b: int): int { if a < b then b else a }

  // ------------------------------------------------------- findSOA, minTTL

  /** The position of the first SOA record, or the length. */
  function SoaAt(rrs: seq<RRVal>): (i: nat)
    ensures i <= |rrs|
    ensures forall j :: 0 <= j < i ==> !rrs[j].data.Soa?
    ensures i < |rrs| ==> rrs[i].data.Soa?
  {
    if rrs == [] || rrs[0].data.Soa? then 0 else 1 + SoaAt(rrs[1..])
  }

  /** The MINIMUM field of the first SOA record. */
  function FirstSoa(rrs: seq<RRVal>): Option<U32> {
    if SoaAt(rrs) < |rrs| then Some(rrs[SoaAt(rrs)].data.minttl) else None
  }

  method FindSOA(rrs: seq<RRVal>) returns (soa: Option<U32>)
    ensures soa == FirstSoa(rrs)
    ensures soa.None? <==> forall i :: 0 <= i < |rrs| ==> !rrs[i].data.Soa?
    ensures soa.Some? ==> exists i :: FirstSoaAt(rrs, i) && rrs[i].data.minttl == soa.value
  {
    for i := 0 to |rrs|
      invariant forall j :: 0 <= j < i ==> !rrs[j].data.Soa?
    {
      if rrs[i].data.Soa? {
        assert FirstSoaAt(rrs, i);
        return Some(rrs[i].data.minttl);
      }
    }
    return None;
  }

  /** Record i is the first SOA record. */
  predicate FirstSoaAt(rrs: seq<RRVal>, i: int) {
    0 <= i < |rrs| && rrs[i].data.Soa? && forall j :: 0 <= j < i ==> !rrs[j].data.Soa?
  }

  /** The least TTL of a list of records; 0 for no records. */
  function Least(rrs: seq<RRVal>): U32 {
    if rrs == [] then 0
    else
      var n := |rrs| - 1;
      if n == 0 || rrs[n].ttl < Least(rrs[..n]) then rrs[n].ttl else Least(rrs[..n])
  }

  lemma {:induction false} LeastIsLeast(rrs: seq<RRVal>)
    ensures forall i :: 0 <= i < |rrs| ==> Least(rrs) <= rrs[i].ttl
    ensures rrs != [] ==> exists i :: 0 <= i < |rrs| && rrs[i].ttl == Least(rrs)
  {
    if rrs != [] {
      var n := |rrs| - 1;
      LeastIsLeast(rrs[..n]);
      assert forall i :: 0 <= i < n ==> rrs[i] == rrs[..n][i];
      if Least(rrs) != rrs[n].ttl {
        var i :| 0 <= i < n && rrs[..n][i].ttl == Least(rrs[..n]);
        assert rrs[i].ttl == Least(rrs);
      }
    }
  }

  /** One section of the minTTL loop, going on from the records already seen. */
  method ScanSection(section: seq<RRVal>, first: bool, best: U32, ghost seen: seq<RRVal>)
    returns (first': bool, best': U32)
    requires first == (seen == []) && best == Least(seen)
    ensures first' == (seen + section == []) && best' == Least(seen + section)
  {
    first', best' := first, best;
    assert seen + section[..0] == seen;
    for i := 0 to |section|
      invariant first' == (seen + section[..i] == []) && best' == Least(seen + section[..i])
    {
      var t := section[i].ttl;
      ghost var more := seen + section[..i + 1];
      assert more[..|more| - 1] == seen + section[..i];
      if first' || t < best' {
        best' := t;
        first' := false;
      }
    }
    assert section[..|section|] == section;
  }

  /** The record is in the Answer, Ns or Extra section. */
  predicate Carries(m: MsgVal, rr: RRVal) { rr in m.answer || rr in m.ns || rr in m.extra }

  /** least is the smallest TTL that m carries. */
  ghost predicate LeastCarried(m: MsgVal, least: U32) {
    (exists rr :: Carries(m, rr) && rr.ttl == least) && forall rr :: Carries(m, rr) ==> least <= rr.ttl
  }

  lemma LeastOfSections(m: MsgVal)
    ensures (exists rr :: Carries(m, rr)) ==> LeastCarried(m, Least(TtlRecords(m)))
    ensures (forall rr :: !Carries(m, rr)) ==> Least(TtlRecords(m)) == 0
  {
    var rrs := TtlRecords(m);
    LeastIsLeast(rrs);
    forall rr ensures Carries(m, rr) <==> rr in rrs { }
    if rrs != [] {
      var i :| 0 <= i < |rrs| && rrs[i].ttl == Least(rrs);
      assert Carries(m, rrs[i]);
    }
  }

  method MinTTL(m: MsgVal) returns (best: U32)
    ensures best == Least(TtlRecords(m))
    ensures (exists rr :: Carries(m, rr)) ==> LeastCarried(m, best)
    ensures (forall rr :: !Carries(m, rr)) ==> best == 0
  {
    LeastOfSections(m);
    best := 0;
    var first := true;
    first, best := ScanSection(m.answer, first, best, []);
    assert [] + m.answer == m.answer;
    first, best := ScanSection(m.ns, first, best, m.answer);
    first, best := ScanSection(m.extra, first, best, m.answer + m.ns);
    if first {
      return 0;
    }
  }

  // ------------------------------------------------------------ computeTTL

  predicate Negative(m: MsgVal) {
    m.rcode == RCODE_NAME_ERROR || (m.rcode == RCODE_SUCCESS && m.answer == [])
  }

  /** The documented lifetime in nanoseconds; not positive means do not cache. */
  function LifetimeOf(m: MsgVal, cfg: Config): int {
    if Negative(m) then
      match FirstSoa(m.ns)
      case None => 0
      case Some(minimum) => Min(minimum * SECOND, cfg.negativeTTLMax)
    else
      var least := Least(TtlRecords(m));
      if least == 0 then 0 else Max(cfg.minTTL, Min(cfg.maxTTL, least * SECOND))
  }

  method ComputeTTL(m: MsgVal, cfg: Config) returns (ttl: int, negative: bool)
    ensures ttl == LifetimeOf(m, cfg)
    ensures negative <==> m.rcode == 3 || (m.rcode == 0 && m.answer == [])
  {
    negative := m.rcode == RCODE_NAME_ERROR || (m.rcode == RCODE_SUCCESS && |m.answer| == 0);
    if negative {
      var soa := FindSOA(m.ns);
      if soa.Some? {
        ttl := soa.value * SECOND;
        if ttl > cfg.negativeTTLMax {
          ttl := cfg.negativeTTLMax;
        }
        return ttl, true;
      }
      return 0, true;
    }
    var least := MinTTL(m);
    if least == 0 {
      return 0, false;
    }
    ttl := least * SECOND;
    if ttl > cfg.maxTTL {
      ttl := cfg.maxTTL;
    }
    if ttl < cfg.minTTL {
      ttl := cfg.minTTL;
    }
  }

  /** The lifetime of a positive answer in numbers: the least TTL it carries, cut to
      MaxTTL and then raised to MinTTL; nothing for a least TTL of 0 or no records. */
  lemma PositiveLifetime(m: MsgVal, cfg: Config, least: U32)
    requires m.rcode != 3 && (m.rcode != 0 || m.answer != [])
    ensures (forall rr :: !Carries(m, rr)) ==> LifetimeOf(m, cfg) == 0
    ensures LeastCarried(m, least) && least == 0 ==> LifetimeOf(m, cfg) == 0
    ensures LeastCarried(m, least) && least > 0 ==>
      var life, full := LifetimeOf(m, cfg), least * 1_000_000_000;
      if full < cfg.minTTL || cfg.maxTTL < cfg.minTTL then life == cfg.minTTL
      else if full > cfg.maxTTL then life == cfg.maxTTL
      else life == full
  {
    LeastOfSections(m);
    if LeastCarried(m, least) {
      var rr :| Carries(m, rr) && rr.ttl == least;
      var rr' :| Carries(m, rr') && rr'.ttl == Least(TtlRecords(m));
    }
  }

  /** That of a negative answer: the MINIMUM of the first SOA record of the authority
      section, cut to NegativeTTLMax; nothing without one. */
  lemma NegativeLifetime(m: MsgVal, cfg: Config, i: int)
    requires m.rcode == 3 || (m.rcode == 0 && m.answer == [])
    ensures (forall j :: 0 <= j < |m.ns| ==> !m.ns[j].data.Soa?) ==> LifetimeOf(m, cfg) == 0
    ensures FirstSoaAt(m.ns, i) ==>
      var life, full := LifetimeOf(m, cfg), m.ns[i].data.minttl * 1_000_000_000;
      if full > cfg.negativeTTLMax then life == cfg.negativeTTLMax else life == full
  {
  }

  // ------------------------------------------------- what a client is shown

  /** Elapsed time after which the record is shown its own TTL minus whole
      seconds of age, neither floored nor wrapped. */
  predicate ShownExactly(rr: RRVal, elapsed: nat) {
    SatSub(rr.ttl, AgeSeconds(elapsed)) as int == rr.ttl - elapsed / SECOND
  }

  /** While the entry can still be hit, every record is shown exactly. */
  predicate NeverFlooredEarly(m: MsgVal, life: int) {
    forall elapsed: nat, i ::
      elapsed <= life && 0 <= i < |TtlRecords(m)| ==> ShownExactly(TtlRecords(m)[i], elapsed)
  }

  lemma AgeDoesNotWrap(elapsed: nat, bound: nat)
    requires elapsed < bound * SECOND && bound <= 0x1_0000_0000
    ensures elapsed / SECOND < bound && AgeSeconds(elapsed) == elapsed / SECOND
  {
  }

  /** The lifetime ends before the shortest-lived record would be shown below 0. */
  predicate Outlived(m: MsgVal, life: int) { life < (Least(TtlRecords(m)) + 1) * SECOND }

  /** An entry is shown exact TTLs for as long as it can be hit if and only if its
      lifetime is less than one second above its least TTL. */
  lemma ShownExactlyIff(m: MsgVal, life: nat)
    requires TtlRecords(m) != []
    ensures NeverFlooredEarly(m, life) <==> Outlived(m, life)
  {
    var rrs := TtlRecords(m);
    var least := Least(rrs);
    LeastIsLeast(rrs);
    if life < (least + 1) * SECOND {
      forall elapsed: nat, i | elapsed <= life && 0 <= i < |rrs| ensures ShownExactly(rrs[i], elapsed) {
        AgeDoesNotWrap(elapsed, least + 1);
      }
    } else {
      var i :| 0 <= i < |rrs| && rrs[i].ttl == least;
      var late := (least + 1) * SECOND;
      assert late / SECOND == least + 1;
      assert late <= life && !ShownExactly(rrs[i], late);
    }
  }

  /** A cached positive answer is shown exact TTLs for as long as it can be hit
      if and only if MinTTL is less than one second above the least TTL.  With
      MinTTL <= 0 that always holds; a larger MinTTL stretches the lifetime past
      a record's TTL, which is then shown as 0. */
  lemma PositiveShownExactly(m: MsgVal, cfg: Config)
    requires !Negative(m) && LifetimeOf(m, cfg) > 0
    ensures NeverFlooredEarly(m, LifetimeOf(m, cfg)) <==> cfg.minTTL < (Least(TtlRecords(m)) + 1) * SECOND
    ensures Outlived(m, LifetimeOf(m, cfg)) <==> cfg.minTTL < (Least(TtlRecords(m)) + 1) * SECOND
  {
    ShownExactlyIff(m, LifetimeOf(m, cfg));
  }

  /** A cached negative answer is so if and only if the smaller of the SOA MINIMUM
      and NegativeTTLMax is less than one second above the least TTL, the SOA
      record's own among them: the code does not take that TTL into account. */
  lemma NegativeShownExactly(m: MsgVal, cfg: Config)
    requires Negative(m) && LifetimeOf(m, cfg) > 0
    ensures FirstSoa(m.ns).Some?
    ensures NeverFlooredEarly(m, LifetimeOf(m, cfg)) <==>
      Min(FirstSoa(m.ns).value * SECOND, cfg.negativeTTLMax) < (Least(TtlRecords(m)) + 1) * SECOND
  {
    assert m.ns != [];
    ShownExactlyIff(m, LifetimeOf(m, cfg));
  }

  /** A negative answer whose SOA record has TTL 1 and MINIMUM 300 is cached for
      five minutes, and its SOA is shown as 0 after two seconds. */
  lemma NegativeOutlivesSoa()
    ensures var m := MsgVal(0, true, RCODE_NAME_ERROR, [], [], [RRVal("a.", 1, 1, Soa(300))], []);
            var cfg := Config(0, 3600 * SECOND, 300 * SECOND);
            LifetimeOf(m, cfg) == 300 * SECOND && !NeverFlooredEarly(m, LifetimeOf(m, cfg))
  {
    var rr := RRVal("a.", 1, 1, Soa(300));
    var m := MsgVal(0, true, RCODE_NAME_ERROR, [], [], [rr], []);
    var cfg := Config(0, 3600 * SECOND, 300 * SECOND);
    assert TtlRecords(m) == [rr];
    assert Least([rr]) == 1;
    assert SoaAt([rr]) == 0;
    NegativeShownExactly(m, cfg);
  }

  /** The converse side made concrete: one record of TTL 1 under a MinTTL of 60
      seconds is cached for a minute and shown as 0 after two seconds. */
  lemma MinTtlFloorsEarly()
    ensures var m := MsgVal(0, true, RCODE_SUCCESS, [], [RRVal("a.", 1, 1, Plain(1, "x"))], [], []);
            var cfg := Config(60 * SECOND, 3600 * SECOND, 300 * SECOND);
            LifetimeOf(m, cfg) == 60 * SECOND && !NeverFlooredEarly(m, LifetimeOf(m, cfg))
  {
    var rr := RRVal("a.", 1, 1, Plain(1, "x"));
    var m := MsgVal(0, true, RCODE_SUCCESS, [], [rr], [], []);
    var cfg := Config(60 * SECOND, 3600 * SECOND, 300 * SECOND);
    assert TtlRecords(m) == [rr];
    assert Least([rr]) == 1;
    PositiveShownExactly(m, cfg);
  }

  // -------------------------------------------------------- DoH Age header

  /** The DoH client ages every section but the question. */
  function DohAged(m: MsgVal, age: U32): MsgVal {
    m.(answer := AgedRRs(m.answer, age), ns := AgedRRs(m.ns, age), extra := AgedRRs(m.extra, age))
  }

  lemma DohAgedSections(m: MsgVal, age: U32)
    ensures var a := DohAged(m, age);
      && a.id == m.id && a.response == m.response && a.rcode == m.rcode && a.question == m.question
      && OlderBy(m.answer, a.answer, age) && OlderBy(m.ns, a.ns, age) && OlderBy(m.extra, a.extra, age)
  {
  }

  /** The Age handling of Exchange on a decoded message: an absent, unparsable
      or zero header does nothing. */
  method AdjustForAge(msg: Msg, header: Option<U32>)
    requires NoSharing(msg.Records())
    modifies msg.answer + msg.ns + msg.extra
    ensures msg.Value() == if header.Some? then DohAged(old(msg.Value()), header.value) else old(msg.Value())
  {
    ghost var v := msg.Value();
    if header.Some? {
      if header.value > 0 {
        AgeThree(msg, header.value);
      } else {
        AgedByZero(v.answer);
        AgedByZero(v.ns);
        AgedByZero(v.extra);
      }
    }
  }

  lemma AgedByZero(rrs: seq<RRVal>)
    ensures AgedRRs(rrs, 0) == rrs
  {
  }

  method AgeThree(msg: Msg, age: U32)
    requires NoSharing(msg.Records())
    modifies msg.answer + msg.ns + msg.extra
    ensures msg.Value() == DohAged(old(msg.Value()), age)
  {
    var rrs := msg.answer + msg.ns + msg.extra;
    assert msg.Records() == msg.question + rrs;
    NoSharingParts(msg.question, rrs);
    ghost var v := msg.Value();
    SectionsOfThree(msg);
    AgedSections([], v.answer, v.ns, v.extra, age);
    AgeUnshared(rrs, age);
    SectionsOfThree(msg);
    ghost var w := DohAged(v, age);
    SameParts([], Values(msg.answer), Values(msg.ns), Values(msg.extra), AgedRRs([], age), w.answer, w.ns, w.extra);
    forall i | 0 <= i < |msg.question| ensures msg.question[i].Value() == v.question[i] {
      assert msg.question[i] in msg.question;
    }
  }

  lemma SectionsOfThree(m: Msg)
    ensures Values(m.answer + m.ns + m.extra) == [] + Values(m.answer) + Values(m.ns) + Values(m.extra)
  {
  }

  lemma NoSharingParts(a: seq<RR>, b: seq<RR>)
    requires NoSharing(a + b)
    ensures NoSharing(a) && NoSharing(b) && forall rr :: rr in a ==> rr !in b
  {
    var c := a + b;
    forall i, j | 0 <= i < j < |b| ensures b[i] != b[j] {
      assert c[|a| + i] == b[i] && c[|a| + j] == b[j];
    }
    assert forall i :: 0 <= i < |a| ==> c[i] == a[i];
    forall i, j | 0 <= i < |a| && 0 <= j < |b| ensures a[i] != b[j] {
      assert c[i] == a[i] && c[|a| + j] == b[j];
    }
  }

  /** Age subtraction followed by cache ageing is one saturating subtraction of
      the sum, for every record whose TTL counts. */
  lemma DohThenCache(m: MsgVal, age: U32, elapsed: nat, i: nat)
    requires i < |TtlRecords(m)|
    requires elapsed < 0x1_0000_0000 * SECOND
    ensures var shown := Aged(DohAged(m, age), AgeSeconds(elapsed));
      && |TtlRecords(shown)| == |TtlRecords(m)|
      && TtlRecords(shown)[i] == TtlRecords(m)[i].(ttl := SatSub(TtlRecords(m)[i].ttl, age + elapsed / SECOND))
  {
    AgeDoesNotWrap(elapsed, 0x1_0000_0000);
  }

  // -------------------------------------------------------- over whole runs

  /** A hit is the latest Store's message, within its lifetime. */
  lemma HitIs(capacity: int, ops: seq<Op>, k: Key, t: int, i: int)
    requires ClockOk(ops + [Get(k, t)]) && i == LastStore(ops, k)
    requires Reply(Run(capacity, ops), Get(k, t)).Some?
    ensures 0 <= i && ops[i].now <= t <= ops[i].now + ops[i].ttl
    ensures Reply(Run(capacity, ops), Get(k, t)).value ==
      Aged(ops[i].msg, ((t - ops[i].now) / SECOND) % 0x1_0000_0000)
  {
    GetFromHistory(capacity, ops, k, t);
    LateStaysLate(ops, i, k, t);
  }

  /** In every run: record j of a hit at time t shows its stored TTL less the
      whole seconds since the latest Store, floored at 0; and a positive TTL
      never promises a full second more than the stored one did. */
  lemma ShownInRuns(capacity: int, ops: seq<Op>, k: Key, t: int, i: int, j: nat)
    requires ClockOk(ops + [Get(k, t)]) && i == LastStore(ops, k)
    requires Reply(Run(capacity, ops), Get(k, t)).Some?
    ensures 0 <= i && ops[i].now <= t <= ops[i].now + ops[i].ttl
    ensures ops[i].ttl < 0x1_0000_0000 * SECOND && j < |TtlRecords(ops[i].msg)| ==>
      var shown, stored := TtlRecords(Reply(Run(capacity, ops), Get(k, t)).value), TtlRecords(ops[i].msg);
      && |shown| == |stored|
      && shown[j].ttl as int == Max(0, stored[j].ttl - (t - ops[i].now) / SECOND)
      && (shown[j].ttl > 0 ==> t + shown[j].ttl * SECOND < ops[i].now + stored[j].ttl * SECOND + SECOND)
  {
    HitIs(capacity, ops, k, t, i);
    if ops[i].ttl < 0x1_0000_0000 * SECOND && j < |TtlRecords(ops[i].msg)| {
      var age := (t - ops[i].now) / SECOND;
      AgeDoesNotWrap(t - ops[i].now, 0x1_0000_0000);
      assert age % 0x1_0000_0000 == age;
      assert Reply(Run(capacity, ops), Get(k, t)) == Some(Aged(ops[i].msg, age));
      AgedRecord(ops[i].msg, age, j);
      WholeSeconds(t - ops[i].now);
    }
  }

  lemma WholeSeconds(elapsed: nat)
    ensures elapsed < (elapsed / SECOND) * SECOND + SECOND
  {
  }

  lemma AgedRecord(m: MsgVal, age: nat, j: nat)
    requires j < |TtlRecords(m)|
    ensures |TtlRecords(Aged(m, age))| == |TtlRecords(m)|
    ensures TtlRecords(Aged(m, age))[j].ttl == SatSub(TtlRecords(m)[j].ttl, age)
  {
  }

  /** The entry m makes can never be shown below its TTLs minus its age. */
  predicate Exact(m: MsgVal, cfg: Config) {
    (!Negative(m) && cfg.minTTL <= 0) || Outlived(m, LifetimeOf(m, cfg))
  }

  /** Every Answer, Ns and Extra record of m shows its TTL in orig less age. */
  predicate TtlsLess(orig: MsgVal, m: MsgVal, age: nat) {
    |TtlRecords(m)| == |TtlRecords(orig)| && forall j: nat :: j < |TtlRecords(m)| ==> TtlLess(orig, m, age, j)
  }

  predicate TtlLess(orig: MsgVal, m: MsgVal, age: nat, j: nat)
    requires j < |TtlRecords(m)| == |TtlRecords(orig)|
  {
    TtlRecords(m)[j].ttl as int == TtlRecords(orig)[j].ttl - age
  }

  lemma AgedExactly(m: MsgVal, cfg: Config, elapsed: nat)
    requires Exact(m, cfg) && elapsed <= LifetimeOf(m, cfg) && 0 < LifetimeOf(m, cfg)
    ensures TtlsLess(m, Aged(m, (elapsed / SECOND) % 0x1_0000_0000), elapsed / SECOND)
  {
    if !Negative(m) { PositiveShownExactly(m, cfg); }
    AgeDoesNotWrap(elapsed, Least(TtlRecords(m)) + 1);
    var age := elapsed / SECOND;
    assert age % 0x1_0000_0000 == age;
    LeastIsLeast(TtlRecords(m));
    assert |TtlRecords(Aged(m, age))| == |TtlRecords(m)|;
    forall j: nat | j < |TtlRecords(m)| ensures TtlLess(m, Aged(m, age), age, j) {
      AgedRecord(m, age, j);
    }
  }

  /** Whatever is stored for a lifetime that ends before its least TTL runs out is
      shown, on every hit of every run, with exactly its TTLs minus its age.  For
      positive answers MinTTL <= 0 is enough. */
  lemma ExactInRuns(capacity: int, ops: seq<Op>, k: Key, t: int, i: int, shown: MsgVal, cfg: Config)
    requires ClockOk(ops + [Get(k, t)]) && i == LastStore(ops, k)
    requires Reply(Run(capacity, ops), Get(k, t)) == Some(shown)
    ensures 0 <= i && ops[i].now <= t
    ensures Exact(ops[i].msg, cfg) && ops[i].ttl == LifetimeOf(ops[i].msg, cfg) > 0 ==>
      TtlsLess(ops[i].msg, shown, (t - ops[i].now) / SECOND)
  {
    HitIs(capacity, ops, k, t, i);
    StoredExactly(ops[i], t, cfg);
  }

  lemma StoredExactly(op: Op, t: int, cfg: Config)
    requires op.Store? && op.now <= t <= op.now + op.ttl
    ensures Exact(op.msg, cfg) && op.ttl == LifetimeOf(op.msg, cfg) > 0 ==>
      TtlsLess(op.msg, Aged(op.msg, ((t - op.now) / SECOND) % 0x1_0000_0000), (t - op.now) / SECOND)
  {
    if Exact(op.msg, cfg) && op.ttl == LifetimeOf(op.msg, cfg) > 0 {
      AgedExactly(op.msg, cfg, t - op.now);
    }
  }
}
