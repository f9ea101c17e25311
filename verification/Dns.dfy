/** DNS messages as the cache sees them: an ID, a response code and four
    sections of resource records.  `RRVal` and `MsgVal` are plain values;
    `RR` and `Msg` are the heap objects whose fields callers may overwrite. */
module Dns {
  datatype Option<+T> = None | Some(value: T)

  type U16 = n: nat | n < 0x1_0000
  type U32 = n: nat | n < 0x1_0000_0000

  const RCODE_SUCCESS: U16 := 0
  const RCODE_NAME_ERROR: U16 := 3
  const TYPE_SOA: U16 := 6

  /** The concrete Go type of a record fixes its DNS type. */
  datatype RData = Soa(minttl: U32) | Plain(rtype: U16, rdata: string) {
    function Type(): U16 { if Soa? then TYPE_SOA else rtype }
  }

  datatype RRVal = RRVal(name: string, cls: U16, ttl: U32, data: RData)

  datatype MsgVal = MsgVal(id: U16, response: bool, rcode: U16,
                           question: seq<RRVal>, answer: seq<RRVal>, ns: seq<RRVal>, extra: seq<RRVal>)

  /** Subtraction that floors at zero. */
  function SatSub(ttl: U32, age: nat): (r: U32)
    ensures r as int == if ttl - age > 0 then ttl - age else 0
  {
    if ttl > age then ttl - age else 0
  }

  function AgedRRs(rrs: seq<RRVal>, age: nat): (r: seq<RRVal>)
    ensures |r| == |rrs|
  {
    seq(|rrs|, i requires 0 <= i < |rrs| => rrs[i].(ttl := SatSub(rrs[i].ttl, age)))
  }

  /** What the cache hands out: every record of every section aged. */
  function Aged(m: MsgVal, age: nat): MsgVal {
    m.(question := AgedRRs(m.question, age), answer := AgedRRs(m.answer, age),
       ns := AgedRRs(m.ns, age), extra := AgedRRs(m.extra, age))
  }

  /** later is earlier with every TTL reduced by age, floored at 0, and nothing else changed. */
  predicate OlderBy(earlier: seq<RRVal>, later: seq<RRVal>, age: nat) {
    && |later| == |earlier|
    && forall i :: 0 <= i < |later| ==>
         && later[i].name == earlier[i].name && later[i].cls == earlier[i].cls && later[i].data == earlier[i].data
         && later[i].ttl as int == if earlier[i].ttl > age then earlier[i].ttl - age else 0
  }

  /** Ageing changes the TTLs of all four sections and nothing else. */
  lemma AgedEverywhere(m: MsgVal, age: nat)
    ensures var a := Aged(m, age);
      && a.id == m.id && a.response == m.response && a.rcode == m.rcode
      && OlderBy(m.question, a.question, age) && OlderBy(m.answer, a.answer, age)
      && OlderBy(m.ns, a.ns, age) && OlderBy(m.extra, a.extra, age)
  {
  }

  /** Records whose TTL counts towards a lifetime: all sections but the question. */
  function TtlRecords(m: MsgVal): seq<RRVal> { m.answer + m.ns + m.extra }

  // ---------------------------------------------------------------- heap

  class RR {
    var name: string
    var cls: U16
    var ttl: U32
    var data: RData

    constructor (v: RRVal)
      ensures Value() == v
    {
      name, cls, ttl, data := v.name, v.cls, v.ttl, v.data;
    }

    function Value(): RRVal
      reads this
    {
      RRVal(name, cls, ttl, data)
    }

    method Clone() returns (r: RR)
      ensures fresh(r) && r.Value() == Value()
    {
      r := new RR(Value());
    }
  }

  function Values(rrs: seq<RR>): (vs: seq<RRVal>)
    reads rrs
    ensures |vs| == |rrs| && forall i :: 0 <= i < |rrs| ==> vs[i] == rrs[i].Value()
  {
    seq(|rrs|, i requires 0 <= i < |rrs| reads rrs => rrs[i].Value())
  }

  class Msg {
    var id: U16
    var response: bool
    var rcode: U16
    var question: seq<RR>
    var answer: seq<RR>
    var ns: seq<RR>
    var extra: seq<RR>

    constructor (id: U16, response: bool, rcode: U16,
                 question: seq<RR>, answer: seq<RR>, ns: seq<RR>, extra: seq<RR>)
      ensures this.id == id && this.response == response && this.rcode == rcode
      ensures this.question == question && this.answer == answer && this.ns == ns && this.extra == extra
    {
      this.id, this.response, this.rcode := id, response, rcode;
      this.question, this.answer, this.ns, this.extra := question, answer, ns, extra;
    }

    /** All records, in the order the section loops visit them. */
    function Records(): seq<RR>
      reads this
    {
      question + answer + ns + extra
    }

    function Value(): MsgVal
      reads this, question, answer, ns, extra
    {
      MsgVal(id, response, rcode, Values(question), Values(answer), Values(ns), Values(extra))
    }

    /** The objects whose fields this message's value depends on. */
    ghost function Footprint(): set<object>
      reads this
    {
      {this as object} + (set rr | rr in Records() :: rr as object)
    }

    /** The whole footprint lies in s. */
    ghost predicate Within(s: set<object>)
      reads this
    {
      && this in s
      && (forall rr :: rr in question ==> rr in s) && (forall rr :: rr in answer ==> rr in s)
      && (forall rr :: rr in ns ==> rr in s) && (forall rr :: rr in extra ==> rr in s)
    }
  }

  lemma WithinOwn(m: Msg)
    ensures m.Within(m.Footprint())
  {
    forall rr | rr in m.question || rr in m.answer || rr in m.ns || rr in m.extra ensures rr in m.Records() {
    }
  }

  /** No record object occurs twice. */
  ghost predicate NoSharing(rrs: seq<RR>) {
    forall i, j :: 0 <= i < j < |rrs| ==> rrs[i] != rrs[j]
  }

  lemma NoSharingAppend(a: seq<RR>, b: seq<RR>)
    requires NoSharing(a) && NoSharing(b)
    requires forall x :: x in a ==> x !in b
    ensures NoSharing(a + b)
  {
    var c := a + b;
    forall i, j | 0 <= i < j < |c| ensures c[i] != c[j] {
      assert i < |a| ==> c[i] in a;
      assert j >= |a| ==> c[j] in b;
    }
  }

  method CloneRRs(src: seq<RR>) returns (dst: seq<RR>)
    ensures fresh(dst) && NoSharing(dst) && |dst| == |src|
    ensures Values(dst) == Values(src)
  {
    dst := [];
    for i := 0 to |src|
      invariant |dst| == i && fresh(dst) && NoSharing(dst)
      invariant forall j :: 0 <= j < i ==> dst[j].Value() == src[j].Value()
    {
      var rr := src[i].Clone();
      dst := dst + [rr];
    }
  }

  /** Two sections cloned one after the other share nothing. */
  method CloneTwo(src: seq<RR>, src': seq<RR>) returns (dst: seq<RR>, dst': seq<RR>)
    ensures fresh(dst) && fresh(dst') && NoSharing(dst + dst')
    ensures Values(dst) == Values(src) && Values(dst') == Values(src')
  {
    dst := CloneRRs(src);
    dst' := CloneRRs(src');
    NoSharingAppend(dst, dst');
  }

  /** Field by field the same records, in the same order. */
  ghost predicate Twins(a: seq<RR>, b: seq<RR>)
    reads a, b
  {
    && |a| == |b|
    && forall i :: 0 <= i < |a| ==>
         a[i].name == b[i].name && a[i].cls == b[i].cls && a[i].ttl == b[i].ttl && a[i].data == b[i].data
  }

  lemma EqualValuesTwins(a: seq<RR>, b: seq<RR>)
    requires Values(a) == Values(b)
    ensures Twins(a, b)
  {
    forall i | 0 <= i < |a| ensures a[i].Value() == b[i].Value() {
      assert Values(a)[i] == Values(b)[i];
    }
  }

  /** A deep copy: equal in value, sharing no object with anything that existed
      before, nor any record between or within its own sections. */
  method CloneMsg(m: Msg) returns (cp: Msg)
    ensures fresh(cp.Footprint()) && fresh(cp.Records()) && NoSharing(cp.Records())
    ensures cp.Value() == m.Value()
    ensures cp.id == m.id && cp.response == m.response && cp.rcode == m.rcode
    ensures Twins(cp.question, m.question) && Twins(cp.answer, m.answer)
    ensures Twins(cp.ns, m.ns) && Twins(cp.extra, m.extra)
  {
    var q, a, n, e := CloneFour(m.question, m.answer, m.ns, m.extra);
    cp := new Msg(m.id, m.response, m.rcode, q, a, n, e);
    EqualValuesTwins(q, m.question);
    EqualValuesTwins(a, m.answer);
    EqualValuesTwins(n, m.ns);
    EqualValuesTwins(e, m.extra);
  }

  /** The four sections of a message, cloned one after the other. */
  method CloneFour(q: seq<RR>, a: seq<RR>, n: seq<RR>, e: seq<RR>)
    returns (q': seq<RR>, a': seq<RR>, n': seq<RR>, e': seq<RR>)
    ensures fresh(q') && fresh(a') && fresh(n') && fresh(e') && NoSharing(q' + a' + n' + e')
    ensures Values(q') == Values(q) && Values(a') == Values(a)
    ensures Values(n') == Values(n) && Values(e') == Values(e)
  {
    q', a' := CloneTwo(q, a);
    n', e' := CloneTwo(n, e);
    NoSharingAppend(q' + a', n' + e');
    assert q' + a' + n' + e' == (q' + a') + (n' + e');
  }

  /** `SatSub` applied n times. */
  function SatSubTimes(ttl: U32, age: nat, n: nat): U32 {
    if n == 0 then ttl else SatSub(SatSubTimes(ttl, age, n - 1), age)
  }

  /** Subtract `age` from the TTL of each record.  A record object listed n times
      is aged n times, which is why the caller must pass an unshared copy. */
  method DecrementTTLs(rrs: seq<RR>, age: U32)
    modifies rrs
    ensures forall rr :: rr in rrs ==>
      rr.Value() == old(rr.Value()).(ttl := SatSubTimes(old(rr.ttl), age, multiset(rrs)[rr]))
  {
    for i := 0 to |rrs|
      invariant forall rr :: rr in rrs ==>
        rr.Value() == old(rr.Value()).(ttl := SatSubTimes(old(rr.ttl), age, multiset(rrs[..i])[rr]))
    {
      var rr := rrs[i];
      assert rrs[..i + 1] == rrs[..i] + [rr];
      if rr.ttl > age {
        rr.ttl := rr.ttl - age;
      } else {
        rr.ttl := 0;
      }
    }
    assert rrs[..|rrs|] == rrs;
  }

  lemma UnsharedCount(rrs: seq<RR>, i: nat)
    requires NoSharing(rrs) && i < |rrs|
    ensures multiset(rrs)[rrs[i]] == 1
  {
    assert rrs == rrs[..i] + [rrs[i]] + rrs[i + 1..];
    assert rrs[i] !in rrs[..i] && rrs[i] !in rrs[i + 1..];
  }

  method AgeUnshared(rrs: seq<RR>, age: U32)
    requires NoSharing(rrs)
    modifies rrs
    ensures Values(rrs) == AgedRRs(old(Values(rrs)), age)
  {
    DecrementTTLs(rrs, age);
    forall i | 0 <= i < |rrs|
      ensures rrs[i].Value() == old(rrs[i].Value()).(ttl := SatSub(old(rrs[i].ttl), age))
    {
      UnsharedCount(rrs, i);
      SatSubOnce(old(rrs[i].ttl), age);
    }
  }

  lemma SatSubOnce(ttl: U32, age: nat)
    ensures SatSubTimes(ttl, age, 1) == SatSub(ttl, age)
  {
    assert SatSubTimes(ttl, age, 0) == ttl;
  }

  lemma SectionsOf(m: Msg)
    ensures Values(m.Records()) == Values(m.question) + Values(m.answer) + Values(m.ns) + Values(m.extra)
  {
  }

  lemma AgedSections(q: seq<RRVal>, a: seq<RRVal>, n: seq<RRVal>, e: seq<RRVal>, age: nat)
    ensures AgedRRs(q + a + n + e, age) == AgedRRs(q, age) + AgedRRs(a, age) + AgedRRs(n, age) + AgedRRs(e, age)
  {
  }

  /** Ageing an unshared message ages its value, once per record. */
  method AgeMsg(m: Msg, age: U32)
    requires NoSharing(m.Records())
    modifies m.Records()
    ensures m.Value() == Aged(old(m.Value()), age)
  {
    SectionsOf(m);
    ghost var v := m.Value();
    AgedSections(v.question, v.answer, v.ns, v.extra, age);
    AgeUnshared(m.Records(), age);
    SectionsOf(m);
    ghost var w := Aged(v, age);
    SameParts(Values(m.question), Values(m.answer), Values(m.ns), Values(m.extra),
              w.question, w.answer, w.ns, w.extra);
  }

  lemma SameParts<T>(q: seq<T>, a: seq<T>, n: seq<T>, e: seq<T>, q': seq<T>, a': seq<T>, n': seq<T>, e': seq<T>)
    requires |q| == |q'| && |a| == |a'| && |n| == |n'| && |e| == |e'|
    requires q + a + n + e == q' + a' + n' + e'
    ensures q == q' && a == a' && n == n' && e == e'
  {
    var s, s' := q + a + n + e, q' + a' + n' + e';
    var i, j := |q| + |a|, |q| + |a| + |n|;
    assert q == s[..|q|] && q' == s'[..|q|];
    assert a == s[|q|..i] && a' == s'[|q|..i];
    assert n == s[i..j] && n' == s'[i..j];
    assert e == s[j..] && e' == s'[j..];
  }

  /** A deep copy of m, aged; mv is what m is worth. */
  method AgedCopy(m: Msg, ghost mv: MsgVal, age: U32) returns (cp: Msg)
    requires m.Value() == mv
    ensures fresh(cp.Footprint())
    ensures cp.Value() == Aged(mv, age)
  {
    cp := CloneMsg(m);
    AgeMsg(cp, age);
  }

  /** resp.ID = id. */
  method Stamp(m: Msg, ghost v: MsgVal, id: U16)
    requires m.Value() == v
    modifies m`id
    ensures m.Value() == v.(id := id) && m.Footprint() == old(m.Footprint())
  {
    m.id := id;
  }
}
