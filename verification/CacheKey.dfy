/** The cache key of a question: lower-cased name, type and class. */
module CacheKey {
  import opened Dns
  import opened Text

  datatype Question = Question(name: string, qtype: U16, qclass: U16)

  function QuestionOf(q: RRVal): Question { Question(q.name, q.data.Type(), q.cls) }

  function KeyOf(q: Question): string {
    ToLower(q.name) + "|" + Decimal(q.qtype) + "|" + Decimal(q.qclass)
  }

  /** The key, appended piece by piece. */
  method Key(q: RR) returns (sb: string)
    ensures sb == KeyOf(QuestionOf(q.Value()))
  {
    sb := ToLower(q.name);
    sb := sb + ['|'];
    sb := sb + Decimal(q.data.Type());
    sb := sb + ['|'];
    sb := sb + Decimal(q.cls);
  }

  /** The same question up to the case of the name: SOA is type 6, and every other
      record has the type it carries. */
  predicate SameQuestion(p: RRVal, q: RRVal) {
    && ToLower(p.name) == ToLower(q.name) && p.cls == q.cls
    && (if p.data.Soa? then 6 else p.data.rtype) == if q.data.Soa? then 6 else q.data.rtype
  }

  /** Two questions share a key exactly when they are the same up to case; a
      '|' inside a name confuses nothing. */
  lemma KeyInjective(p: RRVal, q: RRVal)
    ensures KeyOf(QuestionOf(p)) == KeyOf(QuestionOf(q)) <==> SameQuestion(p, q)
  {
    if KeyOf(QuestionOf(p)) == KeyOf(QuestionOf(q)) {
      KeyParts(QuestionOf(p), QuestionOf(q));
    }
  }

  lemma KeyParts(p: Question, q: Question)
    requires KeyOf(p) == KeyOf(q)
    ensures ToLower(p.name) == ToLower(q.name) && p.qtype == q.qtype && p.qclass == q.qclass
  {
    var np, nq := ToLower(p.name) + "|" + Decimal(p.qtype), ToLower(q.name) + "|" + Decimal(q.qtype);
    assert np + ['|'] + Decimal(p.qclass) == KeyOf(p) && nq + ['|'] + Decimal(q.qclass) == KeyOf(q);
    CutUnique(np, Decimal(p.qclass), nq, Decimal(q.qclass), '|');
    CutUnique(ToLower(p.name), Decimal(p.qtype), ToLower(q.name), Decimal(q.qtype), '|');
    NumberOfDecimal(p.qclass);
    NumberOfDecimal(q.qclass);
    NumberOfDecimal(p.qtype);
    NumberOfDecimal(q.qtype);
  }
}
