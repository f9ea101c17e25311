/** Capacity inclusion: fed the same timed operations, a smaller cache never
    knows anything that a larger one does not. */
module LruInclusion {
  import opened Dns
  import opened LruModel

  predicate Subseq(a: seq<Entry>, b: seq<Entry>) {
    if a == [] then true
    else if b == [] then false
    else (a[0] == b[0] && Subseq(a[1..], b[1..])) || Subseq(a, b[1..])
  }

  lemma {:induction false} SubseqMembers(a: seq<Entry>, b: seq<Entry>)
    requires Subseq(a, b)
    ensures |a| <= |b|
    ensures forall e :: e in a ==> e in b
  {
    if a != [] {
      assert b == [b[0]] + b[1..];
      if a[0] == b[0] && Subseq(a[1..], b[1..]) {
        assert a == [a[0]] + a[1..];
        SubseqMembers(a[1..], b[1..]);
      } else {
        SubseqMembers(a, b[1..]);
      }
    }
  }

  lemma SubseqCons(e: Entry, a: seq<Entry>, b: seq<Entry>)
    requires Subseq(a, b)
    ensures Subseq([e] + a, [e] + b) && Subseq(a, [e] + b)
  {
    assert ([e] + a)[1..] == a && ([e] + b)[1..] == b;
  }

  /** Removing a key from both sides keeps the inclusion. */
  lemma {:induction false} SubseqWithout(a: seq<Entry>, b: seq<Entry>, k: Key)
    requires Subseq(a, b)
    ensures Subseq(Without(a, k), Without(b, k))
  {
    if a != [] && b != [] {
      var b' := Without(b[1..], k);
      if a[0] == b[0] && Subseq(a[1..], b[1..]) {
        SubseqWithout(a[1..], b[1..], k);
        SubseqCons(a[0], Without(a[1..], k), b');
      } else {
        SubseqWithout(a, b[1..], k);
        SubseqCons(b[0], Without(a, k), b');
      }
    }
  }

  /** Dropping the last element of both, or of the shorter one only. */
  lemma {:induction false} SubseqDropLast(a: seq<Entry>, b: seq<Entry>)
    requires Subseq(a, b) && a != []
    ensures b != []
    ensures Subseq(a[..|a| - 1], b)
    ensures Subseq(a[..|a| - 1], b[..|b| - 1])
  {
    SubseqMembers(a, b);
    var a', b' := a[..|a| - 1], b[..|b| - 1];
    if |a| > 1 {
      SubseqMembers(a, b);
      if a[0] == b[0] && Subseq(a[1..], b[1..]) {
        SubseqDropLast(a[1..], b[1..]);
        assert a'[1..] == a[1..][..|a| - 2] && b'[1..] == b[1..][..|b| - 2];
      } else {
        SubseqDropLast(a, b[1..]);
        assert b'[1..] == b[1..][..|b| - 2];
      }
    }
  }

  /** The relation between the small and the large cache.  It is not a prefix
      relation: a hit that only the large cache scores moves an entry to its front. */
  predicate Included(s: Cache, l: Cache) {
    && Valid(s) && Valid(l) && s.cap <= l.cap
    && Subseq(s.list, l.list)
    && |l.list| - |s.list| <= l.cap - s.cap
  }

  lemma IncludedFinds(s: Cache, l: Cache, k: Key)
    requires Included(s, l) && Has(s.list, k)
    ensures Has(l.list, k) && Find(l.list, k) == Find(s.list, k)
  {
    SubseqMembers(s.list, l.list);
    FindUnique(l.list, Find(s.list, k));
  }

  lemma StepIncluded(s: Cache, l: Cache, op: Op)
    requires Included(s, l)
    ensures Included(Step(s, op), Step(l, op))
    ensures Reply(s, op).Some? ==> Reply(l, op) == Reply(s, op)
  {
    var k := op.key;
    StepValid(s, op);
    StepValid(l, op);
    SubseqWithout(s.list, l.list, k);
    WithoutDistinct(s.list, k);
    WithoutDistinct(l.list, k);
    if Has(s.list, k) { IncludedFinds(s, l, k); }
    if op.Store? {
      SubseqCons(EntryOf(op), Without(s.list, k), Without(l.list, k));
      StoreIncluded(s, l, op);
    } else if Has(l.list, k) {
      SubseqCons(Find(l.list, k), Without(s.list, k), Without(l.list, k));
    }
  }

  lemma StoreIncluded(s: Cache, l: Cache, op: Op)
    requires Included(s, l) && op.Store?
    requires Subseq(Touch(s.list, EntryOf(op)), Touch(l.list, EntryOf(op)))
    requires Has(s.list, op.key) ==> Has(l.list, op.key)
    ensures Subseq(Step(s, op).list, Step(l, op).list)
    ensures |Step(l, op).list| - |Step(s, op).list| <= l.cap - s.cap
  {
    var e := EntryOf(op);
    WithoutDistinct(s.list, op.key);
    WithoutDistinct(l.list, op.key);
    if !Has(s.list, e.key) {
      var s', l' := Touch(s.list, e), Touch(l.list, e);
      assert s' == [e] + s.list;
      SubseqDropLast(s', l');
    }
  }

  lemma {:induction false} RunIncluded(c: int, C: int, ops: seq<Op>)
    requires c <= C
    ensures Included(Run(c, ops), Run(C, ops))
  {
    if ops != [] {
      RunIncluded(c, C, ops[..|ops| - 1]);
      StepIncluded(Run(c, ops[..|ops| - 1]), Run(C, ops[..|ops| - 1]), ops[|ops| - 1]);
    }
  }

  /** For every trace and every pair of capacities: what the small cache holds
      the large one holds, entry for entry and in the same order, and whatever
      the small one answers next the large one answers identically. */
  lemma CapacityInclusion(c: int, C: int, ops: seq<Op>, next: Op)
    requires c <= C
    ensures Subseq(Run(c, ops).list, Run(C, ops).list)
    ensures forall e :: e in Run(c, ops).list ==> e in Run(C, ops).list
    ensures Reply(Run(c, ops), next).Some? ==> Reply(Run(C, ops), next) == Reply(Run(c, ops), next)
  {
    RunIncluded(c, C, ops);
    SubseqMembers(Run(c, ops).list, Run(C, ops).list);
    StepIncluded(Run(c, ops), Run(C, ops), next);
  }
}
