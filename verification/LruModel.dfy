/** The TTL-aware LRU cache as a function on values: a recency list, most
    recently touched first, and the two numbers its observer is told. */
module LruModel {
  import opened Dns

  type Key = string
  const SECOND := 1_000_000_000

  datatype Entry = Entry(key: Key, msg: MsgVal, storedAt: int, expiresAt: int)

  datatype Cache = Cache(cap: nat, list: seq<Entry>, evictions: nat, gauge: nat)

  /** NewLRU: capacities below one are raised to one. */
  function Empty(capacity: int): Cache {
    Cache(if capacity < 1 then 1 else capacity, [], 0, 0)
  }

  predicate Has(l: seq<Entry>, k: Key) {
    exists i :: 0 <= i < |l| && l[i].key == k
  }

  function Without(l: seq<Entry>, k: Key): seq<Entry> {
    if l == [] then [] else if l[0].key == k then Without(l[1..], k) else [l[0]] + Without(l[1..], k)
  }

  function Find(l: seq<Entry>, k: Key): (e: Entry)
    requires Has(l, k)
    ensures e in l && e.key == k
  {
    if l[0].key == k then l[0] else
      assert Has(l[1..], k) by { var i :| 0 <= i < |l| && l[i].key == k; assert l[1..][i - 1].key == k; }
      Find(l[1..], k)
  }

  predicate DistinctKeys(l: seq<Entry>) {
    forall i, j :: 0 <= i < j < |l| ==> l[i].key != l[j].key
  }

  /** The age handed to decrementTTLs: the elapsed time truncated to whole
      seconds and then converted to uint32. */
  function AgeSeconds(elapsed: int): (age: U32) {
    (if elapsed >= 0 then elapsed / SECOND else -((-elapsed) / SECOND)) % 0x1_0000_0000
  }

  function Touch(l: seq<Entry>, e: Entry): seq<Entry> { [e] + Without(l, e.key) }

  function Put(c: Cache, e: Entry): Cache {
    if Has(c.list, e.key) then
      c.(list := Touch(c.list, e))
    else
      var l := [e] + c.list;
      if |l| > c.cap then
        c.(list := l[..c.cap], evictions := c.evictions + (|l| - c.cap), gauge := c.cap)
      else
        c.(list := l, gauge := |l|)
  }

  function Lookup(c: Cache, k: Key, now: int): (Cache, Option<MsgVal>) {
    if !Has(c.list, k) then (c, None)
    else
      var e := Find(c.list, k);
      if now > e.expiresAt then
        var l := Without(c.list, k);
        (c.(list := l, evictions := c.evictions + 1, gauge := |l|), None)
      else
        (c.(list := Touch(c.list, e)), Some(Aged(e.msg, AgeSeconds(now - e.storedAt))))
  }

  // ------------------------------------------------------------ runs

  datatype Op = Store(key: Key, msg: MsgVal, now: int, ttl: int) | Get(key: Key, now: int)

  function EntryOf(op: Op): Entry
    requires op.Store?
  {
    Entry(op.key, op.msg, op.now, op.now + op.ttl)
  }

  function Step(c: Cache, op: Op): Cache {
    if op.Store? then Put(c, EntryOf(op)) else Lookup(c, op.key, op.now).0
  }

  /** What a Get answers; a Store answers nothing. */
  function Reply(c: Cache, op: Op): Option<MsgVal> {
    if op.Store? then None else Lookup(c, op.key, op.now).1
  }

  function Run(capacity: int, ops: seq<Op>): Cache {
    if ops == [] then Empty(capacity) else Step(Run(capacity, ops[..|ops| - 1]), ops[|ops| - 1])
  }

  predicate Valid(c: Cache) {
    c.cap >= 1 && |c.list| <= c.cap && DistinctKeys(c.list) && c.gauge == |c.list|
  }

  // ------------------------------------------------- lists of entries

  lemma {:induction false} WithoutFacts(l: seq<Entry>, k: Key)
    ensures !Has(Without(l, k), k)
    ensures forall x :: x != k ==> (Has(Without(l, k), x) <==> Has(l, x))
    ensures forall e :: e in Without(l, k) <==> e in l && e.key != k
  {
    if l != [] {
      WithoutFacts(l[1..], k);
      var w := Without(l, k);
      assert l == [l[0]] + l[1..];
      forall e ensures e in w <==> e in l && e.key != k {
        assert e in l <==> e == l[0] || e in l[1..];
        assert e in w <==> (e == l[0] && l[0].key != k) || e in Without(l[1..], k);
      }
      forall x | x != k ensures Has(w, x) <==> Has(l, x) {
        HasIn(w, x); HasIn(l, x);
      }
      HasIn(w, k);
    }
  }

  lemma HasIn(l: seq<Entry>, k: Key)
    ensures Has(l, k) <==> exists e :: e in l && e.key == k
  {
    if e :| e in l && e.key == k {
      var i :| 0 <= i < |l| && l[i] == e;
    }
  }

  lemma {:induction false} WithoutDistinct(l: seq<Entry>, k: Key)
    requires DistinctKeys(l)
    ensures DistinctKeys(Without(l, k))
    ensures |Without(l, k)| == if Has(l, k) then |l| - 1 else |l|
    ensures !Has(l, k) ==> Without(l, k) == l
  {
    if l != [] {
      WithoutDistinct(l[1..], k);
      WithoutFacts(l[1..], k);
      var rest := Without(l[1..], k);
      assert l == [l[0]] + l[1..];
      assert !Has(l[1..], l[0].key);
      assert l[0].key == k ==> !Has(l[1..], k);
      if l[0].key != k {
        assert Has(l, k) <==> Has(l[1..], k) by { HasIn(l, k); HasIn(l[1..], k); }
        forall i, j | 0 <= i < j < |rest| + 1 ensures ([l[0]] + rest)[i].key != ([l[0]] + rest)[j].key {
          if i == 0 { assert rest[j - 1] in rest; assert rest[j - 1] in l[1..]; HasIn(l[1..], l[0].key); }
        }
      }
    }
  }

  lemma FindUnique(l: seq<Entry>, e: Entry)
    requires DistinctKeys(l) && e in l
    ensures Has(l, e.key) && Find(l, e.key) == e
  {
    var i :| 0 <= i < |l| && l[i] == e;
    var f := Find(l, e.key);
    var j :| 0 <= j < |l| && l[j] == f;
  }

  // ------------------------------------------------------ single steps

  lemma ConsDistinct(e: Entry, l: seq<Entry>)
    requires DistinctKeys(l) && !Has(l, e.key)
    ensures DistinctKeys([e] + l)
  {
  }

  lemma TouchFacts(l: seq<Entry>, e: Entry)
    requires DistinctKeys(l)
    ensures DistinctKeys(Touch(l, e))
    ensures |Touch(l, e)| == if Has(l, e.key) then |l| else |l| + 1
    ensures !Has(l, e.key) ==> Touch(l, e) == [e] + l
  {
    WithoutDistinct(l, e.key);
    WithoutFacts(l, e.key);
    ConsDistinct(e, Without(l, e.key));
  }

  /** Every operation keeps the capacity bound, the distinctness of keys and
      the agreement of the entries gauge with the length. */
  lemma {:induction false} StepValid(c: Cache, op: Op)
    requires Valid(c)
    ensures Valid(Step(c, op)) && Step(c, op).cap == c.cap
  {
    if op.Store? {
      TouchFacts(c.list, EntryOf(op));
    } else if Has(c.list, op.key) {
      TouchFacts(c.list, Find(c.list, op.key));
      WithoutDistinct(c.list, op.key);
    }
  }

  /** In every run: never more than capacity entries, or one if less was asked for,
      and no two for the same key. */
  lemma {:induction false} RunValid(capacity: int, ops: seq<Op>)
    ensures Valid(Run(capacity, ops))
    ensures Run(capacity, ops).cap == if capacity < 1 then 1 else capacity
    ensures |Run(capacity, ops).list| <= 1 || |Run(capacity, ops).list| <= capacity
  {
    if ops != [] {
      RunValid(capacity, ops[..|ops| - 1]);
      StepValid(Run(capacity, ops[..|ops| - 1]), ops[|ops| - 1]);
    }
  }
}
