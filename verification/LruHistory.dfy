/** The cache told from its history alone: which key was touched last, what a
    Get answers, and what the counters add up to. */
module LruHistory {
  import opened Dns
  import opened LruModel

  /** The key an operation promotes: every Store, and every Get that hits. */
  function TouchedKey(c: Cache, op: Op): Option<Key> {
    if op.Store? || Reply(c, op).Some? then Some(op.key) else None
  }

  /** Index of the last operation that touched k, or -1. */
  function LastTouch(capacity: int, ops: seq<Op>, k: Key): (i: int)
    ensures -1 <= i < |ops|
  {
    if ops == [] then -1
    else
      var init := ops[..|ops| - 1];
      if TouchedKey(Run(capacity, init), ops[|ops| - 1]) == Some(k) then |ops| - 1
      else LastTouch(capacity, init, k)
  }

  /** The key that operation j of a run promotes. */
  function TouchAt(capacity: int, ops: seq<Op>, j: nat): Option<Key>
    requires j < |ops|
  {
    TouchedKey(Run(capacity, ops[..j]), ops[j])
  }

  /** The keys touched by the operations after index i. */
  function TouchedAfter(capacity: int, ops: seq<Op>, i: int): set<Key> {
    set j | 0 <= j < |ops| && i < j && TouchAt(capacity, ops, j).Some? :: TouchAt(capacity, ops, j).value
  }

  /** What happens at step j does not depend on the steps after it. */
  lemma StepOfPrefix(capacity: int, ops: seq<Op>, n: nat, j: nat)
    requires j < n <= |ops|
    ensures TouchAt(capacity, ops[..n], j) == TouchAt(capacity, ops, j)
    ensures forall k :: EvictsAt(capacity, ops[..n], j, k) == EvictsAt(capacity, ops, j, k)
  {
    assert ops[..n][..j] == ops[..j];
  }

  // ------------------------------------------------------ recency order

  predicate Descending(l: seq<Entry>, rank: Key -> int) {
    forall i, j :: 0 <= i < j < |l| ==> rank(l[i].key) > rank(l[j].key)
  }

  lemma {:induction false} DescendingWithout(l: seq<Entry>, k: Key, rank: Key -> int)
    requires Descending(l, rank)
    ensures Descending(Without(l, k), rank)
  {
    if l != [] {
      DescendingWithout(l[1..], k, rank);
      var rest := Without(l[1..], k);
      WithoutFacts(l[1..], k);
      forall j | 0 <= j < |rest| ensures rank(l[0].key) > rank(rest[j].key) {
        assert rest[j] in rest;
        assert rest[j] in l[1..];
      }
    }
  }

  lemma DescendingCons(e: Entry, l: seq<Entry>, rank: Key -> int)
    requires Descending(l, rank) && forall i :: 0 <= i < |l| ==> rank(l[i].key) < rank(e.key)
    ensures Descending([e] + l, rank)
  {
  }

  function Rank(capacity: int, ops: seq<Op>): Key -> int {
    k => LastTouch(capacity, ops, k)
  }

  predicate InRecencyOrder(capacity: int, ops: seq<Op>, l: seq<Entry>) {
    && Descending(l, Rank(capacity, ops))
    && forall i :: 0 <= i < |l| ==> Rank(capacity, ops)(l[i].key) >= 0
  }

  /** The list is the keys in the order of their last touch, latest first. */
  lemma {:induction false} RecencyOrder(capacity: int, ops: seq<Op>)
    ensures InRecencyOrder(capacity, ops, Run(capacity, ops).list)
  {
    if ops != [] {
      var n := |ops| - 1;
      var init, op := ops[..n], ops[n];
      var c := Run(capacity, init);
      RecencyOrder(capacity, init);
      RunValid(capacity, init);
      StepRecency(capacity, init, op);
      assert ops == init + [op];
    }
  }

  /** Entries other than k's keep rank and order when k is taken out. */
  lemma RestRecency(capacity: int, ops: seq<Op>, l: seq<Entry>, k: Key)
    requires InRecencyOrder(capacity, ops, l)
    ensures InRecencyOrder(capacity, ops, Without(l, k))
    ensures forall e :: e in Without(l, k) ==> e.key != k
  {
    DescendingWithout(l, k, Rank(capacity, ops));
    WithoutFacts(l, k);
    var rest := Without(l, k);
    assert forall i :: 0 <= i < |rest| ==> rest[i] in rest && rest[i] in l;
  }

  /** One more operation changes the rank of its own key only. */
  lemma RankStep(capacity: int, init: seq<Op>, op: Op, l: seq<Entry>)
    requires InRecencyOrder(capacity, init, l)
    requires TouchedKey(Run(capacity, init), op).None? || forall e :: e in l ==> e.key != op.key
    ensures InRecencyOrder(capacity, init + [op], l)
    ensures forall i :: 0 <= i < |l| ==> Rank(capacity, init + [op])(l[i].key) < |init|
  {
    assert (init + [op])[..|init|] == init;
    forall i | 0 <= i < |l| ensures Rank(capacity, init + [op])(l[i].key) == Rank(capacity, init)(l[i].key) {
      assert l[i] in l;
    }
  }

  lemma StepRecency(capacity: int, init: seq<Op>, op: Op)
    requires Valid(Run(capacity, init))
    requires InRecencyOrder(capacity, init, Run(capacity, init).list)
    ensures InRecencyOrder(capacity, init + [op], Step(Run(capacity, init), op).list)
  {
    var c := Run(capacity, init);
    var rest := Without(c.list, op.key);
    RestRecency(capacity, init, c.list, op.key);
    RankStep(capacity, init, op, rest);
    if TouchedKey(c, op).Some? {
      var e := if op.Store? then EntryOf(op) else Find(c.list, op.key);
      assert Rank(capacity, init + [op])(e.key) == |init| by { assert (init + [op])[..|init|] == init; }
      DescendingCons(e, rest, Rank(capacity, init + [op]));
      assert Step(c, op).list <= Touch(c.list, e) by { TouchFacts(c.list, e); }
    } else {
      RankStep(capacity, init, op, c.list);
    }
  }

  // ------------------------------------------------------ LRU guarantee

  lemma {:induction false} LastTouchTouches(capacity: int, ops: seq<Op>, k: Key)
    ensures var i := LastTouch(capacity, ops, k);
            i >= 0 ==> TouchAt(capacity, ops, i) == Some(k)
    ensures forall j :: LastTouch(capacity, ops, k) < j < |ops| && 0 <= j ==> TouchAt(capacity, ops, j) != Some(k)
  {
    if ops != [] {
      var n := |ops| - 1;
      LastTouchTouches(capacity, ops[..n], k);
      forall j | 0 <= j < n ensures TouchAt(capacity, ops[..n], j) == TouchAt(capacity, ops, j) {
        StepOfPrefix(capacity, ops, n, j);
      }
    }
  }

  function Keys(l: seq<Entry>): set<Key> { set i | 0 <= i < |l| :: l[i].key }

  lemma {:induction false} KeysSize(l: seq<Entry>)
    requires DistinctKeys(l)
    ensures |Keys(l)| == |l|
  {
    if l == [] {
      assert Keys(l) == {};
    } else {
      var n := |l| - 1;
      KeysSize(l[..n]);
      assert Keys(l) == Keys(l[..n]) + {l[n].key};
    }
  }

  /** Store pushes k out of the cache. */
  predicate Evicts(c: Cache, op: Op, k: Key) {
    op.Store? && Has(c.list, k) && !Has(Step(c, op).list, k)
  }

  /** Operation j of a run pushes k out. */
  predicate EvictsAt(capacity: int, ops: seq<Op>, j: nat, k: Key)
    requires j < |ops|
  {
    Evicts(Run(capacity, ops[..j]), ops[j], k)
  }

  /** Least recently used: a key falls to capacity pressure only once at least
      capacity distinct other keys have been stored or hit since it last was. */
  lemma EvictionNeedsCapacityTouches(capacity: int, ops: seq<Op>, op: Op, k: Key)
    requires Evicts(Run(capacity, ops), op, k)
    ensures var after := TouchedAfter(capacity, ops + [op], LastTouch(capacity, ops + [op], k));
            k !in after && |after| >= capacity && |after| >= 1
  {
    var c, all := Run(capacity, ops), ops + [op];
    var c' := Step(c, op);
    assert all[..|ops|] == ops;
    RunValid(capacity, ops);
    RunValid(capacity, all);
    RecencyOrder(capacity, all);
    var t := LastTouch(capacity, all, k);
    LastTouchTouches(capacity, all, k);
    EvictedIsLast(c, op, k);
    RecencyOrder(capacity, ops);
    var after := TouchedAfter(capacity, all, t);
    forall i | 0 <= i < |c'.list| ensures c'.list[i].key in after {
      var x := c'.list[i].key;
      LastTouchTouches(capacity, all, x);
      if i > 0 {
        assert Rank(capacity, ops)(c.list[i - 1].key) > Rank(capacity, ops)(k);
      }
    }
    assert Keys(c'.list) <= after;
    KeysSize(c'.list);
    SubsetSize(Keys(c'.list), after);
  }

  lemma ReplacingKeeps(l: seq<Entry>, e: Entry, k: Key)
    requires Has(l, e.key) && Has(l, k)
    ensures Has(Touch(l, e), k)
  {
    WithoutFacts(l, e.key);
    var l' := Touch(l, e);
    assert l'[0] == e && l'[1..] == Without(l, e.key);
    if k != e.key {
      var i :| 0 <= i < |Without(l, e.key)| && Without(l, e.key)[i].key == k;
      assert l'[i + 1].key == k;
    }
  }

  lemma EvictedIsLast(c: Cache, op: Op, k: Key)
    requires Valid(c) && Evicts(c, op, k)
    ensures |c.list| == c.cap && c.list[c.cap - 1].key == k
    ensures Step(c, op).list == [EntryOf(op)] + c.list[..c.cap - 1]
    ensures op.key != k
  {
    var l := Step(c, op).list;
    assert !Has(c.list, op.key) by {
      if Has(c.list, op.key) { ReplacingKeeps(c.list, EntryOf(op), k); }
    }
    assert forall i :: 0 <= i < |c.list| && i + 1 < |l| ==> l[i + 1] == c.list[i];
    var i :| 0 <= i < |c.list| && c.list[i].key == k;
    assert i + 1 >= |l|;
  }

  lemma SubsetSize<T>(a: set<T>, b: set<T>)
    requires a <= b
    ensures |a| <= |b|
  {
    assert b == a + (b - a);
  }

  // ------------------------------------------ what a Get answers

  function LastStore(ops: seq<Op>, k: Key): (i: int)
    ensures -1 <= i < |ops|
    ensures i >= 0 ==> ops[i].Store? && ops[i].key == k
    ensures forall j :: i < j < |ops| && ops[j].Store? ==> ops[j].key != k
  {
    if ops == [] then -1
    else
      var n := |ops| - 1;
      if ops[n].Store? && ops[n].key == k then n else LastStore(ops[..n], k)
  }

  predicate EvictedSince(capacity: int, ops: seq<Op>, i: int, k: Key) {
    exists j :: i < j < |ops| && 0 <= j && EvictsAt(capacity, ops, j, k)
  }

  /** Some Get for k after i came too late for the entry that Store i made. */
  predicate ExpiredSince(ops: seq<Op>, i: int, k: Key)
    requires 0 <= i < |ops| && ops[i].Store?
  {
    exists j :: i < j < |ops| && ops[j].Get? && ops[j].key == k && ops[j].now > EntryOf(ops[i]).expiresAt
  }

  predicate Live(capacity: int, ops: seq<Op>, k: Key) {
    var i := LastStore(ops, k);
    i >= 0 && !EvictedSince(capacity, ops, i, k) && !ExpiredSince(ops, i, k)
  }

  /** A key is held exactly when its latest Store has neither been evicted nor
      found expired since, and what is held is what that Store passed in. */
  lemma {:induction false} HeldFromHistory(capacity: int, ops: seq<Op>, k: Key)
    ensures Has(Run(capacity, ops).list, k) <==> Live(capacity, ops, k)
    ensures Live(capacity, ops, k) ==> Find(Run(capacity, ops).list, k) == EntryOf(ops[LastStore(ops, k)])
  {
    if ops != [] {
      var n := |ops| - 1;
      var init, op := ops[..n], ops[n];
      var c := Run(capacity, init);
      HeldFromHistory(capacity, init, k);
      RunValid(capacity, init);
      RunValid(capacity, ops);
      StepHolds(c, op, k);
      var i := LastStore(ops, k);
      if 0 <= i < n {
        EvictedUnroll(capacity, ops, i, k);
        ExpiredUnroll(ops, i, k);
      }
    }
  }

  lemma EvictedUnroll(capacity: int, ops: seq<Op>, i: int, k: Key)
    requires 0 <= i < |ops| - 1
    ensures var n := |ops| - 1;
            EvictedSince(capacity, ops, i, k) <==>
            EvictedSince(capacity, ops[..n], i, k) || EvictsAt(capacity, ops, n, k)
  {
    var n := |ops| - 1;
    forall j | 0 <= j < n ensures EvictsAt(capacity, ops[..n], j, k) == EvictsAt(capacity, ops, j, k) {
      StepOfPrefix(capacity, ops, n, j);
    }
  }

  lemma ExpiredUnroll(ops: seq<Op>, i: int, k: Key)
    requires 0 <= i < |ops| - 1 && ops[i].Store?
    ensures var n := |ops| - 1;
            ExpiredSince(ops, i, k) <==>
            ExpiredSince(ops[..n], i, k) ||
            (ops[n].Get? && ops[n].key == k && ops[n].now > EntryOf(ops[i]).expiresAt)
  {
    var n := |ops| - 1;
    if j :| i < j < |ops| && ops[j].Get? && ops[j].key == k && ops[j].now > EntryOf(ops[i]).expiresAt {
      if j < n { assert ops[..n][j].Get?; }
    }
    if ExpiredSince(ops[..n], i, k) {
      var j :| i < j < n && ops[..n][j].Get? && ops[..n][j].key == k && ops[..n][j].now > EntryOf(ops[i]).expiresAt;
      assert ops[j].Get?;
    }
  }

  /** One step, seen from key k. */
  lemma StepHolds(c: Cache, op: Op, k: Key)
    requires Valid(c)
    ensures var l := Step(c, op).list;
      if op.Store? && op.key == k then Has(l, k) && Find(l, k) == EntryOf(op)
      else if !Has(c.list, k) then !Has(l, k)
      else if Evicts(c, op, k) then true
      else if op.Get? && op.key == k && op.now > Find(c.list, k).expiresAt then !Has(l, k)
      else Has(l, k) && Find(l, k) == Find(c.list, k)
  {
    var l := Step(c, op).list;
    StepValid(c, op);
    WithoutFacts(c.list, op.key);
    HasIn(l, k);
    HasIn(c.list, k);
    HasIn(Without(c.list, op.key), k);
    if op.Store? && op.key == k {
      assert l[0] == EntryOf(op);
      assert EntryOf(op) in l;
      FindUnique(l, EntryOf(op));
    } else if Has(c.list, k) {
      var e := Find(c.list, k);
      if e in l { FindUnique(l, e); }
      StepMembers(c, op);
      if Has(l, k) {
        var e' :| e' in l && e'.key == k;
        FindUnique(c.list, e');
      }
    } else {
      StepMembers(c, op);
    }
  }

  /** An operation on one key leaves every other entry as it was or drops it. */
  lemma StepMembers(c: Cache, op: Op)
    requires Valid(c)
    ensures forall e :: e in Step(c, op).list ==> e in c.list || (op.Store? && e == EntryOf(op))
    ensures op.Get? ==> forall e :: e in c.list && e.key != op.key ==> e in Step(c, op).list
    ensures Reply(c, op).Some? ==> Find(c.list, op.key) in Step(c, op).list
  {
    WithoutFacts(c.list, op.key);
    if op.Get? && Reply(c, op).Some? {
      assert Step(c, op).list[0] == Find(c.list, op.key);
    }
    if op.Store? && !Has(c.list, op.key) {
      var l := [EntryOf(op)] + c.list;
      assert Step(c, op).list <= l;
      forall e | e in Step(c, op).list ensures e in l {
        var i :| 0 <= i < |Step(c, op).list| && Step(c, op).list[i] == e;
        assert l[i] == e;
      }
    }
  }

  /** The clock as the code reads it: Get reads it under the lock, so no Get is
      earlier than any operation before it; Stores may be out of order. */
  predicate ClockOk(ops: seq<Op>) {
    forall i, j :: 0 <= i < j < |ops| && ops[j].Get? ==> ops[i].now <= ops[j].now
  }

  lemma LateStaysLate(ops: seq<Op>, i: nat, k: Key, t: int)
    requires ClockOk(ops + [Get(k, t)])
    requires i < |ops| && ops[i].Store?
    ensures ops[i].now <= t
    ensures ExpiredSince(ops, i, k) ==> t > EntryOf(ops[i]).expiresAt
  {
    var all := ops + [Get(k, t)];
    assert all[i] == ops[i] && all[|ops|] == Get(k, t);
    if j :| i < j < |ops| && ops[j].Get? && ops[j].key == k && ops[j].now > EntryOf(ops[i]).expiresAt {
      assert all[j] == ops[j];
    }
  }

  /** Get(k) at time t hits exactly when k's latest Store, made at s, has not
      been evicted since and t <= s + ttl; it then returns that message with
      every TTL reduced by the whole seconds of age. */
  lemma GetFromHistory(capacity: int, ops: seq<Op>, k: Key, t: int)
    requires ClockOk(ops + [Get(k, t)])
    ensures var i := LastStore(ops, k);
      Reply(Run(capacity, ops), Get(k, t)) ==
        if i >= 0 && !EvictedSince(capacity, ops, i, k) && t <= ops[i].now + ops[i].ttl
        then Some(Aged(ops[i].msg, ((t - ops[i].now) / SECOND) % 0x1_0000_0000))
        else None
  {
    HeldFromHistory(capacity, ops, k);
    var i, c := LastStore(ops, k), Run(capacity, ops);
    if i >= 0 {
      LateStaysLate(ops, i, k, t);
      AgeOf(t - ops[i].now);
      if Has(c.list, k) { ReplyOf(c, k, t); }
    }
  }

  // ------------------------------------------------------- retention

  /** Once evicted and not stored again, a key is not touched. */
  lemma EvictedUntouched(capacity: int, ops: seq<Op>, k: Key, j: nat, m: nat)
    requires LastStore(ops, k) < j < m < |ops| && LastStore(ops, k) >= 0 && EvictsAt(capacity, ops, j, k)
    ensures TouchAt(capacity, ops, m) != Some(k)
  {
    var before := ops[..m];
    LastStorePrefix(ops, k, m);
    HeldFromHistory(capacity, before, k);
    StepOfPrefix(capacity, ops, m, j);
    assert EvictsAt(capacity, before, j, k);
  }

  lemma {:induction false} LastStorePrefix(ops: seq<Op>, k: Key, m: nat)
    requires LastStore(ops, k) < m <= |ops|
    ensures LastStore(ops[..m], k) == LastStore(ops, k)
  {
    var i, b := LastStore(ops, k), LastStore(ops[..m], k);
    if b >= 0 { assert ops[..m][b] == ops[b]; }
    if i >= 0 { assert ops[..m][i] == ops[i]; }
  }

  lemma LastTouchPrefix(capacity: int, ops: seq<Op>, k: Key, n: nat)
    requires n <= |ops| && forall m: nat :: n <= m < |ops| ==> TouchAt(capacity, ops, m) != Some(k)
    ensures LastTouch(capacity, ops[..n], k) == LastTouch(capacity, ops, k)
  {
    var a, b := LastTouch(capacity, ops, k), LastTouch(capacity, ops[..n], k);
    LastTouchTouches(capacity, ops, k);
    LastTouchTouches(capacity, ops[..n], k);
    if b >= 0 { StepOfPrefix(capacity, ops, n, b); }
    if a >= 0 { StepOfPrefix(capacity, ops, n, a); }
  }

  /** An eviction of k after its latest Store shows in the touches since its last one. */
  lemma EvictedTouches(capacity: int, ops: seq<Op>, k: Key, j: nat)
    requires 0 <= LastStore(ops, k) < j < |ops| && EvictsAt(capacity, ops, j, k)
    ensures |TouchedAfter(capacity, ops, LastTouch(capacity, ops, k))| >= capacity
    ensures |TouchedAfter(capacity, ops, LastTouch(capacity, ops, k))| >= 1
  {
    var upTo := ops[..j + 1];
    assert upTo == ops[..j] + [ops[j]];
    EvictionNeedsCapacityTouches(capacity, ops[..j], ops[j], k);
    forall m: nat | j + 1 <= m < |ops| ensures TouchAt(capacity, ops, m) != Some(k) {
      EvictedUntouched(capacity, ops, k, j, m);
    }
    LastTouchPrefix(capacity, ops, k, j + 1);
    var t := LastTouch(capacity, ops, k);
    TouchedPrefix(capacity, ops, j + 1, t);
    SubsetSize(TouchedAfter(capacity, upTo, t), TouchedAfter(capacity, ops, t));
  }

  lemma TouchedPrefix(capacity: int, ops: seq<Op>, n: nat, t: int)
    requires n <= |ops|
    ensures TouchedAfter(capacity, ops[..n], t) <= TouchedAfter(capacity, ops, t)
  {
    forall x | x in TouchedAfter(capacity, ops[..n], t) ensures x in TouchedAfter(capacity, ops, t) {
      var m :| 0 <= m < n && t < m && TouchAt(capacity, ops[..n], m) == Some(x);
      StepOfPrefix(capacity, ops, n, m);
    }
  }

  /** Retention: a key whose lifetime is not over is hit as long as fewer than
      capacity distinct other keys were stored or hit since it last was. */
  lemma RecentlyTouchedHits(capacity: int, ops: seq<Op>, k: Key, t: int)
    requires ClockOk(ops + [Get(k, t)]) && LastStore(ops, k) >= 0
    requires t <= ops[LastStore(ops, k)].now + ops[LastStore(ops, k)].ttl
    requires var others := TouchedAfter(capacity, ops, LastTouch(capacity, ops, k)); |others| < capacity || |others| < 1
    ensures Reply(Run(capacity, ops), Get(k, t)).Some?
  {
    var i := LastStore(ops, k);
    GetFromHistory(capacity, ops, k, t);
    if EvictedSince(capacity, ops, i, k) {
      var j :| i < j < |ops| && 0 <= j && EvictsAt(capacity, ops, j, k);
      EvictedTouches(capacity, ops, k, j);
    }
  }

  lemma AgeOf(elapsed: nat)
    ensures AgeSeconds(elapsed) == (elapsed / SECOND) % 0x1_0000_0000
  {
  }

  lemma ReplyOf(c: Cache, k: Key, t: int)
    requires Has(c.list, k)
    ensures var e := Find(c.list, k);
      Reply(c, Get(k, t)) == if t > e.expiresAt then None else Some(Aged(e.msg, AgeSeconds(t - e.storedAt)))
  {
  }

  // ----------------------------------------------------- conservation

  /** How many Stores found their key absent. */
  function Inserts(capacity: int, ops: seq<Op>): nat {
    if ops == [] then 0
    else
      var n := |ops| - 1;
      Inserts(capacity, ops[..n]) +
        if ops[n].Store? && !Has(Run(capacity, ops[..n]).list, ops[n].key) then 1 else 0
  }

  /** Nothing is lost: what was inserted is still held or was reported evicted. */
  lemma {:induction false} EntriesConserved(capacity: int, ops: seq<Op>)
    ensures Inserts(capacity, ops) == |Run(capacity, ops).list| + Run(capacity, ops).evictions
    ensures Run(capacity, ops).gauge == |Run(capacity, ops).list|
  {
    RunValid(capacity, ops);
    if ops != [] {
      var n := |ops| - 1;
      var c := Run(capacity, ops[..n]);
      EntriesConserved(capacity, ops[..n]);
      RunValid(capacity, ops[..n]);
      WithoutDistinct(c.list, ops[n].key);
    }
  }
}
