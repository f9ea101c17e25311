/** The two resolver stages that touch message objects: the cache stage, and
    the fan-out of one shared reply to the callers of a coalesced query. */
module Stages {
  import opened Dns
  import opened Lru
  import opened Lifetime
  import opened CacheKey
  import M = LruModel

  datatype Result = Ok(msg: Msg) | Err(error: string)

  /** What the cache holds once the reply to a missed question has been offered. */
  function AfterMiss(c: M.Cache, k: M.Key, reply: MsgVal, at: int, cfg: Config): M.Cache {
    var ttl := LifetimeOf(reply, cfg);
    if ttl > 0 then M.Put(c, M.Entry(k, reply, at, at + ttl)) else c
  }

  class CacheStage {
    const store: LRU
    const cfg: Config
    var hits: nat
    var misses: nat

    constructor (store: LRU, cfg: Config)
      ensures this.store == store && this.cfg == cfg && hits == misses == 0
    {
      this.store, this.cfg, hits, misses := store, cfg, 0, 0;
    }

    /** One query through the stage.  `next` is what the next stage answers if it
        is called; getAt and storeAt are the clock readings of Get and Store. */
    method Resolve(req: Msg, next: Result, getAt: int, storeAt: int) returns (r: Result, called: bool)
      requires store.Valid() && this !in store.repr
      requires next.Ok? ==> next.msg.Footprint() !! store.repr
      requires req !in store.repr && req.Footprint() !! store.repr
      modifies this`hits, this`misses
      modifies store, store.repr, store.observer
      ensures store.Valid() && fresh(store.repr - old(store.repr)) && old(store.outside) <= store.outside
      // no reply shares an object with what is stored
      ensures r.Ok? ==> r.msg.Footprint() !! store.repr
      ensures r.Ok? && !called ==> r.msg.Footprint() <= store.outside
      // queries without exactly one question pass through
      ensures |req.question| != 1 ==>
        r == next && called && store.Model() == old(store.Model()) && hits == old(hits) && misses == old(misses)
      ensures |req.question| == 1 ==>
        var k := KeyOf(QuestionOf(old(req.question[0].Value())));
        var (c, hit) := M.Lookup(old(store.Model()), k, getAt);
        if hit.Some? then
          && !called && hits == old(hits) + 1 && misses == old(misses)
          && r.Ok? && fresh(r.msg.Footprint()) && r.msg.Value() == hit.value.(id := old(req.id))
          && store.Model() == c
        else
          && called && hits == old(hits) && misses == old(misses) + 1 && r == next
          && store.Model() == (if next.Ok? then AfterMiss(c, k, old(next.msg.Value()), storeAt, cfg) else c)
          && (next.Ok? && LifetimeOf(old(next.msg.Value()), cfg) > 0 ==> next.msg.Footprint() <= store.outside)
    {
      if |req.question| != 1 {
        return next, true;
      }
      var key := Key(req.question[0]);
      var cached := Probe(key, req.id, getAt);
      if cached != null {
        return Ok(cached), false;
      }
      r, called := next, true;
      if next.Ok? {
        Offer(key, next.msg, storeAt);
      }
    }

    /** Consult the cache, count the lookup and stamp a hit with the caller's ID. */
    method Probe(key: string, id: U16, at: int) returns (cached: Msg?)
      requires store.Valid() && this !in store.repr
      modifies this`hits, this`misses
      modifies store`list, store`entries, store`outside, store.observer
      ensures store.Valid() && store.repr == old(store.repr)
      ensures store.outside == old(store.outside) + if cached != null then cached.Footprint() else {}
      ensures var (c, hit) := M.Lookup(old(store.Model()), key, at);
        && store.Model() == c
        && (cached == null <==> hit.None?)
        && (cached != null ==> fresh(cached.Footprint()) && cached.Value() == hit.value.(id := id))
      ensures hits == old(hits) + (if cached != null then 1 else 0)
      ensures misses == old(misses) + (if cached == null then 1 else 0)
    {
      cached := store.Get(key, at);
      if cached != null {
        hits := hits + 1;
        StampReply(cached, M.Lookup(old(store.Model()), key, at).1.value, id);
      } else {
        misses := misses + 1;
      }
    }

    /** resp.ID = id on a reply the cache has handed out, which the cache does not notice. */
    method StampReply(m: Msg, ghost v: MsgVal, id: U16)
      requires store.Valid() && m in store.outside && m.Value() == v
      modifies m`id
      ensures store.Valid() && store.Model() == old(store.Model())
      ensures m.Value() == v.(id := id) && m.Footprint() == old(m.Footprint())
    {
      Stamp(m, v, id);
    }

    /** Store a reply for its lifetime, if it has one. */
    method Offer(key: string, msg: Msg, at: int)
      requires store.Valid() && msg.Footprint() !! store.repr
      modifies store, store.repr, store.observer
      ensures store.Valid() && fresh(store.repr - old(store.repr)) && old(store.outside) <= store.outside
      ensures msg.Footprint() !! store.repr
      ensures LifetimeOf(old(msg.Value()), cfg) > 0 ==> msg.Footprint() <= store.outside
      ensures store.Model() == AfterMiss(old(store.Model()), key, old(msg.Value()), at, cfg)
    {
      var ttl, _ := ComputeTTL(msg.Value(), cfg);
      if ttl > 0 {
        store.Store(key, msg, at, ttl);
      }
    }
  }

  // ---------------------------------------------------------- separation

  /** Whatever a caller writes into a record it passed to Store or got from Get,
      the cache answers as before. */
  method OverwriteRecord(c: LRU, rr: RR, v: RRVal)
    requires c.Valid() && rr in c.outside
    modifies rr
    ensures c.Valid() && c.Model() == old(c.Model()) && rr.Value() == v
  {
    rr.name, rr.cls, rr.ttl, rr.data := v.name, v.cls, v.ttl, v.data;
  }

  /** The same for a message: its fields and its sections. */
  method OverwriteMessage(c: LRU, m: Msg, id: U16, rcode: U16,
                          question: seq<RR>, answer: seq<RR>, ns: seq<RR>, extra: seq<RR>)
    requires c.Valid() && m in c.outside
    modifies m
    ensures c.Valid() && c.Model() == old(c.Model())
    ensures m.id == id && m.rcode == rcode && m.Records() == question + answer + ns + extra
  {
    m.id, m.rcode := id, rcode;
    m.question, m.answer, m.ns, m.extra := question, answer, ns, extra;
  }

  // ------------------------------------------------- replies to coalesced callers

  /** Message r answers ID id with value v, in objects all of which lie in own. */
  ghost predicate Answers(r: Msg, v: MsgVal, id: U16, own: set<object>)
    reads r, r.question, r.answer, r.ns, r.extra
  {
    r.Footprint() == own && r.Value() == v.(id := id)
  }

  /** One caller's reply: a deep copy of the shared value under its own ID. */
  method ReplyTo(shared: Msg, ghost v: MsgVal, id: U16) returns (cp: Msg)
    requires shared.Value() == v
    ensures fresh(cp.Footprint()) && cp.Value() == v.(id := id)
  {
    cp := CloneMsg(shared);
    Stamp(cp, v, id);
  }

  /** Every caller of a flight gets the shared value under its own ID, in objects
      it shares with no other caller and with nothing that existed before. */
  method FanOut(shared: Msg, ids: seq<U16>) returns (rs: seq<Msg>, ghost owns: seq<set<object>>)
    ensures |rs| == |owns| == |ids|
    ensures forall i :: 0 <= i < |rs| ==> fresh(owns[i]) && Answers(rs[i], shared.Value(), ids[i], owns[i])
    ensures forall i, j :: 0 <= i < j < |rs| ==> owns[i] !! owns[j]
  {
    rs, owns := [], [];
    ghost var v, used: set<object> := shared.Value(), {};
    for i := 0 to |ids|
      invariant |rs| == |owns| == i && fresh(used) && Apart(owns, used)
      invariant forall j :: 0 <= j < i ==> Answers(rs[j], v, ids[j], owns[j])
    {
      var cp := ReplyTo(shared, v, ids[i]);
      ghost var own := cp.Footprint();
      ApartMore(owns, used, own);
      rs, owns, used := rs + [cp], owns + [own], used + own;
    }
  }

  /** Parts of used, no two of which meet. */
  ghost predicate Apart(owns: seq<set<object>>, used: set<object>) {
    && (forall i :: 0 <= i < |owns| ==> owns[i] <= used)
    && (forall i, j :: 0 <= i < j < |owns| ==> owns[i] !! owns[j])
  }

  lemma ApartMore(owns: seq<set<object>>, used: set<object>, own: set<object>)
    requires Apart(owns, used) && own !! used
    ensures Apart(owns + [own], used + own)
  {
  }
}
