/** The cache object itself: a list of elements and a map into it, holding
    messages on the heap.  Its methods are proved against `LruModel`, and its
    invariant keeps everything it holds apart from everything callers hold. */
module Lru {
  import opened Dns
  import M = LruModel
  import opened RecencyBook

  /** What the cache reports to: two cells.  The no-op observer is one that
      nobody reads. */
  class Observer {
    var evictions: nat
    var entries: nat

    constructor ()
      ensures evictions == 0 && entries == 0
    {
      evictions, entries := 0, 0;
    }

    method IncEvictions()
      modifies this
      ensures evictions == old(evictions) + 1 && entries == old(entries)
    {
      evictions := evictions + 1;
    }

    method SetEntries(n: nat)
      modifies this
      ensures entries == n && evictions == old(evictions)
    {
      entries := n;
    }
  }

  datatype Entry = Entry(key: string, response: Msg, storedAt: int, expiresAt: int)

  class Element {
    var value: Entry

    constructor (e: Entry)
      ensures value == e
    {
      value := e;
    }

    /** The entry as a value. */
    ghost function Shown(): M.Entry
      reads this, value.response, value.response.question, value.response.answer
      reads value.response.ns, value.response.extra
    {
      M.Entry(value.key, value.response.Value(), value.storedAt, value.expiresAt)
    }
  }

  ghost predicate Holds(el: Element, v: M.Entry, repr: set<object>)
    reads repr
  {
    el in repr && el.value.response in repr && el.value.response.Within(repr) && el.Shown() == v
  }

  /** Each element of shown lies in repr with the message and records stored in
      it, and shows the value given. */
  ghost predicate Stored(shown: map<Element, M.Entry>, repr: set<object>)
    reads repr
  {
    forall el {:trigger Holds(el, shown[el], repr)} :: el in shown ==> Holds(el, shown[el], repr)
  }

  lemma StoredAdd(shown: map<Element, M.Entry>, repr: set<object>, el: Element, v: M.Entry)
    requires Stored(shown, repr) && Holds(el, v, repr)
    ensures Stored(shown[el := v], repr)
  {
    var shown' := shown[el := v];
    forall x | x in shown' ensures Holds(x, shown'[x], repr) {
      if x != el { assert Holds(x, shown[x], repr); }
    }
  }

  /** A larger repr still covers every element. */
  lemma StoredMore(shown: map<Element, M.Entry>, repr: set<object>, more: set<object>)
    requires Stored(shown, repr) && repr <= more
    ensures Stored(shown, more)
  {
    forall x | x in shown ensures Holds(x, shown[x], more) { assert Holds(x, shown[x], repr); }
  }

  class LRU {
    const capacity: nat
    var list: seq<Element>              // front is most recently used
    var entries: map<string, Element>
    var observer: Observer

    ghost var shown: map<Element, M.Entry>
    ghost var repr: set<object>         // elements, and the messages and records stored in them
    ghost var outside: set<object>      // messages and records ever passed to Store or returned by Get

    ghost function Books(): Book<Element>
      reads this
    {
      Book(list, entries, shown)
    }

    ghost predicate Valid()
      reads this, repr
    {
      && this !in repr && observer !in repr && repr !! outside
      && 1 <= capacity && |list| <= capacity
      && Agrees(Books())
      && Stored(shown, repr)
    }

    ghost function Model(): M.Cache
      requires Agrees(Books())
      reads this, observer
    {
      M.Cache(capacity, View(Books()), observer.evictions, observer.entries)
    }

    constructor (capacity: int)
      ensures Valid() && fresh(repr) && fresh(observer) && Model() == M.Empty(capacity) && outside == {}
      ensures this.capacity == (if capacity < 1 then 1 else capacity) && Model().cap == this.capacity
      ensures list == [] && entries == map[] && observer.evictions == observer.entries == 0
    {
      this.capacity := if capacity < 1 then 1 else capacity;
      list, entries, shown := [], map[], map[];
      repr, outside := {}, {};
      observer := new Observer();
    }

    /** Null falls back to a new no-op observer. */
    method SetObserver(obs: Observer?)
      requires Valid() && obs !in repr
      modifies this`observer
      ensures Valid() && Books() == old(Books())
      ensures if obs == null then fresh(observer) else observer == obs
    {
      if obs == null {
        observer := new Observer();
        return;
      }
      observer := obs;
    }

    method Len() returns (n: nat)
      requires Valid()
      ensures n == |Model().list|
    {
      n := |list|;
    }

    /** A new element around a deep copy of msg; own is all it is made of. */
    method NewElement(key: string, msg: Msg, now: int, ttl: int) returns (el: Element, ghost own: set<object>)
      ensures fresh(own) && Holds(el, M.Entry(key, msg.Value(), now, now + ttl), own)
      ensures el.value.key == key
    {
      var cp := CloneMsg(msg);
      el := new Element(Entry(key, cp, now, now + ttl));
      own := {el} + cp.Footprint();
      WithinOwn(cp);
    }

    /** Insert or replace the entry for key with a deep copy of msg. */
    method Store(key: string, msg: Msg, now: int, ttl: int)
      requires Valid()
      requires msg.Footprint() !! repr    // nothing in repr is ever handed out
      modifies this`list, this`entries, this`shown, this`repr, this`outside, repr, observer
      ensures Valid() && fresh(repr - old(repr))
      ensures Model() == M.Put(old(Model()), M.Entry(key, old(msg.Value()), now, now + ttl))
      ensures outside == old(outside) + old(msg.Footprint())
    {
      ghost var v := M.Entry(key, msg.Value(), now, now + ttl);
      var el, own := NewElement(key, msg, now, ttl);
      Adopt(el, v, own, msg.Footprint());
      if key in entries {
        Points(Books(), key);
        Replace(el.value, v);
      } else {
        Insert(el, v);
      }
    }

    /** Bookkeeping: take the new element in, and note what the caller holds. */
    ghost method Adopt(el: Element, v: M.Entry, own: set<object>, given: set<object>)
      requires Valid() && given !! repr && Holds(el, v, own) && this !in own && observer !in own
      requires own !! outside && own !! given
      modifies this`repr, this`outside
      ensures Valid() && Holds(el, v, repr)
      ensures repr == old(repr) + own && outside == old(outside) + given
      ensures forall x :: x in list ==> x in old(repr)
    {
      forall x | x in list ensures x in repr {
        assert Listed(Books(), x);
        assert Holds(x, shown[x], repr);
      }
      StoredMore(shown, repr, repr + own);
      repr := repr + own;
      outside := outside + given;
    }

    /** el.Value = e: one element shows a new value, the others what they did. */
    method SetValue(el: Element, e: Entry, ghost v: M.Entry)
      requires Stored(shown, repr) && el in shown && e.response in repr && e.response.Within(repr)
      requires v == M.Entry(e.key, e.response.Value(), e.storedAt, e.expiresAt)
      modifies this`shown, el
      ensures Stored(shown, repr) && shown == old(shown)[el := v]
    {
      assert Holds(el, shown[el], repr);
      el.value := e;
      shown := shown[el := v];
      forall x | x in shown ensures Holds(x, shown[x], repr) {
        if x != el { assert old(Holds(x, shown[x], repr)); }
      }
    }

    /** The present-key half of Store: promote the element and give it the new entry. */
    method Replace(e: Entry, ghost v: M.Entry)
      requires Valid() && e.key in entries && e.response in repr && e.response.Within(repr)
      requires v == M.Entry(e.key, e.response.Value(), e.storedAt, e.expiresAt)
      modifies this`list, this`shown, entries[e.key]
      ensures Valid()
      ensures Model() == M.Put(old(Model()), v)
    {
      PutPresent(Books(), v, capacity, observer.evictions, observer.entries);
      Points(Books(), e.key);
      var el := entries[e.key];
      list := [el] + Remove(list, el);
      SetValue(el, e, v);
      assert Books() == Promoted(old(Books()), v);
    }

    /** Drop the element at the back and its key, and report it. */
    method EvictOldest()
      requires Agrees(Books()) && Stored(shown, repr) && list != [] && observer !in repr && this !in repr
      modifies this`list, this`entries, observer
      ensures old(list)[|old(list)| - 1] in shown && Books() == Popped(old(Books()))
      ensures Agrees(Books()) && Stored(shown, repr)
      ensures observer.evictions == old(observer.evictions) + 1 && observer.entries == old(observer.entries)
    {
      PoppedAgrees(Books());
      var oldest := list[|list| - 1];
      assert Holds(oldest, shown[oldest], repr);
      list := list[..|list| - 1];
      entries := entries - {oldest.value.key};
      observer.IncEvictions();
    }

    /** The absent-key half of Store: push to the front, then evict from the back. */
    method Insert(el: Element, ghost v: M.Entry)
      requires Valid() && el !in list && el.value.key == v.key && v.key !in entries && Holds(el, v, repr)
      modifies this`list, this`shown, this`entries, observer
      ensures Valid()
      ensures Model() == M.Put(old(Model()), v)
    {
      ghost var pushed := Pushed(Books(), el, v);
      ghost var evicted := observer.evictions;
      PutAbsent(Books(), el, v, capacity, observer.evictions, observer.entries);
      StoredAdd(shown, repr, el, v);
      list := [el] + list;
      entries := entries[el.value.key := el];
      shown := shown[el := v];
      assert Books() == pushed;
      while |list| > capacity
        invariant 1 <= |list| && Agrees(Books()) && Stored(shown, repr)
        invariant || (Books() == pushed && observer.evictions == evicted)
                  || (|list| == capacity < |pushed.list| && Books() == Popped(pushed) &&
                      observer.evictions == evicted + 1)
      {
        EvictOldest();
      }
      observer.SetEntries(|list|);
    }

    /** Lazy eviction of an expired entry. */
    method Expire(key: string)
      requires Valid() && key in entries && Agrees(Deleted(Books(), key)) && |Deleted(Books(), key).list| <= capacity
      modifies this`list, this`entries, observer
      ensures Valid() && Books() == Deleted(old(Books()), key)
      ensures observer.evictions == old(observer.evictions) + 1 && observer.entries == |list|
    {
      list := Remove(list, entries[key]);
      entries := entries - {key};
      observer.IncEvictions();
      observer.SetEntries(|list|);
    }

    /** MoveToFront of a live entry. */
    method Promote(key: string)
      requires Valid() && key in entries && entries[key] in shown && shown[entries[key]].key == key
      requires Agrees(Promoted(Books(), shown[entries[key]]))
      requires |Promoted(Books(), shown[entries[key]]).list| <= capacity
      modifies this`list
      ensures Valid() && Books() == Promoted(old(Books()), shown[entries[key]])
    {
      var el := entries[key];
      assert shown[el := shown[el]] == shown;
      list := [el] + Remove(list, el);
    }

    /** Bookkeeping: the caller now holds m. */
    ghost method HandOut(m: Msg, v: MsgVal)
      requires m.Value() == v
      modifies this`outside
      ensures outside == old(outside) + m.Footprint() && m.Footprint() == old(m.Footprint()) && m.Value() == v
    {
      outside := outside + m.Footprint();
    }

    /** An aged deep copy of a stored message, for the caller to keep. */
    method Serve(el: Element, ghost v: M.Entry, now: int) returns (r: Msg)
      requires el.Shown() == v
      modifies this`outside
      ensures fresh(r.Footprint())
      ensures r.Value() == Aged(v.msg, M.AgeSeconds(now - v.storedAt))
      ensures outside == old(outside) + r.Footprint()
    {
      var e := el.value;
      r := AgedCopy(e.response, v.msg, M.AgeSeconds(now - e.storedAt));
      HandOut(r, Aged(v.msg, M.AgeSeconds(now - v.storedAt)));
    }

    /** The hit half of Get: promote the entry and serve it. */
    method Hit(key: string, ghost v: M.Entry, now: int) returns (r: Msg)
      requires Valid() && key in entries && entries[key] in shown && shown[entries[key]] == v && v.key == key
      requires Agrees(Promoted(Books(), v)) && |Promoted(Books(), v).list| <= capacity
      modifies this`list, this`outside
      ensures Valid() && Books() == Promoted(old(Books()), v)
      ensures fresh(r.Footprint()) && outside == old(outside) + r.Footprint()
      ensures r.Value() == Aged(v.msg, M.AgeSeconds(now - v.storedAt))
    {
      var el := entries[key];
      Promote(key);
      assert Holds(el, v, repr);
      r := Serve(el, v, now);
    }

    /** A deep copy of the live entry for key, aged by whole seconds; null on a miss.
        An expired entry is removed. */
    method Get(key: string, now: int) returns (r: Msg?)
      requires Valid()
      modifies this`list, this`entries, this`outside, observer
      ensures Valid()
      ensures Model() == M.Lookup(old(Model()), key, now).0
      ensures r == null <==> M.Lookup(old(Model()), key, now).1.None?
      ensures r != null ==>
        && fresh(r.Footprint())
        && r.Value() == M.Lookup(old(Model()), key, now).1.value
      ensures outside == old(outside) + if r == null then {} else r.Footprint()
    {
      LookupCases(Books(), key, now, capacity, observer.evictions, observer.entries);
      ghost var look := M.Lookup(Model(), key, now);
      r := null;
      if key in entries {
        var el := entries[key];
        assert Holds(el, shown[el], repr);
        if now > el.value.expiresAt {
          Expire(key);
        } else {
          ghost var e := shown[el];
          r := Hit(key, e, now);
          assert look.1 == Some(Aged(e.msg, M.AgeSeconds(now - e.storedAt)));
        }
      }
    }
  }
}
