/** The bookkeeping of the LRU as values: a list of elements, a map from keys
    into that list, and what each element shows.  No heap here; `E` is whatever
    identifies an element. */
module RecencyBook {
  import opened Dns
  import opened M = LruModel

  datatype Book<!E> = Book(list: seq<E>, entries: map<Key, E>, shown: map<E, Entry>)

  // `Nth`, `Listed` and `Keyed` name the facts that the quantifiers below are
  // instantiated on, so that they stay quiet in proofs that do not mention them.

  function Nth<T>(s: seq<T>, i: int): T
    requires 0 <= i < |s|
  {
    s[i]
  }

  ghost predicate Listed<E>(b: Book<E>, el: E) { el in b.list }

  ghost predicate Keyed<E>(b: Book<E>, k: Key) { k in b.entries }

  ghost predicate NoDup<T>(s: seq<T>) {
    forall i, j {:trigger Nth(s, i), Nth(s, j)} :: 0 <= i < j < |s| ==> Nth(s, i) != Nth(s, j)
  }

  /** List and map agree: the map holds exactly the listed keys, each pointing
      at its own element, and no element is listed twice. */
  ghost predicate Agrees<E>(b: Book<E>) {
    && NoDup(b.list)
    && (forall el {:trigger Listed(b, el)} :: el in b.list && Listed(b, el) ==>
          el in b.shown && b.shown[el].key in b.entries && b.entries[b.shown[el].key] == el)
    && (forall k {:trigger Keyed(b, k)} :: Keyed(b, k) ==>
          Listed(b, b.entries[k]) && b.entries[k] in b.shown && b.shown[b.entries[k]].key == k)
  }

  lemma AllShown<E>(b: Book<E>)
    requires Agrees(b)
    ensures forall i :: 0 <= i < |b.list| ==> b.list[i] in b.shown
  {
    forall i | 0 <= i < |b.list| ensures b.list[i] in b.shown { assert Listed(b, b.list[i]); }
  }

  /** The recency list as values. */
  ghost function View<E>(b: Book<E>): (v: seq<Entry>)
    requires Agrees(b)
    ensures |v| == |b.list|
  {
    AllShown(b);
    seq(|b.list|, i requires 0 <= i < |b.list| => b.shown[b.list[i]])
  }

  lemma Points<E>(b: Book<E>, k: Key)
    requires Agrees(b) && k in b.entries
    ensures b.entries[k] in b.list && b.entries[k] in b.shown && b.shown[b.entries[k]].key == k
  {
    assert Keyed(b, k);
  }

  lemma ViewDistinct<E>(b: Book<E>)
    requires Agrees(b)
    ensures DistinctKeys(View(b))
  {
    var v := View(b);
    forall i, j | 0 <= i < j < |v| ensures v[i].key != v[j].key {
      assert Listed(b, b.list[i]) && Listed(b, b.list[j]);
      assert Nth(b.list, i) != Nth(b.list, j);
    }
  }

  lemma ViewHas<E>(b: Book<E>, k: Key)
    requires Agrees(b)
    ensures k in b.entries <==> Has(View(b), k)
    ensures k in b.entries ==> b.entries[k] in b.shown && Find(View(b), k) == b.shown[b.entries[k]]
  {
    var v := View(b);
    if i :| 0 <= i < |v| && v[i].key == k { assert Listed(b, b.list[i]); }
    if k in b.entries {
      Points(b, k);
      var i :| 0 <= i < |b.list| && b.list[i] == b.entries[k];
      assert v[i].key == k && v[i] in v;
      ViewDistinct(b);
      FindUnique(v, v[i]);
    }
  }

  /** s without position i. */
  function Cut<T>(s: seq<T>, i: nat): (r: seq<T>)
    requires i < |s|
    ensures |r| == |s| - 1
    ensures forall j :: 0 <= j < |r| ==> r[j] == s[if j < i then j else j + 1]
  {
    s[..i] + s[i + 1..]
  }

  /** list.Remove: the elements other than el, in order. */
  function Remove<E(==)>(l: seq<E>, el: E): seq<E> {
    if l == [] then [] else if l[0] == el then Remove(l[1..], el) else [l[0]] + Remove(l[1..], el)
  }

  lemma NoDupTail<T>(s: seq<T>)
    requires NoDup(s) && s != []
    ensures NoDup(s[1..]) && s[0] !in s[1..]
  {
    var t := s[1..];
    forall i, j | 0 <= i < j < |t| ensures Nth(t, i) != Nth(t, j) {
      assert Nth(s, i + 1) != Nth(s, j + 1);
    }
    forall j | 0 <= j < |t| ensures t[j] != s[0] { assert Nth(s, 0) != Nth(s, j + 1); }
  }

  lemma {:induction false} RemoveAt<E>(l: seq<E>, i: nat)
    requires i < |l| && NoDup(l)
    ensures Remove(l, l[i]) == Cut(l, i)
  {
    NoDupTail(l);
    if i == 0 {
      RemoveAbsent(l[1..], l[0]);
    } else {
      RemoveAt(l[1..], i - 1);
      assert Cut(l, i) == [l[0]] + Cut(l[1..], i - 1);
    }
  }

  lemma {:induction false} RemoveAbsent<E>(l: seq<E>, el: E)
    requires el !in l
    ensures Remove(l, el) == l
  {
    if l != [] { RemoveAbsent(l[1..], el); }
  }

  lemma {:induction false} WithoutAt(v: seq<Entry>, i: nat)
    requires DistinctKeys(v) && i < |v|
    ensures Without(v, v[i].key) == Cut(v, i)
  {
    if i == 0 {
      WithoutDistinct(v[1..], v[0].key);
    } else {
      WithoutAt(v[1..], i - 1);
      assert Cut(v, i) == [v[0]] + Cut(v[1..], i - 1);
    }
  }

  lemma CutFacts<T>(s: seq<T>, i: nat)
    requires i < |s| && NoDup(s)
    ensures NoDup(Cut(s, i))
    ensures forall x :: x in Cut(s, i) <==> x in s && x != s[i]
  {
    var c := Cut(s, i);
    forall a, b | 0 <= a < b < |c| ensures Nth(c, a) != Nth(c, b) {
      assert Nth(s, if a < i then a else a + 1) != Nth(s, if b < i then b else b + 1);
    }
    forall x ensures x in c <==> x in s && x != s[i] {
      if j :| 0 <= j < |s| && s[j] == x && x != s[i] {
        assert c[if j < i then j else j - 1] == x;
      }
      if j :| 0 <= j < |c| && c[j] == x {
        assert Nth(s, if j < i then j else i) != Nth(s, if j < i then i else j + 1);
      }
    }
  }

  // ------------------------------------------------------- the operations

  /** list.Remove and delete from the map. */
  function Deleted<E(==)>(b: Book<E>, k: Key): Book<E>
    requires k in b.entries
  {
    b.(list := Remove(b.list, b.entries[k]), entries := b.entries - {k})
  }

  lemma CutAgrees<E>(b: Book<E>, i: nat, d: Book<E>)
    requires Agrees(b) && i < |b.list| && b.list[i] in b.shown
    requires d == b.(list := Cut(b.list, i), entries := b.entries - {b.shown[b.list[i]].key})
    ensures Agrees(d) && View(d) == Cut(View(b), i)
    ensures b.list[i] !in d.list
  {
    CutFacts(b.list, i);
    assert Listed(b, b.list[i]);
    forall el | Listed(d, el)
      ensures el in d.shown && d.shown[el].key in d.entries && d.entries[d.shown[el].key] == el
    {
      assert Listed(b, el);
    }
    forall k | Keyed(d, k)
      ensures Listed(d, d.entries[k]) && d.entries[k] in d.shown && d.shown[d.entries[k]].key == k
    {
      assert Keyed(b, k);
    }
    AllShown(b);
  }

  lemma DeletedAgrees<E>(b: Book<E>, k: Key)
    requires Agrees(b) && k in b.entries
    ensures Agrees(Deleted(b, k)) && View(Deleted(b, k)) == Without(View(b), k)
    ensures |Deleted(b, k).list| == |b.list| - 1
    ensures b.entries[k] !in Deleted(b, k).list
  {
    Points(b, k);
    var i :| 0 <= i < |b.list| && b.list[i] == b.entries[k];
    RemoveAt(b.list, i);
    CutAgrees(b, i, Deleted(b, k));
    ViewDistinct(b);
    WithoutAt(View(b), i);
  }

  /** PushFront of an element showing e, and insertion into the map. */
  ghost function Pushed<E>(b: Book<E>, el: E, e: Entry): Book<E> {
    Book([el] + b.list, b.entries[e.key := el], b.shown[el := e])
  }

  lemma PushedAgrees<E>(b: Book<E>, el: E, e: Entry)
    requires Agrees(b) && e.key !in b.entries && el !in b.list
    ensures Agrees(Pushed(b, el, e)) && View(Pushed(b, el, e)) == [e] + View(b)
  {
    var d := Pushed(b, el, e);
    forall i, j | 0 <= i < j < |d.list| ensures Nth(d.list, i) != Nth(d.list, j) {
      if i > 0 { assert Nth(b.list, i - 1) != Nth(b.list, j - 1); } else { assert d.list[j] in b.list; }
    }
    forall x | Listed(d, x) ensures x in d.shown && d.shown[x].key in d.entries && d.entries[d.shown[x].key] == x {
      assert x != el ==> Listed(b, x);
    }
    forall k | Keyed(d, k)
      ensures Listed(d, d.entries[k]) && d.entries[k] in d.shown && d.shown[d.entries[k]].key == k
    {
      if k != e.key { Points(b, k); }
    }
    AllShown(b);
  }

  /** MoveToFront, the element now showing e. */
  ghost function Promoted<E>(b: Book<E>, e: Entry): Book<E>
    requires e.key in b.entries
  {
    var el := b.entries[e.key];
    b.(list := [el] + Remove(b.list, el), shown := b.shown[el := e])
  }

  lemma PromotedAgrees<E>(b: Book<E>, e: Entry)
    requires Agrees(b) && e.key in b.entries
    ensures Agrees(Promoted(b, e)) && View(Promoted(b, e)) == Touch(View(b), e)
    ensures |Promoted(b, e).list| == |b.list|
  {
    var el := b.entries[e.key];
    DeletedAgrees(b, e.key);
    PushedAgrees(Deleted(b, e.key), el, e);
    assert (b.entries - {e.key})[e.key := el] == b.entries;
    assert Promoted(b, e) == Pushed(Deleted(b, e.key), el, e);
  }

  /** Removing the back of the list and its key. */
  function Popped<E>(b: Book<E>): Book<E>
    requires b.list != [] && b.list[|b.list| - 1] in b.shown
  {
    var n := |b.list| - 1;
    b.(list := b.list[..n], entries := b.entries - {b.shown[b.list[n]].key})
  }

  lemma PoppedAgrees<E>(b: Book<E>)
    requires Agrees(b) && b.list != []
    ensures b.list[|b.list| - 1] in b.shown
    ensures Agrees(Popped(b)) && View(Popped(b)) == View(b)[..|b.list| - 1]
  {
    var n := |b.list| - 1;
    AllShown(b);
    assert Cut(b.list, n) == b.list[..n] && Cut(View(b), n) == View(b)[..n];
    CutAgrees(b, n, Popped(b));
  }

  // -------------------------------------------- against the model

  /** Storing under a present key promotes. */
  lemma PutPresent<E>(b: Book<E>, e: Entry, cap: nat, evictions: nat, gauge: nat)
    requires Agrees(b) && e.key in b.entries
    ensures Agrees(Promoted(b, e)) && |Promoted(b, e).list| == |b.list|
    ensures Put(Cache(cap, View(b), evictions, gauge), e) == Cache(cap, View(Promoted(b, e)), evictions, gauge)
  {
    PromotedAgrees(b, e);
    ViewHas(b, e.key);
  }

  /** Storing under an absent key pushes, and pops when that overflows. */
  lemma PutAbsent<E>(b: Book<E>, el: E, e: Entry, cap: nat, evictions: nat, gauge: nat)
    requires Agrees(b) && e.key !in b.entries && el !in b.list && 1 <= cap && |b.list| <= cap
    ensures Agrees(Pushed(b, el, e)) && |Pushed(b, el, e).list| == |b.list| + 1
    ensures |b.list| < cap ==>
      Put(Cache(cap, View(b), evictions, gauge), e) == Cache(cap, View(Pushed(b, el, e)), evictions, |b.list| + 1)
    ensures |b.list| == cap ==>
      && b.list[cap - 1] in Pushed(b, el, e).shown && Agrees(Popped(Pushed(b, el, e)))
      && Put(Cache(cap, View(b), evictions, gauge), e) == Cache(cap, View(Popped(Pushed(b, el, e))), evictions + 1, cap)
  {
    PushedAgrees(b, el, e);
    ViewHas(b, e.key);
    if |b.list| == cap { PoppedAgrees(Pushed(b, el, e)); }
  }

  /** Looking up: absent, expired, or promoted unchanged. */
  lemma LookupCases<E>(b: Book<E>, k: Key, now: int, cap: nat, evictions: nat, gauge: nat)
    requires Agrees(b)
    ensures var c := Cache(cap, View(b), evictions, gauge);
      if k !in b.entries then Lookup(c, k, now) == (c, None)
      else
        && b.entries[k] in b.shown && b.shown[b.entries[k]].key == k
        && var e := b.shown[b.entries[k]];
        if now > e.expiresAt then
          && Agrees(Deleted(b, k)) && |Deleted(b, k).list| == |b.list| - 1
          && Lookup(c, k, now) == (Cache(cap, View(Deleted(b, k)), evictions + 1, |b.list| - 1), None)
        else
          && Agrees(Promoted(b, e)) && |Promoted(b, e).list| == |b.list|
          && Lookup(c, k, now) == (Cache(cap, View(Promoted(b, e)), evictions, gauge),
                                   Some(Aged(e.msg, AgeSeconds(now - e.storedAt))))
  {
    ViewHas(b, k);
    if k in b.entries {
      Points(b, k);
      DeletedAgrees(b, k);
      PromotedAgrees(b, b.shown[b.entries[k]]);
    }
  }
}
