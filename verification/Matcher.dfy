/** Blocklist matching: exact name or any parent, by walking up the labels. */
module Matcher {
  import opened Text

  function Canonicalise(s: string): string {
    TrimSuffix(ToLower(TrimSpace(s)), ".")
  }

  /** e is q itself or a parent of q. */
  predicate Covers(e: string, q: string) {
    q == e || HasSuffix(q, "." + e)
  }

  predicate Blocked(entries: set<string>, qname: string) {
    var q := Canonicalise(qname);
    q != "" && exists e :: e in entries && Covers(e, q)
  }

  /** The entries a matcher is built from: canonical, non-empty, no duplicates. */
  function EntrySet(raw: seq<string>): set<string> {
    set i | 0 <= i < |raw| && Canonicalise(raw[i]) != "" :: Canonicalise(raw[i])
  }

  method NewMatcher(raw: seq<string>) returns (entries: set<string>)
    ensures entries == EntrySet(raw)
  {
    entries := {};
    for i := 0 to |raw|
      invariant entries == EntrySet(raw[..i])
    {
      var e := Canonicalise(raw[i]);
      EntrySetStep(raw, i);
      if e != "" {
        entries := entries + {e};
      }
    }
    assert raw[..|raw|] == raw;
  }

  lemma EntrySetStep(raw: seq<string>, i: nat)
    requires i < |raw|
    ensures var e := Canonicalise(raw[i]);
      EntrySet(raw[..i + 1]) == EntrySet(raw[..i]) + if e == "" then {} else {e}
  {
    var one := [raw[i]];
    assert raw[..i + 1] == raw[..i] + one;
    EntrySetConcat(raw[..i], one);
    assert one[0] == raw[i];
    assert Canonicalise(raw[i]) != "" ==> Canonicalise(one[0]) in EntrySet(one);
  }

  lemma EntrySetConcat(a: seq<string>, b: seq<string>)
    ensures EntrySet(a + b) == EntrySet(a) + EntrySet(b)
  {
    var c := a + b;
    forall e | e in EntrySet(a) + EntrySet(b) ensures e in EntrySet(c) {
      if i :| 0 <= i < |a| && e == Canonicalise(a[i]) && e != "" {
        assert c[i] == a[i];
      } else {
        var i :| 0 <= i < |b| && e == Canonicalise(b[i]) && e != "";
        assert c[|a| + i] == b[i];
      }
    }
  }

  /** Covering from a distance: position p of q holds the dot before e. */
  lemma CoversAt(q: string, e: string)
    ensures HasSuffix(q, "." + e) <==>
      var p := |q| - |e| - 1; p >= 0 && q[p] == '.' && q[p + 1..] == e
  {
    var p := |q| - |e| - 1;
    if p >= 0 {
      assert q[p..] == [q[p]] + q[p + 1..];
    }
  }

  /** One step up: what covers q, other than q itself, is what covers its parent. */
  lemma ParentStep(q: string, e: string, i: int)
    requires -1 <= i < |q|
    requires i < 0 ==> '.' !in q
    requires i >= 0 ==> q[i] == '.' && '.' !in q[..i]
    ensures Covers(e, q) <==> e == q || (i >= 0 && Covers(e, q[i + 1..]))
  {
    CoversAt(q, e);
    var p := |q| - |e| - 1;
    if i >= 0 {
      var parent := q[i + 1..];
      CoversAt(parent, e);
      if p > i {
        assert parent[p - i - 1] == q[p] && parent[p - i..] == q[p + 1..];
      } else if 0 <= p < i {
        assert q[p] == q[..i][p];
      }
    }
  }

  /** q is e, or ends in a dot followed by e. */
  predicate AtOrUnder(q: string, e: string) {
    || q == e
    || (|q| > |e| && q[|q| - |e| - 1] == '.' && forall i :: 0 <= i < |e| ==> q[|q| - |e| + i] == e[i])
  }

  lemma CoversExactly(e: string, q: string)
    ensures Covers(e, q) <==> AtOrUnder(q, e)
  {
    CoversAt(q, e);
    var p := |q| - |e| - 1;
    if p >= 0 {
      var tail := q[p + 1..];
      forall i | 0 <= i < |tail| ensures tail[i] == q[|q| - |e| + i] { }
      if AtOrUnder(q, e) && q != e { assert tail == e; }
    }
  }

  /** What blocking means: the canonical name is an entry or lies under one. */
  lemma BlockedExactly(entries: set<string>, qname: string)
    ensures Blocked(entries, qname) <==>
      Canonicalise(qname) != "" && exists e :: e in entries && AtOrUnder(Canonicalise(qname), e)
  {
    var q := Canonicalise(qname);
    forall e ensures Covers(e, q) <==> AtOrUnder(q, e) { CoversExactly(e, q); }
  }

  /** What the canonical form of a name is: its white space gone, in lower case, and
      without one dot at the end. */
  lemma CanonicalForm(pre: string, x: string, post: string)
    requires AllSpace(pre) && AllSpace(post) && x != [] && Trimmed(x)
    ensures var c := Canonicalise(pre + x + post);
      && |c| == (if x[|x| - 1] == '.' then |x| - 1 else |x|)
      && forall i :: 0 <= i < |c| ==> c[i] == LowerChar(x[i])
  {
    TrimSpaceOf(pre, x, post);
    HasSuffixChar(ToLower(x), '.');
    assert ToLower(x)[|x| - 1] == LowerChar(x[|x| - 1]);
  }

  /** The parent walk decides exactly "the canonical name is an entry or ends in
      a dot followed by an entry", and terminates. */
  method Match(entries: set<string>, qname: string) returns (r: bool)
    ensures r == Blocked(entries, qname)
    ensures r <==> Canonicalise(qname) != "" && exists e :: e in entries && AtOrUnder(Canonicalise(qname), e)
  {
    var q := Canonicalise(qname);
    if q == "" {
      return false;
    }
    ghost var start := q;
    BlockedExactly(entries, qname);
    while true
      invariant forall e :: e in entries ==> (Covers(e, start) <==> Covers(e, q))
      decreases |q|
    {
      if q in entries {
        assert Covers(q, q);
        return true;
      }
      var i := IndexByte(q, '.');
      forall e | e in entries ensures Covers(e, q) <==> i >= 0 && Covers(e, q[i + 1..]) {
        ParentStep(q, e, i);
      }
      if i < 0 {
        return false;
      }
      q := q[i + 1..];
    }
  }

  // ------------------------------------------------- what that amounts to

  lemma CoversTransitive(a: string, b: string, c: string)
    requires Covers(a, b) && Covers(b, c)
    ensures Covers(a, c)
  {
    if a != b && b != c {
      assert c[|c| - |a| - 1..] == ("." + b)[|b| - |a|..];
      assert ("." + b)[|b| - |a|..] == b[|b| - |a| - 1..];
    }
  }

  /** Dropping an entry that lies under another entry changes no answer. */
  lemma RedundantEntry(entries: set<string>, e: string, parent: string, qname: string)
    requires parent in entries && e != parent && Covers(parent, e)
    ensures Blocked(entries - {e}, qname) <==> Blocked(entries, qname)
  {
    var q := Canonicalise(qname);
    if Blocked(entries, qname) {
      var x :| x in entries && Covers(x, q);
      if x == e {
        CoversTransitive(parent, e, q);
        assert parent in entries - {e};
      } else {
        assert x in entries - {e};
      }
    }
  }

  function Flatten(lists: seq<seq<string>>): seq<string> {
    if lists == [] then [] else Flatten(lists[..|lists| - 1]) + lists[|lists| - 1]
  }

  /** A matcher over concatenated sources blocks what any one source blocks. */
  lemma {:induction false} SourcesAreDisjunction(lists: seq<seq<string>>, qname: string)
    ensures Blocked(EntrySet(Flatten(lists)), qname) <==>
            exists i :: 0 <= i < |lists| && Blocked(EntrySet(lists[i]), qname)
  {
    if lists == [] {
      assert EntrySet(Flatten(lists)) == {};
    } else {
      var n := |lists| - 1;
      SourcesAreDisjunction(lists[..n], qname);
      EntrySetConcat(Flatten(lists[..n]), lists[n]);
      assert forall i :: 0 <= i < n ==> lists[i] == lists[..n][i];
      var q := Canonicalise(qname);
      assert Blocked(EntrySet(Flatten(lists)), qname) <==>
             Blocked(EntrySet(Flatten(lists[..n])), qname) || Blocked(EntrySet(lists[n]), qname) by {
        BlockedUnion(EntrySet(Flatten(lists[..n])), EntrySet(lists[n]), qname);
      }
    }
  }

  lemma BlockedUnion(a: set<string>, b: set<string>, qname: string)
    ensures Blocked(a + b, qname) <==> Blocked(a, qname) || Blocked(b, qname)
  {
    var q := Canonicalise(qname);
    if e :| e in a + b && Covers(e, q) { assert e in a || e in b; }
    if e :| e in a && Covers(e, q) { assert e in a + b; }
    if e :| e in b && Covers(e, q) { assert e in a + b; }
  }

  // ------------------------------------------------------------- Loader

  datatype Loaded = Entries(lines: seq<string>) | Failed(error: string)
  datatype LoadResult = Built(entries: set<string>, raw: nat) | SourceFailed(index: nat, error: string)

  /** How many entries the sources hold together, before duplicates are dropped. */
  function TotalEntries(sources: seq<Loaded>): nat
    requires forall i :: 0 <= i < |sources| ==> sources[i].Entries?
  {
    if sources == [] then 0
    else TotalEntries(sources[..|sources| - 1]) + |sources[|sources| - 1].lines|
  }

  /** One source counts its own entries, and the counts add up. */
  lemma {:induction false} TotalAdds(a: seq<Loaded>, b: seq<Loaded>)
    requires forall i :: 0 <= i < |a| ==> a[i].Entries?
    requires forall i :: 0 <= i < |b| ==> b[i].Entries?
    ensures TotalEntries(a + b) == TotalEntries(a) + TotalEntries(b)
    ensures |b| == 1 ==> TotalEntries(b) == |b[0].lines|
  {
    var c := a + b;
    if b == [] {
      assert c == a;
    } else {
      var n := |b| - 1;
      TotalAdds(a, b[..n]);
      assert c[..|c| - 1] == a + b[..n];
    }
  }

  /** Load every source in order and build one matcher; stop at the first failure. */
  method Load(sources: seq<Loaded>) returns (r: LoadResult)
    ensures r.Built? <==> forall i :: 0 <= i < |sources| ==> sources[i].Entries?
    ensures r.Built? ==>
      forall qname :: Blocked(r.entries, qname) <==>
        exists i :: 0 <= i < |sources| && Blocked(EntrySet(sources[i].lines), qname)
    ensures r.Built? ==> r.raw == TotalEntries(sources)
    ensures r.SourceFailed? ==>
      && r.index < |sources| && sources[r.index] == Failed(r.error)
      && forall i :: 0 <= i < r.index ==> sources[i].Entries?
  {
    var all := [];
    ghost var lists := [];
    for i := 0 to |sources|
      invariant |lists| == i && forall j :: 0 <= j < i ==> sources[j].Entries? && lists[j] == sources[j].lines
      invariant all == Flatten(lists) && |all| == TotalEntries(sources[..i])
    {
      if sources[i].Failed? {
        return SourceFailed(i, sources[i].error);
      }
      all := all + sources[i].lines;
      ghost var more := lists + [sources[i].lines];
      assert more[..i] == lists && sources[..i + 1][..i] == sources[..i];
      lists := more;
    }
    assert sources[..|sources|] == sources;
    var entries := NewMatcher(all);
    forall qname ensures Blocked(entries, qname) <==>
        exists i :: 0 <= i < |sources| && Blocked(EntrySet(sources[i].lines), qname) {
      SourcesAreDisjunction(lists, qname);
    }
    return Built(entries, |all|);
  }
}
