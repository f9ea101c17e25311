/** The string operations the code takes from Go's standard library, on strings
    of bytes.  Letters and white space are the ASCII ones. */
module Text {
  function LowerChar(c: char): (r: char)
    ensures !('A' <= r <= 'Z')
    ensures if 65 <= c as int <= 90 then r as int == c as int + 32 else r == c
  {
    if 'A' <= c <= 'Z' then c - 'A' + 'a' else c
  }

  function ToLower(s: string): (r: string)
    ensures |r| == |s| && forall i :: 0 <= i < |s| ==> r[i] == LowerChar(s[i])
  {
    seq(|s|, i requires 0 <= i < |s| => LowerChar(s[i]))
  }

  predicate IsSpace(c: char): (r: bool)
    ensures r <==> 9 <= c as int <= 13 || c as int == 32
  {
    c == '\t' || c == '\n' || c == 11 as char || c == 12 as char || c == '\r' || c == ' '
  }

  predicate NoSpace(s: string) { forall i :: 0 <= i < |s| ==> !IsSpace(s[i]) }

  function TrimLeft(s: string): string {
    if s != [] && IsSpace(s[0]) then TrimLeft(s[1..]) else s
  }

  function TrimRight(s: string): string {
    if s != [] && IsSpace(s[|s| - 1]) then TrimRight(s[..|s| - 1]) else s
  }

  function TrimSpace(s: string): string { TrimRight(TrimLeft(s)) }

  function TrimSuffix(s: string, suffix: string): string {
    if HasSuffix(s, suffix) then s[..|s| - |suffix|] else s
  }

  predicate HasSuffix(s: string, suffix: string) {
    |suffix| <= |s| && s[|s| - |suffix|..] == suffix
  }

  function TrimPrefix(s: string, prefix: string): string {
    if prefix <= s then s[|prefix|..] else s
  }

  /** A suffix is what is left after some beginning, and trimming it leaves that. */
  lemma SuffixOf(p: string, suffix: string)
    ensures HasSuffix(p + suffix, suffix) && TrimSuffix(p + suffix, suffix) == p
  {
    assert (p + suffix)[|p|..] == suffix && (p + suffix)[..|p|] == p;
  }

  lemma SuffixExactly(s: string, suffix: string)
    ensures HasSuffix(s, suffix) <==> exists p :: s == p + suffix
    ensures !HasSuffix(s, suffix) ==> TrimSuffix(s, suffix) == s
  {
    if HasSuffix(s, suffix) {
      assert s == s[..|s| - |suffix|] + suffix;
    }
    if p :| s == p + suffix { SuffixOf(p, suffix); }
  }

  predicate AllSpace(s: string) { forall i :: 0 <= i < |s| ==> IsSpace(s[i]) }

  /** Neither end is white space. */
  predicate Trimmed(s: string) { s != [] ==> !IsSpace(s[0]) && !IsSpace(s[|s| - 1]) }

  lemma {:induction false} TrimLeftOf(pre: string, x: string)
    requires AllSpace(pre) && (x == [] || !IsSpace(x[0]))
    ensures TrimLeft(pre + x) == x
  {
    if pre != [] {
      assert (pre + x)[1..] == pre[1..] + x;
      TrimLeftOf(pre[1..], x);
    } else {
      assert pre + x == x;
    }
  }

  lemma {:induction false} TrimRightOf(x: string, post: string)
    requires AllSpace(post) && (x == [] || !IsSpace(x[|x| - 1]))
    ensures TrimRight(x + post) == x
  {
    if post != [] {
      assert (x + post)[..|x + post| - 1] == x + post[..|post| - 1];
      TrimRightOf(x, post[..|post| - 1]);
    } else {
      assert x + post == x;
    }
  }

  lemma TrimSpaceOf(pre: string, x: string, post: string)
    requires AllSpace(pre) && AllSpace(post) && x != [] && Trimmed(x)
    ensures TrimSpace(pre + x + post) == x
  {
    assert pre + x + post == pre + (x + post);
    TrimLeftOf(pre, x + post);
    TrimRightOf(x, post);
  }

  lemma {:induction false} TrimLeftCuts(s: string) returns (n: nat)
    ensures n <= |s| && AllSpace(s[..n]) && TrimLeft(s) == s[n..] && (n < |s| ==> !IsSpace(s[n]))
  {
    n := 0;
    if s != [] && IsSpace(s[0]) {
      n := TrimLeftCuts(s[1..]);
      assert s[..n + 1] == [s[0]] + s[1..][..n];
      n := n + 1;
    }
  }

  lemma {:induction false} TrimRightCuts(s: string) returns (n: nat)
    ensures n <= |s| && AllSpace(s[n..]) && TrimRight(s) == s[..n] && (n > 0 ==> !IsSpace(s[n - 1]))
  {
    n := |s|;
    if s != [] && IsSpace(s[|s| - 1]) {
      var m := |s| - 1;
      n := TrimRightCuts(s[..m]);
      assert s[n..] == s[..m][n..] + [s[m]];
    }
  }

  lemma TrimSpaceTrims(s: string)
    ensures Trimmed(TrimSpace(s))
  {
    var a := TrimLeftCuts(s);
    var t := TrimLeft(s);
    var b := TrimRightCuts(t);
  }

  lemma TrimSpaceIdle(s: string)
    requires Trimmed(s)
    ensures TrimSpace(s) == s
  {
    if s != [] { TrimSpaceOf([], s, []); assert [] + s + [] == s; }
  }

  /** Length of the leading run without white space. */
  function WordLen(s: string): (n: nat)
    ensures n <= |s| && NoSpace(s[..n]) && (n < |s| ==> IsSpace(s[n]))
    ensures s != [] && !IsSpace(s[0]) ==> n > 0
  {
    if s == [] || IsSpace(s[0]) then 0
    else
      var n := 1 + WordLen(s[1..]);
      assert s[..n] == [s[0]] + s[1..][..n - 1];
      n
  }

  /** strings.Fields: the words between white space. */
  function Fields(s: string): seq<string>
    decreases |s|
  {
    var t := TrimLeft(s);
    assert |t| <= |s| by { var n := TrimLeftCuts(s); }
    assert t != [] ==> !IsSpace(t[0]) by { var n := TrimLeftCuts(s); }
    if t == [] then [] else [t[..WordLen(t)]] + Fields(t[WordLen(t)..])
  }

  lemma {:induction false} WordLenOf(w: string, rest: string)
    requires NoSpace(w) && (rest == [] || IsSpace(rest[0]))
    ensures WordLen(w + rest) == |w|
  {
    if w == [] {
      assert w + rest == rest;
    } else {
      assert (w + rest)[1..] == w[1..] + rest;
      WordLenOf(w[1..], rest);
    }
  }

  lemma FieldsOne(w: string)
    requires w != [] && NoSpace(w)
    ensures Fields(w) == [w]
  {
    TrimLeftOf([], w);
    assert [] + w == w && w + [] == w;
    WordLenOf(w, []);
    assert w[..|w|] == w && w[|w|..] == [];
  }

  lemma FieldsTwo(a: string, gap: string, b: string)
    requires a != [] && NoSpace(a) && b != [] && NoSpace(b) && gap != [] && AllSpace(gap)
    ensures Fields(a + gap + b) == [a, b]
  {
    var s := a + gap + b;
    assert s == a + (gap + b) && [] + s == s;
    TrimLeftOf([], s);
    WordLenOf(a, gap + b);
    assert s[..|a|] == a && s[|a|..] == gap + b;
    TrimLeftOf(gap, b);
    FieldsOne(b);
    assert TrimLeft(b) == b by { TrimLeftOf([], b); assert [] + b == b; }
    assert Fields(gap + b) == Fields(b);
  }

  /** A string is its trimmed self between white space. */
  lemma TrimSpaceSplits(s: string) returns (pre: string, post: string)
    ensures AllSpace(pre) && AllSpace(post) && s == pre + TrimSpace(s) + post
  {
    var n := TrimLeftCuts(s);
    var t := TrimLeft(s);
    var m := TrimRightCuts(t);
    pre, post := s[..n], t[m..];
    assert s == s[..n] + s[n..] && t == t[..m] + t[m..];
  }

  lemma NoFields(s: string)
    requires Fields(s) == []
    ensures AllSpace(s)
  {
    var n := TrimLeftCuts(s);
    assert s == s[..n] + s[n..];
  }

  lemma FieldsStep(s: string)
    requires s != [] && !IsSpace(s[0])
    ensures var n := WordLen(s);
      Fields(s) == [s[..n]] + Fields(s[n..]) && Fields(s)[0] == s[..n] && Fields(s)[1..] == Fields(s[n..])
  {
    TrimLeftOf([], s);
    assert [] + s == s;
  }

  /** A trimmed line with one field is that field. */
  lemma OneField(s: string, a: string)
    requires s != [] && Trimmed(s) && Fields(s) == [a]
    ensures s == a
  {
    FieldsStep(s);
    var n := WordLen(s);
    assert Fields(s[n..]) == [a][1..];
    NoFields(s[n..]);
    assert s[..|s|] == s;
  }

  /** One field after white space. */
  lemma SpacedField(s: string, b: string) returns (gap: string)
    requires s != [] && !IsSpace(s[|s| - 1]) && Fields(s) == [b]
    ensures AllSpace(gap) && s == gap + b && b != [] && !IsSpace(b[0])
  {
    var g := TrimLeftCuts(s);
    var t := s[g..];
    gap := s[..g];
    FieldsAfterSpace(gap, t);
    assert s == gap + t && t != [];
    assert t[|t| - 1] == s[|s| - 1];
    OneField(t, b);
  }

  lemma FieldsAfterSpace(gap: string, t: string)
    requires AllSpace(gap) && (t == [] || !IsSpace(t[0]))
    ensures Fields(gap + t) == Fields(t)
  {
    TrimLeftOf(gap, t);
    TrimLeftOf([], t);
    assert [] + t == t;
  }

  /** A trimmed line with two fields is those fields and white space between them. */
  lemma TwoFields(s: string, a: string, b: string) returns (gap: string)
    requires s != [] && Trimmed(s) && Fields(s) == [a, b]
    ensures gap != [] && AllSpace(gap) && s == a + gap + b
  {
    FieldsStep(s);
    var n := WordLen(s);
    assert [a, b][1..] == [b];
    gap := SpacedField(s[n..], b);
    assert s == s[..n] + s[n..];
    assert s[n] == (gap + b)[0];
  }

  /** Every field is a non-empty word. */
  lemma {:induction false} FieldsAreWords(s: string)
    ensures forall i :: 0 <= i < |Fields(s)| ==> Fields(s)[i] != [] && NoSpace(Fields(s)[i])
    decreases |s|
  {
    var n := TrimLeftCuts(s);
    var t := TrimLeft(s);
    if t != [] { FieldsAreWords(t[WordLen(t)..]); }
  }

  /** The position of the first c, or -1. */
  function IndexByte(s: string, c: char): (i: int)
    ensures -1 <= i < |s|
    ensures i >= 0 ==> s[i] == c && c !in s[..i]
    ensures i < 0 ==> c !in s
  {
    if s == [] then -1
    else if s[0] == c then 0
    else
      var j := IndexByte(s[1..], c);
      assert s == [s[0]] + s[1..];
      if j < 0 then -1 else assert s[..j + 1] == [s[0]] + s[1..][..j]; j + 1
  }

  /** The position of the last c, or -1. */
  function LastIndexByte(s: string, c: char): (i: int)
    ensures -1 <= i < |s|
    ensures i >= 0 ==> s[i] == c && c !in s[i + 1..]
    ensures i < 0 ==> c !in s
  {
    if s == [] then -1
    else
      var n := |s| - 1;
      if s[n] == c then n
      else
        var j := LastIndexByte(s[..n], c);
        assert s == s[..n] + [s[n]];
        if j >= 0 then assert s[j + 1..] == s[..n][j + 1..] + [s[n]]; j else j
  }

  lemma HasSuffixChar(s: string, c: char)
    ensures HasSuffix(s, [c]) <==> s != [] && s[|s| - 1] == c
  {
    if s != [] { assert s[|s| - 1..] == [s[|s| - 1]]; }
  }

  /** Cutting at a known position that holds the only, first or last c. */
  lemma CutUnique(a: string, b: string, a': string, b': string, c: char)
    requires a + [c] + b == a' + [c] + b'
    requires (c !in a && c !in a') || (c !in b && c !in b')
    ensures a == a' && b == b'
  {
    var s := a + [c] + b;
    assert s[|a|] == c && s[|a'|] == c by { assert s == a' + [c] + b'; }
    assert a == s[..|a|] && b == s[|a| + 1..];
    assert a' == s[..|a'|] && b' == s[|a'| + 1..];
  }

  lemma {:induction false} FirstAt(s: string, c: char, n: nat)
    requires n < |s| && s[n] == c && c !in s[..n]
    ensures IndexByte(s, c) == n
  {
    if n > 0 {
      assert s[0] == s[..n][0];
      assert s[1..][..n - 1] == s[..n][1..];
      FirstAt(s[1..], c, n - 1);
    }
  }

  lemma {:induction false} LastAt(s: string, c: char, n: nat)
    requires n < |s| && s[n] == c && c !in s[n + 1..]
    ensures LastIndexByte(s, c) == n
  {
    var m := |s| - 1;
    if n < m {
      assert s[m] == s[n + 1..][m - n - 1];
      assert s[n + 1..] == s[..m][n + 1..] + [s[m]];
      LastAt(s[..m], c, n);
    }
  }

  // ------------------------------------------------ decimal numbers

  function Decimal(n: nat): (s: string)
    ensures s != [] && forall c :: c in s ==> '0' <= c <= '9'
  {
    var d := [(n % 10) as char + '0'];
    if n < 10 then d else Decimal(n / 10) + d
  }

  function Number(s: string): int {
    if s == [] then 0 else 10 * Number(s[..|s| - 1]) + (s[|s| - 1] as int - '0' as int)
  }

  lemma {:induction false} NumberOfDecimal(n: nat)
    ensures Number(Decimal(n)) == n
  {
    var s := Decimal(n);
    var m := |s| - 1;
    if n < 10 {
      assert s[..m] == [];
    } else {
      NumberOfDecimal(n / 10);
      assert s[..m] == Decimal(n / 10);
    }
  }
}
