/** Which names the label loops of the line parser accept, position by position. */
module Fqdn {
  import opened Text
  import opened Parse

  /** At most 253 lower-case letters, digits, hyphens and dots; no dot or hyphen at
      either end, nor a dot next to either; and no 64 characters in a row without a dot. */
  ghost predicate WellFormed(s: string) { 1 <= |s| <= 253 && LabelsOk(s) }

  ghost predicate LabelsOk(s: string) { CharsOk(s) && EdgesOk(s) && SeamsOk(s) && LabelsShort(s) }

  predicate CharsOk(s: string) {
    forall i :: 0 <= i < |s| ==> 'a' <= s[i] <= 'z' || '0' <= s[i] <= '9' || s[i] == '-' || s[i] == '.'
  }

  /** A dot or a hyphen, which no label begins or ends with. */
  predicate Inner(c: char) { c == '.' || c == '-' }

  predicate EdgesOk(s: string) { s != [] && !Inner(s[0]) && !Inner(s[|s| - 1]) }

  ghost predicate SeamsOk(s: string) { forall i {:trigger SeamAt(s, i)} :: SeamAt(s, i) }

  /** A dot inside the name stands between two labels. */
  predicate SeamAt(s: string, i: int) {
    0 < i < |s| - 1 && s[i] == '.' ==> !Inner(s[i - 1]) && !Inner(s[i + 1])
  }

  ghost predicate LabelsShort(s: string) {
    forall i {:trigger DotWithin(s, i)} :: 0 <= i && i + 64 <= |s| ==> DotWithin(s, i)
  }

  predicate DotWithin(s: string, i: int)
    requires 0 <= i && i + 64 <= |s|
  {
    exists j :: i <= j < i + 64 && s[j] == '.'
  }

  // ------------------------------------------------------------- one label

  lemma NoDot(l: string)
    requires '.' !in l
    ensures SeamsOk(l) && (LabelsShort(l) <==> |l| < 64)
  {
    assert forall i :: 0 <= i < |l| ==> l[i] in l;
    forall i ensures SeamAt(l, i) { }
    if |l| >= 64 { assert !DotWithin(l, 0); }
  }

  lemma OneLabel(l: string)
    requires '.' !in l
    ensures ValidLabel(l) <==> LabelsOk(l)
  {
    NoDot(l);
    assert forall i :: 0 <= i < |l| ==> l[i] in l;
  }

  // ------------------------------------------- a label, a dot and the rest

  lemma CharsSplit(l: string, rest: string)
    ensures CharsOk(l + ['.'] + rest) <==> CharsOk(l) && CharsOk(rest)
  {
    var s := l + ['.'] + rest;
    assert forall j :: 0 <= j < |l| ==> s[j] == l[j];
    forall j | 0 <= j < |rest| ensures rest[j] == s[|l| + 1 + j] { }
    if CharsOk(l) && CharsOk(rest) {
      forall j | |l| < j < |s| ensures s[j] == rest[j - |l| - 1] { }
    }
  }

  lemma SeamShift(l: string, rest: string, i: int)
    requires 0 < i < |rest| - 1
    ensures SeamAt(l + ['.'] + rest, |l| + 1 + i) <==> SeamAt(rest, i)
  {
    var s, n := l + ['.'] + rest, |l| + 1;
    assert s[n + i] == rest[i] && s[n + i - 1] == rest[i - 1] && s[n + i + 1] == rest[i + 1];
  }

  lemma SeamsOfWhole(l: string, rest: string)
    requires EdgesOk(l + ['.'] + rest) && SeamsOk(l + ['.'] + rest)
    ensures EdgesOk(l) && EdgesOk(rest) && SeamsOk(rest)
  {
    var s, n := l + ['.'] + rest, |l|;
    assert s[n] == '.';
    assert n > 0 && rest != [];
    assert SeamAt(s, n);
    assert s[0] == l[0] && s[n - 1] == l[n - 1] && s[n + 1] == rest[0] && s[|s| - 1] == rest[|rest| - 1];
    forall i ensures SeamAt(rest, i) {
      if 0 < i < |rest| - 1 { assert SeamAt(s, n + 1 + i); SeamShift(l, rest, i); }
    }
  }

  lemma SeamsOfParts(l: string, rest: string)
    requires '.' !in l && EdgesOk(l) && EdgesOk(rest) && SeamsOk(rest)
    ensures EdgesOk(l + ['.'] + rest) && SeamsOk(l + ['.'] + rest)
  {
    var s, n := l + ['.'] + rest, |l|;
    assert s[0] == l[0] && s[n - 1] == l[n - 1] && s[n + 1] == rest[0] && s[|s| - 1] == rest[|rest| - 1];
    forall i ensures SeamAt(s, i) {
      if 0 < i < n {
        assert s[i] == l[i] && l[i] in l;
      } else if n + 1 < i < |s| - 1 {
        assert SeamAt(rest, i - n - 1);
        SeamShift(l, rest, i - n - 1);
      }
    }
  }

  lemma ShortSplit(l: string, rest: string)
    requires '.' !in l
    ensures LabelsShort(l + ['.'] + rest) <==> |l| < 64 && LabelsShort(rest)
  {
    var s, n := l + ['.'] + rest, |l|;
    assert s[n] == '.';
    if n >= 64 {
      forall j | 0 <= j < 64 ensures s[j] != '.' { assert s[j] == l[j] && l[j] in l; }
      assert !DotWithin(s, 0);
    } else if LabelsShort(s) {
      forall i | 0 <= i && i + 64 <= |rest| ensures DotWithin(rest, i) {
        assert DotWithin(s, n + 1 + i);
        var j :| n + 1 + i <= j < n + 1 + i + 64 && s[j] == '.';
        assert rest[j - n - 1] == '.';
      }
    } else if LabelsShort(rest) {
      forall i | 0 <= i && i + 64 <= |s| ensures DotWithin(s, i) {
        if i > n {
          assert DotWithin(rest, i - n - 1);
          var j :| i - n - 1 <= j < i - n - 1 + 64 && rest[j] == '.';
          assert s[n + 1 + j] == '.';
        }
      }
    }
  }

  lemma FirstLabel(l: string, rest: string)
    requires '.' !in l
    ensures LabelsOk(l + ['.'] + rest) <==> ValidLabel(l) && LabelsOk(rest)
  {
    NoDot(l);
    OneLabel(l);
    CharsSplit(l, rest);
    ShortSplit(l, rest);
    if LabelsOk(l + ['.'] + rest) { SeamsOfWhole(l, rest); }
    if LabelsOk(l) && LabelsOk(rest) { SeamsOfParts(l, rest); }
  }

  lemma AllValidCons(l: string, rest: seq<string>)
    ensures AllValid([l] + rest) <==> ValidLabel(l) && AllValid(rest)
  {
    var labels := [l] + rest;
    assert labels[0] == l && forall m :: 0 <= m < |rest| ==> rest[m] == labels[m + 1];
    if ValidLabel(l) && AllValid(rest) {
      forall m | 0 <= m < |labels| ensures ValidLabel(labels[m]) {
        if m > 0 { assert labels[m] == rest[m - 1]; }
      }
    }
  }

  lemma {:induction false} LabelsExactly(s: string)
    ensures AllValid(Split(s)) <==> LabelsOk(s)
    decreases |s|
  {
    var i := IndexByte(s, '.');
    if i < 0 {
      OneLabel(s);
      AllValidCons(s, []);
      assert [s] + [] == [s];
    } else {
      var l, rest := s[..i], s[i + 1..];
      LabelsExactly(rest);
      assert s == l + ['.'] + rest;
      FirstLabel(l, rest);
      AllValidCons(l, Split(rest));
    }
  }

  /** The label loops accept exactly the well-formed names. */
  lemma ValidExactly(s: string)
    ensures ValidFqdn(s) <==> WellFormed(s)
  {
    LabelsExactly(s);
  }
}
