/** One line of a blocklist file, and a whole body of lines. */
module Parse {
  import opened Dns
  import opened Text
  import opened Matcher

  const BOM: string := [239 as char, 187 as char, 191 as char]
  const MAX_NAME := 253
  const MAX_LABEL := 63

  predicate IsHostsAnchor(s: string) {
    s == "0.0.0.0" || s == "127.0.0.1" || s == "::" || s == "::1"
  }

  function Split(s: string): seq<string>
    decreases |s|
  {
    var i := IndexByte(s, '.');
    if i < 0 then [s] else [s[..i]] + Split(s[i + 1..])
  }

  predicate LabelChar(c: char): (r: bool)
    ensures r <==> 97 <= c as int <= 122 || 48 <= c as int <= 57 || c as int == 45
  {
    'a' <= c <= 'z' || '0' <= c <= '9' || c == '-'
  }

  predicate ValidLabel(l: string) {
    && 1 <= |l| <= MAX_LABEL
    && l[0] != '-' && l[|l| - 1] != '-'
    && forall i :: 0 <= i < |l| ==> LabelChar(l[i])
  }

  predicate AllValid(labels: seq<string>) { forall i :: 0 <= i < |labels| ==> ValidLabel(labels[i]) }

  /** Section 2.3.4 of RFC 1035, lower case only; see `ValidExactly`. */
  predicate ValidFqdn(s: string) {
    s != "" && |s| <= MAX_NAME && AllValid(Split(s))
  }

  method IsValidFqdn(s: string) returns (r: bool)
    ensures r == ValidFqdn(s)
  {
    if s == "" || |s| > MAX_NAME {
      return false;
    }
    var labels := Split(s);
    for n := 0 to |labels|
      invariant forall m :: 0 <= m < n ==> ValidLabel(labels[m])
    {
      var label' := labels[n];
      if |label'| == 0 || |label'| > MAX_LABEL {
        return false;
      }
      if label'[0] == '-' || label'[|label'| - 1] == '-' {
        return false;
      }
      for i := 0 to |label'|
        invariant forall j :: 0 <= j < i ==> LabelChar(label'[j])
      {
        if !LabelChar(label'[i]) {
          return false;
        }
      }
    }
    return true;
  }

  function ParseLine(raw: string): Option<string> {
    var line := TrimSpace(TrimPrefix(raw, BOM));
    if line == "" || line[0] == '#' || line[0] == ';' || line[0] == '!' then None
    else
      var fields := Fields(line);
      if |fields| == 1 then Accept(fields[0])
      else if |fields| == 2 && IsHostsAnchor(fields[0]) then Accept(fields[1])
      else None
  }

  function Accept(field: string): Option<string> {
    var domain := Canonicalise(field);
    if ValidFqdn(domain) then Some(domain) else None
  }

  // ------------------------------------------------------------ normal form

  /** A valid name is made of label characters and inner dots only. */
  lemma {:induction false} ValidNameChars(s: string)
    requires AllValid(Split(s))
    ensures s != [] && s[0] != '.' && s[|s| - 1] != '.'
    ensures forall j :: 0 <= j < |s| ==> LabelChar(s[j]) || s[j] == '.'
    decreases |s|
  {
    var i := IndexByte(s, '.');
    var labels := Split(s);
    assert ValidLabel(labels[0]);
    if i >= 0 {
      var rest := s[i + 1..];
      assert labels[1..] == Split(rest);
      assert forall m :: 0 <= m < |Split(rest)| ==> Split(rest)[m] == labels[m + 1];
      ValidNameChars(rest);
      forall j | 0 <= j < |s| ensures LabelChar(s[j]) || s[j] == '.' {
        if j < i { assert s[j] == labels[0][j]; } else if j > i { assert s[j] == rest[j - i - 1]; }
      }
      assert s[0] == labels[0][0];
      assert s[|s| - 1] == rest[|rest| - 1];
    }
  }

  /** A valid name is left alone by canonicalise. */
  lemma ValidNameCanonical(d: string)
    requires ValidFqdn(d)
    ensures Canonicalise(d) == d && NoSpace(d)
  {
    ValidNameChars(d);
    TrimSpaceIdle(d);
    assert ToLower(d) == d;
    HasSuffixChar(d, '.');
  }

  /** Whatever a line parses to is a valid name in canonical form. */
  lemma ParsedIsNormal(raw: string)
    ensures ParseLine(raw).Some? ==>
      ValidFqdn(ParseLine(raw).value) && Canonicalise(ParseLine(raw).value) == ParseLine(raw).value
  {
    if ParseLine(raw).Some? { ValidNameCanonical(ParseLine(raw).value); }
  }

  /** So the matcher's set is exactly the set of parsed names. */
  lemma ParsedSetExact(names: seq<string>)
    requires forall i :: 0 <= i < |names| ==> ValidFqdn(names[i])
    ensures EntrySet(names) == set n | n in names
  {
    forall i | 0 <= i < |names| ensures Canonicalise(names[i]) == names[i] && names[i] != "" {
      ValidNameCanonical(names[i]);
    }
    forall n | n in names ensures n in EntrySet(names) {
      var i :| 0 <= i < |names| && names[i] == n;
      assert Canonicalise(names[i]) in EntrySet(names);
    }
  }

  lemma NamesBlock(names: seq<string>, qname: string)
    requires forall i :: 0 <= i < |names| ==> ValidFqdn(names[i])
    ensures Blocked(EntrySet(names), qname) <==>
      Canonicalise(qname) != "" && exists d :: d in names && Covers(d, Canonicalise(qname))
  {
    ParsedSetExact(names);
  }

  // ------------------------------------------------------------- round trip

  /** x spells d: in any case, with or without the trailing dot. */
  predicate Spells(x: string, d: string) { ToLower(x) == d || ToLower(x) == d + "." }

  lemma SpellingChars(x: string, d: string)
    requires ValidFqdn(d) && Spells(x, d)
    ensures x != [] && NoSpace(x)
    ensures x[0] != '#' && x[0] != ';' && x[0] != '!' && x[0] != BOM[0]
  {
    ValidNameChars(d);
    var l := ToLower(x);
    forall i | 0 <= i < |x| ensures l[i] == LowerChar(x[i]) && (l[i] == '.' || LabelChar(l[i])) {
    }
    assert l[0] == LowerChar(x[0]);
  }

  lemma SpellingAccepted(x: string, d: string)
    requires ValidFqdn(d) && Spells(x, d)
    ensures Accept(x) == Some(d)
  {
    SpellingChars(x, d);
    TrimSpaceIdle(x);
    var l := ToLower(x);
    HasSuffixChar(l, '.');
    if l == d { ValidNameChars(d); } else { assert l[..|l| - 1] == d; }
  }

  /** Every spelling of a valid name parses back to it, with or without a
      byte-order mark and surrounding white space. */
  lemma RoundTripPlain(bom: string, pre: string, x: string, post: string, d: string)
    requires bom == BOM || bom == []
    requires ValidFqdn(d) && Spells(x, d) && AllSpace(pre) && AllSpace(post)
    ensures ParseLine(bom + (pre + x + post)) == Some(d)
  {
    SpellingChars(x, d);
    SpellingAccepted(x, d);
    FieldsOne(x);
    Wrapped(bom, pre, x, post);
  }

  lemma AnchorWord(a: string)
    requires IsHostsAnchor(a)
    ensures a != [] && NoSpace(a) && (a[0] == '0' || a[0] == '1' || a[0] == ':')
  {
  }

  /** So does a hosts line: an anchor, white space and a spelling. */
  lemma RoundTripHosts(bom: string, pre: string, anchor: string, gap: string, x: string, post: string, d: string)
    requires bom == BOM || bom == []
    requires ValidFqdn(d) && Spells(x, d) && AllSpace(pre) && AllSpace(post)
    requires IsHostsAnchor(anchor) && AllSpace(gap) && gap != []
    ensures ParseLine(bom + (pre + (anchor + gap + x) + post)) == Some(d)
  {
    SpellingChars(x, d);
    SpellingAccepted(x, d);
    AnchorWord(anchor);
    FieldsTwo(anchor, gap, x);
    var y := anchor + gap + x;
    assert y[0] == anchor[0] && y[|y| - 1] == x[|x| - 1];
    Wrapped(bom, pre, y, post);
    HostsFields(bom + (pre + y + post), y, anchor, x);
  }

  lemma HostsFields(raw: string, line: string, anchor: string, x: string)
    requires TrimSpace(TrimPrefix(raw, BOM)) == line && line != "" && Fields(line) == [anchor, x]
    requires line[0] != '#' && line[0] != ';' && line[0] != '!' && IsHostsAnchor(anchor)
    ensures ParseLine(raw) == Accept(x)
  {
  }

  /** The mark and the white space around a line go away. */
  lemma Wrapped(bom: string, pre: string, x: string, post: string)
    requires bom == BOM || bom == []
    requires AllSpace(pre) && AllSpace(post) && x != [] && Trimmed(x) && x[0] != BOM[0]
    ensures TrimSpace(TrimPrefix(bom + (pre + x + post), BOM)) == x
  {
    var s := pre + x + post;
    TrimSpaceOf(pre, x, post);
    if bom == [] {
      assert bom + s == s;
      assert s[0] == if pre == [] then x[0] else pre[0];
      assert !(BOM <= s);
    } else {
      assert (bom + s)[..3] == BOM && (bom + s)[3..] == s;
    }
  }

  // ------------------------------------------------- exactly which lines

  /** Nothing, or the three bytes of a UTF-8 byte-order mark. */
  predicate Mark(bom: string) {
    bom == [] || (|bom| == 3 && bom[0] as int == 0xEF && bom[1] as int == 0xBB && bom[2] as int == 0xBF)
  }

  lemma MarkIs(bom: string)
    ensures Mark(bom) <==> bom == BOM || bom == []
  {
    if Mark(bom) && bom != [] { assert bom == BOM; }
  }

  /** raw is a spelling of d, perhaps marked and surrounded by white space. */
  predicate PlainLine(raw: string, d: string, bom: string, pre: string, x: string, post: string) {
    && Mark(bom) && AllSpace(pre) && AllSpace(post)
    && Spells(x, d) && raw == bom + (pre + x + post)
  }

  /** raw is a hosts line for d. */
  predicate HostsLine(raw: string, d: string, bom: string, pre: string, anchor: string, gap: string,
                      x: string, post: string)
  {
    && Mark(bom) && AllSpace(pre) && AllSpace(post)
    && (anchor == "0.0.0.0" || anchor == "127.0.0.1" || anchor == "::" || anchor == "::1")
    && gap != [] && AllSpace(gap)
    && Spells(x, d) && raw == bom + (pre + (anchor + gap + x) + post)
  }

  ghost predicate Spelled(raw: string, d: string) {
    || (exists bom, pre, x, post :: PlainLine(raw, d, bom, pre, x, post))
    || (exists bom, pre, anchor, gap, x, post :: HostsLine(raw, d, bom, pre, anchor, gap, x, post))
  }

  lemma AcceptedSpells(x: string, d: string)
    requires NoSpace(x) && Accept(x) == Some(d)
    ensures Spells(x, d)
  {
    TrimSpaceIdle(x);
    var l := ToLower(x);
    HasSuffixChar(l, '.');
    assert l != [] ==> l == l[..|l| - 1] + [l[|l| - 1]];
  }

  lemma ParsedIsSpelled(raw: string, d: string)
    requires ParseLine(raw) == Some(d)
    ensures Spelled(raw, d)
  {
    var bom := if BOM <= raw then BOM else [];
    var rest := TrimPrefix(raw, BOM);
    assert raw == bom + rest;
    MarkIs(bom);
    var line := TrimSpace(rest);
    TrimSpaceTrims(rest);
    var pre, post := TrimSpaceSplits(rest);
    var fields := Fields(line);
    FieldsAreWords(line);
    if |fields| == 1 {
      AcceptedSpells(fields[0], d);
      OneField(line, fields[0]);
      assert PlainLine(raw, d, bom, pre, fields[0], post);
    } else {
      AcceptedSpells(fields[1], d);
      var gap := TwoFields(line, fields[0], fields[1]);
      assert HostsLine(raw, d, bom, pre, fields[0], gap, fields[1], post);
    }
  }

  /** A line parses to d exactly when it is a plain or a hosts line for d. */
  lemma ParseExactly(raw: string, d: string)
    requires ValidFqdn(d)
    ensures ParseLine(raw) == Some(d) <==> Spelled(raw, d)
  {
    if ParseLine(raw) == Some(d) {
      ParsedIsSpelled(raw, d);
    }
    if bom, pre, x, post :| PlainLine(raw, d, bom, pre, x, post) {
      MarkIs(bom);
      RoundTripPlain(bom, pre, x, post, d);
    }
    if bom, pre, anchor, gap, x, post :| HostsLine(raw, d, bom, pre, anchor, gap, x, post) {
      MarkIs(bom);
      RoundTripHosts(bom, pre, anchor, gap, x, post, d);
    }
  }

  // --------------------------------------------------------- canonicalise

  /** canonicalise is not idempotent. */
  lemma CanonicaliseTwice()
    ensures Canonicalise("a..") == "a." && Canonicalise("a.") == "a"
  {
    TrimSpaceIdle("a..");
    TrimSpaceIdle("a.");
    assert ToLower("a..") == "a.." && ToLower("a.") == "a.";
    assert HasSuffix("a..", ".") && HasSuffix("a.", ".");
  }

  /** A lower-case string is canonical exactly when neither end is white space
      and it does not end in a dot. */
  lemma CanonicalIff(c: string)
    requires ToLower(c) == c
    ensures Canonicalise(c) == c <==> Trimmed(c) && (c == [] || c[|c| - 1] != '.')
  {
    if Trimmed(c) {
      TrimSpaceIdle(c);
      HasSuffixChar(c, '.');
    } else {
      var a := TrimLeftCuts(c);
      var b := TrimRightCuts(TrimLeft(c));
      assert |TrimSpace(c)| < |c|;
    }
  }

  /** It is idempotent exactly on names that do not end in a dot preceded by
      another dot or by white space. */
  lemma CanonicaliseIdempotentIff(s: string)
    ensures Canonicalise(Canonicalise(s)) == Canonicalise(s) <==>
      var t := TrimSpace(s);
      !(|t| >= 2 && t[|t| - 1] == '.' && (t[|t| - 2] == '.' || IsSpace(t[|t| - 2])))
  {
    TrimSpaceTrims(s);
    StrippedIff(TrimSpace(s));
    CanonicalIff(Canonicalise(s));
  }

  /** Dropping the dot of a trimmed name leaves neither white space nor a dot at the
      end unless one stood before it. */
  lemma StrippedIff(t: string)
    requires Trimmed(t)
    ensures var c := TrimSuffix(ToLower(t), ".");
      && ToLower(c) == c
      && (Trimmed(c) && (c == [] || c[|c| - 1] != '.') <==>
          !(|t| >= 2 && t[|t| - 1] == '.' && (t[|t| - 2] == '.' || IsSpace(t[|t| - 2]))))
  {
    var l := ToLower(t);
    HasSuffixChar(l, '.');
    var c := TrimSuffix(l, ".");
    assert ToLower(c) == c;
    if c != [] {
      assert c[0] == LowerChar(t[0]) && c[|c| - 1] == LowerChar(t[|c| - 1]);
      LowerEnds(t[0]);
      LowerEnds(t[|c| - 1]);
      LowerEnds(t[|t| - 1]);
    }
  }

  lemma LowerEnds(c: char)
    ensures (LowerChar(c) == '.' <==> c == '.') && (IsSpace(LowerChar(c)) <==> IsSpace(c))
  {
  }

  // ----------------------------------------------------------- whole bodies

  const MAX_LINE := 1024 * 1024

  /** The lines a bufio.Scanner yields: split at newlines, one trailing carriage
      return dropped, no empty last line. */
  function Lines(s: string): seq<string>
    decreases |s|
  {
    if s == "" then []
    else
      var i := IndexByte(s, '\n');
      if i < 0 then [s] else [s[..i]] + Lines(s[i + 1..])
  }

  function DropCR(line: string): string { TrimSuffix(line, "\r") }

  function ParseAll(lines: seq<string>): seq<string> {
    if lines == [] then []
    else
      var n := |lines| - 1;
      match ParseLine(DropCR(lines[n]))
      case Some(d) => ParseAll(lines[..n]) + [d]
      case None => ParseAll(lines[..n])
  }

  /** parseBody: a line that does not fit the scanner's buffer fails the scan,
      and then nothing is returned. */
  function ParseBody(body: string): seq<string> {
    if exists i :: 0 <= i < |Lines(body)| && |Lines(body)[i]| >= MAX_LINE then [] else ParseAll(Lines(body))
  }

  datatype Scanned = Names(names: seq<string>) | TooLong | Cancelled

  /** The scan loop.  cancelled says of each line whether the context is cancelled by
      the time the line has been scanned. */
  method ParseReader(lines: seq<string>, cancelled: nat -> bool) returns (r: Scanned)
    ensures r.Names? <==> forall i :: 0 <= i < |lines| ==> |lines[i]| < MAX_LINE && !cancelled(i)
    ensures r.Names? ==> r.names == ParseAll(lines)
    ensures r.TooLong? ==> exists i ::
      0 <= i < |lines| && |lines[i]| >= MAX_LINE && forall j :: 0 <= j < i ==> |lines[j]| < MAX_LINE && !cancelled(j)
    ensures r.Cancelled? ==> exists i ::
      0 <= i < |lines| && cancelled(i) && forall j :: 0 <= j <= i ==> |lines[j]| < MAX_LINE && (j < i ==> !cancelled(j))
  {
    var out := [];
    for i := 0 to |lines|
      invariant forall j :: 0 <= j < i ==> |lines[j]| < MAX_LINE && !cancelled(j)
      invariant out == ParseAll(lines[..i])
    {
      if |lines[i]| >= MAX_LINE {
        return TooLong;
      }
      if cancelled(i) {
        return Cancelled;
      }
      var d := ParseLine(DropCR(lines[i]));
      assert lines[..i + 1][..i] == lines[..i];
      if d.Some? {
        out := out + [d.value];
      }
    }
    assert lines[..|lines|] == lines;
    return Names(out);
  }

  /** Everything a body yields is a valid name. */
  lemma {:induction false} ParseAllValid(lines: seq<string>)
    ensures forall i :: 0 <= i < |ParseAll(lines)| ==> ValidFqdn(ParseAll(lines)[i])
  {
    if lines != [] {
      var n := |lines| - 1;
      ParseAllValid(lines[..n]);
      ParsedIsNormal(DropCR(lines[n]));
    }
  }

  lemma {:induction false} LineOfName(lines: seq<string>, d: string) returns (i: nat)
    requires d in ParseAll(lines)
    ensures i < |lines| && ParseLine(DropCR(lines[i])) == Some(d)
  {
    var n := |lines| - 1;
    if ParseLine(DropCR(lines[n])) == Some(d) {
      i := n;
    } else {
      i := LineOfName(lines[..n], d);
    }
  }

  lemma {:induction false} NameOfLine(lines: seq<string>, i: nat, d: string)
    requires i < |lines| && ParseLine(DropCR(lines[i])) == Some(d)
    ensures d in ParseAll(lines)
  {
    var n := |lines| - 1;
    if i < n { NameOfLine(lines[..n], i, d); }
  }

  /** Line i of the lines is a line for the valid name d. */
  ghost predicate LineFor(lines: seq<string>, i: int, d: string)
    requires 0 <= i < |lines|
  {
    ValidFqdn(d) && Spelled(DropCR(lines[i]), d)
  }

  lemma ListedExactly(lines: seq<string>, d: string)
    ensures d in ParseAll(lines) <==> exists i :: 0 <= i < |lines| && LineFor(lines, i, d)
  {
    if d in ParseAll(lines) {
      var i := LineOfName(lines, d);
      ParsedIsNormal(DropCR(lines[i]));
      ParseExactly(DropCR(lines[i]), d);
      assert LineFor(lines, i, d);
    }
    if i :| 0 <= i < |lines| && LineFor(lines, i, d) {
      ParseExactly(DropCR(lines[i]), d);
      NameOfLine(lines, i, d);
    }
  }

  /** The names a body lists cover q exactly when some line's name does. */
  lemma CoveredExactly(lines: seq<string>, q: string)
    ensures (exists d :: d in ParseAll(lines) && Covers(d, q)) <==>
      exists i, d :: 0 <= i < |lines| && LineFor(lines, i, d) && Covers(d, q)
  {
    if d :| d in ParseAll(lines) && Covers(d, q) {
      ListedExactly(lines, d);
    }
    if i, d :| 0 <= i < |lines| && LineFor(lines, i, d) && Covers(d, q) {
      ListedExactly(lines, d);
    }
  }

  /** A body that is one valid name yields that name. */
  lemma OneNameBody(d: string)
    requires ValidFqdn(d)
    ensures ParseBody(d) == [d]
  {
    NameIsOneLine(d);
    NameParses(d);
    OneLineParsed(d, d);
  }

  lemma NameIsOneLine(d: string)
    requires ValidFqdn(d)
    ensures Lines(d) == [d] && DropCR(d) == d
  {
    ValidNameChars(d);
    assert '\n' !in d;
    HasSuffixChar(d, '\r');
  }

  lemma NameParses(d: string)
    requires ValidFqdn(d)
    ensures ParseLine(d) == Some(d)
  {
    ValidNameChars(d);
    assert ToLower(d) == d;
    RoundTripPlain([], [], d, [], d);
    assert [] + ([] + d + []) == d;
  }

  lemma OneLineParsed(line: string, d: string)
    requires ParseLine(DropCR(line)) == Some(d)
    ensures ParseAll([line]) == [d]
  {
    assert [line][..0] == [] && ParseAll([]) == [];
  }

  /** Every line is shorter than the scanner's limit of 1 MiB. */
  predicate LinesFit(lines: seq<string>) { forall i :: 0 <= i < |lines| ==> |lines[i]| < 1_048_576 }

  /** End to end: a matcher loaded from a body blocks a name exactly when all lines
      of the body fit the scanner and the canonical name is, or lies under, a valid
      name that some line is a line for.  One over-long line empties the list. */
  lemma BodyBlocks(body: string, qname: string)
    ensures Blocked(EntrySet(ParseBody(body)), qname) <==>
      LinesFit(Lines(body)) && Canonicalise(qname) != "" &&
      exists i, d :: 0 <= i < |Lines(body)| && LineFor(Lines(body), i, d) && Covers(d, Canonicalise(qname))
  {
    if LinesFit(Lines(body)) {
      var names := ParseAll(Lines(body));
      assert ParseBody(body) == names;
      ParseAllValid(Lines(body));
      NamesBlock(names, qname);
      CoveredExactly(Lines(body), Canonicalise(qname));
    } else {
      assert ParseBody(body) == [];
    }
  }
}
