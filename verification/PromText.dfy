/** Reading lines of the Prometheus text format: splitting a label block on
    unquoted commas, and taking a sample line apart. */
module PromText {
  import opened Dns
  import opened Text

  // ------------------------------------------------------------ splitLabels

  /** Distance to the first comma outside quotes, or to the end. */
  function PieceLen(s: string, quoted: bool): (n: nat)
    ensures n <= |s| && (n < |s| ==> s[n] == ',')
  {
    if s == "" || (s[0] == ',' && !quoted) then 0
    else 1 + PieceLen(s[1..], if s[0] == '"' then !quoted else quoted)
  }

  /** The pieces between unquoted commas; nothing after a final comma. */
  function Pieces(s: string): seq<string>
    decreases |s|
  {
    if s == "" then []
    else
      var n := PieceLen(s, false);
      if n == |s| then [s] else [s[..n]] + Pieces(s[n + 1..])
  }

  /** The scan that began at last has met no unquoted comma before i. */
  predicate Scanning(body: string, last: nat, i: nat, quoted: bool)
    requires last <= i <= |body|
  {
    PieceLen(body[last..], false) == (i - last) + PieceLen(body[i..], quoted)
  }

  lemma ScanOn(body: string, last: nat, i: nat, quoted: bool)
    requires last <= i < |body| && Scanning(body, last, i, quoted) && !(body[i] == ',' && !quoted)
    ensures Scanning(body, last, i + 1, if body[i] == '"' then !quoted else quoted)
  {
    assert body[i..][0] == body[i] && body[i..][1..] == body[i + 1..];
  }

  lemma ScanComma(body: string, last: nat, i: nat)
    requires last <= i < |body| && Scanning(body, last, i, false) && body[i] == ','
    ensures Pieces(body[last..]) == [body[last..i]] + Pieces(body[i + 1..])
  {
    assert body[i..][0] == ',';
    var s := body[last..];
    assert s[..i - last] == body[last..i] && s[i - last + 1..] == body[i + 1..];
  }

  lemma ScanEnd(body: string, last: nat, quoted: bool)
    requires last <= |body| && Scanning(body, last, |body|, quoted)
    ensures Pieces(body[last..]) == if last < |body| then [body[last..]] else []
  {
    assert body[|body|..] == "";
  }

  lemma Regroup(a: seq<string>, x: string, b: seq<string>)
    ensures a + ([x] + b) == a + [x] + b
  {
  }

  /** An unquoted comma at i ends the piece that began at last. */
  lemma NextPiece(body: string, out: seq<string>, last: nat, i: nat)
    requires last <= i < |body| && Scanning(body, last, i, false) && body[i] == ','
    requires Pieces(body) == out + Pieces(body[last..])
    ensures Pieces(body) == out + [body[last..i]] + Pieces(body[i + 1..])
  {
    ScanComma(body, last, i);
    Regroup(out, body[last..i], Pieces(body[i + 1..]));
  }

  /** What follows the last unquoted comma is the last piece, unless it is empty. */
  lemma LastPiece(body: string, out: seq<string>, last: nat, quoted: bool)
    requires last <= |body| && Scanning(body, last, |body|, quoted)
    requires Pieces(body) == out + Pieces(body[last..])
    ensures Pieces(body) == if last < |body| then out + [body[last..]] else out
  {
    ScanEnd(body, last, quoted);
  }

  /** The loop at position i: out holds the pieces before last. */
  ghost predicate Progress(body: string, out: seq<string>, last: nat, i: nat, quoted: bool) {
    last <= i <= |body| && Scanning(body, last, i, quoted) && Pieces(body) == out + Pieces(body[last..])
  }

  lemma Begin(body: string)
    ensures Progress(body, [], 0, 0, false)
  {
    assert body[0..] == body;
  }

  lemma AtComma(body: string, out: seq<string>, last: nat, i: nat)
    requires i < |body| && Progress(body, out, last, i, false) && body[i] == ','
    ensures Progress(body, out + [body[last..i]], i + 1, i + 1, false)
  {
    NextPiece(body, out, last, i);
  }

  lemma PastChar(body: string, out: seq<string>, last: nat, i: nat, quoted: bool)
    requires i < |body| && Progress(body, out, last, i, quoted) && !(body[i] == ',' && !quoted)
    ensures Progress(body, out, last, i + 1, if body[i] == '"' then !quoted else quoted)
  {
    ScanOn(body, last, i, quoted);
  }

  method SplitLabels(body: string) returns (out: seq<string>)
    ensures out == Pieces(body)
  {
    out := [];
    var quoted, last := false, 0;
    Begin(body);
    for i := 0 to |body|
      invariant last <= i && Progress(body, out, last, i, quoted)
    {
      if body[i] == ',' && !quoted {
        AtComma(body, out, last, i);
        out := out + [body[last..i]];
        last := i + 1;
      } else {
        PastChar(body, out, last, i, quoted);
        if body[i] == '"' {
          quoted := !quoted;
        }
      }
    }
    LastPiece(body, out, last, quoted);
    if last < |body| {
      out := out + [body[last..]];
    }
  }

  /** Quotes are balanced and every comma is inside them. */
  predicate Sealed(p: string, quoted: bool) {
    if p == "" then !quoted
    else if p[0] == '"' then Sealed(p[1..], !quoted)
    else (p[0] == ',' ==> quoted) && Sealed(p[1..], quoted)
  }

  function Join(pieces: seq<string>): string {
    if pieces == [] then "" else if |pieces| == 1 then pieces[0] else pieces[0] + "," + Join(pieces[1..])
  }

  lemma {:induction false} SealedPiece(p: string, rest: string, quoted: bool)
    requires Sealed(p, quoted) && (rest == "" || rest[0] == ',')
    ensures PieceLen(p + rest, quoted) == |p|
  {
    if p == "" {
      assert p + rest == rest;
    } else {
      assert (p + rest)[1..] == p[1..] + rest;
      SealedPiece(p[1..], rest, if p[0] == '"' then !quoted else quoted);
    }
  }

  /** Splitting inverts joining, for non-empty sealed pieces. */
  lemma {:induction false} SplitInvertsJoin(pieces: seq<string>)
    requires forall i :: 0 <= i < |pieces| ==> pieces[i] != "" && Sealed(pieces[i], false)
    ensures Pieces(Join(pieces)) == pieces
  {
    if |pieces| == 1 {
      SealedPiece(pieces[0], "", false);
      assert pieces[0] + "" == pieces[0];
    } else if |pieces| > 1 {
      var p, rest := pieces[0], Join(pieces[1..]);
      var s := p + "," + rest;
      SealedPiece(p, "," + rest, false);
      assert s == p + ("," + rest) && s[..|p|] == p && s[|p| + 1..] == rest;
      SplitInvertsJoin(pieces[1..]);
    }
  }

  /** No comma outside quotes. */
  predicate Closed(p: string, quoted: bool) {
    if p == "" then true
    else if p[0] == '"' then Closed(p[1..], !quoted)
    else (p[0] == ',' ==> quoted) && Closed(p[1..], quoted)
  }

  lemma {:induction false} PieceClosed(s: string, quoted: bool)
    ensures Closed(s[..PieceLen(s, quoted)], quoted)
  {
    var n := PieceLen(s, quoted);
    if n > 0 {
      PieceClosed(s[1..], if s[0] == '"' then !quoted else quoted);
      assert s[..n][1..] == s[1..][..n - 1];
    }
  }

  /** Splitting loses nothing: no piece has a comma outside quotes, and joining the
      pieces gives the text back, but for a comma at its end. */
  lemma {:induction false} JoinInvertsSplit(s: string)
    ensures forall i :: 0 <= i < |Pieces(s)| ==> Closed(Pieces(s)[i], false)
    ensures Join(Pieces(s)) == s || Join(Pieces(s)) + "," == s
    decreases |s|
  {
    if s != "" {
      var n := PieceLen(s, false);
      PieceClosed(s, false);
      if n == |s| {
        assert s[..n] == s;
      } else {
        var p, rest := s[..n], s[n + 1..];
        JoinInvertsSplit(rest);
        CommaAt(s, n);
        JoinCons(p, Pieces(rest));
        Rejoined(p, rest, Join(Pieces(rest)), Pieces(rest) == []);
      }
    }
  }

  lemma CommaAt(s: string, n: nat)
    requires n < |s| && s[n] == ','
    ensures s == s[..n] + "," + s[n + 1..]
  {
  }

  lemma JoinCons(p: string, pieces: seq<string>)
    ensures Join([p] + pieces) == if pieces == [] then p else p + "," + Join(pieces)
  {
    assert ([p] + pieces)[1..] == pieces;
  }

  lemma Rejoined(p: string, rest: string, joined: string, none: bool)
    requires (joined == rest || joined + "," == rest) && (none ==> rest == "")
    ensures var s, j := p + "," + rest, if none then p else p + "," + joined;
      j == s || j + "," == s
  {
    if !none && joined + "," == rest { assert p + "," + joined + "," == p + "," + rest; }
    if none { assert p + "," == p + "," + rest; }
  }

  // ----------------------------------------------------------- parsePromLine

  function TrimQuotesLeft(s: string): string { if s != "" && s[0] == '"' then TrimQuotesLeft(s[1..]) else s }

  function TrimQuotesRight(s: string): string {
    if s != "" && s[|s| - 1] == '"' then TrimQuotesRight(s[..|s| - 1]) else s
  }

  function TrimQuotes(s: string): string { TrimQuotesRight(TrimQuotesLeft(s)) }

  type Labels = map<string, string>

  /** The labels after one more piece; a piece without '=' is skipped. */
  function WithPiece(labels: Labels, piece: string): Labels {
    var eq := IndexByte(piece, '=');
    if eq < 0 then labels
    else labels[TrimSpace(piece[..eq]) := TrimQuotes(TrimSpace(piece[eq + 1..]))]
  }

  function LabelsOf(pieces: seq<string>): Labels {
    if pieces == [] then map[] else WithPiece(LabelsOf(pieces[..|pieces| - 1]), pieces[|pieces| - 1])
  }

  datatype Parsed<V> = Sample(name: string, labels: Labels, value: V) | Malformed | Panic

  /** parseFloat stands for strconv.ParseFloat. */
  method ParsePromLine<V>(line: string, parseFloat: string -> Option<V>) returns (r: Parsed<V>)
    ensures r == ParseLine(line, parseFloat)
  {
    var openBrace := IndexByte(line, '{');
    var spaceIdx := LastIndexByte(line, ' ');
    if spaceIdx < 0 {
      return Malformed;
    }
    var v := parseFloat(line[spaceIdx + 1..]);
    if v.None? {
      return Malformed;
    }
    if openBrace == -1 {
      return Sample(line[..spaceIdx], map[], v.value);
    }
    r := ParseBraced(line, openBrace, v.value);
  }

  /** The part of the line before the space, when it has a brace. */
  method ParseBraced<V>(line: string, openBrace: nat, v: V) returns (r: Parsed<V>)
    requires openBrace < |line|
    ensures r == Braced(line, openBrace, IndexByte(line, '}'), v)
  {
    var closeBrace := IndexByte(line, '}');
    if closeBrace == -1 {
      return Malformed;
    }
    if closeBrace < openBrace + 1 {
      return Panic;                    // slice bounds out of range
    }
    var pieces := SplitLabels(line[openBrace + 1..closeBrace]);
    var labels := Collect(pieces);
    return Sample(line[..openBrace], labels, v);
  }

  /** The loop over the label pairs. */
  method Collect(pieces: seq<string>) returns (labels: Labels)
    ensures labels == LabelsOf(pieces)
  {
    labels := map[];
    for i := 0 to |pieces|
      invariant labels == LabelsOf(pieces[..i])
    {
      assert pieces[..i + 1][..i] == pieces[..i];
      var eq := IndexByte(pieces[i], '=');
      if eq < 0 {
        continue;
      }
      labels := labels[TrimSpace(pieces[i][..eq]) := TrimQuotes(TrimSpace(pieces[i][eq + 1..]))];
    }
    assert pieces[..|pieces|] == pieces;
  }

  function ParseLine<V>(line: string, parseFloat: string -> Option<V>): Parsed<V> {
    ParseAt(line, IndexByte(line, '{'), LastIndexByte(line, ' '), IndexByte(line, '}'), parseFloat)
  }

  /** A line told from where its three marks are, -1 standing for nowhere. */
  function ParseAt<V>(line: string, open: int, space: int, close: int, parseFloat: string -> Option<V>): Parsed<V>
    requires -1 <= open < |line| && -1 <= space < |line| && -1 <= close < |line|
  {
    if space < 0 || parseFloat(line[space + 1..]).None? then Malformed
    else
      var v := parseFloat(line[space + 1..]).value;
      if open == -1 then Sample(line[..space], map[], v)
      else Braced(line, open, close, v)
  }

  function Braced<V>(line: string, open: nat, close: int, v: V): Parsed<V>
    requires open < |line| && -1 <= close < |line|
  {
    if close == -1 then Malformed
    else if close < open + 1 then Panic
    else Sample(line[..open], LabelsOf(Pieces(line[open + 1..close])), v)
  }

  /** Every line that is not a sample, and the lines without labels. */
  lemma LineCases<V>(line: string, parseFloat: string -> Option<V>)
    ensures ' ' !in line ==> ParseLine(line, parseFloat) == Malformed
    ensures ' ' in line && '{' in line && '}' !in line ==> ParseLine(line, parseFloat) == Malformed
  {
    assert IndexByte(line, '}') >= 0 ==> line[IndexByte(line, '}')] in line;
    assert LastIndexByte(line, ' ') >= 0 ==> line[LastIndexByte(line, ' ')] in line;
  }

  /** A name, a space and a value; braces in the value's place are none of the name's. */
  lemma PlainLine<V>(name: string, value: string, parseFloat: string -> Option<V>)
    requires ' ' !in value && '{' !in name && '{' !in value
    ensures ParseLine(name + " " + value, parseFloat) ==
      if parseFloat(value).Some? then Sample(name, map[], parseFloat(value).value) else Malformed
  {
    var line := name + " " + value;
    assert line[|name|] == ' ' && line[|name| + 1..] == value && line[..|name|] == name;
    LastAt(line, ' ', |name|);
    assert '{' !in line;
    assert IndexByte(line, '{') == -1;
  }

  /** A value that does not parse spoils the line. */
  lemma UnparsedValue<V>(head: string, value: string, parseFloat: string -> Option<V>)
    requires ' ' !in value && parseFloat(value).None?
    ensures ParseLine(head + " " + value, parseFloat) == Malformed
  {
    var line := head + " " + value;
    assert line[|head|] == ' ' && line[|head| + 1..] == value;
    LastAt(line, ' ', |head|);
  }

  /** Braces the wrong way round slice backwards. */
  lemma BracesReversed<V>(a: string, b: string, c: string, value: string, parseFloat: string -> Option<V>)
    requires ' ' !in value && parseFloat(value).Some? && '{' !in a && '}' !in a && '{' !in b
    ensures ParseLine(a + "}" + b + "{" + c + " " + value, parseFloat) == Panic
  {
    var line := a + "}" + b + "{" + c + " " + value;
    var close, open, space := |a|, |a| + 1 + |b|, |a| + |b| + |c| + 2;
    assert line[..close] == a && line[close] == '}';
    FirstAt(line, '}', close);
    assert line[..open] == a + "}" + b && line[open] == '{';
    FirstAt(line, '{', open);
    assert line[space] == ' ' && line[space + 1..] == value;
    LastAt(line, ' ', space);
  }

  // -------------------------------------------------------------- round trip

  datatype Label = Label(key: string, value: string)

  /** Free of everything that would end or disturb a key. */
  predicate PlainKey(k: string) {
    k != "" && forall c :: c in k ==> !IsSpace(c) && c != ',' && c != '"' && c != '=' && c != '}'
  }

  predicate PlainValue(v: string) { '"' !in v && '}' !in v }

  predicate Printable(ls: seq<Label>) {
    && (forall i :: 0 <= i < |ls| ==> PlainKey(ls[i].key) && PlainValue(ls[i].value))
    && (forall i, j :: 0 <= i < j < |ls| ==> ls[i].key != ls[j].key)
  }

  function Print(l: Label): string { l.key + "=\"" + l.value + "\"" }

  function PrintAll(ls: seq<Label>): seq<string> { seq(|ls|, i requires 0 <= i < |ls| => Print(ls[i])) }

  /** The label map a list of labels stands for. */
  function MapOf(ls: seq<Label>): Labels {
    if ls == [] then map[] else MapOf(ls[..|ls| - 1])[ls[|ls| - 1].key := ls[|ls| - 1].value]
  }

  function PrintLine(name: string, ls: seq<Label>, value: string): string {
    name + "{" + Join(PrintAll(ls)) + "} " + value
  }

  lemma {:induction false} SealedThrough(a: string, b: string, quoted: bool)
    requires '"' !in a && (quoted || ',' !in a) && Sealed(b, quoted)
    ensures Sealed(a + b, quoted)
  {
    if a == "" {
      assert a + b == b;
    } else {
      assert (a + b)[1..] == a[1..] + b;
      SealedThrough(a[1..], b, quoted);
    }
  }

  lemma PrintSealed(l: Label)
    requires PlainKey(l.key) && PlainValue(l.value)
    ensures Sealed(Print(l), false) && Print(l) != "" && '}' !in Print(l)
  {
    var close: string := ['"'];
    assert close[1..] == "" && Sealed(close, true);
    SealedThrough(l.value, close, true);
    var tail := ['"'] + (l.value + close);
    assert tail[1..] == l.value + close;
    SealedThrough(l.key + "=", tail, false);
    assert Print(l) == (l.key + "=") + tail;
  }

  lemma {:induction false} TrimQuotesRightOf(v: string)
    requires '"' !in v
    ensures TrimQuotesRight(v + ['"']) == v
  {
    assert (v + ['"'])[..|v|] == v;
    assert v != "" ==> v[|v| - 1] in v;
  }

  /** A printed label adds its key and exact value. */
  lemma PieceOfLabel(labels: Labels, l: Label)
    requires PlainKey(l.key) && PlainValue(l.value)
    ensures WithPiece(labels, Print(l)) == labels[l.key := l.value]
  {
    var p, v := Print(l), ['"'] + l.value + ['"'];
    PrintedAt(l, v);
    assert l.key[0] in l.key && l.key[|l.key| - 1] in l.key;
    TrimSpaceIdle(l.key);
    TrimSpaceIdle(v);
    TrimQuotesOf(l.value);
    FromEquals(labels, p, |l.key|);
  }

  /** The first '=' of a printed label stands between its key and its quoted value. */
  lemma PrintedAt(l: Label, v: string)
    requires PlainKey(l.key) && v == ['"'] + l.value + ['"']
    ensures var p := Print(l);
      IndexByte(p, '=') == |l.key| < |p| && p[..|l.key|] == l.key && p[|l.key| + 1..] == v
  {
    var p, n := Print(l), |l.key|;
    assert p == l.key + ['='] + v;
    assert p[..n] == l.key && p[n] == '=' && p[n + 1..] == v;
    FirstAt(p, '=', n);
  }

  /** White space around a key and around a quoted value does not count. */
  lemma SpacedLabel(labels: Labels, a: string, b: string, c: string, d: string, l: Label)
    requires AllSpace(a) && AllSpace(b) && AllSpace(c) && AllSpace(d) && PlainKey(l.key) && PlainValue(l.value)
    ensures WithPiece(labels, (a + l.key + b) + "=" + (c + (['"'] + l.value + ['"']) + d)) == labels[l.key := l.value]
  {
    var v := ['"'] + l.value + ['"'];
    var left, right := a + l.key + b, c + v + d;
    assert l.key[0] in l.key && l.key[|l.key| - 1] in l.key;
    TrimSpaceOf(a, l.key, b);
    TrimSpaceOf(c, v, d);
    TrimQuotesOf(l.value);
    SpacedAt(left, right, labels);
  }

  lemma SpacedAt(left: string, right: string, labels: Labels)
    requires '=' !in left
    ensures WithPiece(labels, left + "=" + right) == labels[TrimSpace(left) := TrimQuotes(TrimSpace(right))]
  {
    var p, n := left + "=" + right, |left|;
    assert p[..n] == left && p[n] == '=' && p[n + 1..] == right;
    FirstAt(p, '=', n);
    FromEquals(labels, p, n);
  }

  /** A piece without '=' is skipped. */
  lemma SkippedPiece(labels: Labels, p: string)
    requires '=' !in p
    ensures WithPiece(labels, p) == labels
  {
  }

  lemma FromEquals(labels: Labels, p: string, eq: nat)
    requires eq < |p| && IndexByte(p, '=') == eq
    ensures WithPiece(labels, p) == labels[TrimSpace(p[..eq]) := TrimQuotes(TrimSpace(p[eq + 1..]))]
  {
  }

  lemma TrimQuotesOf(v: string)
    requires '"' !in v
    ensures TrimQuotes(['"'] + v + ['"']) == v
  {
    var s, r := ['"'] + v + ['"'], v + ['"'];
    assert s[1..] == r;
    assert TrimQuotesLeft(s) == TrimQuotesLeft(r);
    if v == "" {
      assert r[1..] == "";
      assert TrimQuotesLeft(r) == "";
    } else {
      assert r[0] == v[0] && v[0] in v;
      assert TrimQuotesLeft(r) == r;
      TrimQuotesRightOf(v);
    }
  }

  lemma LabelsOfSnoc(pieces: seq<string>, p: string)
    ensures LabelsOf(pieces + [p]) == WithPiece(LabelsOf(pieces), p)
  {
    assert (pieces + [p])[..|pieces|] == pieces;
  }

  lemma PrintAllSnoc(ls: seq<Label>)
    requires ls != []
    ensures PrintAll(ls) == PrintAll(ls[..|ls| - 1]) + [Print(ls[|ls| - 1])]
  {
  }

  lemma {:induction false} LabelsRoundTrip(ls: seq<Label>)
    requires Printable(ls)
    ensures LabelsOf(PrintAll(ls)) == MapOf(ls)
  {
    if ls != [] {
      var n := |ls| - 1;
      var init, l := ls[..n], ls[n];
      LabelsRoundTrip(init);
      PrintAllSnoc(ls);
      LabelsOfSnoc(PrintAll(init), Print(l));
      PieceOfLabel(MapOf(init), l);
    }
  }

  /** With distinct keys, the map holds exactly the printed labels. */
  lemma {:induction false} MapExact(ls: seq<Label>)
    requires Printable(ls)
    ensures forall i :: 0 <= i < |ls| ==> ls[i].key in MapOf(ls) && MapOf(ls)[ls[i].key] == ls[i].value
    ensures forall k :: k in MapOf(ls) ==> exists i :: 0 <= i < |ls| && ls[i].key == k
  {
    if ls != [] {
      var n := |ls| - 1;
      var init := ls[..n];
      MapExact(init);
      forall i | 0 <= i < |ls| ensures ls[i].key in MapOf(ls) && MapOf(ls)[ls[i].key] == ls[i].value {
        if i < n { assert init[i] == ls[i] && ls[i].key != ls[n].key; }
      }
      forall k | k in MapOf(ls) ensures exists i :: 0 <= i < |ls| && ls[i].key == k {
        if k in MapOf(init) {
          var i :| 0 <= i < |init| && init[i].key == k;
          assert ls[i].key == k;
        } else {
          assert ls[n].key == k;
        }
      }
    }
  }

  lemma {:induction false} JoinNoBrace(pieces: seq<string>)
    requires forall i :: 0 <= i < |pieces| ==> '}' !in pieces[i]
    ensures '}' !in Join(pieces)
  {
    if |pieces| > 1 {
      JoinNoBrace(pieces[1..]);
    }
  }

  /** Parsing a printed sample gives back its name, its exact label map and its value. */
  lemma LineRoundTrip<V>(name: string, ls: seq<Label>, value: string, parseFloat: string -> Option<V>)
    requires '{' !in name && '}' !in name && ' ' !in value && parseFloat(value).Some? && Printable(ls)
    ensures ParseLine(PrintLine(name, ls, value), parseFloat) == Sample(name, MapOf(ls), parseFloat(value).value)
  {
    BodyRoundTrip(ls);
    ParsedAs(PrintLine(name, ls, value), name, Join(PrintAll(ls)), value, parseFloat);
  }

  lemma ParsedAs<V>(line: string, name: string, body: string, value: string, parseFloat: string -> Option<V>)
    requires line == name + "{" + body + "} " + value
    requires '{' !in name && '}' !in name && '}' !in body && ' ' !in value && parseFloat(value).Some?
    ensures ParseLine(line, parseFloat) == Sample(name, LabelsOf(Pieces(body)), parseFloat(value).value)
  {
    var open, close := |name|, |name| + 1 + |body|;
    var space := close + 1;
    Located(line, name, body, value);
    assert line[space + 1..] == value && line[..open] == name && line[open + 1..close] == body;
    var labels := LabelsOf(Pieces(body));
    FromMarks(line, open, space, close, parseFloat, labels);
  }

  /** A line with all three marks in order. */
  lemma FromMarks<V>(line: string, open: nat, space: nat, close: nat, parseFloat: string -> Option<V>, labels: Labels)
    requires open < close < |line| && space < |line| && LabelsOf(Pieces(line[open + 1..close])) == labels
    requires parseFloat(line[space + 1..]).Some?
    ensures ParseAt(line, open, space, close, parseFloat) ==
      Sample(line[..open], labels, parseFloat(line[space + 1..]).value)
  {
  }

  lemma BodyRoundTrip(ls: seq<Label>)
    requires Printable(ls)
    ensures LabelsOf(Pieces(Join(PrintAll(ls)))) == MapOf(ls) && '}' !in Join(PrintAll(ls))
  {
    var pieces := PrintAll(ls);
    forall i | 0 <= i < |pieces| ensures pieces[i] != "" && Sealed(pieces[i], false) && '}' !in pieces[i] {
      PrintSealed(ls[i]);
    }
    SplitInvertsJoin(pieces);
    LabelsRoundTrip(ls);
    JoinNoBrace(pieces);
  }

  /** Where the three marks of a printed line are found. */
  lemma Located(line: string, name: string, body: string, value: string)
    requires line == name + "{" + body + "} " + value
    requires '{' !in name && '}' !in name && '}' !in body && ' ' !in value
    ensures IndexByte(line, '{') == |name| && IndexByte(line, '}') == |name| + 1 + |body|
    ensures LastIndexByte(line, ' ') == |name| + |body| + 2
    ensures line[..|name|] == name && line[|name| + 1..|name| + 1 + |body|] == body
    ensures line[|name| + |body| + 3..] == value
  {
    var a, b := |name|, |name| + 1 + |body|;
    Sliced(line, name, body, value);
    FirstAt(line, '{', a);
    FirstAt(line, '}', b);
    LastAt(line, ' ', b + 1);
  }

  /** The parts of a printed line. */
  lemma Sliced(line: string, name: string, body: string, value: string)
    requires line == name + "{" + body + "} " + value
    requires '}' !in name && '}' !in body
    ensures var a, b := |name|, |name| + 1 + |body|;
      && |line| == b + 2 + |value|
      && line[..a] == name && line[a] == '{' && line[a + 1..b] == body
      && line[b] == '}' && line[b + 1] == ' ' && line[b + 2..] == value && '}' !in line[..b]
  {
    assert line[..|name| + 1 + |body|] == name + "{" + body;
  }
}
