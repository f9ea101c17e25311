/** A blocklist body and its lines. */
module Bodies {
  import opened Dns
  import opened Text
  import opened Parse

  /** Every line followed by a newline. */
  function Joined(lines: seq<string>): string {
    if lines == [] then "" else lines[0] + "\n" + Joined(lines[1..])
  }

  /** A newline ends a line, and the rest of the body goes on after it. */
  lemma LinesStep(a: string, b: string)
    requires '\n' !in a
    ensures Lines(a + "\n" + b) == [a] + Lines(b)
  {
    var s := a + "\n" + b;
    assert s[..|a|] == a && s[|a|] == '\n' && s[|a| + 1..] == b;
    FirstAt(s, '\n', |a|);
  }

  /** No line holds a newline, and a body is its lines joined by newlines, the last of
      which may be missing. */
  lemma {:induction false} LinesRestore(s: string)
    ensures forall i :: 0 <= i < |Lines(s)| ==> '\n' !in Lines(s)[i]
    ensures Joined(Lines(s)) == s || Joined(Lines(s)) == s + "\n"
    decreases |s|
  {
    if s != "" {
      var i := IndexByte(s, '\n');
      if i < 0 {
        LinesLast(s);
        JoinedCons(s, []);
        assert [s] + [] == [s];
      } else {
        var l, rest := s[..i], s[i + 1..];
        LinesRestore(rest);
        CutAt(s, i);
        LinesStep(l, rest);
        JoinedCons(l, Lines(rest));
        Ended(l, rest, Joined(Lines(rest)));
      }
    }
  }

  lemma JoinedCons(l: string, rest: seq<string>)
    ensures Joined([l] + rest) == l + "\n" + Joined(rest)
  {
    assert ([l] + rest)[1..] == rest;
  }

  lemma CutAt(s: string, i: nat)
    requires i < |s| && s[i] == '\n'
    ensures s == s[..i] + "\n" + s[i + 1..]
  {
  }

  lemma Ended(l: string, rest: string, joined: string)
    requires joined == rest || joined == rest + "\n"
    ensures l + "\n" + joined == l + "\n" + rest || l + "\n" + joined == (l + "\n" + rest) + "\n"
  {
    if joined != rest { assert l + "\n" + joined == (l + "\n" + rest) + "\n"; }
  }

  /** Joining lines and splitting again gives them back, whether or not the last of
      them is ended by a newline. */
  lemma {:induction false} LinesOfJoined(lines: seq<string>, last: string)
    requires '\n' !in last && forall i :: 0 <= i < |lines| ==> '\n' !in lines[i]
    ensures Lines(Joined(lines) + last) == lines + if last == "" then [] else [last]
  {
    if lines == [] {
      assert Joined(lines) + last == last;
      LinesLast(last);
    } else {
      var l, more := lines[0], lines[1..];
      LinesOfJoined(more, last);
      assert lines == [l] + more;
      JoinedCons(l, more);
      Regroup(l, Joined(more), last);
      LinesStep(l, Joined(more) + last);
    }
  }

  lemma LinesLast(last: string)
    requires '\n' !in last
    ensures Lines(last) == if last == "" then [] else [last]
  {
  }

  lemma Regroup(l: string, a: string, b: string)
    ensures l + "\n" + a + b == l + "\n" + (a + b)
  {
  }

  /** Each line is a valid name, perhaps with a carriage return after it. */
  ghost predicate NameLines(lines: seq<string>, names: seq<string>) {
    && |lines| == |names|
    && forall i {:trigger NameLine(lines[i], names[i])} :: 0 <= i < |names| ==> NameLine(lines[i], names[i])
  }

  ghost predicate NameLine(line: string, name: string) {
    ValidFqdn(name) && (line == name || line == name + "\r")
  }

  lemma NameLineParses(line: string, name: string)
    requires NameLine(line, name)
    ensures ParseLine(DropCR(line)) == Some(name)
  {
    NameIsOneLine(name);
    NameParses(name);
    SuffixOf(name, "\r");
  }

  lemma NameLineFits(line: string, name: string)
    requires NameLine(line, name)
    ensures '\n' !in line && |line| < MAX_LINE && line != ""
  {
    ValidNameChars(name);
    assert '\n' !in name;
  }

  lemma ParseAllSnoc(lines: seq<string>, line: string, d: string)
    requires ParseLine(DropCR(line)) == Some(d)
    ensures ParseAll(lines + [line]) == ParseAll(lines) + [d]
  {
    assert (lines + [line])[..|lines|] == lines;
  }

  lemma NameLinesInit(lines: seq<string>, names: seq<string>)
    requires NameLines(lines, names) && lines != []
    ensures NameLines(lines[..|lines| - 1], names[..|names| - 1])
  {
    var n := |lines| - 1;
    forall i | 0 <= i < n ensures NameLine(lines[..n][i], names[..n][i]) {
      assert NameLine(lines[i], names[i]);
    }
  }

  lemma OneMoreName(lines: seq<string>, names: seq<string>, line: string, name: string)
    requires ParseAll(lines) == names && NameLine(line, name)
    ensures ParseAll(lines + [line]) == names + [name]
  {
    NameLineParses(line, name);
    ParseAllSnoc(lines, line, name);
  }

  lemma Snoc(s: seq<string>)
    requires s != []
    ensures s == s[..|s| - 1] + [s[|s| - 1]]
  {
  }

  lemma {:induction false} NamesInOrder(lines: seq<string>, names: seq<string>)
    requires NameLines(lines, names)
    ensures ParseAll(lines) == names
  {
    if lines != [] {
      var n := |lines| - 1;
      NameLinesInit(lines, names);
      NamesInOrder(lines[..n], names[..n]);
      assert NameLine(lines[n], names[n]);
      OneMoreName(lines[..n], names[..n], lines[n], names[n]);
      Snoc(lines);
      Snoc(names);
    }
  }

  lemma NameLinesFit(lines: seq<string>, names: seq<string>)
    requires NameLines(lines, names)
    ensures forall i :: 0 <= i < |lines| ==> '\n' !in lines[i] && |lines[i]| < MAX_LINE && lines[i] != ""
  {
    forall i | 0 <= i < |lines| ensures '\n' !in lines[i] && |lines[i]| < MAX_LINE && lines[i] != "" {
      assert NameLine(lines[i], names[i]);
      NameLineFits(lines[i], names[i]);
    }
  }

  /** A list of names, one to a line and ended by newlines, with or without carriage
      returns, parses to exactly those names in order. */
  lemma ListParses(lines: seq<string>, names: seq<string>)
    requires NameLines(lines, names)
    ensures ParseBody(Joined(lines)) == names
  {
    NamesInOrder(lines, names);
    NameLinesFit(lines, names);
    LinesOfJoined(lines, "");
    assert Joined(lines) + "" == Joined(lines) && lines + [] == lines;
    FittingBody(Joined(lines), lines);
  }

  /** The same when the last line is not ended. */
  lemma OpenListParses(lines: seq<string>, names: seq<string>)
    requires NameLines(lines, names) && lines != []
    ensures var n := |lines| - 1; ParseBody(Joined(lines[..n]) + lines[n]) == names
  {
    var n := |lines| - 1;
    NamesInOrder(lines, names);
    NameLinesFit(lines, names);
    LinesOfJoined(lines[..n], lines[n]);
    assert lines == lines[..n] + [lines[n]];
    FittingBody(Joined(lines[..n]) + lines[n], lines);
  }

  lemma FittingBody(body: string, lines: seq<string>)
    requires Lines(body) == lines && forall i :: 0 <= i < |lines| ==> |lines[i]| < MAX_LINE
    ensures ParseBody(body) == ParseAll(lines)
  {
  }
}
