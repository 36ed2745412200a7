/** What `rstrip` does to joined lines. */
module TrimmedLines {
  import opened TextLines

  function TrimLine(line: string): string {
    TrimRight(Spaces, line)
  }

  function TrimLines(lines: seq<string>): (r: seq<string>)
    ensures |r| == |lines| && forall i | 0 <= i < |lines| :: r[i] == TrimLine(lines[i])
  {
    seq(|lines|, i requires 0 <= i < |lines| => TrimLine(lines[i]))
  }

  /** Blank lines at the end go, and the line before them is trimmed. */
  function Chop(lines: seq<string>): seq<string> {
    if lines == [] then []
    else
      var n := |lines| - 1;
      var last := TrimLine(lines[n]);
      if last == "" then Chop(lines[..n]) else lines[..n] + [last]
  }

  lemma {:induction false} TrimRightDrops(s: string)
    ensures forall i | |TrimLine(s)| <= i < |s| :: IsSpace(s[i])
  {
    hide IsSpace;
    if s != "" && IsSpace(s[|s| - 1]) {
      TrimRightDrops(s[..|s| - 1]);
    }
  }

  lemma {:induction false} TrimLeftDrops(s: string)
    ensures forall i | 0 <= i < |s| - |TrimLeft(Spaces, s)| :: IsSpace(s[i])
  {
    hide IsSpace;
    if s != "" && IsSpace(s[0]) {
      TrimLeftDrops(s[1..]);
      var n := |s| - |TrimLeft(Spaces, s)|;
      forall i | 0 <= i < n
        ensures IsSpace(s[i])
      {
        assert i > 0 ==> s[i] == s[1..][i - 1];
      }
    }
  }

  lemma {:induction false} TrimRightMore(s: string, pad: string)
    requires forall i | 0 <= i < |pad| :: IsSpace(pad[i])
    ensures TrimLine(s + pad) == TrimLine(s)
  {
    hide IsSpace;
    if pad == "" {
      assert s + pad == s;
    } else {
      assert (s + pad)[..|s + pad| - 1] == s + pad[..|pad| - 1];
      TrimRightMore(s, pad[..|pad| - 1]);
    }
  }

  /** Trimming a line on the right does not change what strip leaves of it. */
  lemma StripTrimmed(line: string)
    ensures Strip(Spaces, TrimLine(line)) == Strip(Spaces, line)
    ensures TrimLine(line) == "" <==> Strip(Spaces, line) == ""
  {
    hide IsSpace, TrimRight, TrimLeft;
    var l := TrimLeft(Spaces, line);
    var core := TrimRight(Spaces, l);
    var left, right := line[..|line| - |l|], l[|core|..];
    TrimLeftDrops(line);
    TrimRightDrops(l);
    assert l == core + right && line == left + core + right;
    TrimRightMore(left + core, right);
    if core == "" {
      assert left + core == "" + left;
      TrimRightPadding(Spaces, "", left);
      StripPadded(Spaces, "", "", "");
      assert "" + "" + "" == "";
    } else {
      TrimRightPadding(Spaces, left + core, "");
      assert left + core + "" == left + core;
      StripPadded(Spaces, left, core, "");
    }
  }

  lemma {:induction false} JoinLast(lines: seq<string>)
    requires |lines| > 1
    ensures Join(lines, '\n') == Join(lines[..|lines| - 1], '\n') + "\n" + lines[|lines| - 1]
  {
    var n := |lines| - 1;
    if n > 1 {
      JoinLast(lines[1..]);
      assert lines[1..][..n - 1] == lines[..n][1..];
    } else {
      assert lines[1..] == [lines[1]] && lines[..1] == [lines[0]];
    }
  }

  lemma ShorterLine(head: string, line: string)
    ensures TrimLine(line) == "" ==> TrimLine(head + "\n" + line) == TrimLine(head)
    ensures TrimLine(line) != "" ==> TrimLine(head + "\n" + line) == head + "\n" + TrimLine(line)
  {
    hide IsSpace, TrimRight;
    var r := TrimLine(line);
    TrimRightDrops(line);
    NewlineIsSpace();
    assert line == r + line[|r|..];
    if r == "" {
      assert head + "\n" + line == head + ("\n" + line);
      TrimRightMore(head, "\n" + line);
    } else {
      assert head + "\n" + line == head + "\n" + r + line[|r|..];
      TrimRightPadding(Spaces, head + "\n" + r, line[|r|..]);
    }
  }

  lemma NewlineIsSpace()
    ensures IsSpace('\n')
  {
  }

  /** Stripping the joined text on the right chops the lines. */
  lemma {:induction false} TrimJoin(lines: seq<string>)
    requires |lines| > 0 && TrimLine(lines[0]) != ""
    ensures Chop(lines) != [] && TrimLine(Join(lines, '\n')) == Join(Chop(lines), '\n')
    ensures Chop(lines)[|Chop(lines)| - 1] != ""
  {
    hide TrimLine;
    var n := |lines| - 1;
    if n > 0 {
      JoinLast(lines);
      var head, last := Join(lines[..n], '\n'), lines[n];
      ShorterLine(head, last);
      if TrimLine(last) == "" {
        TrimJoin(lines[..n]);
      } else {
        var chopped := lines[..n] + [TrimLine(last)];
        JoinLast(chopped);
        assert chopped[..n] == lines[..n];
      }
    } else {
      assert lines == [lines[0]];
      assert lines[..0] + [TrimLine(lines[0])] == [TrimLine(lines[0])];
    }
  }

  lemma {:induction false} ChopOneLine(lines: seq<string>)
    requires forall i | 0 <= i < |lines| :: OneLine(lines[i])
    ensures forall i | 0 <= i < |Chop(lines)| :: OneLine(Chop(lines)[i])
  {
    hide IsBreak, TrimRight;
    if lines != [] {
      ChopOneLine(lines[..|lines| - 1]);
    }
  }

  /** Read as lines again, the stripped text is the chopped lines: no line but
      the last one changes. */
  lemma LinesTrimmed(lines: seq<string>)
    requires |lines| > 0 && TrimLine(lines[0]) != ""
    requires forall i | 0 <= i < |lines| :: OneLine(lines[i])
    ensures Lines(TrimLine(Join(lines, '\n'))) == Chop(lines)
  {
    hide Lines, Chop, TrimLine, Join, OneLine;
    TrimJoin(lines);
    ChopOneLine(lines);
    LinesJoin(Chop(lines));
  }

  lemma {:induction false} TrimTwice(s: string)
    ensures TrimLine(TrimLine(s)) == TrimLine(s)
  {
    hide IsSpace;
    if s != "" && IsSpace(s[|s| - 1]) {
      TrimTwice(s[..|s| - 1]);
    }
  }
}
