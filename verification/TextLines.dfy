/** The string operations the README merge is built from: `strip`, `split`,
    `splitlines` and `join`, with Python's notion of white space. */
module TextLines {
  /** Characters at which `splitlines` ends a line. */
  predicate IsBreak(c: char) {
    c in {'\n', '\r', '\U{0B}', '\U{0C}', '\U{1C}', '\U{1D}', '\U{1E}', '\U{85}', '\U{2028}', '\U{2029}'}
  }

  predicate IsSpace(c: char) {
    || IsBreak(c)
    || c in {' ', '\t', '\U{1F}', '\U{A0}', '\U{1680}', '\U{202F}', '\U{205F}', '\U{3000}'}
    || '\U{2000}' <= c <= '\U{200A}'
  }

  /** What a strip removes: one character, or white space. */
  datatype Trim = Bars | Stars | Underscores | Spaces

  predicate Trims(t: Trim, c: char) {
    match t
    case Bars => c == '|'
    case Stars => c == '*'
    case Underscores => c == '_'
    case Spaces => IsSpace(c)
  }

  function TrimLeft(t: Trim, s: string): (r: string)
    ensures |r| <= |s| && r == s[|s| - |r|..]
    ensures r == "" || !Trims(t, r[0])
  {
    if s != "" && Trims(t, s[0]) then TrimLeft(t, s[1..]) else s
  }

  function TrimRight(t: Trim, s: string): (r: string)
    ensures |r| <= |s| && r == s[..|r|]
    ensures r == "" || !Trims(t, r[|r| - 1])
  {
    if s != "" && Trims(t, s[|s| - 1]) then TrimRight(t, s[..|s| - 1]) else s
  }

  function Strip(t: Trim, s: string): (r: string)
    ensures IsTrimmed(t, r)
    ensures forall c | c in r :: c in s
  {
    var l := TrimLeft(t, s);
    var r := TrimRight(t, l);
    assert forall c | c in r :: c in l;
    r
  }

  predicate IsTrimmed(t: Trim, s: string) {
    s != "" ==> !Trims(t, s[0]) && !Trims(t, s[|s| - 1])
  }

  lemma {:induction false} TrimLeftPadding(t: Trim, pad: string, s: string)
    requires forall i | 0 <= i < |pad| :: Trims(t, pad[i])
    requires s == "" || !Trims(t, s[0])
    ensures TrimLeft(t, pad + s) == s
  {
    if pad == "" {
      assert pad + s == s;
    } else {
      assert (pad + s)[1..] == pad[1..] + s;
      TrimLeftPadding(t, pad[1..], s);
    }
  }

  lemma {:induction false} TrimRightPadding(t: Trim, s: string, pad: string)
    requires forall i | 0 <= i < |pad| :: Trims(t, pad[i])
    requires s == "" || !Trims(t, s[|s| - 1])
    ensures TrimRight(t, s + pad) == s
  {
    if pad == "" {
      assert s + pad == s;
    } else {
      assert (s + pad)[..|s + pad| - 1] == s + pad[..|pad| - 1];
      TrimRightPadding(t, s, pad[..|pad| - 1]);
    }
  }

  /** Stripping undoes padding. */
  lemma StripPadded(t: Trim, left: string, s: string, right: string)
    requires forall i | 0 <= i < |left| :: Trims(t, left[i])
    requires forall i | 0 <= i < |right| :: Trims(t, right[i])
    requires IsTrimmed(t, s)
    ensures Strip(t, left + s + right) == s
  {
    hide Trims;
    if s == "" {
      var pad := left + right;
      assert left + s + right == pad + "";
      TrimLeftPadding(t, pad, "");
    } else {
      assert left + s + right == left + (s + right);
      assert (s + right)[0] == s[0];
      TrimLeftPadding(t, left, s + right);
    }
    TrimRightPadding(t, s, right);
    TrimRightPadding(t, "", "");
    assert s == "" ==> TrimRight(t, "") == "" by { assert "" + "" == ""; }
  }

  // ----------------------------------------------------------- split and join

  function Split(s: string, c: char): (parts: seq<string>)
    ensures |parts| > 0
  {
    if s == "" then [""]
    else
      var rest := Split(s[1..], c);
      if s[0] == c then [""] + rest
      else [[s[0]] + rest[0]] + rest[1..]
  }

  function Join(parts: seq<string>, c: char): string
    requires |parts| > 0
  {
    if |parts| == 1 then parts[0] else parts[0] + [c] + Join(parts[1..], c)
  }

  lemma {:induction false} SplitParts(s: string, c: char)
    ensures forall i | 0 <= i < |Split(s, c)| :: c !in Split(s, c)[i]
    ensures forall i, x | 0 <= i < |Split(s, c)| && x in Split(s, c)[i] :: x in s
  {
    if s != "" {
      var parts, rest := Split(s, c), Split(s[1..], c);
      SplitParts(s[1..], c);
      assert s == [s[0]] + s[1..];
      forall i | 0 <= i < |parts|
        ensures c !in parts[i] && forall x | x in parts[i] :: x in s
      {
        if s[0] == c {
          assert i > 0 ==> parts[i] == rest[i - 1];
        } else {
          assert parts[i] == if i == 0 then [s[0]] + rest[0] else rest[i];
        }
      }
    }
  }

  lemma {:induction false} SplitFirst(p: string, c: char, rest: string)
    requires c !in p
    ensures Split(p + [c] + rest, c) == [p] + Split(rest, c)
  {
    var s := p + [c] + rest;
    if p == "" {
      assert s[0] == c && s[1..] == rest;
    } else {
      assert s[0] == p[0] && s[1..] == p[1..] + [c] + rest;
      SplitFirst(p[1..], c, rest);
      assert [p[0]] + p[1..] == p;
    }
  }

  lemma {:induction false} SplitNone(p: string, c: char)
    requires c !in p
    ensures Split(p, c) == [p]
  {
    if p != "" {
      SplitNone(p[1..], c);
      assert [p[0]] + p[1..] == p;
    }
  }

  lemma {:induction false} SplitJoin(parts: seq<string>, c: char)
    requires |parts| > 0 && forall i | 0 <= i < |parts| :: c !in parts[i]
    ensures Split(Join(parts, c), c) == parts
  {
    if |parts| == 1 {
      SplitNone(parts[0], c);
    } else {
      SplitFirst(parts[0], c, Join(parts[1..], c));
      SplitJoin(parts[1..], c);
      assert [parts[0]] + parts[1..] == parts;
    }
  }

  // -------------------------------------------------------------------- lines

  predicate OneLine(s: string) {
    forall i | 0 <= i < |s| :: !IsBreak(s[i])
  }

  function FirstBreak(s: string): (k: nat)
    ensures k <= |s| && OneLine(s[..k]) && (k < |s| ==> IsBreak(s[k]))
  {
    if s == "" || IsBreak(s[0]) then 0
    else
      var k := FirstBreak(s[1..]);
      assert s[..k + 1] == [s[0]] + s[1..][..k];
      k + 1
  }

  /** `splitlines`: a carriage return and a line feed end one line together, and
      a break at the very end starts no further line. */
  function Lines(s: string): (l: seq<string>)
    ensures forall i | 0 <= i < |l| :: OneLine(l[i])
    decreases |s|
  {
    if s == "" then []
    else
      var k := FirstBreak(s);
      if k == |s| then [s]
      else if s[k] == '\r' && k + 1 < |s| && s[k + 1] == '\n' then [s[..k]] + Lines(s[k + 2..])
      else [s[..k]] + Lines(s[k + 1..])
  }

  lemma FirstBreakIs(s: string, rest: string)
    requires OneLine(s) && (rest == "" || IsBreak(rest[0]))
    ensures FirstBreak(s + rest) == |s|
  {
    assert forall i | 0 <= i < |s| :: (s + rest)[i] == s[i];
    assert rest != "" ==> (s + rest)[|s|] == rest[0];
  }

  /** Lines joined by line feeds come back, if the last one is not empty. */
  lemma {:induction false} LinesJoin(lines: seq<string>)
    requires |lines| > 0 && lines[|lines| - 1] != ""
    requires forall i | 0 <= i < |lines| :: OneLine(lines[i])
    ensures Lines(Join(lines, '\n')) == lines
  {
    hide IsBreak;
    var s := Join(lines, '\n');
    if |lines| == 1 {
      FirstBreakIs(s, "");
      assert s + "" == s;
      LastLine(s);
    } else {
      var rest := Join(lines[1..], '\n');
      LinesJoin(lines[1..]);
      assert s == lines[0] + (['\n'] + rest);
      assert IsBreak('\n') by { NewlineBreaks(); }
      FirstBreakIs(lines[0], ['\n'] + rest);
      LineThenRest(lines[0], rest);
      assert [lines[0]] + lines[1..] == lines;
    }
  }

  lemma NewlineBreaks()
    ensures IsBreak('\n')
  {
  }

  lemma LastLine(s: string)
    requires s != "" && FirstBreak(s) == |s|
    ensures Lines(s) == [s]
  {
  }

  lemma LineThenRest(line: string, rest: string)
    requires FirstBreak(line + (['\n'] + rest)) == |line|
    ensures Lines(line + (['\n'] + rest)) == [line] + Lines(rest)
  {
    var s := line + (['\n'] + rest);
    assert s[..|line|] == line && s[|line| + 1..] == rest && s[|line|] == '\n';
  }

  /** Any break ends a line; a carriage return and a line feed end one together. */
  lemma LinesBreak(line: string, c: char, rest: string)
    requires OneLine(line) && IsBreak(c)
    ensures !(c == '\r' && rest != "" && rest[0] == '\n') ==> Lines(line + [c] + rest) == [line] + Lines(rest)
    ensures Lines(line + "\r\n" + rest) == [line] + Lines(rest)
  {
    hide IsBreak, OneLine;
    var s := line + [c] + rest;
    assert s == line + ([c] + rest);
    FirstBreakIs(line, [c] + rest);
    assert s[..|line|] == line && s[|line|] == c && s[|line| + 1..] == rest;
    var t := line + "\r\n" + rest;
    assert t == line + ("\r\n" + rest);
    assert IsBreak('\r') by { ReturnBreaks(); }
    FirstBreakIs(line, "\r\n" + rest);
    assert t[..|line|] == line && t[|line|] == '\r' && t[|line| + 1] == '\n' && t[|line| + 2..] == rest;
  }

  lemma ReturnBreaks()
    ensures IsBreak('\r')
  {
  }
}
