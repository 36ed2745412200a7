/** The closing note of the failures block: the runs that did not complete. */
module NotCompleted {
  import opened Wrappers
  import opened TextLines
  import opened Substrings

  datatype Item = Item(name: string, peer: string, why: string)

  const VS := " vs "
  const OPEN := " ("
  const COMMA := ", "

  function Text(it: Item): string {
    it.name + VS + it.peer + OPEN + it.why + ")"
  }

  /** `^(.*) vs (.*) \((.*)\)$`: no group crosses a line feed, and every group takes
      as much as it can, so the last ` (` before the closing parenthesis counts,
      and the last ` vs ` before it. */
  function ParseItem(part: string): Option<Item> {
    if part == "" || part[|part| - 1] != ')' || '\n' in part then None
    else
      var body := part[..|part| - 1];
      var open := LastAt(body, OPEN);
      if open.None? then None
      else
        var vs := LastAt(body[..open.value], VS);
        if vs.None? then None
        else Some(Item(body[..vs.value], body[vs.value + 4..open.value], body[open.value + 2..]))
  }

  /** Items that survive being written and read. */
  predicate Clean(it: Item) {
    && !Occurs(" " + it.peer, VS)
    && !Occurs(it.why, OPEN)
    && !Occurs(Text(it), COMMA)
    && '\n' !in Text(it)
    && IsTrimmed(Spaces, Text(it))
  }

  lemma HeadParts(head: string)
    requires LastAt(head, VS).Some?
    ensures var vs := LastAt(head, VS).value;
            head == head[..vs] + VS + head[vs + 4..] && !Occurs(" " + head[vs + 4..], VS)
  {
    hide Occurs, LastAt;
    var vs := LastAt(head, VS).value;
    assert head == head[..vs] + head[vs..vs + 4] + head[vs + 4..];
    assert head[vs + 1..] == "vs" + (" " + head[vs + 4..]) by {
      assert head[vs + 1..] == head[vs..vs + 4][1..] + head[vs + 4..];
    }
    OccursInSuffix("vs", " " + head[vs + 4..], VS);
  }

  lemma BodyParts(body: string)
    requires LastAt(body, OPEN).Some?
    ensures var open := LastAt(body, OPEN).value;
            body == body[..open] + OPEN + body[open + 2..] && !Occurs(body[open + 2..], OPEN)
  {
    hide Occurs, LastAt;
    var open := LastAt(body, OPEN).value;
    assert body == body[..open] + body[open..open + 2] + body[open + 2..];
    assert body[open + 1..] == "(" + body[open + 2..] by {
      assert body[open + 1..] == body[open..open + 2][1..] + body[open + 2..];
    }
    OccursInSuffix("(", body[open + 2..], OPEN);
  }

  lemma ParsedItem(part: string)
    requires ParseItem(part).Some? && !Occurs(part, COMMA) && IsTrimmed(Spaces, part)
    ensures Text(ParseItem(part).value) == part && Clean(ParseItem(part).value)
  {
    hide Occurs, IsTrimmed, LastAt;
    var it := ParseItem(part).value;
    var body := part[..|part| - 1];
    var head := body[..LastAt(body, OPEN).value];
    BodyParts(body);
    HeadParts(head);
    assert body == head + OPEN + it.why && head == it.name + VS + it.peer;
    assert part == body + ")";
    assert Text(it) == part;
  }

  lemma {:induction false} SpaceFirst(pad: string, s: string, sep: string)
    requires sep != "" && sep[0] == ' ' && ' ' !in pad && !Occurs(s, sep)
    ensures !Occurs(pad + s, sep)
  {
    if pad == "" {
      assert pad + s == s;
    } else {
      assert (pad + s)[1..] == pad[1..] + s && (pad + s)[0] == pad[0];
      SpaceFirst(pad[1..], s, sep);
    }
  }

  lemma ItemReadBack(it: Item)
    requires Clean(it)
    ensures ParseItem(Text(it)) == Some(it)
  {
    hide Occurs, IsTrimmed, LastAt;
    var head := it.name + VS + it.peer;
    var body := head + OPEN + it.why;
    assert Text(it) == body + ")";
    SpaceFirst("(", it.why, OPEN);
    assert (OPEN + it.why)[1..] == "(" + it.why;
    LastAtIs(head, OPEN, it.why);
    SpaceFirst("vs", " " + it.peer, VS);
    assert (VS + it.peer)[1..] == "vs" + (" " + it.peer);
    LastAtIs(it.name, VS, it.peer);
    assert Text(it)[..|Text(it)| - 1] == body && body[..|head|] == head;
    assert body[..|it.name|] == it.name && body[|it.name| + 4..|head|] == it.peer && body[|head| + 2..] == it.why;
  }

  // ----------------------------------------------------------------- the note

  function ParseParts(parts: seq<string>): seq<Item> {
    if parts == [] then []
    else
      var it := ParseItem(Strip(Spaces, parts[0]));
      (if it.Some? then [it.value] else []) + ParseParts(parts[1..])
  }

  const HEAD := "Not completed:"

  function NoteBody(line: string): string {
    var s := TrimLeft(Underscores, Strip(Spaces, line));
    var cut := if EndsWith(s, "._") then s[..|s| - 2] else s;
    Strip(Spaces, if HEAD <= cut then cut[|HEAD|..] else cut)
  }

  /** `parse_not_completed`. */
  function ParseNote(line: Option<string>): seq<Item> {
    if line.None? || line.value == "" then [] else ParseParts(SplitOn(NoteBody(line.value), COMMA))
  }

  function Texts(items: seq<Item>): (t: seq<string>)
    ensures |t| == |items| && forall i | 0 <= i < |t| :: t[i] == Text(items[i])
  {
    seq(|items|, i requires 0 <= i < |items| => Text(items[i]))
  }

  /** `render_not_completed`, with `None` for the empty string. */
  function RenderNote(items: seq<Item>): Option<string> {
    if items == [] then None else Some("_" + HEAD + " " + JoinOn(Texts(items), COMMA) + "._")
  }

  lemma StripKeepsOut(s: string)
    requires !Occurs(s, COMMA)
    ensures !Occurs(Strip(Spaces, s), COMMA)
  {
    hide Occurs, TrimLeft, TrimRight;
    var l := TrimLeft(Spaces, s);
    assert s == s[..|s| - |l|] + l;
    OccursInSuffix(s[..|s| - |l|], l, COMMA);
    var r := TrimRight(Spaces, l);
    assert l == r + l[|r|..];
    OccursInPrefix(r, l[|r|..], COMMA);
  }

  lemma {:induction false} PartsAreClean(parts: seq<string>)
    requires forall i | 0 <= i < |parts| :: !Occurs(parts[i], COMMA)
    ensures forall i | 0 <= i < |ParseParts(parts)| :: Clean(ParseParts(parts)[i])
  {
    hide Clean, ParseItem, Strip, Occurs;
    if parts != [] {
      PartsAreClean(parts[1..]);
      var s := Strip(Spaces, parts[0]);
      if ParseItem(s).Some? {
        StripKeepsOut(parts[0]);
        ParsedItem(s);
      }
    }
  }

  /** Whatever the line, the items read from it are clean. */
  lemma ParsedNoteClean(line: Option<string>)
    ensures forall it | it in ParseNote(line) :: Clean(it)
  {
    hide Clean, NoteBody, SplitOn, ParseParts, Occurs;
    if line.Some? && line.value != "" {
      PartsHaveNone(NoteBody(line.value), COMMA);
      PartsAreClean(SplitOn(NoteBody(line.value), COMMA));
    }
  }

  lemma {:induction false} PartsReadBack(items: seq<Item>)
    requires forall i | 0 <= i < |items| :: Clean(items[i])
    ensures ParseParts(Texts(items)) == items
  {
    hide Clean, Text, ParseItem, Strip, IsTrimmed;
    if items != [] {
      PartsReadBack(items[1..]);
      assert Texts(items)[1..] == Texts(items[1..]);
      ItemReadBack(items[0]);
      assert IsTrimmed(Spaces, Text(items[0])) by { CleanTrimmed(items[0]); }
      StripSame(Text(items[0]));
      assert [items[0]] + items[1..] == items;
    }
  }

  lemma CleanTrimmed(it: Item)
    requires Clean(it)
    ensures IsTrimmed(Spaces, Text(it)) && Text(it) != ""
  {
  }

  lemma StripSame(s: string)
    requires IsTrimmed(Spaces, s)
    ensures Strip(Spaces, s) == s
  {
    hide Strip, IsTrimmed;
    StripPadded(Spaces, "", s, "");
    assert "" + s + "" == s;
  }

  lemma {:induction false} NoCommaAcross(t: string)
    requires t != "" && t[|t| - 1] == ')' && !Occurs(t, COMMA)
    ensures Apart(t, COMMA)
  {
    assert COMMA[..1] == ",";
    if |t| == 1 {
      assert (t + ",")[1..] == "," && ","[1..] == "";
      assert Occurs(",", COMMA) == Occurs("", COMMA);
    } else {
      assert (t + ",")[1..] == t[1..] + ",";
      NoCommaAcross(t[1..]);
      assert COMMA <= t + "," ==> COMMA <= t;
    }
  }

  lemma {:induction false} JoinOnEnds(parts: seq<string>, sep: string)
    requires |parts| > 0 && forall i | 0 <= i < |parts| :: parts[i] != ""
    ensures var j := JoinOn(parts, sep);
            |j| > 0 && j[0] == parts[0][0] && j[|j| - 1] == parts[|parts| - 1][|parts[|parts| - 1]| - 1]
  {
    if |parts| > 1 {
      JoinOnEnds(parts[1..], sep);
    }
  }

  lemma Unwrapped(inner: string)
    requires inner != "" && inner[0] != '_'
    ensures TrimLeft(Underscores, Strip(Spaces, "_" + inner + "._")) == inner + "._"
  {
    hide Strip, TrimLeft, IsSpace;
    var line := "_" + inner + "._";
    assert line == "_" + (inner + "._");
    assert line[0] == '_' && line[|line| - 1] == '_';
    Kinds();
    StripSame(line);
    TrimLeftPadding(Underscores, "_", inner + "._");
  }

  lemma HeadDropped(body: string)
    requires IsTrimmed(Spaces, body)
    ensures HEAD <= HEAD + (" " + body) && Strip(Spaces, (HEAD + (" " + body))[|HEAD|..]) == body
  {
    hide Strip, IsTrimmed, IsSpace;
    assert (HEAD + (" " + body))[|HEAD|..] == " " + body;
    Kinds();
    StripPadded(Spaces, " ", body, "");
    assert " " + body + "" == " " + body;
  }

  /** What the note holds between its fixed words. */
  lemma BodyReadBack(body: string)
    requires IsTrimmed(Spaces, body)
    ensures NoteBody("_" + HEAD + " " + body + "._") == body
  {
    hide Strip, TrimLeft, IsTrimmed;
    var inner := HEAD + (" " + body);
    assert "_" + HEAD + " " + body + "._" == "_" + inner + "._";
    Unwrapped(inner);
    assert EndsWith(inner + "._", "._") && (inner + "._")[..|inner|] == inner;
    HeadDropped(body);
  }

  lemma Kinds()
    ensures !IsSpace('_') && IsSpace(' ') && !IsSpace(')')
  {
  }

  lemma CleanReadBack(items: seq<Item>)
    requires items != [] && forall i | 0 <= i < |items| :: Clean(items[i])
    ensures ParseNote(RenderNote(items)) == items
  {
    hide Clean, Text, ParseParts, SplitOn, JoinOn, NoteBody, IsTrimmed, Apart;
    var texts := Texts(items);
    forall i | 0 <= i < |texts|
      ensures texts[i] != "" && texts[i][|texts[i]| - 1] == ')' && Apart(texts[i], COMMA)
      ensures !IsSpace(texts[i][0])
    {
      CleanText(items[i]);
      NoCommaAcross(texts[i]);
    }
    JoinOnEnds(texts, COMMA);
    var body := JoinOn(texts, COMMA);
    assert IsTrimmed(Spaces, body) by { Kinds(); TrimmedEnds(body); }
    BodyReadBack(body);
    SplitOnJoin(texts, COMMA);
    PartsReadBack(items);
  }

  lemma TrimmedEnds(s: string)
    requires s != "" && !IsSpace(s[0]) && !IsSpace(s[|s| - 1])
    ensures IsTrimmed(Spaces, s)
  {
  }

  lemma CleanText(it: Item)
    requires Clean(it)
    ensures var t := Text(it);
            t != "" && t[|t| - 1] == ')' && !Occurs(t, COMMA) && !IsSpace(t[0])
  {
    hide Occurs;
  }

  /** Reading undoes writing for exactly the lists of clean items. */
  lemma ReadBackExactlyClean(items: seq<Item>)
    ensures ParseNote(RenderNote(items)) == items <==> forall i | 0 <= i < |items| :: Clean(items[i])
  {
    hide Clean, ParseParts, SplitOn, NoteBody;
    if items == [] {
    } else if forall i | 0 <= i < |items| :: Clean(items[i]) {
      CleanReadBack(items);
    } else {
      ParsedNoteClean(RenderNote(items));
    }
  }

  // ------------------------------------------------------------------ merging

  function Others(items: seq<Item>, run: set<string>): seq<Item> {
    if items == [] then []
    else (if items[0].name in run then [] else [items[0]]) + Others(items[1..], run)
  }

  lemma {:induction false} OthersAreItems(items: seq<Item>, run: set<string>)
    ensures forall it :: it in Others(items, run) <==> it in items && it.name !in run
  {
    if items != [] {
      OthersAreItems(items[1..], run);
      assert items == [items[0]] + items[1..];
    }
  }

  function MergedItems(existing: Option<string>, latest: Option<string>, run: set<string>): seq<Item> {
    Others(ParseNote(existing), run) + ParseNote(latest)
  }

  /** The merged note reads back as the old items of configs that were not run
      followed by the latest items, whatever the two lines are. */
  lemma MergedNoteReads(existing: Option<string>, latest: Option<string>, run: set<string>)
    ensures ParseNote(RenderNote(MergedItems(existing, latest, run))) == MergedItems(existing, latest, run)
  {
    hide Clean, ParseNote, RenderNote;
    ParsedNoteClean(existing);
    ParsedNoteClean(latest);
    OthersAreItems(ParseNote(existing), run);
    var items := MergedItems(existing, latest, run);
    forall i | 0 <= i < |items|
      ensures Clean(items[i])
    {
      assert items[i] in items;
    }
    ReadBackExactlyClean(items);
  }

  // ------------------------------------------------------- the note is one line

  lemma {:induction false} PartsOneLine(s: string, sep: string)
    requires sep != "" && OneLine(s)
    ensures forall i | 0 <= i < |SplitOn(s, sep)| :: OneLine(SplitOn(s, sep)[i])
    decreases |s|
  {
    hide IsBreak, Occurs;
    if Occurs(s, sep) {
      PartsOneLine(s[|Until(s, sep)| + |sep|..], sep);
    }
  }

  lemma StripOneLine(s: string)
    requires OneLine(s)
    ensures OneLine(Strip(Spaces, s))
  {
    hide IsBreak, Strip;
    var r := Strip(Spaces, s);
    forall i | 0 <= i < |r|
      ensures !IsBreak(r[i])
    {
      assert r[i] in s;
    }
  }

  lemma BodyOneLine(line: string)
    requires OneLine(line)
    ensures OneLine(NoteBody(line))
  {
    hide IsBreak, Strip, TrimLeft;
    StripOneLine(line);
    var s := TrimLeft(Underscores, Strip(Spaces, line));
    assert OneLine(s);
    var cut := if EndsWith(s, "._") then s[..|s| - 2] else s;
    StripOneLine(if HEAD <= cut then cut[|HEAD|..] else cut);
  }

  lemma {:induction false} ItemsOneLine(parts: seq<string>)
    requires forall i | 0 <= i < |parts| :: OneLine(parts[i]) && !Occurs(parts[i], COMMA)
    ensures forall i | 0 <= i < |ParseParts(parts)| :: OneLine(Text(ParseParts(parts)[i]))
  {
    hide Clean, ParseItem, Strip, Occurs, OneLine, Text;
    if parts != [] {
      ItemsOneLine(parts[1..]);
      var s := Strip(Spaces, parts[0]);
      if ParseItem(s).Some? {
        StripKeepsOut(parts[0]);
        StripOneLine(parts[0]);
        ParsedItem(s);
      }
    }
  }

  lemma ParsedNoteOneLine(line: Option<string>)
    requires line.Some? ==> OneLine(line.value)
    ensures forall it | it in ParseNote(line) :: OneLine(Text(it))
  {
    hide NoteBody, SplitOn, ParseParts, Occurs, OneLine, Text;
    if line.Some? && line.value != "" {
      var parts := SplitOn(NoteBody(line.value), COMMA);
      BodyOneLine(line.value);
      PartsOneLine(NoteBody(line.value), COMMA);
      PartsHaveNone(NoteBody(line.value), COMMA);
      ItemsOneLine(parts);
    }
  }

  lemma {:induction false} JoinOnOneLine(parts: seq<string>, sep: string)
    requires |parts| > 0 && OneLine(sep) && forall i | 0 <= i < |parts| :: OneLine(parts[i])
    ensures OneLine(JoinOn(parts, sep))
  {
    hide IsBreak;
    if |parts| > 1 {
      JoinOnOneLine(parts[1..], sep);
    }
  }

  lemma RenderedOneLine(items: seq<Item>)
    requires items != [] && forall it | it in items :: OneLine(Text(it))
    ensures OneLine(RenderNote(items).value)
  {
    hide IsBreak, Text, JoinOn;
    WordsOneLine();
    JoinOnOneLine(Texts(items), COMMA);
  }

  lemma WordsOneLine()
    ensures OneLine(COMMA) && OneLine(HEAD) && OneLine("_") && OneLine(" ") && OneLine("._")
  {
  }

  /** The note as it is written. */
  lemma NoteText(a: Item, b: Item)
    ensures Text(a) == a.name + " vs " + a.peer + " (" + a.why + ")"
    ensures RenderNote([a]) == Some("_Not completed: " + Text(a) + "._")
    ensures RenderNote([a, b]) == Some("_Not completed: " + (Text(a) + ", " + Text(b)) + "._")
  {
    hide Text;
    assert Texts([a]) == [Text(a)];
    var two := Texts([a, b]);
    assert two == [Text(a), Text(b)] && two[1..] == [Text(b)];
    assert "_" + HEAD + " " == "_Not completed: ";
    assert JoinOn([Text(b)], COMMA) == Text(b);
    assert JoinOn(two, COMMA) == Text(a) + ", " + Text(b);
    assert Text(a) == a.name + " vs " + a.peer + " (" + a.why + ")" by { ItemText(a); }
  }

  lemma ItemText(it: Item)
    ensures Text(it) == it.name + " vs " + it.peer + " (" + it.why + ")"
  {
  }
}
