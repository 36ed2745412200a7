/** The failures block of the README: bullets under section headings, and the
    merge that keeps the bullets of configs that were not run. */
module FailureBlocks {
  import opened Wrappers
  import opened TextLines
  import opened TrimmedLines
  import opened Substrings
  import opened NotCompleted
  import opened SortedNames
  import opened StatusTable

  /** Kind and pairing of a heading; a pairing with an unknown title is `None`. */
  datatype Section = Genuine | NonConf(col: Option<Col>) | Unsup(col: Option<Col>)

  datatype Bullet = Bullet(section: Section, cfg: string, line: string)

  const GENUINE := "Genuine interop failures"
  const DASHED := " — "
  const LIMITATION := "peer-side limitation (not counted)"
  const EXPECTED := "unsupported (expected)"

  // ------------------------------------------------------------------ parsing

  predicate IsHeading(s: string) {
    "**" <= s && EndsWith(s, "**")
  }

  /** The section a stripped heading opens; any other heading closes the last. */
  function SectionOf(s: string): Option<Section> {
    var title := Strip(Spaces, Strip(Stars, s));
    if GENUINE <= title then Some(Genuine)
    else if EndsWith(title, "— " + LIMITATION) then Some(NonConf(ColOf(Until(title, DASHED))))
    else if EndsWith(title, "— " + EXPECTED) then Some(Unsup(ColOf(Until(title, DASHED))))
    else None
  }

  /** How many characters come before the first back-tick. */
  function ToTick(s: string): (n: nat)
    ensures n <= |s| && '`' !in s[..n] && (n < |s| ==> s[n] == '`')
  {
    if s == "" || s[0] == '`' then 0
    else
      var n := ToTick(s[1..]);
      assert s[..n + 1] == [s[0]] + s[1..][..n];
      n + 1
  }

  /** The first non-empty text between two back-ticks. */
  function Quoted(s: string): Option<string>
    decreases |s|
  {
    var i := ToTick(s);
    if i == |s| then None
    else
      var j := ToTick(s[i + 1..]);
      if i + 1 + j == |s| then None
      else if j == 0 then Quoted(s[i + 1..])
      else Some(s[i + 1..i + 1 + j])
  }

  /** The config a bullet line is filed under. */
  function BulletCfg(line: string): Option<string> {
    var s := Strip(Spaces, line);
    if !("- " <= s) || Quoted(s).None? then None
    else Some(Strip(Spaces, Until(Quoted(s).value, " / ")))
  }

  const NOTE := "_Not completed:"

  predicate IsNote(s: string) {
    NOTE <= s
  }

  function SectionAfter(cur: Option<Section>, line: string): Option<Section> {
    var s := Strip(Spaces, line);
    if IsHeading(s) then SectionOf(s) else cur
  }

  /** The bullet a line adds, in the section it stands in. */
  function FiledLine(cur: Option<Section>, line: string): seq<Bullet> {
    var s := Strip(Spaces, line);
    if IsHeading(s) || IsNote(s) || cur.None? || BulletCfg(line).None? then []
    else [Bullet(cur.value, BulletCfg(line).value, line)]
  }

  function SectionAt(cur: Option<Section>, lines: seq<string>): Option<Section>
    decreases lines
  {
    if lines == [] then cur else SectionAt(SectionAfter(cur, lines[0]), lines[1..])
  }

  /** Every bullet of the block, in order. */
  function Filed(cur: Option<Section>, lines: seq<string>): seq<Bullet>
    decreases lines
  {
    if lines == [] then []
    else FiledLine(cur, lines[0]) + Filed(SectionAfter(cur, lines[0]), lines[1..])
  }

  function NoteAfter(note: Option<string>, line: string): Option<string> {
    var s := Strip(Spaces, line);
    if !IsHeading(s) && IsNote(s) then Some(s) else note
  }

  /** The last not-completed line. */
  function NoteAt(note: Option<string>, lines: seq<string>): Option<string>
    decreases lines
  {
    if lines == [] then note else NoteAt(NoteAfter(note, lines[0]), lines[1..])
  }

  /** Line `i` is a not-completed line. */
  predicate NoteAtLine(lines: seq<string>, i: nat) {
    i < |lines| && "_Not completed:" <= Strip(Spaces, lines[i])
  }

  /** The note of a block is its last not-completed line, stripped. */
  lemma {:induction false} LastNote(lines: seq<string>, note: Option<string>)
    ensures if exists i: nat :: NoteAtLine(lines, i) then
              exists i: nat :: NoteAtLine(lines, i) && NoteAt(note, lines) == Some(Strip(Spaces, lines[i]))
                               && forall k: nat | NoteAtLine(lines, k) :: k <= i
            else NoteAt(note, lines) == note
    decreases lines
  {
    hide Strip;
    if lines != [] {
      var rest := lines[1..];
      LastNote(rest, NoteAfter(note, lines[0]));
      if IsNote(Strip(Spaces, lines[0])) {
        NoteIsNoHeading(Strip(Spaces, lines[0]));
      }
      if i: nat :| NoteAtLine(rest, i) && NoteAt(NoteAfter(note, lines[0]), rest) == Some(Strip(Spaces, rest[i]))
                   && forall k: nat | NoteAtLine(rest, k) :: k <= i {
        assert NoteAtLine(lines, i + 1);
        forall k: nat | NoteAtLine(lines, k)
          ensures k <= i + 1
        {
          assert k > 0 ==> NoteAtLine(rest, k - 1);
        }
      } else {
        assert forall k: nat :: !NoteAtLine(rest, k);
        forall k: nat | k > 0
          ensures !NoteAtLine(lines, k)
        {
          assert NoteAtLine(rest, k - 1) == NoteAtLine(lines, k);
        }
        if NoteAtLine(lines, 0) {
          assert NoteAt(note, lines) == Some(Strip(Spaces, lines[0]));
        }
      }
    }
  }

  lemma NoteIsNoHeading(s: string)
    requires IsNote(s)
    ensures !IsHeading(s)
  {
    assert s[0] == '_';
  }

  /** The bullets filed under a section and a config. */
  function Pick(bullets: seq<Bullet>, section: Section, cfg: string): seq<string> {
    if bullets == [] then []
    else
      (if bullets[0].section == section && bullets[0].cfg == cfg then [bullets[0].line] else [])
      + Pick(bullets[1..], section, cfg)
  }

  lemma {:induction false} FiledConcat(cur: Option<Section>, a: seq<string>, b: seq<string>)
    ensures Filed(cur, a + b) == Filed(cur, a) + Filed(SectionAt(cur, a), b)
    ensures SectionAt(cur, a + b) == SectionAt(SectionAt(cur, a), b)
    decreases a
  {
    hide FiledLine, SectionAfter;
    if a == [] {
      assert a + b == b;
    } else {
      assert (a + b)[0] == a[0] && (a + b)[1..] == a[1..] + b;
      FiledConcat(SectionAfter(cur, a[0]), a[1..], b);
    }
  }

  lemma {:induction false} NoteConcat(note: Option<string>, a: seq<string>, b: seq<string>)
    ensures NoteAt(note, a + b) == NoteAt(NoteAt(note, a), b)
    decreases a
  {
    hide NoteAfter;
    if a == [] {
      assert a + b == b;
    } else {
      assert (a + b)[0] == a[0] && (a + b)[1..] == a[1..] + b;
      NoteConcat(NoteAfter(note, a[0]), a[1..], b);
    }
  }

  lemma {:induction false} PickConcat(a: seq<Bullet>, b: seq<Bullet>, section: Section, cfg: string)
    ensures Pick(a + b, section, cfg) == Pick(a, section, cfg) + Pick(b, section, cfg)
  {
    if a == [] {
      assert a + b == b;
    } else {
      assert (a + b)[0] == a[0] && (a + b)[1..] == a[1..] + b;
      PickConcat(a[1..], b, section, cfg);
    }
  }

  lemma PickOne(b: Bullet, section: Section, cfg: string)
    ensures Pick([b], section, cfg) == if b.section == section && b.cfg == cfg then [b.line] else []
  {
    assert [b][1..] == [];
    assert Pick([], section, cfg) == [];
  }

  /** A line that is a well-placed bullet for `cfg`. */
  predicate BulletFor(line: string, cfg: string) {
    OneLine(line) && BulletCfg(line) == Some(cfg)
  }

  lemma {:induction false} FiledAreBullets(cur: Option<Section>, lines: seq<string>)
    requires forall i | 0 <= i < |lines| :: OneLine(lines[i])
    ensures forall b | b in Filed(cur, lines) :: BulletFor(b.line, b.cfg)
    decreases lines
  {
    hide BulletCfg, SectionAfter, IsHeading, IsNote, Strip, OneLine;
    if lines != [] {
      FiledAreBullets(SectionAfter(cur, lines[0]), lines[1..]);
    }
  }

  lemma {:induction false} PickAreBullets(bullets: seq<Bullet>, section: Section, cfg: string)
    requires forall b | b in bullets :: BulletFor(b.line, b.cfg)
    ensures forall l | l in Pick(bullets, section, cfg) :: BulletFor(l, cfg)
  {
    hide BulletFor;
    if bullets != [] {
      PickAreBullets(bullets[1..], section, cfg);
    }
  }

  // ---------------------------------------------------------------- the merge

  /** The bullets of the two blocks, and the configs of this session. */
  datatype Sources = Sources(prior: seq<Bullet>, latest: seq<Bullet>, run: set<string>)

  predicate Good(src: Sources) {
    && (forall b | b in src.prior :: BulletFor(b.line, b.cfg))
    && (forall b | b in src.latest :: BulletFor(b.line, b.cfg))
  }

  /** The latest bullets if there are any; else the old ones, unless the config
      was run. */
  function Merged(src: Sources, section: Section, cfg: string): seq<string> {
    var latest := Pick(src.latest, section, cfg);
    if latest != [] then latest
    else if cfg in src.run then []
    else Pick(src.prior, section, cfg)
  }

  function Cfgs(src: Sources, section: Section): set<string> {
    set b | b in src.prior + src.latest && Merged(src, section, b.cfg) != [] :: b.cfg
  }

  ghost function LinesFor(src: Sources, section: Section, names: seq<string>): seq<string> {
    if names == [] then [] else Merged(src, section, names[0]) + LinesFor(src, section, names[1..])
  }

  ghost function SectionLines(src: Sources, section: Section): seq<string> {
    LinesFor(src, section, Sorted(Cfgs(src, section)))
  }

  predicate Known(section: Section) {
    section.Genuine? || section.col.Some?
  }

  function HeadingTitle(section: Section): string
    requires Known(section)
  {
    match section
    case Genuine => GENUINE + " (interop bugs)"
    case NonConf(c) => Title(c.value) + DASHED + LIMITATION
    case Unsup(c) => Title(c.value) + DASHED + EXPECTED
  }

  function Heading(section: Section): string
    requires Known(section)
  {
    "**" + HeadingTitle(section) + "**"
  }

  const NONE := "_No genuine interop failures._"

  function Block(section: Section, lines: seq<string>): seq<string>
    requires Known(section)
  {
    if lines == [] then (if section == Genuine then [Heading(section), "", NONE, ""] else [])
    else [Heading(section), ""] + lines + [""]
  }

  /** The sections in the order they are written. */
  function Order(): (o: seq<Section>)
    ensures forall section | section in o :: Known(section)
    ensures |o| > 0 && o[0] == Genuine
  {
    [Genuine, NonConf(Some(SelfPair)), Unsup(Some(SelfPair)), NonConf(Some(MlsRs)), Unsup(Some(MlsRs)),
     NonConf(Some(MlsPp)), Unsup(Some(MlsPp))]
  }

  ghost function Blocks(src: Sources, sections: seq<Section>): seq<string>
    requires forall section | section in sections :: Known(section)
  {
    if sections == [] then []
    else Block(sections[0], SectionLines(src, sections[0])) + Blocks(src, sections[1..])
  }

  ghost function MergedLines(src: Sources, note: Option<string>): seq<string> {
    Blocks(src, Order()) + if note.Some? then [note.value] else []
  }

  function SourcesOf(existing: string, latest: string, run: set<string>): Sources {
    Sources(Filed(None, Lines(existing)), Filed(None, Lines(latest)), run)
  }

  function MergedNote(existing: string, latest: string, run: set<string>): Option<string> {
    RenderNote(MergedItems(NoteAt(None, Lines(existing)), NoteAt(None, Lines(latest)), run))
  }

  /** `merge_failures_block`. */
  ghost function MergeText(existing: string, latest: string, run: set<string>): string {
    var lines := MergedLines(SourcesOf(existing, latest, run), MergedNote(existing, latest, run));
    if lines == [] then "" else TrimRight(Spaces, Join(lines, '\n'))
  }

  // ------------------------------------------------------- reading the sections

  lemma {:induction false} PickHas(bullets: seq<Bullet>, section: Section, cfg: string)
    ensures Pick(bullets, section, cfg) != [] ==> exists b :: b in bullets && b.section == section && b.cfg == cfg
  {
    if bullets != [] {
      PickHas(bullets[1..], section, cfg);
      assert bullets == [bullets[0]] + bullets[1..];
    }
  }

  lemma CfgsAreMerged(src: Sources, section: Section, cfg: string)
    ensures cfg in Cfgs(src, section) <==> Merged(src, section, cfg) != []
  {
    hide Pick;
    PickHas(src.prior, section, cfg);
    PickHas(src.latest, section, cfg);
  }

  lemma MergedAreBullets(src: Sources, section: Section, cfg: string)
    requires Good(src)
    ensures forall l | l in Merged(src, section, cfg) :: BulletFor(l, cfg)
  {
    hide Pick, BulletFor;
    PickAreBullets(src.prior, section, cfg);
    PickAreBullets(src.latest, section, cfg);
  }

  lemma {:induction false} LinesForAreBullets(src: Sources, section: Section, names: seq<string>)
    requires Good(src)
    ensures forall l | l in LinesFor(src, section, names) :: OneLine(l) && BulletCfg(l).Some?
  {
    hide Merged, Good, OneLine, BulletCfg;
    if names != [] {
      MergedAreBullets(src, section, names[0]);
      LinesForAreBullets(src, section, names[1..]);
    }
  }

  function TaggedLine(section: Section, line: string): seq<Bullet> {
    var cfg := BulletCfg(line);
    if cfg.Some? then [Bullet(section, cfg.value, line)] else []
  }

  /** Bullet lines filed under one section. */
  function Tagged(section: Section, lines: seq<string>): seq<Bullet> {
    if lines == [] then [] else TaggedLine(section, lines[0]) + Tagged(section, lines[1..])
  }

  lemma BulletLine(line: string, cur: Option<Section>, note: Option<string>)
    requires BulletCfg(line).Some?
    ensures SectionAfter(cur, line) == cur && NoteAfter(note, line) == note
    ensures cur.Some? ==> FiledLine(cur, line) == [Bullet(cur.value, BulletCfg(line).value, line)]
  {
    hide Quoted, Strip, SectionOf;
    var s := Strip(Spaces, line);
    assert s[0] == '-';
  }

  lemma {:induction false} BulletLinesRead(section: Section, lines: seq<string>, note: Option<string>)
    requires forall l | l in lines :: BulletCfg(l).Some?
    ensures Filed(Some(section), lines) == Tagged(section, lines)
    ensures SectionAt(Some(section), lines) == Some(section) && NoteAt(note, lines) == note
  {
    hide BulletCfg, FiledLine, SectionAfter, NoteAfter;
    if lines != [] {
      BulletLine(lines[0], Some(section), note);
      BulletLinesRead(section, lines[1..], note);
    }
  }

  lemma {:induction false} PickTagged(section: Section, lines: seq<string>, cfg: string)
    requires forall l | l in lines :: BulletCfg(l) == Some(cfg)
    ensures Pick(Tagged(section, lines), section, cfg) == lines
  {
    hide BulletCfg;
    if lines != [] {
      PickTagged(section, lines[1..], cfg);
      assert [lines[0]] + lines[1..] == lines;
    }
  }

  lemma {:induction false} PickOther(tag: Section, lines: seq<string>, section: Section, cfg: string)
    requires forall l | l in lines :: BulletCfg(l).Some? && (tag != section || BulletCfg(l) != Some(cfg))
    ensures Pick(Tagged(tag, lines), section, cfg) == []
  {
    hide BulletCfg;
    if lines != [] {
      PickOther(tag, lines[1..], section, cfg);
    }
  }

  lemma {:induction false} TaggedConcat(section: Section, a: seq<string>, b: seq<string>)
    ensures Tagged(section, a + b) == Tagged(section, a) + Tagged(section, b)
  {
    hide TaggedLine;
    if a == [] {
      assert a + b == b;
    } else {
      assert (a + b)[0] == a[0] && (a + b)[1..] == a[1..] + b;
      TaggedConcat(section, a[1..], b);
      var first := TaggedLine(section, a[0]);
      var x, y := Tagged(section, a[1..]), Tagged(section, b);
      assert first + (x + y) == (first + x) + y;
    }
  }

  /** Among the lines of a section, those of one config are its merged bullets. */
  lemma {:induction false} PickLinesFor(src: Sources, section: Section, names: seq<string>, cfg: string)
    requires Good(src)
    requires forall i, j | 0 <= i < j < |names| :: names[i] != names[j]
    ensures Pick(Tagged(section, LinesFor(src, section, names)), section, cfg)
            == if cfg in names then Merged(src, section, cfg) else []
  {
    hide BulletCfg, Merged, Good, Pick, Tagged;
    LinesForAreBullets(src, section, names);
    if names == [] {
      PickTagged(section, [], cfg);
    } else {
      var first, rest := Merged(src, section, names[0]), LinesFor(src, section, names[1..]);
      PickLinesFor(src, section, names[1..], cfg);
      TaggedConcat(section, first, rest);
      PickConcat(Tagged(section, first), Tagged(section, rest), section, cfg);
      MergedAreBullets(src, section, names[0]);
      if cfg == names[0] {
        PickTagged(section, first, cfg);
      } else {
        PickOther(section, first, section, cfg);
      }
    }
  }

  lemma PickSection(src: Sources, tag: Section, section: Section, cfg: string)
    requires Good(src)
    ensures forall l | l in SectionLines(src, tag) :: BulletCfg(l).Some?
    ensures Pick(Tagged(tag, SectionLines(src, tag)), section, cfg)
            == if tag == section then Merged(src, section, cfg) else []
  {
    hide BulletCfg, Merged, Good, Pick, Tagged, LinesFor, Sorted, Cfgs;
    var names := Sorted(Cfgs(src, tag));
    SortedIsSorted(Cfgs(src, tag));
    LinesForAreBullets(src, tag, names);
    if tag == section {
      PickLinesFor(src, section, names, cfg);
      CfgsAreMerged(src, section, cfg);
    } else {
      PickOther(tag, SectionLines(src, tag), section, cfg);
    }
  }

  // ---------------------------------------------------------- fixed lines

  predicate Printable(s: string) {
    forall i | 0 <= i < |s| :: ' ' <= s[i] <= '~'
  }

  lemma PrintableOneLine(s: string)
    requires Printable(s)
    ensures OneLine(s)
  {
    forall i | 0 <= i < |s|
      ensures !IsBreak(s[i])
    {
      PrintableKind(s[i]);
    }
  }

  lemma PrintableKind(c: char)
    requires ' ' <= c <= '~'
    ensures !IsBreak(c) && (c != ' ' ==> !IsSpace(c))
  {
  }

  lemma DashKind()
    ensures !IsBreak('—') && !IsBreak(' ')
  {
  }

  lemma OneLineConcat(a: string, b: string)
    requires OneLine(a) && OneLine(b)
    ensures OneLine(a + b)
  {
    hide IsBreak;
  }

  lemma GenuineTitle()
    ensures var t := GENUINE + " (interop bugs)"; OneLine(t) && t[0] == 'G' && t[|t| - 1] == ')'
  {
    hide IsBreak;
    PrintableOneLine(GENUINE);
    PrintableOneLine(" (interop bugs)");
  }

  lemma TailsOneLine()
    ensures OneLine(DASHED) && OneLine(LIMITATION) && OneLine(EXPECTED)
  {
    hide IsBreak;
    DashKind();
    PrintableOneLine(LIMITATION);
    PrintableOneLine(EXPECTED);
  }

  lemma PairTitle(c: Col, tail: string)
    requires OneLine(tail) && tail != "" && tail[|tail| - 1] == ')'
    ensures var t := Title(c) + DASHED + tail; OneLine(t) && t[0] == 'O' && t[|t| - 1] == ')'
  {
    hide IsBreak, Title;
    TitleEnds(c);
    TailsOneLine();
    OneLineConcat(Title(c), DASHED);
    OneLineConcat(Title(c) + DASHED, tail);
  }

  lemma TitleParts(section: Section)
    requires Known(section)
    ensures IsTrimmed(Stars, HeadingTitle(section)) && IsTrimmed(Spaces, HeadingTitle(section))
    ensures OneLine(HeadingTitle(section)) && HeadingTitle(section) != ""
  {
    hide OneLine, IsSpace, Title;
    TailsOneLine();
    match section {
      case Genuine => GenuineTitle();
      case NonConf(c) => PairTitle(c.value, LIMITATION);
      case Unsup(c) => PairTitle(c.value, EXPECTED);
    }
    PrintableKind('G');
    PrintableKind('O');
    PrintableKind(')');
  }

  lemma TitleEnds(c: Col)
    ensures Title(c) != "" && Title(c)[0] == 'O' && OneLine(Title(c)) && '—' !in Title(c)
    ensures ColOf(Title(c)) == Some(c)
  {
    match c {
      case SelfPair =>
      case MlsRs =>
      case MlsPp =>
    }
  }

  lemma {:induction false} UntilDash(p: string, rest: string)
    requires '—' !in p
    ensures Until(p + DASHED + rest, DASHED) == p
  {
    var s := p + DASHED + rest;
    if p == "" {
      assert s == DASHED + rest;
    } else {
      assert s[1..] == p[1..] + DASHED + rest;
      assert s[1] != '—' && DASHED[1] == '—';
      UntilDash(p[1..], rest);
      assert [p[0]] + p[1..] == p;
    }
  }

  lemma TitleReads(section: Section)
    requires Known(section)
    ensures var title := HeadingTitle(section);
            && (GENUINE <= title <==> section.Genuine?)
            && (EndsWith(title, "— " + LIMITATION) <==> section.NonConf?)
            && (section.Unsup? ==> EndsWith(title, "— " + EXPECTED))
            && (!section.Genuine? ==> ColOf(Until(title, DASHED)) == section.col)
  {
    hide Until, ColOf, Title;
    var title := HeadingTitle(section);
    assert DASHED == " " + "— ";
    match section {
      case Genuine =>
        assert title[|title| - 2] != LIMITATION[|LIMITATION| - 2];
      case NonConf(c) =>
        TitleEnds(c.value);
        UntilDash(Title(c.value), LIMITATION);
        assert title == Title(c.value) + " " + ("— " + LIMITATION);
      case Unsup(c) =>
        TitleEnds(c.value);
        UntilDash(Title(c.value), EXPECTED);
        assert title == Title(c.value) + " " + ("— " + EXPECTED);
        assert title[|title| - 5] != LIMITATION[|LIMITATION| - 5];
    }
  }

  /** A heading that was written opens its own section. */
  lemma HeadingReads(section: Section, cur: Option<Section>, note: Option<string>)
    requires Known(section)
    ensures SectionAfter(cur, Heading(section)) == Some(section)
    ensures FiledLine(cur, Heading(section)) == [] && NoteAfter(note, Heading(section)) == note
    ensures OneLine(Heading(section)) && TrimRight(Spaces, Heading(section)) != ""
  {
    hide Strip, Until, ColOf, HeadingTitle, EndsWith, BulletCfg, IsBreak, IsSpace, TrimRight;
    var h, title := Heading(section), HeadingTitle(section);
    TitleParts(section);
    StarKinds();
    StripSame(h);
    StripPadded(Stars, "**", title, "**");
    StripSame(title);
    TitleReads(section);
    assert EndsWith(h, "**") by { EndIs("**" + title, "**"); }
    TrimRightPadding(Spaces, h, "");
    assert h + "" == h;
  }

  lemma EndIs(p: string, end: string)
    ensures EndsWith(p + end, end)
  {
  }

  lemma StarKinds()
    ensures !IsSpace('*') && !IsBreak('*')
  {
  }

  /** Blank lines and the line that stands for no bullets change nothing. */
  lemma BlankLine(line: string, cur: Option<Section>, note: Option<string>)
    requires Strip(Spaces, line) == ""
    ensures SectionAfter(cur, line) == cur && FiledLine(cur, line) == [] && NoteAfter(note, line) == note
  {
    hide Strip, SectionOf, Quoted;
  }

  lemma NoneLine(cur: Option<Section>, note: Option<string>)
    ensures SectionAfter(cur, NONE) == cur && FiledLine(cur, NONE) == [] && NoteAfter(note, NONE) == note
    ensures OneLine(NONE)
  {
    hide Strip, SectionOf, Quoted, IsSpace, IsBreak;
    PrintableKind('_');
    StripSame(NONE);
    assert NONE[0] == '_' && NONE[3] == ' ' && NOTE[3] == 't';
    PrintableOneLine(NONE);
  }

  // ------------------------------------------------------- reading the blocks

  ghost function TaggedBlocks(src: Sources, sections: seq<Section>): seq<Bullet> {
    if sections == [] then []
    else Tagged(sections[0], SectionLines(src, sections[0])) + TaggedBlocks(src, sections[1..])
  }

  lemma EmptyBlock(cur: Option<Section>, note: Option<string>)
    ensures Filed(cur, Block(Genuine, [])) == [] && NoteAt(note, Block(Genuine, [])) == note
  {
    hide FiledLine, SectionAfter, NoteAfter, Heading, Strip;
    var h := Heading(Genuine);
    HeadingReads(Genuine, cur, note);
    StripSame("");
    BlankLine("", Some(Genuine), note);
    NoneLine(Some(Genuine), note);
    var lines := [h, "", NONE, ""];
    assert lines[1..] == ["", NONE, ""] && lines[1..][1..] == [NONE, ""] && [NONE, ""][1..] == [""];
    assert Filed(Some(Genuine), [""]) == [];
    assert Filed(Some(Genuine), [NONE, ""]) == [];
    assert Filed(Some(Genuine), ["", NONE, ""]) == [];
    assert NoteAt(note, [NONE, ""]) == note;
    assert NoteAt(note, ["", NONE, ""]) == note;
  }

  lemma FullBlock(section: Section, lines: seq<string>, cur: Option<Section>, note: Option<string>)
    requires Known(section) && lines != [] && forall l | l in lines :: BulletCfg(l).Some?
    ensures Filed(cur, Block(section, lines)) == Tagged(section, lines)
    ensures NoteAt(note, Block(section, lines)) == note
  {
    hide FiledLine, SectionAfter, NoteAfter, Heading, Strip, BulletCfg, Tagged;
    var top := [Heading(section), ""];
    TopReads(section, cur);
    HeadingReads(section, cur, note);
    StripSame("");
    BlankLine("", Some(section), note);
    assert top[1..] == [""];
    assert Filed(Some(section), [""]) == [];
    assert NoteAt(note, [""]) == note && NoteAt(note, top) == note;
    BulletLinesRead(section, lines, note);
    FiledConcat(cur, top, lines);
    FiledConcat(cur, top + lines, [""]);
    NoteConcat(note, top, lines);
    NoteConcat(note, top + lines, [""]);
  }

  lemma {:induction false} BlocksRead(src: Sources, sections: seq<Section>, cur: Option<Section>, note: Option<string>)
    requires Good(src) && forall section | section in sections :: Known(section)
    ensures Filed(cur, Blocks(src, sections)) == TaggedBlocks(src, sections)
    ensures NoteAt(note, Blocks(src, sections)) == note
    decreases |sections|
  {
    hide BulletCfg, Tagged, SectionLines, Good, Block, Known;
    if sections != [] {
      var section := sections[0];
      var lines := SectionLines(src, section);
      var block, rest := Block(section, lines), Blocks(src, sections[1..]);
      FiledConcat(cur, block, rest);
      NoteConcat(note, block, rest);
      BlocksRead(src, sections[1..], SectionAt(cur, block), note);
      if lines == [] {
        EmptyBlock(cur, note);
        NoLines(section);
      } else {
        PickSection(src, section, section, "");
        FullBlock(section, lines, cur, note);
      }
    }
  }

  lemma NoLines(section: Section)
    requires Known(section)
    ensures section != Genuine ==> Block(section, []) == []
    ensures Tagged(section, []) == []
  {
  }

  lemma {:induction false} PickBlocks(src: Sources, sections: seq<Section>, section: Section, cfg: string)
    requires Good(src) && forall i, j | 0 <= i < j < |sections| :: sections[i] != sections[j]
    ensures Pick(TaggedBlocks(src, sections), section, cfg)
            == if section in sections then Merged(src, section, cfg) else []
    decreases |sections|
  {
    hide Tagged, SectionLines, Good, Merged;
    if sections != [] {
      PickBlocks(src, sections[1..], section, cfg);
      PickSection(src, sections[0], section, cfg);
      PickConcat(Tagged(sections[0], SectionLines(src, sections[0])), TaggedBlocks(src, sections[1..]), section, cfg);
    }
  }

  lemma OrderHas(section: Section)
    ensures section in Order() <==> Known(section)
    ensures forall i, j | 0 <= i < j < |Order()| :: Order()[i] != Order()[j]
  {
    var o := Order();
    assert o[0] == Genuine && o[1] == NonConf(Some(SelfPair)) && o[2] == Unsup(Some(SelfPair));
    assert o[3] == NonConf(Some(MlsRs)) && o[4] == Unsup(Some(MlsRs));
    assert o[5] == NonConf(Some(MlsPp)) && o[6] == Unsup(Some(MlsPp));
    if Known(section) && !section.Genuine? {
      match section.col.value {
        case SelfPair =>
        case MlsRs =>
        case MlsPp =>
      }
    }
  }

  lemma NoteLine(items: seq<Item>, cur: Option<Section>, note: Option<string>)
    requires items != []
    ensures var line := RenderNote(items).value;
            && FiledLine(cur, line) == []
            && NoteAfter(note, line) == Some(line)
  {
    hide Strip, Quoted, SectionOf, JoinOn, IsSpace;
    var line := RenderNote(items).value;
    assert line[0] == '_' && line[|line| - 1] == '_';
    PrintableKind('_');
    StripSame(line);
    assert NOTE == "_" + HEAD;
    assert NOTE <= line && "**"[0] != '_';
    assert !IsHeading(line);
  }

  // ------------------------------------------------ the strip at the very end

  function TrimBullets(bullets: seq<Bullet>): seq<Bullet> {
    if bullets == [] then []
    else [bullets[0].(line := TrimLine(bullets[0].line))] + TrimBullets(bullets[1..])
  }

  lemma {:induction false} PickTrimmed(bullets: seq<Bullet>, section: Section, cfg: string)
    ensures Pick(TrimBullets(bullets), section, cfg) == TrimLines(Pick(bullets, section, cfg))
  {
    hide TrimLine;
    if bullets != [] {
      PickTrimmed(bullets[1..], section, cfg);
    }
  }

  lemma {:induction false} TrimBulletsConcat(a: seq<Bullet>, b: seq<Bullet>)
    ensures TrimBullets(a + b) == TrimBullets(a) + TrimBullets(b)
  {
    hide TrimLine;
    if a == [] {
      assert a + b == b;
    } else {
      assert (a + b)[0] == a[0] && (a + b)[1..] == a[1..] + b;
      TrimBulletsConcat(a[1..], b);
    }
  }

  lemma TrimmedLineSame(line: string, cur: Option<Section>, note: Option<string>)
    ensures SectionAfter(cur, TrimLine(line)) == SectionAfter(cur, line)
    ensures NoteAfter(note, TrimLine(line)) == NoteAfter(note, line)
    ensures FiledLine(cur, TrimLine(line)) == TrimBullets(FiledLine(cur, line))
  {
    hide Strip, TrimLine, SectionOf, Quoted, Until;
    StripTrimmed(line);
    if FiledLine(cur, line) != [] {
      assert TrimBullets([]) == [];
    }
  }

  lemma {:induction false} FiledTrimmed(cur: Option<Section>, lines: seq<string>)
    ensures Filed(cur, TrimLines(lines)) == TrimBullets(Filed(cur, lines))
    decreases lines
  {
    hide FiledLine, SectionAfter, TrimLine;
    if lines != [] {
      TrimmedLineSame(lines[0], cur, None);
      FiledTrimmed(SectionAfter(cur, lines[0]), lines[1..]);
      TrimBulletsConcat(FiledLine(cur, lines[0]), Filed(SectionAfter(cur, lines[0]), lines[1..]));
      assert TrimLines(lines)[1..] == TrimLines(lines[1..]);
    }
  }

  lemma {:induction false} ChopSame(cur: Option<Section>, note: Option<string>, lines: seq<string>)
    ensures Filed(cur, TrimLines(Chop(lines))) == Filed(cur, TrimLines(lines))
    ensures NoteAt(note, Chop(lines)) == NoteAt(note, lines)
  {
    hide FiledLine, SectionAfter, NoteAfter, TrimLine, Strip;
    if lines != [] {
      var n := |lines| - 1;
      var last := TrimLine(lines[n]);
      assert lines == lines[..n] + [lines[n]];
      assert TrimLines(lines) == TrimLines(lines[..n]) + [last];
      NoteConcat(note, lines[..n], [lines[n]]);
      StripTrimmed(lines[n]);
      if last == "" {
        ChopSame(cur, note, lines[..n]);
        FiledConcat(cur, TrimLines(lines[..n]), [last]);
        BlankLine(last, SectionAt(cur, TrimLines(lines[..n])), None);
        BlankLine(lines[n], None, NoteAt(note, lines[..n]));
      } else {
        TrimTwice(lines[n]);
        assert TrimLines(Chop(lines)) == TrimLines(lines);
        NoteConcat(note, lines[..n], [last]);
        TrimmedLineSame(lines[n], None, NoteAt(note, lines[..n]));
      }
    }
  }

  // -------------------------------------------------- the merge as a whole

  lemma {:induction false} BlocksOneLine(src: Sources, sections: seq<Section>)
    requires Good(src) && forall section | section in sections :: Known(section)
    ensures forall l | l in Blocks(src, sections) :: OneLine(l)
    decreases |sections|
  {
    hide Good, Heading, OneLine, Known, LinesFor, Sorted, Cfgs, SectionAfter, FiledLine, NoteAfter, Strip;
    if sections != [] {
      var section := sections[0];
      BlocksOneLine(src, sections[1..]);
      HeadingReads(section, None, None);
      NoneLine(None, None);
      assert OneLine("") by { EmptyOneLine(); }
      LinesForAreBullets(src, section, Sorted(Cfgs(src, section)));
    }
  }

  lemma EmptyOneLine()
    ensures OneLine("")
  {
  }

  lemma SourcesGood(existing: string, latest: string, run: set<string>)
    ensures Good(SourcesOf(existing, latest, run))
  {
    hide Filed, BulletFor, Lines;
    FiledAreBullets(None, Lines(existing));
    FiledAreBullets(None, Lines(latest));
  }

  lemma {:induction false} NotesOneLine(note: Option<string>, lines: seq<string>)
    requires note.Some? ==> OneLine(note.value)
    requires forall i | 0 <= i < |lines| :: OneLine(lines[i])
    ensures NoteAt(note, lines).Some? ==> OneLine(NoteAt(note, lines).value)
    decreases lines
  {
    hide OneLine, Strip, IsHeading, IsNote;
    if lines != [] {
      StripOneLine(lines[0]);
      NotesOneLine(NoteAfter(note, lines[0]), lines[1..]);
    }
  }

  lemma MergedNoteOneLine(existing: string, latest: string, run: set<string>)
    ensures var note := MergedNote(existing, latest, run); note.Some? ==> OneLine(note.value)
  {
    hide OneLine, Lines, NoteAt, ParseNote, RenderNote, Others, Text;
    var a, b := NoteAt(None, Lines(existing)), NoteAt(None, Lines(latest));
    NotesOneLine(None, Lines(existing));
    NotesOneLine(None, Lines(latest));
    ParsedNoteOneLine(a);
    ParsedNoteOneLine(b);
    OthersAreItems(ParseNote(a), run);
    var items := MergedItems(a, b, run);
    if items != [] {
      RenderedOneLine(items);
    } else {
      NoNote();
    }
  }

  lemma NoNote()
    ensures RenderNote([]) == None
  {
  }

  /** Read as lines, the merged text is the merged lines, chopped. */
  lemma MergeTextLines(existing: string, latest: string, run: set<string>)
    ensures Lines(MergeText(existing, latest, run))
            == Chop(MergedLines(SourcesOf(existing, latest, run), MergedNote(existing, latest, run)))
  {
    hide SourcesOf, MergedNote, OneLine, Lines, Join, Heading, Chop, Order, SectionLines, Good, TrimRight,
         SectionAfter, FiledLine, NoteAfter;
    var src, note := SourcesOf(existing, latest, run), MergedNote(existing, latest, run);
    var lines := MergedLines(src, note);
    SourcesGood(existing, latest, run);
    BlocksOneLine(src, Order());
    MergedNoteOneLine(existing, latest, run);
    assert lines[0] == Heading(Genuine);
    HeadingReads(Genuine, None, None);
    forall i | 0 <= i < |lines|
      ensures OneLine(lines[i])
    {
      assert i < |Blocks(src, Order())| ==> lines[i] in Blocks(src, Order());
    }
    LinesTrimmed(lines);
  }

  lemma MergedLinesRead(src: Sources, items: seq<Item>, section: Section, cfg: string)
    requires Good(src)
    ensures Pick(Filed(None, MergedLines(src, RenderNote(items))), section, cfg)
            == if Known(section) then Merged(src, section, cfg) else []
    ensures NoteAt(None, MergedLines(src, RenderNote(items))) == RenderNote(items)
  {
    hide Good, Merged, Pick, Known, FiledLine, SectionAfter, NoteAfter, Blocks, TaggedBlocks, JoinOn, Order;
    var blocks := Blocks(src, Order());
    BlocksRead(src, Order(), None, None);
    PickBlocks(src, Order(), section, cfg) by { OrderHas(section); }
    OrderHas(section);
    if items == [] {
      assert MergedLines(src, None) == blocks;
    } else {
      var line := RenderNote(items).value;
      FiledConcat(None, blocks, [line]);
      NoteConcat(None, blocks, [line]);
      NoteLine(items, SectionAt(None, blocks), None);
      assert [line][1..] == [];
      assert Filed(SectionAt(None, blocks), [line]) == [] && NoteAt(None, [line]) == Some(line);
      assert Filed(None, blocks) + [] == Filed(None, blocks);
    }
  }

  /** The bullets the README holds for a config after the merge, for any two
      texts: the latest ones when there are any or the config was run, else the
      old ones. White space at the end of a bullet is not counted; bullets under
      a pairing with an unknown title are dropped. */
  lemma MergeReads(existing: string, latest: string, run: set<string>, section: Section, cfg: string)
    ensures var got := Pick(Filed(None, Lines(MergeText(existing, latest, run))), section, cfg);
            var fresher := Pick(Filed(None, Lines(latest)), section, cfg);
            var prior := Pick(Filed(None, Lines(existing)), section, cfg);
            TrimLines(got) ==
              if !Known(section) then []
              else if fresher != [] || cfg in run then TrimLines(fresher)
              else TrimLines(prior)
  {
    hide MergeText, MergedLines, RenderNote, Filed, Pick, Lines, Known, MergedItems, Good, Chop, TrimLine, NoteAt;
    var src := SourcesOf(existing, latest, run);
    var items := MergedItems(NoteAt(None, Lines(existing)), NoteAt(None, Lines(latest)), run);
    var lines := MergedLines(src, RenderNote(items));
    SourcesGood(existing, latest, run);
    MergeTextLines(existing, latest, run);
    MergedLinesRead(src, items, section, cfg);
    PickTrimmed(Filed(None, Chop(lines)), section, cfg);
    FiledTrimmed(None, Chop(lines));
    ChopSame(None, None, lines);
    FiledTrimmed(None, lines);
    PickTrimmed(Filed(None, lines), section, cfg);
  }

  /** The note read from the merged text: the old items of configs that were not
      run, then the latest items. */
  lemma MergeReadsNote(existing: string, latest: string, run: set<string>)
    ensures ParseNote(NoteAt(None, Lines(MergeText(existing, latest, run))))
            == Others(ParseNote(NoteAt(None, Lines(existing))), run) + ParseNote(NoteAt(None, Lines(latest)))
  {
    hide MergeText, MergedLines, RenderNote, Filed, Lines, Good, Chop, TrimLine, NoteAt, ParseNote, Others;
    var src := SourcesOf(existing, latest, run);
    var a, b := NoteAt(None, Lines(existing)), NoteAt(None, Lines(latest));
    SourcesGood(existing, latest, run);
    MergeTextLines(existing, latest, run);
    MergedLinesRead(src, MergedItems(a, b, run), Genuine, "");
    ChopSame(None, None, MergedLines(src, RenderNote(MergedItems(a, b, run))));
    MergedNoteReads(a, b, run);
  }

  // -------------------------------------------------- when bullets are kept exactly

  /** Every merged bullet, in the order it is written. */
  ghost function AllMerged(src: Sources): seq<Bullet> {
    TaggedBlocks(src, Order())
  }

  /** Lines that end in a bullet of an open section and a blank line. */
  ghost predicate EndsInBullet(cur: Option<Section>, lines: seq<string>, bullets: seq<Bullet>) {
    && |lines| >= 2 && bullets != []
    && lines[|lines| - 1] == ""
    && var pre, l := lines[..|lines| - 2], lines[|lines| - 2];
      && SectionAt(cur, pre).Some?
      && BulletCfg(l).Some?
      && bullets == Filed(cur, pre) + [Bullet(SectionAt(cur, pre).value, BulletCfg(l).value, l)]
  }

  lemma TopReads(section: Section, cur: Option<Section>)
    requires Known(section)
    ensures Filed(cur, [Heading(section), ""]) == [] && SectionAt(cur, [Heading(section), ""]) == Some(section)
  {
    hide FiledLine, SectionAfter, NoteAfter, Heading, Strip;
    HeadingReads(section, cur, None);
    StripSame("");
    BlankLine("", Some(section), None);
    var top := [Heading(section), ""];
    assert top[1..] == [""];
    assert Filed(Some(section), [""]) == [] && SectionAt(Some(section), [""]) == Some(section);
  }

  lemma LastBullet(section: Section, lines: seq<string>)
    requires lines != [] && forall l | l in lines :: BulletCfg(l).Some?
    ensures var n := |lines| - 1;
            && SectionAt(Some(section), lines[..n]) == Some(section)
            && Tagged(section, lines)
               == Filed(Some(section), lines[..n]) + [Bullet(section, BulletCfg(lines[n]).value, lines[n])]
  {
    hide FiledLine, SectionAfter, NoteAfter, BulletCfg, Tagged, Filed, SectionAt;
    var n := |lines| - 1;
    BulletLinesRead(section, lines, None);
    BulletLinesRead(section, lines[..n], None);
    BulletLine(lines[n], Some(section), None);
    assert lines == lines[..n] + [lines[n]];
    FiledConcat(Some(section), lines[..n], [lines[n]]);
    FiledOne(Some(section), lines[n]);
  }

  lemma FiledOne(cur: Option<Section>, line: string)
    ensures Filed(cur, [line]) == FiledLine(cur, line)
  {
    hide FiledLine, SectionAfter;
    assert [line][1..] == [];
    assert Filed(SectionAfter(cur, line), []) == [];
  }

  lemma FullBlockEnds(section: Section, lines: seq<string>, cur: Option<Section>)
    requires Known(section) && lines != [] && forall l | l in lines :: BulletCfg(l).Some?
    ensures EndsInBullet(cur, Block(section, lines), Tagged(section, lines))
  {
    hide Filed, SectionAt, Heading, BulletCfg, Tagged, Known;
    var n := |lines| - 1;
    var top := [Heading(section), ""];
    TopReads(section, cur);
    LastBullet(section, lines);
    FiledConcat(cur, top, lines[..n]);
    var block := Block(section, lines);
    assert block == top + lines + [""];
    assert block[..|block| - 2] == top + lines[..n] && block[|block| - 2] == lines[n];
    assert [] + Filed(Some(section), lines[..n]) == Filed(Some(section), lines[..n]);
  }

  lemma EndsAfter(cur: Option<Section>, block: seq<string>, after: seq<string>, bullets: seq<Bullet>)
    requires EndsInBullet(SectionAt(cur, block), after, bullets)
    ensures EndsInBullet(cur, block + after, Filed(cur, block) + bullets)
  {
    hide Filed, SectionAt, BulletCfg;
    var pre := after[..|after| - 2];
    FiledConcat(cur, block, pre);
    var lines := block + after;
    assert lines[..|lines| - 2] == block + pre && lines[|lines| - 2] == after[|after| - 2];
  }

  lemma TaggedAll(section: Section, lines: seq<string>)
    requires Tagged(section, lines) == [] && forall l | l in lines :: BulletCfg(l).Some?
    ensures lines == []
  {
    hide BulletCfg;
  }

  lemma {:induction false} NothingWritten(src: Sources, sections: seq<Section>)
    requires Good(src) && forall section | section in sections :: Known(section) && section != Genuine
    requires TaggedBlocks(src, sections) == []
    ensures Blocks(src, sections) == []
    decreases |sections|
  {
    hide Good, SectionLines, BulletCfg, Tagged;
    if sections != [] {
      var lines := SectionLines(src, sections[0]);
      assert Tagged(sections[0], lines) == [];
      PickSection(src, sections[0], sections[0], "");
      TaggedAll(sections[0], lines);
      assert Block(sections[0], lines) == [];
      NothingWritten(src, sections[1..]);
    }
  }

  lemma {:induction false} BlocksEnd(src: Sources, sections: seq<Section>, cur: Option<Section>)
    requires Good(src) && TaggedBlocks(src, sections) != []
    requires forall section | section in sections :: Known(section)
    requires forall i | 1 <= i < |sections| :: sections[i] != Genuine
    ensures EndsInBullet(cur, Blocks(src, sections), TaggedBlocks(src, sections))
    decreases |sections|
  {
    hide Good, SectionLines, BulletCfg, Tagged, Block, Known, EndsInBullet, Filed, SectionAt;
    var section, rest := sections[0], sections[1..];
    var lines := SectionLines(src, section);
    var block := Block(section, lines);
    if TaggedBlocks(src, rest) != [] {
      BlocksEnd(src, rest, SectionAt(cur, block));
      EndsAfter(cur, block, Blocks(src, rest), TaggedBlocks(src, rest));
      BlockRead(src, section, cur);
    } else {
      NothingWritten(src, rest);
      assert block + [] == block && Tagged(section, lines) + [] == Tagged(section, lines);
      PickSection(src, section, section, "");
      assert lines != [] by {
        if lines == [] {
          NoLines(section);
        }
      }
      FullBlockEnds(section, lines, cur);
    }
  }

  lemma BlockRead(src: Sources, section: Section, cur: Option<Section>)
    requires Good(src) && Known(section)
    ensures Filed(cur, Block(section, SectionLines(src, section))) == Tagged(section, SectionLines(src, section))
  {
    hide Good, SectionLines, BulletCfg, Tagged, Block, Known, TaggedBlocks, Blocks;
    if SectionLines(src, section) == [] {
      EmptyBlock(cur, None);
      NoLines(section);
    } else {
      PickSection(src, section, section, "");
      FullBlock(section, SectionLines(src, section), cur, None);
    }
  }

  function TrimLastBullet(bullets: seq<Bullet>): seq<Bullet> {
    if bullets == [] then []
    else
      var n := |bullets| - 1;
      bullets[..n] + [bullets[n].(line := TrimLine(bullets[n].line))]
  }

  lemma ChopToBullet(lines: seq<string>)
    requires |lines| >= 2 && lines[|lines| - 1] == "" && BulletCfg(lines[|lines| - 2]).Some?
    ensures Chop(lines) == lines[..|lines| - 2] + [TrimLine(lines[|lines| - 2])]
  {
    hide TrimLine, Strip, BulletCfg;
    var n := |lines| - 2;
    var l := lines[n];
    assert lines[..n + 1][..n] == lines[..n];
    assert TrimLine("") == "" && TrimLine(l) != "" by {
      StripSame("");
      StripTrimmed("");
      StripTrimmed(l);
      BulletNotBlank(l);
    }
  }

  lemma OneTrimmed(b: Bullet)
    ensures TrimBullets([b]) == [b.(line := TrimLine(b.line))]
  {
    hide TrimLine;
    assert [b][1..] == [];
    assert TrimBullets([]) == [];
  }

  /** Chopping lines that end in a bullet trims that bullet. */
  lemma ChoppedBullet(lines: seq<string>, bullets: seq<Bullet>)
    requires EndsInBullet(None, lines, bullets)
    ensures Filed(None, Chop(lines)) == TrimLastBullet(bullets)
  {
    hide FiledLine, SectionAfter, TrimLine, Strip, BulletCfg, Filed, SectionAt;
    var n := |lines| - 2;
    var pre, l := lines[..n], lines[n];
    var cur := SectionAt(None, pre);
    ChopToBullet(lines);
    FiledConcat(None, pre, [TrimLine(l)]);
    FiledOne(cur, TrimLine(l));
    TrimmedLineSame(l, cur, None);
    BulletLine(l, cur, None);
    OneTrimmed(Bullet(cur.value, BulletCfg(l).value, l));
    assert bullets[..|bullets| - 1] == Filed(None, pre);
  }

  lemma TrimLastSame(bullets: seq<Bullet>)
    requires bullets != []
    ensures TrimLastBullet(bullets) == bullets
            <==> TrimLine(bullets[|bullets| - 1].line) == bullets[|bullets| - 1].line
  {
    hide TrimLine;
    var n := |bullets| - 1;
    assert bullets == bullets[..n] + [bullets[n]];
    assert TrimLastBullet(bullets)[n] == bullets[n].(line := TrimLine(bullets[n].line));
  }

  lemma BulletNotBlank(l: string)
    requires BulletCfg(l).Some?
    ensures Strip(Spaces, l) != ""
  {
    hide Strip, Quoted;
  }

  lemma ChoppedNote(src: Sources, items: seq<Item>)
    requires items != []
    ensures Chop(MergedLines(src, RenderNote(items))) == MergedLines(src, RenderNote(items))
  {
    hide Blocks, Order, JoinOn, IsSpace, TrimRight;
    var line := RenderNote(items).value;
    assert line != "" && line[|line| - 1] == '_';
    PrintableKind('_');
    TrimRightPadding(Spaces, line, "");
    assert line + "" == line;
    var lines := MergedLines(src, RenderNote(items));
    assert lines[..|lines| - 1] + [line] == lines;
  }

  /** Character for character, every merged bullet is in the text, except that
      the closing strip cuts white space off the last one when no note follows. */
  lemma KeptExactly(existing: string, latest: string, run: set<string>)
    ensures var all := AllMerged(SourcesOf(existing, latest, run));
            Filed(None, Lines(MergeText(existing, latest, run))) == all <==>
            MergedNote(existing, latest, run).Some? || all == []
            || TrimLine(all[|all| - 1].line) == all[|all| - 1].line
  {
    hide MergeText, Filed, Lines, MergedItems, Good, Chop, TrimLine, NoteAt, SourcesOf, Blocks, TaggedBlocks, Order,
         Known, JoinOn;
    var src := SourcesOf(existing, latest, run);
    var items := MergedItems(NoteAt(None, Lines(existing)), NoteAt(None, Lines(latest)), run);
    var blocks, all := Blocks(src, Order()), AllMerged(src);
    SourcesGood(existing, latest, run);
    MergeTextLines(existing, latest, run);
    BlocksRead(src, Order(), None, None);
    if items != [] {
      ChoppedNote(src, items);
      AllRead(src, items);
    } else if all == [] {
      assert MergedLines(src, RenderNote(items)) == blocks;
      OnlyNone(src, items);
    } else {
      assert MergedLines(src, RenderNote(items)) == blocks;
      BlocksEnd(src, Order(), None) by { OneGenuine(); }
      ChoppedBullet(blocks, all);
      TrimLastSame(all);
    }
  }

  lemma OneGenuine()
    ensures forall i | 1 <= i < |Order()| :: Order()[i] != Genuine
  {
  }

  lemma AllRead(src: Sources, items: seq<Item>)
    requires Good(src)
    ensures Filed(None, MergedLines(src, RenderNote(items))) == AllMerged(src)
  {
    hide Good, FiledLine, SectionAfter, Blocks, TaggedBlocks, JoinOn, Order, Known;
    var blocks := Blocks(src, Order());
    BlocksRead(src, Order(), None, None);
    if items == [] {
      assert MergedLines(src, None) == blocks;
    } else {
      var line := RenderNote(items).value;
      FiledConcat(None, blocks, [line]);
      NoteLine(items, SectionAt(None, blocks), None);
      assert [line][1..] == [];
      assert Filed(SectionAt(None, blocks), [line]) == [];
    }
  }

  /** Without bullets there is nothing to lose. */
  lemma OnlyNone(src: Sources, items: seq<Item>)
    requires Good(src) && AllMerged(src) == []
    ensures Filed(None, Chop(MergedLines(src, RenderNote(items)))) == []
  {
    hide Good, Filed, Blocks, TaggedBlocks, Chop, MergedLines, RenderNote;
    var lines := MergedLines(src, RenderNote(items));
    AllRead(src, items);
    ChopSame(None, None, lines);
    FiledTrimmed(None, lines);
    FiledTrimmed(None, Chop(lines));
    assert TrimBullets([]) == [];
    assert TrimBullets(Filed(None, Chop(lines))) == [];
  }

  // ------------------------------------------------------ bullets as written

  lemma {:induction false} TickAfter(p: string, rest: string)
    requires '`' !in p
    ensures ToTick(p + "`" + rest) == |p|
  {
    var s := p + "`" + rest;
    if p != "" {
      assert s[0] == p[0] && s[1..] == p[1..] + "`" + rest;
      TickAfter(p[1..], rest);
    }
  }

  lemma QuotedIs(before: string, text: string, rest: string)
    requires '`' !in before && '`' !in text && text != ""
    ensures Quoted(before + "`" + text + "`" + rest) == Some(text)
  {
    hide ToTick;
    var s := before + "`" + text + "`" + rest;
    var tail := text + "`" + rest;
    assert s == before + "`" + tail;
    TickAfter(before, tail);
    TickAfter(text, rest);
    assert s[|before| + 1..] == tail;
    assert s[|before| + 1..|before| + 1 + |text|] == text;
  }

  lemma StripBullet(head: string, rest: string)
    requires head != "" && !IsSpace(head[0]) && !IsSpace(head[|head| - 1])
    ensures Strip(Spaces, head + rest) == head + TrimLine(rest)
  {
    hide IsSpace, Strip;
    var r := TrimLine(rest);
    TrimRightDrops(rest);
    assert head + rest == "" + (head + r) + rest[|r|..] by {
      assert rest == r + rest[|r|..];
    }
    assert IsTrimmed(Spaces, head + r);
    StripPadded(Spaces, "", head + r, rest[|r|..]);
  }

  /** Non-empty text between two neighbouring back-ticks. */
  predicate QuotedAt(s: string, i: nat, j: nat) {
    i + 1 < j < |s| && s[i] == '`' && s[j] == '`' && '`' !in s[i + 1..j]
  }

  lemma NoTickBefore(s: string, n: nat)
    requires n <= |s| && '`' !in s[..n]
    ensures forall k | 0 <= k < n :: s[k] != '`'
  {
    forall k | 0 <= k < n
      ensures s[k] != '`'
    {
      assert s[k] == s[..n][k];
    }
  }

  /** Quoted text past the back-tick at `i` is quoted text of the rest. */
  lemma QuotedShift(s: string, i: nat, k: nat, l: nat)
    requires i < k < l < |s|
    ensures QuotedAt(s[i + 1..], k - i - 1, l - i - 1) <==> QuotedAt(s, k, l)
  {
    assert s[i + 1..][k - i..l - i - 1] == s[k + 1..l];
  }

  /** A back-tick followed by another one opens no quoted text. */
  lemma QuotedPast(s: string, i: nat, k: nat, l: nat)
    requires i + 1 < |s| && '`' !in s[..i] && s[i + 1] == '`' && QuotedAt(s, k, l)
    ensures i < k
  {
    NoTickBefore(s, i);
    assert s[k + 1] == s[k + 1..l][0];
  }

  /** `x` is quoted at `i` and nothing is quoted before. */
  ghost predicate FirstQuoted(s: string, i: nat, j: nat, x: string) {
    QuotedAt(s, i, j) && x == s[i + 1..j] && forall k: nat, l: nat | QuotedAt(s, k, l) :: i <= k
  }

  /** The first such text is found, if there is any. */
  lemma {:induction false} QuotedExactly(s: string)
    ensures Quoted(s).None? <==> forall i: nat, j: nat :: !QuotedAt(s, i, j)
    ensures Quoted(s).Some? ==> exists i: nat, j: nat :: FirstQuoted(s, i, j, Quoted(s).value)
    decreases |s|
  {
    hide ToTick;
    var i := ToTick(s);
    NoTickBefore(s, i);
    if i < |s| {
      var tail := s[i + 1..];
      var j := ToTick(tail);
      NoTickBefore(tail, j);
      if j == |tail| {
        forall l | i < l < |s|
          ensures s[l] != '`'
        {
          assert s[l] == tail[l - i - 1];
        }
      } else if j == 0 {
        QuotedExactly(tail);
        QuotedFurther(s, i, tail);
      } else {
        assert tail[..j] == s[i + 1..i + 1 + j];
        assert FirstQuoted(s, i, i + 1 + j, Quoted(s).value);
      }
    }
  }

  lemma QuotedFurther(s: string, i: nat, tail: string)
    requires i + 1 < |s| && '`' !in s[..i] && s[i + 1] == '`' && tail == s[i + 1..]
    ensures (forall k: nat, l: nat :: !QuotedAt(tail, k, l)) <==> forall k: nat, l: nat :: !QuotedAt(s, k, l)
    ensures forall x, k: nat, l: nat | FirstQuoted(tail, k, l, x) :: exists i: nat, j: nat :: FirstQuoted(s, i, j, x)
  {
    hide QuotedAt, FirstQuoted;
    if k: nat, l: nat :| QuotedAt(tail, k, l) {
      QuotedBounds(tail, k, l);
      QuotedShift(s, i, i + 1 + k, i + 1 + l);
    }
    if k: nat, l: nat :| QuotedAt(s, k, l) {
      QuotedBounds(s, k, l);
      QuotedPast(s, i, k, l);
      QuotedShift(s, i, k, l);
    }
    forall x, k: nat, l: nat | FirstQuoted(tail, k, l, x)
      ensures exists i: nat, j: nat :: FirstQuoted(s, i, j, x)
    {
      FirstShift(s, i, k, l, x);
    }
  }

  lemma QuotedBounds(s: string, k: nat, l: nat)
    requires QuotedAt(s, k, l)
    ensures k + 1 < l < |s|
  {
  }

  lemma FirstShift(s: string, i: nat, p: nat, q: nat, x: string)
    requires i + 1 < |s| && '`' !in s[..i] && s[i + 1] == '`' && FirstQuoted(s[i + 1..], p, q, x)
    ensures FirstQuoted(s, i + 1 + p, i + 1 + q, x)
  {
    hide QuotedAt;
    var tail := s[i + 1..];
    QuotedBounds(tail, p, q);
    QuotedShift(s, i, i + 1 + p, i + 1 + q);
    assert s[i + 1 + p + 1..i + 1 + q] == tail[p + 1..q];
    forall k: nat, l: nat | QuotedAt(s, k, l)
      ensures i + 1 + p <= k
    {
      QuotedBounds(s, k, l);
      QuotedPast(s, i, k, l);
      QuotedShift(s, i, k, l);
    }
  }

  lemma {:induction false} QuotedHasNoTick(s: string)
    ensures Quoted(s).Some? ==> '`' !in Quoted(s).value
    decreases |s|
  {
    hide ToTick;
    var i := ToTick(s);
    if i < |s| {
      var j := ToTick(s[i + 1..]);
      assert s[i + 1..][..j] == s[i + 1..i + 1 + j];
      QuotedHasNoTick(s[i + 1..]);
    }
  }

  lemma CfgHasNoTick(line: string)
    ensures BulletCfg(line).Some? ==> '`' !in BulletCfg(line).value
  {
    hide Quoted, Strip, Until;
    var s := Strip(Spaces, line);
    QuotedHasNoTick(s);
    if BulletCfg(line).Some? {
      var u := Until(Quoted(s).value, " / ");
      assert forall c | c in u :: c in Quoted(s).value;
    }
  }

  lemma PlainBullet(mark: string, name: string, script: string, rest: string)
    requires '`' !in mark && '`' !in name && '`' !in script
    ensures BulletCfg("- " + mark + "`" + name + " / " + script + "`" + rest) == Some(name)
            <==> IsTrimmed(Spaces, name) && Apart(name, " / ")
  {
    hide Quoted, Strip, Until, Occurs, IsSpace, Apart, TrimLine;
    var text := name + " / " + script;
    var head := "- " + mark + "`" + text + "`";
    assert "- " + mark + "`" + name + " / " + script + "`" + rest == head + rest;
    PrintableKind('-');
    PrintableKind('`');
    StripBullet(head, rest);
    var s := head + TrimLine(rest);
    assert s == ("- " + mark) + "`" + text + "`" + TrimLine(rest);
    QuotedIs("- " + mark, text, TrimLine(rest));
    assert "- " <= s;
    StripShrinks(Until(text, " / "));
    if Apart(name, " / ") {
      UntilApart(name, " / ", script);
      if IsTrimmed(Spaces, name) {
        StripSame(name);
      }
    } else {
      UntilShorter(name, " / ", script);
    }
  }

  /** A bullet that names a config and a script is filed under that config for
      exactly the names without a back-tick, without outer white space and without
      an earlier slash between spaces, whatever the script is called. */
  lemma BulletNamesConfig(mark: string, name: string, script: string, rest: string)
    requires '`' !in mark
    ensures BulletCfg("- " + mark + "`" + name + " / " + script + "`" + rest) == Some(name)
            <==> '`' !in name && IsTrimmed(Spaces, name) && Apart(name, " / ")
  {
    hide BulletCfg, Apart, IsTrimmed, ToTick;
    CfgHasNoTick("- " + mark + "`" + name + " / " + script + "`" + rest);
    if '`' !in name {
      var i := ToTick(script);
      if i == |script| {
        assert script[..i] == script;
        PlainBullet(mark, name, script, rest);
      } else {
        var more := script[i + 1..] + "`" + rest;
        assert script == script[..i] + "`" + script[i + 1..];
        assert "- " + mark + "`" + name + " / " + script + "`" + rest
            == "- " + mark + "`" + name + " / " + script[..i] + "`" + more;
        PlainBullet(mark, name, script[..i], more);
      }
    }
  }

  lemma StripShrinks(s: string)
    ensures |Strip(Spaces, s)| <= |s|
  {
    hide TrimLeft, TrimRight;
  }
}
