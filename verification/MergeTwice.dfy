/** Merging the same failures block a second time. */
module MergeTwice {
  import opened Wrappers
  import opened TextLines
  import opened TrimmedLines
  import opened Substrings
  import opened NotCompleted
  import opened SortedNames
  import opened FailureBlocks

  // ------------------------------------------- what the first merge leaves

  function TrimLastLine(lines: seq<string>): seq<string> {
    if lines == [] then [] else lines[..|lines| - 1] + [TrimLine(lines[|lines| - 1])]
  }

  /** The bullets read from a merged block: all of them, or all with white space
      cut off the last. */
  lemma MergedBulletsRead(existing: string, latest: string, run: set<string>)
    ensures var all := AllMerged(SourcesOf(existing, latest, run));
            var got := Filed(None, Lines(MergeText(existing, latest, run)));
            got == all || (MergedNote(existing, latest, run).None? && got == TrimLastBullet(all))
  {
    hide MergeText, Filed, Lines, MergedItems, Good, Chop, TrimLine, NoteAt, SourcesOf, Blocks, TaggedBlocks, Order,
         Known, TrimLastBullet;
    var src := SourcesOf(existing, latest, run);
    var items := MergedItems(NoteAt(None, Lines(existing)), NoteAt(None, Lines(latest)), run);
    KeptExactly(existing, latest, run);
    if items == [] && AllMerged(src) != [] {
      SourcesGood(existing, latest, run);
      MergeTextLines(existing, latest, run);
      NoNote();
      assert MergedLines(src, RenderNote(items)) == Blocks(src, Order());
      BlocksEnd(src, Order(), None) by { OneGenuine(); }
      ChoppedBullet(Blocks(src, Order()), AllMerged(src));
    }
  }

  // ------------------------------------------------ what the second one finds

  predicate IsLast(bullets: seq<Bullet>, section: Section, cfg: string) {
    bullets != [] && bullets[|bullets| - 1].section == section && bullets[|bullets| - 1].cfg == cfg
  }

  lemma PickTrimmedLast(bullets: seq<Bullet>, section: Section, cfg: string)
    ensures Pick(TrimLastBullet(bullets), section, cfg) ==
            if IsLast(bullets, section, cfg) then TrimLastLine(Pick(bullets, section, cfg))
            else Pick(bullets, section, cfg)
  {
    hide TrimLine, Pick;
    if bullets != [] {
      var n := |bullets| - 1;
      var b := bullets[n];
      var b' := b.(line := TrimLine(b.line));
      assert bullets == bullets[..n] + [b];
      PickConcat(bullets[..n], [b], section, cfg);
      PickConcat(bullets[..n], [b'], section, cfg);
      PickOne(b, section, cfg);
      PickOne(b', section, cfg);
    }
  }

  /** Two merges with the same bullets, but for white space at the end of the
      very last one of the first. */
  ghost predicate Alike(a: Sources, b: Sources) {
    forall section, cfg | Known(section) ::
      || Merged(b, section, cfg) == Merged(a, section, cfg)
      || (IsLast(AllMerged(a), section, cfg) && Merged(b, section, cfg) == TrimLastLine(Merged(a, section, cfg)))
  }

  lemma SecondMergeAlike(existing: string, latest: string, run: set<string>)
    ensures var a := SourcesOf(existing, latest, run);
            var b := SourcesOf(MergeText(existing, latest, run), latest, run);
            && Alike(a, b)
            && (MergedNote(existing, latest, run).Some? ==>
                  forall section, cfg | Known(section) :: Merged(b, section, cfg) == Merged(a, section, cfg))
  {
    hide MergeText, Filed, Lines, Pick, Known, Order, TaggedBlocks, TrimLastBullet, TrimLastLine, IsLast, Good,
         MergedNote;
    var a := SourcesOf(existing, latest, run);
    var b := SourcesOf(MergeText(existing, latest, run), latest, run);
    SourcesGood(existing, latest, run);
    MergedBulletsRead(existing, latest, run);
    forall section, cfg | Known(section)
      ensures || Merged(b, section, cfg) == Merged(a, section, cfg)
              || (&& MergedNote(existing, latest, run).None? && IsLast(AllMerged(a), section, cfg)
                  && Merged(b, section, cfg) == TrimLastLine(Merged(a, section, cfg)))
    {
      PickAllMerged(a, section, cfg);
      PickTrimmedLast(AllMerged(a), section, cfg);
    }
  }

  lemma PickAllMerged(src: Sources, section: Section, cfg: string)
    requires Good(src) && Known(section)
    ensures Pick(AllMerged(src), section, cfg) == Merged(src, section, cfg)
  {
    hide Good, Pick, Merged, Known, Order, TaggedBlocks;
    OrderHas(section);
    PickBlocks(src, Order(), section, cfg);
  }

  // -------------------------------------------- the same lines, but for the last

  ghost predicate Near(a: seq<string>, b: seq<string>) {
    || a == b
    || (&& |a| == |b| > 0 && a[..|a| - 1] == b[..|b| - 1]
        && TrimLine(a[|a| - 1]) == TrimLine(b[|b| - 1]))
  }

  lemma TrimLastNear(lines: seq<string>)
    ensures Near(TrimLastLine(lines), lines)
  {
    hide TrimLine;
    if lines != [] {
      TrimTwice(lines[|lines| - 1]);
    }
  }

  lemma NearAfter(x: seq<string>, a: seq<string>, b: seq<string>)
    requires Near(a, b)
    ensures Near(x + a, x + b)
  {
    hide TrimLine;
    if a != b {
      assert (x + a)[..|x + a| - 1] == x + a[..|a| - 1];
      assert (x + b)[..|x + b| - 1] == x + b[..|b| - 1];
    }
  }

  lemma SameCfgs(a: Sources, b: Sources, section: Section)
    requires Alike(a, b) && Known(section)
    ensures Cfgs(b, section) == Cfgs(a, section)
  {
    hide Merged, Cfgs, Known, TrimLine, IsLast;
    forall cfg
      ensures cfg in Cfgs(b, section) <==> cfg in Cfgs(a, section)
    {
      CfgsAreMerged(a, section, cfg);
      CfgsAreMerged(b, section, cfg);
    }
  }

  predicate Distinct(names: seq<string>) {
    forall i, j | 0 <= i < j < |names| :: names[i] != names[j]
  }

  /** The lines of a section agree if the last bullet is not among them, and are
      near if it belongs to the last config. */
  lemma {:induction false} LinesNear(a: Sources, b: Sources, section: Section, names: seq<string>)
    requires Alike(a, b) && Known(section) && Distinct(names)
    requires forall i | 0 <= i < |names| - 1 :: !IsLast(AllMerged(a), section, names[i])
    ensures Near(LinesFor(b, section, names), LinesFor(a, section, names))
    ensures (forall i | 0 <= i < |names| :: !IsLast(AllMerged(a), section, names[i])) ==>
              LinesFor(b, section, names) == LinesFor(a, section, names)
  {
    hide Merged, Known, IsLast, AllMerged, TrimLastLine, Near;
    if names == [] {
      assert Near(LinesFor(b, section, []), LinesFor(a, section, [])) by { NearSame([]); }
    } else {
      var x, y := Merged(a, section, names[0]), Merged(b, section, names[0]);
      var more, more' := LinesFor(a, section, names[1..]), LinesFor(b, section, names[1..]);
      LinesNear(a, b, section, names[1..]);
      assert y == x || (IsLast(AllMerged(a), section, names[0]) && y == TrimLastLine(x));
      if |names| == 1 {
        assert more == [] && more' == [] && x + [] == x && y + [] == y;
        TrimLastNear(x);
        NearSame(x);
      } else {
        assert names[0] == names[0] && !IsLast(AllMerged(a), section, names[0]);
        NearAfter(x, more', more);
      }
    }
  }

  lemma NearSame(x: seq<string>)
    ensures Near(x, x)
  {
  }

  /** The last bullet of a section belongs to its last config. */
  lemma {:induction false} LastConfig(src: Sources, section: Section, names: seq<string>)
    requires Good(src) && names != []
    requires forall i | 0 <= i < |names| :: Merged(src, section, names[i]) != []
    ensures IsLast(Tagged(section, LinesFor(src, section, names)), section, names[|names| - 1])
  {
    hide Good, Merged, BulletCfg, Tagged;
    var x, more := Merged(src, section, names[0]), LinesFor(src, section, names[1..]);
    TaggedConcat(section, x, more);
    if |names| == 1 {
      assert more == [] && x + more == x;
      MergedAreBullets(src, section, names[0]);
      LastTagged(section, x, names[0]);
    } else {
      LastConfig(src, section, names[1..]);
    }
  }

  lemma LastTagged(section: Section, lines: seq<string>, cfg: string)
    requires lines != [] && forall l | l in lines :: BulletFor(l, cfg)
    ensures IsLast(Tagged(section, lines), section, cfg)
  {
    hide BulletCfg, Tagged, Filed;
    LastBullet(section, lines);
    assert lines[|lines| - 1] in lines;
  }

  lemma SectionNear(a: Sources, b: Sources, section: Section)
    requires Good(a) && Alike(a, b) && Known(section)
    requires forall cfg :: IsLast(AllMerged(a), section, cfg) ==>
                             IsLast(Tagged(section, SectionLines(a, section)), section, cfg)
    ensures Near(SectionLines(b, section), SectionLines(a, section))
    ensures (forall cfg :: !IsLast(AllMerged(a), section, cfg)) ==> SectionLines(b, section) == SectionLines(a, section)
  {
    hide Good, Merged, Tagged, LinesFor, Sorted, Cfgs, AllMerged, Near, Known;
    SameCfgs(a, b, section);
    var names := Sorted(Cfgs(a, section));
    SortedIsSorted(Cfgs(a, section));
    forall i | 0 <= i < |names|
      ensures Merged(a, section, names[i]) != []
    {
      assert names[i] in names;
      CfgsAreMerged(a, section, names[i]);
    }
    if names != [] {
      LastConfig(a, section, names);
    }
    LinesNear(a, b, section, names);
  }

  // ------------------------------------------------------- the whole block

  lemma SectionSame(a: Sources, b: Sources, section: Section)
    requires Good(a) && Alike(a, b) && Known(section)
    requires AllMerged(a) == [] || AllMerged(a)[|AllMerged(a)| - 1].section != section
    ensures SectionLines(b, section) == SectionLines(a, section)
  {
    hide Good, Merged, Tagged, SectionLines, AllMerged, Known;
    SectionNear(a, b, section);
  }

  lemma {:induction false} BlocksSame(a: Sources, b: Sources, sections: seq<Section>)
    requires Good(a) && Alike(a, b) && forall section | section in sections :: Known(section)
    requires AllMerged(a) == [] || AllMerged(a)[|AllMerged(a)| - 1].section !in sections
    ensures Blocks(b, sections) == Blocks(a, sections)
    decreases |sections|
  {
    hide Good, Merged, SectionLines, AllMerged, Known, Block, Alike;
    if sections != [] {
      SectionSame(a, b, sections[0]);
      BlocksSame(a, b, sections[1..]);
    }
  }

  lemma {:induction false} TaggedSections(src: Sources, sections: seq<Section>)
    requires Good(src)
    ensures forall x | x in TaggedBlocks(src, sections) :: x.section in sections
    decreases |sections|
  {
    hide Good, SectionLines, BulletCfg, Tagged;
    if sections != [] {
      TaggedSections(src, sections[1..]);
      TaggedSection(sections[0], SectionLines(src, sections[0]));
    }
  }

  lemma {:induction false} TaggedSection(section: Section, lines: seq<string>)
    ensures forall x | x in Tagged(section, lines) :: x.section == section
  {
    hide BulletCfg;
    if lines != [] {
      TaggedSection(section, lines[1..]);
    }
  }

  /** The same but for white space at the end of the line before the last, which
      is blank. */
  ghost predicate NearBlank(a: seq<string>, b: seq<string>) {
    && |a| == |b| >= 2
    && a[|a| - 1] == "" && b[|b| - 1] == ""
    && Near(a[..|a| - 1], b[..|b| - 1])
  }

  lemma BlockNear(section: Section, a: seq<string>, b: seq<string>)
    requires Known(section) && Near(a, b) && b != []
    ensures NearBlank(Block(section, a), Block(section, b))
  {
    hide Near, Heading;
    assert a != [] by { NearLength(a, b); }
    var top := [Heading(section), ""];
    NearAfter(top, a, b);
    assert Block(section, a)[..|Block(section, a)| - 1] == top + a;
    assert Block(section, b)[..|Block(section, b)| - 1] == top + b;
    NearLength(a, b);
  }

  lemma NearLength(a: seq<string>, b: seq<string>)
    requires Near(a, b)
    ensures |a| == |b|
  {
    hide TrimLine;
  }

  lemma NearBlankAfter(x: seq<string>, a: seq<string>, b: seq<string>)
    requires NearBlank(a, b)
    ensures NearBlank(x + a, x + b)
  {
    hide Near;
    NearAfter(x, a[..|a| - 1], b[..|b| - 1]);
    assert (x + a)[..|x + a| - 1] == x + a[..|a| - 1];
    assert (x + b)[..|x + b| - 1] == x + b[..|b| - 1];
  }

  lemma {:induction false} BlocksNear(a: Sources, b: Sources, sections: seq<Section>)
    requires Good(a) && Alike(a, b)
    requires forall section | section in sections :: Known(section)
    requires forall i, j | 0 <= i < j < |sections| :: sections[i] != sections[j]
    requires forall i | 1 <= i < |sections| :: sections[i] != Genuine
    requires TaggedBlocks(a, sections) != [] && AllMerged(a) != []
    requires TaggedBlocks(a, sections)[|TaggedBlocks(a, sections)| - 1] == AllMerged(a)[|AllMerged(a)| - 1]
    ensures NearBlank(Blocks(b, sections), Blocks(a, sections))
    decreases |sections|
  {
    hide Good, SectionLines, Tagged, Block, Known, AllMerged, NearBlank, Alike, Merged, BulletCfg;
    var section, rest := sections[0], sections[1..];
    var lines := SectionLines(a, section);
    if TaggedBlocks(a, rest) != [] {
      TaggedSections(a, rest);
      assert AllMerged(a)[|AllMerged(a)| - 1] in TaggedBlocks(a, rest);
      SectionSame(a, b, section);
      BlocksNear(a, b, rest);
      NearBlankAfter(Block(section, lines), Blocks(b, rest), Blocks(a, rest));
    } else {
      assert TaggedBlocks(a, sections) == Tagged(section, lines);
      TaggedSection(section, lines);
      assert AllMerged(a)[|AllMerged(a)| - 1] in Tagged(section, lines);
      NothingWritten(a, rest);
      BlocksSame(a, b, rest);
      SectionNear(a, b, section);
      assert lines != [] by { NoLines(section); }
      BlockNear(section, SectionLines(b, section), lines);
      assert Block(section, lines) + [] == Block(section, lines);
      assert Block(section, SectionLines(b, section)) + [] == Block(section, SectionLines(b, section));
    }
  }

  lemma ChopNear(a: seq<string>, b: seq<string>)
    requires NearBlank(a, b)
    ensures Chop(a) == Chop(b)
  {
    hide TrimLine;
    var n := |a| - 1;
    assert TrimLine("") == "" by { NothingToTrim(); }
    assert Chop(a) == Chop(a[..n]) && Chop(b) == Chop(b[..n]);
    if a[..n] != b[..n] {
      assert a[..n][..n - 1] == b[..n][..n - 1];
    }
  }

  lemma NothingToTrim()
    ensures TrimLine("") == ""
  {
  }

  lemma MergeTextIs(existing: string, latest: string, run: set<string>)
    ensures var lines := MergedLines(SourcesOf(existing, latest, run), MergedNote(existing, latest, run));
            Chop(lines) != [] && MergeText(existing, latest, run) == Join(Chop(lines), '\n')
  {
    hide SourcesOf, MergedNote, Lines, Join, Heading, Chop, Order, SectionLines, TrimRight, SectionAfter, FiledLine,
         NoteAfter;
    var lines := MergedLines(SourcesOf(existing, latest, run), MergedNote(existing, latest, run));
    assert lines[0] == Heading(Genuine);
    HeadingReads(Genuine, None, None);
    TrimJoin(lines);
  }

  lemma {:induction false} OthersConcat(a: seq<Item>, b: seq<Item>, run: set<string>)
    ensures Others(a + b, run) == Others(a, run) + Others(b, run)
  {
    if a == [] {
      assert a + b == b;
    } else {
      assert (a + b)[0] == a[0] && (a + b)[1..] == a[1..] + b;
      OthersConcat(a[1..], b, run);
    }
  }

  lemma {:induction false} OthersTwice(a: seq<Item>, run: set<string>)
    ensures Others(Others(a, run), run) == Others(a, run)
  {
    if a != [] {
      OthersTwice(a[1..], run);
      var head := if a[0].name in run then [] else [a[0]];
      OthersConcat(head, Others(a[1..], run), run);
    }
  }

  lemma {:induction false} NoOthers(a: seq<Item>, run: set<string>)
    requires forall it | it in a :: it.name in run
    ensures Others(a, run) == []
  {
    if a != [] {
      NoOthers(a[1..], run);
    }
  }

  /** The items of the note in a block. */
  function NoteItems(latest: string): seq<Item> {
    ParseNote(NoteAt(None, Lines(latest)))
  }

  lemma ItemsTwice(existing: string, latest: string, run: set<string>)
    ensures var once := NoteItems(MergeText(existing, latest, run));
            var twice := NoteItems(MergeText(MergeText(existing, latest, run), latest, run));
            && once == Others(NoteItems(existing), run) + NoteItems(latest)
            && twice == Others(NoteItems(existing), run) + Others(NoteItems(latest), run) + NoteItems(latest)
  {
    hide MergeText, Lines, NoteAt, ParseNote, Others;
    MergeReadsNote(existing, latest, run);
    MergeReadsNote(MergeText(existing, latest, run), latest, run);
    OthersConcat(Others(NoteItems(existing), run), NoteItems(latest), run);
    OthersTwice(NoteItems(existing), run);
  }

  lemma SameNote(existing: string, latest: string, run: set<string>)
    requires forall it | it in NoteItems(latest) :: it.name in run
    ensures MergedNote(MergeText(existing, latest, run), latest, run) == MergedNote(existing, latest, run)
  {
    hide MergeText, Lines, NoteAt, ParseNote, Others, RenderNote;
    ItemsTwice(existing, latest, run);
    OthersConcat(Others(NoteItems(existing), run), NoteItems(latest), run);
    OthersTwice(NoteItems(existing), run);
    NoOthers(NoteItems(latest), run);
    assert Others(NoteItems(MergeText(existing, latest, run)), run) == Others(NoteItems(existing), run);
  }

  lemma SameText(existing: string, latest: string, run: set<string>)
    requires MergedNote(MergeText(existing, latest, run), latest, run) == MergedNote(existing, latest, run)
    ensures MergeText(MergeText(existing, latest, run), latest, run) == MergeText(existing, latest, run)
  {
    hide MergeText, SourcesOf, MergedNote, Blocks, Order, TaggedBlocks, Good, Chop, Join, Merged, Known, Alike,
         NearBlank;
    var once := MergeText(existing, latest, run);
    var a, b := SourcesOf(existing, latest, run), SourcesOf(once, latest, run);
    var note := MergedNote(existing, latest, run);
    SourcesGood(existing, latest, run);
    SecondMergeAlike(existing, latest, run);
    MergeTextIs(existing, latest, run);
    MergeTextIs(once, latest, run);
    if note.Some? {
      AllSame(a, b);
    } else if AllMerged(a) == [] {
      BlocksSame(a, b, Order());
    } else {
      assert forall i, j | 0 <= i < j < |Order()| :: Order()[i] != Order()[j] by { OrderHas(Genuine); }
      OneGenuine();
      BlocksNear(a, b, Order());
      assert MergedLines(a, note) == Blocks(a, Order()) && MergedLines(b, note) == Blocks(b, Order());
      ChopNear(MergedLines(b, note), MergedLines(a, note));
    }
  }

  lemma AllSame(a: Sources, b: Sources)
    requires forall section, cfg | Known(section) :: Merged(b, section, cfg) == Merged(a, section, cfg)
    ensures Blocks(b, Order()) == Blocks(a, Order())
  {
    hide Merged, Known, Blocks;
    SectionsSame(a, b, Order());
  }

  lemma {:induction false} SectionsSame(a: Sources, b: Sources, sections: seq<Section>)
    requires forall section, cfg | Known(section) :: Merged(b, section, cfg) == Merged(a, section, cfg)
    requires forall section | section in sections :: Known(section)
    ensures Blocks(b, sections) == Blocks(a, sections)
    decreases |sections|
  {
    hide Merged, Known, Block, LinesFor, Sorted, Cfgs;
    if sections != [] {
      var section := sections[0];
      SectionsSame(a, b, sections[1..]);
      forall cfg
        ensures cfg in Cfgs(b, section) <==> cfg in Cfgs(a, section)
      {
        CfgsAreMerged(a, section, cfg);
        CfgsAreMerged(b, section, cfg);
      }
      assert Cfgs(b, section) == Cfgs(a, section);
      LinesSame(a, b, section, Sorted(Cfgs(a, section)));
    }
  }

  lemma {:induction false} LinesSame(a: Sources, b: Sources, section: Section, names: seq<string>)
    requires forall cfg :: Merged(b, section, cfg) == Merged(a, section, cfg)
    ensures LinesFor(b, section, names) == LinesFor(a, section, names)
  {
    hide Merged;
    if names != [] {
      LinesSame(a, b, section, names[1..]);
    }
  }

  /** For any two texts: merging the same block twice writes the same text as
      merging it once, if and only if every not-completed item of that block is
      of a config that was run. Any other item is listed once more each time. */
  lemma MergeIdempotentExactly(existing: string, latest: string, run: set<string>)
    ensures MergeText(MergeText(existing, latest, run), latest, run) == MergeText(existing, latest, run)
            <==> forall it | it in NoteItems(latest) :: it.name in run
  {
    hide MergeText, NoteItems, Others;
    if forall it | it in NoteItems(latest) :: it.name in run {
      SameNote(existing, latest, run);
      SameText(existing, latest, run);
    } else {
      ItemsTwice(existing, latest, run);
      OthersAreItems(NoteItems(latest), run);
      var it :| it in NoteItems(latest) && it.name !in run;
      assert it in Others(NoteItems(latest), run);
    }
  }

  // ------------------------------------------------------------- failing inputs

  /** A block that is just a note has the items of the note. */
  lemma OnlyANote(it: Item)
    requires NotCompleted.Clean(it) && OneLine(Text(it))
    ensures NoteItems(RenderNote([it]).value) == [it]
  {
    hide NotCompleted.Clean, OneLine, Lines, ParseNote, Text, NoteAfter, JoinOn;
    var line := RenderNote([it]).value;
    RenderedOneLine([it]);
    assert Lines(line) == [line] by {
      SingleLine(line);
    }
    NoteLine([it], None, None);
    assert [line][1..] == [];
    assert NoteAt(None, [line]) == Some(line);
    CleanReadBack([it]);
  }

  lemma SingleLine(line: string)
    requires OneLine(line) && line != ""
    ensures Lines(line) == [line]
  {
    hide OneLine, Lines, Join;
    assert Join([line], '\n') == line by { JoinSingle(line); }
    LinesJoin([line]);
  }

  lemma JoinSingle(line: string)
    ensures Join([line], '\n') == line
  {
  }

  lemma PlainItem()
    ensures NotCompleted.Clean(Item("a", "b", "c")) && OneLine(Text(Item("a", "b", "c")))
  {
    hide Occurs, IsSpace, OneLine;
    var t := "a vs b (c)";
    assert Text(Item("a", "b", "c")) == t && " " + "b" == " b" && '\n' !in t;
    CharMissing(" b", VS, 1);
    CharMissing("c", OPEN, 0);
    CharMissing(t, COMMA, 0);
    PrintableOneLine(t);
    PrintableKind('a');
    PrintableKind(')');
    TrimmedEnds(t);
  }

  /** The not-completed item of a config that was not run is repeated, for any
      existing text. */
  lemma ItemIsRepeated(existing: string)
    ensures var latest := RenderNote([Item("a", "b", "c")]).value;
            MergeText(MergeText(existing, latest, {}), latest, {}) != MergeText(existing, latest, {})
  {
    hide MergeText, NoteItems, RenderNote;
    var it := Item("a", "b", "c");
    var latest := RenderNote([it]).value by { NoteIsThere(it); }
    PlainItem();
    OnlyANote(it);
    MergeIdempotentExactly(existing, latest, {});
    assert it in NoteItems(latest);
  }

  lemma NoteIsThere(it: Item)
    ensures RenderNote([it]).Some?
  {
  }

  lemma {:induction false} PickFinds(bullets: seq<Bullet>, b: Bullet)
    requires b in bullets
    ensures b.line in Pick(bullets, b.section, b.cfg)
  {
    if bullets[0] != b {
      assert bullets == [bullets[0]] + bullets[1..];
      PickFinds(bullets[1..], b);
    }
  }

  lemma {:induction false} PickedFrom(bullets: seq<Bullet>, section: Section, cfg: string, l: string)
    requires l in Pick(bullets, section, cfg)
    ensures exists b :: b in bullets && b.line == l
  {
    if bullets[0].section == section && bullets[0].cfg == cfg && bullets[0].line == l {
      assert bullets[0] in bullets;
    } else {
      PickedFrom(bullets[1..], section, cfg, l);
    }
  }

  /** Every merged bullet is a line of one of the two blocks. */
  lemma MergedFrom(src: Sources, b: Bullet)
    requires Good(src) && b in AllMerged(src)
    ensures exists x :: (x in src.prior || x in src.latest) && x.line == b.line
  {
    hide Good, Pick, Known, Order, TaggedBlocks;
    PickFinds(AllMerged(src), b);
    OrderHas(b.section);
    PickBlocks(src, Order(), b.section, b.cfg);
    if b.line in Pick(src.latest, b.section, b.cfg) {
      PickedFrom(src.latest, b.section, b.cfg, b.line);
    } else {
      PickedFrom(src.prior, b.section, b.cfg, b.line);
    }
  }

  const SPACED := "- `a / b` "

  lemma SpacedBullet()
    ensures BulletCfg(SPACED) == Some("a") && OneLine(SPACED) && TrimLine(SPACED) != SPACED
  {
    hide BulletCfg, TrimRight;
    assert "- " + "" + "`" + "a" + " / " + "b" + "`" + " " == SPACED;
    BulletNamesConfig("", "a", "b", " ");
    assert Apart("a", " / ") by {
      assert "a" + " / "[..2] == "a /";
      NameIsApart();
    }
    assert IsTrimmed(Spaces, "a") by { PrintableKind('a'); }
    PrintableOneLine(SPACED);
    EndsTrimmed(SPACED);
  }

  lemma NameIsApart()
    ensures !Occurs("a /", " / ")
  {
    var s, sep := "a /", " / ";
    assert s[0] != sep[0] && s[1..] == " /";
    if Occurs(" /", " / ") {
      OccursFits(" /", " / ");
    }
  }

  lemma EndsTrimmed(s: string)
    requires s != "" && s[|s| - 1] == ' '
    ensures TrimLine(s) != s
  {
    Kinds();
    assert TrimRight(Spaces, s) == TrimRight(Spaces, s[..|s| - 1]);
  }

  /** A block whose only bullet ends in a space loses that space. */
  lemma SpaceIsLost()
    ensures var existing := Join([Heading(Genuine), SPACED], '\n');
            var all := AllMerged(SourcesOf(existing, "", {}));
            all != [] && Filed(None, Lines(MergeText(existing, "", {}))) != all
  {
    hide MergeText, AllMerged, Heading, Lines, Join, BulletCfg, FiledLine, SectionAfter, NoteAfter, Good;
    var existing := Join([Heading(Genuine), SPACED], '\n');
    var src := SourcesOf(existing, "", {});
    OneBullet(existing);
    SourcesGood(existing, "", {});
    PickOne(Bullet(Genuine, "a", SPACED), Genuine, "a");
    PickAllMerged(src, Genuine, "a");
    var all := AllMerged(src);
    assert all != [] by { assert Pick([], Genuine, "a") == []; }
    var last := all[|all| - 1];
    assert last in all;
    MergedFrom(src, last);
    SpacedBullet();
    KeptExactly(existing, "", {});
  }

  lemma OneBullet(existing: string)
    requires existing == Join([Heading(Genuine), SPACED], '\n')
    ensures SourcesOf(existing, "", {}) == Sources([Bullet(Genuine, "a", SPACED)], [], {})
    ensures MergedNote(existing, "", {}) == None
  {
    hide Heading, Join, BulletCfg, FiledLine, SectionAfter, NoteAfter, OneLine, TrimRight;
    var lines := [Heading(Genuine), SPACED];
    HeadingReads(Genuine, None, None);
    SpacedBullet();
    BulletLine(SPACED, Some(Genuine), None);
    LinesJoin(lines);
    assert lines[1..] == [SPACED] && [SPACED][1..] == [];
    FiledOne(Some(Genuine), SPACED);
    assert Filed(None, lines) == [Bullet(Genuine, "a", SPACED)];
    assert NoteAt(None, [SPACED]) == None;
    assert NoteAt(None, lines) == None;
    assert Lines("") == [] && Filed(None, []) == [] && NoteAt(None, []) == None;
  }
}
