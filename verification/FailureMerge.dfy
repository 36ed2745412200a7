/** The loops behind the failures block: filing bullets in nested dictionaries,
    reading the not-completed line, and writing the merged block. */
module FailureMerge {
  import opened Wrappers
  import opened TextLines
  import opened Substrings
  import opened NotCompleted
  import opened SortedNames
  import opened FailureBlocks

  /** Bullets by section, then by config. */
  type Entries = map<Section, map<string, seq<string>>>

  function Listed(e: Entries, section: Section, cfg: string): seq<string> {
    if section in e && cfg in e[section] then e[section][cfg] else []
  }

  ghost predicate Holds(e: Entries, bullets: seq<Bullet>) {
    && (forall section, cfg :: Listed(e, section, cfg) == Pick(bullets, section, cfg))
    && (forall section, cfg | section in e && cfg in e[section] :: e[section][cfg] != [])
  }

  function Add(e: Entries, b: Bullet): Entries {
    var filed := if b.section in e then e[b.section] else map[];
    e[b.section := filed[b.cfg := Listed(e, b.section, b.cfg) + [b.line]]]
  }

  lemma AddHolds(e: Entries, bullets: seq<Bullet>, b: Bullet)
    requires Holds(e, bullets)
    ensures Holds(Add(e, b), bullets + [b])
  {
    forall section, cfg
      ensures Listed(Add(e, b), section, cfg) == Pick(bullets + [b], section, cfg)
    {
      hide Pick;
      PickConcat(bullets, [b], section, cfg);
      PickOne(b, section, cfg);
      assert Listed(e, section, cfg) == Pick(bullets, section, cfg);
    }
  }

  lemma OneMore(lines: seq<string>, i: nat)
    requires i < |lines|
    ensures var cur, note := SectionAt(None, lines[..i]), NoteAt(None, lines[..i]);
            && Filed(None, lines[..i + 1]) == Filed(None, lines[..i]) + FiledLine(cur, lines[i])
            && SectionAt(None, lines[..i + 1]) == SectionAfter(cur, lines[i])
            && NoteAt(None, lines[..i + 1]) == NoteAfter(note, lines[i])
  {
    hide FiledLine, SectionAfter, NoteAfter;
    assert lines[..i + 1] == lines[..i] + [lines[i]] && [lines[i]][1..] == [];
    FiledConcat(None, lines[..i], [lines[i]]);
    NoteConcat(None, lines[..i], [lines[i]]);
    FiledOne(SectionAt(None, lines[..i]), lines[i]);
  }

  method ParseFailureBullets(block: string) returns (entries: Entries, note: Option<string>)
    ensures Holds(entries, Filed(None, Lines(block)))
    ensures note == NoteAt(None, Lines(block))
  {
    hide Filed, SectionAt, NoteAt, Lines, Holds, Strip, SectionOf, Add, BulletCfg, IsHeading, IsNote;
    entries, note := map[], None;
    var cur: Option<Section> := None;
    var lines := Lines(block);
    NothingYet();
    for i := 0 to |lines|
      invariant Holds(entries, Filed(None, lines[..i]))
      invariant cur == SectionAt(None, lines[..i]) && note == NoteAt(None, lines[..i])
    {
      OneMore(lines, i);
      assert Filed(None, lines[..i]) + [] == Filed(None, lines[..i]);
      var line, s := lines[i], Strip(Spaces, lines[i]);
      if IsHeading(s) {
        cur := SectionOf(s);
      } else if IsNote(s) {
        note := Some(s);
      } else if cur.Some? && BulletCfg(line).Some? {
        var b := Bullet(cur.value, BulletCfg(line).value, line);
        AddHolds(entries, Filed(None, lines[..i]), b);
        entries := Add(entries, b);
      }
    }
    assert lines[..|lines|] == lines;
  }

  lemma NothingYet()
    ensures Holds(map[], Filed(None, [])) && SectionAt(None, []) == None && NoteAt(None, []) == None
  {
  }

  method ParseNotCompleted(line: Option<string>) returns (items: seq<Item>)
    ensures items == ParseNote(line)
  {
    hide ParseParts, NoteBody, SplitOn, ParseItem, Strip;
    items := [];
    if line.None? || line.value == "" {
      return;
    }
    var parts := SplitOn(NoteBody(line.value), COMMA);
    for i := 0 to |parts|
      invariant items + ParseParts(parts[i..]) == ParseParts(parts)
    {
      NextPart(parts[i..]);
      assert parts[i..][1..] == parts[i + 1..];
      var it := ParseItem(Strip(Spaces, parts[i]));
      if it.Some? {
        items := items + [it.value];
      }
    }
    NoParts();
  }

  lemma NextPart(parts: seq<string>)
    requires parts != []
    ensures var it := ParseItem(Strip(Spaces, parts[0]));
            ParseParts(parts) == (if it.Some? then [it.value] else []) + ParseParts(parts[1..])
  {
    hide ParseItem, Strip;
  }

  lemma NoParts()
    ensures ParseParts([]) == []
  {
  }

  // ------------------------------------------------------------------ merging

  /** The old lists of the configs that were not run, overlaid with the latest. */
  function MergedEntry(prior: Entries, latest: Entries, run: set<string>, section: Section): map<string, seq<string>> {
    var before := if section in prior then prior[section] else map[];
    (map cfg | cfg in before && cfg !in run :: before[cfg]) + if section in latest then latest[section] else map[]
  }

  lemma MergedEntryHolds(prior: Entries, latest: Entries, src: Sources, section: Section)
    requires Holds(prior, src.prior) && Holds(latest, src.latest)
    ensures MergedEntry(prior, latest, src.run, section).Keys == Cfgs(src, section)
    ensures var d := MergedEntry(prior, latest, src.run, section);
            forall cfg | cfg in d :: d[cfg] == Merged(src, section, cfg)
  {
    hide Pick, Cfgs;
    var d := MergedEntry(prior, latest, src.run, section);
    forall cfg
      ensures cfg in d <==> cfg in Cfgs(src, section)
      ensures cfg in d ==> d[cfg] == Merged(src, section, cfg)
    {
      CfgsAreMerged(src, section, cfg);
      assert Listed(prior, section, cfg) == Pick(src.prior, section, cfg);
      assert Listed(latest, section, cfg) == Pick(src.latest, section, cfg);
    }
  }

  /** The bullets of a section, config by config in order. */
  method SectionText(d: map<string, seq<string>>, ghost src: Sources, ghost section: Section)
    returns (lines: seq<string>)
    requires d.Keys == Cfgs(src, section)
    requires forall cfg | cfg in d :: d[cfg] == Merged(src, section, cfg)
    ensures lines == SectionLines(src, section)
    ensures lines == [] <==> d == map[]
  {
    hide Sorted, Cfgs, Merged, LinesFor;
    var names := SortNames(d.Keys);
    SortedIsSorted(d.Keys);
    lines := [];
    for i := 0 to |names|
      invariant lines + LinesFor(src, section, names[i..]) == LinesFor(src, section, names)
      invariant lines == [] <==> i == 0
    {
      assert names[i] in names;
      NextName(src, section, names[i..]);
      assert names[i..][1..] == names[i + 1..];
      CfgsAreMerged(src, section, names[i]);
      lines := lines + d[names[i]];
    }
    NoNames(src, section);
    assert d == map[] <==> names == [] by {
      if names == [] {
        assert forall x :: x !in d.Keys;
      } else {
        assert names[0] in d;
      }
    }
  }

  lemma NextName(src: Sources, section: Section, names: seq<string>)
    requires names != []
    ensures LinesFor(src, section, names) == Merged(src, section, names[0]) + LinesFor(src, section, names[1..])
  {
    hide Merged;
  }

  lemma NoNames(src: Sources, section: Section)
    ensures LinesFor(src, section, []) == []
  {
  }

  lemma NextBlock(src: Sources, sections: seq<Section>)
    requires sections != [] && forall section | section in sections :: Known(section)
    ensures Blocks(src, sections)
            == Block(sections[0], SectionLines(src, sections[0])) + Blocks(src, sections[1..])
    ensures Blocks(src, []) == []
  {
    hide Block, SectionLines;
  }

  method MergeFailuresBlock(existing: string, latest: string, run: set<string>) returns (text: string)
    ensures text == MergeText(existing, latest, run)
  {
    hide Filed, NoteAt, Lines, Holds, SectionLines, Blocks, MergedEntry, Cfgs, Merged, Heading, ParseNote, Others,
         RenderNote, TrimRight, Join, Order;
    var prior, priorNote := ParseFailureBullets(existing);
    var fresher, latestNote := ParseFailureBullets(latest);
    ghost var src := SourcesOf(existing, latest, run);
    var order := Order();
    var fl: seq<string> := [];
    for i := 0 to |order|
      invariant fl + Blocks(src, order[i..]) == Blocks(src, order)
    {
      var section := order[i];
      assert section in order;
      NextBlock(src, order[i..]);
      assert order[i..][1..] == order[i + 1..];
      MergedEntryHolds(prior, fresher, src, section);
      var d := MergedEntry(prior, fresher, run, section);
      var lines := SectionText(d, src, section);
      if section == Genuine {
        fl := fl + [Heading(section), ""] + (if d == map[] then [NONE] else lines) + [""];
      } else if d != map[] {
        fl := fl + [Heading(section), ""] + lines + [""];
      }
    }
    NextBlock(src, order);
    var oldItems := ParseNotCompleted(priorNote);
    var newItems := ParseNotCompleted(latestNote);
    var note := RenderNote(Others(oldItems, run) + newItems);
    if note.Some? {
      fl := fl + [note.value];
    }
    assert fl == MergedLines(src, note);
    text := if fl == [] then "" else TrimRight(Spaces, Join(fl, '\n'));
  }
}
