/** The order in which the failures block is written. */
module WrittenOrder {
  import opened Wrappers
  import opened StatusTable
  import opened SortedNames
  import opened FailureBlocks

  /** Genuine failures first, then pairing by pairing, limitations before
      unsupported features. */
  function Rank(section: Section): nat {
    match section
    case Genuine => 0
    case NonConf(Some(c)) => 1 + 2 * Position(c)
    case Unsup(Some(c)) => 2 + 2 * Position(c)
    case _ => 7
  }

  /** `a` may stand before `b`. */
  predicate InOrder(a: Bullet, b: Bullet) {
    Rank(a.section) < Rank(b.section) || (a.section == b.section && (a.cfg == b.cfg || Before(a.cfg, b.cfg)))
  }

  predicate Ordered(bullets: seq<Bullet>) {
    forall i, j | 0 <= i < j < |bullets| :: InOrder(bullets[i], bullets[j])
  }

  lemma OrderedConcat(a: seq<Bullet>, b: seq<Bullet>)
    requires Ordered(a) && Ordered(b) && forall x, y | x in a && y in b :: InOrder(x, y)
    ensures Ordered(a + b)
  {
    hide InOrder;
    var all := a + b;
    forall i, j | 0 <= i < j < |all|
      ensures InOrder(all[i], all[j])
    {
      if j < |a| {
        assert InOrder(a[i], a[j]);
      } else if i >= |a| {
        assert InOrder(b[i - |a|], b[j - |a|]);
      } else {
        assert a[i] in a && b[j - |a|] in b;
      }
    }
  }

  lemma {:induction false} TaggedOf(section: Section, lines: seq<string>)
    ensures forall x | x in Tagged(section, lines) ::
              x.section == section && x.line in lines && BulletCfg(x.line) == Some(x.cfg)
  {
    hide BulletCfg;
    if lines != [] {
      TaggedOf(section, lines[1..]);
    }
  }

  lemma TaggedOne(src: Sources, section: Section, name: string)
    requires Good(src)
    ensures forall x | x in Tagged(section, Merged(src, section, name)) :: x.section == section && x.cfg == name
  {
    hide Good, Merged, BulletCfg, Tagged;
    TaggedOf(section, Merged(src, section, name));
    MergedAreBullets(src, section, name);
  }

  lemma {:induction false} SectionOrdered(src: Sources, section: Section, names: seq<string>)
    requires Good(src) && forall i, j | 0 <= i < j < |names| :: Before(names[i], names[j])
    ensures Ordered(Tagged(section, LinesFor(src, section, names)))
    ensures forall x | x in Tagged(section, LinesFor(src, section, names)) :: x.section == section && x.cfg in names
  {
    hide Good, Merged, BulletCfg, Tagged, Before;
    if names == [] {
      NoLines(Genuine);
      TaggedOf(section, []);
      assert Tagged(section, []) == [] by { NothingTagged(section); }
    } else {
      var first, rest := Merged(src, section, names[0]), LinesFor(src, section, names[1..]);
      TaggedConcat(section, first, rest);
      TaggedOne(src, section, names[0]);
      SectionOrdered(src, section, names[1..]);
      forall x, y | x in Tagged(section, first) && y in Tagged(section, rest)
        ensures InOrder(x, y)
      {
        var k :| 0 <= k < |names[1..]| && names[1..][k] == y.cfg;
        assert Before(names[0], names[k + 1]);
      }
      OrderedConcat(Tagged(section, first), Tagged(section, rest));
    }
  }

  lemma NothingTagged(section: Section)
    ensures Tagged(section, []) == []
  {
  }

  lemma {:induction false} SectionsOrdered(src: Sources, sections: seq<Section>)
    requires Good(src) && forall i, j | 0 <= i < j < |sections| :: Rank(sections[i]) < Rank(sections[j])
    ensures Ordered(TaggedBlocks(src, sections))
    ensures forall x | x in TaggedBlocks(src, sections) :: x.section in sections
    decreases |sections|
  {
    hide Good, LinesFor, Tagged, Sorted, Cfgs, Rank, Before;
    if sections != [] {
      var section, rest := sections[0], sections[1..];
      var names := Sorted(Cfgs(src, section));
      SortedIsSorted(Cfgs(src, section));
      SectionOrdered(src, section, names);
      SectionsOrdered(src, rest);
      var a, b := Tagged(section, SectionLines(src, section)), TaggedBlocks(src, rest);
      forall x, y | x in a && y in b
        ensures InOrder(x, y)
      {
        var k :| 0 <= k < |rest| && rest[k] == y.section;
        assert Rank(sections[0]) < Rank(sections[k + 1]);
      }
      OrderedConcat(a, b);
    }
  }

  lemma RanksRise()
    ensures forall i, j | 0 <= i < j < |Order()| :: Rank(Order()[i]) < Rank(Order()[j])
  {
  }

  /** The merged bullets are written by section rank, and within a section by
      config in code point order. */
  lemma MergedInOrder(src: Sources)
    requires Good(src)
    ensures Ordered(AllMerged(src))
  {
    hide Good, Order, TaggedBlocks, Rank;
    RanksRise();
    SectionsOrdered(src, Order());
  }

  /** The block opens with its heading; the third line says that there are no genuine
      failures exactly if there are none. */
  lemma OpensWithGenuine(src: Sources, note: Option<string>)
    requires Good(src)
    ensures var lines := MergedLines(src, note);
            && |lines| >= 3
            && lines[0] == "**" + ("Genuine interop failures" + " (interop bugs)") + "**" && lines[1] == ""
            && (lines[2] == "_No genuine interop failures._" <==> SectionLines(src, Genuine) == [])
  {
    hide *;
    var all := SectionLines(src, Genuine);
    GenuineFirst(src, note);
    GenuineOpens(all);
    if all != [] {
      PickSection(src, Genuine, Genuine, "");
      assert all[0] in all;
      NoneIsNoBullet();
    }
  }

  lemma GenuineFirst(src: Sources, note: Option<string>)
    ensures Block(Genuine, SectionLines(src, Genuine)) <= MergedLines(src, note)
  {
    hide SectionLines, Order, Block;
    assert Blocks(src, Order()) == Block(Genuine, SectionLines(src, Genuine)) + Blocks(src, Order()[1..]);
  }

  lemma GenuineOpens(lines: seq<string>)
    ensures var block := Block(Genuine, lines);
            && |block| >= 3
            && block[0] == "**" + ("Genuine interop failures" + " (interop bugs)") + "**" && block[1] == ""
            && block[2] == if lines == [] then "_No genuine interop failures._" else lines[0]
  {
    hide Heading;
    GenuineHeading();
  }

  lemma GenuineHeading()
    ensures Heading(Genuine) == "**" + ("Genuine interop failures" + " (interop bugs)") + "**"
  {
  }

  lemma NoneIsNoBullet()
    ensures BulletCfg("_No genuine interop failures._").None?
  {
    hide Quoted, SectionOf;
    NoneLine(Some(Genuine), None);
    if BulletCfg(NONE).Some? {
      BulletLine(NONE, Some(Genuine), None);
    }
  }
}
