/**
 * The content extractor (qcontentextractor/vdom_content_extractor.cpp): it cuts the page into
 * blocks, tags them good or bad, takes one for the title, grows the content from the good ones
 * and merges what it has found.
 *
 * Every method is proved against the functions of BlockList, BlockExpansion and ContentMerge.
 */
module ContentExtractor {
  import opened VdomNode
  import opened TextBlocks
  import BlockList
  import opened BlockExpansion
  import ContentMerge
  import ContentConfidence

  class Page {
    const body: Node
    const docWidth: int
    const docHeight: int

    var blockList: seq<TextBlock>
    var titleBlock: TextBlock?
    var content: string

    constructor (body: Node, docWidth: int, docHeight: int)
      ensures this.body == body && this.docWidth == docWidth && this.docHeight == docHeight
      ensures blockList == [] && titleBlock == null && content == ""
    {
      this.body, this.docWidth, this.docHeight := body, docWidth, docHeight;
      blockList, titleBlock, content := [], null, "";
    }
  }

  // ---- what the blocks look like ----

  ghost predicate Separate(list: seq<TextBlock>) {
    forall i, j :: 0 <= i < j < |list| ==> list[i] != list[j]
  }

  ghost function Entries(list: seq<TextBlock>): (es: seq<BlockList.Entry>)
    reads list`prevIsNoise, list`nextIsNoise
    ensures |es| == |list|
    ensures forall i :: 0 <= i < |list| ==>
              es[i] == BlockList.Entry(list[i].node, list[i].prevIsNoise, list[i].nextIsNoise)
  {
    if list == [] then [] else
      var last := list[|list| - 1];
      Entries(list[..|list| - 1]) + [BlockList.Entry(last.node, last.prevIsNoise, last.nextIsNoise)]
  }

  ghost function Measured(e: BlockList.Entry, good: bool, bad: bool): Block {
    var t := e.node.tree;
    Block(e.node.x, e.node.y, e.node.w, e.node.h, |Content(t)|, SpaceRatio(t), AnchorRatio(t), TagDensity(t),
          good, bad, e.prevIsNoise, e.nextIsNoise)
  }

  ghost function MeasureOf(b: TextBlock): Block
    reads b`isGood, b`isBad, b`prevIsNoise, b`nextIsNoise
  {
    Measured(BlockList.Entry(b.node, b.prevIsNoise, b.nextIsNoise), b.isGood, b.isBad)
  }

  ghost function Measures(list: seq<TextBlock>): (bs: seq<Block>)
    reads list`isGood, list`isBad, list`prevIsNoise, list`nextIsNoise
    ensures |bs| == |list|
    ensures forall i :: 0 <= i < |list| ==> bs[i] == MeasureOf(list[i])
  {
    if list == [] then [] else Measures(list[..|list| - 1]) + [MeasureOf(list[|list| - 1])]
  }

  ghost function ContentSet(list: seq<TextBlock>): set<int>
    reads list`isContent
  {
    set j | 0 <= j < |list| && list[j].isContent
  }

  ghost function Parts(list: seq<TextBlock>): (ps: seq<ContentMerge.Part>)
    reads list`isContent, list`isBad
    ensures |ps| == |list|
    ensures forall i :: 0 <= i < |list| ==> ps[i] == PartOf(list[i])
  {
    if list == [] then [] else Parts(list[..|list| - 1]) + [PartOf(list[|list| - 1])]
  }

  ghost function PartFor(node: Node, content: bool, bad: bool): ContentMerge.Part {
    ContentMerge.Part(content, bad, Content(node.tree), SpaceRatio(node.tree) == 100,
                      node.isElement && node.renderType == BLOCK)
  }

  ghost function PartOf(b: TextBlock): ContentMerge.Part
    reads b`isContent, b`isBad
  {
    PartFor(b.node, b.isContent, b.isBad)
  }

  /** What a step of a walk marks: nothing, the blocks passed so far, or those and the one it stands at. */
  datatype Filling = Nothing | UpToHere | AndThis

  /** A block as it is made. */
  ghost predicate Untouched(b: TextBlock)
    reads b`isGood, b`isBad, b`isContent,
          b`hasAnchorLength, b`anchorLength, b`hasAnchorRatio, b`anchorRatio,
          b`hasTagDensity, b`tagDensity, b`hasSpaceRatio, b`spaceRatio
  {
    !b.isGood && !b.isBad && !b.isContent && b.Measured()
  }

  /** Every cache of the page and of its blocks can be relied on. */
  ghost predicate Ready(body: Node, list: seq<TextBlock>)
    reads body.repr`hasCachedContent, body.repr`content, body.repr`hasAllChildrenInline, body.repr`allChildrenInline
    reads list`hasAnchorLength, list`anchorLength, list`hasAnchorRatio, list`anchorRatio,
          list`hasTagDensity, list`tagDensity, list`hasSpaceRatio, list`spaceRatio
  {
    && (forall n <- body.repr :: n.CacheHolds())
    && forall b <- list :: b.Measured() && b.node.Shaped() && b.node.repr <= body.repr
  }

  class Extractor {
    var prevIsNoise: bool
    const isNoise: Node -> bool
    const containNoiseContent: string -> bool
    const containGoodPunct: string -> bool
    const normalized: string -> string

    constructor (isNoise: Node -> bool, containNoiseContent: string -> bool, containGoodPunct: string -> bool,
                 normalized: string -> string)
    {
      this.isNoise, this.containNoiseContent, this.containGoodPunct, this.normalized :=
        isNoise, containNoiseContent, containGoodPunct, normalized;
      prevIsNoise := *;
    }

    // ---- cutting ----

    ghost function Strip(list: seq<TextBlock>): BlockList.Strip
      reads `prevIsNoise, list`prevIsNoise, list`nextIsNoise
    {
      BlockList.Strip(Entries(list), prevIsNoise)
    }

    method AddBlock(page: Page, node: Node)
      requires Separate(page.blockList)
      modifies `prevIsNoise, page`blockList
      ensures Strip(page.blockList) == BlockList.Lay(old(Strip(page.blockList)), BlockList.Keep(node))
      ensures Separate(page.blockList)
      ensures |page.blockList| == |old(page.blockList)| + 1 && old(page.blockList) <= page.blockList
      ensures Untouched(page.blockList[|old(page.blockList)|]) && fresh(page.blockList[|old(page.blockList)|])
    {
      var block := new TextBlock(node, prevIsNoise);
      assert block !in page.blockList;
      page.blockList := page.blockList + [block];
      prevIsNoise := false;
    }

    method NoteNoise(page: Page, node: Node)
      requires Separate(page.blockList)
      modifies `prevIsNoise, page.blockList`nextIsNoise
      ensures Strip(page.blockList) == BlockList.Lay(old(Strip(page.blockList)), BlockList.Skip(node))
    {
      prevIsNoise := true;
      if page.blockList != [] {
        page.blockList[|page.blockList| - 1].nextIsNoise := true;
      }
    }

    method ExtractBlockList(page: Page, node: Node)
      requires node.Shaped()
      requires forall n <- node.repr :: n.CacheHolds()
      requires Separate(page.blockList)
      modifies `prevIsNoise, page`blockList, page.blockList`nextIsNoise
      modifies node.repr`hasAllChildrenInline, node.repr`allChildrenInline
      ensures forall n <- node.repr :: n.CacheHolds()
      ensures Strip(page.blockList) == BlockList.LayAll(old(Strip(page.blockList)), BlockList.Pieces(node, isNoise))
      ensures Separate(page.blockList)
      ensures old(page.blockList) <= page.blockList
      ensures forall i :: |old(page.blockList)| <= i < |page.blockList| ==>
                fresh(page.blockList[i]) && Untouched(page.blockList[i])
      decreases node.tree
    {
      hide Node.Shaped, Node.CacheHolds, AllInline, Strip, Separate, Untouched, Entries, Content, BlockList.Lay;
      node.Facts();
      if node.isElement {
        if isNoise(node) {
          NoteNoise(page, node);
          BlockList.LayOne(old(Strip(page.blockList)), BlockList.Skip(node));
        } else {
          var inline := node.AllChildrenInline();
          if inline {
            AddBlock(page, node);
            BlockList.LayOne(old(Strip(page.blockList)), BlockList.Keep(node));
          } else {
            for i := 0 to |node.childNodes|
              invariant forall n <- node.repr :: n.CacheHolds()
              invariant Strip(page.blockList) ==
                        BlockList.LayAll(old(Strip(page.blockList)), BlockList.PiecesUpTo(node, i, isNoise))
              invariant Separate(page.blockList)
              invariant old(page.blockList) <= page.blockList
              invariant forall i :: |old(page.blockList)| <= i < |page.blockList| ==>
                          fresh(page.blockList[i]) && Untouched(page.blockList[i])
            {
              BlockList.LayAllConcat(old(Strip(page.blockList)), BlockList.PiecesUpTo(node, i, isNoise),
                                     BlockList.Pieces(node.childNodes[i], isNoise));
              ExtractBlockList(page, node.childNodes[i]);
            }
          }
        }
      } else {
        AddBlock(page, node);
        BlockList.LayOne(old(Strip(page.blockList)), BlockList.Keep(node));
      }
    }

    // ---- measuring and tagging ----

    method Measure(page: Page, b: TextBlock) returns (m: Block)
      requires b in page.blockList && Ready(page.body, page.blockList)
      modifies page.body.repr`hasCachedContent, page.body.repr`content
      modifies b`hasAnchorLength, b`anchorLength, b`hasAnchorRatio, b`anchorRatio,
               b`hasTagDensity, b`tagDensity, b`hasSpaceRatio, b`spaceRatio
      ensures Ready(page.body, page.blockList)
      ensures m == MeasureOf(b)
      ensures m.good == b.isGood && m.bad == b.isBad && m.prevIsNoise == b.prevIsNoise && m.nextIsNoise == b.nextIsNoise
    {
      hide Node.Shaped, Node.CacheHolds, TextBlock.Measured, Content, AnchorRatio, SpaceRatio, TagDensity;
      var space := b.GetSpaceRatio();
      var content := b.node.GetContent();
      var anchor := b.GetAnchorRatio();
      var density := b.GetTagDensity();
      m := Block(b.node.x, b.node.y, b.node.w, b.node.h, |content|, space, anchor, density,
                 b.isGood, b.isBad, b.prevIsNoise, b.nextIsNoise);
    }

    /** A short block with noise words in it. */
    predicate LooksBad(m: Block, content: string) {
      AsInt(m.h) < 200 && |normalized(content)| < 200 && containNoiseContent(content)
    }

    /** A block of running text in the middle of the page; minY is below the title when there is one. */
    predicate LooksGood(m: Block, content: string, docWidth: int, docHeight: int, minY: int) {
      var maxY := ContentConfidence.Truncated(0.84 * docHeight as real);
      && AsInt(m.x + m.w) as real > 0.3 * docWidth as real
      && AsInt(m.x) as real < 0.6 * docWidth as real
      && AsInt(m.y) > minY
      && AsInt(m.y) < (if maxY < docHeight - 200 then docHeight - 200 else maxY)
      && m.size > 35
      && m.anchor < 20 && m.density < 0.4 && m.space < 50
      && (AsInt(m.w) > 300 || (AsInt(m.x) > 100 && AsInt(m.w) > 200) || containGoodPunct(content))
    }

    const MIN_Y := 100

    /** Good blocks lie below the title, and not at the very top. */
    function MinY(title: TextBlock?): int {
      if title != null && AsInt(title.node.y) > MIN_Y then AsInt(title.node.y) else MIN_Y
    }

    /** A block is bad, or good, or neither, by what it looks like; bad comes first. */
    ghost predicate Tagged(page: Page, b: TextBlock)
      reads b`isGood, b`isBad, b`prevIsNoise, b`nextIsNoise, page`titleBlock
    {
      && b.isBad == LooksBad(MeasureOf(b), Content(b.node.tree))
      && b.isGood == (!b.isBad && LooksGood(MeasureOf(b), Content(b.node.tree), page.docWidth, page.docHeight,
                                            MinY(page.titleBlock)))
    }

    lemma LooksIgnoreFlags(m: Block, good: bool, bad: bool, noise: bool, content: string,
                           docWidth: int, docHeight: int, minY: int)
      ensures LooksBad(m.(good := good, bad := bad, prevIsNoise := noise), content) == LooksBad(m, content)
      ensures LooksGood(m.(good := good, bad := bad, prevIsNoise := noise), content, docWidth, docHeight, minY)
           == LooksGood(m, content, docWidth, docHeight, minY)
    {
    }

    method TagBlock(page: Page, b: TextBlock)
      requires b in page.blockList && Ready(page.body, page.blockList)
      requires !b.isGood && !b.isBad
      modifies page.body.repr`hasCachedContent, page.body.repr`content
      modifies b`isGood, b`isBad,
               b`hasAnchorLength, b`anchorLength, b`hasAnchorRatio, b`anchorRatio,
               b`hasTagDensity, b`tagDensity, b`hasSpaceRatio, b`spaceRatio
      ensures Ready(page.body, page.blockList)
      ensures Tagged(page, b)
    {
      hide Ready, Node.Shaped, Content, AnchorRatio, SpaceRatio, TagDensity, LooksBad, LooksGood;
      var m, content := MeasureAndText(page, b);
      ghost var limit := MinY(page.titleBlock);
      LooksIgnoreFlags(m, false, true, m.prevIsNoise, content, page.docWidth, page.docHeight, limit);
      LooksIgnoreFlags(m, true, false, m.prevIsNoise, content, page.docWidth, page.docHeight, limit);
      if LooksBad(m, content) {
        b.isBad := true;
        return;
      }
      var minY := MIN_Y;
      if page.titleBlock != null && AsInt(page.titleBlock.node.y) > minY {
        minY := AsInt(page.titleBlock.node.y);
      }
      if LooksGood(m, content, page.docWidth, page.docHeight, minY) {
        b.isGood := true;
      }
    }

    method MeasureAndText(page: Page, b: TextBlock) returns (m: Block, content: string)
      requires b in page.blockList && Ready(page.body, page.blockList)
      modifies page.body.repr`hasCachedContent, page.body.repr`content
      modifies b`hasAnchorLength, b`anchorLength, b`hasAnchorRatio, b`anchorRatio,
               b`hasTagDensity, b`tagDensity, b`hasSpaceRatio, b`spaceRatio
      ensures Ready(page.body, page.blockList)
      ensures m == MeasureOf(b) && content == Content(b.node.tree)
    {
      hide Node.Shaped, Node.CacheHolds, TextBlock.Measured, MeasureOf;
      m := Measure(page, b);
      content := b.node.GetContent();
    }

    method SelectGoodBlock(page: Page)
      requires Ready(page.body, page.blockList) && Separate(page.blockList)
      requires forall b <- page.blockList :: !b.isGood && !b.isBad
      modifies page.body.repr`hasCachedContent, page.body.repr`content
      modifies page.blockList`isGood, page.blockList`isBad,
               page.blockList`hasAnchorLength, page.blockList`anchorLength,
               page.blockList`hasAnchorRatio, page.blockList`anchorRatio,
               page.blockList`hasTagDensity, page.blockList`tagDensity,
               page.blockList`hasSpaceRatio, page.blockList`spaceRatio
      ensures Ready(page.body, page.blockList)
      ensures forall b <- page.blockList :: Tagged(page, b)
    {
      hide Ready, Tagged;
      for it := 0 to |page.blockList|
        invariant Ready(page.body, page.blockList)
        invariant forall j :: 0 <= j < it ==> Tagged(page, page.blockList[j])
        invariant forall j :: it <= j < |page.blockList| ==> !page.blockList[j].isGood && !page.blockList[j].isBad
      {
        TagBlock(page, page.blockList[it]);
      }
    }

    /** The block chosen for the title is no longer content of its own. */
    method MarkTitle(page: Page, chosen: TextBlock?)
      requires chosen != null ==> chosen in page.blockList
      modifies page`titleBlock, page.blockList`isGood, page.blockList`isBad
      ensures page.titleBlock == chosen
      ensures forall b <- page.blockList ::
                && b.isGood == (old(b.isGood) && b != chosen)
                && b.isBad == (old(b.isBad) || b == chosen)
    {
      page.titleBlock := chosen;
      if chosen != null {
        chosen.isGood := false;
        chosen.isBad := true;
      }
    }

    // ---- growing ----

    method MarkBehind(list: seq<TextBlock>, from: int, to: int)
      requires -1 <= to <= from < |list| && Separate(list)
      modifies list`isContent
      ensures ContentSet(list) == With(old(ContentSet(list)), to + 1, from + 1)
    {
      ghost var before := ContentSet(list);
      WithNothing(before, from + 1);
      for last := from + 1 downto to + 1
        invariant ContentSet(list) == With(before, last, from + 1)
      {
        MarkOne(list, last);
        WithBehind(before, last + 1, last + 1, last + 1, from + 1);
      }
    }

    method MarkOne(list: seq<TextBlock>, i: nat)
      requires i < |list| && Separate(list)
      modifies list`isContent
      ensures ContentSet(list) == With(old(ContentSet(list)), i, i + 1)
    {
      list[i].isContent := true;
    }

    /** Marking a stretch of the list, from one iterator up to another. */
    method MarkAhead(list: seq<TextBlock>, from: nat, to: nat)
      requires from <= to <= |list| && Separate(list)
      modifies list`isContent
      ensures ContentSet(list) == With(old(ContentSet(list)), from, to)
    {
      ghost var before := ContentSet(list);
      WithNothing(before, from);
      for last := from to to
        invariant ContentSet(list) == With(before, from, last)
      {
        MarkOne(list, last);
        WithAhead(before, from, last, last, last);
      }
    }

    /** The two blocks a step of a walk compares. */
    method Compare(page: Page, it: nat, ei: nat) returns (from: Block, m: Block)
      requires Ready(page.body, page.blockList)
      requires it < |page.blockList| && ei < |page.blockList|
      modifies page.body.repr`hasCachedContent, page.body.repr`content
      modifies page.blockList`hasAnchorLength, page.blockList`anchorLength,
               page.blockList`hasAnchorRatio, page.blockList`anchorRatio,
               page.blockList`hasTagDensity, page.blockList`tagDensity,
               page.blockList`hasSpaceRatio, page.blockList`spaceRatio
      ensures Ready(page.body, page.blockList)
      ensures Measures(page.blockList) == old(Measures(page.blockList))
      ensures from == Measures(page.blockList)[it] && m == Measures(page.blockList)[ei]
      ensures m.good == page.blockList[ei].isGood && m.bad == page.blockList[ei].isBad
      ensures m.prevIsNoise == page.blockList[ei].prevIsNoise && m.nextIsNoise == page.blockList[ei].nextIsNoise
      ensures ContentSet(page.blockList) == old(ContentSet(page.blockList))
      ensures ei in ContentSet(page.blockList) <==> page.blockList[ei].isContent
    {
      hide Ready, MeasureOf, Measures;
      from := Measure(page, page.blockList[it]);
      m := Measure(page, page.blockList[ei]);
    }

    /** One block of the walk down the page from a good block. */
    method LookForward(page: Page, it: nat, ei: nat, ghost before: set<int>, w: Walk)
      returns (w1: Walk, filling: Filling)
      requires Ready(page.body, page.blockList)
      requires it < ei < |page.blockList| && it + 1 + w.reach <= ei
      requires ContentSet(page.blockList) == With(before, it + 1, it + 1 + w.reach)
      modifies page.body.repr`hasCachedContent, page.body.repr`content
      modifies page.blockList`hasAnchorLength, page.blockList`anchorLength,
               page.blockList`hasAnchorRatio, page.blockList`anchorRatio,
               page.blockList`hasTagDensity, page.blockList`tagDensity,
               page.blockList`hasSpaceRatio, page.blockList`spaceRatio
      ensures Ready(page.body, page.blockList) && Measures(page.blockList) == old(Measures(page.blockList))
      ensures ContentSet(page.blockList) == old(ContentSet(page.blockList))
      ensures w1 == Turn(SeenAhead(Measures(page.blockList), before, it, ei, page.docWidth), ei - it - 1, w)
      ensures w1.reach == match filling case Nothing => w.reach case UpToHere => ei - it - 1 case AndThis => ei - it
      ensures filling == UpToHere ==> w1.done
    {
      hide Ready, MeasureOf, Measures, ContentSet, With, Look, SeenAhead, Spacer, Textual, Close, Fits;
      var list := page.blockList;
      SeenAheadMeans(Measures(list), before, it, ei, page.docWidth);
      var from, m := Compare(page, it, ei);
      OutsideWith(before, it + 1, it + 1 + w.reach, ei);
      var spaceBlocks, textBlocks := w.spacers, w.texts;
      if Spacer(m) {
        spaceBlocks := spaceBlocks + 1;
      }
      if Textual(m) {
        textBlocks := textBlocks + 1;
      }
      if spaceBlocks > 8 || textBlocks > 3 {
        return Walk(true, spaceBlocks, textBlocks, w.reach), Nothing;
      } else if list[ei].isBad {
        return Walk(true, spaceBlocks, textBlocks, w.reach), Nothing;
      } else if (list[ei].isGood || list[ei].isContent) && Close(m, from) {
        return Walk(true, spaceBlocks, textBlocks, ei - it - 1), UpToHere;
      } else if Fits(m, from, from.h, page.docWidth) {
        return Walk(list[ei].nextIsNoise, spaceBlocks, textBlocks, ei - it - 1 + 1), AndThis;
      }
      return Walk(list[ei].nextIsNoise, spaceBlocks, textBlocks, w.reach), Nothing;
    }

    method StepForward(page: Page, it: nat, ei: nat, ghost before: set<int>, w: Walk, last: int)
      returns (w1: Walk, last1: int)
      requires Ready(page.body, page.blockList) && Separate(page.blockList)
      requires it < ei < |page.blockList| && it < last <= it + 1 + w.reach <= ei
      requires ContentSet(page.blockList) == With(before, it + 1, it + 1 + w.reach)
      modifies page.blockList`isContent
      modifies page.body.repr`hasCachedContent, page.body.repr`content
      modifies page.blockList`hasAnchorLength, page.blockList`anchorLength,
               page.blockList`hasAnchorRatio, page.blockList`anchorRatio,
               page.blockList`hasTagDensity, page.blockList`tagDensity,
               page.blockList`hasSpaceRatio, page.blockList`spaceRatio
      ensures Ready(page.body, page.blockList) && Measures(page.blockList) == old(Measures(page.blockList))
      ensures w1 == Turn(SeenAhead(Measures(page.blockList), before, it, ei, page.docWidth), ei - it - 1, w)
      ensures it < last1 <= it + 1 + w1.reach && last1 <= ei
      ensures ContentSet(page.blockList) == With(before, it + 1, it + 1 + w1.reach)
    {
      hide Ready, Separate, MeasureOf, Measures, ContentSet, With, Turn, SeenAhead;
      var filling;
      w1, filling := LookForward(page, it, ei, before, w);
      last1 := last;
      WithAhead(before, it + 1, it + 1 + w.reach, last, ei);
      if filling != Nothing {
        if filling == AndThis {
          MarkOne(page.blockList, ei);
        }
        MarkAhead(page.blockList, last, ei);
        last1 := ei;
      }
    }

    /** Walking down the page from a good block. */
    method ExpandForward(page: Page, it: nat)
      requires Ready(page.body, page.blockList) && Separate(page.blockList)
      requires it < |page.blockList|
      modifies page.blockList`isContent
      modifies page.body.repr`hasCachedContent, page.body.repr`content
      modifies page.blockList`hasAnchorLength, page.blockList`anchorLength,
               page.blockList`hasAnchorRatio, page.blockList`anchorRatio,
               page.blockList`hasTagDensity, page.blockList`tagDensity,
               page.blockList`hasSpaceRatio, page.blockList`spaceRatio
      ensures Ready(page.body, page.blockList) && Measures(page.blockList) == old(Measures(page.blockList))
      ensures var walk := old(Ahead(Measures(page.blockList), ContentSet(page.blockList), it, page.docWidth));
              ContentSet(page.blockList) == With(old(ContentSet(page.blockList)), it + 1, it + 1 + Reach(walk))
    {
      hide Ready, Separate, MeasureOf, Measures, ContentSet, With, ReachFrom, Turn, SeenAhead;
      var list := page.blockList;
      ghost var before := ContentSet(list);
      ghost var walk := Ahead(Measures(list), before, it, page.docWidth);
      WithNothing(before, it + 1);
      var ei, last, w := it + 1, it + 1, Walk(false, 0, 0, 0);
      while ei != |list| && !w.done
        invariant it < last <= ei <= |list| && last <= it + 1 + w.reach && (!w.done ==> it + 1 + w.reach <= ei)
        invariant Ready(page.body, list) && Measures(list) == old(Measures(list))
        invariant ContentSet(list) == With(before, it + 1, it + 1 + w.reach)
        invariant w.reach <= ei - it - 1 && Reach(walk) == ReachFrom(walk, ei - it - 1, w)
        decreases |list| - ei
      {
        assert walk[ei - it - 1] == SeenAhead(Measures(list), before, it, ei, page.docWidth);
        ReachStep(walk, ei - it - 1, w);
        w, last := StepForward(page, it, ei, before, w, last);
        ei := ei + 1;
      }
      ReachEnd(walk, ei - it - 1, w);
    }

    /** One block of the walk up the page from a good block. */
    method LookBackward(page: Page, it: nat, ei: nat, ghost before: set<int>, w: Walk)
      returns (w1: Walk, filling: Filling)
      requires Ready(page.body, page.blockList)
      requires ei < it < |page.blockList| && ei <= it - 1 - w.reach
      requires ContentSet(page.blockList) == With(before, it - w.reach, it)
      modifies page.body.repr`hasCachedContent, page.body.repr`content
      modifies page.blockList`hasAnchorLength, page.blockList`anchorLength,
               page.blockList`hasAnchorRatio, page.blockList`anchorRatio,
               page.blockList`hasTagDensity, page.blockList`tagDensity,
               page.blockList`hasSpaceRatio, page.blockList`spaceRatio
      ensures Ready(page.body, page.blockList) && Measures(page.blockList) == old(Measures(page.blockList))
      ensures ContentSet(page.blockList) == old(ContentSet(page.blockList))
      ensures w1 == Turn(SeenBehind(Measures(page.blockList), before, it, ei, page.docWidth), it - 1 - ei, w)
      ensures w1.reach == match filling case Nothing => w.reach case UpToHere => it - 1 - ei case AndThis => it - ei
      ensures filling == UpToHere ==> w1.done
    {
      hide Ready, MeasureOf, Measures, ContentSet, With, Look, SeenBehind, Spacer, Textual, Close, Fits;
      var list := page.blockList;
      SeenBehindMeans(Measures(list), before, it, ei, page.docWidth);
      var from, m := Compare(page, it, ei);
      OutsideWith(before, it - w.reach, it, ei);
      var spaceBlocks, textBlocks := w.spacers, w.texts;
      if Spacer(m) {
        spaceBlocks := spaceBlocks + 1;
      }
      if Textual(m) {
        textBlocks := textBlocks + 1;
      }
      if spaceBlocks > 8 || textBlocks > 3 {
        return Walk(true, spaceBlocks, textBlocks, w.reach), Nothing;
      } else if list[ei].isBad {
        return Walk(true, spaceBlocks, textBlocks, w.reach), Nothing;
      } else if (list[ei].isGood || list[ei].isContent) && Close(m, from) {
        return Walk(true, spaceBlocks, textBlocks, it - 1 - ei), UpToHere;
      } else if Fits(m, from, m.h, page.docWidth) {
        return Walk(list[ei].prevIsNoise, spaceBlocks, textBlocks, it - 1 - ei + 1), AndThis;
      }
      return Walk(list[ei].prevIsNoise, spaceBlocks, textBlocks, w.reach), Nothing;
    }

    method StepBackward(page: Page, it: nat, ei: nat, ghost before: set<int>, w: Walk, last: int)
      returns (w1: Walk, last1: int)
      requires Ready(page.body, page.blockList) && Separate(page.blockList)
      requires ei < it < |page.blockList| && ei <= it - 1 - w.reach <= last < it
      requires ContentSet(page.blockList) == With(before, it - w.reach, it)
      modifies page.blockList`isContent
      modifies page.body.repr`hasCachedContent, page.body.repr`content
      modifies page.blockList`hasAnchorLength, page.blockList`anchorLength,
               page.blockList`hasAnchorRatio, page.blockList`anchorRatio,
               page.blockList`hasTagDensity, page.blockList`tagDensity,
               page.blockList`hasSpaceRatio, page.blockList`spaceRatio
      ensures Ready(page.body, page.blockList) && Measures(page.blockList) == old(Measures(page.blockList))
      ensures w1 == Turn(SeenBehind(Measures(page.blockList), before, it, ei, page.docWidth), it - 1 - ei, w)
      ensures it - 1 - w1.reach <= last1 < it && ei <= last1
      ensures ContentSet(page.blockList) == With(before, it - w1.reach, it)
    {
      hide Ready, Separate, MeasureOf, Measures, ContentSet, With, Turn, SeenBehind;
      var filling;
      w1, filling := LookBackward(page, it, ei, before, w);
      last1 := last;
      WithBehind(before, ei + 1, it - w.reach, last + 1, it);
      if filling != Nothing {
        if filling == AndThis {
          MarkOne(page.blockList, ei);
        }
        MarkBehind(page.blockList, last, ei);
        last1 := ei;
      }
    }

    /** Walking up the page from a good block. */
    method ExpandBackward(page: Page, it: nat)
      requires Ready(page.body, page.blockList) && Separate(page.blockList)
      requires it < |page.blockList|
      modifies page.blockList`isContent
      modifies page.body.repr`hasCachedContent, page.body.repr`content
      modifies page.blockList`hasAnchorLength, page.blockList`anchorLength,
               page.blockList`hasAnchorRatio, page.blockList`anchorRatio,
               page.blockList`hasTagDensity, page.blockList`tagDensity,
               page.blockList`hasSpaceRatio, page.blockList`spaceRatio
      ensures Ready(page.body, page.blockList) && Measures(page.blockList) == old(Measures(page.blockList))
      ensures var walk := old(Behind(Measures(page.blockList), ContentSet(page.blockList), it, page.docWidth));
              ContentSet(page.blockList) == With(old(ContentSet(page.blockList)), it - Reach(walk), it)
    {
      hide Ready, Separate, MeasureOf, Measures, ContentSet, With, ReachFrom, Turn, SeenBehind;
      var list := page.blockList;
      ghost var before := ContentSet(list);
      ghost var walk := Behind(Measures(list), before, it, page.docWidth);
      WithNothing(before, it);
      var ei, last, w := it - 1, it - 1, Walk(false, 0, 0, 0);
      while ei != -1 && !w.done
        invariant -1 <= ei <= last < it && it - 1 - w.reach <= last && (!w.done ==> ei <= it - 1 - w.reach)
        invariant Ready(page.body, list) && Measures(list) == old(Measures(list))
        invariant ContentSet(list) == With(before, it - w.reach, it)
        invariant w.reach <= it - 1 - ei && Reach(walk) == ReachFrom(walk, it - 1 - ei, w)
        decreases ei + 1
      {
        assert walk[it - 1 - ei] == SeenBehind(Measures(list), before, it, ei, page.docWidth);
        ReachStep(walk, it - 1 - ei, w);
        w, last := StepBackward(page, it, ei, before, w, last);
        ei := ei - 1;
      }
      ReachEnd(walk, it - 1 - ei, w);
    }

    method ExpandFrom(page: Page, it: nat)
      requires Ready(page.body, page.blockList) && Separate(page.blockList)
      requires it < |page.blockList|
      modifies page.blockList`isContent
      modifies page.body.repr`hasCachedContent, page.body.repr`content
      modifies page.blockList`hasAnchorLength, page.blockList`anchorLength,
               page.blockList`hasAnchorRatio, page.blockList`anchorRatio,
               page.blockList`hasTagDensity, page.blockList`tagDensity,
               page.blockList`hasSpaceRatio, page.blockList`spaceRatio
      ensures Ready(page.body, page.blockList) && Measures(page.blockList) == old(Measures(page.blockList))
      ensures ContentSet(page.blockList) ==
              ExpandOne(Measures(page.blockList), old(ContentSet(page.blockList)), it, page.docWidth)
    {
      hide Ready, Separate, Measures, MeasureOf, ContentSet, With, Ahead, Behind, Reach, Node.Shaped;
      ghost var bs, before := Measures(page.blockList), ContentSet(page.blockList);
      RunGrows(before, it, Forward(bs, before, it, page.docWidth), Backward(bs, before, it, page.docWidth));
      MarkOne(page.blockList, it);
      ExpandForward(page, it);
      ExpandBackward(page, it);
    }

    /** Growing the content from every good block in turn. */
    method ExpandGoodBlock(page: Page)
      requires Ready(page.body, page.blockList) && Separate(page.blockList)
      modifies page.blockList`isContent
      modifies page.body.repr`hasCachedContent, page.body.repr`content
      modifies page.blockList`hasAnchorLength, page.blockList`anchorLength,
               page.blockList`hasAnchorRatio, page.blockList`anchorRatio,
               page.blockList`hasTagDensity, page.blockList`tagDensity,
               page.blockList`hasSpaceRatio, page.blockList`spaceRatio
      ensures Ready(page.body, page.blockList) && Measures(page.blockList) == old(Measures(page.blockList))
      ensures ContentSet(page.blockList) ==
              ExpandUpTo(Measures(page.blockList), old(ContentSet(page.blockList)), |page.blockList|, page.docWidth)
    {
      hide Ready, Separate, Measures, ContentSet, ExpandOne, With, Forward, Backward, Reach, Node.Shaped,
        Node.CacheHolds, TextBlock.Measured, Content, AnchorRatio, SpaceRatio, TagDensity;
      for it := 0 to |page.blockList|
        invariant Ready(page.body, page.blockList) && Measures(page.blockList) == old(Measures(page.blockList))
        invariant ContentSet(page.blockList) ==
                  ExpandUpTo(old(Measures(page.blockList)), old(ContentSet(page.blockList)), it, page.docWidth)
      {
        assert Measures(page.blockList)[it].good == page.blockList[it].isGood;
        if page.blockList[it].isGood {
          ExpandFrom(page, it);
        }
      }
    }

    // ---- merging ----

    method MergeContent(page: Page) returns (hasContent: bool, content: string)
      requires Ready(page.body, page.blockList)
      modifies page.body.repr`hasCachedContent, page.body.repr`content
      modifies page.blockList`hasSpaceRatio, page.blockList`spaceRatio
      ensures Ready(page.body, page.blockList) && Parts(page.blockList) == old(Parts(page.blockList))
      ensures hasContent == (ContentMerge.Previous(Parts(page.blockList), |page.blockList|) >= 0)
      ensures content == ContentMerge.ContentUpTo(Parts(page.blockList), |page.blockList|)
    {
      hide Ready, Parts, PartOf, Content, SpaceRatio, ContentMerge.Lead, Node.Shaped;
      var list := page.blockList;
      ghost var ps := Parts(list);
      var prevIsContent, prevIsSpace := true, true;
      hasContent, content := false, "";
      for it := 0 to |list|
        invariant Ready(page.body, list) && Parts(list) == ps
        invariant content == ContentMerge.ContentUpTo(ps, it)
        invariant hasContent == (ContentMerge.Previous(ps, it) >= 0)
        invariant Remembers(ps, it, prevIsContent, prevIsSpace)
      {
        PartsAt(list, it);
        if list[it].isContent {
          if !hasContent {
            hasContent := true;
          }
          var piece, space := ContentPiece(page, it, prevIsContent, prevIsSpace);
          prevIsContent := true;
          prevIsSpace := space == 100;
          content := content + piece;
        } else {
          if hasContent {
            prevIsContent := false;
          }
        }
      }
    }

    /** What the merge keeps in mind of the content block before position j. */
    ghost predicate Remembers(ps: seq<ContentMerge.Part>, j: nat, prevIsContent: bool, prevIsSpace: bool)
      requires j <= |ps|
    {
      var i := ContentMerge.Previous(ps, j);
      prevIsContent == !(0 <= i < j - 1) && prevIsSpace == (i < 0 || ps[i].allBlank)
    }

    lemma PartsAt(list: seq<TextBlock>, i: nat)
      requires i < |list|
      ensures var p := Parts(list)[i];
              && p.content == list[i].isContent && p.bad == list[i].isBad
              && p.text == Content(list[i].node.tree) && p.allBlank == (SpaceRatio(list[i].node.tree) == 100)
              && p.ownLine == (list[i].node.isElement && list[i].node.renderType == BLOCK)
    {
      assert Parts(list)[i] == PartOf(list[i]);
    }

    /** The text of a content block with the marks before it. */
    method ContentPiece(page: Page, it: nat, prevIsContent: bool, prevIsSpace: bool) returns (piece: string, space: int)
      requires Ready(page.body, page.blockList) && it < |page.blockList|
      requires Remembers(Parts(page.blockList), it, prevIsContent, prevIsSpace)
      modifies page.body.repr`hasCachedContent, page.body.repr`content
      modifies page.blockList`hasSpaceRatio, page.blockList`spaceRatio
      ensures Ready(page.body, page.blockList) && Parts(page.blockList) == old(Parts(page.blockList))
      ensures piece == ContentMerge.Lead(Parts(page.blockList), it) + Parts(page.blockList)[it].text
      ensures (space == 100) == Parts(page.blockList)[it].allBlank
    {
      hide Ready, Parts, PartOf, Content, SpaceRatio, Node.Shaped, ContentMerge.Previous;
      var b := page.blockList[it];
      PartsAt(page.blockList, it);
      var lead := "";
      if !prevIsContent {
        lead := lead + ContentMerge.SECTION;
      }
      if !prevIsSpace {
        lead := lead + " ";
      }
      var text;
      space, text := SpaceAndText(page, b);
      if b.node.isElement && b.node.renderType == BLOCK {
        lead := lead + ContentMerge.PARAGRAPH;
      }
      piece := lead + text;
    }

    method MergeRest(page: Page) returns (content: string)
      requires Ready(page.body, page.blockList)
      modifies page.body.repr`hasCachedContent, page.body.repr`content
      modifies page.blockList`hasSpaceRatio, page.blockList`spaceRatio
      ensures Ready(page.body, page.blockList) && Parts(page.blockList) == old(Parts(page.blockList))
      ensures content == ContentMerge.RestUpTo(Parts(page.blockList), |page.blockList|)
    {
      hide Ready, Parts, Content, SpaceRatio;
      var list := page.blockList;
      ghost var ps := Parts(list);
      content := "";
      for it := 0 to |list|
        invariant Ready(page.body, list) && Parts(list) == ps
        invariant content == ContentMerge.RestUpTo(ps, it)
      {
        assert ps[it] == PartOf(list[it]);
        if !list[it].isBad {
          var space, text := SpaceAndText(page, list[it]);
          var line := text;
          if list[it].node.isElement && list[it].node.renderType == BLOCK {
            line := line + ContentMerge.PARAGRAPH;
          }
          content := content + line;
        }
      }
    }

    method MergeContentBlock(page: Page, isList: bool)
      requires Ready(page.body, page.blockList)
      modifies page`content
      modifies page.body.repr`hasCachedContent, page.body.repr`content
      modifies page.blockList`hasSpaceRatio, page.blockList`spaceRatio
      ensures Ready(page.body, page.blockList) && Parts(page.blockList) == old(Parts(page.blockList))
      ensures page.content == ContentMerge.Merged(Parts(page.blockList), isList)
    {
      hide Ready, Parts;
      var hasContent, content := false, "";
      if !isList {
        hasContent, content := MergeContent(page);
      }
      if !hasContent {
        content := MergeRest(page);
      }
      page.content := content;
    }

    method SpaceAndText(page: Page, b: TextBlock) returns (space: int, text: string)
      requires b in page.blockList && Ready(page.body, page.blockList)
      modifies page.body.repr`hasCachedContent, page.body.repr`content
      modifies b`hasSpaceRatio, b`spaceRatio
      ensures Ready(page.body, page.blockList)
      ensures space == SpaceRatio(b.node.tree) && text == Content(b.node.tree)
    {
      hide Node.Shaped, Node.CacheHolds, TextBlock.Measured, Content, SpaceRatio;
      space := b.GetSpaceRatio();
      text := b.node.GetContent();
    }

    // ---- the whole page ----

    /** The blocks of a page, as cut by an extractor that has seen no page before. */
    ghost function PageEntries(body: Node): seq<BlockList.Entry>
      requires body.Shaped()
    {
      BlockList.LayAll(BlockList.Strip([], false), BlockList.Pieces(body, isNoise)).entries
    }

    /** A block with its tags, before the title is known and after. */
    ghost function TaggedEntry(e: BlockList.Entry, docWidth: int, docHeight: int, isTitle: bool): Block {
      var m, content := Measured(e, false, false), Content(e.node.tree);
      var bad := LooksBad(m, content);
      var good := !bad && LooksGood(m, content, docWidth, docHeight, MIN_Y);
      Measured(e, good && !isTitle, bad || isTitle)
    }

    ghost function PageBlocks(body: Node, docWidth: int, docHeight: int, titleAt: int): seq<Block>
      requires body.Shaped()
    {
      var es := PageEntries(body);
      seq(|es|, i requires 0 <= i < |es| => TaggedEntry(es[i], docWidth, docHeight, i == titleAt))
    }

    /** The content of a page: nothing in it depends on what the extractor has seen before. */
    ghost function PageParts(body: Node, docWidth: int, docHeight: int, titleAt: int): seq<ContentMerge.Part>
      requires body.Shaped()
    {
      var es, bs := PageEntries(body), PageBlocks(body, docWidth, docHeight, titleAt);
      var content := ExpandUpTo(bs, {}, |bs|, docWidth);
      seq(|es|, i requires 0 <= i < |es| => PartFor(es[i].node, i in content, bs[i].bad))
    }

    /** The blocks cover the page and know the noise around them. */
    ghost predicate Covers(page: Page)
      requires page.body.Shaped()
      reads page`blockList, page.blockList`prevIsNoise, page.blockList`nextIsNoise, `prevIsNoise
    {
      && var nodes := BlockList.Nodes(Entries(page.blockList));
      && BlockList.AllShaped(nodes)
      && BlockList.TextsOf(nodes) == BlockList.Remaining(page.body, page.body.Texts(), isNoise)
      && BlockList.ShareNoText(nodes)
      && BlockList.Agree(Strip(page.blockList))
    }

    method ExtractBlocks(page: Page) returns (ghost start: bool)
      requires page.body.Shaped() && page.blockList == []
      requires forall n <- page.body.repr :: n.CacheHolds()
      modifies `prevIsNoise, page`blockList
      modifies page.body.repr`hasAllChildrenInline, page.body.repr`allChildrenInline
      ensures Covers(page) && Ready(page.body, page.blockList) && Separate(page.blockList)
      ensures Entries(page.blockList) == BlockList.WithStart(PageEntries(page.body), start)
      ensures forall i :: 0 <= i < |page.blockList| ==> fresh(page.blockList[i]) && Untouched(page.blockList[i])
    {
      hide Node.Shaped, Node.CacheHolds, Node.Texts, Content, SpaceRatio, AnchorRatio, TagDensity, BlockList.Pieces,
        BlockList.LayAll, BlockList.ShareNoText, BlockList.Remaining, BlockList.TextsOf, BlockList.WithStart;
      ghost var before := prevIsNoise;
      ghost var pieces := BlockList.Pieces(page.body, isNoise);
      ExtractBlockList(page, page.body);
      BlockList.BlocksAreKeptPieces(before, pieces);
      BlockList.LayingKeepsAgreement(BlockList.Strip([], before), pieces);
      BlockList.BlocksCoverThePage(page.body, isNoise);
      BlockList.BlocksShareNoText(page.body, isNoise);
      BlockList.PiecesBelow(page.body, isNoise);
      start := BlockList.CutUpToStart(pieces, before);
      forall b | b in page.blockList
        ensures b.node.Shaped() && b.node.repr <= page.body.repr
      {
        var i :| 0 <= i < |page.blockList| && page.blockList[i] == b;
        assert b.node == BlockList.Nodes(Entries(page.blockList))[i];
        BlockList.SubtreeClosed(page.body, b.node);
      }
    }

    /** Good and bad exclude each other, content grows from good blocks only, and no bad block is content. */
    ghost predicate Sound(list: seq<TextBlock>)
      reads list`isGood, list`isBad, list`prevIsNoise, list`nextIsNoise, list`isContent
    {
      var bs, content := Measures(list), ContentSet(list);
      && Exclusive(bs) && NoneBad(bs, content) && AllTied(bs, content)
      && forall g :: 0 <= g < |bs| && bs[g].good ==> g in content
    }

    /** Growing content on a page whose blocks have been tagged. */
    method GrowContent(page: Page)
      requires Ready(page.body, page.blockList) && Separate(page.blockList)
      requires forall b <- page.blockList :: !(b.isGood && b.isBad) && !b.isContent
      modifies page.blockList`isContent
      modifies page.body.repr`hasCachedContent, page.body.repr`content
      modifies page.blockList`hasAnchorLength, page.blockList`anchorLength,
               page.blockList`hasAnchorRatio, page.blockList`anchorRatio,
               page.blockList`hasTagDensity, page.blockList`tagDensity,
               page.blockList`hasSpaceRatio, page.blockList`spaceRatio
      ensures Ready(page.body, page.blockList) && Measures(page.blockList) == old(Measures(page.blockList))
      ensures Sound(page.blockList)
      ensures ContentSet(page.blockList) == ExpandUpTo(Measures(page.blockList), {}, |page.blockList|, page.docWidth)
    {
      hide Ready, Separate, Measures, NoneBad, AllTied;
      assert ContentSet(page.blockList) == {};
      ghost var bs := Measures(page.blockList);
      ExpansionIsSound(bs, |bs|, page.docWidth);
      ExpandGoodBlock(page);
    }

    /** The page has been cut and its blocks tagged. */
    ghost predicate IsTagged(page: Page, start: bool)
      requires page.body.Shaped()
      reads page`blockList, page`titleBlock, page.blockList`isGood, page.blockList`isBad, page.blockList`isContent,
            page.blockList`prevIsNoise, page.blockList`nextIsNoise
    {
      && page.titleBlock == null
      && Entries(page.blockList) == BlockList.WithStart(PageEntries(page.body), start)
      && forall b <- page.blockList :: !b.isContent && Tagged(page, b)
    }

    /** And one of them, perhaps, was made the title. */
    ghost predicate IsTitled(page: Page, titleAt: int, start: bool)
      requires page.body.Shaped()
      reads page`blockList, page.blockList`isGood, page.blockList`isBad, page.blockList`isContent,
            page.blockList`prevIsNoise, page.blockList`nextIsNoise
    {
      var es := PageEntries(page.body);
      && Entries(page.blockList) == BlockList.WithStart(es, start)
      && |page.blockList| == |es|
      && forall i :: 0 <= i < |page.blockList| ==>
           var t := TaggedEntry(es[i], page.docWidth, page.docHeight, i == titleAt);
           page.blockList[i].isGood == t.good && page.blockList[i].isBad == t.bad && !page.blockList[i].isContent
    }

    /** The content of the page is known: it is sound, the title is not part of it, and no earlier page shows in it. */
    ghost predicate IsGrown(page: Page, titleAt: int)
      requires page.body.Shaped()
      reads page`blockList, page.blockList`isGood, page.blockList`isBad, page.blockList`isContent,
            page.blockList`prevIsNoise, page.blockList`nextIsNoise
    {
      && Sound(page.blockList)
      && (0 <= titleAt < |page.blockList| ==> !page.blockList[titleAt].isContent)
      && Parts(page.blockList) == PageParts(page.body, page.docWidth, page.docHeight, titleAt)
    }

    /** Cutting and tagging. */
    method PrepareBlocks(page: Page) returns (ghost start: bool)
      requires page.body.Shaped() && page.blockList == [] && page.titleBlock == null
      modifies `prevIsNoise, page`blockList, page.body.repr
      ensures Covers(page) && Ready(page.body, page.blockList) && Separate(page.blockList)
      ensures forall i :: 0 <= i < |page.blockList| ==> fresh(page.blockList[i])
      ensures IsTagged(page, start)
    {
      hide Node.Shaped, Node.CacheHolds, Covers, Ready, Separate, Tagged, Entries, PageEntries, BlockList.WithStart;
      page.body.BuildVdomTree(null, 0);
      page.body.BuiltCaches();
      page.body.BuildRepeatSig();
      start := ExtractBlocks(page);
      SelectGoodBlock(page);
    }

    method ChooseTitle(page: Page, titleAt: int, ghost start: bool)
      requires page.body.Shaped() && Separate(page.blockList) && IsTagged(page, start)
      modifies page`titleBlock, page.blockList`isGood, page.blockList`isBad
      ensures IsTitled(page, titleAt, start)
    {
      hide Node.Shaped, Tagged, Entries, PageEntries, BlockList.WithStart, TaggedEntry;
      TagsOfEntries(page, start);
      ghost var es := PageEntries(page.body);
      forall i | 0 <= i < |es|
        ensures var t, u := TaggedEntry(es[i], page.docWidth, page.docHeight, false),
                            TaggedEntry(es[i], page.docWidth, page.docHeight, true);
                !u.good && u.bad && !(t.good && t.bad)
      {
        TitleTags(es[i], page.docWidth, page.docHeight);
      }
      MarkTitle(page, if 0 <= titleAt < |page.blockList| then page.blockList[titleAt] else null);
    }

    lemma TitleTags(e: BlockList.Entry, docWidth: int, docHeight: int)
      ensures var t, u := TaggedEntry(e, docWidth, docHeight, false), TaggedEntry(e, docWidth, docHeight, true);
              !u.good && u.bad && !(t.good && t.bad)
    {
      hide LooksGood, LooksBad;
    }

    /** Growing the content from the good blocks that are left. */
    method GrowPage(page: Page, titleAt: int, ghost start: bool)
      requires page.body.Shaped() && Ready(page.body, page.blockList) && Separate(page.blockList)
      requires IsTitled(page, titleAt, start)
      modifies page.blockList`isContent
      modifies page.body.repr`hasCachedContent, page.body.repr`content
      modifies page.blockList`hasAnchorLength, page.blockList`anchorLength,
               page.blockList`hasAnchorRatio, page.blockList`anchorRatio,
               page.blockList`hasTagDensity, page.blockList`tagDensity,
               page.blockList`hasSpaceRatio, page.blockList`spaceRatio
      ensures Ready(page.body, page.blockList) && IsGrown(page, titleAt)
    {
      hide Node.Shaped, Ready, Separate, Sound, Parts, PageParts, PageEntries, Entries, BlockList.WithStart, Measures,
        ContentSet, LooksGood, LooksBad, ExpandUpTo;
      GrowContent(page);
      PartsOfPage(page, titleAt, start);
      if 0 <= titleAt < |page.blockList| {
        BadIsNotContent(page.blockList, titleAt);
      }
    }

    /** Growing and merging. */
    method FinishPage(page: Page, titleAt: int, isList: bool, ghost start: bool)
      requires page.body.Shaped() && Ready(page.body, page.blockList) && Separate(page.blockList)
      requires IsTitled(page, titleAt, start)
      modifies page`content, page.blockList`isContent
      modifies page.body.repr`hasCachedContent, page.body.repr`content
      modifies page.blockList`hasAnchorLength, page.blockList`anchorLength,
               page.blockList`hasAnchorRatio, page.blockList`anchorRatio,
               page.blockList`hasTagDensity, page.blockList`tagDensity,
               page.blockList`hasSpaceRatio, page.blockList`spaceRatio
      ensures IsGrown(page, titleAt)
      ensures page.content ==
              ContentMerge.Merged(PageParts(page.body, page.docWidth, page.docHeight, titleAt), isList)
    {
      hide Node.Shaped, Ready, Separate, Parts, IsTitled, IsGrown, PageParts, ContentMerge.Merged;
      GrowPage(page, titleAt, start);
      GrownParts(page, titleAt);
      MergeContentBlock(page, isList);
    }

    /**
     * A page from start to end: its blocks cover it, its content is sound, the title is not part
     * of it, and the merged text would be the same whatever the bad blocks said, and whatever page
     * was extracted before.
     */
    method Extract(page: Page, titleAt: int, isList: bool)
      requires page.body.Shaped() && page.blockList == [] && page.titleBlock == null
      modifies `prevIsNoise, page, page.body.repr
      ensures Covers(page) && IsGrown(page, titleAt)
      ensures page.content ==
              ContentMerge.Merged(PageParts(page.body, page.docWidth, page.docHeight, titleAt), isList)
      ensures forall qs :: ContentMerge.SameButBad(Parts(page.blockList), qs) ==>
                ContentMerge.Merged(qs, isList) == page.content
    {
      hide Node.Shaped, Covers, Ready, Separate, Parts, IsTagged, IsTitled, IsGrown, PageParts,
        ContentMerge.Merged, ContentMerge.SameButBad;
      ghost var start := PrepareBlocks(page);
      ChooseTitle(page, titleAt, start);
      FinishPage(page, titleAt, isList, start);
      GrownParts(page, titleAt);
      NoBadBlockShows(page.blockList, isList);
    }

    lemma GrownParts(page: Page, titleAt: int)
      requires page.body.Shaped() && IsGrown(page, titleAt)
      ensures Parts(page.blockList) == PageParts(page.body, page.docWidth, page.docHeight, titleAt)
    {
    }

    /** Before the title is chosen the blocks are tagged by what they look like. */
    lemma TagsOfEntries(page: Page, start: bool)
      requires page.body.Shaped() && IsTagged(page, start)
      ensures |page.blockList| == |PageEntries(page.body)|
      ensures forall b <- page.blockList :: !(b.isGood && b.isBad)
      ensures forall i :: 0 <= i < |page.blockList| ==>
                var t := TaggedEntry(PageEntries(page.body)[i], page.docWidth, page.docHeight, false);
                page.blockList[i].isGood == t.good && page.blockList[i].isBad == t.bad
    {
      hide Node.Shaped, PageEntries, LooksGood, LooksBad, Content, AnchorRatio, SpaceRatio, TagDensity;
      var es := PageEntries(page.body);
      forall i | 0 <= i < |page.blockList|
        ensures var t := TaggedEntry(es[i], page.docWidth, page.docHeight, false);
                page.blockList[i].isGood == t.good && page.blockList[i].isBad == t.bad
      {
        var b := page.blockList[i];
        assert Tagged(page, b);
        assert Entries(page.blockList)[i] == BlockList.Entry(b.node, b.prevIsNoise, b.nextIsNoise);
        LooksIgnoreFlags(Measured(es[i], false, false), b.isGood, b.isBad, b.prevIsNoise, Content(b.node.tree),
                         page.docWidth, page.docHeight, MIN_Y);
      }
    }

    /** The flag left by an earlier page is in the first block only, and growing does not look at it. */
    lemma PartsOfPage(page: Page, titleAt: int, start: bool)
      requires page.body.Shaped()
      requires Entries(page.blockList) == BlockList.WithStart(PageEntries(page.body), start)
      requires |page.blockList| == |PageEntries(page.body)|
      requires forall i :: 0 <= i < |page.blockList| ==>
                 var t := TaggedEntry(PageEntries(page.body)[i], page.docWidth, page.docHeight, i == titleAt);
                 page.blockList[i].isGood == t.good && page.blockList[i].isBad == t.bad
      requires ContentSet(page.blockList) == ExpandUpTo(Measures(page.blockList), {}, |page.blockList|, page.docWidth)
      ensures Parts(page.blockList) == PageParts(page.body, page.docWidth, page.docHeight, titleAt)
    {
      hide Node.Shaped, PageEntries, PageBlocks, TaggedEntry, Measures, PartFor, BlockList.WithStart,
        ExpandUpTo, Started;
      var bs := PageBlocks(page.body, page.docWidth, page.docHeight, titleAt);
      MeasuresOfPage(page, titleAt, start);
      ExpansionIgnoresStart(bs, start, {}, |bs|, page.docWidth);
      forall i | 0 <= i < |bs|
        ensures Parts(page.blockList)[i] == PartOf(page.blockList[i])
        ensures i in ContentSet(page.blockList) <==> page.blockList[i].isContent
      {
      }
    }

    lemma MeasuresOfPage(page: Page, titleAt: int, start: bool)
      requires page.body.Shaped()
      requires Entries(page.blockList) == BlockList.WithStart(PageEntries(page.body), start)
      requires |page.blockList| == |PageEntries(page.body)|
      requires forall i :: 0 <= i < |page.blockList| ==>
                 var t := TaggedEntry(PageEntries(page.body)[i], page.docWidth, page.docHeight, i == titleAt);
                 page.blockList[i].isGood == t.good && page.blockList[i].isBad == t.bad
      ensures var bs := PageBlocks(page.body, page.docWidth, page.docHeight, titleAt);
              && |bs| == |page.blockList| && Measures(page.blockList) == Started(bs, start)
              && forall i :: 0 <= i < |bs| ==>
                   page.blockList[i].node == PageEntries(page.body)[i].node && page.blockList[i].isBad == bs[i].bad
    {
      hide Node.Shaped, PageEntries, LooksGood, LooksBad, Content, AnchorRatio, SpaceRatio, TagDensity;
      var bs := PageBlocks(page.body, page.docWidth, page.docHeight, titleAt);
      forall i | 0 <= i < |bs|
        ensures Measures(page.blockList)[i] == Started(bs, start)[i]
        ensures page.blockList[i].node == PageEntries(page.body)[i].node
      {
        var b := page.blockList[i];
        assert Entries(page.blockList)[i] == BlockList.Entry(b.node, b.prevIsNoise, b.nextIsNoise);
      }
    }

    lemma NoBadBlockShows(list: seq<TextBlock>, isList: bool)
      ensures forall qs :: ContentMerge.SameButBad(Parts(list), qs) ==>
                ContentMerge.Merged(qs, isList) == ContentMerge.Merged(Parts(list), isList)
    {
      forall qs | ContentMerge.SameButBad(Parts(list), qs)
        ensures ContentMerge.Merged(qs, isList) == ContentMerge.Merged(Parts(list), isList)
      {
        ContentMerge.BadBlocksDoNotShow(Parts(list), qs, isList);
      }
    }

    lemma BadIsNotContent(list: seq<TextBlock>, i: nat)
      requires i < |list| && list[i].isBad && Sound(list)
      ensures !list[i].isContent
    {
      assert Measures(list)[i].bad;
      assert i !in ContentSet(list);
    }
  }
}
