/**
 * What the measures of a block decide: the tests of the tagging and of the walks in plain numbers,
 * on pages whose coordinates fit an int, and how their outcome changes with each measure.
 */
module BlockLaws {
  import opened VdomNode
  import opened BlockExpansion
  import opened ContentExtractor

  // ---- geometry ----

  /** A difference of two unsigned coordinates comes back through an int as their distance. */
  lemma MagnitudeIsDistance(a: int, b: int)
    requires -0x8000_0000 < a - b < 0x8000_0000
    ensures Magnitude(a - b) == if a < b then b - a else a - b
  {
  }

  /** Every edge of the block fits an int. */
  predicate OnPage(b: Block) {
    b.x + b.w < 0x8000_0000 && b.y + b.h < 0x8000_0000
  }

  lemma AsIntOf(i: int)
    requires -0x8000_0000 <= i < 0x8000_0000
    ensures AsInt(i) == i
  {
  }

  // ---- the tests of a walk ----

  /** No block is counted both as a spacer and as a text. */
  lemma SpacerOrTextual(b: Block)
    ensures !(Spacer(b) && Textual(b))
    ensures b.w == 0 && b.h > 0 && b.space != 90 ==> Spacer(b) || Textual(b)
    ensures b.w > 0 ==> !Spacer(b)
    ensures b.h == 0 ==> !Textual(b)
  {
  }

  lemma CloseOnPage(b: Block, from: Block)
    requires OnPage(b) && OnPage(from)
    ensures Close(b, from) <==> -400 < b.y - from.y < 400
    ensures Close(b, from) == Close(from, b)
  {
    MagnitudeIsDistance(b.y, from.y);
    MagnitudeIsDistance(from.y, b.y);
  }

  /** The gap below a block of this height, above it when negative. */
  function Gap(b: Block, from: Block, height: uint32): int {
    b.y - (from.y + height)
  }

  lemma FitsOnPage(b: Block, from: Block, height: uint32, docWidth: int)
    requires OnPage(b) && OnPage(from) && -0x8000_0000 < Gap(b, from, height)
    ensures Fits(b, from, height, docWidth) <==>
            && -200 < Gap(b, from, height) < 200 && 100 * (b.x + b.w) > 11 * docWidth
            && b.size >= 21 && b.anchor <= 49 && b.space <= 49 && 5.0 * b.density < 1.0
  {
    MagnitudeIsDistance(b.y, from.y + height);
    RealOrder(b.x + b.w, docWidth);
  }

  lemma RealOrder(edge: int, docWidth: int)
    ensures edge as real > 0.11 * docWidth as real <==> 100 * edge > 11 * docWidth
    ensures edge as real > 0.3 * docWidth as real <==> 10 * edge > 3 * docWidth
    ensures edge as real < 0.6 * docWidth as real <==> 10 * edge < 6 * docWidth
  {
    assert (100 * edge) as real == 100.0 * edge as real && (11 * docWidth) as real == 11.0 * docWidth as real;
    assert (10 * edge) as real == 10.0 * edge as real && (3 * docWidth) as real == 3.0 * docWidth as real;
    assert (6 * docWidth) as real == 6.0 * docWidth as real;
  }

  /** `better` has no less text, no more links, tags or blanks than `b`. */
  predicate ReadsBetter(better: Block, b: Block) {
    better.size >= b.size && better.anchor <= b.anchor && better.space <= b.space && better.density <= b.density
  }

  /** What fits still fits with more text, fewer links, nearer, and farther to the right. */
  lemma FitsIsMonotone(b: Block, better: Block, from: Block, height: uint32, docWidth: int)
    requires OnPage(b) && OnPage(better) && OnPage(from)
    requires -0x8000_0000 < Gap(b, from, height) && -0x8000_0000 < Gap(better, from, height)
    requires ReadsBetter(better, b) && better.x + better.w >= b.x + b.w
    requires Magnitude(Gap(better, from, height)) <= Magnitude(Gap(b, from, height))
    requires Fits(b, from, height, docWidth)
    ensures Fits(better, from, height, docWidth)
  {
    hide Fits;
    FitsOnPage(b, from, height, docWidth);
    FitsOnPage(better, from, height, docWidth);
    MagnitudeIsDistance(b.y, from.y + height);
    MagnitudeIsDistance(better.y, from.y + height);
  }

  // ---- the tests of the tagging ----

  /** The lower limit of good blocks: 84 percent of the page, or all but its last 200 pixels. */
  lemma LowerLimit(y: int, docHeight: nat)
    ensures var maxY := ContentConfidence.Truncated(0.84 * docHeight as real);
            y < (if maxY < docHeight - 200 then docHeight - 200 else maxY)
            <==> y < docHeight - 200 || 100 * (y + 1) <= 84 * docHeight
  {
    var r := 0.84 * docHeight as real;
    assert (100 * (y + 1)) as real == 100.0 * (y + 1) as real && (84 * docHeight) as real == 84.0 * docHeight as real;
    assert y < r.Floor <==> (y + 1) as real <= r;
  }

  lemma GoodOnPage(e: Extractor, b: Block, content: string, docWidth: int, docHeight: nat, minY: int)
    requires OnPage(b)
    ensures e.LooksGood(b, content, docWidth, docHeight, minY) <==>
            && 10 * (b.x + b.w) > 3 * docWidth && 10 * b.x < 6 * docWidth
            && minY < b.y && (b.y < docHeight - 200 || 100 * (b.y + 1) <= 84 * docHeight)
            && b.size >= 36 && b.anchor <= 19 && b.space <= 49 && 5.0 * b.density < 2.0
            && (b.w >= 301 || (b.x >= 101 && b.w >= 201) || e.containGoodPunct(content))
  {
    hide ContentConfidence.Truncated, AsInt, Unsigned;
    AsIntOf(b.x + b.w);
    AsIntOf(b.x);
    AsIntOf(b.y);
    AsIntOf(b.w);
    RealOrder(b.x + b.w, docWidth);
    RealOrder(b.x, docWidth);
    LowerLimit(b.y, docHeight);
  }

  /** In the same place, a good block stays good with more text and fewer links. */
  lemma GoodIsMonotone(e: Extractor, b: Block, better: Block, content: string, docWidth: int, docHeight: nat, minY: int)
    requires OnPage(b) && ReadsBetter(better, b)
    requires better.x == b.x && better.y == b.y && better.w == b.w && better.h == b.h
    requires e.LooksGood(b, content, docWidth, docHeight, minY)
    ensures e.LooksGood(better, content, docWidth, docHeight, minY)
  {
    hide Extractor.LooksGood;
    GoodOnPage(e, b, content, docWidth, docHeight, minY);
    GoodOnPage(e, better, content, docWidth, docHeight, minY);
  }

  /** Only short blocks with a noise word are bad, and a shorter one is no better. */
  lemma BadOnPage(e: Extractor, b: Block, smaller: Block, content: string, less: string)
    requires OnPage(b) && smaller.h <= b.h
    requires |e.normalized(less)| <= |e.normalized(content)|
    ensures e.LooksBad(b, content) <==>
            b.h <= 199 && |e.normalized(content)| <= 199 && e.containNoiseContent(content)
    ensures e.LooksBad(b, content) && e.containNoiseContent(less) ==> e.LooksBad(smaller, less)
  {
  }

  /** A good block near enough, and with few enough tags, fits a walk: the walks ask for less. */
  lemma GoodTextFitsWalks(e: Extractor, b: Block, from: Block, height: uint32, content: string,
                          docWidth: nat, docHeight: nat, minY: int)
    requires OnPage(b) && OnPage(from) && -200 < Gap(b, from, height) < 200 && b.density < 0.2
    requires e.LooksGood(b, content, docWidth, docHeight, minY)
    ensures Fits(b, from, height, docWidth)
  {
    hide Extractor.LooksGood, Fits;
    GoodOnPage(e, b, content, docWidth, docHeight, minY);
    FitsOnPage(b, from, height, docWidth);
  }
}
