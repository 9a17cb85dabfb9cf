/**
 * How sure the extractor is of the content it found (Extractor::compute_content_confidence in
 * qcontentextractor/vdom_content_extractor.cpp), from the runs of neighbouring content blocks.
 * Rounding is left out: the ratios are exact.
 */
module ContentConfidence {
  /** What counts of a block: is it content, is it good, how long is its text, where does it start. */
  datatype Block = Block(content: bool, good: bool, size: nat, y: nat)

  const TWO_SCREENS := 2 * 843
  const GOOD_RUN := 500
  const GOOD_TOTAL := 6000

  function Total(bs: seq<Block>, n: nat): nat
    requires n <= |bs|
  {
    if n == 0 then 0 else Total(bs, n - 1) + if bs[n - 1].content then bs[n - 1].size else 0
  }

  function Contents(bs: seq<Block>, n: nat): nat
    requires n <= |bs|
  {
    if n == 0 then 0 else Contents(bs, n - 1) + if bs[n - 1].content then 1 else 0
  }

  function Goods(bs: seq<Block>, n: nat): (g: nat)
    requires n <= |bs|
    ensures g <= Contents(bs, n)
  {
    if n == 0 then 0 else Goods(bs, n - 1) + if bs[n - 1].content && bs[n - 1].good then 1 else 0
  }

  /** Where the run of content that ends before n starts; n itself when there is none. */
  function RunStart(bs: seq<Block>, n: nat): (s: nat)
    requires n <= |bs|
    ensures s <= n
    ensures forall i :: s <= i < n ==> bs[i].content
    ensures s > 0 ==> !bs[s - 1].content
  {
    if n == 0 || !bs[n - 1].content then n else RunStart(bs, n - 1)
  }

  /** The runs that end before n; the last one may still go on. */
  function Runs(bs: seq<Block>, n: nat): nat
    requires n <= |bs|
  {
    if n == 0 then 0 else
      Runs(bs, n - 1) + if bs[n - 1].content && (n == 1 || !bs[n - 2].content) then 1 else 0
  }

  /** The text of the run that ends before n, if the run starts on the first two screens. */
  function RunSize(bs: seq<Block>, n: nat): nat
    requires n <= |bs|
  {
    if n == 0 || !bs[n - 1].content || bs[RunStart(bs, n)].y >= TWO_SCREENS then 0
    else RunSize(bs, n - 1) + bs[n - 1].size
  }

  /** A run's size is the growth of the total over it. */
  lemma {:induction false} RunSizeIsItsText(bs: seq<Block>, n: nat)
    requires n <= |bs|
    ensures var s := RunStart(bs, n);
            RunSize(bs, n) == if s < n && bs[s].y < TWO_SCREENS then Total(bs, n) - Total(bs, s) else 0
  {
    if n > 0 && bs[n - 1].content {
      RunSizeIsItsText(bs, n - 1);
    }
  }

  function Max(a: nat, b: nat): nat {
    if a < b then b else a
  }

  function MaxRun(bs: seq<Block>, n: nat): nat
    requires n <= |bs|
  {
    if n == 0 then 0 else Max(MaxRun(bs, n - 1), RunSize(bs, n))
  }

  /** There is a run as soon as there is a content block. */
  lemma {:induction false} ContentRuns(bs: seq<Block>, n: nat)
    requires n <= |bs|
    ensures Runs(bs, n) <= Contents(bs, n)
    ensures Contents(bs, n) > 0 ==> Runs(bs, n) > 0
  {
    if n > 0 {
      ContentRuns(bs, n - 1);
      if n > 1 {
        assert bs[n - 2].content ==> Contents(bs, n - 1) > 0;
      }
    }
  }

  /** The real truncated toward zero, as a cast to int does it. */
  function Truncated(r: real): int {
    if r >= 0.0 then r.Floor else -((-r).Floor)
  }

  function AtMostOne(r: real): real {
    if r > 1.0 then 1.0 else r
  }

  method ComputeContentConfidence(bs: seq<Block>, isList: bool) returns (confidence: int)
    ensures confidence == 50 + if isList || Contents(bs, |bs|) == 0 then 0 else
              (ContentRuns(bs, |bs|);
               Bonus(MaxRun(bs, |bs|), Total(bs, |bs|), Runs(bs, |bs|), Goods(bs, |bs|), Contents(bs, |bs|)))
    ensures 38 <= confidence <= 100
    ensures !isList && Contents(bs, |bs|) > 0 && (Total(bs, |bs|) > GOOD_TOTAL || MaxRun(bs, |bs|) > GOOD_RUN) ==>
              confidence == 100
  {
    ContentRuns(bs, |bs|);
    var bonus := 0;
    if !isList {
      var longest, sum, total, runs, goods, contents, startY := 0, 0, 0, 0, 0, 0, 0;
      var prevIsContent := false;
      for it := 0 to |bs|
        invariant prevIsContent == (it > 0 && bs[it - 1].content)
        invariant total == Total(bs, it) && contents == Contents(bs, it) && goods == Goods(bs, it)
        invariant runs + (if prevIsContent then 1 else 0) == Runs(bs, it)
        invariant sum == RunSize(bs, it)
        invariant prevIsContent ==> startY == bs[RunStart(bs, it)].y
        invariant longest >= 0 && MaxRun(bs, it) == Max(longest, sum)
      {
        if !bs[it].content {
          if prevIsContent {
            runs := runs + 1;
            if longest < sum {
              longest := sum;
            }
          }
          sum := 0;
          prevIsContent := false;
        } else {
          contents := contents + 1;
          if !prevIsContent {
            startY := bs[it].y;
          }
          total := total + bs[it].size;
          if startY < TWO_SCREENS {
            sum := sum + bs[it].size;
          }
          if bs[it].good {
            goods := goods + 1;
          }
          prevIsContent := true;
        }
      }
      if prevIsContent {
        runs := runs + 1;
        if longest < sum {
          longest := sum;
        }
      }
      if contents != 0 && runs != 0 {
        bonus := Bonus(longest, total, runs, goods, contents);
      }
    }
    confidence := 50 + bonus;
  }

  function Bonus(longest: nat, total: nat, runs: nat, goods: nat, contents: nat): (b: int)
    requires runs > 0 && contents > 0 && goods <= contents
    ensures -12 <= b <= 50
    ensures longest > GOOD_RUN || total > GOOD_TOTAL ==> b == 50
  {
    if longest > GOOD_RUN || total > GOOD_TOTAL then 50 else
      RatioWithinOne(goods, contents);
      var blockRatio := AtMostOne((goods as real / contents as real - 0.1) / 0.3);
      var average := AtMostOne((total / runs - 50) as real / 250.0);
      var screens := (longest - 100) as real / 400.0;
      BonusRange(goods as real / contents as real, total / runs, longest);
      Truncated(10.0 * blockRatio + 20.0 * average + 20.0 * screens)
  }

  lemma RatioWithinOne(part: nat, whole: nat)
    requires part <= whole && whole > 0
    ensures 0.0 <= part as real / whole as real <= 1.0
  {
    var q := part as real / whole as real;
    assert q * whole as real == part as real;
    assert 0.0 <= q <= 1.0;
  }

  lemma BonusRange(ratio: real, average: nat, longest: nat)
    requires 0.0 <= ratio <= 1.0 && longest <= GOOD_RUN
    ensures -13.0 < 10.0 * AtMostOne((ratio - 0.1) / 0.3) + 20.0 * AtMostOne((average - 50) as real / 250.0)
                    + 20.0 * ((longest - 100) as real / 400.0) <= 50.0
  {
    var a, b := AtMostOne((ratio - 0.1) / 0.3), AtMostOne((average - 50) as real / 250.0);
    var c := (longest - 100) as real / 400.0;
    assert -0.34 <= a <= 1.0;
    assert -0.2 <= b <= 1.0;
    assert -0.25 <= c <= 1.0;
  }
}
