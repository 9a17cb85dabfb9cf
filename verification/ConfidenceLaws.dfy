/**
 * What the content confidence depends on: the runs of content counted by their blocks, and the
 * bonus by how it grows.
 */
module ConfidenceLaws {
  import opened ContentConfidence

  // ---------- Counting ----------

  predicate IsContent(bs: seq<Block>, i: nat) {
    i < |bs| && bs[i].content
  }

  predicate IsGoodContent(bs: seq<Block>, i: nat) {
    i < |bs| && bs[i].content && bs[i].good
  }

  /** A run of content begins here: after another block, or with the page. */
  predicate Starts(bs: seq<Block>, i: nat) {
    i < |bs| && bs[i].content && (i == 0 || !bs[i - 1].content)
  }

  lemma OneMore(all: set<nat>, before: set<nat>, k: nat, counts: bool)
    requires k !in before && all == before + if counts then {k} else {}
    ensures |all| == |before| + if counts then 1 else 0
  {
  }

  lemma {:induction false} ContentsIsTheirNumber(bs: seq<Block>, n: nat)
    requires n <= |bs|
    ensures Contents(bs, n) == |set i: nat | i < n && IsContent(bs, i)|
  {
    if n > 0 {
      var k: nat := n - 1;
      ContentsIsTheirNumber(bs, k);
      OneMore((set i: nat | i < n && IsContent(bs, i)), (set i: nat | i < k && IsContent(bs, i)), k,
              IsContent(bs, k));
    }
  }

  lemma {:induction false} GoodsIsTheirNumber(bs: seq<Block>, n: nat)
    requires n <= |bs|
    ensures Goods(bs, n) == |set i: nat | i < n && IsGoodContent(bs, i)|
  {
    if n > 0 {
      var k: nat := n - 1;
      GoodsIsTheirNumber(bs, k);
      OneMore((set i: nat | i < n && IsGoodContent(bs, i)), (set i: nat | i < k && IsGoodContent(bs, i)), k,
              IsGoodContent(bs, k));
    }
  }

  lemma {:induction false} RunsIsTheirNumber(bs: seq<Block>, n: nat)
    requires n <= |bs|
    ensures Runs(bs, n) == |set i: nat | i < n && Starts(bs, i)|
  {
    if n > 0 {
      var k: nat := n - 1;
      RunsIsTheirNumber(bs, k);
      OneMore((set i: nat | i < n && Starts(bs, i)), (set i: nat | i < k && Starts(bs, i)), k,
              Starts(bs, k));
    }
  }

  /** The text in content blocks, from the first block on. */
  function ContentSize(bs: seq<Block>): nat {
    if bs == [] then 0 else (if bs[0].content then bs[0].size else 0) + ContentSize(bs[1..])
  }

  lemma {:induction false} TotalIsContentSizeFrom(bs: seq<Block>, n: nat)
    requires n <= |bs|
    ensures Total(bs, |bs|) == Total(bs, n) + ContentSize(bs[n..])
    decreases |bs| - n
  {
    if n < |bs| {
      TotalIsContentSizeFrom(bs, n + 1);
      assert bs[n..][1..] == bs[n + 1..];
    }
  }

  lemma TotalIsContentSize(bs: seq<Block>)
    ensures Total(bs, |bs|) == ContentSize(bs)
  {
    TotalIsContentSizeFrom(bs, 0);
    assert bs[0..] == bs;
  }

  /** The longest run is some run's size, and no run is longer. */
  lemma {:induction false} MaxRunIsTheLargest(bs: seq<Block>, n: nat, k: nat) returns (at: nat)
    requires k <= n <= |bs|
    ensures RunSize(bs, k) <= MaxRun(bs, n)
    ensures at <= n && MaxRun(bs, n) == RunSize(bs, at)
  {
    at := n;
    if n > 0 {
      at := MaxRunIsTheLargest(bs, n - 1, if k < n then k else 0);
      if MaxRun(bs, n - 1) < RunSize(bs, n) {
        at := n;
      }
    }
  }

  // ---------- The bonus ----------

  lemma TruncatedGrows(r: real, s: real)
    requires r <= s
    ensures Truncated(r) <= Truncated(s)
  {
  }

  lemma RatioGrows(part: nat, whole: nat, part': nat, whole': nat)
    requires whole > 0 && whole' > 0 && part * whole' <= part' * whole
    ensures part as real / whole as real <= part' as real / whole' as real
  {
    var q, r := part as real / whole as real, part' as real / whole' as real;
    var w := whole as real * whole' as real;
    assert (part * whole') as real == part as real * whole' as real;
    assert (part' * whole) as real == part' as real * whole as real;
    Scaled(part as real, whole as real, whole' as real);
    Scaled(part' as real, whole' as real, whole as real);
    assert whole' as real * whole as real == w;
    assert (r - q) * w == r * w - q * w;
    NotNegative(r - q, w);
  }

  lemma Scaled(a: real, b: real, c: real)
    requires b > 0.0
    ensures (a / b) * (b * c) == a * c
  {
    var q := a / b;
    assert q * b == a;
    assert q * (b * c) == (q * b) * c;
  }

  lemma NotNegative(x: real, w: real)
    requires w > 0.0 && x * w >= 0.0
    ensures x >= 0.0
  {
  }

  lemma SumGrows(ratio: real, ratio': real, average: nat, average': nat, longest: nat, longest': nat)
    requires ratio <= ratio' && average <= average' && longest <= longest'
    ensures 10.0 * AtMostOne((ratio - 0.1) / 0.3) + 20.0 * AtMostOne((average - 50) as real / 250.0)
            + 20.0 * ((longest - 100) as real / 400.0)
         <= 10.0 * AtMostOne((ratio' - 0.1) / 0.3) + 20.0 * AtMostOne((average' - 50) as real / 250.0)
            + 20.0 * ((longest' - 100) as real / 400.0)
  {
    assert (ratio - 0.1) / 0.3 <= (ratio' - 0.1) / 0.3;
    assert (average - 50) as real / 250.0 <= (average' - 50) as real / 250.0;
    assert (longest - 100) as real / 400.0 <= (longest' - 100) as real / 400.0;
  }

  /** A larger share of good blocks, a larger average run or a longer run never lowers the bonus. */
  lemma BonusGrows(longest: nat, total: nat, runs: nat, goods: nat, contents: nat,
                   longest': nat, total': nat, runs': nat, goods': nat, contents': nat)
    requires runs > 0 && contents > 0 && goods <= contents
    requires runs' > 0 && contents' > 0 && goods' <= contents'
    requires longest <= longest' && total <= total' && total / runs <= total' / runs'
    requires goods * contents' <= goods' * contents
    ensures Bonus(longest, total, runs, goods, contents) <= Bonus(longest', total', runs', goods', contents')
  {
    hide AtMostOne, Truncated;
    if longest' <= GOOD_RUN && total' <= GOOD_TOTAL {
      var ratio, ratio' := goods as real / contents as real, goods' as real / contents' as real;
      RatioGrows(goods, contents, goods', contents');
      SumGrows(ratio, ratio', total / runs, total' / runs', longest, longest');
      TruncatedGrows(10.0 * AtMostOne((ratio - 0.1) / 0.3) + 20.0 * AtMostOne((total / runs - 50) as real / 250.0)
                     + 20.0 * ((longest - 100) as real / 400.0),
                     10.0 * AtMostOne((ratio' - 0.1) / 0.3) + 20.0 * AtMostOne((total' / runs' - 50) as real / 250.0)
                     + 20.0 * ((longest' - 100) as real / 400.0));
    }
  }

  lemma Tenths(n: nat, k: nat)
    requires n > 0
    ensures (k * n) as real / (10 * n) as real == k as real / 10.0
  {
    Scaled(k as real, 10.0, n as real);
    var q := (k * n) as real / (10 * n) as real;
    assert (k * n) as real == k as real * n as real && (10 * n) as real == 10.0 * n as real;
    assert q * (10.0 * n as real) == k as real * n as real;
    var r := k as real / 10.0;
    assert (q - r) * (10.0 * n as real) == q * (10.0 * n as real) - r * (10.0 * n as real);
  }

  /**
   The bonus with a tenth of the blocks good, an average run of 50 and a longest run of 100 is
   nothing; four tenths add 10, an average of 300 adds 20, a run of 500 adds 20; and with nothing
   good and next to no text it is -12.
   */
  lemma BonusAtFixedPoints(runs: nat, n: nat)
    requires 0 < runs <= 20 && n > 0
    ensures Bonus(100, 50 * runs, runs, n, 10 * n) == 0
    ensures Bonus(100, 50 * runs, runs, 4 * n, 10 * n) == 10
    ensures Bonus(100, 300 * runs, runs, n, 10 * n) == 20
    ensures Bonus(500, 50 * runs, runs, n, 10 * n) == 20
    ensures Bonus(500, 300 * runs, runs, 4 * n, 10 * n) == 50
    ensures Bonus(0, 0, runs, 0, 10 * n) == -12
  {
    hide Bonus;
    AtFixedPoint(100, 50, runs, 1, n);
    AtFixedPoint(100, 50, runs, 4, n);
    AtFixedPoint(100, 300, runs, 1, n);
    AtFixedPoint(500, 50, runs, 1, n);
    AtFixedPoint(500, 300, runs, 4, n);
    AtFixedPoint(0, 0, runs, 0, n);
  }

  lemma AverageOf(average: nat, runs: nat)
    requires 0 < runs <= 20 && average <= 300
    ensures average * runs / runs == average && average * runs <= 6000
  {
  }

  lemma AtFixedPoint(longest: nat, average: nat, runs: nat, tenths: nat, n: nat)
    requires 0 < runs <= 20 && n > 0 && longest <= 500 && average <= 300 && tenths <= 10
    ensures Bonus(longest, average * runs, runs, tenths * n, 10 * n) ==
            Truncated(10.0 * AtMostOne((tenths as real / 10.0 - 0.1) / 0.3)
                      + 20.0 * AtMostOne((average - 50) as real / 250.0)
                      + 20.0 * ((longest - 100) as real / 400.0))
  {
    hide AtMostOne, Truncated;
    Tenths(n, tenths);
    AverageOf(average, runs);
    assert tenths * n <= 10 * n;
  }
}
