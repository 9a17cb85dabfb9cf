/**
 * Growing the content of a page from its good blocks (Extractor::expand_good_block in
 * qcontentextractor/vdom_content_extractor.cpp).
 *
 * From every good block the extractor walks away in both directions. `Reach` is what one walk
 * does; `Marked` says outright which blocks it marks. Growing from all good blocks then keeps
 * bad blocks out and leaves every content block tied to a good one.
 */
module BlockExpansion {
  import opened VdomNode

  /** What a walk looks at in a block. */
  datatype Block = Block(x: uint32, y: uint32, w: uint32, h: uint32,
                         size: nat, space: nat, anchor: nat, density: real,
                         good: bool, bad: bool, prevIsNoise: bool, nextIsNoise: bool)

  // ---- geometry ----

  const MOD: int := 0x1_0000_0000

  /** The sum or difference of two unsigned coordinates. */
  function Unsigned(i: int): uint32 {
    i % MOD
  }

  /** An unsigned value taken as an int. */
  function AsInt(i: int): int {
    if Unsigned(i) < MOD / 2 then Unsigned(i) else Unsigned(i) - MOD
  }

  /** abs() of an int; the one value without a positive counterpart stays as it is. */
  function Magnitude(i: int): int {
    if AsInt(i) < 0 && AsInt(i) != -(MOD / 2) then -AsInt(i) else AsInt(i)
  }

  predicate Spacer(b: Block) {
    (b.space > 90 || b.size == 0) && b.w == 0
  }

  predicate Textual(b: Block) {
    b.h > 0 && b.space < 90 && b.size > 0
  }

  predicate Close(b: Block, from: Block) {
    Magnitude(b.y - from.y) < 400
  }

  /** Near enough, given the height of the upper of the two, and text rather than links or layout. */
  predicate Fits(b: Block, from: Block, height: uint32, docWidth: int) {
    && Magnitude(b.y - from.y - height) < 200
    && Unsigned(b.x + b.w) as real > 0.11 * docWidth as real
    && b.size > 20
    && b.anchor < 50 && b.density < 0.2 && b.space < 50
  }

  // ---- one walk ----

  datatype Seen = Seen(spacer: bool, textual: bool, bad: bool, joins: bool, fits: bool, noise: bool)

  function Look(b: Block, from: Block, marked: bool, height: uint32, noise: bool, docWidth: int): Seen {
    Seen(Spacer(b), Textual(b), b.bad, (b.good || marked) && Close(b, from), Fits(b, from, height, docWidth), noise)
  }

  function SeenAhead(bs: seq<Block>, content: set<int>, i: nat, e: nat, docWidth: int): Seen
    requires i < |bs| && e < |bs|
  {
    Look(bs[e], bs[i], e in content, bs[i].h, bs[e].nextIsNoise, docWidth)
  }

  function SeenBehind(bs: seq<Block>, content: set<int>, i: nat, e: nat, docWidth: int): Seen
    requires i < |bs| && e < |bs|
  {
    Look(bs[e], bs[i], e in content, bs[e].h, bs[e].prevIsNoise, docWidth)
  }

  lemma SeenAheadMeans(bs: seq<Block>, content: set<int>, i: nat, e: nat, docWidth: int)
    requires i < |bs| && e < |bs|
    ensures var s, b := SeenAhead(bs, content, i, e, docWidth), bs[e];
            && s.spacer == Spacer(b) && s.textual == Textual(b) && s.bad == b.bad
            && s.joins == ((b.good || e in content) && Close(b, bs[i]))
            && s.fits == Fits(b, bs[i], bs[i].h, docWidth) && s.noise == b.nextIsNoise
  {
  }

  lemma SeenBehindMeans(bs: seq<Block>, content: set<int>, i: nat, e: nat, docWidth: int)
    requires i < |bs| && e < |bs|
    ensures var s, b := SeenBehind(bs, content, i, e, docWidth), bs[e];
            && s.spacer == Spacer(b) && s.textual == Textual(b) && s.bad == b.bad
            && s.joins == ((b.good || e in content) && Close(b, bs[i]))
            && s.fits == Fits(b, bs[i], b.h, docWidth) && s.noise == b.prevIsNoise
  {
  }

  function Ahead(bs: seq<Block>, content: set<int>, i: nat, docWidth: int): seq<Seen>
    requires i < |bs|
  {
    seq(|bs| - i - 1, k requires 0 <= k < |bs| - i - 1 => SeenAhead(bs, content, i, i + 1 + k, docWidth))
  }

  function Behind(bs: seq<Block>, content: set<int>, i: nat, docWidth: int): seq<Seen>
    requires i < |bs|
  {
    seq(i, k requires 0 <= k < i => SeenBehind(bs, content, i, i - 1 - k, docWidth))
  }

  const MAX_SPACERS := 8
  const MAX_TEXTS := 3

  function One(b: bool): nat {
    if b then 1 else 0
  }

  /** Where a walk stands: whether it has stopped, what it has counted, how many blocks it has marked. */
  datatype Walk = Walk(done: bool, spacers: nat, texts: nat, reach: nat)

  /** Looking at block k of the walk. */
  function Turn(s: Seen, k: nat, w: Walk): (v: Walk)
    requires w.reach <= k
    ensures w.reach <= v.reach <= k + 1
  {
    var spacers, texts := w.spacers + One(s.spacer), w.texts + One(s.textual);
    if spacers > MAX_SPACERS || texts > MAX_TEXTS || s.bad then Walk(true, spacers, texts, w.reach)
    else if s.joins then Walk(true, spacers, texts, k)
    else Walk(s.noise, spacers, texts, if s.fits then k + 1 else w.reach)
  }

  /** How many of the blocks seen become content. */
  function ReachFrom(walk: seq<Seen>, k: nat, w: Walk): (r: nat)
    requires w.reach <= k <= |walk|
    ensures w.reach <= r <= |walk|
    decreases |walk| - k
  {
    if k == |walk| || w.done then w.reach else ReachFrom(walk, k + 1, Turn(walk[k], k, w))
  }

  function Reach(walk: seq<Seen>): (r: nat)
    ensures r <= |walk|
  {
    ReachFrom(walk, 0, Walk(false, 0, 0, 0))
  }

  function Spacers(walk: seq<Seen>, k: nat): nat
    requires k <= |walk|
  {
    if k == 0 then 0 else Spacers(walk, k - 1) + One(walk[k - 1].spacer)
  }

  function Texts(walk: seq<Seen>, k: nat): nat
    requires k <= |walk|
  {
    if k == 0 then 0 else Texts(walk, k - 1) + One(walk[k - 1].textual)
  }

  /** The walk may take block k, as far as the counts and the block itself go. */
  predicate Allowed(walk: seq<Seen>, k: nat)
    requires k < |walk|
  {
    Spacers(walk, k + 1) <= MAX_SPACERS && Texts(walk, k + 1) <= MAX_TEXTS && !walk[k].bad
  }

  predicate Passes(walk: seq<Seen>, k: nat)
    requires k < |walk|
  {
    Allowed(walk, k) && !walk[k].joins && !walk[k].noise
  }

  /** The walk gets to look at block k: nothing before it stops the walk. */
  predicate Arrives(walk: seq<Seen>, k: nat)
    requires k <= |walk|
  {
    forall m :: 0 <= m < k ==> Passes(walk, m)
  }

  /** Block n becomes content: the walk arrives at a block that fits, at n or after it, or at one it joins after n. */
  predicate Marked(walk: seq<Seen>, n: nat) {
    exists k :: 0 <= k < |walk| && Extends(walk, n, k)
  }

  predicate Extends(walk: seq<Seen>, n: nat, k: nat)
    requires k < |walk|
  {
    Arrives(walk, k) && Allowed(walk, k) && if walk[k].joins then n < k else walk[k].fits && n <= k
  }

  /** What a walk marks, said outright. */
  lemma ReachIsMarked(walk: seq<Seen>, n: nat)
    ensures n < Reach(walk) <==> Marked(walk, n)
  {
    ReachFromIsMarked(walk, 0, 0, n);
  }

  lemma {:induction false} ReachFromIsMarked(walk: seq<Seen>, k: nat, reach: nat, n: nat)
    requires reach <= k <= |walk| && Arrives(walk, k)
    ensures n < ReachFrom(walk, k, Walk(false, Spacers(walk, k), Texts(walk, k), reach)) <==>
            n < reach || exists m :: k <= m < |walk| && Extends(walk, n, m)
    decreases |walk| - k
  {
    hide Extends, Arrives;
    if k < |walk| {
      ExtendsHere(walk, n, k);
      if Passes(walk, k) {
        ArrivesNext(walk, k);
        ReachFromIsMarked(walk, k + 1, if walk[k].fits then k + 1 else reach, n);
      } else {
        NothingBeyond(walk, n, k);
      }
    }
  }

  lemma ArrivesNext(walk: seq<Seen>, k: nat)
    requires k < |walk| && Arrives(walk, k) && Passes(walk, k)
    ensures Arrives(walk, k + 1)
  {
  }

  lemma ExtendsHere(walk: seq<Seen>, n: nat, k: nat)
    requires k < |walk| && Arrives(walk, k)
    ensures Extends(walk, n, k) <==>
            Allowed(walk, k) && if walk[k].joins then n < k else walk[k].fits && n <= k
  {
  }

  lemma NothingBeyond(walk: seq<Seen>, n: nat, k: nat)
    requires k < |walk| && !Passes(walk, k)
    ensures forall m :: k < m < |walk| ==> !Extends(walk, n, m)
  {
  }

  /** One walk marks no bad block, at most three texts and eight spacers, and crosses no noise. */
  lemma WalkIsBounded(walk: seq<Seen>)
    ensures (forall m :: 0 <= m < Reach(walk) ==> !walk[m].bad)
    ensures (forall m :: 0 <= m < Reach(walk) - 1 ==> !walk[m].noise)
    ensures Texts(walk, Reach(walk)) <= MAX_TEXTS && Spacers(walk, Reach(walk)) <= MAX_SPACERS
  {
    hide Reach;
    var r := Reach(walk);
    if r > 0 {
      ReachIsMarked(walk, r - 1);
      var k :| 0 <= k < |walk| && Extends(walk, r - 1, k);
      forall m | 0 <= m < r
        ensures Allowed(walk, m) && (m < r - 1 ==> !walk[m].noise)
      {
        assert m < k ==> Passes(walk, m);
      }
      assert Allowed(walk, r - 1);
      forall m | 0 <= m < r
        ensures !walk[m].bad
      {
        assert Allowed(walk, m);
      }
    }
  }

  lemma ReachStep(walk: seq<Seen>, k: nat, w: Walk)
    requires w.reach <= k < |walk| && !w.done
    ensures ReachFrom(walk, k, w) == ReachFrom(walk, k + 1, Turn(walk[k], k, w))
  {
  }

  lemma ReachEnd(walk: seq<Seen>, k: nat, w: Walk)
    requires w.reach <= k <= |walk| && (w.done || k == |walk|)
    ensures ReachFrom(walk, k, w) == w.reach
  {
  }

  // ---- all good blocks ----

  function Span(lo: int, hi: int): (s: set<int>)
    ensures forall j :: j in s <==> lo <= j < hi
    decreases hi - lo
  {
    if hi <= lo then {} else Span(lo, hi - 1) + {hi - 1}
  }

  function With(content: set<int>, lo: int, hi: int): set<int> {
    content + Span(lo, hi)
  }

  lemma WithNothing(content: set<int>, lo: int)
    ensures With(content, lo, lo) == content
  {
  }

  lemma OutsideWith(content: set<int>, lo: int, hi: int, j: int)
    requires !(lo <= j < hi)
    ensures j in With(content, lo, hi) <==> j in content
  {
  }

  /** Filling up a run at its upper end, then at its lower end. */
  lemma WithAhead(content: set<int>, lo: int, mid: int, from: int, to: int)
    requires lo <= from <= mid <= to
    ensures With(With(content, lo, mid), from, to) == With(content, lo, to)
    ensures With(With(With(content, lo, mid), to, to + 1), from, to) == With(content, lo, to + 1)
  {
  }

  lemma WithBehind(content: set<int>, to: int, mid: int, from: int, hi: int)
    requires to <= mid <= from <= hi
    ensures With(With(content, mid, hi), to, from) == With(content, to, hi)
    ensures With(With(With(content, mid, hi), to - 1, to), to, from) == With(content, to - 1, hi)
  {
  }

  lemma RunGrows(content: set<int>, i: int, f: nat, b: nat)
    ensures With(With(content, i, i + 1), i + 1, i + 1 + f) == With(content, i, i + 1 + f)
    ensures With(With(content, i, i + 1 + f), i - b, i) == With(content, i - b, i + 1 + f)
  {
  }

  /** How far content grows from a good block, ahead and then behind. */
  function Forward(bs: seq<Block>, content: set<int>, i: nat, docWidth: int): nat
    requires i < |bs|
  {
    Reach(Ahead(bs, With(content, i, i + 1), i, docWidth))
  }

  function Backward(bs: seq<Block>, content: set<int>, i: nat, docWidth: int): nat
    requires i < |bs|
  {
    Reach(Behind(bs, With(content, i, i + 1 + Forward(bs, content, i, docWidth)), i, docWidth))
  }

  function ExpandOne(bs: seq<Block>, content: set<int>, i: nat, docWidth: int): set<int>
    requires i < |bs|
  {
    With(content, i - Backward(bs, content, i, docWidth), i + 1 + Forward(bs, content, i, docWidth))
  }

  function ExpandUpTo(bs: seq<Block>, content: set<int>, n: nat, docWidth: int): set<int>
    requires n <= |bs|
  {
    if n == 0 then content else
      var before := ExpandUpTo(bs, content, n - 1, docWidth);
      if bs[n - 1].good then ExpandOne(bs, before, n - 1, docWidth) else before
  }

  predicate Exclusive(bs: seq<Block>) {
    forall b <- bs :: !(b.good && b.bad)
  }

  predicate NoneBad(bs: seq<Block>, content: set<int>) {
    forall j <- content :: 0 <= j < |bs| && !bs[j].bad
  }

  /** An unbroken run of content from j to a good block. */
  predicate Tied(bs: seq<Block>, content: set<int>, j: int, g: int) {
    0 <= g < |bs| && bs[g].good && Span(j, g + 1) <= content && Span(g, j + 1) <= content
  }

  ghost predicate AllTied(bs: seq<Block>, content: set<int>) {
    forall j <- content :: exists g :: Tied(bs, content, j, g)
  }

  /** The run that grows out of a good block holds no bad block. */
  lemma RunIsClean(bs: seq<Block>, content: set<int>, i: nat, docWidth: int)
    requires i < |bs| && bs[i].good && Exclusive(bs)
    ensures NoneBad(bs, Span(i - Backward(bs, content, i, docWidth), i + 1 + Forward(bs, content, i, docWidth)))
  {
    hide Reach, Span, With;
    assert bs[i] in bs;
    var f := Forward(bs, content, i, docWidth);
    var run := With(content, i, i + 1 + f);
    var ahead, behind := Ahead(bs, With(content, i, i + 1), i, docWidth), Behind(bs, run, i, docWidth);
    WalkIsBounded(ahead);
    WalkIsBounded(behind);
    forall j | i < j < i + 1 + f
      ensures j < |bs| && !bs[j].bad
    {
      assert ahead[j - i - 1] == SeenAhead(bs, With(content, i, i + 1), i, j, docWidth);
    }
    forall j | i - Backward(bs, content, i, docWidth) <= j < i
      ensures 0 <= j && !bs[j].bad
    {
      assert behind[i - 1 - j] == SeenBehind(bs, run, i, j, docWidth);
    }
  }

  lemma NothingIsTied(bs: seq<Block>)
    ensures NoneBad(bs, {}) && AllTied(bs, {})
  {
  }

  lemma RunKeeps(bs: seq<Block>, content: set<int>, lo: int, i: int, hi: int)
    requires lo <= i < hi && 0 <= i < |bs| && bs[i].good
    requires NoneBad(bs, content) && AllTied(bs, content) && NoneBad(bs, Span(lo, hi))
    ensures NoneBad(bs, With(content, lo, hi)) && AllTied(bs, With(content, lo, hi))
    ensures content <= With(content, lo, hi) && i in With(content, lo, hi)
  {
    hide Span;
    var grown := With(content, lo, hi);
    forall j | j in grown
      ensures exists g :: Tied(bs, grown, j, g)
    {
      if j in content {
        var g :| Tied(bs, content, j, g);
        assert Tied(bs, grown, j, g);
      } else {
        assert Tied(bs, grown, j, i);
      }
    }
  }

  /**
   * Growing from all good blocks: every good block is content, no bad block is, and every
   * content block is tied to a good one.
   */
  lemma {:induction false} ExpansionIsSound(bs: seq<Block>, n: nat, docWidth: int)
    requires n <= |bs| && Exclusive(bs)
    ensures var content := ExpandUpTo(bs, {}, n, docWidth);
            && (forall g :: 0 <= g < n && bs[g].good ==> g in content)
            && NoneBad(bs, content) && AllTied(bs, content)
  {
    hide NoneBad, AllTied, Forward, Backward, With;
    if n == 0 {
      NothingIsTied(bs);
    } else {
      ExpansionIsSound(bs, n - 1, docWidth);
      if bs[n - 1].good {
        var before := ExpandUpTo(bs, {}, n - 1, docWidth);
        RunIsClean(bs, before, n - 1, docWidth);
        RunKeeps(bs, before, n - 1 - Backward(bs, before, n - 1, docWidth), n - 1,
                 n + Forward(bs, before, n - 1, docWidth));
      }
    }
  }

  // ---- what lies before the first block ----

  /** A walk that ends with its last block does not ask whether there is noise behind it. */
  lemma {:induction false} LastNoiseIsNotAsked(walk: seq<Seen>, other: seq<Seen>, k: nat, w: Walk)
    requires |walk| == |other| && w.reach <= k <= |walk|
    requires forall j :: 0 <= j < |walk| ==>
               other[j] == if j == |walk| - 1 then walk[j].(noise := other[j].noise) else walk[j]
    ensures ReachFrom(walk, k, w) == ReachFrom(other, k, w)
    decreases |walk| - k
  {
    if k < |walk| && !w.done {
      if k == |walk| - 1 {
        assert Turn(walk[k], k, w).reach == Turn(other[k], k, w).reach;
      } else {
        LastNoiseIsNotAsked(walk, other, k + 1, Turn(walk[k], k, w));
      }
    }
  }

  /** The list as it is when nothing comes before its first block. */
  function Started(bs: seq<Block>, noise: bool): seq<Block> {
    if bs == [] then [] else bs[0 := bs[0].(prevIsNoise := noise)]
  }

  lemma SeenIgnoresStart(bs: seq<Block>, noise: bool, content: set<int>, i: nat, e: nat, docWidth: int)
    requires i < |bs| && e < |bs|
    ensures var other := Started(bs, noise);
            && (e > 0 ==> SeenAhead(other, content, i, e, docWidth) == SeenAhead(bs, content, i, e, docWidth))
            && SeenBehind(other, content, i, e, docWidth)
               == if e > 0 then SeenBehind(bs, content, i, e, docWidth)
                  else SeenBehind(bs, content, i, e, docWidth).(noise := noise)
  {
    hide Magnitude, Unsigned;
  }

  lemma ExpandOneIgnoresStart(bs: seq<Block>, noise: bool, content: set<int>, i: nat, docWidth: int)
    requires i < |bs|
    ensures ExpandOne(Started(bs, noise), content, i, docWidth) == ExpandOne(bs, content, i, docWidth)
  {
    hide ReachFrom, With, Look, SeenAhead, SeenBehind;
    var other := Started(bs, noise);
    var own := With(content, i, i + 1);
    var run := With(content, i, i + 1 + Forward(bs, content, i, docWidth));
    forall e | 0 <= e < |bs|
      ensures e > 0 ==> SeenAhead(other, own, i, e, docWidth) == SeenAhead(bs, own, i, e, docWidth)
    {
      SeenIgnoresStart(bs, noise, own, i, e, docWidth);
    }
    assert Ahead(other, own, i, docWidth) == Ahead(bs, own, i, docWidth);
    forall e | 0 <= e < |bs|
      ensures SeenBehind(other, run, i, e, docWidth)
           == if e > 0 then SeenBehind(bs, run, i, e, docWidth)
              else SeenBehind(bs, run, i, e, docWidth).(noise := noise)
    {
      SeenIgnoresStart(bs, noise, run, i, e, docWidth);
    }
    LastNoiseIsNotAsked(Behind(bs, run, i, docWidth), Behind(other, run, i, docWidth), 0, Walk(false, 0, 0, 0));
  }

  /** What an extractor carries over from an earlier page does not change which blocks are content. */
  lemma {:induction false} ExpansionIgnoresStart(bs: seq<Block>, noise: bool, content: set<int>, n: nat, docWidth: int)
    requires n <= |bs|
    ensures ExpandUpTo(Started(bs, noise), content, n, docWidth) == ExpandUpTo(bs, content, n, docWidth)
  {
    hide ExpandOne;
    if n > 0 {
      ExpansionIgnoresStart(bs, noise, content, n - 1, docWidth);
      ExpandOneIgnoresStart(bs, noise, ExpandUpTo(bs, content, n - 1, docWidth), n - 1, docWidth);
    }
  }
}
