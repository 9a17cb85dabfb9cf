/**
 * Cutting the page into blocks (Extractor::extract_block_list in
 * qcontentextractor/vdom_content_extractor.cpp): elements taken for noise are skipped, elements
 * without a break in them and texts become blocks, other elements are cut further down.
 *
 * `Pieces` lists what is skipped and kept, in page order; `LayAll` says which flags the kept
 * ones get. The claims are that no text is lost or doubled, and that the noise flags of
 * neighbouring blocks agree. What counts as noise is an arbitrary predicate of the node.
 */
module BlockList {
  import opened VdomNode
  import opened TextBlocks

  datatype Piece = Skip(noise: Node) | Keep(node: Node)

  ghost function Pieces(n: Node, noise: Node -> bool): seq<Piece>
    requires n.Shaped()
    decreases n.tree, |n.childNodes| + 1
  {
    if !n.isElement then [Keep(n)]
    else if noise(n) then [Skip(n)]
    else if AllInline(n.tree) then [Keep(n)]
    else PiecesUpTo(n, |n.childNodes|, noise)
  }

  ghost function PiecesUpTo(n: Node, k: nat, noise: Node -> bool): seq<Piece>
    requires n.Shaped() && n.isElement && k <= |n.childNodes|
    decreases n.tree, k
  {
    if k == 0 then [] else PiecesUpTo(n, k - 1, noise) + Pieces(n.childNodes[k - 1], noise)
  }

  // ---- the flags ----

  datatype Entry = Entry(node: Node, prevIsNoise: bool, nextIsNoise: bool)

  /** The block list so far, and whether the last piece was noise. */
  datatype Strip = Strip(entries: seq<Entry>, pending: bool)

  function Lay(s: Strip, p: Piece): Strip {
    match p
    case Skip(_) =>
      var n := |s.entries| - 1;
      Strip(if n < 0 then s.entries else s.entries[n := s.entries[n].(nextIsNoise := true)], true)
    case Keep(node) =>
      Strip(s.entries + [Entry(node, s.pending, false)], false)
  }

  function LayAll(s: Strip, ps: seq<Piece>): Strip {
    if ps == [] then s else Lay(LayAll(s, ps[..|ps| - 1]), ps[|ps| - 1])
  }

  lemma {:induction false} LayAllConcat(s: Strip, a: seq<Piece>, b: seq<Piece>)
    ensures LayAll(s, a + b) == LayAll(LayAll(s, a), b)
  {
    if b == [] {
      assert a + b == a;
    } else {
      assert (a + b)[..|a + b| - 1] == a + b[..|b| - 1];
      LayAllConcat(s, a, b[..|b| - 1]);
    }
  }

  lemma LayOne(s: Strip, p: Piece)
    ensures LayAll(s, [p]) == Lay(s, p)
  {
    assert [p][..0] == [];
  }

  function Nodes(es: seq<Entry>): seq<Node> {
    seq(|es|, i requires 0 <= i < |es| => es[i].node)
  }

  function KeptNodes(ps: seq<Piece>): seq<Node> {
    if ps == [] then [] else
      KeptNodes(ps[..|ps| - 1]) + match ps[|ps| - 1] case Skip(_) => [] case Keep(n) => [n]
  }

  /** Neighbours agree on whether there is noise between them; the last block answers for what comes next. */
  predicate Agree(s: Strip) {
    && (forall i :: 0 < i < |s.entries| ==> s.entries[i - 1].nextIsNoise == s.entries[i].prevIsNoise)
    && (s.entries != [] ==> s.entries[|s.entries| - 1].nextIsNoise == s.pending)
  }

  lemma {:induction false} LayingKeepsAgreement(s: Strip, ps: seq<Piece>)
    requires Agree(s)
    ensures Agree(LayAll(s, ps))
  {
    if ps != [] {
      LayingKeepsAgreement(s, ps[..|ps| - 1]);
    }
  }

  /** The blocks are the kept pieces in order. */
  lemma {:induction false} BlocksAreKeptPieces(initial: bool, ps: seq<Piece>)
    ensures var s := LayAll(Strip([], initial), ps);
            && Nodes(s.entries) == KeptNodes(ps)
            && s.pending == (if ps == [] then initial else ps[|ps| - 1].Skip?)
  {
    if ps != [] {
      BlocksAreKeptPieces(initial, ps[..|ps| - 1]);
    }
  }

  /**
   * A block follows noise exactly when the piece before it in the page was skipped. For the
   * first piece of a page there is none: its block takes over what an earlier page left behind.
   */
  lemma {:induction false} BlockFollowsNoise(initial: bool, ps: seq<Piece>, p: nat)
    requires p < |ps| && ps[p].Keep?
    ensures var s, k := LayAll(Strip([], initial), ps), |KeptNodes(ps[..p])|;
            && k < |s.entries| && s.entries[k].node == ps[p].node
            && s.entries[k].prevIsNoise == (if p == 0 then initial else ps[p - 1].Skip?)
  {
    var n := |ps| - 1;
    var front := ps[..n];
    if p < n {
      assert front[..p] == ps[..p] && front[p] == ps[p];
      BlockFollowsNoise(initial, front, p);
    } else {
      assert ps[..p] == front;
      BlocksAreKeptPieces(initial, front);
    }
  }

  /** Two strips that differ in what the first block says of the noise before it. */
  predicate DifferAtStart(s: Strip, r: Strip, x: bool, y: bool) {
    && s.pending == r.pending
    && r.entries != [] && r.entries[0].prevIsNoise == y
    && s.entries == r.entries[0 := r.entries[0].(prevIsNoise := x)]
  }

  lemma LayKeepsDifference(s: Strip, r: Strip, x: bool, y: bool, p: Piece)
    requires DifferAtStart(s, r, x, y)
    ensures DifferAtStart(Lay(s, p), Lay(r, p), x, y)
  {
  }

  /** The flag an extractor starts with is only ever seen in the first block, if that is the first piece. */
  lemma {:induction false} StartShowsInFirstBlockOnly(ps: seq<Piece>, x: bool, y: bool)
    requires ps != []
    ensures var s, r := LayAll(Strip([], x), ps), LayAll(Strip([], y), ps);
            if ps[0].Keep? then DifferAtStart(s, r, x, y) else s == r
  {
    var n := |ps| - 1;
    if n == 0 {
      LayOne(Strip([], x), ps[0]);
      LayOne(Strip([], y), ps[0]);
      assert ps == [ps[0]];
    } else {
      StartShowsInFirstBlockOnly(ps[..n], x, y);
      hide DifferAtStart, Lay;
      if ps[0].Keep? {
        LayKeepsDifference(LayAll(Strip([], x), ps[..n]), LayAll(Strip([], y), ps[..n]), x, y, ps[n]);
      }
    }
  }

  /**
   * A page is cut as if it were the first one, except when the page before ended in noise and this
   * one begins with a block: only then does the flag left behind change an entry.
   */
  lemma StaleFlagShowsExactly(initial: bool, before: seq<Piece>, ps: seq<Piece>)
    requires before != []
    ensures var left := LayAll(Strip([], initial), before).pending;
            LayAll(Strip([], left), ps).entries == LayAll(Strip([], false), ps).entries
            <==> !(before[|before| - 1].Skip? && ps != [] && ps[0].Keep?)
  {
    BlocksAreKeptPieces(initial, before);
    if ps != [] {
      StartShowsInFirstBlockOnly(ps, before[|before| - 1].Skip?, false);
    }
  }

  // ---- no text is lost ----

  /** Skipped as noise: taken for noise, below elements that are not and that had to be cut further down. */
  ghost predicate Skipped(body: Node, s: Node, noise: Node -> bool) {
    && s in body.repr && s.isElement && noise(s)
    && forall a :: a in body.repr && s in a.repr && a != s ==> !noise(a) && !AllInline(a.tree)
  }

  ghost predicate Dropped(body: Node, t: Node, noise: Node -> bool) {
    exists s :: s in body.repr && Skipped(body, s, noise) && t in s.repr
  }

  ghost function Remaining(body: Node, ts: seq<Node>, noise: Node -> bool): seq<Node> {
    if ts == [] then [] else
      Remaining(body, ts[..|ts| - 1], noise) + if Dropped(body, ts[|ts| - 1], noise) then [] else [ts[|ts| - 1]]
  }

  lemma {:induction false} RemainingConcat(body: Node, a: seq<Node>, b: seq<Node>, noise: Node -> bool)
    ensures Remaining(body, a + b, noise) == Remaining(body, a, noise) + Remaining(body, b, noise)
  {
    if b == [] {
      assert a + b == a;
    } else {
      assert (a + b)[..|a + b| - 1] == a + b[..|b| - 1];
      RemainingConcat(body, a, b[..|b| - 1], noise);
    }
  }

  lemma RemainingStep(body: Node, ts: seq<Node>, noise: Node -> bool)
    requires ts != []
    ensures var n := |ts| - 1;
            && Remaining(body, ts, noise)
               == Remaining(body, ts[..n], noise) + (if Dropped(body, ts[n], noise) then [] else [ts[n]])
            && ts[n] in ts && (forall t <- ts[..n] :: t in ts) && ts == ts[..n] + [ts[n]]
  {
    hide Dropped;
  }

  lemma RemainingOfNothing(body: Node, noise: Node -> bool)
    ensures Remaining(body, [], noise) == []
  {
  }

  lemma {:induction false} RemainingSame(body: Node, other: Node, ts: seq<Node>, noise: Node -> bool)
    requires forall t <- ts :: Dropped(body, t, noise) == Dropped(other, t, noise)
    ensures Remaining(body, ts, noise) == Remaining(other, ts, noise)
  {
    hide Dropped, Remaining;
    if ts == [] {
      RemainingOfNothing(body, noise);
      RemainingOfNothing(other, noise);
    } else {
      RemainingStep(body, ts, noise);
      RemainingStep(other, ts, noise);
      RemainingSame(body, other, ts[..|ts| - 1], noise);
    }
  }

  lemma {:induction false} RemainingAll(body: Node, ts: seq<Node>, noise: Node -> bool)
    requires forall t <- ts :: !Dropped(body, t, noise)
    ensures Remaining(body, ts, noise) == ts
  {
    hide Dropped, Remaining;
    if ts == [] {
      RemainingOfNothing(body, noise);
    } else {
      RemainingStep(body, ts, noise);
      RemainingAll(body, ts[..|ts| - 1], noise);
    }
  }

  lemma {:induction false} RemainingNone(body: Node, ts: seq<Node>, noise: Node -> bool)
    requires forall t <- ts :: Dropped(body, t, noise)
    ensures Remaining(body, ts, noise) == []
  {
    hide Dropped, Remaining;
    if ts == [] {
      RemainingOfNothing(body, noise);
    } else {
      RemainingStep(body, ts, noise);
      RemainingNone(body, ts[..|ts| - 1], noise);
    }
  }

  ghost predicate AllShaped(ns: seq<Node>) {
    forall n <- ns :: n.Shaped()
  }

  ghost function TextsOf(ns: seq<Node>): seq<Node>
    requires AllShaped(ns)
  {
    if ns == [] then [] else TextsOf(ns[..|ns| - 1]) + ns[|ns| - 1].Texts()
  }

  lemma {:induction false} TextsOfConcat(a: seq<Node>, b: seq<Node>)
    requires AllShaped(a) && AllShaped(b)
    ensures AllShaped(a + b) && TextsOf(a + b) == TextsOf(a) + TextsOf(b)
  {
    assert forall n <- a + b :: n in a || n in b;
    if b == [] {
      assert a + b == a;
    } else {
      assert (a + b)[..|a + b| - 1] == a + b[..|b| - 1];
      TextsOfConcat(a, b[..|b| - 1]);
    }
  }

  lemma {:induction false} KeptNodesConcat(a: seq<Piece>, b: seq<Piece>)
    ensures KeptNodes(a + b) == KeptNodes(a) + KeptNodes(b)
  {
    if b == [] {
      assert a + b == a;
    } else {
      assert (a + b)[..|a + b| - 1] == a + b[..|b| - 1];
      KeptNodesConcat(a, b[..|b| - 1]);
    }
  }

  /** Below a node lie whole subtrees. */
  lemma {:induction false} SubtreeClosed(n: Node, a: Node)
    requires n.Shaped() && a in n.repr
    ensures a.Shaped() && a.repr <= n.repr
    decreases n.tree
  {
    if a != n {
      var i :| 0 <= i < |n.childNodes| && a in n.childNodes[i].repr;
      SubtreeClosed(n.childNodes[i], a);
    }
  }

  /** Only the node itself holds itself. */
  lemma RootHasNoAncestor(n: Node, a: Node)
    requires n.Shaped() && a in n.repr && n in a.repr
    ensures a == n
  {
    if a != n {
      var i :| 0 <= i < |n.childNodes| && a in n.childNodes[i].repr;
      SubtreeClosed(n.childNodes[i], a);
      assert false;
    }
  }

  lemma {:induction false} TextsBelow(n: Node)
    requires n.Shaped()
    ensures forall t <- n.Texts() :: t in n.repr
    decreases n.tree, |n.childNodes| + 1
  {
    if n.isElement {
      TextsBelowUpTo(n, |n.childNodes|);
    }
  }

  lemma {:induction false} TextsBelowUpTo(n: Node, k: nat)
    requires n.Shaped() && n.isElement && k <= |n.childNodes|
    ensures forall t <- n.TextsUpTo(k) :: exists i :: 0 <= i < k && t in n.childNodes[i].repr
    ensures forall t <- n.TextsUpTo(k) :: t in n.repr
    decreases n.tree, k
  {
    if k > 0 {
      TextsBelowUpTo(n, k - 1);
      TextsBelow(n.childNodes[k - 1]);
    }
  }

  /** Inside an element that is cut further down, a child decides alone what it drops. */
  lemma DroppedInChild(n: Node, i: nat, t: Node, noise: Node -> bool)
    requires n.Shaped() && i < |n.childNodes| && t in n.childNodes[i].repr
    requires n.isElement && !noise(n) && !AllInline(n.tree)
    ensures Dropped(n, t, noise) == Dropped(n.childNodes[i], t, noise)
  {
    var c := n.childNodes[i];
    n.Facts();
    if Dropped(c, t, noise) {
      var s :| s in c.repr && Skipped(c, s, noise) && t in s.repr;
      forall a | a in n.repr && s in a.repr && a != s
        ensures !noise(a) && !AllInline(a.tree)
      {
        if a != n {
          OwnChild(n, i, a, s);
        }
      }
      assert Skipped(n, s, noise);
    }
    if Dropped(n, t, noise) {
      var s :| s in n.repr && Skipped(n, s, noise) && t in s.repr;
      OwnChild(n, i, s, t);
      assert Skipped(c, s, noise);
    }
  }

  /** A node other than the parent that holds something of a child's is below that child. */
  lemma OwnChild(n: Node, i: nat, a: Node, s: Node)
    requires n.Shaped() && i < |n.childNodes| && s in n.childNodes[i].repr
    requires a in n.repr && a != n && s in a.repr
    ensures a in n.childNodes[i].repr
  {
    var j :| 0 <= j < |n.childNodes| && a in n.childNodes[j].repr;
    SubtreeClosed(n.childNodes[j], a);
    assert s in n.childNodes[j].repr;
  }

  /**
   * The blocks cover the page: the texts under them, block after block, are the page's texts
   * in order, less those under an element skipped as noise.
   */
  lemma {:induction false} BlocksCoverThePage(n: Node, noise: Node -> bool)
    requires n.Shaped()
    ensures AllShaped(KeptNodes(Pieces(n, noise)))
    ensures TextsOf(KeptNodes(Pieces(n, noise))) == Remaining(n, n.Texts(), noise)
    decreases n.tree, |n.childNodes| + 1
  {
    TextsBelow(n);
    if !n.isElement || AllInline(n.tree) || noise(n) {
      OnePiece(n, noise);
    } else {
      BlocksCoverUpTo(n, |n.childNodes|, noise);
    }
  }

  lemma OnePiece(n: Node, noise: Node -> bool)
    requires n.Shaped() && (!n.isElement || AllInline(n.tree) || noise(n))
    ensures AllShaped(KeptNodes(Pieces(n, noise)))
    ensures TextsOf(KeptNodes(Pieces(n, noise))) == Remaining(n, n.Texts(), noise)
  {
    TextsBelow(n);
    n.Facts();
    if n.isElement && noise(n) {
      forall a | a in n.repr && n in a.repr
        ensures a == n
      {
        RootHasNoAncestor(n, a);
      }
      assert Skipped(n, n, noise);
      RemainingNone(n, n.Texts(), noise);
    } else {
      assert [n][..0] == [];
      assert TextsOf([n]) == n.Texts();
      forall t, s | t in n.repr && s in n.repr && t in s.repr
        ensures !Skipped(n, s, noise)
      {
      }
      RemainingAll(n, n.Texts(), noise);
    }
  }

  lemma {:induction false} BlocksCoverUpTo(n: Node, k: nat, noise: Node -> bool)
    requires n.Shaped() && k <= |n.childNodes| && n.isElement && !noise(n) && !AllInline(n.tree)
    ensures AllShaped(KeptNodes(PiecesUpTo(n, k, noise)))
    ensures TextsOf(KeptNodes(PiecesUpTo(n, k, noise))) == Remaining(n, n.TextsUpTo(k), noise)
    decreases n.tree, k
  {
    hide Dropped, Node.Shaped, AllInline, Node.Texts, Pieces;
    n.Facts();
    if k > 0 {
      var c := n.childNodes[k - 1];
      BlocksCoverUpTo(n, k - 1, noise);
      BlocksCoverThePage(c, noise);
      TextsBelow(c);
      forall t | t in c.Texts()
        ensures Dropped(n, t, noise) == Dropped(c, t, noise)
      {
        DroppedInChild(n, k - 1, t, noise);
      }
      RemainingSame(n, c, c.Texts(), noise);
      RemainingConcat(n, n.TextsUpTo(k - 1), c.Texts(), noise);
      KeptNodesConcat(PiecesUpTo(n, k - 1, noise), Pieces(c, noise));
      TextsOfConcat(KeptNodes(PiecesUpTo(n, k - 1, noise)), KeptNodes(Pieces(c, noise)));
    }
  }

  /** Blocks are nodes of the page. */
  lemma {:induction false} PiecesBelow(n: Node, noise: Node -> bool)
    requires n.Shaped()
    ensures forall m <- KeptNodes(Pieces(n, noise)) :: m in n.repr
    decreases n.tree, |n.childNodes| + 1
  {
    hide AllInline;
    if n.isElement && !noise(n) && !AllInline(n.tree) {
      PiecesBelowUpTo(n, |n.childNodes|, noise);
    } else {
      assert [Keep(n)][..0] == [] && [Skip(n)][..0] == [];
    }
  }

  lemma {:induction false} PiecesBelowUpTo(n: Node, k: nat, noise: Node -> bool)
    requires n.Shaped() && n.isElement && k <= |n.childNodes|
    ensures forall m <- KeptNodes(PiecesUpTo(n, k, noise)) :: m in n.repr
    decreases n.tree, k
  {
    if k > 0 {
      var c := n.childNodes[k - 1];
      PiecesBelowUpTo(n, k - 1, noise);
      PiecesBelow(c, noise);
      KeptNodesConcat(PiecesUpTo(n, k - 1, noise), Pieces(c, noise));
      assert c.repr <= n.repr;
    }
  }

  ghost predicate NoneTwice(ts: seq<Node>) {
    forall i, j :: 0 <= i < j < |ts| ==> ts[i] != ts[j]
  }

  /** No text comes up twice, so each is in one block only. */
  lemma {:induction false} TextsComeOnce(n: Node)
    requires n.Shaped()
    ensures NoneTwice(n.Texts())
    decreases n.tree, |n.childNodes| + 1
  {
    if n.isElement {
      TextsComeOnceUpTo(n, |n.childNodes|);
    }
  }

  lemma {:induction false} TextsComeOnceUpTo(n: Node, k: nat)
    requires n.Shaped() && n.isElement && k <= |n.childNodes|
    ensures NoneTwice(n.TextsUpTo(k))
    decreases n.tree, k
  {
    if k > 0 {
      TextsComeOnceUpTo(n, k - 1);
      TextsBelowUpTo(n, k - 1);
      TextsComeOnce(n.childNodes[k - 1]);
      TextsBelow(n.childNodes[k - 1]);
      NoneTwiceConcat(n.TextsUpTo(k - 1), n.childNodes[k - 1].Texts());
    }
  }

  lemma NoneTwiceConcat(a: seq<Node>, b: seq<Node>)
    requires NoneTwice(a) && NoneTwice(b) && forall t <- a :: t !in b
    ensures NoneTwice(a + b)
  {
    forall i, j | 0 <= i < j < |a + b|
      ensures (a + b)[i] != (a + b)[j]
    {
      assert i < |a| <= j ==> (a + b)[i] in a && (a + b)[j] in b;
    }
  }

  lemma {:induction false} RemainingComeOnce(body: Node, ts: seq<Node>, noise: Node -> bool)
    requires NoneTwice(ts)
    ensures NoneTwice(Remaining(body, ts, noise))
    ensures forall t <- Remaining(body, ts, noise) :: t in ts && !Dropped(body, t, noise)
  {
    hide Dropped;
    if ts != [] {
      RemainingComeOnce(body, ts[..|ts| - 1], noise);
    }
  }

  /** Each text is in one block only. */
  ghost predicate ShareNoText(ns: seq<Node>)
    requires AllShaped(ns)
  {
    forall i, j, t :: 0 <= i < j < |ns| && t in ns[i].Texts() ==> t !in ns[j].Texts()
  }

  lemma {:induction false} DistinctTextsAreNotShared(ns: seq<Node>)
    requires AllShaped(ns) && NoneTwice(TextsOf(ns))
    ensures ShareNoText(ns)
  {
    hide Node.Shaped, Node.Texts;
    if ns != [] {
      var n := |ns| - 1;
      var front, last := TextsOf(ns[..n]), ns[n].Texts();
      assert TextsOf(ns) == front + last;
      NoneTwiceParts(front, last);
      DistinctTextsAreNotShared(ns[..n]);
      forall i, t | 0 <= i < n && t in ns[i].Texts()
        ensures t !in last
      {
        TextsOfHas(ns[..n], i, t);
      }
    }
  }

  lemma NoneTwiceParts(a: seq<Node>, b: seq<Node>)
    requires NoneTwice(a + b)
    ensures NoneTwice(a) && forall t <- a :: t !in b
  {
    forall i, j | 0 <= i < j < |a|
      ensures a[i] != a[j]
    {
      assert (a + b)[i] == a[i] && (a + b)[j] == a[j];
    }
    forall i, j | 0 <= i < |a| && 0 <= j < |b|
      ensures a[i] != b[j]
    {
      assert (a + b)[i] == a[i] && (a + b)[|a| + j] == b[j];
    }
  }

  lemma {:induction false} TextsOfHas(ns: seq<Node>, i: nat, t: Node)
    requires AllShaped(ns) && i < |ns| && t in ns[i].Texts()
    ensures t in TextsOf(ns)
  {
    hide Node.Shaped, Node.Texts;
    if i < |ns| - 1 {
      TextsOfHas(ns[..|ns| - 1], i, t);
    }
  }

  /** No two blocks of a page share a text. */
  lemma BlocksShareNoText(body: Node, noise: Node -> bool)
    requires body.Shaped()
    ensures AllShaped(KeptNodes(Pieces(body, noise))) && ShareNoText(KeptNodes(Pieces(body, noise)))
  {
    hide Node.Shaped, Node.Texts, Pieces, Dropped, Remaining;
    BlocksCoverThePage(body, noise);
    TextsComeOnce(body);
    RemainingComeOnce(body, body.Texts(), noise);
    DistinctTextsAreNotShared(KeptNodes(Pieces(body, noise)));
  }

  /** A list of entries with another flag in front. */
  function WithStart(es: seq<Entry>, noise: bool): seq<Entry> {
    if es == [] then [] else es[0 := es[0].(prevIsNoise := noise)]
  }

  /** However an extractor starts, it cuts a page as one that has seen none before, up to that flag. */
  lemma CutUpToStart(ps: seq<Piece>, x: bool) returns (start: bool)
    ensures LayAll(Strip([], x), ps).entries == WithStart(LayAll(Strip([], false), ps).entries, start)
  {
    hide Lay;
    var es := LayAll(Strip([], false), ps).entries;
    if ps == [] {
      start := x;
    } else {
      StartShowsInFirstBlockOnly(ps, x, false);
      start := if ps[0].Keep? then x else if es == [] then false else es[0].prevIsNoise;
    }
  }
}
