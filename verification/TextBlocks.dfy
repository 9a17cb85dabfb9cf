/**
 * A block of text on the page (qcontentextractor/vdom_content_block.h) with the measures
 * taken of it: how much of its text is inside links, how much is blank, how dense its tags are.
 * The getters compute a measure once and keep it.
 */
module TextBlocks {
  import opened VdomNode

  // ---- the measures ----

  function Kids(t: Tree): seq<Tree> {
    if t.Element? then t.kids else []
  }

  /** The length of the text inside links; a link in a link counts once. */
  function Linked(t: Tree, inside: bool): nat {
    match t
    case Text(s) => if inside then |s| else 0
    case Element(tag, _, kids) => LinkedAll(kids, inside || tag == "A")
  }

  function LinkedAll(ts: seq<Tree>, inside: bool): nat {
    if ts == [] then 0 else LinkedAll(ts[..|ts| - 1], inside) + Linked(ts[|ts| - 1], inside)
  }

  lemma {:induction false} LinkedInside(t: Tree)
    ensures Linked(t, true) == |Content(t)|
    decreases t
  {
    if t.Element? {
      LinkedAllInside(t.kids);
    }
  }

  lemma {:induction false} LinkedAllInside(ts: seq<Tree>)
    ensures LinkedAll(ts, true) == |ContentAll(ts)|
    decreases ts
  {
    if ts != [] {
      LinkedAllInside(ts[..|ts| - 1]);
      LinkedInside(ts[|ts| - 1]);
    }
  }

  /** Text inside links is part of the text. */
  lemma {:induction false} LinkedWithinContent(t: Tree, inside: bool)
    ensures Linked(t, inside) <= |Content(t)|
    decreases t
  {
    if t.Element? {
      LinkedAllWithinContent(t.kids, inside || t.tag == "A");
    }
  }

  lemma {:induction false} LinkedAllWithinContent(ts: seq<Tree>, inside: bool)
    ensures LinkedAll(ts, inside) <= |ContentAll(ts)|
    decreases ts
  {
    if ts != [] {
      LinkedAllWithinContent(ts[..|ts| - 1], inside);
      LinkedWithinContent(ts[|ts| - 1], inside);
    }
  }

  lemma LinkedAllStep(ts: seq<Tree>, i: nat, inside: bool)
    requires i < |ts|
    ensures LinkedAll(ts[..i + 1], inside) == LinkedAll(ts[..i], inside) + Linked(ts[i], inside)
  {
    assert ts[..i + 1][..i] == ts[..i];
  }

  /** Every node below, texts included. */
  function TagCount(t: Tree): nat {
    match t
    case Text(_) => 0
    case Element(_, _, kids) => |kids| + TagCountAll(kids)
  }

  function TagCountAll(ts: seq<Tree>): nat {
    if ts == [] then 0 else TagCountAll(ts[..|ts| - 1]) + TagCount(ts[|ts| - 1])
  }

  lemma TagCountAllStep(ts: seq<Tree>, i: nat)
    requires i < |ts|
    ensures TagCountAll(ts[..i + 1]) == TagCountAll(ts[..i]) + TagCount(ts[i])
  {
    assert ts[..i + 1][..i] == ts[..i];
  }

  predicate Blank(c: char) {
    c == ' ' || c == '\t' || c == '\n'
  }

  function Blanks(s: string): (n: nat)
    ensures n <= |s|
    ensures n == |s| <==> forall c <- s :: Blank(c)
  {
    if s == "" then 0 else
      assert s == s[..|s| - 1] + [s[|s| - 1]];
      Blanks(s[..|s| - 1]) + if Blank(s[|s| - 1]) then 1 else 0
  }

  function Percent(part: nat, whole: nat): (r: nat) {
    if whole == 0 then 0 else 100 * part / whole
  }

  lemma PercentRange(part: nat, whole: nat)
    requires part <= whole
    ensures Percent(part, whole) <= 100
    ensures Percent(part, whole) == 100 <==> whole > 0 && part == whole
  {
    if whole > 0 {
      assert 100 * part <= 100 * whole;
      if part < whole {
        assert 100 * part < 100 * whole;
      }
    }
  }

  function AnchorRatio(t: Tree): nat { Percent(Linked(t, false), |Content(t)|) }

  function SpaceRatio(t: Tree): nat { Percent(Blanks(Content(t)), |Content(t)|) }

  function TagDensity(t: Tree): real {
    if Content(t) == "" then 0.0 else TagCount(t) as real / |Content(t)| as real
  }

  // ---- the block ----

  class TextBlock {
    const node: Node

    var isGood: bool
    var isBad: bool
    var isContent: bool
    var prevIsNoise: bool
    var nextIsNoise: bool

    var hasAnchorLength: bool
    var anchorLength: int
    var hasAnchorRatio: bool
    var anchorRatio: int
    var hasTagDensity: bool
    var tagDensity: real
    var hasSpaceRatio: bool
    var spaceRatio: int

    ghost predicate Measured()
      reads `hasAnchorLength, `anchorLength, `hasAnchorRatio, `anchorRatio,
            `hasTagDensity, `tagDensity, `hasSpaceRatio, `spaceRatio
    {
      && (hasAnchorLength ==> anchorLength == Linked(node.tree, false))
      && (hasAnchorRatio ==> anchorRatio == AnchorRatio(node.tree))
      && (hasTagDensity ==> tagDensity == TagDensity(node.tree))
      && (hasSpaceRatio ==> spaceRatio == SpaceRatio(node.tree))
    }

    constructor (node: Node, prevIsNoise: bool)
      ensures this.node == node && this.prevIsNoise == prevIsNoise && !nextIsNoise
      ensures !isGood && !isBad && !isContent && Measured()
    {
      this.node, this.prevIsNoise, nextIsNoise := node, prevIsNoise, false;
      isGood, isBad, isContent := false, false, false;
      hasAnchorLength, hasAnchorRatio, hasTagDensity, hasSpaceRatio := false, false, false, false;
      anchorLength, anchorRatio, tagDensity, spaceRatio := 0, 0, 0.0, 0;
    }

    static method ComputeAnchorLength(cnode: Node) returns (al: int)
      requires cnode.Shaped()
      requires forall n <- cnode.repr :: n.CacheHolds()
      modifies cnode.repr`hasCachedContent, cnode.repr`content
      ensures forall n <- cnode.repr :: n.CacheHolds()
      ensures al == Linked(cnode.tree, false)
      decreases cnode.tree
    {
      hide Node.Shaped, Linked, LinkedAll;
      cnode.Facts();
      LinkedOf(cnode.tree);
      if cnode.tagName == "A" {
        LinkedInside(cnode.tree);
        var c := cnode.GetContent();
        return |c|;
      }
      al := 0;
      for i := 0 to |cnode.childNodes|
        invariant al == LinkedAll(Kids(cnode.tree)[..i], false)
        invariant forall n <- cnode.repr :: n.CacheHolds()
      {
        var child := cnode.childNodes[i];
        child.Facts();
        LinkedOf(child.tree);
        LinkedAllStep(cnode.tree.kids, i, false);
        if child.tagName == "A" {
          LinkedInside(child.tree);
          var c := child.GetContent();
          al := al + |c|;
        } else if child.isElement {
          var k := ComputeAnchorLength(child);
          al := al + k;
        }
      }
    }

    method AnchorLength() returns (r: int)
      requires node.Shaped() && Measured()
      requires forall n <- node.repr :: n.CacheHolds()
      modifies `hasAnchorLength, `anchorLength, node.repr`hasCachedContent, node.repr`content
      ensures Measured()
      ensures forall n <- node.repr :: n.CacheHolds()
      ensures r == Linked(node.tree, false) && 0 <= r <= |Content(node.tree)|
    {
      hide Node.Shaped, Linked, AnchorRatio, SpaceRatio, TagDensity;
      LinkedWithinContent(node.tree, false);
      if !hasAnchorLength {
        hasAnchorLength := true;
        anchorLength := ComputeAnchorLength(node);
      }
      return anchorLength;
    }

    method GetAnchorRatio() returns (r: int)
      requires node.Shaped() && Measured()
      requires forall n <- node.repr :: n.CacheHolds()
      modifies `hasAnchorLength, `anchorLength, `hasAnchorRatio, `anchorRatio,
               node.repr`hasCachedContent, node.repr`content
      ensures Measured()
      ensures forall n <- node.repr :: n.CacheHolds()
      ensures r == AnchorRatio(node.tree) && 0 <= r <= 100
    {
      hide Node.Shaped, Linked, SpaceRatio, TagDensity;
      LinkedWithinContent(node.tree, false);
      PercentRange(Linked(node.tree, false), |Content(node.tree)|);
      if !hasAnchorRatio {
        var total := node.GetContent();
        if |total| == 0 {
          anchorRatio := 0;
        } else {
          var length := AnchorLength();
          anchorRatio := 100 * length / |total|;
        }
        hasAnchorRatio := true;
      }
      return anchorRatio;
    }

    method SpaceCount() returns (cnt: int)
      requires node.Shaped()
      requires forall n <- node.repr :: n.CacheHolds()
      modifies node.repr`hasCachedContent, node.repr`content
      ensures forall n <- node.repr :: n.CacheHolds()
      ensures cnt == Blanks(Content(node.tree))
    {
      hide Node.Shaped;
      cnt := 0;
      var p := node.GetContent();
      for i := 0 to |p|
        invariant cnt == Blanks(p[..i])
      {
        assert p[..i + 1][..i] == p[..i];
        if Blank(p[i]) {
          cnt := cnt + 1;
        }
      }
      assert p[..|p|] == p;
    }

    method GetSpaceRatio() returns (r: int)
      requires node.Shaped() && Measured()
      requires forall n <- node.repr :: n.CacheHolds()
      modifies `hasSpaceRatio, `spaceRatio, node.repr`hasCachedContent, node.repr`content
      ensures Measured()
      ensures forall n <- node.repr :: n.CacheHolds()
      ensures r == SpaceRatio(node.tree) && 0 <= r <= 100
      ensures r == 100 <==> Content(node.tree) != "" && forall c <- Content(node.tree) :: Blank(c)
    {
      hide Node.Shaped, AnchorRatio, TagDensity, Content;
      PercentRange(Blanks(Content(node.tree)), |Content(node.tree)|);
      if !hasSpaceRatio {
        var content := node.GetContent();
        if |content| == 0 {
          spaceRatio := 0;
        } else {
          var cnt := SpaceCount();
          spaceRatio := 100 * cnt / |content|;
        }
        hasSpaceRatio := true;
      }
      return spaceRatio;
    }

    static method ComputeTagCount(cnode: Node) returns (tc: int)
      requires cnode.Shaped()
      ensures tc == TagCount(cnode.tree)
      decreases cnode.tree
    {
      tc := |cnode.childNodes|;
      for i := 0 to |cnode.childNodes|
        invariant tc == |cnode.childNodes| + TagCountAll(Kids(cnode.tree)[..i])
      {
        var child := cnode.childNodes[i];
        TagCountAllStep(cnode.tree.kids, i);
        if child.isElement {
          var k := ComputeTagCount(child);
          tc := tc + k;
        }
      }
      assert Kids(cnode.tree)[..|cnode.childNodes|] == Kids(cnode.tree);
    }

    method GetTagDensity() returns (r: real)
      requires node.Shaped() && Measured()
      requires forall n <- node.repr :: n.CacheHolds()
      modifies `hasTagDensity, `tagDensity, node.repr`hasCachedContent, node.repr`content
      ensures Measured()
      ensures forall n <- node.repr :: n.CacheHolds()
      ensures r == TagDensity(node.tree)
    {
      hide Node.Shaped, AnchorRatio, SpaceRatio, Content;
      if !hasTagDensity {
        var tagCount := ComputeTagCount(node);
        var total := node.GetContent();
        tagDensity := if |total| == 0 then 0.0 else tagCount as real / |total| as real;
        hasTagDensity := true;
      }
      return tagDensity;
    }
  }

  lemma LinkedOf(t: Tree)
    ensures Linked(t, false) == LinkedAll(Kids(t)[..|Kids(t)|], t.Element? && t.tag == "A")
    ensures LinkedAll(Kids(t)[..0], false) == 0
    ensures t.Element? && t.tag == "A" ==> Linked(t, false) == Linked(t, true)
  {
    assert Kids(t)[..|Kids(t)|] == Kids(t);
  }
}
