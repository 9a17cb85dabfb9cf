/**
 * The hand-written half of a page node (libqvdom/vdom.h): a tree of elements and texts
 * whose attributes are computed on demand and cached in the node.
 *
 * `Tree` is the value of a node, with the functions the methods are proved against;
 * `Node` is the object, which keeps its parent link, its caches and its signature.
 */
module VdomNode {
  datatype RenderType = BLOCK | INLINE | IMAGE | VIDEO | OTHER

  datatype Tree =
    | Text(text: string)
    | Element(tag: string, render: RenderType, kids: seq<Tree>)

  type uint32 = n: nat | n < 0x1_0000_0000

  // ---- what the attributes are ----

  /** The texts below a node, run together in document order. */
  function Content(t: Tree): string {
    match t
    case Text(s) => s
    case Element(_, _, kids) => ContentAll(kids)
  }

  function ContentAll(ts: seq<Tree>): string {
    if ts == [] then "" else ContentAll(ts[..|ts| - 1]) + Content(ts[|ts| - 1])
  }

  /** An element breaks the line for its parent when it is a block, has a break in it, or is one of three tags. */
  predicate Breaks(t: Tree)
    decreases t, 1
  {
    BreaksByItself(t) || !AllInline(t)
  }

  lemma AllInlineIf(t: Tree)
    ensures AllInline(t) <==> (t.Element? ==> forall i :: 0 <= i < |t.kids| ==> !Breaks(t.kids[i]))
  {
  }

  lemma BreaksIf(t: Tree)
    ensures Breaks(t) <==> BreaksByItself(t) || !AllInline(t)
  {
  }

  lemma TextsNeverBreak(t: Tree)
    ensures t.Text? ==> !Breaks(t)
  {
  }

  predicate BreaksByItself(t: Tree) {
    t.Element? && (t.render == BLOCK || BreakTag(t.tag))
  }

  predicate BreakTag(tag: string) {
    tag == "BR" || tag == "H1" || tag == "DIV"
  }

  predicate AllInline(t: Tree)
    decreases t, 0
  {
    t.Element? ==> forall i :: 0 <= i < |t.kids| ==> !Breaks(t.kids[i])
  }

  /** Tags that only mark text up leave no trace in the signature. */
  predicate Marks(tag: string) {
    tag in ["FONT", "FORM", "EM", "STRONG", "B", "I"]
  }

  function Sig(t: Tree): string {
    match t
    case Text(_) => ""
    case Element(tag, _, kids) => if Marks(tag) then SigAll(kids) else "#" + tag + SigAll(kids) + "-" + tag
  }

  function SigAll(ts: seq<Tree>): string {
    if ts == [] then "" else SigAll(ts[..|ts| - 1]) + Sig(ts[|ts| - 1])
  }

  lemma SigAllStep(ts: seq<Tree>, i: nat)
    requires i < |ts|
    ensures SigAll(ts[..i + 1]) == SigAll(ts[..i]) + Sig(ts[i])
  {
    assert ts[..i + 1][..i] == ts[..i];
  }

  lemma SigOf(t: Tree)
    requires t.Element?
    ensures SigAll(t.kids[..0]) == ""
    ensures Sig(t) == if Marks(t.tag) then SigAll(t.kids[..|t.kids|])
                      else "#" + t.tag + SigAll(t.kids[..|t.kids|]) + "-" + t.tag
  {
    assert t.kids[..|t.kids|] == t.kids;
  }

  lemma SigOfText(t: Tree)
    requires t.Text?
    ensures Sig(t) == ""
  {
  }

  lemma ContentAllStep(ts: seq<Tree>, i: nat)
    requires i < |ts|
    ensures ContentAll(ts[..i + 1]) == ContentAll(ts[..i]) + Content(ts[i])
  {
    assert ts[..i + 1][..i] == ts[..i];
  }

  /** The node at an address, a path of child indices. */
  predicate Has(t: Tree, path: seq<int>) {
    path == [] || (t.Element? && 0 <= path[0] < |t.kids| && Has(t.kids[path[0]], path[1..]))
  }

  function At(t: Tree, path: seq<int>): Tree
    requires Has(t, path)
  {
    if path == [] then t else At(t.kids[path[0]], path[1..])
  }

  lemma Descend(t: Tree, i: int, rest: seq<int>)
    requires t.Element? && 0 <= i < |t.kids| && Has(t.kids[i], rest)
    ensures Has(t, [i] + rest) && At(t, [i] + rest) == At(t.kids[i], rest)
  {
    var path := [i] + rest;
    assert path[0] == i && path[1..] == rest;
    assert Has(t, path);
  }

  /** Below the node, at this address, is a block or one of the tags BR, H1 and DIV. */
  predicate BreakAt(t: Tree, path: seq<int>) {
    && path != [] && Has(t, path)
    && match At(t, path)
       case Text(_) => false
       case Element(tag, render, _) => render == BLOCK || tag in ["BR", "H1", "DIV"]
  }

  /** No break anywhere below: the cached flag looks through every level at once. */
  lemma {:induction false} AllInlineMeansNoBreakBelow(t: Tree)
    ensures AllInline(t) <==> !exists path :: BreakAt(t, path)
  {
    if AllInline(t) {
      forall path | path != [] && Has(t, path)
        ensures !BreakAt(t, path)
      {
        var kid := t.kids[path[0]];
        assert !Breaks(kid);
        if path[1..] == [] {
          assert At(t, path) == At(kid, []) == kid;
        } else {
          AllInlineMeansNoBreakBelow(kid);
          assert !BreakAt(kid, path[1..]);
        }
      }
    } else {
      var i :| 0 <= i < |t.kids| && Breaks(t.kids[i]);
      var kid := t.kids[i];
      var rest: seq<int> := [];
      if !AllInline(kid) {
        AllInlineMeansNoBreakBelow(kid);
        rest :| BreakAt(kid, rest);
      }
      Descend(t, i, rest);
      assert BreakAt(t, [i] + rest);
    }
  }

  // ---- the object ----

  class NodeList {
    var nodes: seq<Node>

    constructor ()
      ensures nodes == []
    {
      nodes := [];
    }
  }

  class Node {
    const isElement: bool
    const tagName: string
    const text: string
    const renderType: RenderType
    const x: uint32
    const y: uint32
    const w: uint32
    const h: uint32
    const childNodes: seq<Node>

    var parentNode: Node?
    var childIndex: int
    var hasCachedContent: bool
    var content: string
    var hasAllChildrenInline: bool
    var allChildrenInline: bool
    var repeatSig: string

    ghost const tree: Tree
    ghost const repr: set<Node>

    /** A proper tree: every node below is the child of one parent, in one place. */
    ghost predicate Shaped()
      decreases tree
    {
      && repr == {this} + (set i, n | 0 <= i < |childNodes| && n in childNodes[i].repr :: n)
      && (forall i :: 0 <= i < |childNodes| ==> this !in childNodes[i].repr)
      && (forall i, j :: 0 <= i < j < |childNodes| ==> childNodes[i].repr !! childNodes[j].repr)
      && (match tree
          case Text(s) => !isElement && text == s && tagName == "" && childNodes == []
          case Element(tag, render, kids) =>
            && isElement && tagName == tag && renderType == render
            && |childNodes| == |kids|
            && forall i :: 0 <= i < |kids| ==> childNodes[i].tree == kids[i] && childNodes[i].Shaped())
    }

    /** What a cache holds, when it holds anything, is right. */
    ghost predicate CacheHolds()
      reads `hasCachedContent, `content, `hasAllChildrenInline, `allChildrenInline
    {
      && (hasCachedContent ==> content == Content(tree))
      && (hasAllChildrenInline ==> allChildrenInline == AllInline(tree))
    }

    lemma CacheMeans()
      ensures CacheHolds() <==>
              && (hasCachedContent ==> content == Content(tree))
              && (hasAllChildrenInline ==> allChildrenInline == AllInline(tree))
    {
    }

    /** Below this node every parent link and index is right and no cache holds anything. */
    ghost predicate Built()
      requires Shaped()
      reads repr
      decreases tree
    {
      && !hasCachedContent && !hasAllChildrenInline
      && (isElement ==>
          forall i :: 0 <= i < |childNodes| ==>
            && childNodes[i] in repr
            && childNodes[i].parentNode == this && childNodes[i].childIndex == i
            && childNodes[i].Built())
    }

    lemma BuiltCaches()
      requires Shaped() && Built()
      ensures forall n <- repr :: n.CacheHolds()
      decreases tree
    {
      forall i | 0 <= i < |childNodes|
        ensures forall n <- childNodes[i].repr :: n.CacheHolds()
      {
        childNodes[i].BuiltCaches();
      }
    }

    lemma Facts()
      requires Shaped()
      ensures this in repr && isElement == tree.Element?
      ensures isElement ==> |childNodes| == |tree.kids| && tagName == tree.tag && renderType == tree.render
      ensures !isElement ==> childNodes == [] && text == tree.text && tagName == ""
      ensures forall i :: 0 <= i < |childNodes| ==>
        && this !in childNodes[i].repr && childNodes[i] in childNodes[i].repr && childNodes[i].repr <= repr
        && childNodes[i].tree == tree.kids[i] && childNodes[i].Shaped()
      ensures forall i, j :: 0 <= i < j < |childNodes| ==> childNodes[i].repr !! childNodes[j].repr
    {
    }

    constructor OfText(text: string, x: uint32, y: uint32, w: uint32, h: uint32)
      ensures Shaped() && repr == {this} && tree == Tree.Text(text)
      ensures this.x == x && this.y == y && this.w == w && this.h == h
    {
      isElement, tagName, this.text, renderType, childNodes := false, "", text, OTHER, [];
      this.x, this.y, this.w, this.h := x, y, w, h;
      parentNode, childIndex := null, 0;
      hasCachedContent, content, hasAllChildrenInline, allChildrenInline, repeatSig := false, "", false, false, "";
      tree, repr := Tree.Text(text), {this};
    }

    constructor OfElement(tag: string, render: RenderType, kids: seq<Node>, x: uint32, y: uint32, w: uint32, h: uint32)
      requires forall i :: 0 <= i < |kids| ==> kids[i].Shaped()
      requires forall i, j :: 0 <= i < j < |kids| ==> kids[i].repr !! kids[j].repr
      ensures Shaped() && childNodes == kids
      ensures tree == Tree.Element(tag, render, seq(|kids|, i requires 0 <= i < |kids| => kids[i].tree))
      ensures this.x == x && this.y == y && this.w == w && this.h == h
    {
      isElement, tagName, text, renderType, childNodes := true, tag, "", render, kids;
      this.x, this.y, this.w, this.h := x, y, w, h;
      parentNode, childIndex := null, 0;
      hasCachedContent, content, hasAllChildrenInline, allChildrenInline, repeatSig := false, "", false, false, "";
      tree := Tree.Element(tag, render, seq(|kids|, i requires 0 <= i < |kids| => kids[i].tree));
      repr := {this} + (set i, n | 0 <= i < |kids| && n in kids[i].repr :: n);
    }

    method BuildVdomTree(parent: Node?, index: int)
      requires Shaped()
      modifies repr`parentNode, repr`childIndex, repr`hasCachedContent, repr`hasAllChildrenInline
      ensures parentNode == parent && childIndex == index
      ensures Built()
      decreases tree
    {
      hide Shaped;
      Facts();
      parentNode, childIndex := parent, index;
      hasCachedContent, hasAllChildrenInline := false, false;
      for i := 0 to |childNodes|
        invariant parentNode == parent && childIndex == index && !hasCachedContent && !hasAllChildrenInline
        invariant forall j :: 0 <= j < i ==>
                    childNodes[j].parentNode == this && childNodes[j].childIndex == j && childNodes[j].Built()
      {
        childNodes[i].BuildVdomTree(this, i);
      }
    }

    method GetContent() returns (r: string)
      requires Shaped()
      requires forall n <- repr :: n.CacheHolds()
      modifies repr`hasCachedContent, repr`content
      ensures forall n <- repr :: n.CacheHolds()
      ensures r == Content(tree)
      decreases tree
    {
      hide Shaped;
      Facts();
      if hasCachedContent {
        return content;
      } else if !isElement {
        return text;
      }
      content := "";
      for i := 0 to |childNodes|
        invariant content == ContentAll(tree.kids[..i])
        invariant !hasCachedContent
        invariant forall n <- repr :: n.CacheHolds()
      {
        var c := childNodes[i].GetContent();
        content := content + c;
        ContentAllStep(tree.kids, i);
      }
      assert tree.kids[..|childNodes|] == tree.kids;
      hasCachedContent := true;
      return content;
    }

    method AllChildrenInline() returns (r: bool)
      requires Shaped()
      requires forall n <- repr :: n.CacheHolds()
      modifies repr`hasAllChildrenInline, repr`allChildrenInline
      ensures forall n <- repr :: n.CacheHolds()
      ensures r == AllInline(tree)
      decreases tree
    {
      hide Shaped, CacheHolds, AllInline, Breaks, BreakTag;
      Facts();
      CacheMeans();
      if !hasAllChildrenInline {
        hasAllChildrenInline := true;
        allChildrenInline := true;
        if isElement {
          for i := 0 to |childNodes|
            invariant allChildrenInline && forall j :: 0 <= j < i ==> !Breaks(tree.kids[j])
            invariant hasAllChildrenInline && hasCachedContent == old(hasCachedContent) && content == old(content)
            invariant forall n <- repr :: n != this ==> n.CacheHolds()
          {
            var child := childNodes[i];
            child.Facts();
            TextsNeverBreak(child.tree);
            if child.isElement {
              BreaksIf(child.tree);
              var breaks := child.renderType == BLOCK;
              if !breaks {
                var inner := child.AllChildrenInline();
                breaks := !inner || BreakTag(child.tagName);
              }
              if breaks {
                allChildrenInline := false;
                break;
              }
            }
          }
        }
        AllInlineIf(tree);
        CacheMeans();
      }
      return allChildrenInline;
    }

    /** The text nodes below this one, in document order. */
    ghost function Texts(): seq<Node>
      requires Shaped()
      decreases tree, |childNodes| + 1
    {
      if isElement then TextsUpTo(|childNodes|) else [this]
    }

    ghost function TextsUpTo(k: nat): seq<Node>
      requires Shaped() && isElement && k <= |childNodes|
      decreases tree, k
    {
      if k == 0 then [] else TextsUpTo(k - 1) + childNodes[k - 1].Texts()
    }

    method GetAllTexts(list: NodeList)
      requires Shaped()
      modifies list
      ensures list.nodes == old(list.nodes) + Texts()
      decreases tree
    {
      if !isElement {
        list.nodes := list.nodes + [this];
      } else {
        for i := 0 to |childNodes|
          invariant list.nodes == old(list.nodes) + TextsUpTo(i)
        {
          childNodes[i].GetAllTexts(list);
        }
      }
    }

    /** The cached content of a node is the text of its text nodes, each once, in order. */
    lemma ContentIsTexts()
      requires Shaped()
      ensures Content(tree) == Joined(Texts())
      decreases tree, |childNodes| + 1
    {
      if isElement {
        ContentIsTextsUpTo(|childNodes|);
        assert tree.kids[..|childNodes|] == tree.kids;
      }
    }

    lemma ContentIsTextsUpTo(k: nat)
      requires Shaped() && isElement && k <= |childNodes|
      ensures ContentAll(tree.kids[..k]) == Joined(TextsUpTo(k))
      decreases tree, k
    {
      hide Shaped;
      Facts();
      if k > 0 {
        ContentIsTextsUpTo(k - 1);
        childNodes[k - 1].ContentIsTexts();
        ContentAllStep(tree.kids, k - 1);
        JoinedConcat(TextsUpTo(k - 1), childNodes[k - 1].Texts());
      }
    }

    /** Every element below, this one included, holds its signature. */
    ghost predicate Signed()
      requires Shaped()
      reads repr
      decreases tree
    {
      && repeatSig == Sig(tree)
      && forall i :: 0 <= i < |childNodes| && childNodes[i].isElement ==>
           childNodes[i] in repr && childNodes[i].repr <= repr && childNodes[i].Signed()
    }

    lemma SignedIf()
      requires Shaped() && repeatSig == Sig(tree)
      requires forall i :: 0 <= i < |childNodes| && childNodes[i].isElement ==> childNodes[i].Signed()
      ensures Signed()
    {
    }

    method BuildRepeatSig()
      requires Shaped()
      modifies repr`repeatSig
      ensures repeatSig == Sig(tree)
      ensures isElement ==> Signed()
      decreases tree
    {
      hide Shaped, CacheHolds, Signed, Sig, SigAll, Marks;
      Facts();
      repeatSig := "";
      if isElement {
        SigOf(tree);
        var isGoodNode := true;
        if Marks(tagName) {
          isGoodNode := false;
        }
        if isGoodNode {
          repeatSig := repeatSig + "#";
          repeatSig := repeatSig + tagName;
        }
        ghost var start := repeatSig;
        for i := 0 to |childNodes|
          invariant repeatSig == start + SigAll(tree.kids[..i])
          invariant forall j :: 0 <= j < i && childNodes[j].isElement ==> childNodes[j].Signed()
        {
          var child := childNodes[i];
          child.Facts();
          SigAllStep(tree.kids, i);
          if child.isElement {
            child.BuildRepeatSig();
            repeatSig := repeatSig + child.repeatSig;
          } else {
            SigOfText(child.tree);
          }
        }
        if isGoodNode {
          repeatSig := repeatSig + "-";
          repeatSig := repeatSig + tagName;
        }
        SignedIf();
      } else {
        SigOfText(tree);
        repeatSig := "";
      }
    }
  }

  ghost function Joined(nodes: seq<Node>): string {
    if nodes == [] then "" else nodes[0].text + Joined(nodes[1..])
  }

  lemma {:induction false} JoinedConcat(a: seq<Node>, b: seq<Node>)
    ensures Joined(a + b) == Joined(a) + Joined(b)
  {
    if a == [] {
      assert a + b == b;
    } else {
      assert (a + b)[1..] == a[1..] + b;
      JoinedConcat(a[1..], b);
    }
  }
}
