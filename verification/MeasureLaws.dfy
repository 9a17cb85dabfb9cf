/**
 * What the measures of a block are numbers of: blanks, nodes below, and percentages.
 */
module MeasureLaws {
  import opened VdomNode
  import opened TextBlocks

  predicate IsBlank(s: string, i: nat) {
    i < |s| && s[i] in [' ', '\t', '\n']
  }

  lemma BlankMeans(c: char)
    ensures Blank(c) <==> c in [' ', '\t', '\n']
  {
  }

  lemma {:induction false} BlanksUpTo(s: string, n: nat)
    requires n <= |s|
    ensures Blanks(s[..n]) == |set i: nat | i < n && IsBlank(s, i)|
  {
    hide Blank, IsBlank;
    if n > 0 {
      var k: nat := n - 1;
      BlanksUpTo(s, k);
      BlankMeans(s[k]);
      assert s[..n][..k] == s[..k];
      assert IsBlank(s, k) == (s[k] in [' ', '\t', '\n']) by { BlankAt(s, k); }
      BlankSetGrows(s, k);
    }
  }

  lemma BlankAt(s: string, k: nat)
    requires k < |s|
    ensures IsBlank(s, k) <==> s[k] in [' ', '\t', '\n']
  {
  }

  lemma BlankSetGrows(s: string, k: nat)
    ensures |set i: nat | i < k + 1 && IsBlank(s, i)|
         == |set i: nat | i < k && IsBlank(s, i)| + if IsBlank(s, k) then 1 else 0
  {
    hide IsBlank;
    OneMore((set i: nat | i < k + 1 && IsBlank(s, i)), (set i: nat | i < k && IsBlank(s, i)), k, IsBlank(s, k));
  }

  /** The blanks of a text are its spaces, tabs and line feeds. */
  lemma BlanksIsTheirNumber(s: string)
    ensures Blanks(s) == |set i: nat | i < |s| && IsBlank(s, i)|
  {
    hide Blanks, IsBlank;
    BlanksUpTo(s, |s|);
    assert s[..|s|] == s;
  }

  lemma OneMore(all: set<nat>, before: set<nat>, k: nat, counts: bool)
    requires k !in before && all == before + if counts then {k} else {}
    ensures |all| == |before| + if counts then 1 else 0
  {
  }

  /** A percentage is rounded down; of nothing, it is nothing. */
  lemma PercentMeans(part: nat, whole: nat)
    ensures whole == 0 ==> Percent(part, whole) == 0
    ensures whole > 0 ==> Percent(part, whole) * whole <= 100 * part < (Percent(part, whole) + 1) * whole
  {
  }

  /** The nodes of some trees and below them, in document order. */
  function Nodes(ts: seq<Tree>): seq<Tree> {
    if ts == [] then []
    else [ts[0]] + (match ts[0] case Text(_) => [] case Element(_, _, kids) => Nodes(kids)) + Nodes(ts[1..])
  }

  lemma {:induction false} NodesConcat(ts: seq<Tree>, us: seq<Tree>)
    ensures |Nodes(ts + us)| == |Nodes(ts)| + |Nodes(us)|
    decreases |ts|
  {
    if ts == [] {
      assert ts + us == us;
    } else {
      assert (ts + us)[1..] == ts[1..] + us;
      NodesConcat(ts[1..], us);
    }
  }

  /** The tag count is the number of nodes below. */
  lemma {:induction false} TagCountIsNodesBelow(t: Tree)
    ensures TagCount(t) == match t case Text(_) => 0 case Element(_, _, kids) => |Nodes(kids)|
    decreases t
  {
    if t.Element? {
      CountsAreNodes(t.kids);
    }
  }

  lemma {:induction false} CountsAreNodes(ts: seq<Tree>)
    ensures |ts| + TagCountAll(ts) == |Nodes(ts)|
    decreases ts
  {
    if ts != [] {
      var n := |ts| - 1;
      var last := ts[n..];
      assert ts == ts[..n] + last && last == [ts[n]] && last[1..] == [];
      CountsAreNodes(ts[..n]);
      TagCountIsNodesBelow(ts[n]);
      NodesConcat(ts[..n], last);
      NodesOfOne(ts[n]);
    }
  }

  lemma NodesOfOne(t: Tree)
    ensures |Nodes([t])| == 1 + match t case Text(_) => 0 case Element(_, _, kids) => |Nodes(kids)|
  {
    assert [t][1..] == [];
  }

  /** The texts inside links: below an A, or below nodes that are inside one. */
  function LinkTexts(ts: seq<Tree>, inside: bool): string {
    if ts == [] then ""
    else
      (match ts[0]
       case Text(text) => if inside then text else ""
       case Element(tag, _, kids) => LinkTexts(kids, inside || tag == "A"))
      + LinkTexts(ts[1..], inside)
  }

  lemma {:induction false} LinkTextsConcat(ts: seq<Tree>, us: seq<Tree>, inside: bool)
    ensures LinkTexts(ts + us, inside) == LinkTexts(ts, inside) + LinkTexts(us, inside)
    decreases |ts|
  {
    if ts == [] {
      assert ts + us == us;
    } else {
      assert (ts + us)[1..] == ts[1..] + us;
      LinkTextsConcat(ts[1..], us, inside);
    }
  }

  /** The anchor length is the length of the texts inside links, each counted once however deep the links nest. */
  lemma {:induction false} LinkedIsLinkTexts(t: Tree, inside: bool)
    ensures Linked(t, inside) == |LinkTexts([t], inside)|
    decreases t
  {
    assert [t][1..] == [];
    if t.Element? {
      LinkedAllIsLinkTexts(t.kids, inside || t.tag == "A");
    }
  }

  lemma {:induction false} LinkedAllIsLinkTexts(ts: seq<Tree>, inside: bool)
    ensures LinkedAll(ts, inside) == |LinkTexts(ts, inside)|
    decreases ts
  {
    if ts != [] {
      var n := |ts| - 1;
      assert ts == ts[..n] + [ts[n]];
      LinkedAllIsLinkTexts(ts[..n], inside);
      LinkedIsLinkTexts(ts[n], inside);
      LinkTextsConcat(ts[..n], [ts[n]], inside);
    }
  }
}
