/**
 * Putting the text of the page together (Extractor::merge_content_block in
 * qcontentextractor/vdom_content_extractor.cpp): the content blocks with marks between them
 * or, when there are none or the page is a list, every block that is not bad.
 */
module ContentMerge {
  /** What the merge sees of a block. */
  datatype Part = Part(content: bool, bad: bool, text: string, allBlank: bool, ownLine: bool)

  const SECTION := "\U{3}"
  const PARAGRAPH := "\U{2}"

  /** The last content block before position j, or -1. */
  function Previous(ps: seq<Part>, j: nat): (i: int)
    requires j <= |ps|
    ensures -1 <= i < j
    ensures i >= 0 ==> ps[i].content
    ensures forall k :: i < k < j ==> !ps[k].content
  {
    if j == 0 then -1 else if ps[j - 1].content then j - 1 else Previous(ps, j - 1)
  }

  /**
   * What comes before the text of content block j: a section mark when blocks were left out since
   * the previous content block, a space when that one was not blank, a mark for a line of its own.
   */
  function Lead(ps: seq<Part>, j: nat): string
    requires j < |ps|
  {
    var i := Previous(ps, j);
    (if 0 <= i < j - 1 then SECTION else "")
    + (if i >= 0 && !ps[i].allBlank then " " else "")
    + (if ps[j].ownLine then PARAGRAPH else "")
  }

  function ContentUpTo(ps: seq<Part>, n: nat): string
    requires n <= |ps|
  {
    if n == 0 then "" else
      ContentUpTo(ps, n - 1) + if ps[n - 1].content then Lead(ps, n - 1) + ps[n - 1].text else ""
  }

  function RestUpTo(ps: seq<Part>, n: nat): string
    requires n <= |ps|
  {
    if n == 0 then "" else
      RestUpTo(ps, n - 1)
      + if ps[n - 1].bad then "" else ps[n - 1].text + if ps[n - 1].ownLine then PARAGRAPH else ""
  }

  function Merged(ps: seq<Part>, isList: bool): string {
    if !isList && Previous(ps, |ps|) >= 0 then ContentUpTo(ps, |ps|) else RestUpTo(ps, |ps|)
  }

  /** Two pages that differ at most in what their bad blocks say. */
  predicate SameButBad(ps: seq<Part>, qs: seq<Part>) {
    && |ps| == |qs|
    && forall i :: 0 <= i < |ps| ==> ps[i] == qs[i] || (ps[i].bad && qs[i].bad && !ps[i].content && !qs[i].content)
  }

  /** Nothing of a bad block shows, not even in the marks around the others. */
  lemma BadBlocksDoNotShow(ps: seq<Part>, qs: seq<Part>, isList: bool)
    requires SameButBad(ps, qs)
    ensures Merged(ps, isList) == Merged(qs, isList)
  {
    SamePrevious(ps, qs, |ps|);
    SameContent(ps, qs, |ps|);
    SameRest(ps, qs, |ps|);
  }

  lemma {:induction false} SamePrevious(ps: seq<Part>, qs: seq<Part>, n: nat)
    requires SameButBad(ps, qs) && n <= |ps|
    ensures Previous(ps, n) == Previous(qs, n)
  {
    if n > 0 {
      SamePrevious(ps, qs, n - 1);
    }
  }

  lemma {:induction false} SameContent(ps: seq<Part>, qs: seq<Part>, n: nat)
    requires SameButBad(ps, qs) && n <= |ps|
    ensures ContentUpTo(ps, n) == ContentUpTo(qs, n)
  {
    if n > 0 {
      SameContent(ps, qs, n - 1);
      SamePrevious(ps, qs, n - 1);
    }
  }

  lemma {:induction false} SameRest(ps: seq<Part>, qs: seq<Part>, n: nat)
    requires SameButBad(ps, qs) && n <= |ps|
    ensures RestUpTo(ps, n) == RestUpTo(qs, n)
  {
    if n > 0 {
      SameRest(ps, qs, n - 1);
    }
  }
}
