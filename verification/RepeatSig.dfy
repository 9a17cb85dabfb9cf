/**
 * What the repeat signature of a page node (libqvdom/vdom.h, build_repeat_sig) tells apart.
 *
 * The signature prints the node's skeleton: its elements, without the texts and with the
 * mark-up elements spliced out. `Read` takes such a print apart again, so two nodes have the
 * same signature exactly when they have the same skeleton - as long as no tag holds one of
 * the two separators.
 */
module RepeatSig {
  import opened VdomNode

  datatype Bone = Bone(tag: string, kids: seq<Bone>)

  /** The tags that leave no trace in a signature. */
  predicate IsMarkup(tag: string) {
    tag == "B" || tag == "EM" || tag == "FONT" || tag == "FORM" || tag == "I" || tag == "STRONG"
  }

  lemma MarkupIsMarked(tag: string)
    ensures Marks(tag) <==> IsMarkup(tag)
  {
  }

  function Skeleton(t: Tree): seq<Bone> {
    match t
    case Text(_) => []
    case Element(tag, _, kids) => if IsMarkup(tag) then SkeletonAll(kids) else [Bone(tag, SkeletonAll(kids))]
  }

  function SkeletonAll(ts: seq<Tree>): seq<Bone> {
    if ts == [] then [] else SkeletonAll(ts[..|ts| - 1]) + Skeleton(ts[|ts| - 1])
  }

  function Print(b: Bone): string {
    "#" + b.tag + PrintAll(b.kids) + "-" + b.tag
  }

  function PrintAll(bs: seq<Bone>): string {
    if bs == [] then "" else Print(bs[0]) + PrintAll(bs[1..])
  }

  lemma {:induction false} PrintAllConcat(a: seq<Bone>, b: seq<Bone>)
    ensures PrintAll(a + b) == PrintAll(a) + PrintAll(b)
  {
    if a == [] {
      assert a + b == b;
    } else {
      assert (a + b)[1..] == a[1..] + b;
      PrintAllConcat(a[1..], b);
    }
  }

  /** The signature is the print of the skeleton. */
  lemma {:induction false} SigPrintsSkeleton(t: Tree)
    ensures Sig(t) == PrintAll(Skeleton(t))
    decreases t
  {
    hide Marks, IsMarkup;
    if t.Element? {
      MarkupIsMarked(t.tag);
      SigAllPrintsSkeleton(t.kids);
      if !IsMarkup(t.tag) {
        var b := Bone(t.tag, SkeletonAll(t.kids));
        assert [b][1..] == [];
        assert PrintAll([b]) == Print(b) + PrintAll([]) == Print(b);
      }
    }
  }

  lemma {:induction false} SigAllPrintsSkeleton(ts: seq<Tree>)
    ensures SigAll(ts) == PrintAll(SkeletonAll(ts))
    decreases ts
  {
    if ts != [] {
      var n := |ts| - 1;
      SigAllPrintsSkeleton(ts[..n]);
      SigPrintsSkeleton(ts[n]);
      PrintAllConcat(SkeletonAll(ts[..n]), Skeleton(ts[n]));
    }
  }

  // ---- reading a signature back ----

  predicate Separator(c: char) {
    c == '#' || c == '-'
  }

  predicate Plain(tag: string) {
    forall c <- tag :: !Separator(c)
  }

  predicate AllPlain(bs: seq<Bone>) {
    forall b <- bs :: Plain(b.tag) && AllPlain(b.kids)
  }

  function TagOf(s: string): (tag: string)
    ensures |tag| <= |s| && tag == s[..|tag|]
  {
    if s == "" || Separator(s[0]) then "" else [s[0]] + TagOf(s[1..])
  }

  datatype Reading = Read(bones: seq<Bone>, rest: string) | Garbled

  /** Read as many skeletons as there are, up to a closing tag or the end. */
  function Read(s: string): (r: Reading)
    ensures r.Read? ==> |r.rest| <= |s|
    decreases |s|
  {
    if s == "" || s[0] != '#' then Reading.Read([], s) else
      var tag := TagOf(s[1..]);
      var inner := Read(s[1 + |tag|..]);
      if inner.Garbled? then Garbled else
        var close := "-" + tag;
        if !(close <= inner.rest) then Garbled else
          var after := Read(inner.rest[|close|..]);
          if after.Garbled? then Garbled else
            Reading.Read([Bone(tag, inner.bones)] + after.bones, after.rest)
  }

  lemma {:induction false} TagStops(tag: string, rest: string)
    requires Plain(tag) && (rest == "" || Separator(rest[0]))
    ensures TagOf(tag + rest) == tag
  {
    if tag == "" {
      assert tag + rest == rest;
    } else {
      assert (tag + rest)[0] == tag[0] && tag[0] in tag;
      assert (tag + rest)[1..] == tag[1..] + rest;
      assert forall c <- tag[1..] :: c in tag;
      TagStops(tag[1..], rest);
    }
  }

  /** A print followed by a closing tag, or by nothing, reads back as what was printed. */
  lemma {:induction false} ReadPrint(bs: seq<Bone>, rest: string)
    requires AllPlain(bs) && (rest == "" || rest[0] == '-')
    ensures Read(PrintAll(bs) + rest) == Reading.Read(bs, rest)
    decreases bs
  {
    hide Read, TagOf, Plain, AllPlain, Print;
    if bs == [] {
      assert PrintAll(bs) + rest == rest;
      ReadNone(rest);
    } else {
      hide PrintAll;
      var b := bs[0];
      var after := PrintAll(bs[1..]) + rest;
      var closing := ("-" + b.tag) + after;
      PlainParts(bs);
      PrintLayout(bs, rest);
      TailSeparates(b.kids, closing);
      TagStops(b.tag, PrintAll(b.kids) + closing);
      ReadPrint(b.kids, closing);
      ReadPrint(bs[1..], rest);
      ReadOne(b.tag, PrintAll(b.kids) + closing, b.kids, after, bs[1..], rest);
      assert [b] + bs[1..] == bs;
    }
  }

  lemma PlainParts(bs: seq<Bone>)
    requires AllPlain(bs) && bs != []
    ensures Plain(bs[0].tag) && AllPlain(bs[0].kids) && AllPlain(bs[1..])
  {
    hide Plain;
    assert bs[0] in bs && forall b <- bs[1..] :: b in bs;
  }

  lemma ReadNone(rest: string)
    requires rest == "" || rest[0] == '-'
    ensures Read(rest) == Reading.Read([], rest)
  {
  }

  lemma ReadOne(tag: string, tail: string, kids: seq<Bone>, after: string, more: seq<Bone>, rest: string)
    requires TagOf(tag + tail) == tag
    requires Read(tail) == Reading.Read(kids, ("-" + tag) + after)
    requires Read(after) == Reading.Read(more, rest)
    ensures Read("#" + (tag + tail)) == Reading.Read([Bone(tag, kids)] + more, rest)
  {
    var s := "#" + (tag + tail);
    assert s[1..] == tag + tail;
    assert s[1 + |tag|..] == tail;
    var close := "-" + tag;
    assert (close + after)[|close|..] == after;
  }

  lemma PrintLayout(bs: seq<Bone>, rest: string)
    requires bs != []
    ensures PrintAll(bs) + rest
         == "#" + (bs[0].tag + (PrintAll(bs[0].kids) + (("-" + bs[0].tag) + (PrintAll(bs[1..]) + rest))))
  {
    Regroup(bs[0].tag, PrintAll(bs[0].kids), PrintAll(bs[1..]), rest);
  }

  lemma Regroup(tag: string, kids: string, more: string, rest: string)
    ensures ("#" + tag + kids + "-" + tag + more) + rest == "#" + (tag + (kids + (("-" + tag) + (more + rest))))
  {
    assert ("#" + tag + kids + "-" + tag + more) + rest == "#" + (tag + kids + "-" + tag + more + rest);
    assert tag + kids + "-" + tag + more + rest == tag + (kids + "-" + tag + more + rest);
    assert kids + "-" + tag + more + rest == kids + ("-" + tag + more + rest);
    assert "-" + tag + more + rest == ("-" + tag) + (more + rest);
  }

  lemma TailSeparates(bs: seq<Bone>, rest: string)
    requires rest != "" && rest[0] == '-'
    ensures Separator((PrintAll(bs) + rest)[0])
  {
    if bs != [] {
      assert PrintAll(bs)[0] == Print(bs[0])[0] == '#';
    }
  }

  /** No tag that reaches the signature holds a separator. */
  predicate PlainTags(t: Tree) {
    t.Element? ==> (IsMarkup(t.tag) || Plain(t.tag)) && forall kid <- t.kids :: PlainTags(kid)
  }

  lemma {:induction false} PlainSkeleton(t: Tree)
    requires PlainTags(t)
    ensures AllPlain(Skeleton(t))
    decreases t
  {
    if t.Element? {
      PlainSkeletonAll(t.kids);
    }
  }

  lemma {:induction false} PlainSkeletonAll(ts: seq<Tree>)
    requires forall t <- ts :: PlainTags(t)
    ensures AllPlain(SkeletonAll(ts))
    decreases ts
  {
    if ts != [] {
      PlainSkeletonAll(ts[..|ts| - 1]);
      PlainSkeleton(ts[|ts| - 1]);
    }
  }

  /** The signature can be undone: it reads back as the skeleton, with nothing left over. */
  lemma SigReadsBack(t: Tree)
    requires PlainTags(t)
    ensures Read(Sig(t)) == Reading.Read(Skeleton(t), "")
  {
    PlainSkeleton(t);
    PlainSkeletonReadsBack(t);
  }

  /** Two nodes are grouped as repeats of each other exactly when their skeletons are equal. */
  lemma SameSigIffSameSkeleton(t: Tree, u: Tree)
    requires PlainTags(t) && PlainTags(u)
    ensures Sig(t) == Sig(u) <==> Skeleton(t) == Skeleton(u)
  {
    SigReadsBack(t);
    SigReadsBack(u);
    SigPrintsSkeleton(t);
    SigPrintsSkeleton(u);
  }

  /** Equal skeletons always sign alike, whatever the tags are called. */
  lemma SameSkeletonSameSig(t: Tree, u: Tree)
    requires Skeleton(t) == Skeleton(u)
    ensures Sig(t) == Sig(u)
  {
    SigPrintsSkeleton(t);
    SigPrintsSkeleton(u);
  }

  // ---- what the separators are kept out for ----

  function Leaf(tag: string): Bone {
    Bone(tag, [])
  }

  lemma PrintOne(b: Bone)
    ensures PrintAll([b]) == Print(b)
  {
    assert [b][1..] == [];
    assert PrintAll([b]) == Print(b) + "";
  }

  lemma PrintMore(b: Bone, bs: seq<Bone>)
    ensures PrintAll([b] + bs) == Print(b) + PrintAll(bs)
  {
    assert ([b] + bs)[1..] == bs;
  }

  lemma PrintLeaf(tag: string)
    ensures Print(Leaf(tag)) == "#" + tag + "-" + tag
  {
    assert "#" + tag + "" == "#" + tag;
  }

  /** With a dash in a tag, one element in another and two side by side print alike. */
  lemma DashedTagsCollide(a: string)
    ensures PrintAll([Bone(a + "-" + a, [Leaf(a)])]) == PrintAll([Leaf(a), Leaf(a + "-" + a)])
  {
    var d := a + "-" + a;
    PrintOne(Bone(d, [Leaf(a)]));
    PrintOne(Leaf(a));
    PrintMore(Leaf(a), [Leaf(d)]);
    assert [Leaf(a)] + [Leaf(d)] == [Leaf(a), Leaf(d)];
    PrintOne(Leaf(d));
    PrintLeaf(a);
    PrintLeaf(d);
    hide Print, PrintAll;
    DashStrings(a);
  }

  lemma DashStrings(a: string)
    ensures var d := a + "-" + a;
            "#" + d + ("#" + a + "-" + a) + "-" + d == ("#" + a + "-" + a) + ("#" + d + "-" + d)
  {
    var d := a + "-" + a;
    assert "#" + a + "-" + a == "#" + d;
  }

  /** With a hash in a tag, two elements in another and three side by side print alike. */
  lemma HashedTagsCollide(a: string)
    ensures var x, y := Leaf(a), Leaf(a + "#" + a);
            PrintAll([Bone(a, [x, y])]) == PrintAll([y, x, x])
  {
    var x, y := Leaf(a), Leaf(a + "#" + a);
    PrintOne(Bone(a, [x, y]));
    PrintOne(y);
    PrintMore(x, [y]);
    assert [x] + [y] == [x, y];
    PrintOne(x);
    PrintMore(x, [x]);
    assert [x] + [x] == [x, x];
    PrintMore(y, [x, x]);
    assert [y] + [x, x] == [y, x, x];
    PrintLeaf(a);
    PrintLeaf(a + "#" + a);
    HashStrings(a);
  }

  lemma HashStrings(a: string)
    ensures var h := a + "#" + a;
            var x, y := "#" + a + "-" + a, "#" + h + "-" + h;
            "#" + a + (x + y) + "-" + a == y + (x + x)
  {
    var h := a + "#" + a;
    var x, y := "#" + a + "-" + a, "#" + h + "-" + h;
    assert y == "#" + a + x + ("#" + a);
    assert "#" + a + (x + y) + "-" + a == "#" + a + x + (y + ("-" + a));
    assert y + (x + x) == "#" + a + x + ("#" + a + (x + x));
    assert y + ("-" + a) == "#" + a + (x + ("#" + a)) + ("-" + a);
    assert ("#" + a) + ("-" + a) == x;
    assert "#" + a + (x + ("#" + a)) + ("-" + a) == "#" + a + (x + x);
  }

  predicate Over(tag: string, c: char, letter: char) {
    forall d <- tag :: d == c || d == letter
  }

  predicate AllOver(bs: seq<Bone>, c: char, letter: char) {
    forall b <- bs :: Over(b.tag, c, letter) && AllOver(b.kids, c, letter)
  }

  predicate Collide(bs: seq<Bone>, cs: seq<Bone>) {
    bs != cs && PrintAll(bs) == PrintAll(cs)
  }

  lemma {:induction false} PlainOver(bs: seq<Bone>, c: char, letter: char)
    requires AllOver(bs, c, letter) && !Separator(c) && !Separator(letter)
    ensures AllPlain(bs)
  {
    forall b | b in bs
      ensures AllPlain(b.kids)
    {
      PlainOver(b.kids, c, letter);
    }
  }

  // ---- the same on nodes ----

  /** A node with a given skeleton, as long as no tag is a mark-up tag. */
  function Bare(b: Bone): Tree {
    Element(b.tag, OTHER, BareAll(b.kids))
  }

  function BareAll(bs: seq<Bone>): (ts: seq<Tree>)
    ensures |ts| == |bs|
  {
    if bs == [] then [] else BareAll(bs[..|bs| - 1]) + [Bare(bs[|bs| - 1])]
  }

  predicate NoMarkup(bs: seq<Bone>) {
    forall b <- bs :: !IsMarkup(b.tag) && NoMarkup(b.kids)
  }

  /** Every skeleton without mark-up tags is the skeleton of some node. */
  lemma {:induction false} BareSkeleton(b: Bone)
    requires !IsMarkup(b.tag) && NoMarkup(b.kids)
    ensures Skeleton(Bare(b)) == [b]
    decreases b
  {
    hide IsMarkup;
    BareAllSkeleton(b.kids);
  }

  lemma {:induction false} BareAllSkeleton(bs: seq<Bone>)
    requires NoMarkup(bs)
    ensures SkeletonAll(BareAll(bs)) == bs
    decreases bs
  {
    hide IsMarkup, Bare, Skeleton, NoMarkup;
    if bs != [] {
      var n := |bs| - 1;
      NoMarkupApart(bs);
      BareAllSkeleton(bs[..n]);
      BareSkeleton(bs[n]);
      assert BareAll(bs) == BareAll(bs[..n]) + [Bare(bs[n])];
      SkeletonAllStep(BareAll(bs[..n]), Bare(bs[n]));
      hide SkeletonAll, BareAll;
      assert bs[..n] + [bs[n]] == bs;
    }
  }

  lemma NoMarkupApart(bs: seq<Bone>)
    requires NoMarkup(bs) && bs != []
    ensures var n := |bs| - 1;
            NoMarkup(bs[..n]) && !IsMarkup(bs[n].tag) && NoMarkup(bs[n].kids)
  {
    hide IsMarkup;
    assert bs[|bs| - 1] in bs;
  }

  lemma SkeletonAllStep(ts: seq<Tree>, t: Tree)
    ensures SkeletonAll(ts + [t]) == SkeletonAll(ts) + Skeleton(t)
  {
    assert (ts + [t])[..|ts|] == ts;
  }

  /** Two nodes that are taken for repeats of each other although their skeletons differ. */
  predicate Confused(t: Tree, u: Tree) {
    Sig(t) == Sig(u) && Skeleton(t) != Skeleton(u)
  }

  lemma CollidingNodes(tag: string, bs: seq<Bone>, cs: seq<Bone>)
    requires Collide(bs, cs) && NoMarkup(bs) && NoMarkup(cs) && !IsMarkup(tag)
    ensures Skeleton(Bare(Bone(tag, bs))) == [Bone(tag, bs)] && Skeleton(Bare(Bone(tag, cs))) == [Bone(tag, cs)]
    ensures Confused(Bare(Bone(tag, bs)), Bare(Bone(tag, cs)))
  {
    hide IsMarkup;
    var b, c := Bone(tag, bs), Bone(tag, cs);
    BareSkeleton(b);
    BareSkeleton(c);
    SigPrintsSkeleton(Bare(b));
    SigPrintsSkeleton(Bare(c));
    PrintOne(b);
    PrintOne(c);
  }

  lemma DoubledIsNoMark(letter: char, c: char)
    ensures var a := [letter, letter];
            !IsMarkup(a) && !IsMarkup(a + [c] + a)
  {
    var a, s := [letter, letter], [letter, letter] + [c] + [letter, letter];
    assert a[0] == a[1] && s[0] == s[1] == s[3] == s[4];
  }

  /**
   * Exactly the two separators must be kept out of tags: with one character c beside an ordinary
   * letter in the tags that reach the signature, two nodes can be confused if and only if c is a
   * separator.
   */
  lemma OnlySeparatorsConfuse(c: char, letter: char)
    requires !Separator(letter)
    ensures (exists t, u :: AllOver(Skeleton(t), c, letter) && AllOver(Skeleton(u), c, letter) && Confused(t, u))
            <==> Separator(c)
  {
    hide IsMarkup;
    if Separator(c) {
      var a := [letter, letter];
      var bs, cs := SeparatorCollides(c, letter);
      var t, u := Bare(Bone(a, bs)), Bare(Bone(a, cs));
      DoubledIsNoMark(letter, c);
      CollidingNodes(a, bs, cs);
      assert AllOver(Skeleton(t), c, letter) && AllOver(Skeleton(u), c, letter);
    } else {
      forall t, u | AllOver(Skeleton(t), c, letter) && AllOver(Skeleton(u), c, letter)
        ensures !Confused(t, u)
      {
        PlainOver(Skeleton(t), c, letter);
        PlainOver(Skeleton(u), c, letter);
        PlainSkeletonReadsBack(t);
        PlainSkeletonReadsBack(u);
      }
    }
  }

  lemma LeavesFit(bs: seq<Bone>, c: char, letter: char)
    requires forall i :: 0 <= i < |bs| ==> bs[i].kids == [] && !IsMarkup(bs[i].tag) && Over(bs[i].tag, c, letter)
    ensures NoMarkup(bs) && AllOver(bs, c, letter)
  {
  }

  lemma SeparatorCollides(c: char, letter: char) returns (bs: seq<Bone>, cs: seq<Bone>)
    requires Separator(c)
    ensures Collide(bs, cs) && NoMarkup(bs) && NoMarkup(cs) && AllOver(bs, c, letter) && AllOver(cs, c, letter)
  {
    hide IsMarkup, PrintAll;
    var a := [letter, letter];
    var d := a + [c] + a;
    var x, y := Leaf(a), Leaf(d);
    DoubledIsNoMark(letter, c);
    assert d == [letter, letter, c, letter, letter];
    assert Over(a, c, letter) && Over(d, c, letter);
    LeavesFit([x], c, letter);
    LeavesFit([x, y], c, letter);
    LeavesFit([y, x, x], c, letter);
    if c == '-' {
      DashedTagsCollide(a);
      assert a + "-" + a == d;
      bs, cs := [Bone(d, [x])], [x, y];
    } else {
      HashedTagsCollide(a);
      assert a + "#" + a == d;
      bs, cs := [Bone(a, [x, y])], [y, x, x];
    }
  }

  lemma PlainSkeletonReadsBack(t: Tree)
    requires AllPlain(Skeleton(t))
    ensures Read(Sig(t)) == Reading.Read(Skeleton(t), "")
  {
    SigPrintsSkeleton(t);
    ReadPrint(Skeleton(t), "");
    assert PrintAll(Skeleton(t)) + "" == PrintAll(Skeleton(t));
  }
}
