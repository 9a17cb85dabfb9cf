/**
 What the splitter of the near-duplicate test finds, said by the places of the marks alone, and what
 its verdict means.
 */
module SentenceLaws {
  import opened DedupSpec

  // ---------- Marks ----------

  const ENDS := 11

  /**
   What ends a sentence: ASCII full stop, exclamation, question, semicolon, line feed and SOH; then in
   UTF-8 U+3002, U+FF01, U+FF1F, U+FF1B and U+00B7.
   */
  function End(k: nat): (mark: Bytes)
    requires k < ENDS
    ensures 1 <= |mark| <= 3
  {
    match k
    case 0 => ['.' as bv8]
    case 1 => ['!' as bv8]
    case 2 => ['?' as bv8]
    case 3 => [';' as bv8]
    case 4 => [10]
    case 5 => [1]
    case 6 => [0xE3, 0x80, 0x82]
    case 7 => [0xEF, 0xBC, 0x81]
    case 8 => [0xEF, 0xBC, 0x9F]
    case 9 => [0xEF, 0xBC, 0x9B]
    case _ => [0xC2, 0xB7]
  }

  /** Mark `k` stands at position `p`. */
  predicate EndsAt(s: Bytes, p: nat, k: nat)
    requires k < ENDS
  {
    p + |End(k)| <= |s| && forall i :: 0 <= i < |End(k)| ==> s[p + i] == End(k)[i]
  }

  lemma OneByteEnd(s: Bytes, p: nat, k: nat)
    requires k < 6 && p < |s|
    ensures EndsAt(s, p, k) <==> s[p] == End(k)[0]
  {
    if s[p] == End(k)[0] {
      assert |End(k)| == 1;
    } else {
      assert s[p + 0] != End(k)[0];
    }
  }

  lemma LongEnd(s: Bytes, p: nat, k: nat)
    requires 6 <= k < ENDS && p < |s|
    ensures EndsAt(s, p, k) <==> StartsWith(s, p, MARKS[k - 6])
  {
    var mark := End(k);
    assert MARKS[k - 6] == mark;
    if StartsWith(s, p, mark) {
      LastByteIsInside(s, p, mark);
    }
  }

  lemma LastByteIsInside(s: Bytes, p: nat, mark: Bytes)
    requires mark != [] && mark[|mark| - 1] != 0 && StartsWith(s, p, mark)
    ensures p + |mark| <= |s| && forall i :: 0 <= i < |mark| ==> s[p + i] == mark[i]
  {
    assert At(s, p + (|mark| - 1)) == mark[|mark| - 1];
    forall i | 0 <= i < |mark|
      ensures s[p + i] == mark[i]
    {
      assert At(s, p + i) == mark[i];
    }
  }

  /** No byte of a mark but its first is the first byte of a mark. */
  lemma MarksStartApart(j: nat, i: nat, k: nat)
    requires j < ENDS && k < ENDS && 0 < i < |End(j)|
    ensures End(j)[i] != End(k)[0]
  {
  }

  lemma OneMarkAtATime(s: Bytes, p: nat, j: nat, k: nat)
    requires j < ENDS && k < ENDS && EndsAt(s, p, j) && EndsAt(s, p, k)
    ensures j == k
  {
    assert forall i :: 0 <= i < |End(j)| ==> s[p + i] == End(j)[i];
    assert s[p + 0] == End(j)[0] == End(k)[0];
    SameStart(j, k);
    if |End(j)| == 3 && |End(k)| == 3 {
      assert s[p + 1] == End(j)[1] == End(k)[1] && s[p + 2] == End(j)[2] == End(k)[2];
    }
    SameMark(j, k);
  }

  lemma SameStart(j: nat, k: nat)
    requires j < ENDS && k < ENDS && End(j)[0] == End(k)[0]
    ensures |End(j)| == |End(k)| && (|End(j)| < 3 ==> j == k)
  {
  }

  lemma SameMark(j: nat, k: nat)
    requires j < ENDS && k < ENDS && |End(j)| == |End(k)|
    requires forall i :: 0 <= i < |End(j)| ==> End(j)[i] == End(k)[i]
    ensures j == k
  {
    assert End(j)[0] == End(k)[0];
    if |End(j)| == 3 {
      assert End(j)[1] == End(k)[1] && End(j)[2] == End(k)[2];
    }
  }

  lemma IsMarkMeans(b: bv8)
    ensures IsMark(b) <==> exists k :: 0 <= k < 6 && End(k)[0] == b
  {
    if IsMark(b) {
      assert b == End(0)[0] || b == End(1)[0] || b == End(2)[0] || b == End(3)[0] || b == End(4)[0] || b == End(5)[0];
    }
  }

  /** `start_with_punct` finds the mark that stands at `p`, if one does. */
  lemma PunctSizeMeans(s: Bytes, p: nat, k: nat)
    requires p < |s| && k < ENDS
    ensures EndsAt(s, p, k) ==> PunctSize(s, p) == |End(k)|
    ensures PunctSize(s, p) > 0 ==> exists j :: 0 <= j < ENDS && EndsAt(s, p, j)
  {
    hide IsMark, StartsWith, EndsAt;
    IsMarkMeans(s[p]);
    if IsMark(s[p]) {
      var j :| 0 <= j < 6 && End(j)[0] == s[p];
      OneByteEnd(s, p, j);
      if EndsAt(s, p, k) {
        OneMarkAtATime(s, p, j, k);
      }
    } else {
      forall j | 0 <= j < ENDS
        ensures EndsAt(s, p, j) <==> j >= 6 && StartsWith(s, p, MARKS[j - 6])
        ensures EndsAt(s, p, j) && EndsAt(s, p, k) ==> j == k
      {
        if EndsAt(s, p, j) && EndsAt(s, p, k) {
          OneMarkAtATime(s, p, j, k);
        }
        if j < 6 {
          OneByteEnd(s, p, j);
        } else {
          LongEnd(s, p, j);
        }
      }
      assert forall m :: 0 <= m < 5 && StartsWith(s, p, MARKS[m]) ==> EndsAt(s, p, m + 6);
    }
  }

  /** Two marks in one text have no byte in common. */
  lemma MarksAreApart(s: Bytes, p: nat, j: nat, q: nat, k: nat)
    requires j < ENDS && k < ENDS && EndsAt(s, p, j) && EndsAt(s, q, k) && p <= q < p + |End(j)|
    ensures p == q && j == k
  {
    hide End;
    if p < q {
      assert s[p + (q - p)] == End(j)[q - p] && s[q + 0] == End(k)[0];
      MarksStartApart(j, q - p, k);
      assert false;
    }
    OneMarkAtATime(s, p, j, k);
  }

  // ---------- Stretches ----------

  /** Byte `q` belongs to a mark. */
  ghost predicate InMark(s: Bytes, q: nat) {
    exists p: nat, k: nat :: k < ENDS && EndsAt(s, p, k) && p <= q < p + |End(k)|
  }

  /** The bytes `from` up to `to` lie between two marks, or an end of the text. */
  ghost predicate Stretch(s: Bytes, from: nat, to: nat) {
    && from <= to <= |s|
    && (forall q :: from <= q < to ==> !InMark(s, q))
    && (from == 0 || InMark(s, from - 1))
    && (to == |s| || InMark(s, to))
  }

  datatype Span = Span(from: nat, to: nat)

  /** The sentences are long stretches, one after the other. */
  ghost predicate Located(s: Bytes, spans: seq<Span>, ss: seq<Bytes>) {
    && |spans| == |ss|
    && (forall k :: 0 <= k < |ss| ==>
          && Stretch(s, spans[k].from, spans[k].to) && spans[k].to - spans[k].from > 20
          && ss[k] == s[spans[k].from..spans[k].to])
    && (forall j, k :: 0 <= j < k < |ss| ==> spans[j].to < spans[k].from)
  }

  /** No long stretch from `start` on was left out: of all the text, or up to the last one found. */
  ghost predicate Complete(s: Bytes, start: nat, spans: seq<Span>, all: bool) {
    forall i: nat, j: nat :: start <= i && Stretch(s, i, j) && j - i > 20
                   && (all || (spans != [] && i <= spans[|spans| - 1].from))
                   ==> Span(i, j) in spans
  }

  /** Where the splitter stands: at `p`, in no mark's inside, with a stretch under way since `from`. */
  ghost predicate UnderWay(s: Bytes, from: nat, p: nat) {
    && from <= p <= |s|
    && (from == 0 || InMark(s, from - 1))
    && (forall q :: from <= q < p ==> !InMark(s, q))
    && (InMark(s, p) ==> exists k :: 0 <= k < ENDS && EndsAt(s, p, k))
  }

  lemma NoMarkHere(s: Bytes, from: nat, p: nat)
    requires UnderWay(s, from, p) && p < |s| && PunctSize(s, p) == 0
    ensures !InMark(s, p) && UnderWay(s, from, p + 1)
  {
    hide PunctSize, EndsAt, End;
    if InMark(s, p) {
      var k :| 0 <= k < ENDS && EndsAt(s, p, k);
      PunctSizeMeans(s, p, k);
      assert false;
    }
    if InMark(s, p + 1) {
      var q: nat, k: nat :| k < ENDS && EndsAt(s, q, k) && q <= p + 1 < q + |End(k)|;
      assert q == p + 1;
    }
  }

  lemma MarkHere(s: Bytes, from: nat, p: nat)
    requires UnderWay(s, from, p) && p < |s| && PunctSize(s, p) > 0
    ensures var next := p + PunctSize(s, p);
            && next <= |s| && UnderWay(s, next, next) && Stretch(s, from, p)
            && forall q :: p <= q < next ==> InMark(s, q)
  {
    hide PunctSize, EndsAt, End;
    PunctSizeMeans(s, p, 0);
    var k :| 0 <= k < ENDS && EndsAt(s, p, k);
    PunctSizeMeans(s, p, k);
    EndInside(s, p, k);
    var next := p + PunctSize(s, p);
    if InMark(s, next) {
      var q: nat, j: nat :| j < ENDS && EndsAt(s, q, j) && q <= next < q + |End(j)|;
      if q < next {
        if q <= p {
          MarksAreApart(s, q, j, p, k);
        } else {
          MarksAreApart(s, p, k, q, j);
        }
        assert false;
      }
    }
  }

  lemma EndInside(s: Bytes, p: nat, k: nat)
    requires k < ENDS && EndsAt(s, p, k)
    ensures p + |End(k)| <= |s|
  {
  }

  /** Of the stretches that begin before the mark at `p` is over, only the one under way is long. */
  lemma OnlyOneStretch(s: Bytes, from: nat, p: nat, next: nat, i: nat, j: nat)
    requires UnderWay(s, from, p) && (p == |s| || InMark(s, p)) && p <= next
    requires forall q :: p <= q < next ==> InMark(s, q)
    requires from <= i < next || p == |s|
    requires from <= i && Stretch(s, i, j) && i < j
    ensures i == from && j == p
  {
    hide InMark;
    assert !InMark(s, i);
    assert i > 0 ==> InMark(s, i - 1);
  }

  lemma {:induction false} SplitFinds(s: Bytes, from: nat, p: nat, n: nat) returns (spans: seq<Span>)
    requires UnderWay(s, from, p) && n <= MAX_SENTENCES && (n == MAX_SENTENCES ==> from == p)
    ensures Located(s, spans, Split(s, from, p, n))
    ensures forall k :: 0 <= k < |spans| ==> from <= spans[k].from
    ensures Complete(s, from, spans, n + |spans| < MAX_SENTENCES)
    decreases |s| - p
  {
    hide PunctSize, InMark, UnderWay, Stretch, Located, Complete;
    UnderWayOrder(s, from, p);
    if p == |s| {
      spans := LastStretch(s, from);
    } else if n >= MAX_SENTENCES {
      spans := [];
      NothingFound(s, from, n);
    } else if PunctSize(s, p) == 0 {
      NoMarkHere(s, from, p);
      spans := SplitFinds(s, from, p + 1, n);
    } else {
      MarkHere(s, from, p);
      PunctFits(s, p);
      var next := p + PunctSize(s, p);
      var rest := SplitFinds(s, next, next, n + |Kept(s, from, p)|);
      spans := StretchThenRest(s, from, p, next, n, rest, Split(s, next, next, n + |Kept(s, from, p)|));
    }
  }

  lemma UnderWayOrder(s: Bytes, from: nat, p: nat)
    requires UnderWay(s, from, p)
    ensures from <= p <= |s|
  {
  }

  lemma LastStretch(s: Bytes, from: nat) returns (spans: seq<Span>)
    requires UnderWay(s, from, |s|)
    ensures Located(s, spans, Kept(s, from, |s|))
    ensures forall k :: 0 <= k < |spans| ==> from <= spans[k].from
    ensures Complete(s, from, spans, true) && Complete(s, from, spans, false)
  {
    hide InMark;
    spans := if |s| - from > 20 then [Span(from, |s|)] else [];
    forall i: nat, j: nat | from <= i && Stretch(s, i, j) && j - i > 20
      ensures Span(i, j) in spans
    {
      OnlyOneStretch(s, from, |s|, |s|, i, j);
    }
  }

  lemma NothingFound(s: Bytes, from: nat, n: nat)
    requires n >= MAX_SENTENCES
    ensures Located(s, [], []) && Complete(s, from, [], n < MAX_SENTENCES)
  {
  }

  lemma StretchThenRest(s: Bytes, from: nat, p: nat, next: nat, n: nat, rest: seq<Span>, ss: seq<Bytes>)
    returns (spans: seq<Span>)
    requires UnderWay(s, from, p) && p < next <= |s| && Stretch(s, from, p)
    requires forall q :: p <= q < next ==> InMark(s, q)
    requires Located(s, rest, ss)
    requires forall k :: 0 <= k < |rest| ==> next <= rest[k].from
    requires Complete(s, next, rest, n + |Kept(s, from, p)| + |rest| < MAX_SENTENCES)
    ensures Located(s, spans, Kept(s, from, p) + ss)
    ensures forall k :: 0 <= k < |spans| ==> from <= spans[k].from
    ensures Complete(s, from, spans, n + |spans| < MAX_SENTENCES)
  {
    hide InMark, UnderWay, Stretch, Located, Complete;
    UnderWayOrder(s, from, p);
    if p - from > 20 {
      spans := [Span(from, p)] + rest;
      LocatedFirst(s, from, p, next, rest, ss);
    } else {
      spans := rest;
      assert [] + ss == ss;
    }
    CompleteFirst(s, from, p, next, rest, spans, n + |spans| < MAX_SENTENCES);
  }

  lemma LocatedFirst(s: Bytes, from: nat, p: nat, next: nat, rest: seq<Span>, ss: seq<Bytes>)
    requires Stretch(s, from, p) && p - from > 20 && p < next
    requires Located(s, rest, ss) && forall k :: 0 <= k < |rest| ==> next <= rest[k].from
    ensures p <= |s| && Located(s, [Span(from, p)] + rest, [s[from..p]] + ss)
  {
    hide InMark;
    var spans, all := [Span(from, p)] + rest, [s[from..p]] + ss;
    forall k | 0 <= k < |all|
      ensures Stretch(s, spans[k].from, spans[k].to) && spans[k].to - spans[k].from > 20
      ensures all[k] == s[spans[k].from..spans[k].to]
    {
      if k > 0 {
        assert all[k] == ss[k - 1] && spans[k] == rest[k - 1];
      }
    }
    forall j, k | 0 <= j < k < |all|
      ensures spans[j].to < spans[k].from
    {
      assert spans[k] == rest[k - 1];
      assert j > 0 ==> spans[j] == rest[j - 1];
    }
  }

  lemma CompleteFirst(s: Bytes, from: nat, p: nat, next: nat, rest: seq<Span>, spans: seq<Span>, all: bool)
    requires UnderWay(s, from, p) && p < next <= |s| && Stretch(s, from, p)
    requires forall q :: p <= q < next ==> InMark(s, q)
    requires Complete(s, next, rest, all)
    requires spans == if p - from > 20 then [Span(from, p)] + rest else rest
    ensures Complete(s, from, spans, all)
  {
    hide InMark, UnderWay, Stretch;
    UnderWayOrder(s, from, p);
    assert InMark(s, p);
    forall i: nat, j: nat | from <= i && Stretch(s, i, j) && j - i > 20
                            && (all || (spans != [] && i <= spans[|spans| - 1].from))
      ensures Span(i, j) in spans
    {
      if i < next {
        OnlyOneStretch(s, from, p, next, i, j);
        assert spans[0] == Span(i, j);
      } else {
        assert Span(i, j) in rest;
      }
    }
  }

  /** The sentences are the first thousand stretches between marks that are longer than twenty bytes, in order. */
  lemma SentencesAreTheLongStretches(s: Bytes) returns (spans: seq<Span>)
    ensures Located(s, spans, Sentences(s)) && |spans| <= 1000
    ensures forall i: nat, j: nat :: Stretch(s, i, j) && j - i > 20 ==>
              Span(i, j) in spans || (|spans| == 1000 && i > spans[999].from)
  {
    hide Split, InMark, Stretch, EndsAt, End;
    assert UnderWay(s, 0, 0) by {
      AtStart(s);
    }
    SplitIsBounded(s, 0, 0, 0);
    spans := SplitFinds(s, 0, 0, 0);
    LocatedLength(s, spans, Sentences(s));
  }

  lemma AtStart(s: Bytes)
    ensures UnderWay(s, 0, 0)
  {
    hide EndsAt, End;
  }

  lemma LocatedLength(s: Bytes, spans: seq<Span>, ss: seq<Bytes>)
    requires Located(s, spans, ss)
    ensures |spans| == |ss|
  {
    hide Stretch;
  }

  // ---------- The verdict ----------

  function Joined(ss: seq<Bytes>): Bytes {
    if ss == [] then [] else ss[0] + Joined(ss[1..])
  }

  /** The sentences whose hash is in the index. */
  function Seen(index: Index, ss: seq<Bytes>, base: nat, site: bv64): seq<Bytes>
    requires base > 0
  {
    if ss == [] then []
    else (if Hash(ss[0], base, site) in index then [ss[0]] else []) + Seen(index, ss[1..], base, site)
  }

  lemma {:induction false} JoinedConcat(a: seq<Bytes>, b: seq<Bytes>)
    ensures Joined(a + b) == Joined(a) + Joined(b)
    decreases |a|
  {
    if a == [] {
      assert a + b == b;
    } else {
      assert (a + b)[1..] == a[1..] + b;
      JoinedConcat(a[1..], b);
    }
  }

  lemma {:induction false} SeenConcat(index: Index, a: seq<Bytes>, b: seq<Bytes>, base: nat, site: bv64)
    requires base > 0
    ensures Seen(index, a + b, base, site) == Seen(index, a, base, site) + Seen(index, b, base, site)
    decreases |a|
  {
    hide Hash;
    if a == [] {
      assert a + b == b;
    } else {
      assert (a + b)[1..] == a[1..] + b;
      SeenConcat(index, a[1..], b, base, site);
    }
  }

  lemma {:induction false} SizesAreLengths(index: Index, ss: seq<Bytes>, base: nat, site: bv64)
    requires base > 0
    ensures TotalSize(ss) == |Joined(ss)|
    ensures SeenSize(index, ss, base, site) == |Joined(Seen(index, ss, base, site))|
  {
    hide Hash;
    if ss != [] {
      var n := |ss| - 1;
      var last := [ss[n]];
      assert ss == ss[..n] + last;
      SizesAreLengths(index, ss[..n], base, site);
      JoinedConcat(ss[..n], last);
      SeenConcat(index, ss[..n], last, base, site);
      JoinedConcat(Seen(index, ss[..n], base, site), Seen(index, last, base, site));
      SeenOfOne(index, ss[n], base, site);
    }
  }

  lemma SeenOfOne(index: Index, s: Bytes, base: nat, site: bv64)
    requires base > 0
    ensures Seen(index, [s], base, site) == if Hash(s, base, site) in index then [s] else []
    ensures Joined([s]) == s && Joined([]) == []
  {
    assert [s][1..] == [];
  }

  /** Rejected means: no sentence at all, or at least 0.85 of the text in sentences was seen before. */
  lemma VerdictIsShareSeen(index: Index, d: Doc, base: nat)
    requires base > 0
    ensures var ss := Sentences(d.text);
            var seen := |Joined(Seen(index, ss, base, d.site))|;
            Rejects(index, d, base) <==> ss == [] || seen as real >= 0.85 * |Joined(ss)| as real
  {
    hide Hash, Sentences, Joined, Seen;
    var ss := Sentences(d.text);
    SizesAreLengths(index, ss, base, d.site);
    SentencesAreNotEmpty(d.text);
    assert (100 * SeenSize(index, ss, base, d.site)) as real == 100.0 * SeenSize(index, ss, base, d.site) as real;
  }

  lemma {:induction false} TotalSizeIsPositive(ss: seq<Bytes>)
    requires ss != [] && forall k :: 0 <= k < |ss| ==> ss[k] != []
    ensures TotalSize(ss) > 0
  {
  }

  lemma SentencesAreNotEmpty(s: Bytes)
    ensures Sentences(s) == [] <==> TotalSize(Sentences(s)) == 0
  {
    hide Sentences, InMark;
    var spans := SentencesAreTheLongStretches(s);
    var ss := Sentences(s);
    if ss != [] {
      forall k | 0 <= k < |ss|
        ensures ss[k] != []
      {
        assert ss[k] == s[spans[k].from..spans[k].to];
      }
      TotalSizeIsPositive(ss);
    }
  }
}
