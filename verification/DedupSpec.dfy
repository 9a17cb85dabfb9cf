/**
 The near-duplicate test as functions: how a text is cut into sentences, how a sentence is hashed,
 when a text is rejected and what accepting it adds to the index.
 */
module DedupSpec {

  type Bytes = seq<bv8>

  const MAX_SENTENCES := 1000
  const MIN_SIZE := 20

  // ---------- Hashing ----------

  predicate IsSpace(b: bv8) {
    b == 32 || 9 <= b <= 13
  }

  predicate IsDigit(b: bv8) {
    48 <= b <= 57
  }

  /** One byte: rotate left by one, then mix the byte in; with a site every digit counts as '_'. */
  function Mix(state: bv64, b: bv8, masked: bool): bv64 {
    if IsSpace(b) then state
    else
      var rotated := (state << 1) ^ ((state & 0x8000000000000000) >> 63);
      rotated ^ (if masked && IsDigit(b) then 95 else b as bv64)
  }

  function HashState(s: Bytes, state: bv64, masked: bool): bv64 {
    if s == [] then state else HashState(s[1..], Mix(state, s[0], masked), masked)
  }

  /** `hash_bytes`: below `base`; `site` is the hash of the site, or 0. */
  function Hash(s: Bytes, base: nat, site: bv64): (h: nat)
    requires base > 0
    ensures h < base
  {
    HashState(s, site, site != 0) as nat % base
  }

  // ---------- Sentences ----------

  /** The text is a C string: a NUL follows it. */
  function At(s: Bytes, i: nat): bv8 {
    if i < |s| then s[i] else 0
  }

  function StartsWith(s: Bytes, p: nat, mark: Bytes): bool {
    forall i :: 0 <= i < |mark| ==> At(s, p + i) == mark[i]
  }

  /** The multi-byte sentence marks, in UTF-8: full stop, exclamation, question, semicolon, middle dot. */
  const MARKS: seq<Bytes> :=
    [[0xE3, 0x80, 0x82], [0xEF, 0xBC, 0x81], [0xEF, 0xBC, 0x9F], [0xEF, 0xBC, 0x9B], [0xC2, 0xB7]]

  predicate IsMark(b: bv8) {
    b == '.' as bv8 || b == '!' as bv8 || b == '?' as bv8 || b == ';' as bv8 || b == 10 || b == 1
  }

  /** `start_with_punct`: the size of the sentence mark at `p`, 0 if there is none. */
  function PunctSize(s: Bytes, p: nat): nat {
    if IsMark(At(s, p)) then 1
    else if StartsWith(s, p, MARKS[0]) then 3
    else if StartsWith(s, p, MARKS[1]) then 3
    else if StartsWith(s, p, MARKS[2]) then 3
    else if StartsWith(s, p, MARKS[3]) then 3
    else if StartsWith(s, p, MARKS[4]) then 2
    else 0
  }

  /** A sentence mark lies inside the text. */
  lemma PunctFits(s: Bytes, p: nat)
    requires p < |s|
    ensures p + PunctSize(s, p) <= |s|
  {
    forall k | 0 <= k < 5 && StartsWith(s, p, MARKS[k])
      ensures p + |MARKS[k]| <= |s|
    {
      var last := |MARKS[k]| - 1;
      assert At(s, p + last) == MARKS[k][last] != 0;
    }
  }

  /** The sentence between two marks, if it is long enough to count. */
  function Kept(s: Bytes, from: nat, to: nat): seq<Bytes>
    requires from <= to <= |s|
  {
    if to - from > MIN_SIZE then [s[from..to]] else []
  }

  /** The sentences from position `p` on; `n` of them were found before, the current one began at `from`. */
  function Split(s: Bytes, from: nat, p: nat, n: nat): seq<Bytes>
    requires from <= p <= |s|
    decreases |s| - p
  {
    if p == |s| then Kept(s, from, p)
    else if n >= MAX_SENTENCES then []
    else if PunctSize(s, p) == 0 then Split(s, from, p + 1, n)
    else
      PunctFits(s, p);
      var next := p + PunctSize(s, p);
      Kept(s, from, p) + Split(s, next, next, n + |Kept(s, from, p)|)
  }

  function Sentences(s: Bytes): seq<Bytes> {
    Split(s, 0, 0, 0)
  }

  /** There are never more than `MAX_SENTENCES` of them, the unfinished one at the end included. */
  lemma {:induction false} SplitIsBounded(s: Bytes, from: nat, p: nat, n: nat)
    requires from <= p <= |s| && n <= MAX_SENTENCES
    requires n == MAX_SENTENCES ==> from == p
    ensures |Split(s, from, p, n)| <= MAX_SENTENCES - n
    decreases |s| - p
  {
    hide PunctSize;
    if p < |s| && n < MAX_SENTENCES {
      if PunctSize(s, p) == 0 {
        SplitIsBounded(s, from, p + 1, n);
      } else {
        PunctFits(s, p);
        var next := p + PunctSize(s, p);
        SplitIsBounded(s, next, next, n + |Kept(s, from, p)|);
      }
    }
  }

  // ---------- The verdict ----------

  type Index = set<nat>

  function TotalSize(ss: seq<Bytes>): nat {
    if ss == [] then 0 else TotalSize(ss[..|ss| - 1]) + |ss[|ss| - 1]|
  }

  /** The size of the sentences that the index has seen. */
  function SeenSize(index: Index, ss: seq<Bytes>, base: nat, site: bv64): nat
    requires base > 0
  {
    if ss == [] then 0
    else
      var last := ss[|ss| - 1];
      SeenSize(index, ss[..|ss| - 1], base, site) + if Hash(last, base, site) in index then |last| else 0
  }

  function Hashes(ss: seq<Bytes>, base: nat, site: bv64): Index
    requires base > 0
  {
    set i | 0 <= i < |ss| :: Hash(ss[i], base, site)
  }

  /** Rejected: nothing to judge by, or 85 percent of the text was seen before. */
  predicate Rejected(index: Index, ss: seq<Bytes>, base: nat, site: bv64)
    requires base > 0
  {
    TotalSize(ss) == 0 || 100 * SeenSize(index, ss, base, site) >= 85 * TotalSize(ss)
  }

  /** The index after a submission. */
  function Updated(index: Index, ss: seq<Bytes>, base: nat, site: bv64): Index
    requires base > 0
  {
    if Rejected(index, ss, base, site) then index else index + Hashes(ss, base, site)
  }

  // ---------- Runs ----------

  /** A submission: the hash of its site and its text. */
  datatype Doc = Doc(site: bv64, text: Bytes)

  predicate Rejects(index: Index, d: Doc, base: nat)
    requires base > 0
  {
    Rejected(index, Sentences(d.text), base, d.site)
  }

  function Submit(index: Index, d: Doc, base: nat): Index
    requires base > 0
  {
    Updated(index, Sentences(d.text), base, d.site)
  }

  function SubmitAll(index: Index, ds: seq<Doc>, base: nat): Index
    requires base > 0
    decreases |ds|
  {
    if ds == [] then index else SubmitAll(Submit(index, ds[0], base), ds[1..], base)
  }

  /** Bits are only ever set, and a rejection sets none. */
  lemma {:induction false} IndexOnlyGrows(index: Index, ds: seq<Doc>, base: nat)
    requires base > 0
    ensures index <= SubmitAll(index, ds, base)
    ensures (forall i :: 0 <= i < |ds| ==> Rejects(index, ds[i], base)) ==> SubmitAll(index, ds, base) == index
    decreases |ds|
  {
    hide Rejected;
    if ds != [] {
      IndexOnlyGrows(Submit(index, ds[0], base), ds[1..], base);
    }
  }

  lemma {:induction false} SeenSizeGrows(small: Index, large: Index, ss: seq<Bytes>, base: nat, site: bv64)
    requires base > 0 && small <= large
    ensures SeenSize(small, ss, base, site) <= SeenSize(large, ss, base, site) <= TotalSize(ss)
  {
    hide Hash;
    if ss != [] {
      SeenSizeGrows(small, large, ss[..|ss| - 1], base, site);
    }
  }

  lemma {:induction false} AllSeen(index: Index, ss: seq<Bytes>, base: nat, site: bv64)
    requires base > 0 && forall i :: 0 <= i < |ss| ==> Hash(ss[i], base, site) in index
    ensures SeenSize(index, ss, base, site) == TotalSize(ss)
  {
    hide Hash;
    if ss != [] {
      AllSeen(index, ss[..|ss| - 1], base, site);
    }
  }

  /** What a fuller index thinks of a text that a smaller one rejected. */
  lemma RejectionIsMonotone(small: Index, large: Index, d: Doc, base: nat)
    requires base > 0 && small <= large && Rejects(small, d, base)
    ensures Rejects(large, d, base)
  {
    SeenSizeGrows(small, large, Sentences(d.text), base, d.site);
  }

  /** Once submitted, whatever the verdict was and whatever comes in between, a text is rejected. */
  lemma SubmittedOnceIsRejectedForever(index: Index, d: Doc, between: seq<Doc>, base: nat)
    requires base > 0
    ensures Rejects(SubmitAll(Submit(index, d, base), between, base), d, base)
  {
    var ss := Sentences(d.text);
    var after := Submit(index, d, base);
    IndexOnlyGrows(after, between, base);
    if !Rejects(index, d, base) {
      AllSeen(after, ss, base, d.site);
    }
    RejectionIsMonotone(after, SubmitAll(after, between, base), d, base);
  }

  // ---------- Digits ----------

  /** The texts differ at most in which digits stand where there are digits. */
  predicate SameButDigits(s: Bytes, t: Bytes) {
    |s| == |t| && forall i :: 0 <= i < |s| ==> s[i] == t[i] || (IsDigit(s[i]) && IsDigit(t[i]))
  }

  lemma {:induction false} HashIgnoresDigits(s: Bytes, t: Bytes, state: bv64)
    requires SameButDigits(s, t)
    ensures HashState(s, state, true) == HashState(t, state, true)
    decreases |s|
  {
    if s != [] {
      assert Mix(state, s[0], true) == Mix(state, t[0], true);
      HashIgnoresDigits(s[1..], t[1..], Mix(state, s[0], true));
    }
  }

  lemma PunctIgnoresDigits(s: Bytes, t: Bytes, p: nat)
    requires SameButDigits(s, t)
    ensures PunctSize(s, p) == PunctSize(t, p)
  {
    assert IsMark(At(s, p)) == IsMark(At(t, p));
    forall k | 0 <= k < 5
      ensures StartsWith(s, p, MARKS[k]) == StartsWith(t, p, MARKS[k])
    {
      forall i | 0 <= i < |MARKS[k]|
        ensures At(s, p + i) == MARKS[k][i] <==> At(t, p + i) == MARKS[k][i]
      {
        assert !IsDigit(MARKS[k][i]);
      }
    }
  }

  predicate SameSentences(ss: seq<Bytes>, ts: seq<Bytes>) {
    |ss| == |ts| && forall i :: 0 <= i < |ss| ==> SameButDigits(ss[i], ts[i])
  }

  lemma KeptIgnoresDigits(s: Bytes, t: Bytes, from: nat, to: nat)
    requires SameButDigits(s, t) && from <= to <= |s|
    ensures SameSentences(Kept(s, from, to), Kept(t, from, to))
  {
  }

  lemma SameSentencesConcat(a: seq<Bytes>, b: seq<Bytes>, c: seq<Bytes>, d: seq<Bytes>)
    requires SameSentences(a, c) && SameSentences(b, d)
    ensures SameSentences(a + b, c + d)
  {
    hide SameButDigits;
  }

  lemma SplitLengths(s: Bytes, t: Bytes)
    requires SameButDigits(s, t)
    ensures |s| == |t|
  {
  }

  lemma NoSentences()
    ensures SameSentences([], [])
  {
  }

  lemma SameCount(ss: seq<Bytes>, ts: seq<Bytes>)
    requires SameSentences(ss, ts)
    ensures |ss| == |ts|
  {
  }

  lemma {:induction false} SplitIgnoresDigits(s: Bytes, t: Bytes, from: nat, p: nat, n: nat)
    requires SameButDigits(s, t) && from <= p <= |s|
    ensures SameSentences(Split(s, from, p, n), Split(t, from, p, n))
    decreases |s| - p
  {
    hide PunctSize, SameSentences, Kept;
    SplitLengths(s, t);
    KeptIgnoresDigits(s, t, from, p);
    NoSentences();
    if p < |s| && n < MAX_SENTENCES {
      PunctIgnoresDigits(s, t, p);
      if PunctSize(s, p) == 0 {
        SplitIgnoresDigits(s, t, from, p + 1, n);
      } else {
        PunctFits(s, p);
        var next := p + PunctSize(s, p);
        SameCount(Kept(s, from, p), Kept(t, from, p));
        SplitIgnoresDigits(s, t, next, next, n + |Kept(s, from, p)|);
        SameSentencesConcat(Kept(s, from, p), Split(s, next, next, n + |Kept(s, from, p)|),
                            Kept(t, from, p), Split(t, next, next, n + |Kept(s, from, p)|));
      }
    }
  }

  lemma {:induction false} SizesIgnoreDigits(index: Index, ss: seq<Bytes>, ts: seq<Bytes>, base: nat, site: bv64)
    requires base > 0 && site != 0 && SameSentences(ss, ts)
    ensures TotalSize(ss) == TotalSize(ts)
    ensures SeenSize(index, ss, base, site) == SeenSize(index, ts, base, site)
    decreases |ss|
  {
    if ss != [] {
      var n := |ss| - 1;
      SizesIgnoreDigits(index, ss[..n], ts[..n], base, site);
      HashIgnoresDigits(ss[n], ts[n], site);
    }
  }

  /** With a site, other digits change neither the verdict nor the index. */
  lemma VerdictIgnoresDigits(index: Index, d: Doc, e: Doc, base: nat)
    requires base > 0 && d.site == e.site != 0 && SameButDigits(d.text, e.text)
    ensures Rejects(index, d, base) == Rejects(index, e, base)
    ensures Submit(index, d, base) == Submit(index, e, base)
  {
    var ss, ts := Sentences(d.text), Sentences(e.text);
    SplitIgnoresDigits(d.text, e.text, 0, 0, 0);
    SizesIgnoreDigits(index, ss, ts, base, d.site);
    forall i | 0 <= i < |ss|
      ensures Hash(ss[i], base, d.site) == Hash(ts[i], base, d.site)
    {
      HashIgnoresDigits(ss[i], ts[i], d.site);
    }
  }
}
