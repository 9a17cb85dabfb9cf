/**
 The n-gram histogram of the language guesser: one pass over raw text that counts the same grams
 as cleaning the text first and then counting every substring of length one to six.
 */
module LangMap {
  import opened Crc32

  const MAX_GRAM := 6
  const BUCKETS := 4096
  const SPACE: bv8 := 32

  // ---------- The simple form ----------

  predicate Dropped(b: bv8, prev: bv8) {
    b < SPACE || (b == SPACE && prev == SPACE)
  }

  /** Control bytes are dropped, and so is a space that follows a space; `prev` is the byte kept before. */
  function Clean(s: Bytes, prev: bv8): Bytes {
    if s == [] then []
    else if Dropped(s[0], prev) then Clean(s[1..], prev)
    else [s[0]] + Clean(s[1..], s[0])
  }

  function Cleaned(text: Bytes): Bytes {
    Clean(text, SPACE)
  }

  /** The cell that counts a gram. */
  function Bucket(gram: Bytes): (h: nat)
    ensures h < BUCKETS
  {
    Masked(Crc(gram))
  }

  function Masked(crc: bv32): (h: nat)
    ensures h < BUCKETS
  {
    (crc & 0xFFF) as nat
  }

  /** How many of the grams of `s` that begin at its front and have at most `len` bytes fall into bucket `h`. */
  function FrontTally(s: Bytes, len: nat, h: nat): nat
    requires len <= |s|
  {
    if len == 0 then 0 else FrontTally(s, len - 1, h) + if Bucket(s[..len]) == h then 1 else 0
  }

  function Longest(n: nat): nat {
    if n < MAX_GRAM then n else MAX_GRAM
  }

  /** How many grams of `s` fall into bucket `h`. */
  function Tally(s: Bytes, h: nat): nat {
    if s == [] then 0 else FrontTally(s, Longest(|s|), h) + Tally(s[1..], h)
  }

  /** The grams of `s` in bucket `h`, each given by where it begins and ends. */
  function Grams(s: Bytes, h: nat): set<(nat, nat)> {
    set i: nat, j: nat | i < |s| && i < j <= |s| && j <= i + MAX_GRAM && Bucket(s[i..j]) == h :: (i, j)
  }

  /** The tally of a bucket is the number of its grams. */
  lemma {:induction false} TallyCountsGrams(s: Bytes, h: nat)
    ensures Tally(s, h) == |Grams(s, h)|
  {
    if s == [] {
      assert Grams(s, h) == {};
    } else {
      var t := s[1..];
      TallyCountsGrams(t, h);
      var front := FrontGrams(s, Longest(|s|), h);
      var shifted := set g | g in Grams(t, h) :: (g.0 + 1, g.1 + 1);
      FrontTallyCounts(s, Longest(|s|), h);
      ShiftedSize(Grams(t, h), shifted);
      GramsSplit(s, h, shifted);
      assert front !! shifted;
    }
  }

  function FrontGrams(s: Bytes, len: nat, h: nat): set<(nat, nat)>
    requires len <= |s|
  {
    set j: nat | 0 < j <= len && Bucket(s[..j]) == h :: (0, j)
  }

  lemma {:induction false} FrontTallyCounts(s: Bytes, len: nat, h: nat)
    requires len <= |s|
    ensures FrontTally(s, len, h) == |FrontGrams(s, len, h)|
  {
    hide Bucket;
    if len == 0 {
      assert FrontGrams(s, 0, h) == {};
    } else {
      FrontTallyCounts(s, len - 1, h);
      var last: set<(nat, nat)> := if Bucket(s[..len]) == h then {(0, len)} else {};
      assert FrontGrams(s, len, h) == FrontGrams(s, len - 1, h) + last;
    }
  }

  lemma GramsSplit(s: Bytes, h: nat, shifted: set<(nat, nat)>)
    requires s != []
    requires shifted == set g | g in Grams(s[1..], h) :: (g.0 + 1, g.1 + 1)
    ensures Grams(s, h) == FrontGrams(s, Longest(|s|), h) + shifted
  {
    hide Bucket;
    var t := s[1..];
    forall i: nat, j: nat
      ensures (i, j) in Grams(s, h) <==> (i, j) in FrontGrams(s, Longest(|s|), h) + shifted
    {
      if i > 0 && i < j <= |s| {
        assert s[i..j] == t[i - 1..j - 1];
        assert (i, j) in Grams(s, h) ==> (i - 1, j - 1) in Grams(t, h);
      } else if i == 0 && j <= |s| {
        assert s[0..j] == s[..j];
      }
    }
  }

  lemma {:induction false} ShiftedSize(a: set<(nat, nat)>, b: set<(nat, nat)>)
    requires b == set g | g in a :: (g.0 + 1, g.1 + 1)
    ensures |a| == |b|
  {
    if a == {} {
      assert b == {};
    } else {
      var g :| g in a;
      var a', b' := a - {g}, b - {(g.0 + 1, g.1 + 1)};
      assert b' == set x | x in a' :: (x.0 + 1, x.1 + 1);
      ShiftedSize(a', b');
    }
  }

  // ---------- The one-pass form ----------

  /** A C string ends in NUL, and the loops read that byte too. */
  function At(text: Bytes, i: nat): bv8 {
    if i < |text| then text[i] else 0
  }

  /** What is still to be kept from position `i` on. */
  function Rest(text: Bytes, i: nat, prev: bv8): Bytes {
    if i <= |text| then Clean(text[i..], prev) else []
  }

  lemma RestStep(text: Bytes, i: nat, prev: bv8)
    requires i <= |text|
    ensures Rest(text, i, prev) ==
            if Dropped(At(text, i), prev) then Rest(text, i + 1, prev)
            else [At(text, i)] + Rest(text, i + 1, At(text, i))
  {
    if i < |text| {
      assert text[i..][1..] == text[i + 1..];
    }
  }

  /** `UdmBuildLangMap` adds the tallies of the cleaned text to the counters. */
  method BuildLangMap(counts: array<int>, text: Bytes)
    requires counts.Length == BUCKETS
    modifies counts
    ensures forall h :: 0 <= h < BUCKETS ==> counts[h] == old(counts[h]) + Tally(Cleaned(text), h)
  {
    var prevb := SPACE;
    var i := 0;
    assert text[0..] == text;
    while i <= |text|
      invariant 0 <= i <= |text| + 1
      invariant forall h :: 0 <= h < BUCKETS ==>
                  counts[h] + Tally(Rest(text, i, prevb), h) == old(counts[h]) + Tally(Cleaned(text), h)
    {
      RestStep(text, i, prevb);
      var code := At(text, i);
      if !Dropped(code, prevb) {
        ghost var here := Rest(text, i, prevb);
        prevb := code;
        CountFrom(counts, text, i);
        RestStep(text, i, 0);
        assert here[1..] == Rest(text, i + 1, prevb);
      }
      i := i + 1;
    }
  }

  /** The inner loop: the grams that begin at position `i`, counted while they are put together. */
  method CountFrom(counts: array<int>, text: Bytes, i: nat)
    requires counts.Length == BUCKETS && i <= |text|
    modifies counts
    ensures var s := Rest(text, i, 0);
            forall h :: 0 <= h < BUCKETS ==> counts[h] == old(counts[h]) + FrontTally(s, Longest(|s|), h)
  {
    hide Rest, Bucket, Dropped;
    ghost var s := Rest(text, i, 0);
    var t: nat, prev: bv8, buf: Bytes := i, 0, [];
    while |buf| < MAX_GRAM && t <= |text|
      invariant |buf| <= MAX_GRAM
      invariant s == buf + Rest(text, t, prev)
      invariant t > |text| ==> Rest(text, t, prev) == []
      invariant forall h :: 0 <= h < BUCKETS ==> counts[h] == old(counts[h]) + FrontTally(s, |buf|, h)
      decreases |text| + 1 - t
    {
      var code;
      t, code := NextKept(text, t, prev);
      if t > |text| {
        break;
      }
      prev := code;
      t := t + 1;
      assert s == (buf + [code]) + Rest(text, t, prev);
      buf := buf + [code];
      assert s[..|buf|] == buf;
      CountGram(counts, buf);
      RestEnds(text, t, prev);
    }
  }

  lemma RestEnds(text: Bytes, t: nat, prev: bv8)
    ensures t > |text| ==> Rest(text, t, prev) == []
  {
  }

  /** Skip to the next byte that is kept. */
  method NextKept(text: Bytes, t: nat, prev: bv8) returns (next: nat, code: bv8)
    requires t <= |text|
    ensures t <= next
    ensures if next > |text| then Rest(text, t, prev) == []
            else Rest(text, t, prev) == [code] + Rest(text, next + 1, code)
  {
    hide Rest, Dropped;
    next, code := t, 0;
    while next <= |text|
      invariant t <= next <= |text| + 1
      invariant Rest(text, next, prev) == Rest(text, t, prev)
    {
      RestStep(text, next, prev);
      code := At(text, next);
      if !Dropped(code, prev) {
        return;
      }
      next := next + 1;
    }
    RestEnds(text, next, prev);
  }

  method CountGram(counts: array<int>, gram: Bytes)
    requires counts.Length == BUCKETS
    modifies counts
    ensures forall h :: 0 <= h < BUCKETS ==> counts[h] == old(counts[h]) + if h == Bucket(gram) then 1 else 0
  {
    hide Crc, Masked;
    var crc := UdmCRC32(gram);
    var hindex := Masked(crc);
    counts[hindex] := counts[hindex] + 1;
  }

  // ---------- The size of the histogram ----------

  /** The first `n` counters together. */
  function TallyTo(s: Bytes, n: nat): nat {
    if n == 0 then 0 else TallyTo(s, n - 1) + Tally(s, n - 1)
  }

  function FrontTallyTo(s: Bytes, len: nat, n: nat): nat
    requires len <= |s|
  {
    if n == 0 then 0 else FrontTallyTo(s, len, n - 1) + FrontTally(s, len, n - 1)
  }

  lemma {:induction false} TallySplits(s: Bytes, n: nat)
    requires s != []
    ensures TallyTo(s, n) == FrontTallyTo(s, Longest(|s|), n) + TallyTo(s[1..], n)
  {
    if n > 0 {
      TallySplits(s, n - 1);
    }
  }

  /** One more gram adds one to one counter. */
  lemma {:induction false} FrontTallySplits(s: Bytes, len: nat, n: nat)
    requires 0 < len <= |s|
    ensures FrontTallyTo(s, len, n) == FrontTallyTo(s, len - 1, n) + if Bucket(s[..len]) < n then 1 else 0
  {
    hide Bucket;
    if n > 0 {
      FrontTallySplits(s, len, n - 1);
    }
  }

  lemma {:induction false} NoGrams(s: Bytes, n: nat)
    ensures FrontTallyTo(s, 0, n) == 0 && TallyTo([], n) == 0
  {
    if n > 0 {
      NoGrams(s, n - 1);
    }
  }

  lemma {:induction false} FrontTotal(s: Bytes, len: nat, n: nat)
    requires len <= |s| && BUCKETS <= n
    ensures FrontTallyTo(s, len, n) == len
  {
    if len == 0 {
      NoGrams(s, n);
    } else {
      FrontTotal(s, len - 1, n);
      FrontTallySplits(s, len, n);
    }
  }

  /** The number of grams in a text of `n` bytes. */
  function GramNumber(n: nat): int {
    if n >= 5 then 6 * n - 15 else n * (n + 1) / 2
  }

  lemma OneByteMore(n: nat)
    ensures GramNumber(n + 1) == Longest(n + 1) + GramNumber(n) && GramNumber(0) == 0
  {
    assert (n + 1) * (n + 2) == n * (n + 1) + 2 * (n + 1);
  }

  /** The counters of a cleaned text sum to the number of its grams: 6n - 15 from five bytes on. */
  lemma {:induction false} TotalCount(s: Bytes, n: nat)
    requires BUCKETS <= n
    ensures TallyTo(s, n) == GramNumber(|s|)
  {
    hide Bucket, TallyTo, FrontTallyTo, GramNumber;
    if s == [] {
      NoGrams(s, n);
      OneByteMore(0);
    } else {
      OneByteMore(|s| - 1);
      TotalCount(s[1..], n);
      FrontTotal(s, Longest(|s|), n);
      TallySplits(s, n);
    }
  }
}
