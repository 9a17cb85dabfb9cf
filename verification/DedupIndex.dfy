/**
 The index itself: a bitmap that `dedup_check` reads and updates in place.
 */
module DedupIndex {
  import opened DedupSpec

  // ---------- Bits ----------

  /** `bit_powers`. */
  function BitPower(k: nat): bv8
    requires k < 8
  {
    match k
    case 0 => 0x01 case 1 => 0x02 case 2 => 0x04 case 3 => 0x08
    case 4 => 0x10 case 5 => 0x20 case 6 => 0x40 case _ => 0x80
  }

  predicate IsSet(bitmap: seq<bv8>, h: nat)
    requires h / 8 < |bitmap|
  {
    bitmap[h / 8] & BitPower(h % 8) != 0
  }

  /** The index that a bitmap stands for. */
  ghost function Bits(bitmap: seq<bv8>): Index {
    set h: nat | h < 8 * |bitmap| && IsSet(bitmap, h)
  }

  lemma InBits(bitmap: seq<bv8>, h: nat)
    requires h < 8 * |bitmap|
    ensures h in Bits(bitmap) <==> bitmap[h / 8] & BitPower(h % 8) != 0
  {
  }

  function Elems(s: seq<nat>): set<nat> {
    set h | h in s
  }

  lemma ElemsExtend(s: seq<nat>, h: nat)
    ensures Elems(s + [h]) == Elems(s) + {h}
  {
  }

  lemma OneBit(b: bv8, j: nat, k: nat)
    requires j < 8 && k < 8
    ensures (b | BitPower(j)) & BitPower(k) != 0 <==> b & BitPower(k) != 0 || j == k
  {
    var p := BitPower(j);
    if j == k {
      OrMask(b, p);
    } else {
      assert BitPower(j) & BitPower(k) == 0;
      OrOther(b, p, BitPower(k));
    }
  }

  lemma OrMask(b: bv8, p: bv8)
    requires p != 0
    ensures (b | p) & p != 0
  {
    assert (b | p) & p == p;
  }

  lemma OrOther(b: bv8, p: bv8, q: bv8)
    requires p & q == 0
    ensures (b | p) & q == b & q
  {
  }

  /** Or-ing a bit in adds just that bit. */
  lemma SetBit(bitmap: seq<bv8>, h: nat)
    requires h / 8 < |bitmap|
    ensures Bits(bitmap[h / 8 := bitmap[h / 8] | BitPower(h % 8)]) == Bits(bitmap) + {h}
  {
    var after := bitmap[h / 8 := bitmap[h / 8] | BitPower(h % 8)];
    hide BitPower;
    forall g: nat | g < 8 * |bitmap|
      ensures IsSet(after, g) <==> IsSet(bitmap, g) || g == h
    {
      if g / 8 == h / 8 {
        OneBit(bitmap[g / 8], h % 8, g % 8);
      }
    }
  }

  // ---------- The check ----------

  /** Where the bit of an unseen sentence goes. */
  datatype Flag = Flag(bytePos: nat, bitPos: bv8)

  method HashBytes(str: Bytes, base: nat, hostBase: bv64) returns (h: nat)
    requires base > 0
    ensures h == Hash(str, base, hostBase)
  {
    hide Mix, Hash;
    var state := hostBase;
    var p := 0;
    assert str[0..] == str;
    while p < |str|
      invariant 0 <= p <= |str|
      invariant HashState(str[p..], state, hostBase != 0) == HashState(str, hostBase, hostBase != 0)
    {
      assert str[p..][1..] == str[p + 1..];
      state := Mix(state, str[p], hostBase != 0);
      p := p + 1;
    }
    h := state as nat % base;
    HashOfState(str, base, hostBase, state);
  }

  lemma HashOfState(str: Bytes, base: nat, hostBase: bv64, state: bv64)
    requires base > 0 && state == HashState(str, hostBase, hostBase != 0)
    ensures state as nat % base == Hash(str, base, hostBase)
  {
    hide HashState;
  }

  lemma {:induction false} SizesExtend(index: Index, ss: seq<Bytes>, s: Bytes, base: nat, site: bv64)
    requires base > 0
    ensures TotalSize(ss + [s]) == TotalSize(ss) + |s|
    ensures SeenSize(index, ss + [s], base, site) ==
            SeenSize(index, ss, base, site) + if Hash(s, base, site) in index then |s| else 0
    ensures Hashes(ss + [s], base, site) == Hashes(ss, base, site) + {Hash(s, base, site)}
  {
    hide Hash;
    assert (ss + [s])[..|ss|] == ss;
    assert forall i :: 0 <= i < |ss| ==> (ss + [s])[i] == ss[i];
    assert (ss + [s])[|ss|] == s;
  }

  class Dedup {
    const bitmap: array<bv8>       // `dedup_mmap`
    const flags: array<Flag>    // `sentence_flags`
    var flagsSize: nat
    var total: nat
    var repeatCount: nat

    ghost var scored: seq<Bytes>  // the sentences scored so far in the current check
    ghost var unseen: seq<nat>    // the hashes behind the flags

    constructor (bitmap: array<bv8>)
      ensures this.bitmap == bitmap && fresh(flags) && Sized()
    {
      this.bitmap := bitmap;
      flags := new Flag[MAX_SENTENCES](_ => Flag(0, 0));
      flagsSize, total, repeatCount := 0, 0, 0;
      scored, unseen := [], [];
    }

    ghost predicate Sized() {
      flags.Length == MAX_SENTENCES && flags as object != bitmap
    }

    /** The counters and flags agree with the sentences scored so far. */
    ghost predicate Scored(base: nat, site: bv64)
      requires 0 < base <= 8 * bitmap.Length
      reads this, bitmap, flags
    {
      && Sized()
      && |unseen| == flagsSize <= |scored| <= MAX_SENTENCES
      && total == TotalSize(scored)
      && repeatCount == SeenSize(Bits(bitmap[..]), scored, base, site)
      && (forall k :: 0 <= k < flagsSize ==> unseen[k] < 8 * bitmap.Length && unseen[k] !in Bits(bitmap[..]))
      && (forall k :: 0 <= k < flagsSize ==> flags[k] == Flag(unseen[k] / 8, BitPower(unseen[k] % 8)))
      && Hashes(scored, base, site) + Bits(bitmap[..]) == Elems(unseen) + Bits(bitmap[..])
    }

    /** One sentence: counted as seen, or flagged. */
    method Score(base: nat, site: bv64, sentence: Bytes)
      requires 0 < base <= 8 * bitmap.Length && Scored(base, site) && |scored| < MAX_SENTENCES
      modifies this, flags
      ensures Scored(base, site) && scored == old(scored) + [sentence]
    {
      hide TotalSize, SeenSize, Hash, Hashes, Bits, BitPower, Elems;
      var hash := HashBytes(sentence, base, site);
      SizesExtend(Bits(bitmap[..]), scored, sentence, base, site);
      HashInRange(sentence, base, site);
      InBits(bitmap[..], hash);
      ElemsExtend(unseen, hash);
      total := total + |sentence|;
      var bytePos := hash / 8;
      var bitPos := BitPower(hash % 8);
      if bitmap[bytePos] & bitPos != 0 {
        repeatCount := repeatCount + |sentence|;
      } else {
        flags[flagsSize] := Flag(bytePos, bitPos);
        flagsSize := flagsSize + 1;
        unseen := unseen + [hash];
      }
      scored := scored + [sentence];
    }

    /** Set the bits of all flags. */
    method SetFlags(base: nat, site: bv64)
      requires 0 < base <= 8 * bitmap.Length && Scored(base, site)
      modifies bitmap
      ensures Bits(bitmap[..]) == old(Bits(bitmap[..])) + Hashes(scored, base, site)
    {
      hide TotalSize, SeenSize, Hash, Hashes, Bits, BitPower, Elems;
      OrFlags(unseen);
    }

    method OrFlags(ghost hashes: seq<nat>)
      requires Sized() && |hashes| == flagsSize <= MAX_SENTENCES
      requires forall k :: 0 <= k < flagsSize ==>
                 hashes[k] < 8 * bitmap.Length && flags[k] == Flag(hashes[k] / 8, BitPower(hashes[k] % 8))
      modifies bitmap
      ensures Bits(bitmap[..]) == old(Bits(bitmap[..])) + Elems(hashes)
    {
      hide Bits, BitPower, Elems;
      ghost var before := Bits(bitmap[..]);
      NoElems();
      var i := 0;
      while i < flagsSize
        invariant 0 <= i <= flagsSize
        invariant Bits(bitmap[..]) == before + Elems(hashes[..i])
      {
        SetBit(bitmap[..], hashes[i]);
        ElemsExtend(hashes[..i], hashes[i]);
        assert hashes[..i + 1] == hashes[..i] + [hashes[i]];
        OrIn(flags[i].bytePos, flags[i].bitPos);
        i := i + 1;
      }
      assert hashes[..i] == hashes;
    }

    method OrIn(bytePos: nat, bitPos: bv8)
      requires bytePos < bitmap.Length
      modifies bitmap
      ensures bitmap[..] == old(bitmap[..])[bytePos := old(bitmap[bytePos]) | bitPos]
    {
      bitmap[bytePos] := bitmap[bytePos] | bitPos;
    }

    /**
     `dedup_check`: 1 if the text is rejected, 0 if it is accepted and added to the index. `host`
     is the site name, if there is one.
     */
    method Check(base: nat, host: Option<Bytes>, content: Bytes) returns (ret: int)
      requires 0 < base <= 8 * bitmap.Length && base <= 0x1_0000_0000_0000_0000 && Sized()
      modifies this, flags, bitmap
      ensures var doc := Doc(SiteHash(host, base), content);
              && ret == (if Rejects(old(Bits(bitmap[..])), doc, base) then 1 else 0)
              && Bits(bitmap[..]) == Submit(old(Bits(bitmap[..])), doc, base)
    {
      hide Hash, Sentences, Bits, BitPower, Elems;
      var hostBase: bv64 := 0;
      if host.Some? {
        var h := HashBytes(host.value, base, 0);
        hostBase := h as bv64;
      }
      ScoreAll(base, hostBase, content);
      if total == 0 {
        return 1;
      }
      var ratio := repeatCount as real / total as real;
      RatioTest(repeatCount, total);
      if ratio >= 0.85 {
        ret := 1;
      } else {
        SetFlags(base, hostBase);
        ret := 0;
      }
    }

    method Restart(base: nat, site: bv64)
      requires 0 < base <= 8 * bitmap.Length && Sized()
      modifies this
      ensures Scored(base, site) && scored == []
    {
      hide Hash, Bits, BitPower, Elems;
      NoElems();
      flagsSize, repeatCount, total := 0, 0, 0;
      scored, unseen := [], [];
    }

    /** The scanning loop and the unfinished sentence at the end. */
    method ScoreAll(base: nat, hostBase: bv64, content: Bytes)
      requires 0 < base <= 8 * bitmap.Length && Sized()
      modifies this, flags
      ensures Scored(base, hostBase) && scored == Sentences(content)
    {
      hide PunctSize, Hash, Bits, BitPower, Elems, Scored;
      Restart(base, hostBase);
      var prevBegin, p, totalRecord := 0, 0, 0;
      var enoughSentence := false;
      while p < |content|
        invariant 0 <= prevBegin <= p <= |content|
        invariant Scored(base, hostBase) && totalRecord == |scored| <= MAX_SENTENCES
        invariant totalRecord == MAX_SENTENCES ==> prevBegin == p
        invariant scored + Split(content, prevBegin, p, totalRecord) == Sentences(content)
        decreases |content| - p
      {
        if totalRecord > MAX_SENTENCES - 1 {
          enoughSentence := true;
          break;
        }
        var punctSize := PunctSize(content, p);
        if punctSize == 0 {
          p := p + 1;
        } else {
          PunctFits(content, p);
          if p - prevBegin > MIN_SIZE {
            Score(base, hostBase, content[prevBegin..p]);
            totalRecord := totalRecord + 1;
          }
          p := p + punctSize;
          prevBegin := p;
        }
      }
      if !enoughSentence && p - prevBegin > MIN_SIZE {
        Score(base, hostBase, content[prevBegin..p]);
      }
    }
  }

  datatype Option<T> = None | Some(value: T)

  /** The hash that stands for the site; 0 without one. */
  function SiteHash(host: Option<Bytes>, base: nat): bv64
    requires 0 < base <= 0x1_0000_0000_0000_0000
  {
    if host.None? then 0 else Hash(host.value, base, 0) as bv64
  }

  lemma RatioTest(seen: nat, total: nat)
    requires 0 < total
    ensures seen as real / total as real >= 0.85 <==> 100 * seen >= 85 * total
  {
    var r, n := seen as real / total as real, total as real;
    assert (100 * seen) as real == 100.0 * seen as real && (85 * total) as real == 85.0 * n;
    if r >= 0.85 {
      Grow(r - 0.85, n);
    } else {
      Grow(0.85 - r, n);
    }
    assert r * n == seen as real;
    assert (r - 0.85) * n == r * n - 0.85 * n;
    assert (0.85 - r) * n == 0.85 * n - r * n;
  }

  lemma Grow(x: real, n: real)
    requires n > 0.0 && x >= 0.0
    ensures x * n >= 0.0 && (x > 0.0 ==> x * n > 0.0)
  {
  }

  lemma NoElems()
    ensures Elems([]) == {}
  {
  }

  lemma HashInRange(s: Bytes, base: nat, site: bv64)
    requires base > 0
    ensures Hash(s, base, site) < base
  {
  }
}
