/**
 What the hash of the near-duplicate test is, by rotations of its own: what counts for it, and that
 every byte that counts matters.
 */
module DedupLaws {
  import opened DedupSpec

  // ---------- The hash ----------

  /** One place to the left, the highest bit coming back in as the lowest. */
  function Turn(x: bv64): bv64 {
    (x << 1) | (x >> 63)
  }

  function Turned(x: bv64, n: nat): bv64
    decreases n
  {
    if n == 0 then x else Turned(Turn(x), n - 1)
  }

  function Xor(x: bv64, y: bv64): bv64 {
    x ^ y
  }

  /** Space, tab, line feed, vertical tab, form feed and return. */
  predicate IsBlank(b: bv8) {
    b == 32 || b == 9 || b == 10 || b == 11 || b == 12 || b == 13
  }

  /** The bytes that count. */
  function Counted(s: Bytes): Bytes {
    if s == [] then [] else (if IsBlank(s[0]) then [] else [s[0]]) + Counted(s[1..])
  }

  /** What a byte counts as: with a site, any digit is an underscore. */
  function Shown(b: bv8, masked: bool): bv64 {
    if masked && '0' as bv8 <= b <= '9' as bv8 then '_' as bv64 else b as bv64
  }

  /** All the bytes, each turned once for every byte that follows it. */
  function Blended(bytes: Bytes, masked: bool): bv64 {
    if bytes == [] then 0 else Xor(Turned(Shown(bytes[0], masked), |bytes| - 1), Blended(bytes[1..], masked))
  }

  lemma TurnXor(x: bv64, y: bv64)
    ensures Turn(Xor(x, y)) == Xor(Turn(x), Turn(y))
  {
  }

  lemma {:induction false} TurnedXor(x: bv64, y: bv64, n: nat)
    ensures Turned(Xor(x, y), n) == Xor(Turned(x, n), Turned(y, n))
    decreases n
  {
    hide Turn, Xor;
    if n > 0 {
      TurnXor(x, y);
      TurnedXor(Turn(x), Turn(y), n - 1);
    }
  }

  lemma TurnBack(x: bv64)
    ensures (Turn(x) >> 1) | (Turn(x) << 63) == x
  {
  }

  lemma TurnIsInjective(x: bv64, y: bv64)
    requires Turn(x) == Turn(y)
    ensures x == y
  {
    hide Turn;
    TurnBack(x);
    TurnBack(y);
  }

  lemma XorAssociates(a: bv64, b: bv64, c: bv64)
    ensures Xor(Xor(a, b), c) == Xor(a, Xor(b, c))
  {
  }

  lemma XorNothing(x: bv64)
    ensures Xor(x, 0) == x
  {
  }

  lemma XorCancels(x: bv64, y: bv64, z: bv64)
    ensures Xor(z, x) == Xor(z, y) <==> x == y
    ensures Xor(x, z) == Xor(y, z) <==> x == y
  {
  }

  lemma RotationIsTurn(state: bv64, x: bv64)
    ensures ((state << 1) ^ ((state & 0x8000000000000000) >> 63)) ^ x == Xor(Turn(state), x)
  {
  }

  /** One byte of the loop: nothing for white space, otherwise a turn and an exclusive or. */
  lemma MixMeans(state: bv64, b: bv8, masked: bool)
    ensures Mix(state, b, masked) == if IsBlank(b) then state else Xor(Turn(state), Shown(b, masked))
  {
    hide Turn, Xor, IsBlank, IsSpace;
    BlankIsSpace(b);
    var shown: bv64 := if masked && IsDigit(b) then 95 else b as bv64;
    ShownIsMixedIn(b, masked);
    RotationIsTurn(state, shown);
  }

  lemma BlankIsSpace(b: bv8)
    ensures IsBlank(b) <==> IsSpace(b)
  {
  }

  lemma ShownIsMixedIn(b: bv8, masked: bool)
    ensures Shown(b, masked) == if masked && IsDigit(b) then 95 else b as bv64
  {
  }

  lemma {:induction false} StateIsBlend(s: Bytes, state: bv64, masked: bool)
    ensures HashState(s, state, masked) == Xor(Turned(state, |Counted(s)|), Blended(Counted(s), masked))
    decreases |s|
  {
    hide Turn, Xor, Mix, Shown, IsBlank;
    if s == [] {
      XorNothing(state);
    } else {
      MixMeans(state, s[0], masked);
      StateIsBlend(s[1..], Mix(state, s[0], masked), masked);
      if !IsBlank(s[0]) {
        var n := |Counted(s[1..])|;
        var x := Shown(s[0], masked);
        TurnedXor(Turn(state), x, n);
        XorAssociates(Turned(Turn(state), n), Turned(x, n), Blended(Counted(s[1..]), masked));
        assert Counted(s)[1..] == Counted(s[1..]);
      } else {
        assert Counted(s) == Counted(s[1..]);
      }
    }
  }

  /** `hash_bytes` in closed form. */
  lemma HashIsBlend(s: Bytes, base: nat, site: bv64)
    requires base > 0
    ensures Hash(s, base, site) ==
            Xor(Turned(site, |Counted(s)|), Blended(Counted(s), site != 0)) as nat % base
  {
    hide HashState, Turned, Blended, Xor, Counted;
    StateIsBlend(s, site, site != 0);
  }

  /** White space, wherever it stands, does not count. */
  lemma HashIgnoresSpace(s: Bytes, t: Bytes, base: nat, site: bv64)
    requires base > 0 && Counted(s) == Counted(t)
    ensures Hash(s, base, site) == Hash(t, base, site)
  {
    hide Hash, Xor, Turned, Blended, Counted;
    HashIsBlend(s, base, site);
    HashIsBlend(t, base, site);
  }

  lemma MixIsInjective(x: bv64, y: bv64, b: bv8, masked: bool)
    requires Mix(x, b, masked) == Mix(y, b, masked)
    ensures x == y
  {
    hide Mix, Turn, Shown, Xor, IsBlank;
    MixMeans(x, b, masked);
    MixMeans(y, b, masked);
    if !IsBlank(b) {
      XorCancels(Turn(x), Turn(y), Shown(b, masked));
      TurnIsInjective(x, y);
    }
  }

  /** No two states are led to the same state by the same bytes. */
  lemma {:induction false} StateIsInjective(s: Bytes, x: bv64, y: bv64, masked: bool)
    ensures HashState(s, x, masked) == HashState(s, y, masked) <==> x == y
    decreases |s|
  {
    hide Mix;
    if s != [] {
      StateIsInjective(s[1..], Mix(x, s[0], masked), Mix(y, s[0], masked), masked);
      if Mix(x, s[0], masked) == Mix(y, s[0], masked) {
        MixIsInjective(x, y, s[0], masked);
      }
    }
  }

  lemma {:induction false} StateConcat(s: Bytes, t: Bytes, state: bv64, masked: bool)
    ensures HashState(s + t, state, masked) == HashState(t, HashState(s, state, masked), masked)
    decreases |s|
  {
    hide Mix;
    if s == [] {
      assert s + t == t;
    } else {
      assert (s + t)[1..] == s[1..] + t;
      StateConcat(s[1..], t, Mix(state, s[0], masked), masked);
    }
  }

  /** Every byte that counts matters: in any text, exchanging it for another that shows differently is seen. */
  lemma EveryByteMatters(before: Bytes, b: bv8, c: bv8, after: Bytes, state: bv64, masked: bool)
    requires !IsBlank(b) && !IsBlank(c)
    ensures HashState(before + [b] + after, state, masked) == HashState(before + [c] + after, state, masked)
            <==> Shown(b, masked) == Shown(c, masked)
  {
    hide Mix, Turn, Shown, HashState, Xor, IsBlank;
    var x := HashState(before, state, masked);
    StateConcat(before + [b], after, state, masked);
    StateConcat(before, [b], state, masked);
    StateConcat(before + [c], after, state, masked);
    StateConcat(before, [c], state, masked);
    StateOfByte(x, b, masked);
    StateOfByte(x, c, masked);
    StateIsInjective(after, HashState([b], x, masked), HashState([c], x, masked), masked);
    XorCancels(Shown(b, masked), Shown(c, masked), Turn(x));
  }

  lemma StateOfByte(state: bv64, b: bv8, masked: bool)
    requires !IsBlank(b)
    ensures HashState([b], state, masked) == Xor(Turn(state), Shown(b, masked))
  {
    hide Mix, Turn, Shown, Xor, IsBlank;
    MixMeans(state, b, masked);
    assert [b][1..] == [];
  }
}
