/**
 The table of bitmap sizes and the choice of one below a limit.
 */
module HashBase {

  const COUNT: nat := 234

  /** The table `primes`, eight entries a row; a zero ends it. */
  function PrimeRow(row: nat): (entries: seq<nat>)
    requires row < 30
    ensures |entries| == if row < 29 then 8 else 3
  {
    match row
    case 0 => [1, 2, 3, 5, 7, 11, 13, 17]
    case 1 => [19, 23, 29, 31, 37, 43, 47, 53]
    case 2 => [59, 61, 71, 79, 83, 89, 103, 109]
    case 3 => [113, 127, 139, 157, 173, 191, 199, 223]
    case 4 => [239, 251, 283, 317, 349, 383, 409, 443]
    case 5 => [479, 509, 571, 631, 701, 761, 829, 887]
    case 6 => [953, 1021, 1151, 1279, 1399, 1531, 1663, 1789]
    case 7 => [1913, 2039, 2297, 2557, 2803, 3067, 3323, 3583]
    case 8 => [3833, 4093, 4603, 5119, 5623, 6143, 6653, 7159]
    case 9 => [7673, 8191, 9209, 10223, 11261, 12281, 13309, 14327]
    case 10 => [15359, 16381, 18427, 20479, 22511, 24571, 26597, 28669]
    case 11 => [30713, 32749, 36857, 40949, 45053, 49139, 53239, 57331]
    case 12 => [61417, 65521, 73727, 81919, 90107, 98299, 106487, 114679]
    case 13 => [122869, 131071, 147451, 163819, 180221, 196597, 212987, 229373]
    case 14 => [245759, 262139, 294911, 327673, 360439, 393209, 425977, 458747]
    case 15 => [491503, 524287, 589811, 655357, 720887, 786431, 851957, 917503]
    case 16 => [982981, 1048573, 1179641, 1310719, 1441771, 1572853, 1703903, 1835003]
    case 17 => [1966079, 2097143, 2359267, 2621431, 2883577, 3145721, 3407857, 3670013]
    case 18 => [3932153, 4194301, 4718579, 5242877, 5767129, 6291449, 6815741, 7340009]
    case 19 => [7864301, 8388593, 9437179, 10485751, 11534329, 12582893, 13631477, 14680063]
    case 20 => [15728611, 16777213, 18874367, 20971507, 23068667, 25165813, 27262931, 29360087]
    case 21 => [31457269, 33554393, 37748717, 41943023, 46137319, 50331599, 54525917, 58720253]
    case 22 => [62914549, 67108859, 75497467, 83886053, 92274671, 100663291, 109051903, 117440509]
    case 23 => [125829103, 134217689, 150994939, 167772107, 184549373, 201326557, 218103799, 234881011]
    case 24 => [251658227, 268435399, 301989881, 335544301, 369098707, 402653171, 436207613, 469762043]
    case 25 => [503316469, 536870909, 603979769, 671088637, 738197503, 805306357, 872415211, 939524087]
    case 26 => [1006632947, 1073741789, 1207959503, 1342177237, 1476394991, 1610612711, 1744830457, 1879048183]
    case 27 => [2013265907, 2576980349, 3092376431, 3710851741, 4718021527, 6133428047, 7973456459, 10365493393]
    case 28 => [13475141413, 17517683831, 22772988923, 29604885677, 38486351381, 50032256819, 65041933867, 84554514043]
    case _ => [109920868241, 153889215497, 0]
  }

  function Prime(i: nat): nat
    requires i <= COUNT
  {
    PrimeRow(i / 8)[i % 8]
  }

  /** Each entry of the row is below the next entry of the table. */
  predicate RowAscends(row: nat)
    requires row < 30
  {
    && (forall e :: 0 <= e < 7 && 8 * row + e + 1 < COUNT ==> PrimeRow(row)[e] < PrimeRow(row)[e + 1])
    && (row < 29 ==> PrimeRow(row)[7] < PrimeRow(row + 1)[0])
  }

  lemma RowsAscend0()
    ensures RowAscends(0) && RowAscends(1) && RowAscends(2)
  {
  }

  lemma RowsAscend3()
    ensures RowAscends(3) && RowAscends(4) && RowAscends(5)
  {
  }

  lemma RowsAscend6()
    ensures RowAscends(6) && RowAscends(7) && RowAscends(8)
  {
  }

  lemma RowsAscend9()
    ensures RowAscends(9) && RowAscends(10) && RowAscends(11)
  {
  }

  lemma RowsAscend12()
    ensures RowAscends(12) && RowAscends(13) && RowAscends(14)
  {
  }

  lemma RowsAscend15()
    ensures RowAscends(15) && RowAscends(16) && RowAscends(17)
  {
  }

  lemma RowsAscend18()
    ensures RowAscends(18) && RowAscends(19) && RowAscends(20)
  {
  }

  lemma RowsAscend21()
    ensures RowAscends(21) && RowAscends(22) && RowAscends(23)
  {
  }

  lemma RowsAscend24()
    ensures RowAscends(24) && RowAscends(25) && RowAscends(26)
  {
  }

  lemma RowsAscend27()
    ensures RowAscends(27) && RowAscends(28) && RowAscends(29)
  {
  }

  lemma RowsAscend(row: nat)
    requires row < 30
    ensures RowAscends(row)
  {
    hide RowAscends;
    RowsAscend0();
    RowsAscend3();
    RowsAscend6();
    RowsAscend9();
    RowsAscend12();
    RowsAscend15();
    RowsAscend18();
    RowsAscend21();
    RowsAscend24();
    RowsAscend27();
  }

  lemma NextIsGreater(i: nat)
    requires i + 1 < COUNT
    ensures Prime(i) < Prime(i + 1)
  {
    hide PrimeRow;
    RowsAscend(i / 8);
  }

  lemma {:induction false} TableAscends(i: nat, j: nat)
    requires i < j < COUNT
    ensures Prime(i) < Prime(j)
  {
    hide Prime;
    NextIsGreater(j - 1);
    if i < j - 1 {
      TableAscends(i, j - 1);
    }
  }

  lemma TableEnds(i: nat)
    requires i <= COUNT
    ensures Prime(i) > 0 <==> i < COUNT
    ensures Prime(0) == 1
  {
    if 0 < i < COUNT {
      TableAscends(0, i);
    }
  }

  /** `get_hash_base`: the largest table entry below the limit; 1 if there is none. */
  method GetHashBase(maxLimit: nat) returns (base: nat)
    ensures exists k: nat :: k < COUNT && base == Prime(k)
    ensures forall k: nat :: k < COUNT && Prime(k) < maxLimit ==> Prime(k) <= base
    ensures if maxLimit > 1 then 1 <= base < maxLimit else base == 1
  {
    hide Prime;
    var i, maxPos := 0, 0;
    TableEnds(0);
    while Prime(i) > 0
      invariant 0 <= i <= COUNT && 0 <= maxPos < COUNT
      invariant maxPos == 0 || Prime(maxPos) < maxLimit
      invariant forall k: nat :: k < i && Prime(k) < maxLimit ==> k <= maxPos
      invariant i > 0 && 1 < maxLimit ==> Prime(maxPos) < maxLimit
      decreases COUNT - i
    {
      TableEnds(i);
      if maxLimit > Prime(i) {
        maxPos := i;
      }
      i := i + 1;
      TableEnds(i);
    }
    TableEnds(i);
    base := Prime(maxPos);
    TableEnds(maxPos);
    forall k: nat | k < COUNT && Prime(k) < maxLimit
      ensures Prime(k) <= base
    {
      if k < maxPos {
        TableAscends(k, maxPos);
      }
    }
  }
}
