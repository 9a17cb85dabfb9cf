/**
 The table-driven CRC of `crc32.c` and the division it stands for: bit at a time, by the reflected
 polynomial 0xEDB88320, with initial and final complement (section 8 of RFC 1952).
 */
module Crc32 {

  type Bytes = seq<bv8>

  const POLYNOMIAL: bv32 := 0xEDB88320

  // ---------- Bit at a time ----------

  /** Addition and subtraction of polynomials over two elements. */
  function Add(a: bv32, b: bv32): bv32 {
    a ^ b
  }

  /** One bit of the division: shift, and subtract the polynomial if a bit fell out. */
  function Divide1(r: bv32): bv32 {
    if r & 1 == 1 then Add(r >> 1, POLYNOMIAL) else r >> 1
  }

  function Divide4(r: bv32): bv32 {
    Divide1(Divide1(Divide1(Divide1(r))))
  }

  /** One byte of the division. */
  function Divide8(r: bv32): bv32 {
    Divide4(Divide4(r))
  }

  /** The register after one more byte of the message. */
  function Feed(r: bv32, b: bv8): bv32 {
    Divide8(Add(r, b as bv32))
  }

  function FeedAll(r: bv32, s: Bytes): bv32 {
    if s == [] then r else Feed(FeedAll(r, s[..|s| - 1]), s[|s| - 1])
  }

  function Complement(r: bv32): bv32 {
    !r
  }

  /** The CRC of a message. */
  function Crc(s: Bytes): bv32 {
    Complement(FeedAll(0xFFFFFFFF, s))
  }

  // ---------- The table ----------

  /** `crc32tab`, eight entries a row. */
  function TableRow(row: bv32): (entries: seq<bv32>)
    ensures |entries| == 8
  {
    if row < 8 then Rows00(row) else if row < 16 then Rows08(row) else if row < 24 then Rows10(row) else Rows18(row)
  }

  function Rows00(row: bv32): (entries: seq<bv32>)
    ensures |entries| == 8
  {
    if row == 0 then
      [0x00000000, 0x77073096, 0xEE0E612C, 0x990951BA,
       0x076DC419, 0x706AF48F, 0xE963A535, 0x9E6495A3]
    else if row == 1 then
      [0x0EDB8832, 0x79DCB8A4, 0xE0D5E91E, 0x97D2D988,
       0x09B64C2B, 0x7EB17CBD, 0xE7B82D07, 0x90BF1D91]
    else if row == 2 then
      [0x1DB71064, 0x6AB020F2, 0xF3B97148, 0x84BE41DE,
       0x1ADAD47D, 0x6DDDE4EB, 0xF4D4B551, 0x83D385C7]
    else if row == 3 then
      [0x136C9856, 0x646BA8C0, 0xFD62F97A, 0x8A65C9EC,
       0x14015C4F, 0x63066CD9, 0xFA0F3D63, 0x8D080DF5]
    else if row == 4 then
      [0x3B6E20C8, 0x4C69105E, 0xD56041E4, 0xA2677172,
       0x3C03E4D1, 0x4B04D447, 0xD20D85FD, 0xA50AB56B]
    else if row == 5 then
      [0x35B5A8FA, 0x42B2986C, 0xDBBBC9D6, 0xACBCF940,
       0x32D86CE3, 0x45DF5C75, 0xDCD60DCF, 0xABD13D59]
    else if row == 6 then
      [0x26D930AC, 0x51DE003A, 0xC8D75180, 0xBFD06116,
       0x21B4F4B5, 0x56B3C423, 0xCFBA9599, 0xB8BDA50F]
    else
      [0x2802B89E, 0x5F058808, 0xC60CD9B2, 0xB10BE924,
       0x2F6F7C87, 0x58684C11, 0xC1611DAB, 0xB6662D3D]
  }

  function Rows08(row: bv32): (entries: seq<bv32>)
    ensures |entries| == 8
  {
    if row == 8 then
      [0x76DC4190, 0x01DB7106, 0x98D220BC, 0xEFD5102A,
       0x71B18589, 0x06B6B51F, 0x9FBFE4A5, 0xE8B8D433]
    else if row == 9 then
      [0x7807C9A2, 0x0F00F934, 0x9609A88E, 0xE10E9818,
       0x7F6A0DBB, 0x086D3D2D, 0x91646C97, 0xE6635C01]
    else if row == 10 then
      [0x6B6B51F4, 0x1C6C6162, 0x856530D8, 0xF262004E,
       0x6C0695ED, 0x1B01A57B, 0x8208F4C1, 0xF50FC457]
    else if row == 11 then
      [0x65B0D9C6, 0x12B7E950, 0x8BBEB8EA, 0xFCB9887C,
       0x62DD1DDF, 0x15DA2D49, 0x8CD37CF3, 0xFBD44C65]
    else if row == 12 then
      [0x4DB26158, 0x3AB551CE, 0xA3BC0074, 0xD4BB30E2,
       0x4ADFA541, 0x3DD895D7, 0xA4D1C46D, 0xD3D6F4FB]
    else if row == 13 then
      [0x4369E96A, 0x346ED9FC, 0xAD678846, 0xDA60B8D0,
       0x44042D73, 0x33031DE5, 0xAA0A4C5F, 0xDD0D7CC9]
    else if row == 14 then
      [0x5005713C, 0x270241AA, 0xBE0B1010, 0xC90C2086,
       0x5768B525, 0x206F85B3, 0xB966D409, 0xCE61E49F]
    else
      [0x5EDEF90E, 0x29D9C998, 0xB0D09822, 0xC7D7A8B4,
       0x59B33D17, 0x2EB40D81, 0xB7BD5C3B, 0xC0BA6CAD]
  }

  function Rows10(row: bv32): (entries: seq<bv32>)
    ensures |entries| == 8
  {
    if row == 16 then
      [0xEDB88320, 0x9ABFB3B6, 0x03B6E20C, 0x74B1D29A,
       0xEAD54739, 0x9DD277AF, 0x04DB2615, 0x73DC1683]
    else if row == 17 then
      [0xE3630B12, 0x94643B84, 0x0D6D6A3E, 0x7A6A5AA8,
       0xE40ECF0B, 0x9309FF9D, 0x0A00AE27, 0x7D079EB1]
    else if row == 18 then
      [0xF00F9344, 0x8708A3D2, 0x1E01F268, 0x6906C2FE,
       0xF762575D, 0x806567CB, 0x196C3671, 0x6E6B06E7]
    else if row == 19 then
      [0xFED41B76, 0x89D32BE0, 0x10DA7A5A, 0x67DD4ACC,
       0xF9B9DF6F, 0x8EBEEFF9, 0x17B7BE43, 0x60B08ED5]
    else if row == 20 then
      [0xD6D6A3E8, 0xA1D1937E, 0x38D8C2C4, 0x4FDFF252,
       0xD1BB67F1, 0xA6BC5767, 0x3FB506DD, 0x48B2364B]
    else if row == 21 then
      [0xD80D2BDA, 0xAF0A1B4C, 0x36034AF6, 0x41047A60,
       0xDF60EFC3, 0xA867DF55, 0x316E8EEF, 0x4669BE79]
    else if row == 22 then
      [0xCB61B38C, 0xBC66831A, 0x256FD2A0, 0x5268E236,
       0xCC0C7795, 0xBB0B4703, 0x220216B9, 0x5505262F]
    else
      [0xC5BA3BBE, 0xB2BD0B28, 0x2BB45A92, 0x5CB36A04,
       0xC2D7FFA7, 0xB5D0CF31, 0x2CD99E8B, 0x5BDEAE1D]
  }

  function Rows18(row: bv32): (entries: seq<bv32>)
    ensures |entries| == 8
  {
    if row == 24 then
      [0x9B64C2B0, 0xEC63F226, 0x756AA39C, 0x026D930A,
       0x9C0906A9, 0xEB0E363F, 0x72076785, 0x05005713]
    else if row == 25 then
      [0x95BF4A82, 0xE2B87A14, 0x7BB12BAE, 0x0CB61B38,
       0x92D28E9B, 0xE5D5BE0D, 0x7CDCEFB7, 0x0BDBDF21]
    else if row == 26 then
      [0x86D3D2D4, 0xF1D4E242, 0x68DDB3F8, 0x1FDA836E,
       0x81BE16CD, 0xF6B9265B, 0x6FB077E1, 0x18B74777]
    else if row == 27 then
      [0x88085AE6, 0xFF0F6A70, 0x66063BCA, 0x11010B5C,
       0x8F659EFF, 0xF862AE69, 0x616BFFD3, 0x166CCF45]
    else if row == 28 then
      [0xA00AE278, 0xD70DD2EE, 0x4E048354, 0x3903B3C2,
       0xA7672661, 0xD06016F7, 0x4969474D, 0x3E6E77DB]
    else if row == 29 then
      [0xAED16A4A, 0xD9D65ADC, 0x40DF0B66, 0x37D83BF0,
       0xA9BCAE53, 0xDEBB9EC5, 0x47B2CF7F, 0x30B5FFE9]
    else if row == 30 then
      [0xBDBDF21C, 0xCABAC28A, 0x53B39330, 0x24B4A3A6,
       0xBAD03605, 0xCDD70693, 0x54DE5729, 0x23D967BF]
    else
      [0xB3667A2E, 0xC4614AB8, 0x5D681B02, 0x2A6F2B94,
       0xB40BBE37, 0xC30C8EA1, 0x5A05DF1B, 0x2D02EF8D]
  }

  /** `crc32tab[i]`. */
  function Table(i: bv32): bv32
    requires i < 256
  {
    TableRow(i >> 3)[(i & 7) as nat]
  }

  /** The row holds the remainders of eight consecutive bytes. */
  predicate RowRight(row: bv32) {
    var es, first := TableRow(row), row << 3;
    && es[0] == Divide8(first) && es[1] == Divide8(first | 1)
    && es[2] == Divide8(first | 2) && es[3] == Divide8(first | 3)
    && es[4] == Divide8(first | 4) && es[5] == Divide8(first | 5)
    && es[6] == Divide8(first | 6) && es[7] == Divide8(first | 7)
  }

  lemma RowsRight0()
    ensures RowRight(0) && RowRight(1)
  {
  }

  lemma RowsRight2()
    ensures RowRight(2) && RowRight(3)
  {
  }

  lemma RowsRight4()
    ensures RowRight(4) && RowRight(5)
  {
  }

  lemma RowsRight6()
    ensures RowRight(6) && RowRight(7)
  {
  }

  lemma RowsRight8()
    ensures RowRight(8) && RowRight(9)
  {
  }

  lemma RowsRight10()
    ensures RowRight(10) && RowRight(11)
  {
  }

  lemma RowsRight12()
    ensures RowRight(12) && RowRight(13)
  {
  }

  lemma RowsRight14()
    ensures RowRight(14) && RowRight(15)
  {
  }

  lemma RowsRight16()
    ensures RowRight(16) && RowRight(17)
  {
  }

  lemma RowsRight18()
    ensures RowRight(18) && RowRight(19)
  {
  }

  lemma RowsRight20()
    ensures RowRight(20) && RowRight(21)
  {
  }

  lemma RowsRight22()
    ensures RowRight(22) && RowRight(23)
  {
  }

  lemma RowsRight24()
    ensures RowRight(24) && RowRight(25)
  {
  }

  lemma RowsRight26()
    ensures RowRight(26) && RowRight(27)
  {
  }

  lemma RowsRight28()
    ensures RowRight(28) && RowRight(29)
  {
  }

  lemma RowsRight30()
    ensures RowRight(30) && RowRight(31)
  {
  }

  lemma RowsRight(row: bv32)
    requires row < 32
    ensures RowRight(row)
  {
    hide RowRight;
    RowsRight0();
    RowsRight2();
    RowsRight4();
    RowsRight6();
    RowsRight8();
    RowsRight10();
    RowsRight12();
    RowsRight14();
    RowsRight16();
    RowsRight18();
    RowsRight20();
    RowsRight22();
    RowsRight24();
    RowsRight26();
    RowsRight28();
    RowsRight30();
    OneOfThirtyTwo(row);
  }

  lemma OneOfThirtyTwo(row: bv32)
    requires row < 32
    ensures || row == 0 || row == 1 || row == 2 || row == 3 || row == 4 || row == 5 || row == 6 || row == 7
            || row == 8 || row == 9 || row == 10 || row == 11 || row == 12 || row == 13 || row == 14 || row == 15
            || row == 16 || row == 17 || row == 18 || row == 19 || row == 20 || row == 21 || row == 22 || row == 23
            || row == 24 || row == 25 || row == 26 || row == 27 || row == 28 || row == 29 || row == 30 || row == 31
  {
  }

  /** All 256 entries of the table are right. */
  lemma TableIsDivision(i: bv32)
    requires i < 256
    ensures Table(i) == Divide8(i)
  {
    var row, e := i >> 3, i & 7;
    RowsRight(row);
    hide TableRow, Divide8;
    OneOfEight(e);
    assert i == (row << 3) | e && row << 3 == (row << 3) | 0;
  }

  lemma OneOfEight(e: bv32)
    requires e < 8
    ensures e == 0 || e == 1 || e == 2 || e == 3 || e == 4 || e == 5 || e == 6 || e == 7
  {
  }

  /** The `_CRC32_` macro. */
  function TableStep(r: bv32, b: bv8): bv32 {
    Add(r >> 8, Table(Add(r, b as bv32) & 0xFF))
  }

  /** One byte through the table is one byte of the division. */
  lemma TableStepIsFeed(r: bv32, b: bv8)
    ensures TableStep(r, b) == Feed(r, b)
  {
    hide Add, Table, Divide8;
    FeedByTable(r, b as bv32);
  }

  lemma FeedByTable(r: bv32, b: bv32)
    requires b < 256
    ensures Add(r, b) & 0xFF < 256
    ensures Add(r >> 8, Table(Add(r, b) & 0xFF)) == Divide8(Add(r, b))
  {
    hide Add, Table, Divide8, Early;
    var x, low, high, early := HighAndLow(r, b);
    FeedInParts(x, low, high, early);
  }

  lemma FeedInParts(x: bv32, low: bv32, high: bv32, early: bv32)
    requires x == Add(low, high) && Early(high, early) && low < 256
    ensures Add(early, Table(low)) == Divide8(x)
  {
    hide Add, Table, Divide8, Early;
    TableIsDivision(low);
    EarlyByte(low, high, early);
    AddCommutes(Table(low), early);
  }

  lemma AddCommutes(a: bv32, b: bv32)
    ensures Add(a, b) == Add(b, a)
  {
  }

  lemma HighAndLow(r: bv32, b: bv32) returns (x: bv32, low: bv32, high: bv32, early: bv32)
    requires b < 256
    ensures x == Add(r, b) && low == x & 0xFF && early == r >> 8
    ensures x == Add(low, high) && Early(high, early) && low < 256
  {
    x, early := r ^ b, r >> 8;
    low, high := x & 0xFF, x & 0xFFFFFF00;
    assert x == (x & 0xFF) ^ (x & 0xFFFFFF00);
    HighBits(r, b);
  }

  lemma HighBits(r: bv32, b: bv32)
    requires b < 256
    ensures var high := (r ^ b) & 0xFFFFFF00; high & 0xFF == 0 && high >> 8 == r >> 8 && (r ^ b) & 0xFF < 256
  {
  }

  /** `UdmCRC32`: one pass, one table entry per byte. */
  method UdmCRC32(buf: Bytes) returns (crc: bv32)
    ensures crc == Crc(buf)
  {
    hide TableStep, Feed;
    crc := 0xFFFFFFFF;
    var p := 0;
    while p < |buf|
      invariant 0 <= p <= |buf|
      invariant crc == FeedAll(0xFFFFFFFF, buf[..p])
    {
      TableStepIsFeed(crc, buf[p]);
      assert buf[..p + 1][..p] == buf[..p];
      crc := TableStep(crc, buf[p]);
      p := p + 1;
    }
    assert buf[..p] == buf;
    crc := Complement(crc);
  }

  // ---------- Division is linear and reversible ----------

  lemma Linear1(a: bv32, b: bv32)
    ensures Divide1(Add(a, b)) == Add(Divide1(a), Divide1(b))
  {
    AddLowBit(a, b);
    AddShifted(a, b);
    AddSwaps(a >> 1, b >> 1, POLYNOMIAL);
    hide Add;
    if a & 1 == 1 && b & 1 == 1 {
    } else if a & 1 == 1 {
    } else if b & 1 == 1 {
    } else {
    }
  }

  lemma AddLowBit(a: bv32, b: bv32)
    ensures (a & 1 == 0 || a & 1 == 1) && (b & 1 == 0 || b & 1 == 1)
    ensures Add(a, b) & 1 == if a & 1 == b & 1 then 0 else 1
  {
    LowBits(a, b);
  }

  lemma AddShifted(a: bv32, b: bv32)
    ensures Add(a, b) >> 1 == Add(a >> 1, b >> 1)
  {
    calc {
      Add(a, b) >> 1;
      (a ^ b) >> 1;
      { ShiftXor(a, b); }
      (a >> 1) ^ (b >> 1);
      Add(a >> 1, b >> 1);
    }
  }

  lemma ShiftXor(a: bv32, b: bv32)
    ensures (a ^ b) >> 1 == (a >> 1) ^ (b >> 1)
  {
  }

  lemma LowBits(a: bv32, b: bv32)
    ensures (a & 1 == 0 || a & 1 == 1) && (b & 1 == 0 || b & 1 == 1)
    ensures (a ^ b) & 1 == if a & 1 == b & 1 then 0 else 1
  {
  }

  lemma AddSwaps(a: bv32, b: bv32, p: bv32)
    ensures Add(Add(a, p), b) == Add(Add(a, b), p) && Add(a, Add(b, p)) == Add(Add(a, b), p)
    ensures Add(Add(a, p), Add(b, p)) == Add(a, b)
  {
    XorSwaps(a, b, p);
  }

  lemma XorSwaps(a: bv32, b: bv32, p: bv32)
    ensures (a ^ p) ^ b == (a ^ b) ^ p && a ^ (b ^ p) == (a ^ b) ^ p && (a ^ p) ^ (b ^ p) == a ^ b
  {
  }

  lemma Linear4(a: bv32, b: bv32)
    ensures Divide4(Add(a, b)) == Add(Divide4(a), Divide4(b))
  {
    hide Add, Divide1;
    var a1, b1 := Divide1(a), Divide1(b);
    var a2, b2 := Divide1(a1), Divide1(b1);
    Linear1(a, b);
    Linear1(a1, b1);
    Linear1(a2, b2);
    Linear1(Divide1(a2), Divide1(b2));
  }

  lemma Linear8(a: bv32, b: bv32)
    ensures Divide8(Add(a, b)) == Add(Divide8(a), Divide8(b))
  {
    hide Add, Divide4;
    Linear4(a, b);
    Linear4(Divide4(a), Divide4(b));
  }

  /** A byte of zeros divides out without a remainder. */
  lemma LowByteZero(x: bv32)
    requires x & 0xFF == 0
    ensures Divide8(x) == x >> 8
  {
  }

  /** `y` is the byte sum `early` shifted up by one byte. */
  predicate Early(y: bv32, early: bv32) {
    y & 0xFF == 0 && y >> 8 == early
  }

  /** What lies above the low byte may be subtracted after that byte was divided. */
  lemma EarlyByte(x: bv32, y: bv32, early: bv32)
    requires Early(y, early)
    ensures Divide8(Add(x, y)) == Add(Divide8(x), early)
  {
    hide Add, Divide8;
    Linear8(x, y);
    LowByteZero(y);
  }

  lemma Reversible1(a: bv32, b: bv32)
    ensures Divide1(a) == Divide1(b) <==> a == b
  {
    assert (a >> 1) & 0x80000000 == 0 && (b >> 1) & 0x80000000 == 0;
    assert ((a >> 1) ^ POLYNOMIAL) & 0x80000000 == 0x80000000 && ((b >> 1) ^ POLYNOMIAL) & 0x80000000 == 0x80000000;
    assert a == ((a >> 1) << 1) | (a & 1) && b == ((b >> 1) << 1) | (b & 1);
    LowBits(a, b);
    assert ((a >> 1) ^ POLYNOMIAL) ^ POLYNOMIAL == a >> 1 && ((b >> 1) ^ POLYNOMIAL) ^ POLYNOMIAL == b >> 1;
  }

  lemma Reversible8(a: bv32, b: bv32)
    ensures Divide8(a) == Divide8(b) <==> a == b
  {
    hide Divide4;
    Reversible4(a, b);
    Reversible4(Divide4(a), Divide4(b));
  }

  lemma Reversible4(a: bv32, b: bv32)
    ensures Divide4(a) == Divide4(b) <==> a == b
  {
    hide Divide1;
    Reversible1(a, b);
    Reversible1(Divide1(a), Divide1(b));
    Reversible1(Divide1(Divide1(a)), Divide1(Divide1(b)));
    Reversible1(Divide1(Divide1(Divide1(a))), Divide1(Divide1(Divide1(b))));
  }

  // ---------- What the CRC detects ----------

  function Wide(b: bv8): bv32 {
    b as bv32
  }

  /** A byte moved up to its place in a word. */
  function Up(b: bv32, places: nat): bv32 {
    if places == 0 then b else if places == 1 then b << 8 else if places == 2 then b << 16 else b << 24
  }

  function Word(s: Bytes): bv32
    requires |s| == 4
  {
    Add(Add(Add(Wide(s[0]), Up(Wide(s[1]), 1)), Up(Wide(s[2]), 2)), Up(Wide(s[3]), 3))
  }

  function Divide32(r: bv32): bv32 {
    Divide8(Divide8(Divide8(Divide8(r))))
  }

  /** Four bytes at once. */
  lemma FeedWord(r: bv32, s: Bytes)
    requires |s| == 4
    ensures FeedAll(r, s) == Divide32(Add(r, Word(s)))
  {
    hide Add, Early, Divide8, Word, FeedAll, Feed, Up, Wide;
    var b0, b1, b2, b3 := Wide(s[0]), Wide(s[1]), Wide(s[2]), Wide(s[3]);
    FeedAllFour(r, s);
    FeedIsDivide(r, s[0]);
    FeedIsDivide(Feed(r, s[0]), s[1]);
    FeedIsDivide(Feed(Feed(r, s[0]), s[1]), s[2]);
    FeedIsDivide(Feed(Feed(Feed(r, s[0]), s[1]), s[2]), s[3]);
    ShiftedBytes(s[1], s[2], s[3]);
    WordIsSum(r, s);
    FeedFour(Add(r, b0), Up(b1, 1), b1, Up(b2, 2), Up(b2, 1), b2, Up(b3, 3), Up(b3, 2), Up(b3, 1), b3);
  }

  lemma FeedIsDivide(r: bv32, b: bv8)
    ensures Feed(r, b) == Divide8(Add(r, Wide(b)))
  {
  }

  lemma FeedAllFour(r: bv32, s: Bytes)
    requires |s| == 4
    ensures FeedAll(r, s) == Feed(Feed(Feed(Feed(r, s[0]), s[1]), s[2]), s[3])
  {
    hide Feed;
    assert s[..3][..2] == s[..2] && s[..2][..1] == s[..1] && s[..1][..0] == [];
    assert FeedAll(r, s[..1]) == Feed(r, s[0]);
    assert FeedAll(r, s[..2]) == Feed(Feed(r, s[0]), s[1]);
  }

  /** Bytes that are subtracted one by one may all be subtracted first, each shifted to its place. */
  lemma FeedFour(x: bv32, b18: bv32, b1: bv32, b216: bv32, b28: bv32, b2: bv32,
                 b324: bv32, b316: bv32, b38: bv32, b3: bv32)
    requires Early(b18, b1)
    requires Early(b216, b28) && Early(b28, b2)
    requires Early(b324, b316) && Early(b316, b38) && Early(b38, b3)
    ensures Divide8(Add(Divide8(Add(Divide8(Add(Divide8(x), b1)), b2)), b3)) ==
            Divide32(Add(Add(Add(x, b18), b216), b324))
  {
    hide Add, Early, Divide8;
    var x1 := Add(x, b18);
    var x2 := Add(x1, b216);
    EarlyByte(x, b18, b1);
    EarlyByte(x1, b216, b28);
    EarlyByte(Divide8(x1), b28, b2);
    EarlyByte(x2, b324, b316);
    EarlyByte(Divide8(x2), b316, b38);
    EarlyByte(Divide8(Divide8(x2)), b38, b3);
  }

  lemma ShiftedBytes(c1: bv8, c2: bv8, c3: bv8)
    ensures var b1, b2, b3 := Wide(c1), Wide(c2), Wide(c3);
            && Early(Up(b1, 1), b1)
            && Early(Up(b2, 2), Up(b2, 1)) && Early(Up(b2, 1), b2)
            && Early(Up(b3, 3), Up(b3, 2)) && Early(Up(b3, 2), Up(b3, 1)) && Early(Up(b3, 1), b3)
  {
  }

  lemma WordIsSum(r: bv32, s: Bytes)
    requires |s| == 4
    ensures Add(Add(Add(Add(r, Wide(s[0])), Up(Wide(s[1]), 1)), Up(Wide(s[2]), 2)), Up(Wide(s[3]), 3))
         == Add(r, Word(s))
  {
    hide Add, Up, Wide;
    var b0, b1, b2, b3 := Wide(s[0]), Up(Wide(s[1]), 1), Up(Wide(s[2]), 2), Up(Wide(s[3]), 3);
    AddAssociates(r, b0, b1);
    AddAssociates(r, Add(b0, b1), b2);
    AddAssociates(r, Add(Add(b0, b1), b2), b3);
  }

  lemma AddAssociates(a: bv32, b: bv32, c: bv32)
    ensures Add(Add(a, b), c) == Add(a, Add(b, c))
  {
  }

  lemma {:induction false} FeedConcat(r: bv32, s: Bytes, t: Bytes)
    ensures FeedAll(r, s + t) == FeedAll(FeedAll(r, s), t)
  {
    if t == [] {
      assert s + t == s;
    } else {
      assert (s + t)[..|s + t| - 1] == s + t[..|t| - 1];
      FeedConcat(r, s, t[..|t| - 1]);
    }
  }

  lemma FeedIsReversible(q: bv32, r: bv32, b: bv8)
    ensures Feed(q, b) == Feed(r, b) <==> q == r
  {
    hide Add, Divide8;
    Reversible8(Add(q, b as bv32), Add(r, b as bv32));
    AddCancels(q, r, b as bv32);
  }

  /** Equal tails keep registers apart. */
  lemma {:induction false} TailKeepsApart(q: bv32, r: bv32, s: Bytes)
    ensures FeedAll(q, s) == FeedAll(r, s) <==> q == r
  {
    hide Feed;
    if s != [] {
      TailKeepsApart(q, r, s[..|s| - 1]);
      FeedIsReversible(FeedAll(q, s[..|s| - 1]), FeedAll(r, s[..|s| - 1]), s[|s| - 1]);
    }
  }

  lemma AddCancels(q: bv32, r: bv32, x: bv32)
    ensures Add(q, x) == Add(r, x) <==> q == r
    ensures Add(x, q) == Add(x, r) <==> q == r
  {
    assert (q ^ x) ^ x == q && (r ^ x) ^ x == r;
    assert x ^ (x ^ q) == q && x ^ (x ^ r) == r;
  }

  lemma WordIsInjective(s: Bytes, t: Bytes)
    requires |s| == |t| == 4 && Word(s) == Word(t)
    ensures s == t
  {
    forall i | 0 <= i < 4
      ensures s[i] == t[i]
    {
      WordBytes(s);
      WordBytes(t);
    }
  }

  lemma WordBytes(s: Bytes)
    requires |s| == 4
    ensures s[0] as bv32 == Word(s) & 0xFF && s[1] as bv32 == (Word(s) >> 8) & 0xFF
    ensures s[2] as bv32 == (Word(s) >> 16) & 0xFF && s[3] as bv32 == (Word(s) >> 24) & 0xFF
  {
  }

  /** Two messages that differ only inside one window of four bytes have different CRCs. */
  lemma BurstChangesCrc(before: Bytes, window: Bytes, other: Bytes, after: Bytes)
    requires |window| == |other| == 4
    ensures Crc(before + window + after) == Crc(before + other + after) <==> window == other
  {
    var r := FeedAll(0xFFFFFFFF, before);
    FeedConcat(0xFFFFFFFF, before + window, after);
    FeedConcat(0xFFFFFFFF, before, window);
    FeedConcat(0xFFFFFFFF, before + other, after);
    FeedConcat(0xFFFFFFFF, before, other);
    FeedWord(r, window);
    FeedWord(r, other);
    TailKeepsApart(FeedAll(r, window), FeedAll(r, other), after);
    hide Add, Complement, Divide8, Word, FeedAll;
    var x, y := Add(r, Word(window)), Add(r, Word(other));
    Reversible8(x, y);
    Reversible8(Divide8(x), Divide8(y));
    Reversible8(Divide8(Divide8(x)), Divide8(Divide8(y)));
    Reversible8(Divide8(Divide8(Divide8(x))), Divide8(Divide8(Divide8(y))));
    AddCancels(Word(window), Word(other), r);
    if window != other && Word(window) == Word(other) {
      WordIsInjective(window, other);
    }
    ComplementApart(FeedAll(0xFFFFFFFF, before + window + after), FeedAll(0xFFFFFFFF, before + other + after));
  }

  lemma ComplementApart(a: bv32, b: bv32)
    ensures Complement(a) == Complement(b) <==> a == b
  {
    ComplementIsXor(a);
    ComplementIsXor(b);
    AddCancels(a, b, 0xFFFFFFFF);
  }

  lemma ComplementIsXor(a: bv32)
    ensures Complement(a) == Add(a, 0xFFFFFFFF)
  {
  }

  /** A message followed by its CRC, least byte first, always has the CRC 0x2144DF1C. */
  lemma Residue(s: Bytes, tail: Bytes)
    requires |tail| == 4 && Word(tail) == Crc(s)
    ensures Crc(s + tail) == 0x2144DF1C
  {
    var r := FeedAll(0xFFFFFFFF, s);
    FeedConcat(0xFFFFFFFF, s, tail);
    FeedWord(r, tail);
    hide Add, Complement, Word, FeedAll, Divide32;
    AddComplement(r);
    ResidueValue();
  }

  lemma AddComplement(r: bv32)
    ensures Add(r, Complement(r)) == 0xFFFFFFFF
  {
  }

  lemma ResidueValue()
    ensures Complement(Divide32(0xFFFFFFFF)) == 0x2144DF1C
  {
  }
}
