/**
 What the names and numbers in a response head mean: names count in any letter case, the last field
 of a name counts, and numbers are decimal. Stated over the text of the fields alone.
 */
module HeaderNames {
  import opened Scanner
  import opened ResponseTable
  import opened HttpResponse
  import opened ResponseRoundTrip
  import ChunkedBody
  import ChunkedCoding
  import ChunkedRoundTrip

  /** The bytes of an ASCII text. */
  function Ascii(s: string): (bytes: Bytes)
    ensures |bytes| == |s| && forall i :: 0 <= i < |s| && s[i] < 128 as char ==> bytes[i] == s[i] as int
  {
    seq(|s|, i requires 0 <= i < |s| => if s[i] < 128 as char then s[i] as int else 0)
  }

  lemma NamesAreSpelled()
    ensures CONTENT_LENGTH == Ascii("content-length")
    ensures TRANSFER_ENCODING == Ascii("transfer-encoding")
    ensures CONTENT_ENCODING == Ascii("content-encoding")
    ensures CHUNKED == Ascii("chunked")
    ensures GZIP == Ascii("gzip")
  {
  }

  // ---------- Letter case ----------

  predicate IsCapital(b: SByte) {
    'A' as int <= b <= 'Z' as int
  }

  predicate SameButCase(m: Bytes, n: Bytes) {
    && |m| == |n|
    && forall i :: 0 <= i < |m| ==>
         m[i] == n[i] || (IsCapital(m[i]) && n[i] == m[i] + 32) || (IsCapital(n[i]) && m[i] == n[i] + 32)
  }

  /** Lower-casing moves the capitals, and only them, by 32. */
  lemma {:induction false} LowerAllMeans(s: Bytes)
    ensures |LowerAll(s)| == |s|
    ensures forall i :: 0 <= i < |s| ==> LowerAll(s)[i] == if IsCapital(s[i]) then s[i] + 32 else s[i]
    ensures forall i :: 0 <= i < |s| ==> !IsCapital(LowerAll(s)[i])
  {
    if s != [] {
      LowerAllMeans(s[1..]);
    }
  }

  /** Two names are stored under one key exactly when they differ at most in letter case. */
  lemma SameKeyExactly(m: Bytes, n: Bytes)
    ensures LowerAll(m) == LowerAll(n) <==> SameButCase(m, n)
  {
    hide LowerAll;
    LowerAllMeans(m);
    LowerAllMeans(n);
    if LowerAll(m) == LowerAll(n) {
      forall i | 0 <= i < |m|
        ensures m[i] == n[i] || (IsCapital(m[i]) && n[i] == m[i] + 32) || (IsCapital(n[i]) && m[i] == n[i] + 32)
      {
        assert LowerAll(m)[i] == LowerAll(n)[i];
      }
    }
  }

  /** A name without capitals is the key of exactly the names that differ from it in letter case. */
  lemma KeyOfLowerName(m: Bytes, key: Bytes)
    requires forall i :: 0 <= i < |key| ==> !IsCapital(key[i])
    ensures LowerAll(m) == key <==> SameButCase(m, key)
  {
    hide LowerAll, SameButCase;
    SameKeyExactly(m, key);
    LowerAllMeans(key);
    assert LowerAll(key) == key;
  }

  // ---------- The field that counts ----------

  datatype Found = Absent | Present(value: Bytes)

  /** The value, without leading spaces, of the last field called `name` in any letter case. */
  function Named(fields: seq<Field>, name: Bytes): Found {
    if fields == [] then Absent
    else
      var last := fields[|fields| - 1];
      if SameButCase(last.name, name) then Present(Strip(last.value)) else Named(fields[..|fields| - 1], name)
  }

  /** Stripping takes off leading spaces, all of them and nothing else. */
  lemma {:induction false} StripMeans(value: Bytes) returns (n: nat)
    ensures n <= |value| && Strip(value) == value[n..]
    ensures forall i :: 0 <= i < n ==> value[i] == ' ' as int
    ensures Strip(value) != [] ==> Strip(value)[0] != ' ' as int
  {
    n := 0;
    if value != [] && value[0] == SPACE {
      n := StripMeans(value[1..]);
      n := n + 1;
    }
  }

  lemma {:induction false} HeaderMapOfLast(headers: map<Bytes, Bytes>, fields: seq<Field>)
    requires fields != []
    ensures var last := fields[|fields| - 1];
            HeaderMap(headers, fields)
            == HeaderMap(headers, fields[..|fields| - 1])[LowerAll(last.name) := Strip(last.value)]
    decreases |fields|
  {
    hide LowerAll, Strip;
    if |fields| > 1 {
      var next := headers[LowerAll(fields[0].name) := Strip(fields[0].value)];
      HeaderMapOfLast(next, fields[1..]);
      assert fields[1..][..|fields| - 2] == fields[..|fields| - 1][1..];
    }
  }

  /** The stored header of a name without capitals is the field that counts. */
  lemma {:induction false} StoredIsNamed(fields: seq<Field>, name: Bytes)
    requires forall i :: 0 <= i < |name| ==> !IsCapital(name[i])
    ensures var stored := HeaderMap(map[], fields);
            Named(fields, name) == if name in stored then Present(stored[name]) else Absent
    decreases |fields|
  {
    hide HeaderMap, LowerAll, Strip, SameButCase;
    if fields == [] {
      EmptyHeaderMap();
    } else {
      HeaderMapOfLast(map[], fields);
      KeyOfLowerName(fields[|fields| - 1].name, name);
      StoredIsNamed(fields[..|fields| - 1], name);
    }
  }

  lemma EmptyHeaderMap()
    ensures HeaderMap(map[], []) == map[]
  {
  }

  // ---------- Numbers ----------

  const DIGITS := "0123456789"

  function DigitByte(d: nat): (b: SByte)
    requires d < 10
    ensures IsDigit(b) && b - '0' as int == d
  {
    DIGITS[d] as int
  }

  function Decimal(n: nat): (s: Bytes)
    ensures s != []
  {
    (if n < 10 then [] else Decimal(n / 10)) + [DigitByte(n % 10)]
  }

  /** A decimal number in front of something else is read as that number. */
  lemma {:induction false} LeadingDigitsOfDecimal(n: nat, tail: Bytes)
    ensures LeadingDigits(Decimal(n) + tail, 0) == LeadingDigits(tail, n)
    decreases n
  {
    hide DigitByte;
    var d := [DigitByte(n % 10)];
    if n < 10 {
      assert Decimal(n) + tail == d + tail;
    } else {
      LeadingDigitsOfDecimal(n / 10, d + tail);
      assert Decimal(n) + tail == Decimal(n / 10) + (d + tail);
    }
    assert (d + tail)[1..] == tail;
  }

  lemma {:induction false} FirstOfDecimal(n: nat)
    ensures IsDigit(Decimal(n)[0])
  {
    if n >= 10 {
      FirstOfDecimal(n / 10);
    }
  }

  lemma {:induction false} SpacesAreSkipped(spaces: Bytes, s: Bytes)
    requires forall i :: 0 <= i < |spaces| ==> spaces[i] == ' ' as int || 9 <= spaces[i] <= 13
    requires s != [] && s[0] > ' ' as int
    ensures SkipSpace(spaces + s) == s
    decreases |spaces|
  {
    if spaces == [] {
      assert spaces + s == s;
    } else {
      assert (spaces + s)[1..] == spaces[1..] + s;
      SpacesAreSkipped(spaces[1..], s);
    }
  }

  datatype Sign = NoSign | Plus | Minus

  function PrintSign(sign: Sign): Bytes {
    match sign
    case NoSign => []
    case Plus => ['+' as int]
    case Minus => ['-' as int]
  }

  /** `atoi` reads printed numbers, up to the first byte that is no digit; too large ones are clamped and cut. */
  lemma AtoiReadsDecimal(spaces: Bytes, sign: Sign, n: nat, tail: Bytes)
    requires forall i :: 0 <= i < |spaces| ==> spaces[i] == ' ' as int || 9 <= spaces[i] <= 13
    requires tail != [] ==> !IsDigit(tail[0])
    ensures var value := Atoi(spaces + PrintSign(sign) + Decimal(n) + tail);
            && (n <= 0x7fff_ffff ==> value == (if sign == Minus then -1 else 1) * n)
            && (n >= 0x8000_0000_0000_0000 ==> value == if sign == Minus then 0 else -1)
  {
    hide SkipSpace, LeadingDigits, Decimal;
    var number := Decimal(n) + tail;
    var s := PrintSign(sign) + number;
    FirstOfDecimal(n);
    assert number[0] == Decimal(n)[0];
    SpacesAreSkipped(spaces, s);
    assert spaces + PrintSign(sign) + Decimal(n) + tail == spaces + s;
    LeadingDigitsOfDecimal(n, tail);
    NoLeadingDigits(tail, n);
    assert (if sign.NoSign? then s else s[1..]) == number;
  }

  lemma NoLeadingDigits(s: Bytes, acc: nat)
    requires s != [] ==> !IsDigit(s[0])
    ensures LeadingDigits(s, acc) == acc
  {
  }

  // ---------- Whole responses ----------

  /** The body of `r` without its transfer coding. */
  ghost predicate Plain(r: Response, plain: Bytes) {
    if Named(r.fields, Ascii("transfer-encoding")) == Present(Ascii("chunked")) then
      exists coded: ChunkedCoding.Body ::
        && coded.Legal() && coded.Encode() == r.body && ChunkedCoding.Payload(coded.chunks) == plain
        && forall c :: c in coded.chunks ==> |c.data| < 0x7fff_ffff
    else plain == r.body
  }

  predicate WithoutCapitals(name: Bytes) {
    forall i :: 0 <= i < |name| ==> !IsCapital(name[i])
  }

  /** `headers` holds, under names without capitals, the value of the field that counts. */
  ghost predicate HeadersOf(headers: map<Bytes, Bytes>, fields: seq<Field>) {
    && (forall name :: name in headers ==> WithoutCapitals(name))
    && (forall name :: WithoutCapitals(name) ==>
          Named(fields, name) == if name in headers then Present(headers[name]) else Absent)
  }

  lemma {:induction false} KeysWithoutCapitals(headers: map<Bytes, Bytes>, fields: seq<Field>)
    requires forall name :: name in headers ==> WithoutCapitals(name)
    ensures forall name :: name in HeaderMap(headers, fields) ==> WithoutCapitals(name)
    decreases |fields|
  {
    hide LowerAll, Strip;
    if fields != [] {
      LowerAllMeans(fields[0].name);
      KeysWithoutCapitals(headers[LowerAll(fields[0].name) := Strip(fields[0].value)], fields[1..]);
    }
  }

  lemma HeadersAreRead(fields: seq<Field>)
    ensures HeadersOf(HeaderMap(map[], fields), fields)
  {
    hide HeaderMap, Named;
    KeysWithoutCapitals(map[], fields);
    forall name | WithoutCapitals(name)
      ensures var headers := HeaderMap(map[], fields);
              Named(fields, name) == if name in headers then Present(headers[name]) else Absent
    {
      StoredIsNamed(fields, name);
    }
  }

  predicate IsGzipped(r: Response) {
    Named(r.fields, Ascii("content-encoding")) == Present(Ascii("gzip"))
  }

  /** No length is declared, or one within ten of the length of the body as sent. */
  predicate LengthFits(r: Response) {
    match Named(r.fields, Ascii("content-length"))
    case Absent => true
    case Present(value) => -10 <= Atoi(value) - |r.body| <= 10
  }

  lemma FieldsDecide(r: Response)
    ensures var headers := HeaderMap(map[], r.fields);
            && (Says(headers, CONTENT_ENCODING, GZIP) <==> IsGzipped(r))
            && (LengthAgrees(headers, |r.body|) <==> LengthFits(r))
            && (Says(headers, TRANSFER_ENCODING, CHUNKED)
                <==> Named(r.fields, Ascii("transfer-encoding")) == Present(Ascii("chunked")))
  {
    hide HeaderMap, Named, Atoi;
    NamesAreSpelled();
    StoredIsNamed(r.fields, CONTENT_ENCODING);
    StoredIsNamed(r.fields, CONTENT_LENGTH);
    StoredIsNamed(r.fields, TRANSFER_ENCODING);
  }

  lemma DechunkedIsPlain(r: Response, plain: Bytes)
    requires Plain(r, plain)
    ensures Dechunked(HeaderMap(map[], r.fields), r.body) == plain
  {
    hide HeaderMap, Named, LengthFits, LengthAgrees, Says;
    FieldsDecide(r);
    if Named(r.fields, Ascii("transfer-encoding")) == Present(Ascii("chunked")) {
      var coded: ChunkedCoding.Body :|
        && coded.Legal() && coded.Encode() == r.body && ChunkedCoding.Payload(coded.chunks) == plain
        && forall c :: c in coded.chunks ==> |c.data| < 0x7fff_ffff;
      ChunkedRoundTrip.RoundTrip(coded);
    }
  }

  /**
   The fields decide, whatever the letter case of their names: a response is accepted exactly when
   it is readable and its body, if any, has the declared length and inflates if it is gzipped; then
   status, headers and body are those that were printed, the body without its codings.
   */
  lemma FieldsRule(r: Response, n: nat, plain: Bytes, inflate: Inflate)
    requires Legal(r) && r.code == Decimal(n)
    requires r.body != [] ==> Plain(r, plain)
    ensures var out := Parsed(Print(r), inflate);
            && (out.ok <==> Readable(r.fields)
                            && (r.body != [] ==> LengthFits(r) && (IsGzipped(r) ==> inflate(plain).Data?)))
            && (out.ok ==> out.status == n && HeadersOf(out.headers, r.fields))
            && (out.ok ==> out.body == if r.body == [] then []
                                       else if IsGzipped(r) then inflate(plain).bytes else plain)
  {
    hide HeaderMap, Named, Atoi, LeadingDigits, Decimal, Parsed, Dechunked, LengthAgrees, Plain, HeadersOf, Says;
    RoundTrip(r, inflate);
    LeadingDigitsOfDecimal(n, []);
    NoLeadingDigits([], n);
    assert Decimal(n) + [] == Decimal(n);
    FieldsDecide(r);
    HeadersAreRead(r.fields);
    if r.body != [] {
      DechunkedIsPlain(r, plain);
    }
  }

  /** So a field called "transfer-encoding", in any letter case, takes the chunked coding off. */
  lemma AnyCaseIsDechunked(r: Response, coded: ChunkedCoding.Body, k: nat, inflate: Inflate)
    requires Legal(r) && Readable(r.fields) && LengthFits(r) && !IsGzipped(r)
    requires coded.Legal() && r.body == coded.Encode()
    requires forall c :: c in coded.chunks ==> |c.data| < 0x7fff_ffff
    requires k < |r.fields| && SameButCase(r.fields[k].name, Ascii("transfer-encoding"))
    requires Strip(r.fields[k].value) == Ascii("chunked")
    requires forall i :: k < i < |r.fields| ==> !SameButCase(r.fields[i].name, Ascii("transfer-encoding"))
    ensures var out := Parsed(Print(r), inflate);
            out.ok && out.body == ChunkedCoding.Payload(coded.chunks)
  {
    hide HeaderMap, Named, Atoi, LeadingDigits, Parsed, LengthAgrees, Says, Ascii;
    LastNamed(r.fields, Ascii("transfer-encoding"), k);
    FieldsDecide(r);
    ChunkedResponseRoundTrip(r, coded, inflate);
  }

  lemma {:induction false} LastNamed(fields: seq<Field>, name: Bytes, k: nat)
    requires k < |fields| && SameButCase(fields[k].name, name)
    requires forall i :: k < i < |fields| ==> !SameButCase(fields[i].name, name)
    ensures Named(fields, name) == Present(Strip(fields[k].value))
  {
    hide SameButCase, Strip;
    if k < |fields| - 1 {
      LastNamed(fields[..|fields| - 1], name, k);
    }
  }
}
