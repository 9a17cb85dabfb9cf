/**
 The chunked coding of section 3.6.1 of RFC 2616, from the sender's side: chunk sizes in either
 case and with leading zeros, chunk extensions, and a trailer. Nothing here looks at the scanner.
 */
module ChunkedCoding {
  import opened Scanner

  type Bytes = seq<SByte>

  const CR: SByte := 13
  const LF: SByte := 10
  const CRLF: Bytes := [CR, LF]

  // ---------- Sizes ----------

  const LOWER_HEX := "0123456789abcdef"
  const UPPER_HEX := "0123456789ABCDEF"

  type Nibble = n: nat | n < 16

  /** What a digit is worth, and which of the two spellings it gets. */
  datatype HexDigit = HexDigit(value: Nibble, upper: bool)

  function Spell(d: HexDigit): SByte {
    (if d.upper then UPPER_HEX else LOWER_HEX)[d.value] as int
  }

  function Spelled(size: seq<HexDigit>): Bytes {
    if size == [] then [] else Spelled(size[..|size| - 1]) + [Spell(size[|size| - 1])]
  }

  /** The number a size stands for: what its digits are worth, sixteen times more at each place. */
  function SizeOf(size: seq<HexDigit>): nat {
    if size == [] then 0 else SizeOf(size[..|size| - 1]) * 16 + size[|size| - 1].value
  }

  /** The usual size line for `n` bytes. */
  function Digits(n: nat): (size: seq<HexDigit>)
    ensures size != [] && SizeOf(size) == n
  {
    var last := [HexDigit(n % 16, false)];
    if n < 16 then last
    else
      var high := Digits(n / 16);
      assert (high + last)[..|high|] == high;
      high + last
  }

  // ---------- Extensions ----------

  predicate IsLetter(b: SByte) {
    'A' as int <= b <= 'Z' as int || 'a' as int <= b <= 'z' as int
  }

  predicate IsLetterOrDigit(b: SByte) {
    IsLetter(b) || '0' as int <= b <= '9' as int
  }

  predicate IsToken(s: Bytes) {
    s != [] && IsLetter(s[0]) && forall i :: 0 <= i < |s| ==> IsLetterOrDigit(s[i])
  }

  const QUOTE: SByte := '"' as int

  predicate IsQuotable(b: SByte) {
    b != QUOTE && b != CR && b != LF
  }

  datatype ExtensionValue = Token(token: Bytes) | Quoted(text: Bytes)

  datatype Extension = Extension(name: Bytes, value: ExtensionValue)

  predicate LegalExtension(e: Extension) {
    && IsToken(e.name)
    && match e.value
       case Token(token) => IsToken(token)
       case Quoted(text) => forall i :: 0 <= i < |text| ==> IsQuotable(text[i])
  }

  function PrintValue(value: ExtensionValue): Bytes {
    match value
    case Token(token) => token
    case Quoted(text) => [QUOTE] + text + [QUOTE]
  }

  function PrintExtension(e: Extension): Bytes {
    [';' as int] + e.name + ['=' as int] + PrintValue(e.value)
  }

  function PrintExtensions(es: seq<Extension>): Bytes {
    if es == [] then [] else PrintExtension(es[0]) + PrintExtensions(es[1..])
  }

  // ---------- Chunks ----------

  datatype Chunk = Chunk(size: seq<HexDigit>, extensions: seq<Extension>, data: Bytes)
  {
    /** The size line declares the data; only the last chunk is empty. */
    predicate Legal() {
      && data != [] && size != [] && SizeOf(size) == |data|
      && forall e :: e in extensions ==> LegalExtension(e)
    }

    function SizeLine(): Bytes {
      Spelled(size) + PrintExtensions(extensions) + CRLF
    }

    function Encode(): (bytes: Bytes)
      ensures |bytes| > |data|
    {
      SizeLine() + data + CRLF
    }
  }

  function EncodeChunks(chunks: seq<Chunk>): Bytes {
    if chunks == [] then [] else chunks[0].Encode() + EncodeChunks(chunks[1..])
  }

  function Payload(chunks: seq<Chunk>): Bytes {
    if chunks == [] then [] else chunks[0].data + Payload(chunks[1..])
  }

  /** Every non-empty string has a legal chunk. */
  lemma EveryPieceHasALegalChunk(data: Bytes)
    requires data != []
    ensures Chunk(Digits(|data|), [], data).Legal()
  {
  }

  // ---------- Bodies ----------

  predicate LegalTrailerLine(line: Bytes) {
    line != [] && forall i :: 0 <= i < |line| ==> line[i] != CR && line[i] != LF
  }

  function PrintTrailer(lines: seq<Bytes>): Bytes {
    if lines == [] then [] else lines[0] + CRLF + PrintTrailer(lines[1..])
  }

  /** Chunks, then a chunk of size zero, then a trailer. */
  datatype Body = Body(chunks: seq<Chunk>, zeros: seq<HexDigit>, lastExtensions: seq<Extension>, trailer: seq<Bytes>)
  {
    predicate LegalEnd() {
      && zeros != [] && SizeOf(zeros) == 0
      && (forall e :: e in lastExtensions ==> LegalExtension(e))
      && (forall line :: line in trailer ==> LegalTrailerLine(line))
    }

    predicate Legal() {
      LegalEnd() && forall c :: c in chunks ==> c.Legal()
    }

    function EncodeEnd(): Bytes {
      Spelled(zeros) + PrintExtensions(lastExtensions) + CRLF + PrintTrailer(trailer) + CRLF
    }

    function Encode(): Bytes {
      EncodeChunks(chunks) + EncodeEnd()
    }
  }

  // ---------- A size line has one line ----------

  lemma {:induction false} SpelledWithoutCr(size: seq<HexDigit>)
    ensures CR !in Spelled(size)
  {
    if size != [] {
      SpelledWithoutCr(size[..|size| - 1]);
    }
  }

  lemma {:induction false} ExtensionsWithoutCr(es: seq<Extension>)
    requires forall e :: e in es ==> LegalExtension(e)
    ensures CR !in PrintExtensions(es)
  {
    if es != [] {
      ExtensionsWithoutCr(es[1..]);
      assert LegalExtension(es[0]);
      assert CR !in es[0].name && CR !in PrintValue(es[0].value);
    }
  }
}
