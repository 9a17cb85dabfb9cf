/**
 What `http_chunked_parse` promises: it undoes the chunked coding of section 3.6.1 of RFC 2616,
 and it never takes more bytes for a chunk than the chunk declared.
 */
module ChunkedRoundTrip {
  import opened Scanner
  import opened ChunkedTable
  import opened ChunkedCoding
  import opened ChunkedBody
  import opened ChunkedRuns

  // ---------- Reading a size ----------

  /** The digits of either alphabet are worth their position in it, and nothing else is a digit. */
  lemma DigitsAreWorthTheirPlace(d: Nibble, b: SByte)
    ensures IsHex(LOWER_HEX[d] as int) && DigitValue(LOWER_HEX[d] as int) == d
    ensures IsHex(UPPER_HEX[d] as int) && DigitValue(UPPER_HEX[d] as int) == d
    ensures IsHex(b) ==> 0 <= DigitValue(b) < 16
    ensures IsHex(b) ==> b in [LOWER_HEX[DigitValue(b)] as int, UPPER_HEX[DigitValue(b)] as int]
  {
    assert |LOWER_HEX| == |UPPER_HEX| == 16;
  }

  /** Before a size line. */
  predicate AtSizeLine(m: Scan) {
    Unambiguous(m) && (m.cs == 1 || m.cs == 67)
  }

  lemma {:induction false} ReadSize(m: Scan, size: seq<HexDigit>)
    requires AtSizeLine(m) && size != [] && SizeOf(size) <= INT_MAX
    ensures Run(m, Spelled(size)) == Scan(if SizeOf(size) == 0 then 2 else 10, 0, SizeOf(size), m.body)
  {
    hide Run, Step, IsHex, DigitValue;
    var n := |size| - 1;
    var high, d := size[..n], size[n];
    var b := Spell(d);
    DigitsAreWorthTheirPlace(d.value, b);
    RunConcat(m, Spelled(high), [b]);
    var k := Run(m, Spelled(high));
    if n > 0 {
      ReadSize(m, high);
      StepSizeMore(k, b);
    } else {
      RunNothing(m);
      StepSizeStart(m, b);
    }
    ZeroIsSpelledZero(d);
    RunByte(k, b);
  }

  lemma ZeroIsSpelledZero(d: HexDigit)
    ensures Spell(d) == '0' as int <==> d.value == 0
  {
  }

  // ---------- Reading extensions ----------

  /** Bytes that leave the scanner where it is. */
  lemma {:induction false} RunStays(m: Scan, s: seq<SByte>)
    requires Unambiguous(m) && m.cs != 0
    requires forall i :: 0 <= i < |s| ==> Step(m, s[i]) == m
    ensures Run(m, s) == m
    decreases |s|
  {
    hide Step;
    if s != [] {
      RunStays(m, s[1..]);
    }
  }

  /** Where a semicolon begins an extension of the size line whose extensions start at state `home`. */
  predicate BeforeExtension(m: Scan, home: nat) {
    && Unambiguous(m)
    && ((home == 33 && (m.cs == 10 || m.cs == 37 || m.cs == 38))
        || (home == 54 && (m.cs == 2 || m.cs == 58 || m.cs == 59)))
  }

  lemma ReadSemicolon(m: Scan, home: nat)
    requires BeforeExtension(m, home)
    ensures Unambiguous(m.(cs := home)) && Run(m, [';' as int]) == m.(cs := home)
  {
    hide Run, Step;
    if m.cs == 10 || m.cs == 2 {
      StepSizeMore(m, ';' as int);
    } else {
      StepQuiet(m, ';' as int);
    }
    RunByte(m, ';' as int);
  }

  /** A name, or a value that is a token. */
  lemma ReadToken(m: Scan, token: seq<SByte>)
    requires Unambiguous(m) && IsToken(token)
    requires m.cs == 33 || m.cs == 35 || m.cs == 54 || m.cs == 56
    ensures Run(m, token) == m.(cs := if m.cs == 33 || m.cs == 54 then m.cs + 1 else m.cs + 3)
  {
    hide Run, Step;
    StepQuiet(m, token[0]);
    RunOne(m, token[0], token[1..]);
    assert [token[0]] + token[1..] == token;
    var k := Step(m, token[0]);
    forall i | 0 <= i < |token[1..]|
      ensures Step(k, token[1..][i]) == k
    {
      StepQuiet(k, token[1..][i]);
    }
    RunStays(k, token[1..]);
  }

  lemma ReadQuoted(m: Scan, text: seq<SByte>)
    requires Unambiguous(m) && (m.cs == 35 || m.cs == 56)
    requires forall i :: 0 <= i < |text| ==> IsQuotable(text[i])
    ensures Run(m, [QUOTE] + text + [QUOTE]) == m.(cs := m.cs + 2)
  {
    hide Run, Step;
    StepQuiet(m, QUOTE);
    RunByte(m, QUOTE);
    var k := Step(m, QUOTE);
    forall i | 0 <= i < |text|
      ensures Step(k, text[i]) == k
    {
      StepQuiet(k, text[i]);
    }
    RunStays(k, text);
    StepQuiet(k, QUOTE);
    RunByte(k, QUOTE);
    RunConcat(m, [QUOTE], text);
    RunConcat(m, [QUOTE] + text, [QUOTE]);
  }

  lemma ReadExtension(m: Scan, home: nat, e: Extension)
    requires BeforeExtension(m, home) && LegalExtension(e)
    ensures var k := Run(m, PrintExtension(e));
            BeforeExtension(k, home) && k == m.(cs := if e.value.Token? then home + 5 else home + 4)
  {
    hide Run, Step;
    var s1 := [';' as int];
    var s2 := s1 + e.name;
    var s3 := s2 + ['=' as int];
    ReadSemicolon(m, home);
    RunConcat(m, s1, e.name);
    ReadToken(m.(cs := home), e.name);
    RunConcat(m, s2, ['=' as int]);
    var named := m.(cs := home + 1);
    StepQuiet(named, '=' as int);
    RunByte(named, '=' as int);
    RunConcat(m, s3, PrintValue(e.value));
    match e.value {
      case Token(token) => ReadToken(m.(cs := home + 2), token);
      case Quoted(text) => ReadQuoted(m.(cs := home + 2), text);
    }
  }

  lemma {:induction false} ReadExtensions(m: Scan, home: nat, es: seq<Extension>)
    requires BeforeExtension(m, home)
    requires forall e :: e in es ==> LegalExtension(e)
    ensures var k := Run(m, PrintExtensions(es));
            BeforeExtension(k, home) && k == m.(cs := k.cs)
    decreases |es|
  {
    hide Run, Step, LegalExtension;
    if es == [] {
      RunNothing(m);
    } else {
      ReadExtension(m, home, es[0]);
      RunConcat(m, PrintExtension(es[0]), PrintExtensions(es[1..]));
      ReadExtensions(Run(m, PrintExtension(es[0])), home, es[1..]);
    }
  }

  /** The RFC lets an extension go without a value; the scanner does not. */
  lemma ExtensionNeedsAValue(m: Scan, home: nat, name: seq<SByte>, b: SByte, rest: seq<SByte>)
    requires BeforeExtension(m, home) && IsToken(name) && (b == CR || b == ';' as int)
    ensures Run(m, [';' as int] + name + [b] + rest) == m.(cs := 0)
  {
    hide Run, Step;
    var s := [';' as int] + name;
    ReadSemicolon(m, home);
    RunConcat(m, [';' as int], name);
    ReadToken(m.(cs := home), name);
    RunConcat(m, s, [b]);
    StepQuiet(m.(cs := home + 1), b);
    RunByte(m.(cs := home + 1), b);
    RunConcat(m, s + [b], rest);
    RunStopped(m.(cs := 0), rest);
  }

  lemma RunStopped(m: Scan, s: seq<SByte>)
    requires Unambiguous(m) && m.cs == 0
    ensures Run(m, s) == m
  {
  }

  /** The end of a size line. */
  lemma ReadLineEnd(m: Scan, home: nat)
    requires BeforeExtension(m, home)
    ensures Run(m, CRLF) == m.(cs := if home == 33 then CHUNK_DATA else 4)
  {
    hide Run, Step;
    if m.cs == 10 || m.cs == 2 {
      StepSizeMore(m, CR);
    } else {
      StepQuiet(m, CR);
    }
    RunOne(m, CR, [LF]);
    StepLineFeed(Step(m, CR));
    RunByte(Step(m, CR), LF);
    assert CRLF == [CR] + [LF];
  }

  /** A whole size line; the size alone tells whether it is the last one. */
  lemma ReadSizeLine(m: Scan, size: seq<HexDigit>, es: seq<Extension>)
    requires AtSizeLine(m) && size != [] && SizeOf(size) <= INT_MAX
    requires forall e :: e in es ==> LegalExtension(e)
    ensures Run(m, Spelled(size) + PrintExtensions(es) + CRLF) ==
            Scan(if SizeOf(size) == 0 then 4 else CHUNK_DATA, 0, SizeOf(size), m.body)
  {
    hide Run, Step, LegalExtension;
    ReadSize(m, size);
    var home := if SizeOf(size) == 0 then 54 else 33;
    RunConcat(m, Spelled(size), PrintExtensions(es));
    ReadExtensions(Run(m, Spelled(size)), home, es);
    RunConcat(m, Spelled(size) + PrintExtensions(es), CRLF);
    ReadLineEnd(Run(m, Spelled(size) + PrintExtensions(es)), home);
  }

  // ---------- Reading one chunk ----------

  /** Data bytes are copied as long as the counter allows; a final CR leads to state 14. */
  lemma {:induction false} ReadData(m: Scan, data: seq<SByte>)
    requires Unambiguous(m) && m.cs == CHUNK_DATA && m.count + |data| <= m.size
    ensures Run(m, data) ==
            Scan(if data != [] && data[|data| - 1] == CR && m.count + |data| == m.size then 14 else CHUNK_DATA,
                 m.count + |data|, m.size, m.body + data)
  {
    hide Run, Step;
    if data == [] {
      RunNothing(m);
      assert m.body + data == m.body;
    } else {
      var n := |data| - 1;
      ReadData(m, data[..n]);
      var k := Run(m, data[..n]);
      RunConcat(m, data[..n], [data[n]]);
      assert data == data[..n] + [data[n]];
      StepData(k, data[n]);
      RunByte(k, data[n]);
      assert (m.body + data[..n]) + [data[n]] == m.body + data;
    }
  }

  /** Up to and including the data of a chunk. */
  lemma ReadSizeAndData(m: Scan, c: Chunk)
    requires AtSizeLine(m) && c.Legal() && |c.data| <= INT_MAX
    ensures var k := Run(m, c.SizeLine() + c.data);
            (k.cs == CHUNK_DATA || k.cs == 14) && k == Scan(k.cs, |c.data|, |c.data|, m.body + c.data)
  {
    hide Run, Step, LegalExtension;
    ReadSizeLine(m, c.size, c.extensions);
    RunConcat(m, c.SizeLine(), c.data);
    ReadData(Run(m, c.SizeLine()), c.data);
  }

  /** The CR after complete data ends the chunk, unless the counter wraps. */
  lemma ReadClosingCr(k: Scan)
    requires Unambiguous(k) && (k.cs == CHUNK_DATA || k.cs == 14) && 0 <= k.count == k.size
    ensures Run(k, [CR]) ==
            if k.size < INT_MAX then k.(cs := 13, count := k.size + 1)
            else k.(cs := CHUNK_DATA, count := -INT_MAX - 1)
  {
    if k.cs == 14 {
      StepAfterLastCr(k, CR);
    } else {
      StepData(k, CR);
    }
    RunByte(k, CR);
  }

  lemma ReadChunk(m: Scan, c: Chunk)
    requires AtSizeLine(m) && c.Legal() && |c.data| < INT_MAX
    ensures Run(m, c.Encode()) == Scan(1, |c.data| + 1, |c.data|, m.body + c.data)
  {
    hide Run, Step;
    var k := Run(m, c.SizeLine() + c.data);
    ReadSizeAndData(m, c);
    RunConcat(m, c.SizeLine() + c.data, CRLF);
    ReadClosingCr(k);
    var closing := Run(k, [CR]);
    RunConcat(k, [CR], [LF]);
    StepLineFeed(closing);
    RunByte(closing, LF);
    assert CRLF == [CR] + [LF];
  }

  /** Reading goes on after a chunk with the counters at rest and its data appended. */
  lemma ReadPastChunk(m: Scan, c: Chunk, rest: seq<SByte>)
    requires AtSizeLine(m) && c.Legal() && |c.data| < INT_MAX
    ensures Run(m, c.Encode() + rest) == Run(Scan(1, |c.data| + 1, |c.data|, m.body + c.data), rest)
  {
    hide Run, Step;
    ReadChunk(m, c);
    RunConcat(m, c.Encode(), rest);
  }

  // ---------- Reading the end of a body ----------

  /** A trailer line, from its first byte: the one after the last size line counts once more. */
  lemma ReadTrailerLine(m: Scan, line: seq<SByte>)
    requires Unambiguous(m) && (m.cs == 4 || m.cs == 7) && LegalTrailerLine(line)
    ensures Run(m, line + CRLF) == m.(cs := 7, count := if m.cs == 4 then 1 else m.count)
  {
    hide Run, Step;
    if m.cs == 4 {
      StepAfterLastChunk(m, line[0]);
    } else {
      StepQuiet(m, line[0]);
    }
    var k := Step(m, line[0]);
    RunOne(m, line[0], line[1..]);
    assert [line[0]] + line[1..] == line;
    forall i | 0 <= i < |line[1..]|
      ensures Step(k, line[1..][i]) == k
    {
      StepQuiet(k, line[1..][i]);
    }
    RunStays(k, line[1..]);
    StepQuiet(k, CR);
    RunOne(k, CR, [LF]);
    StepQuiet(Step(k, CR), LF);
    RunByte(Step(k, CR), LF);
    RunConcat(m, line, CRLF);
    assert CRLF == [CR] + [LF];
  }

  lemma {:induction false} ReadTrailer(m: Scan, lines: seq<seq<SByte>>)
    requires Unambiguous(m) && (m.cs == 4 || m.cs == 7)
    requires forall line :: line in lines ==> LegalTrailerLine(line)
    ensures Run(m, PrintTrailer(lines)) ==
            if lines == [] then m else m.(cs := 7, count := if m.cs == 4 then 1 else m.count)
    decreases |lines|
  {
    hide Run, Step, LegalTrailerLine;
    if lines == [] {
      RunNothing(m);
    } else {
      ReadTrailerLine(m, lines[0]);
      RunConcat(m, lines[0] + CRLF, PrintTrailer(lines[1..]));
      ReadTrailer(Run(m, lines[0] + CRLF), lines[1..]);
    }
  }

  /** The empty line that ends a body. */
  lemma ReadEmptyLine(m: Scan)
    requires Unambiguous(m) && (m.cs == 4 || m.cs == 7)
    ensures Run(m, CRLF) == if m.cs == 4 then m.(cs := 67, count := 1) else m.(cs := 66)
  {
    hide Run, Step;
    if m.cs == 4 {
      StepAfterLastChunk(m, CR);
    } else {
      StepQuiet(m, CR);
    }
    var k := Step(m, CR);
    RunOne(m, CR, [LF]);
    if m.cs == 4 {
      StepLineFeed(k);
    } else {
      StepQuiet(k, LF);
    }
    RunByte(k, LF);
    assert CRLF == [CR] + [LF];
  }

  lemma ReadEnd(m: Scan, b: Body)
    requires AtSizeLine(m) && b.LegalEnd()
    ensures Run(m, b.EncodeEnd()) == Scan(if b.trailer == [] then 67 else 66, 1, 0, m.body)
  {
    hide Run, Step, LegalExtension, LegalTrailerLine;
    var line := Spelled(b.zeros) + PrintExtensions(b.lastExtensions) + CRLF;
    ReadSizeLine(m, b.zeros, b.lastExtensions);
    RunConcat(m, line, PrintTrailer(b.trailer));
    ReadTrailer(Run(m, line), b.trailer);
    RunConcat(m, line + PrintTrailer(b.trailer), CRLF);
    ReadEmptyLine(Run(m, line + PrintTrailer(b.trailer)));
  }

  // ---------- The round trip ----------

  lemma {:induction false} ReadChunks(m: Scan, chunks: seq<Chunk>)
    requires AtSizeLine(m)
    requires forall c :: c in chunks ==> c.Legal() && |c.data| < INT_MAX
    ensures var k := Run(m, EncodeChunks(chunks));
            AtSizeLine(k) && k.body == m.body + Payload(chunks)
    decreases |chunks|
  {
    hide Run, Step, Chunk.Legal, Chunk.Encode;
    if chunks == [] {
      RunNothing(m);
      assert m.body + Payload(chunks) == m.body;
    } else {
      var c := chunks[0];
      var k := Scan(1, |c.data| + 1, |c.data|, m.body + c.data);
      assert c.Legal();
      ReadPastChunk(m, c, EncodeChunks(chunks[1..]));
      ReadChunks(k, chunks[1..]);
      assert (m.body + c.data) + Payload(chunks[1..]) == m.body + Payload(chunks);
    }
  }

  /** Decoding undoes every legal encoding whose chunks are shorter than the largest `int`. */
  lemma RoundTrip(b: Body)
    requires b.Legal() && forall c :: c in b.chunks ==> |c.data| < INT_MAX
    ensures Run(INIT, b.Encode()).cs >= FIRST_FINAL
    ensures Run(INIT, b.Encode()).body == Payload(b.chunks)
  {
    hide Run, Step;
    ReadChunks(INIT, b.chunks);
    assert [] + Payload(b.chunks) == Payload(b.chunks);
    RunConcat(INIT, EncodeChunks(b.chunks), b.EncodeEnd());
    ReadEnd(Run(INIT, EncodeChunks(b.chunks)), b);
  }

  /**
   A chunk of exactly `INT_MAX` bytes is not closed: its counter wraps on the CR that follows, and
   the scanner goes on taking everything after it for chunk data.
   */
  lemma OverlongChunkSwallowsTheRest(m: Scan, c: Chunk, rest: seq<SByte>)
    requires AtSizeLine(m) && c.Legal() && |c.data| == INT_MAX
    requires 1 + |rest| < 0x1_0000_0000
    ensures Run(m, c.Encode() + rest).cs < FIRST_FINAL
    ensures Run(m, c.Encode() + rest).body == m.body + c.data + [LF] + rest
  {
    hide Run, Step;
    var sized := c.SizeLine() + c.data;
    var k := Run(m, sized);
    ReadSizeAndData(m, c);
    ReadClosingCr(k);
    RunConcat(m, sized, [CR]);
    RunConcat(m, sized + [CR], [LF] + rest);
    assert sized + [CR] + ([LF] + rest) == c.Encode() + rest;
    ReadData(Run(k, [CR]), [LF] + rest);
    assert m.body + c.data + ([LF] + rest) == m.body + c.data + [LF] + rest;
  }

  lemma {:induction false} OverlongBodyIsRejected(m: Scan, chunks: seq<Chunk>, end: seq<SByte>)
    requires AtSizeLine(m)
    requires forall c :: c in chunks ==> c.Legal() && |c.data| <= INT_MAX
    requires exists c :: c in chunks && |c.data| == INT_MAX
    requires |EncodeChunks(chunks)| + |end| < 0x1_0000_0000
    ensures Run(m, EncodeChunks(chunks) + end).cs < FIRST_FINAL
    decreases |chunks|
  {
    hide Run, Step, Chunk.Legal, Chunk.Encode;
    var c := chunks[0];
    var rest := EncodeChunks(chunks[1..]) + end;
    assert c.Legal();
    assert EncodeChunks(chunks) + end == c.Encode() + rest;
    if |c.data| == INT_MAX {
      OverlongChunkSwallowsTheRest(m, c, rest);
    } else {
      ReadPastChunk(m, c, rest);
      OverlongBodyIsRejected(Scan(1, |c.data| + 1, |c.data|, m.body + c.data), chunks[1..], end);
    }
  }

  /**
   Among bodies of less than four gigabytes whose chunk sizes fit an `int`, exactly those with
   no chunk of `INT_MAX` bytes survive the round trip.
   */
  lemma RoundTripExactly(b: Body)
    requires b.Legal() && forall c :: c in b.chunks ==> |c.data| <= INT_MAX
    requires |b.Encode()| < 0x1_0000_0000
    ensures (Run(INIT, b.Encode()).cs >= FIRST_FINAL && Run(INIT, b.Encode()).body == Payload(b.chunks))
            <==> forall c :: c in b.chunks ==> |c.data| != INT_MAX
  {
    hide Run, Step;
    if forall c :: c in b.chunks ==> |c.data| != INT_MAX {
      RoundTrip(b);
    } else {
      OverlongBodyIsRejected(INIT, b.chunks, b.EncodeEnd());
    }
  }

  // ---------- The size budget ----------

  /** The scanner with a note of how much had been decoded when the latest size line began. */
  datatype Metered = Metered(scan: Scan, mark: nat)
  {
    /** Bytes taken since the latest size line began. */
    function Taken(): int {
      |scan.body| - mark
    }

    /** No more bytes were taken than the latest size line declares; inside data the counter tells how many. */
    predicate WithinBudget() {
      && Unambiguous(scan)
      && 0 <= Taken() <= (if scan.size < 0 then 0 else scan.size)
      && (scan.cs == CHUNK_DATA || scan.cs == 14 ==> scan.count == Taken())
      && (InSizeLine() ==> Taken() == 0 && scan.count == 0)
    }

    predicate InSizeLine() {
      || 2 <= scan.cs <= 4
      || 10 <= scan.cs <= 11
      || 33 <= scan.cs <= 38
      || 54 <= scan.cs <= 59
    }

    ghost function Next(b: SByte): Metered
      requires Unambiguous(scan) && scan.cs != 0
    {
      var after := Step(scan, b);
      if (scan.cs == 1 || scan.cs == 67) && after.cs != 0 then Metered(after, |scan.body|) else Metered(after, mark)
    }
  }

  /** The budget is kept by a step exactly when the step does not wrap the counter on a closing CR. */
  lemma StepKeepsBudget(t: Metered, b: SByte)
    requires t.WithinBudget() && t.scan.cs != 0
    ensures t.Next(b).WithinBudget() <==>
            !((t.scan.cs == CHUNK_DATA || t.scan.cs == 14) && t.scan.count == INT_MAX && b == CR)
    ensures t.Next(b).Taken() <= t.Taken() + 1
  {
    var m := t.scan;
    StepKeepsUnambiguous(m, b);
    if Quiet(m.cs) {
      StepQuiet(m, b);
    } else if m.cs == 1 || m.cs == 67 {
      StepSizeStart(m, b);
    } else if m.cs == 2 || m.cs == 10 {
      StepSizeMore(m, b);
    } else if m.cs == 12 {
      StepData(m, b);
    } else if m.cs == 14 {
      StepAfterLastCr(m, b);
    } else {
      StepAfterLastChunk(m, b);
    }
  }

  ghost function Meter(t: Metered, s: seq<SByte>): Metered
    requires Unambiguous(t.scan)
    decreases |s|
  {
    if s == [] || t.scan.cs == 0 then t
    else
      StepKeepsUnambiguous(t.scan, s[0]);
      Meter(t.Next(s[0]), s[1..])
  }

  lemma {:induction false} MeterFollowsRun(t: Metered, s: seq<SByte>)
    requires Unambiguous(t.scan)
    ensures Meter(t, s).scan == Run(t.scan, s)
    decreases |s|
  {
    if s != [] && t.scan.cs != 0 {
      StepKeepsUnambiguous(t.scan, s[0]);
      MeterFollowsRun(t.Next(s[0]), s[1..]);
    }
  }

  /** No more bytes were taken since the latest size line began than it declares. */
  predicate WithinSize(t: Metered) {
    t.Taken() <= if t.scan.size < 0 then 0 else t.scan.size
  }

  /** Byte k of the input closes a chunk while the counter stands at the largest `int`: it wraps. */
  ghost predicate WrapsAt(t: Metered, s: seq<SByte>, k: nat)
    requires Unambiguous(t.scan)
  {
    && k < |s| && s[k] == CR
    && var m := Meter(t, s[..k]).scan;
       (m.cs == CHUNK_DATA || m.cs == 14) && m.count == INT_MAX
  }

  /** Past the first byte, a prefix of the input is a prefix of its rest. */
  lemma MeterPrefix(t: Metered, s: seq<SByte>, k: nat)
    requires Unambiguous(t.scan) && t.scan.cs != 0 && 0 < k <= |s|
    ensures Unambiguous(t.Next(s[0]).scan)
    ensures Meter(t, s[..k]) == Meter(t.Next(s[0]), s[1..][..k - 1])
  {
    hide Step;
    StepKeepsUnambiguous(t.scan, s[0]);
    assert s[..k][1..] == s[1..][..k - 1];
  }

  /** Once the scan has failed it stays as it is. */
  lemma MeterStopped(t: Metered, s: seq<SByte>)
    requires t.scan.cs == 0 && Unambiguous(t.scan)
    ensures Meter(t, s) == t
  {
  }

  lemma MeterNothing(t: Metered, s: seq<SByte>)
    requires Unambiguous(t.scan)
    ensures Meter(t, s[..0]) == t
  {
  }

  lemma WrapsLater(t: Metered, s: seq<SByte>, k: nat)
    requires Unambiguous(t.scan) && t.scan.cs != 0 && 0 < k < |s|
    ensures Unambiguous(t.Next(s[0]).scan)
    ensures WrapsAt(t, s, k) <==> WrapsAt(t.Next(s[0]), s[1..], k - 1)
  {
    hide Step, Meter;
    MeterPrefix(t, s, k);
    assert s[1..][k - 1] == s[k];
  }

  /** As long as the counter does not wrap, all of the budget is kept, at any length. */
  lemma {:induction false} UnwrappedStaysWithinBudget(t: Metered, s: seq<SByte>, j: nat)
    requires t.WithinBudget() && j <= |s|
    requires forall k :: 0 <= k < j ==> !WrapsAt(t, s, k)
    ensures Meter(t, s[..j]).WithinBudget()
    decreases |s|
  {
    hide Step, Meter;
    MeterNothing(t, s);
    if t.scan.cs == 0 {
      MeterStopped(t, s[..j]);
    } else if j > 0 {
      assert !WrapsAt(t, s, 0);
      StepKeepsBudget(t, s[0]);
      MeterPrefix(t, s, j);
      forall k | 0 <= k < j - 1
        ensures !WrapsAt(t.Next(s[0]), s[1..], k)
      {
        WrapsLater(t, s, k + 1);
      }
      UnwrappedStaysWithinBudget(t.Next(s[0]), s[1..], j - 1);
    }
  }

  /** A wrap by itself takes nothing, but the byte after it is one too many. */
  lemma WrapOverruns(t: Metered, b: SByte)
    requires t.WithinBudget() && (t.scan.cs == CHUNK_DATA || t.scan.cs == 14) && t.scan.count == INT_MAX
    ensures var w := t.Next(CR);
            && Unambiguous(w.scan) && w.scan.cs == CHUNK_DATA && WithinSize(w)
            && !WithinSize(w.Next(b)) && w.Next(b).Taken() == w.Next(b).scan.size + 1
  {
    StepKeepsUnambiguous(t.scan, CR);
    if t.scan.cs == CHUNK_DATA {
      StepData(t.scan, CR);
    } else {
      StepAfterLastCr(t.scan, CR);
    }
    StepData(t.Next(CR).scan, b);
  }

  lemma OverrunAfterWrap(t: Metered, s: seq<SByte>, k: nat)
    requires Unambiguous(t.scan) && k + 1 < |s| && WrapsAt(t, s, k)
    requires Meter(t, s[..k]).WithinBudget()
    ensures WithinSize(Meter(t, s[..k + 1])) && !WithinSize(Meter(t, s[..k + 2]))
  {
    hide Step, Meter, Run;
    var m := Meter(t, s[..k]);
    WrapOverruns(m, s[k + 1]);
    MeterConcat(t, s[..k], [s[k]]);
    MeterConcat(t, s[..k], [s[k], s[k + 1]]);
    assert s[..k] + [s[k]] == s[..k + 1] && s[..k] + [s[k], s[k + 1]] == s[..k + 2];
    MeterTwo(m, s[k], s[k + 1]);
  }

  lemma {:induction false} MeterConcat(t: Metered, s: seq<SByte>, r: seq<SByte>)
    requires Unambiguous(t.scan)
    ensures Unambiguous(Meter(t, s).scan)
    ensures Meter(t, s + r) == Meter(Meter(t, s), r)
    decreases |s|
  {
    hide Step;
    if s == [] {
      assert s + r == r;
    } else if t.scan.cs != 0 {
      StepKeepsUnambiguous(t.scan, s[0]);
      assert (s + r)[1..] == s[1..] + r;
      MeterConcat(t.Next(s[0]), s[1..], r);
    }
  }

  lemma MeterByte(t: Metered, b: SByte)
    requires Unambiguous(t.scan) && t.scan.cs != 0
    ensures Unambiguous(t.Next(b).scan) && Meter(t, [b]) == t.Next(b)
  {
    hide Step;
    StepKeepsUnambiguous(t.scan, b);
    assert [b][1..] == [];
  }

  lemma MeterTwo(t: Metered, a: SByte, b: SByte)
    requires Unambiguous(t.scan) && t.scan.cs != 0
    ensures Unambiguous(t.Next(a).scan)
    ensures Meter(t, [a]) == t.Next(a)
    ensures t.Next(a).scan.cs != 0 ==> Meter(t, [a, b]) == t.Next(a).Next(b)
  {
    hide Step, Meter;
    MeterByte(t, a);
    if t.Next(a).scan.cs != 0 {
      MeterByte(t.Next(a), b);
      MeterConcat(t, [a], [b]);
      assert [a] + [b] == [a, b];
    }
  }

  /**
   From any point on, over input of any length: no chunk yields more bytes than its size line
   declares, at any prefix of the input, exactly when the counter does not wrap on a closing CR
   with more to come.
   */
  lemma OverrunExactlyAfterWrap(t: Metered, s: seq<SByte>)
    requires t.WithinBudget()
    ensures (forall j :: 0 <= j <= |s| ==> WithinSize(Meter(t, s[..j])))
            <==> !exists k :: 0 <= k && k + 1 < |s| && WrapsAt(t, s, k)
  {
    hide Step, Meter, Run, WrapsAt;
    if k :| 0 <= k && k + 1 < |s| && WrapsAt(t, s, k) {
      var first := FirstWrap(t, s, k);
      UnwrappedStaysWithinBudget(t, s, first);
      OverrunAfterWrap(t, s, first);
    } else {
      forall j | 0 <= j <= |s|
        ensures WithinSize(Meter(t, s[..j]))
      {
        UnwrappedStaysWithinSize(t, s, j);
      }
    }
  }

  const START := Metered(INIT, 0)

  /** On every input, accepted or not. */
  lemma NoChunkOverrunsItsSize(s: seq<SByte>)
    ensures Meter(START, s).scan == Run(INIT, s)
    ensures (forall j :: 0 <= j <= |s| ==> WithinSize(Meter(START, s[..j])))
            <==> !exists k :: 0 <= k && k + 1 < |s| && WrapsAt(START, s, k)
  {
    hide Step, Meter, Run, WrapsAt;
    MeterFollowsRun(START, s);
    OverrunExactlyAfterWrap(START, s);
  }

  lemma {:induction false} FirstWrap(t: Metered, s: seq<SByte>, k: nat) returns (first: nat)
    requires Unambiguous(t.scan) && WrapsAt(t, s, k)
    ensures first <= k && WrapsAt(t, s, first) && forall i :: 0 <= i < first ==> !WrapsAt(t, s, i)
  {
    hide WrapsAt;
    if i :| 0 <= i < k && WrapsAt(t, s, i) {
      first := FirstWrap(t, s, i);
    } else {
      first := k;
    }
  }

  /** A wrap on the very last byte does no harm. */
  lemma UnwrappedStaysWithinSize(t: Metered, s: seq<SByte>, j: nat)
    requires t.WithinBudget() && j <= |s|
    requires forall k :: 0 <= k && k + 1 < |s| ==> !WrapsAt(t, s, k)
    ensures WithinSize(Meter(t, s[..j]))
  {
    hide Step, Meter;
    if j == |s| && j > 0 && WrapsAt(t, s, j - 1) {
      UnwrappedStaysWithinBudget(t, s, j - 1);
      var m := Meter(t, s[..j - 1]);
      WrapOverruns(m, CR);
      MeterConcat(t, s[..j - 1], [s[j - 1]]);
      assert s[..j - 1] + [s[j - 1]] == s[..j];
      MeterTwo(m, s[j - 1], CR);
    } else {
      UnwrappedStaysWithinBudget(t, s, j);
    }
  }

  /** So it is enough that no size line in force in chunk data declares the largest `int`. */
  lemma SmallerSizesAreNeverOverrun(t: Metered, s: seq<SByte>)
    requires t.WithinBudget()
    requires forall k :: 0 <= k < |s| ==>
               var m := Meter(t, s[..k]).scan;
               m.cs == CHUNK_DATA || m.cs == 14 ==> m.size != INT_MAX
    ensures forall j :: 0 <= j <= |s| ==> WithinSize(Meter(t, s[..j]))
  {
    hide Step, Meter;
    if k :| 0 <= k < |s| && WrapsAt(t, s, k) {
      var first := FirstWrap(t, s, k);
      UnwrappedStaysWithinBudget(t, s, first);
      assert Meter(t, s[..first]).scan.size == INT_MAX;
      assert false;
    }
    forall j | 0 <= j <= |s|
      ensures WithinSize(Meter(t, s[..j]))
    {
      UnwrappedStaysWithinBudget(t, s, j);
    }
  }

  /** Nor can an input of at most `INT_MAX` bytes overrun any size. */
  lemma ShortInputsNeverOverrun(s: seq<SByte>, j: nat)
    requires j <= |s| <= INT_MAX
    ensures Meter(START, s[..j]).WithinBudget()
  {
    hide Step, Meter;
    var t := START;
    forall k | 0 <= k < j
      ensures !WrapsAt(t, s, k)
    {
      if WrapsAt(t, s, k) {
        var first := FirstWrap(t, s, k);
        UnwrappedStaysWithinBudget(t, s, first);
        MeterTakesNoMore(t, s[..first]);
        assert false;
      }
    }
    UnwrappedStaysWithinBudget(t, s, j);
  }

  /** Each byte of the input is taken at most once. */
  lemma {:induction false} MeterTakesNoMore(t: Metered, s: seq<SByte>)
    requires Unambiguous(t.scan) && t.Taken() >= 0
    ensures 0 <= Meter(t, s).Taken() <= t.Taken() + |s|
    decreases |s|
  {
    if s != [] && t.scan.cs != 0 {
      StepTakesNoMore(t, s[0]);
      MeterTakesNoMore(t.Next(s[0]), s[1..]);
    }
  }

  lemma StepTakesNoMore(t: Metered, b: SByte)
    requires Unambiguous(t.scan) && t.scan.cs != 0 && t.Taken() >= 0
    ensures Unambiguous(t.Next(b).scan) && 0 <= t.Next(b).Taken() <= t.Taken() + 1
  {
    StepKeepsUnambiguous(t.scan, b);
    var m := t.scan;
    if Quiet(m.cs) {
      StepQuiet(m, b);
    } else if m.cs == 1 || m.cs == 67 {
      StepSizeStart(m, b);
    } else if m.cs == 2 || m.cs == 10 {
      StepSizeMore(m, b);
    } else if m.cs == 12 {
      StepData(m, b);
    } else if m.cs == 14 {
      StepAfterLastCr(m, b);
    } else {
      StepAfterLastChunk(m, b);
    }
  }

  /** Between the first digit of a size line and the CR that ends it. */
  predicate WithinLine(cs: nat) {
    cs == 0 || cs == 2 || cs == 10 || 33 <= cs <= 38 || 54 <= cs <= 59
  }

  lemma StepWithinLine(m: Scan, b: SByte)
    requires Unambiguous(m) && m.cs != 0 && WithinLine(m.cs) && b != CR
    ensures WithinLine(Step(m, b).cs)
  {
    hide Step;
    if m.cs == 2 || m.cs == 10 {
      StepSizeMore(m, b);
    } else {
      StepQuiet(m, b);
    }
  }

  lemma {:induction false} MarkWithinLine(t: Metered, s: seq<SByte>)
    requires Unambiguous(t.scan) && WithinLine(t.scan.cs) && CR !in s
    ensures Meter(t, s).mark == t.mark
    decreases |s|
  {
    hide Step;
    if s != [] && t.scan.cs != 0 {
      StepKeepsUnambiguous(t.scan, s[0]);
      StepWithinLine(t.scan, s[0]);
      MarkWithinLine(t.Next(s[0]), s[1..]);
    }
  }

  lemma SpelledNotEmpty(size: seq<HexDigit>)
    requires size != []
    ensures Spelled(size) != [] && IsHex(Spelled(size)[0])
  {
    if |size| > 1 {
      SpelledNotEmpty(size[..|size| - 1]);
    } else {
      DigitsAreWorthTheirPlace(size[0].value, Spell(size[0]));
    }
  }

  /** A size line starts the note afresh. */
  lemma MarkOfSizeLine(t: Metered, size: seq<HexDigit>, es: seq<Extension>)
    requires AtSizeLine(t.scan) && size != []
    requires forall e :: e in es ==> LegalExtension(e)
    ensures Meter(t, Spelled(size) + PrintExtensions(es)).mark == |t.scan.body|
  {
    hide Step, Meter, LegalExtension, IsHex;
    var line := Spelled(size) + PrintExtensions(es);
    SpelledNotEmpty(size);
    SpelledWithoutCr(size);
    ExtensionsWithoutCr(es);
    StepSizeStart(t.scan, line[0]);
    MeterByte(t, line[0]);
    MarkWithinLine(t.Next(line[0]), line[1..]);
    MeterConcat(t, [line[0]], line[1..]);
    assert [line[0]] + line[1..] == line;
  }

  /** Chunk data leaves the note alone. */
  lemma {:induction false} MarkOfData(t: Metered, data: seq<SByte>)
    requires Unambiguous(t.scan) && t.scan.cs == CHUNK_DATA && t.scan.count + |data| <= t.scan.size
    ensures Meter(t, data).mark == t.mark
  {
    hide Step, Meter, Run;
    if data == [] {
      MeterNothing(t, data);
      assert data[..0] == data;
    } else {
      var n := |data| - 1;
      var k := Meter(t, data[..n]);
      MarkOfData(t, data[..n]);
      MeterFollowsRun(t, data[..n]);
      ReadData(t.scan, data[..n]);
      MeterConcat(t, data[..n], [data[n]]);
      assert data == data[..n] + [data[n]];
      MeterByte(k, data[n]);
    }
  }

  /** After the data of a chunk all of its declared size was taken. */
  lemma MeterChunk(t: Metered, c: Chunk)
    requires AtSizeLine(t.scan) && c.Legal() && |c.data| <= INT_MAX
    ensures var k := Meter(t, c.SizeLine() + c.data);
            && k.WithinBudget() && k.Taken() == k.scan.count == k.scan.size == |c.data|
            && (k.scan.cs == CHUNK_DATA || k.scan.cs == 14)
  {
    hide Step, Meter, Run, LegalExtension;
    var line := Spelled(c.size) + PrintExtensions(c.extensions);
    ReadSizeAndData(t.scan, c);
    MeterFollowsRun(t, c.SizeLine() + c.data);
    MarkOfSizeLine(t, c.size, c.extensions);
    MarkOfLineEnd(t, c.size, c.extensions);
    ReadSizeLine(t.scan, c.size, c.extensions);
    MeterFollowsRun(t, c.SizeLine());
    MarkOfData(Meter(t, c.SizeLine()), c.data);
    MeterConcat(t, c.SizeLine(), c.data);
  }

  lemma MarkOfLineEnd(t: Metered, size: seq<HexDigit>, es: seq<Extension>)
    requires AtSizeLine(t.scan) && size != [] && SizeOf(size) <= INT_MAX
    requires forall e :: e in es ==> LegalExtension(e)
    ensures Meter(t, Spelled(size) + PrintExtensions(es) + CRLF).mark == |t.scan.body|
  {
    hide Step, Meter, Run, LegalExtension;
    var line := Spelled(size) + PrintExtensions(es);
    MarkOfSizeLine(t, size, es);
    ReadSize(t.scan, size);
    RunConcat(t.scan, Spelled(size), PrintExtensions(es));
    ReadExtensions(Run(t.scan, Spelled(size)), if SizeOf(size) == 0 then 54 else 33, es);
    MeterFollowsRun(t, line);
    var k := Meter(t, line);
    if k.scan.cs == 2 || k.scan.cs == 10 {
      StepSizeMore(k.scan, CR);
    } else {
      StepQuiet(k.scan, CR);
    }
    MeterTwo(k, CR, LF);
    MeterConcat(t, line, CRLF);
  }

  /** The overrun happens: after a chunk of `INT_MAX` bytes, the LF that closes it is taken for data. */
  lemma LargestChunkOverruns(t: Metered, c: Chunk, rest: seq<SByte>)
    requires AtSizeLine(t.scan) && c.Legal() && |c.data| == INT_MAX
    ensures var s, k := c.Encode() + rest, |c.Encode()| - 2;
            && WrapsAt(t, s, k) && !WithinSize(Meter(t, s[..k + 2]))
  {
    hide Step, Meter, Run, Chunk.Legal;
    var head := c.SizeLine() + c.data;
    var s := c.Encode() + rest;
    var k := |head|;
    assert s == head + (CRLF + rest);
    assert s[..k] == head && s[k] == CR;
    MeterChunk(t, c);
    OverrunAfterWrap(t, s, k);
  }
}
