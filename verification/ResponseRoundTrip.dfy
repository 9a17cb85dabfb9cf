/**
 What `http_parse` promises: it reads back the responses of sections 4.2 and 6 of RFC 2616,
 except those with a one-byte header value.
 */
module ResponseRoundTrip {
  import opened Scanner
  import opened ResponseTable
  import opened HttpResponse
  import ChunkedBody
  import ChunkedCoding
  import ChunkedRuns
  import ChunkedRoundTrip

  // ---------- The printer ----------

  datatype Field = Field(name: Bytes, value: Bytes)

  datatype Response = Response(minor: SByte, code: Bytes, reason: Bytes, fields: seq<Field>, body: Bytes)

  const CRLF: Bytes := [CR, LF]

  function PrintField(f: Field): Bytes {
    f.name + [COLON] + f.value + CRLF
  }

  function PrintFields(fields: seq<Field>): Bytes {
    if fields == [] then [] else PrintField(fields[0]) + PrintFields(fields[1..])
  }

  function StatusLine(r: Response): Bytes {
    MAGIC + [r.minor, SPACE] + r.code + [SPACE] + r.reason + CRLF
  }

  function Head(r: Response): Bytes {
    StatusLine(r) + PrintFields(r.fields) + CRLF
  }

  function Print(r: Response): Bytes {
    Head(r) + r.body
  }

  predicate LegalField(f: Field) {
    && f.name != []
    && (forall i :: 0 <= i < |f.name| ==> IsNameByte(f.name[i]))
    && (forall i :: 0 <= i < |f.value| ==> f.value[i] != CR && f.value[i] != LF)
  }

  predicate LegalStatusLine(r: Response) {
    && IsDigit(r.minor)
    && r.code != []
    && (forall i :: 0 <= i < |r.code| ==> IsDigit(r.code[i]))
    && LeadingDigits(r.code, 0) <= ChunkedBody.INT_MAX
    && r.reason != []
    && (forall i :: 0 <= i < |r.reason| ==> IsReasonByte(r.reason[i]))
  }

  predicate Legal(r: Response) {
    LegalStatusLine(r) && forall f :: f in r.fields ==> LegalField(f)
  }

  // ---------- What should be read back ----------

  function LowerAll(s: Bytes): Bytes {
    if s == [] then [] else [Lower(s[0])] + LowerAll(s[1..])
  }

  function Strip(value: Bytes): Bytes {
    if value != [] && value[0] == SPACE then Strip(value[1..]) else value
  }

  /** The fields in order over `headers`: a repeated name keeps its last value. */
  function HeaderMap(headers: map<Bytes, Bytes>, fields: seq<Field>): map<Bytes, Bytes>
    decreases |fields|
  {
    if fields == [] then headers
    else HeaderMap(headers[LowerAll(fields[0].name) := Strip(fields[0].value)], fields[1..])
  }

  /** The scanner has no way out of a value after its first byte. */
  predicate Readable(fields: seq<Field>) {
    forall f :: f in fields ==> |Strip(f.value)| != 1
  }

  // ---------- Reading, piece by piece ----------

  lemma {:induction false} RunConcat(m: Parse, s: Bytes, t: Bytes, p: nat)
    requires m.cs <= IN_BODY
    ensures Run(m, s + t, p) == Run(Run(m, s, p), t, p + |s|)
    decreases |s|
  {
    if s == [] {
      assert s + t == t;
    } else if m.cs != 0 {
      assert (s + t)[1..] == s[1..] + t;
      RunConcat(Step(m, s[0], p), s[1..], t, p + 1);
    }
  }

  lemma RunByte(m: Parse, b: SByte, p: nat)
    requires 1 <= m.cs <= IN_BODY
    ensures Run(m, [b], p) == Step(m, b, p)
  {
    assert [b][1..] == [];
  }

  lemma RunTwo(m: Parse, a: SByte, b: SByte, p: nat)
    requires 1 <= m.cs <= IN_BODY && 1 <= Step(m, a, p).cs <= IN_BODY
    ensures Run(m, [a, b], p) == Step(Step(m, a, p), b, p + 1)
  {
    assert [a, b][1..] == [b];
    RunByte(Step(m, a, p), b, p + 1);
  }

  lemma {:induction false} ReadMagic(m: Parse, p: nat)
    requires 1 <= m.cs <= 7
    ensures Run(m, MAGIC[m.cs - 1..], p) == m.(cs := 8)
    decreases 8 - m.cs
  {
    var s := MAGIC[m.cs - 1..];
    assert s[0] == MAGIC[m.cs - 1] && s[1..] == MAGIC[m.cs..];
    if m.cs < 7 {
      ReadMagic(m.(cs := m.cs + 1), p + 1);
    }
  }

  lemma {:induction false} ReadCode(m: Parse, code: Bytes, p: nat)
    requires m.cs == 10 || m.cs == 11
    requires m.status >= 0
    requires forall i :: 0 <= i < |code| ==> IsDigit(code[i])
    requires LeadingDigits(code, m.status) <= ChunkedBody.INT_MAX
    ensures m.status <= LeadingDigits(code, m.status)
    ensures Run(m, code, p) == m.(cs := if code == [] then m.cs else 11, status := LeadingDigits(code, m.status))
    decreases |code|
  {
    if code != [] {
      var d: nat := code[0] - '0' as int;
      LeadingDigitsGrow(code[1..], m.status * 10 + d);
      ReadCode(m.(cs := 11, status := m.status * 10 + d), code[1..], p + 1);
    }
  }

  lemma {:induction false} LeadingDigitsGrow(s: Bytes, acc: nat)
    ensures acc <= LeadingDigits(s, acc)
  {
    if s != [] && IsDigit(s[0]) {
      LeadingDigitsGrow(s[1..], acc * 10 + (s[0] - '0' as int));
    }
  }

  lemma {:induction false} ReadReason(m: Parse, reason: Bytes, p: nat)
    requires m.cs == 12 || m.cs == 13
    requires forall i :: 0 <= i < |reason| ==> IsReasonByte(reason[i])
    ensures Run(m, reason, p) == m.(cs := if reason == [] then m.cs else 13)
    decreases |reason|
  {
    if reason != [] {
      ReadReason(m.(cs := 13), reason[1..], p + 1);
    }
  }

  lemma ReadStatusLine(r: Response)
    requires LegalStatusLine(r)
    ensures Run(INIT, StatusLine(r), 0) == INIT.(cs := 15, status := LeadingDigits(r.code, 0))
  {
    hide Run;
    var s1 := MAGIC;
    var s2 := s1 + [r.minor, SPACE];
    var s3 := s2 + r.code;
    var s4 := s3 + [SPACE];
    var s5 := s4 + r.reason;
    ReadMagic(INIT, 0);
    assert MAGIC[0..] == s1;
    RunConcat(INIT, s1, [r.minor, SPACE], 0);
    RunTwo(INIT.(cs := 8), r.minor, SPACE, |s1|);
    RunConcat(INIT, s2, r.code, 0);
    ReadCode(INIT.(cs := 10), r.code, |s2|);
    var coded := INIT.(cs := 11, status := LeadingDigits(r.code, 0));
    RunConcat(INIT, s3, [SPACE], 0);
    RunByte(coded, SPACE, |s3|);
    RunConcat(INIT, s4, r.reason, 0);
    ReadReason(coded.(cs := 12), r.reason, |s4|);
    RunConcat(INIT, s5, CRLF, 0);
    RunTwo(coded.(cs := 13), CR, LF, |s5|);
  }

  lemma {:induction false} ReadName(m: Parse, name: Bytes, p: nat)
    requires m.cs == 15 || m.cs == 16
    requires forall i :: 0 <= i < |name| ==> IsNameByte(name[i])
    ensures Run(m, name, p) == m.(cs := if name == [] then m.cs else 16, name := m.name + LowerAll(name))
    decreases |name|
  {
    if name == [] {
      assert m.name + [] == m.name;
    } else {
      var next := m.(cs := 16, name := m.name + [Lower(name[0])]);
      ReadName(next, name[1..], p + 1);
      assert next.name + LowerAll(name[1..]) == m.name + LowerAll(name);
    }
  }

  lemma {:induction false} ReadRestOfValue(m: Parse, value: Bytes, p: nat)
    requires m.cs == 18 || m.cs == 19
    requires forall i :: 0 <= i < |value| ==> value[i] != CR && value[i] != LF
    ensures Run(m, value, p) == m.(cs := if value == [] then m.cs else 19, value := m.value + value)
    decreases |value|
  {
    if value == [] {
      assert m.value + [] == m.value;
    } else {
      var next := m.(cs := 19, value := m.value + [value[0]]);
      ReadRestOfValue(next, value[1..], p + 1);
      assert next.value + value[1..] == m.value + value;
    }
  }

  lemma {:induction false} ReadValue(m: Parse, value: Bytes, p: nat)
    requires m.cs == 17 && m.value == []
    requires forall i :: 0 <= i < |value| ==> value[i] != CR && value[i] != LF
    ensures Run(m, value, p) ==
            m.(cs := if |Strip(value)| <= 1 then 17 + |Strip(value)| else 19, value := Strip(value))
    decreases |value|
  {
    if value != [] {
      if value[0] == SPACE {
        ReadValue(m, value[1..], p + 1);
      } else {
        var first := [value[0]];
        assert m.value + first == first && first + value[1..] == value;
        ReadRestOfValue(m.(cs := 18, value := first), value[1..], p + 1);
      }
    }
  }

  /** Between two header lines. */
  predicate AtLineStart(m: Parse) {
    m.cs == 15 && m.name == [] && m.value == [] && m.body == Unset
  }

  lemma ReadField(m: Parse, f: Field, p: nat)
    requires AtLineStart(m) && LegalField(f)
    ensures var r := Run(m, PrintField(f), p);
            if |Strip(f.value)| == 1 then r.cs == 0
            else r == m.(headers := m.headers[LowerAll(f.name) := Strip(f.value)])
  {
    hide Run;
    var s1 := f.name;
    var s2 := s1 + [COLON];
    var s3 := s2 + f.value;
    ReadName(m, f.name, p);
    var named := m.(cs := 16, name := LowerAll(f.name));
    assert m.name + LowerAll(f.name) == LowerAll(f.name) != [];
    RunConcat(m, s1, [COLON], p);
    RunByte(named, COLON, p + |s1|);
    RunConcat(m, s2, f.value, p);
    ReadValue(named.(cs := 17), f.value, p + |s2|);
    var valued := Run(m, s3, p);
    assert PrintField(f) == s3 + CRLF;
    RunConcat(m, s3, CRLF, p);
    if |Strip(f.value)| == 1 {
      FailedByFirst(valued, CR, [LF], p + |s3|);
      assert CRLF == [CR] + [LF];
    } else {
      RunTwo(valued, CR, LF, p + |s3|);
    }
  }

  lemma FailedByFirst(m: Parse, b: SByte, s: Bytes, p: nat)
    requires 1 <= m.cs <= IN_BODY && Step(m, b, p).cs == 0
    ensures Run(m, [b] + s, p).cs == 0
  {
    assert ([b] + s)[1..] == s;
  }

  lemma {:induction false} ReadFields(m: Parse, fields: seq<Field>, p: nat)
    requires AtLineStart(m)
    requires forall f :: f in fields ==> LegalField(f)
    ensures var r := Run(m, PrintFields(fields), p);
            if Readable(fields) then r == m.(headers := HeaderMap(m.headers, fields)) else r.cs == 0
    decreases |fields|
  {
    if fields != [] {
      ReadFieldsFromFirst(m, fields, p);
    }
  }

  lemma {:induction false} ReadFieldsFromFirst(m: Parse, fields: seq<Field>, p: nat)
    requires AtLineStart(m) && fields != []
    requires forall f :: f in fields ==> LegalField(f)
    ensures var r := Run(m, PrintFields(fields), p);
            if Readable(fields) then r == m.(headers := HeaderMap(m.headers, fields)) else r.cs == 0
    decreases |fields|, 0
  {
    hide Run;
    var f := fields[0];
    var rest := fields[1..];
    ReadField(m, f, p);
    RunConcat(m, PrintField(f), PrintFields(rest), p);
    var next := Run(m, PrintField(f), p);
    assert fields == [f] + rest;
    if |Strip(f.value)| == 1 {
      RunFailed(next, PrintFields(rest), p + |PrintField(f)|);
    } else {
      ReadFields(next, rest, p + |PrintField(f)|);
      assert Readable(fields) <==> Readable(rest);
    }
  }

  lemma RunFailed(m: Parse, s: Bytes, p: nat)
    requires m.cs == 0
    ensures Run(m, s, p) == m
  {
  }

  /** The whole head: exactly the readable headers get through. */
  lemma ReadHead(r: Response)
    requires Legal(r)
    ensures var m := Run(INIT, Head(r), 0);
            if Readable(r.fields) then
              m == INIT.(cs := 21, status := LeadingDigits(r.code, 0), headers := HeaderMap(map[], r.fields))
            else m.cs == 0
  {
    hide Run;
    var lined := INIT.(cs := 15, status := LeadingDigits(r.code, 0));
    var p := |StatusLine(r)|;
    ReadStatusLine(r);
    RunConcat(INIT, StatusLine(r), PrintFields(r.fields), 0);
    ReadFields(lined, r.fields, p);
    var s := StatusLine(r) + PrintFields(r.fields);
    var fielded := Run(INIT, s, 0);
    RunConcat(INIT, s, CRLF, 0);
    if Readable(r.fields) {
      RunTwo(fielded, CR, LF, |s|);
    } else {
      RunFailed(fielded, CRLF, |s|);
    }
  }

  lemma {:induction false} ReadRestOfBody(m: Parse, s: Bytes, p: nat)
    requires m.cs == IN_BODY
    ensures Run(m, s, p) == m
    decreases |s|
  {
    if s != [] {
      ReadRestOfBody(m, s[1..], p + 1);
    }
  }

  lemma ReadAll(r: Response)
    requires Legal(r)
    ensures var m := Run(INIT, Print(r), 0);
            if !Readable(r.fields) then m.cs == 0
            else m == INIT.(cs := if r.body == [] then 21 else IN_BODY, status := LeadingDigits(r.code, 0),
                            headers := HeaderMap(map[], r.fields),
                            body := if r.body == [] then Unset else At(|Head(r)|))
  {
    ReadHead(r);
    RunConcat(INIT, Head(r), r.body, 0);
    var m := Run(INIT, Head(r), 0);
    if m.cs == 21 && r.body != [] {
      ReadRestOfBody(Step(m, r.body[0], |Head(r)|), r.body[1..], |Head(r)| + 1);
    }
  }

  // ---------- The round trip ----------

  /** The body a reader of `r` should get: without its transfer coding, then without gzip. */
  ghost function Delivered(r: Response, inflate: Inflate): Inflated {
    var headers := HeaderMap(map[], r.fields);
    if r.body == [] then Data([])
    else if Says(headers, CONTENT_ENCODING, GZIP) then inflate(Dechunked(headers, r.body))
    else Data(Dechunked(headers, r.body))
  }

  /**
   A printed response is accepted exactly when no header value is a single byte, the body (if any)
   is within ten bytes of a declared length, and gzip (if declared) inflates; then the status, the
   headers and the decoded body are read back.
   */
  lemma RoundTrip(r: Response, inflate: Inflate)
    requires Legal(r)
    ensures var out := Parsed(Print(r), inflate);
            var headers := HeaderMap(map[], r.fields);
            && (out.ok <==> Readable(r.fields) && (r.body != [] ==> LengthAgrees(headers, |r.body|))
                            && Delivered(r, inflate).Data?)
            && (out.ok ==> out.status == LeadingDigits(r.code, 0) && out.headers == headers
                           && Data(out.body) == Delivered(r, inflate))
  {
    ReadAll(r);
    MarkStaysInside(INIT, Print(r), 0);
    assert Print(r)[|Head(r)|..] == r.body;
  }

  /** A chunked body comes out whole, whatever its framing looked like. */
  lemma ChunkedResponseRoundTrip(r: Response, coded: ChunkedCoding.Body, inflate: Inflate)
    requires Legal(r) && Readable(r.fields)
    requires r.body == coded.Encode()
    requires coded.Legal() && forall c :: c in coded.chunks ==> |c.data| < ChunkedBody.INT_MAX
    requires var headers := HeaderMap(map[], r.fields);
             Says(headers, TRANSFER_ENCODING, CHUNKED) && !Says(headers, CONTENT_ENCODING, GZIP)
             && LengthAgrees(headers, |r.body|)
    ensures Parsed(Print(r), inflate) ==
            Outcome(true, LeadingDigits(r.code, 0), HeaderMap(map[], r.fields), ChunkedCoding.Payload(coded.chunks))
  {
    RoundTrip(r, inflate);
    ChunkedRoundTrip.RoundTrip(coded);
  }
}
