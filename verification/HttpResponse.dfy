/**
 `http_parse`: the response-head scanner, the checks that follow it, and the loop that runs it.
 */
module HttpResponse {
  import opened Scanner
  import opened ResponseTable
  import ChunkedBody
  import ChunkedRuns

  type Bytes = seq<SByte>

  datatype Mark = Unset | At(pos: nat)

  /** The variables of the scanner. */
  datatype Parse = Parse(cs: nat, status: int, name: Bytes, value: Bytes, headers: map<Bytes, Bytes>, body: Mark)

  const INIT: Parse := Parse(START, 0, [], [], map[], Unset)

  function Lower(b: SByte): SByte {
    if 'A' as int <= b <= 'Z' as int then b + 32 else b
  }

  /** One action, run on byte `b` at position `p`. */
  function Act(m: Parse, action: Action, b: SByte, p: nat): Parse {
    match action
    case AddStatusDigit => m.(status := ChunkedBody.Wrap(m.status * 10 + (b - '0' as int)))
    case AppendName => m.(name := m.name + [Lower(b)])
    case AppendValue => m.(value := m.value + [b])
    case StoreHeader =>
      m.(name := [], value := [], headers := if m.name == [] then m.headers else m.headers[m.name := m.value])
    case MarkBody => m.(body := At(p))
  }

  /** No move of this scanner runs more than one action. */
  function Perform(m: Parse, move: Move<Action>, b: SByte, p: nat): Parse {
    var next := m.(cs := move.target);
    if move.actions == [] then next else Act(next, move.actions[0], b, p)
  }

  function Step(m: Parse, b: SByte, p: nat): Parse
    requires 1 <= m.cs <= IN_BODY
  {
    Perform(m, Grammar(m.cs, b), b, p)
  }

  /** The scanner on input `s` that begins at position `p`: it stops at the error state. */
  function Run(m: Parse, s: Bytes, p: nat): (r: Parse)
    requires m.cs <= IN_BODY
    ensures r.cs <= IN_BODY
    decreases |s|
  {
    if s == [] || m.cs == 0 then m else Run(Step(m, s[0], p), s[1..], p + 1)
  }

  // ---------- Library calls ----------

  predicate IsSpace(b: SByte) {
    b == 32 || 9 <= b <= 13
  }

  /** The number that a run of digits at the front spells. */
  function LeadingDigits(s: Bytes, acc: nat): nat {
    if s == [] || !IsDigit(s[0]) then acc
    else
      var d: nat := s[0] - '0' as int;
      LeadingDigits(s[1..], acc * 10 + d)
  }

  function SkipSpace(s: Bytes): Bytes {
    if s != [] && IsSpace(s[0]) then SkipSpace(s[1..]) else s
  }

  const LONG_MAX: int := 0x7fff_ffff_ffff_ffff

  /** `atoi`: a signed number after white space, clamped to `long` and cut to `int`. */
  function Atoi(s: Bytes): int {
    var t := SkipSpace(s);
    var negative := t != [] && t[0] == '-' as int;
    var signed := t != [] && (t[0] == '-' as int || t[0] == '+' as int);
    var n: int := LeadingDigits(if signed then t[1..] else t, 0);
    var long: int := if negative then (if n > LONG_MAX + 1 then -LONG_MAX - 1 else -n)
                else if n > LONG_MAX then LONG_MAX else n;
    ChunkedBody.Wrap(long)
  }

  /** `httpgzdecompress` is foreign: any function that inflates a body or fails. */
  datatype Inflated = Failed | Data(bytes: Bytes)
  type Inflate = Bytes -> Inflated

  // ---------- After the scan ----------

  const CONTENT_LENGTH: Bytes := [99, 111, 110, 116, 101, 110, 116, 45, 108, 101, 110, 103, 116, 104]
  const TRANSFER_ENCODING: Bytes :=
    [116, 114, 97, 110, 115, 102, 101, 114, 45, 101, 110, 99, 111, 100, 105, 110, 103]
  const CONTENT_ENCODING: Bytes :=
    [99, 111, 110, 116, 101, 110, 116, 45, 101, 110, 99, 111, 100, 105, 110, 103]
  const CHUNKED: Bytes := [99, 104, 117, 110, 107, 101, 100]
  const GZIP: Bytes := [103, 122, 105, 112]

  predicate Says(headers: map<Bytes, Bytes>, name: Bytes, value: Bytes) {
    name in headers && headers[name] == value
  }

  /** A declared length that is more than ten bytes off is a parse failure. */
  predicate LengthAgrees(headers: map<Bytes, Bytes>, length: nat) {
    CONTENT_LENGTH in headers ==> -10 <= Atoi(headers[CONTENT_LENGTH]) - length <= 10
  }

  /** The body after the transfer coding is removed; a malformed chunked body is cut where it fails. */
  ghost function Dechunked(headers: map<Bytes, Bytes>, raw: Bytes): Bytes {
    if Says(headers, TRANSFER_ENCODING, CHUNKED) then ChunkedRuns.Run(ChunkedBody.INIT, raw).body else raw
  }

  datatype Outcome = Outcome(ok: bool, status: int, headers: map<Bytes, Bytes>, body: Bytes)

  /** The body is marked in the body state only, at a byte of the input. */
  predicate MarkInside(m: Parse, length: nat) {
    && (m.cs == IN_BODY <==> m.body.At?)
    && (m.body.At? ==> m.body.pos < length)
  }

  /** What `http_parse` reports for a scan of `raw` that stopped at `m`. */
  ghost function Conclude(m: Parse, raw: Bytes, inflate: Inflate): Outcome
    requires MarkInside(m, |raw|)
  {
    var rejected := Outcome(false, m.status, m.headers, []);
    if m.cs < FIRST_FINAL then rejected
    else if m.cs != IN_BODY then rejected.(ok := true)
    else
      var coded := raw[m.body.pos..];
      if !LengthAgrees(m.headers, |coded|) then rejected
      else
        var plain := Dechunked(m.headers, coded);
        if !Says(m.headers, CONTENT_ENCODING, GZIP) then Outcome(true, m.status, m.headers, plain)
        else match inflate(plain)
          case Failed => rejected
          case Data(bytes) => Outcome(true, m.status, m.headers, bytes)
  }

  lemma {:induction false} MarkStaysInside(m: Parse, s: Bytes, p: nat)
    requires m.cs <= IN_BODY && MarkInside(m, p)
    ensures MarkInside(Run(m, s, p), p + |s|)
    decreases |s|
  {
    if s != [] && m.cs != 0 {
      MarkStaysInside(Step(m, s[0], p), s[1..], p + 1);
    }
  }

  ghost function Parsed(raw: Bytes, inflate: Inflate): Outcome {
    MarkStaysInside(INIT, raw, 0);
    Conclude(Run(INIT, raw, 0), raw, inflate)
  }

  // ---------- The loop ----------

  /** One round of the loop: look the byte up in the table, enter the next state, run its action. */
  method Advance(m: Parse, b: SByte, p: nat) returns (next: Parse)
    requires 1 <= m.cs <= IN_BODY
    ensures next == Step(m, b, p)
  {
    RowsSorted(m.cs);
    TableIsGrammar(m.cs, b);
    var move := Lookup(RowOf(m.cs), b);
    next := Perform(m, move, b, p);
  }

  method HttpParse(raw: Bytes, inflate: Inflate)
    returns (ok: bool, status: int, headers: map<Bytes, Bytes>, body: Bytes)
    ensures Outcome(ok, status, headers, body) == Parsed(raw, inflate)
  {
    var m := INIT;
    var p := 0;
    while p < |raw| && m.cs != 0
      invariant 0 <= p <= |raw|
      invariant m.cs <= IN_BODY
      invariant Run(INIT, raw, 0) == Run(m, raw[p..], p)
      decreases |raw| - p
    {
      assert raw[p..][1..] == raw[p + 1..];
      m := Advance(m, raw[p], p);
      p := p + 1;
    }
    MarkStaysInside(INIT, raw, 0);
    status, headers := m.status, m.headers;
    ok, body := Deliver(m, raw, inflate);
  }

  /** The checks after the scan: content length, transfer coding, content coding. */
  method Deliver(m: Parse, raw: Bytes, inflate: Inflate) returns (ok: bool, body: Bytes)
    requires MarkInside(m, |raw|)
    ensures Outcome(ok, m.status, m.headers, body) == Conclude(m, raw, inflate)
  {
    ok, body := false, [];
    if m.cs < FIRST_FINAL {
      return;
    }
    if m.cs == IN_BODY {  // both ends of the body are known
      var coded := raw[m.body.pos..];
      if CONTENT_LENGTH in m.headers {
        var contentLength := Atoi(m.headers[CONTENT_LENGTH]);
        if contentLength - |coded| > 10 || |coded| - contentLength > 10 {
          return;
        }
      }
      if TRANSFER_ENCODING in m.headers && m.headers[TRANSFER_ENCODING] == CHUNKED {
        var accepted;
        accepted, coded := ChunkedRuns.HttpChunkedParse(coded);  // a failure is only logged
      }
      if CONTENT_ENCODING in m.headers && m.headers[CONTENT_ENCODING] == GZIP {
        match inflate(coded) {
          case Failed => return;
          case Data(bytes) => body := bytes;
        }
      } else {
        body := coded;
      }
    }
    ok := true;
  }
}
