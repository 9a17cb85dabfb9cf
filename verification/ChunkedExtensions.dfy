/**
 Exactly which chunk extensions the scanner reads: those of `ChunkedCoding`, and no others.
 */
module ChunkedExtensions {
  import opened Scanner
  import opened ChunkedTable
  import opened ChunkedCoding
  import opened ChunkedBody
  import opened ChunkedRuns
  import opened ChunkedRoundTrip

  predicate AllLegal(es: seq<Extension>) {
    forall e :: e in es ==> LegalExtension(e)
  }

  /** What has been read of the extension under way, by how far the scanner has come in it. */
  datatype UnderWay =
    | Begun                                  // after the semicolon
    | Naming(name: Bytes)
    | Assigned(name: Bytes)                  // after the equals sign
    | Quoting(name: Bytes, text: Bytes)      // within the quotes
    | Done(last: Extension)                  // after the closing quote, or within a token

  function PrintUnderWay(u: UnderWay): Bytes {
    match u
    case Begun => [';' as int]
    case Naming(name) => [';' as int] + name
    case Assigned(name) => [';' as int] + name + ['=' as int]
    case Quoting(name, text) => [';' as int] + name + ['=' as int] + ([QUOTE] + text)
    case Done(last) => PrintExtension(last)
  }

  predicate LegalUnderWay(u: UnderWay) {
    match u
    case Begun => true
    case Naming(name) => IsToken(name)
    case Assigned(name) => IsToken(name)
    case Quoting(name, text) => IsToken(name) && forall i :: 0 <= i < |text| ==> IsQuotable(text[i])
    case Done(last) => LegalExtension(last)
  }

  function StateOf(u: UnderWay, home: nat): nat {
    match u
    case Begun => home
    case Naming(_) => home + 1
    case Assigned(_) => home + 2
    case Quoting(_, _) => home + 3
    case Done(last) => if last.value.Token? then home + 5 else home + 4
  }

  /** The text `s` is legal extensions and a part of one, and the scanner is where that part leaves it. */
  ghost predicate ReadSoFar(s: Bytes, es: seq<Extension>, u: UnderWay, home: nat, cs: nat) {
    AllLegal(es) && LegalUnderWay(u) && s == PrintExtensions(es) + PrintUnderWay(u) && cs == StateOf(u, home)
  }

  lemma {:induction false} PrintConcat(es: seq<Extension>, fs: seq<Extension>)
    ensures PrintExtensions(es + fs) == PrintExtensions(es) + PrintExtensions(fs)
    decreases |es|
  {
    hide PrintExtension;
    if es == [] {
      assert es + fs == fs;
    } else {
      assert (es + fs)[1..] == es[1..] + fs;
      PrintConcat(es[1..], fs);
    }
  }

  lemma PrintOneMore(es: seq<Extension>, e: Extension)
    ensures PrintExtensions(es + [e]) == PrintExtensions(es) + PrintExtension(e)
  {
    hide PrintExtension;
    PrintConcat(es, [e]);
    assert [e][1..] == [];
  }

  lemma TokenGrows(token: Bytes, b: SByte)
    requires if token == [] then IsLetter(b) else IsToken(token) && IsLetterOrDigit(b)
    ensures IsToken(token + [b])
  {
  }

  /** What one more byte makes of the extension under way; `None` if it ends the reading. */
  function Next(u: UnderWay, b: SByte): UnderWay
    requires CanRead(u, b)
  {
    match u
    case Begun => Naming([b])
    case Naming(name) => if b == '=' as int then Assigned(name) else Naming(name + [b])
    case Assigned(name) => if b == QUOTE then Quoting(name, []) else Done(Extension(name, Token([b])))
    case Quoting(name, text) =>
      if b == QUOTE then Done(Extension(name, Quoted(text))) else Quoting(name, text + [b])
    case Done(last) =>
      if b == ';' as int then Begun else Done(last.(value := Token(last.value.token + [b])))
  }

  /** The bytes, CR aside, that an extension may go on with. */
  predicate CanRead(u: UnderWay, b: SByte) {
    match u
    case Begun => IsLetter(b)
    case Naming(_) => IsLetterOrDigit(b) || b == '=' as int
    case Assigned(_) => IsLetter(b) || b == QUOTE
    case Quoting(_, _) => b == QUOTE || IsQuotable(b)
    case Done(last) => b == ';' as int || (last.value.Token? && IsLetterOrDigit(b))
  }

  /** The scanner's move on a byte of an extension is that of the grammar. */
  lemma MoveIsNext(m: Scan, home: nat, u: UnderWay, b: SByte)
    requires home == 33 || home == 54
    requires m.cs == StateOf(u, home) && b != CR
    ensures Step(m, b) == m.(cs := if CanRead(u, b) then StateOf(Next(u, b), home) else 0)
  {
    hide Step;
    StepQuiet(m, b);
  }

  lemma NextIsLegal(es: seq<Extension>, u: UnderWay, b: SByte)
    requires AllLegal(es) && LegalUnderWay(u) && CanRead(u, b)
    ensures LegalUnderWay(Next(u, b))
    ensures u.Done? ==> AllLegal(es + [u.last])
  {
    match u {
      case Begun => TokenGrows([], b); assert [] + [b] == [b];
      case Naming(name) => if b != '=' as int { TokenGrows(name, b); }
      case Assigned(_) => if b != QUOTE { TokenGrows([], b); assert [] + [b] == [b]; }
      case Quoting(_, _) =>
      case Done(last) => if b != ';' as int { TokenGrows(last.value.token, b); }
    }
  }

  /** The print grows by the byte; a semicolon begins another extension. */
  lemma NextIsPrinted(es: seq<Extension>, u: UnderWay, b: SByte)
    requires CanRead(u, b)
    ensures var more := if u.Done? && b == ';' as int then es + [u.last] else es;
            PrintExtensions(es) + PrintUnderWay(u) + [b] == PrintExtensions(more) + PrintUnderWay(Next(u, b))
  {
    hide PrintExtensions;
    if u.Done? && b == ';' as int {
      PrintOneMore(es, u.last);
    } else {
      assert PrintUnderWay(u) + [b] == PrintUnderWay(Next(u, b));
      assert PrintExtensions(es) + PrintUnderWay(u) + [b] == PrintExtensions(es) + (PrintUnderWay(u) + [b]);
    }
  }

  /** Whatever was read without failing, after a semicolon, is extensions and a part of one. */
  lemma {:induction false} ReadIsExtensions(m: Scan, home: nat, s: Bytes) returns (es: seq<Extension>, u: UnderWay)
    requires Unambiguous(m) && (home == 33 || home == 54) && m.cs == home && CR !in s && Run(m, s).cs != 0
    ensures ReadSoFar([';' as int] + s, es, u, home, Run(m, s).cs)
    ensures Run(m, s) == m.(cs := Run(m, s).cs)
  {
    hide Run, Step, AllLegal, LegalUnderWay, PrintExtensions, PrintUnderWay;
    if s == [] {
      es, u := [], Begun;
      RunNothing(m);
      NothingYet();
    } else {
      var n := |s| - 1;
      var t, b := s[..n], s[n];
      assert s == t + [b];
      RunConcat(m, t, [b]);
      var k := Run(m, t);
      StoppedRuns(k, [b]);
      es, u := ReadIsExtensions(m, home, t);
      RunByte(k, b);
      MoveIsNext(k, home, u, b);
      NextIsLegal(es, u, b);
      NextIsPrinted(es, u, b);
      assert [';' as int] + s == [';' as int] + t + [b];
      es, u := if u.Done? && b == ';' as int then es + [u.last] else es, Next(u, b);
    }
  }

  lemma NothingYet()
    ensures AllLegal([]) && LegalUnderWay(Begun) && [';' as int] + [] == PrintExtensions([]) + PrintUnderWay(Begun)
  {
  }

  lemma StoppedRuns(k: Scan, s: Bytes)
    requires Unambiguous(k)
    ensures k.cs == 0 ==> Run(k, s) == k
  {
  }

  /** The CR that ends a size line is taken after a complete extension only. */
  lemma LineEndsAfterExtension(k: Scan, home: nat, u: UnderWay)
    requires Unambiguous(k) && (home == 33 || home == 54) && k.cs == StateOf(u, home)
    ensures Run(k, CRLF).cs != 0 <==> u.Done?
  {
    hide Run, Step;
    StepQuiet(k, CR);
    RunOne(k, CR, [LF]);
    assert CRLF == [CR] + [LF];
    if u.Done? {
      ReadLineEnd(k, home);
    } else {
      RunStopped(Step(k, CR), [LF]);
    }
  }

  /** What follows the size on a size line is accepted exactly if it is a list of legal extensions. */
  lemma ExtensionsExactly(m: Scan, home: nat, s: Bytes)
    requires BeforeExtension(m, home) && CR !in s
    ensures Run(m, [';' as int] + s + CRLF).cs != 0 <==>
            exists es :: AllLegal(es) && [';' as int] + s == PrintExtensions(es)
  {
    hide Run, Step, AllLegal, PrintExtensions;
    var text := [';' as int] + s;
    RunConcat(m, text, CRLF);
    RunConcat(m, [';' as int], s);
    ReadSemicolon(m, home);
    var k := Run(m, text);
    if es :| AllLegal(es) && text == PrintExtensions(es) {
      LegalOnes(es);
      ReadExtensions(m, home, es);
      ReadLineEnd(k, home);
    } else if Run(k, CRLF).cs != 0 {
      StoppedRuns(k, CRLF);
      var es, u := ReadIsExtensions(m.(cs := home), home, s);
      LineEndsAfterExtension(k, home, u);
      PrintOneMore(es, u.last);
      OneMoreLegal(es, u);
    }
  }

  lemma LegalOnes(es: seq<Extension>)
    requires AllLegal(es)
    ensures forall e :: e in es ==> LegalExtension(e)
  {
    hide LegalExtension;
  }

  lemma OneMoreLegal(es: seq<Extension>, u: UnderWay)
    requires AllLegal(es) && LegalUnderWay(u) && u.Done?
    ensures AllLegal(es + [u.last])
  {
  }
}
