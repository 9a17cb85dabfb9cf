/**
 The chunked-body scanner as a state machine over bytes, and the loop that runs it.
 */
module ChunkedBody {
  import opened Scanner
  import opened ChunkedTable
  import opened ChunkedCoding

  const INT_MAX: int := 0x7fff_ffff

  /** 32-bit two's complement. */
  function Wrap(x: int): (w: int)
    ensures -INT_MAX - 1 <= w <= INT_MAX
    ensures -INT_MAX - 1 <= x <= INT_MAX ==> w == x
    ensures x == INT_MAX + 1 ==> w == -INT_MAX - 1
  {
    (x + 0x8000_0000) % 0x1_0000_0000 - 0x8000_0000
  }

  /** The variables of the scanner: state, chunk counter, declared chunk size, decoded bytes. */
  datatype Scan = Scan(cs: nat, count: int, size: int, body: seq<SByte>)

  const INIT: Scan := Scan(START, 0, 0, [])

  function DigitValue(b: SByte): int {
    if 'A' as int <= b <= 'F' as int then b - 'A' as int + 10
    else if 'a' as int <= b <= 'f' as int then b - 'a' as int + 10
    else b - '0' as int
  }

  /** The key under which byte `b` is looked up. */
  function Key(m: Scan, b: SByte): int {
    if !Guarded(m.cs) then b else if m.count < m.size then b + 512 else b + 256
  }

  /** The counter after the guard of the current state was tested. */
  function Counted(m: Scan): int {
    if Guarded(m.cs) then Wrap(m.count + 1) else m.count
  }

  /** The actions of a move, in order. A `Recheck` that finds the chunk unfinished skips the rest. */
  function Act(m: Scan, actions: seq<Action>, b: SByte): Scan
    decreases |actions|
  {
    if actions == [] then m
    else match actions[0]
      case AddDigit => Act(m.(size := Wrap(m.size * 16 + DigitValue(b))), actions[1..], b)
      case StartSize => Act(m.(count := 0, size := 0), actions[1..], b)
      case AppendByte => Act(m.(body := m.body + [b]), actions[1..], b)
      case Recheck =>
        if m.count < m.size then m.(cs := CHUNK_DATA) else Act(m, actions[1..], b)
  }

  ghost function MoveOn(m: Scan, b: SByte): Move<Action>
    requires 0 < m.cs < STATES
  {
    RowOf(m.cs).Select(Key(m, b))
  }

  ghost function Step(m: Scan, b: SByte): Scan
    requires 0 < m.cs < STATES
  {
    var move := MoveOn(m, b);
    Act(m.(cs := move.target, count := Counted(m)), move.actions, b)
  }

  // ---------- One step, state by state ----------

  lemma RowsSorted(cs: nat)
    requires Plain(cs)
    ensures RowOf(cs).Sorted()
  {
    if cs <= 6 {
      RowsSortedInSizeLine(cs);
    } else if cs <= 14 {
      RowsSortedInData(cs);
    } else if cs <= 38 {
      RowsSortedInExtension(cs);
    } else {
      RowsSortedInLastExtension(cs);
    }
  }

  lemma RowsSortedInSizeLine(cs: nat)
    requires 1 <= cs <= 6
    ensures RowOf(cs).Sorted()
  {
  }

  lemma RowsSortedInData(cs: nat)
    requires 7 <= cs <= 14
    ensures RowOf(cs).Sorted()
  {
  }

  lemma RowsSortedInExtension(cs: nat)
    requires 33 <= cs <= 38
    ensures RowOf(cs).Sorted()
  {
    hide AmbiguousRowOf, FramingRowOf, LastExtensionRowOf;
  }

  lemma RowsSortedInLastExtension(cs: nat)
    requires 54 <= cs <= 67 && Plain(cs)
    ensures RowOf(cs).Sorted()
  {
  }

  /** The states that run no action, and where they lead. */
  predicate Quiet(cs: nat) {
    cs == 3 || 5 <= cs <= 9 || cs == 11 || cs == 13 || 33 <= cs <= 38 || 54 <= cs <= 59 || cs == 66
  }

  /** Within the extensions that start at state `home`; CR leads out of them to state `exit`. */
  function AfterExtensionByte(cs: nat, home: nat, exit: nat, b: SByte): nat
    requires home <= cs <= home + 5
  {
    match cs - home
    case 0 => if IsLetter(b) then home + 1 else 0
    case 1 => if IsLetterOrDigit(b) then home + 1 else if b == '=' as int then home + 2 else 0
    case 2 => if b == QUOTE then home + 3 else if IsLetter(b) then home + 5 else 0
    case 3 => if b == QUOTE then home + 4 else if IsQuotable(b) then home + 3 else 0
    case 4 => if b == CR then exit else if b == ';' as int then home else 0
    case _ => if IsLetterOrDigit(b) then home + 5 else if b == CR then exit else if b == ';' as int then home else 0
  }

  /** Within a trailer: a line (5), its line feed (6), the byte after it (7), the last line feed (8). */
  function AfterTrailerByte(cs: nat, b: SByte): nat
    requires 5 <= cs <= 8
  {
    match cs
    case 5 => if b == CR then 6 else if b == LF then 0 else 5
    case 6 => if b == LF then 7 else 0
    case 7 => if b == CR then 8 else if b == LF then 0 else 5
    case _ => if b == LF then 66 else 0
  }

  function AfterQuietByte(cs: nat, b: SByte): nat
    requires Quiet(cs)
  {
    if 5 <= cs <= 8 then AfterTrailerByte(cs, b)
    else if 33 <= cs <= 38 then AfterExtensionByte(cs, 33, 11, b)
    else if 54 <= cs <= 59 then AfterExtensionByte(cs, 54, 3, b)
    else if b != LF || cs == 66 then 0
    else if cs == 3 then 4 else if cs == 9 then 67 else if cs == 11 then 12 else 1
  }

  lemma QuietRow(cs: nat, b: SByte)
    requires Quiet(cs)
    ensures RowOf(cs).Select(b) == Move(AfterQuietByte(cs, b), [])
  {
    if cs <= 13 || cs == 66 {
      QuietRowInFraming(cs, b);
    } else if cs <= 35 {
      QuietRowInExtensionName(cs, b);
    } else if cs <= 38 {
      QuietRowInExtensionValue(cs, b);
    } else if cs <= 56 {
      QuietRowInLastExtensionName(cs, b);
    } else {
      QuietRowInLastExtensionValue(cs, b);
    }
  }

  lemma QuietRowInFraming(cs: nat, b: SByte)
    requires Quiet(cs) && (cs <= 13 || cs == 66)
    ensures RowOf(cs).Select(b) == Move(AfterQuietByte(cs, b), [])
  {
    hide AmbiguousRowOf, ExtensionRowOf, LastExtensionRowOf;
    RowsSorted(cs);
    RowOf(cs).SelectsAmongThree(b);
  }

  lemma QuietRowInExtensionName(cs: nat, b: SByte)
    requires 33 <= cs <= 35
    ensures RowOf(cs).Select(b) == Move(AfterQuietByte(cs, b), [])
  {
    hide AmbiguousRowOf, FramingRowOf, LastExtensionRowOf;
    RowsSorted(cs);
    RowOf(cs).SelectsAmongThree(b);
  }

  lemma QuietRowInExtensionValue(cs: nat, b: SByte)
    requires 36 <= cs <= 38
    ensures RowOf(cs).Select(b) == Move(AfterQuietByte(cs, b), [])
  {
    hide AmbiguousRowOf, FramingRowOf, LastExtensionRowOf;
    RowsSorted(cs);
    RowOf(cs).SelectsAmongThree(b);
  }

  lemma QuietRowInLastExtensionName(cs: nat, b: SByte)
    requires 54 <= cs <= 56
    ensures RowOf(cs).Select(b) == Move(AfterQuietByte(cs, b), [])
  {
    hide AmbiguousRowOf, FramingRowOf, ExtensionRowOf;
    RowsSortedInLastExtension(cs);
    RowOf(cs).SelectsAmongThree(b);
  }

  lemma QuietRowInLastExtensionValue(cs: nat, b: SByte)
    requires 57 <= cs <= 59
    ensures RowOf(cs).Select(b) == Move(AfterQuietByte(cs, b), [])
  {
    hide AmbiguousRowOf, FramingRowOf, ExtensionRowOf;
    RowsSortedInLastExtension(cs);
    RowOf(cs).SelectsAmongThree(b);
  }

  lemma StepQuiet(m: Scan, b: SByte)
    requires Quiet(m.cs)
    ensures Step(m, b) == m.(cs := AfterQuietByte(m.cs, b))
  {
    hide RowOf, AfterQuietByte;
    QuietRow(m.cs, b);
  }

  predicate IsHex(b: SByte) {
    || '0' as int <= b <= '9' as int
    || 'A' as int <= b <= 'F' as int
    || 'a' as int <= b <= 'f' as int
  }

  lemma FirstSizeRow(b: SByte)
    ensures RowOf(1).Select(b) ==
            if b == '0' as int then Move(2, [StartSize, AddDigit])
            else if IsHex(b) then Move(10, [StartSize, AddDigit])
            else Move(0, [])
  {
    RowsSorted(1);
    RowOf(1).SelectsAmongThree(b);
  }

  lemma NextSizeRow(b: SByte)
    ensures RowOf(67).Select(b) ==
            if b == '0' as int then Move(2, [StartSize, AddDigit])
            else if IsHex(b) then Move(10, [StartSize, AddDigit])
            else Move(0, [])
  {
    RowsSorted(67);
    RowOf(67).SelectsAmongThree(b);
  }

  lemma SizeStartMove(m: Scan, b: SByte)
    requires m.cs == 1 || m.cs == 67
    ensures MoveOn(m, b) ==
            if b == '0' as int then Move(2, [StartSize, AddDigit])
            else if IsHex(b) then Move(10, [StartSize, AddDigit])
            else Move(0, [])
  {
    hide RowOf;
    FirstSizeRow(b);
    NextSizeRow(b);
  }

  /** A size line begins: the counters are reset, a leading zero is told apart from other digits. */
  lemma StepSizeStart(m: Scan, b: SByte)
    requires m.cs == 1 || m.cs == 67
    ensures Step(m, b) ==
            if b == '0' as int then Scan(2, 0, 0, m.body)
            else if IsHex(b) then Scan(10, 0, DigitValue(b), m.body)
            else m.(cs := 0)
  {
    SizeStartMove(m, b);
  }

  lemma SizeZeroRow(b: SByte)
    ensures RowOf(2).Select(b) ==
            if IsHex(b) then Move(if b == '0' as int then 2 else 10, [AddDigit])
            else if b == CR then Move(3, [])
            else if b == ';' as int then Move(54, [])
            else Move(0, [])
  {
    RowsSorted(2);
    RowOf(2).SelectsAmongThree(b);
  }

  lemma SizeDigitRow(b: SByte)
    ensures RowOf(10).Select(b) ==
            if IsHex(b) then Move(10, [AddDigit])
            else if b == CR then Move(11, [])
            else if b == ';' as int then Move(33, [])
            else Move(0, [])
  {
    RowsSorted(10);
    RowOf(10).SelectsAmongThree(b);
  }

  lemma SizeMoreMove(m: Scan, b: SByte)
    requires m.cs == 2 || m.cs == 10
    ensures MoveOn(m, b) ==
            if IsHex(b) then Move(if m.cs == 2 && b == '0' as int then 2 else 10, [AddDigit])
            else if b == CR then Move(if m.cs == 2 then 3 else 11, [])
            else if b == ';' as int then Move(if m.cs == 2 then 54 else 33, [])
            else Move(0, [])
  {
    hide RowOf;
    SizeZeroRow(b);
    SizeDigitRow(b);
  }

  /** The size line goes on: only zeros so far (state 2), or some other digit was seen (state 10). */
  lemma StepSizeMore(m: Scan, b: SByte)
    requires m.cs == 2 || m.cs == 10
    ensures Step(m, b) ==
            if IsHex(b) then
              m.(cs := if m.cs == 2 && b == '0' as int then 2 else 10, size := Wrap(m.size * 16 + DigitValue(b)))
            else if b == CR then m.(cs := if m.cs == 2 then 3 else 11)
            else if b == ';' as int then m.(cs := if m.cs == 2 then 54 else 33)
            else m.(cs := 0)
  {
    SizeMoreMove(m, b);
  }

  /** The line feed that ends a size line, a chunk, the last-chunk line or the body. */
  lemma StepLineFeed(m: Scan)
    requires m.cs == 3 || m.cs == 9 || m.cs == 11 || m.cs == 13
    ensures Step(m, LF) == m.(cs := if m.cs == 3 then 4 else if m.cs == 9 then 67 else if m.cs == 11 then 12 else 1)
  {
    RowsSorted(m.cs);
    RowOf(m.cs).SelectsSingle(0);
  }

  /** In chunk data: bytes are taken while the counter allows, then only CR is. */
  lemma StepData(m: Scan, b: SByte)
    requires m.cs == CHUNK_DATA && m.count <= INT_MAX
    ensures Step(m, b) ==
            if m.count < m.size then
              var taken := m.(count := Wrap(m.count + 1), body := m.body + [b]);
              taken.(cs := if b == CR && taken.count >= m.size then 14 else CHUNK_DATA)
            else
              var over := m.(count := Wrap(m.count + 1));
              over.(cs := if b != CR then 0 else if over.count < m.size then CHUNK_DATA else 13)
  {
    hide AmbiguousRowOf, ExtensionRowOf, LastExtensionRowOf;
    RowsSorted(m.cs);
    RowOf(m.cs).SelectsAmongThree(Key(m, b));
  }

  /** The last data byte was CR: it may stand for the CR of the framing. */
  lemma StepAfterLastCr(m: Scan, b: SByte)
    requires m.cs == 14 && m.count >= m.size
    ensures Step(m, b) ==
            var over := m.(count := Wrap(m.count + 1));
            over.(cs := if b == LF then 1
                        else if b != CR then 0
                        else if over.count < m.size then CHUNK_DATA else 13)
  {
    hide AmbiguousRowOf, ExtensionRowOf, LastExtensionRowOf;
    var row := RowOf(m.cs);
    RowsSorted(m.cs);
    if b == LF {
      row.SelectsSingle(0);
    } else if b == CR {
      row.SelectsSingle(1);
      assert MoveOn(m, b) == Move(13, [Recheck]);
    } else {
      assert !row.Names(Key(m, b)) && !row.Spans(Key(m, b));
    }
  }

  /** The last-chunk line was read: an empty line or a trailer follows. */
  lemma StepAfterLastChunk(m: Scan, b: SByte)
    requires m.cs == 4 && m.count >= m.size
    ensures Step(m, b) ==
            var over := m.(count := Wrap(m.count + 1));
            over.(cs := if b == LF then 0
                        else if b != CR then 5
                        else if over.count < m.size then CHUNK_DATA else 9)
  {
    hide AmbiguousRowOf, ExtensionRowOf, LastExtensionRowOf;
    RowsSorted(m.cs);
    RowOf(m.cs).SelectsAmongThree(Key(m, b));
  }
}
