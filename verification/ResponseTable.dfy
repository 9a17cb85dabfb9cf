/**
 The transition table of the response-head scanner, one row per state, and the grammar it encodes.
 State 0 is the error state: the scanner stops there, so it owns no row.
 */
module ResponseTable {
  import opened Scanner

  datatype Action = AddStatusDigit | AppendName | AppendValue | StoreHeader | MarkBody

  const START: nat := 1
  const FIRST_FINAL: nat := 21
  const IN_BODY: nat := 22

  function RowOf(cs: nat): Row<Action>
    requires 1 <= cs <= IN_BODY
  {
    match cs
    case 1 => Row(
        [Single(72, Move(2, []))],
        [],
        Move(0, []))
    case 2 => Row(
        [Single(84, Move(3, []))],
        [],
        Move(0, []))
    case 3 => Row(
        [Single(84, Move(4, []))],
        [],
        Move(0, []))
    case 4 => Row(
        [Single(80, Move(5, []))],
        [],
        Move(0, []))
    case 5 => Row(
        [Single(47, Move(6, []))],
        [],
        Move(0, []))
    case 6 => Row(
        [Single(49, Move(7, []))],
        [],
        Move(0, []))
    case 7 => Row(
        [Single(46, Move(8, []))],
        [],
        Move(0, []))
    case 8 => Row(
        [],
        [Range(48, 57, Move(9, []))],
        Move(0, []))
    case 9 => Row(
        [Single(32, Move(10, []))],
        [],
        Move(0, []))
    case 10 => Row(
        [Single(32, Move(10, []))],
        [Range(48, 57, Move(11, [AddStatusDigit]))],
        Move(0, []))
    case 11 => Row(
        [Single(32, Move(12, []))],
        [Range(48, 57, Move(11, [AddStatusDigit]))],
        Move(0, []))
    case 12 => Row(
        [Single(10, Move(0, [])), Single(13, Move(0, [])), Single(94, Move(0, []))],
        [],
        Move(13, []))
    case 13 => Row(
        [Single(10, Move(0, [])), Single(13, Move(14, [])), Single(94, Move(0, []))],
        [],
        Move(13, []))
    case 14 => Row(
        [Single(10, Move(15, []))],
        [],
        Move(0, []))
    case 15 => Row(
        [Single(13, Move(20, [])), Single(32, Move(0, [])), Single(58, Move(0, []))],
        [Range(9, 10, Move(0, []))],
        Move(16, [AppendName]))
    case 16 => Row(
        [Single(13, Move(0, [])), Single(32, Move(0, [])), Single(58, Move(17, []))],
        [Range(9, 10, Move(0, []))],
        Move(16, [AppendName]))
    case 17 => Row(
        [Single(10, Move(0, [])), Single(13, Move(14, [StoreHeader])), Single(32, Move(17, []))],
        [],
        Move(18, [AppendValue]))
    case 18 => Row(
        [Single(10, Move(0, [])), Single(13, Move(0, []))],
        [],
        Move(19, [AppendValue]))
    case 19 => Row(
        [Single(10, Move(0, [])), Single(13, Move(14, [StoreHeader]))],
        [],
        Move(19, [AppendValue]))
    case 20 => Row(
        [Single(10, Move(21, []))],
        [],
        Move(0, []))
    case 21 => Row(
        [],
        [],
        Move(22, [MarkBody]))
    case _ => Row(
        [],
        [],
        Move(22, []))
  }

  const HTAB: SByte := 9
  const LF: SByte := 10
  const CR: SByte := 13
  const SPACE: SByte := 32
  const COLON: SByte := 58
  const CARET: SByte := 94

  predicate IsDigit(b: SByte) {
    '0' as int <= b <= '9' as int
  }

  /** What may stand in a header name. */
  predicate IsNameByte(b: SByte) {
    b != HTAB && b != LF && b != CR && b != SPACE && b != COLON
  }

  /** What may stand in a reason phrase. */
  predicate IsReasonByte(b: SByte) {
    b != LF && b != CR && b != CARET
  }

  const MAGIC: seq<SByte> := [72, 84, 84, 80, 47, 49, 46]  // HTTP/1.

  const FAIL: Move<Action> := Move(0, [])

  /** The grammar of a response, state by state: the move on byte `b`. */
  function Grammar(cs: nat, b: SByte): Move<Action>
    requires 1 <= cs <= IN_BODY
  {
    if cs <= 7 then  // the version literal
      if b == MAGIC[cs - 1] then Move(cs + 1, []) else FAIL
    else match cs
      case 8 => if IsDigit(b) then Move(9, []) else FAIL
      case 9 => if b == SPACE then Move(10, []) else FAIL
      case 10 =>
        if b == SPACE then Move(10, []) else if IsDigit(b) then Move(11, [AddStatusDigit]) else FAIL
      case 11 =>
        if b == SPACE then Move(12, []) else if IsDigit(b) then Move(11, [AddStatusDigit]) else FAIL
      case 12 => if IsReasonByte(b) then Move(13, []) else FAIL
      case 13 => if IsReasonByte(b) then Move(13, []) else if b == CR then Move(14, []) else FAIL
      case 14 => if b == LF then Move(15, []) else FAIL
      case 15 =>  // a header line or the empty line
        if IsNameByte(b) then Move(16, [AppendName]) else if b == CR then Move(20, []) else FAIL
      case 16 =>
        if IsNameByte(b) then Move(16, [AppendName]) else if b == COLON then Move(17, []) else FAIL
      case 17 =>  // spaces before the value
        if b == SPACE then Move(17, [])
        else if b == CR then Move(14, [StoreHeader])
        else if b == LF then FAIL
        else Move(18, [AppendValue])
      case 18 =>  // one byte of the value was read: another must follow
        if b == CR || b == LF then FAIL else Move(19, [AppendValue])
      case 19 =>
        if b == CR then Move(14, [StoreHeader]) else if b == LF then FAIL else Move(19, [AppendValue])
      case 20 => if b == LF then Move(21, []) else FAIL
      case 21 => Move(IN_BODY, [MarkBody])
      case _ => Move(IN_BODY, [])
  }

  lemma RowsSorted(cs: nat)
    requires 1 <= cs <= IN_BODY
    ensures RowOf(cs).Sorted()
  {
  }

  /** The table encodes the grammar. */
  lemma TableIsGrammar(cs: nat, b: SByte)
    requires 1 <= cs <= IN_BODY
    ensures RowOf(cs).Select(b) == Grammar(cs, b)
  {
    if cs <= 11 {
      TableIsGrammarInStatusLine(cs, b);
    } else if cs <= 14 {
      TableIsGrammarInReason(cs, b);
    } else if cs == 15 {
      TableIsGrammarAtLineStart(b);
    } else if cs == 16 {
      TableIsGrammarInName(b);
    } else if cs <= 19 {
      TableIsGrammarInValue(cs, b);
    } else {
      TableIsGrammarAtEnd(cs, b);
    }
  }

  lemma TableIsGrammarInStatusLine(cs: nat, b: SByte)
    requires 1 <= cs <= 11
    ensures RowOf(cs).Select(b) == Grammar(cs, b)
  {
    var row := RowOf(cs);
    RowsSorted(cs);
    if |row.singles| == 1 && b == row.singles[0].key {
      row.SelectsSingle(0);
    } else if |row.ranges| == 1 && IsDigit(b) {
      assert !row.Names(b);
      row.SelectsRange(b, 0);
    } else {
      assert !row.Names(b) && !row.Spans(b);
    }
  }

  lemma TableIsGrammarInReason(cs: nat, b: SByte)
    requires 12 <= cs <= 14
    ensures RowOf(cs).Select(b) == Grammar(cs, b)
  {
    var row := RowOf(cs);
    RowsSorted(cs);
    if b == LF {
      row.SelectsSingle(0);
    } else if cs <= 13 && b == CR {
      row.SelectsSingle(1);
    } else if cs <= 13 && b == CARET {
      row.SelectsSingle(2);
    } else {
      assert !row.Names(b) && !row.Spans(b);
    }
  }

  lemma TableIsGrammarAtLineStart(b: SByte)
    ensures RowOf(15).Select(b) == Grammar(15, b)
  {
    var row := RowOf(15);
    RowsSorted(15);
    if b == CR {
      row.SelectsSingle(0);
    } else if b == SPACE {
      row.SelectsSingle(1);
    } else if b == COLON {
      row.SelectsSingle(2);
    } else if b == HTAB || b == LF {
      assert !row.Names(b);
      row.SelectsRange(b, 0);
    } else {
      assert !row.Names(b) && !row.Spans(b);
    }
  }

  lemma TableIsGrammarInName(b: SByte)
    ensures RowOf(16).Select(b) == Grammar(16, b)
  {
    var row := RowOf(16);
    RowsSorted(16);
    if b == CR {
      row.SelectsSingle(0);
    } else if b == SPACE {
      row.SelectsSingle(1);
    } else if b == COLON {
      row.SelectsSingle(2);
    } else if b == HTAB || b == LF {
      assert !row.Names(b);
      row.SelectsRange(b, 0);
    } else {
      assert !row.Names(b) && !row.Spans(b);
    }
  }

  lemma TableIsGrammarInValue(cs: nat, b: SByte)
    requires 17 <= cs <= 19
    ensures RowOf(cs).Select(b) == Grammar(cs, b)
  {
    var row := RowOf(cs);
    RowsSorted(cs);
    if b == LF {
      row.SelectsSingle(0);
    } else if b == CR {
      row.SelectsSingle(1);
    } else if cs == 17 && b == SPACE {
      row.SelectsSingle(2);
    } else {
      assert !row.Names(b) && !row.Spans(b);
    }
  }

  lemma TableIsGrammarAtEnd(cs: nat, b: SByte)
    requires 20 <= cs <= IN_BODY
    ensures RowOf(cs).Select(b) == Grammar(cs, b)
  {
    var row := RowOf(cs);
    RowsSorted(cs);
    if cs == 20 && b == LF {
      row.SelectsSingle(0);
    } else {
      assert !row.Names(b) && !row.Spans(b);
    }
  }
}
