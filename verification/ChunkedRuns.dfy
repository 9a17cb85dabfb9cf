/**
 Whole runs of the chunked-body scanner: the loop of `http_chunked_parse` and what every reachable
 state satisfies. `ChunkedRoundTrip` builds on it.
 */
module ChunkedRuns {
  import opened Scanner
  import opened ChunkedTable
  import opened ChunkedBody

  predicate Running(m: Scan) {
    m.cs == 0 || Plain(m.cs)
  }

  // ---------- Reachable states ----------

  /**
   What holds of the scanner after every byte of every input: it is never in a state that reads
   a byte in two ways, a chunk that ended in CR is complete, and the last chunk has size zero.
   */
  predicate Unambiguous(m: Scan) {
    && Running(m)
    && (m.cs == 14 ==> m.count == m.size)
    && (m.cs == 2 || m.cs == 3 || m.cs == 4 || 54 <= m.cs <= 59 ==> m.count == m.size == 0)
    && -INT_MAX - 1 <= m.count <= INT_MAX
    && -INT_MAX - 1 <= m.size <= INT_MAX
  }

  lemma StepKeepsUnambiguous(m: Scan, b: SByte)
    requires Unambiguous(m) && m.cs != 0
    ensures Unambiguous(Step(m, b))
  {
    hide Step, RowOf;
    if Quiet(m.cs) {
      StepQuiet(m, b);
    } else if m.cs == 1 || m.cs == 67 {
      StepSizeStart(m, b);
    } else if m.cs == 2 || m.cs == 10 {
      StepSizeMore(m, b);
    } else if m.cs == 12 {
      StepData(m, b);
    } else if m.cs == 14 {
      StepAfterLastCr(m, b);
    } else {
      StepAfterLastChunk(m, b);
    }
  }

  /** The scanner on input `s`: it stops at the error state. */
  ghost function Run(m: Scan, s: seq<SByte>): Scan
    requires Unambiguous(m)
    decreases |s|
  {
    if s == [] || m.cs == 0 then m
    else
      StepKeepsUnambiguous(m, s[0]);
      Run(Step(m, s[0]), s[1..])
  }

  lemma {:induction false} RunConcat(m: Scan, s: seq<SByte>, t: seq<SByte>)
    requires Unambiguous(m)
    ensures Unambiguous(Run(m, s))
    ensures Run(m, s + t) == Run(Run(m, s), t)
    decreases |s|
  {
    if s == [] {
      assert s + t == t;
    } else if m.cs != 0 {
      StepKeepsUnambiguous(m, s[0]);
      assert (s + t)[1..] == s[1..] + t;
      RunConcat(Step(m, s[0]), s[1..], t);
    }
  }

  lemma RunOne(m: Scan, b: SByte, s: seq<SByte>)
    requires Unambiguous(m) && m.cs != 0
    ensures Unambiguous(Step(m, b))
    ensures Run(m, [b] + s) == Run(Step(m, b), s)
  {
    StepKeepsUnambiguous(m, b);
    assert ([b] + s)[1..] == s;
  }

  lemma RunNothing(m: Scan)
    requires Unambiguous(m)
    ensures Run(m, []) == m
  {
  }

  lemma RunByte(m: Scan, b: SByte)
    requires Unambiguous(m) && m.cs != 0
    ensures Unambiguous(Step(m, b))
    ensures Run(m, [b]) == Step(m, b)
  {
    StepKeepsUnambiguous(m, b);
    assert [b][1..] == [];
  }

  /** No input, accepted or not, drives the scanner into one of the two-way states. */
  lemma TwoWayStatesUnreachable(s: seq<SByte>)
    ensures Unambiguous(Run(INIT, s))
  {
    RunConcat(INIT, s, []);
  }

  // ---------- The loop ----------

  /** One round of the loop: look the byte up, enter the next state, run the actions of the move. */
  method Advance(m: Scan, b: SByte) returns (next: Scan)
    requires Unambiguous(m) && m.cs != 0
    ensures next == Step(m, b)
  {
    RowsSorted(m.cs);
    var move := Lookup(RowOf(m.cs), Key(m, b));
    next := Perform(m.(cs := move.target, count := Counted(m)), move.actions, b);
  }

  method Perform(m: Scan, actions: seq<Action>, b: SByte) returns (next: Scan)
    ensures next == Act(m, actions, b)
  {
    next := m;
    var i := 0;
    while i < |actions|
      invariant 0 <= i <= |actions|
      invariant Act(next, actions[i..], b) == Act(m, actions, b)
      decreases |actions| - i
    {
      assert actions[i..][1..] == actions[i + 1..];
      match actions[i] {
        case AddDigit => next := next.(size := Wrap(next.size * 16 + DigitValue(b)));
        case StartSize => next := next.(count := 0, size := 0);
        case AppendByte => next := next.(body := next.body + [b]);
        case Recheck =>
          if next.count < next.size {
            next := next.(cs := CHUNK_DATA);
            return;
          }
      }
      i := i + 1;
    }
  }

  /** `http_chunked_parse`: whether the input ended in a final state, and the bytes decoded. */
  method HttpChunkedParse(messageBody: seq<SByte>) returns (accepted: bool, parsedBody: seq<SByte>)
    ensures accepted == (Run(INIT, messageBody).cs >= FIRST_FINAL)
    ensures parsedBody == Run(INIT, messageBody).body
  {
    var m := INIT;
    var p := 0;
    while p < |messageBody| && m.cs != 0
      invariant 0 <= p <= |messageBody|
      invariant Unambiguous(m)
      invariant Run(INIT, messageBody) == Run(m, messageBody[p..])
      decreases |messageBody| - p
    {
      StepKeepsUnambiguous(m, messageBody[p]);
      assert messageBody[p..][1..] == messageBody[p + 1..];
      m := Advance(m, messageBody[p]);
      p := p + 1;
    }
    accepted := m.cs >= FIRST_FINAL;
    parsedBody := m.body;
  }
}
