/**
 Edit distance by its meaning: the least number of insertions, deletions and changes that turn
 one string into another. The recursive formula behind the two dynamic programs is shown to
 compute this number, and the number is shown to be a metric.
 */
module EditScripts {

  function Min(a: int, b: int): int {
    if a < b then a else b
  }

  /** The textbook recursion on the last characters. */
  function Distance(s: string, t: string): (d: nat)
    decreases |s| + |t|
  {
    if s == [] then |t|
    else if t == [] then |s|
    else
      var m, n := |s| - 1, |t| - 1;
      var dropBoth := Distance(s[..m], t[..n]) + if s[m] == t[n] then 0 else 1;
      Min(Min(Distance(s[..m], t) + 1, Distance(s, t[..n]) + 1), dropBoth)
  }

  // ---------- Scripts ----------

  datatype Edit = Keep(c: char) | Change(was: char, c: char) | Insert(c: char) | Delete(was: char)
  {
    function Takes(): string {
      match this
      case Keep(c) => [c]
      case Change(was, _) => [was]
      case Insert(_) => []
      case Delete(was) => [was]
    }

    function Gives(): string {
      match this
      case Keep(c) => [c]
      case Change(_, c) => [c]
      case Insert(c) => [c]
      case Delete(_) => []
    }

    function Cost(): nat {
      if Keep? then 0 else 1
    }
  }

  type Script = seq<Edit>

  function Source(es: Script): string {
    if es == [] then [] else Source(es[..|es| - 1]) + es[|es| - 1].Takes()
  }

  function Target(es: Script): string {
    if es == [] then [] else Target(es[..|es| - 1]) + es[|es| - 1].Gives()
  }

  function Cost(es: Script): nat {
    if es == [] then 0 else Cost(es[..|es| - 1]) + es[|es| - 1].Cost()
  }

  predicate Turns(es: Script, s: string, t: string) {
    Source(es) == s && Target(es) == t
  }

  lemma Extend(es: Script, e: Edit)
    ensures Source(es + [e]) == Source(es) + e.Takes()
    ensures Target(es + [e]) == Target(es) + e.Gives()
    ensures Cost(es + [e]) == Cost(es) + e.Cost()
  {
    assert (es + [e])[..|es|] == es;
  }

  lemma DistanceStep(s: string, t: string, c: char, d: char)
    ensures Distance(s + [c], t) <= Distance(s, t) + 1
    ensures Distance(s, t + [d]) <= Distance(s, t) + 1
    ensures Distance(s + [c], t + [d]) <= Distance(s, t) + if c == d then 0 else 1
  {
    assert (s + [c])[..|s|] == s && (t + [d])[..|t|] == t;
  }

  /** No script is cheaper than the recursion says. */
  lemma {:induction false} NoScriptIsCheaper(es: Script)
    ensures Distance(Source(es), Target(es)) <= Cost(es)
  {
    hide Distance;
    if es == [] {
      NoEditsNeeded();
    } else {
      var rest, e := es[..|es| - 1], es[|es| - 1];
      NoScriptIsCheaper(rest);
      var s, t := Source(rest), Target(rest);
      assert s + [] == s && t + [] == t;
      match e {
        case Keep(c) => DistanceStep(s, t, c, c);
        case Change(was, c) => DistanceStep(s, t, was, c);
        case Insert(c) => DistanceStep(s, t, c, c);
        case Delete(was) => DistanceStep(s, t, was, was);
      }
    }
  }

  lemma NoEditsNeeded()
    ensures Distance([], []) == 0
  {
  }

  /** The last edit of a cheapest script, and the strings before it. */
  lemma LastEdit(s: string, t: string) returns (e: Edit, s': string, t': string)
    requires s != [] || t != []
    ensures s == s' + e.Takes() && t == t' + e.Gives() && |s'| + |t'| < |s| + |t|
    ensures Distance(s, t) == Distance(s', t') + e.Cost()
  {
    var m, n := |s| - 1, |t| - 1;
    if t == [] || (s != [] && Distance(s, t) == Distance(s[..m], t) + 1) {
      e, s', t' := Delete(s[m]), s[..m], t;
    } else if s == [] || Distance(s, t) == Distance(s, t[..n]) + 1 {
      e, s', t' := Insert(t[n]), s, t[..n];
    } else {
      e, s', t' := if s[m] == t[n] then Keep(t[n]) else Change(s[m], t[n]), s[..m], t[..n];
    }
  }

  /** Some script costs just what the recursion says. */
  lemma {:induction false} SomeScriptIsAsCheap(s: string, t: string) returns (es: Script)
    ensures Turns(es, s, t) && Cost(es) == Distance(s, t)
    decreases |s| + |t|
  {
    if s == [] && t == [] {
      es := [];
    } else {
      var e, s', t' := LastEdit(s, t);
      hide Distance;
      es := SomeScriptIsAsCheap(s', t');
      Extend(es, e);
      es := es + [e];
    }
  }

  /** The recursion computes the cost of the cheapest script. */
  lemma DistanceIsLeastCost(s: string, t: string)
    ensures exists es :: Turns(es, s, t) && Cost(es) == Distance(s, t)
    ensures forall es :: Turns(es, s, t) ==> Distance(s, t) <= Cost(es)
  {
    var best := SomeScriptIsAsCheap(s, t);
    forall es | Turns(es, s, t)
      ensures Distance(s, t) <= Cost(es)
    {
      NoScriptIsCheaper(es);
    }
  }

  // ---------- The metric laws ----------

  function InvertEdit(e: Edit): Edit {
    match e
    case Keep(c) => e
    case Change(was, c) => Change(c, was)
    case Insert(c) => Delete(c)
    case Delete(was) => Insert(was)
  }

  lemma {:induction false} Invert(es: Script) returns (back: Script)
    ensures Turns(back, Target(es), Source(es)) && Cost(back) == Cost(es)
  {
    if es == [] {
      back := [];
    } else {
      back := Invert(es[..|es| - 1]);
      var e := InvertEdit(es[|es| - 1]);
      Extend(back, e);
      back := back + [e];
    }
  }

  lemma {:induction false} DistanceIsSymmetric(s: string, t: string)
    ensures Distance(s, t) == Distance(t, s)
  {
    var there := SomeScriptIsAsCheap(s, t);
    var thereInverted := Invert(there);
    NoScriptIsCheaper(thereInverted);
    var back := SomeScriptIsAsCheap(t, s);
    var backInverted := Invert(back);
    NoScriptIsCheaper(backInverted);
  }

  /** Two scripts that meet in the middle make one script. */
  lemma {:induction false} Compose(a: Script, b: Script) returns (c: Script)
    requires Target(a) == Source(b)
    ensures Turns(c, Source(a), Target(b)) && Cost(c) <= Cost(a) + Cost(b)
    decreases |a| + |b|
  {
    if a != [] && a[|a| - 1].Delete? {
      c := ComposeDelete(a, b);
    } else if b != [] && b[|b| - 1].Insert? {
      c := ComposeInsert(a, b);
    } else if a == [] || b == [] {
      c := [];
    } else {
      c := ComposeAtLast(a, b);
    }
  }

  lemma {:induction false} ComposeDelete(a: Script, b: Script) returns (c: Script)
    requires a != [] && a[|a| - 1].Delete? && Target(a) == Source(b)
    ensures Turns(c, Source(a), Target(b)) && Cost(c) <= Cost(a) + Cost(b)
    decreases |a| + |b|, 0
  {
    var m := |a| - 1;
    assert Target(a) == Target(a[..m]) + [] == Target(a[..m]);
    c := Compose(a[..m], b);
    Extend(c, a[m]);
    assert Target(c) + [] == Target(c);
    c := c + [a[m]];
  }

  lemma {:induction false} ComposeInsert(a: Script, b: Script) returns (c: Script)
    requires b != [] && b[|b| - 1].Insert? && Target(a) == Source(b)
    ensures Turns(c, Source(a), Target(b)) && Cost(c) <= Cost(a) + Cost(b)
    decreases |a| + |b|, 0
  {
    var n := |b| - 1;
    assert Source(b) == Source(b[..n]) + [] == Source(b[..n]);
    c := Compose(a, b[..n]);
    Extend(c, b[n]);
    assert Source(c) + [] == Source(c);
    c := c + [b[n]];
  }

  lemma MeetAtLast(a: Script, b: Script)
    requires a != [] && !a[|a| - 1].Delete? && b != [] && !b[|b| - 1].Insert? && Target(a) == Source(b)
    ensures var m, n := |a| - 1, |b| - 1;
            Target(a[..m]) == Source(b[..n]) && b[n].Takes() == [a[m].c]
  {
    var m, n := |a| - 1, |b| - 1;
    var middle := Target(a);
    assert middle == Target(a[..m]) + [a[m].c] == Source(b[..n]) + b[n].Takes();
    assert middle[..|middle| - 1] == Target(a[..m]) == Source(b[..n]);
    assert b[n].Takes() == [middle[|middle| - 1]] == [a[m].c];
  }

  /** The last edit of `a` gives the character that the last edit of `b` takes. */
  lemma {:induction false} ComposeAtLast(a: Script, b: Script) returns (c: Script)
    requires a != [] && !a[|a| - 1].Delete? && b != [] && !b[|b| - 1].Insert?
    requires Target(a) == Source(b)
    ensures Turns(c, Source(a), Target(b)) && Cost(c) <= Cost(a) + Cost(b)
    decreases |a| + |b|, 0
  {
    var m, n := |a| - 1, |b| - 1;
    var e, f := a[m], b[n];
    MeetAtLast(a, b);
    c := Compose(a[..m], b[..n]);
    if e.Insert? && f.Delete? {
      assert Source(c) + [] == Source(c) && Target(c) + [] == Target(c);
    } else {
      var g := if e.Insert? then Insert(f.c)
               else if f.Delete? then Delete(e.Takes()[0])
               else if e.Takes() == f.Gives() then Keep(f.c)
               else Change(e.Takes()[0], f.c);
      Extend(c, g);
      c := c + [g];
    }
  }

  lemma {:induction false} TriangleInequality(s: string, t: string, u: string)
    ensures Distance(s, u) <= Distance(s, t) + Distance(t, u)
  {
    var a := SomeScriptIsAsCheap(s, t);
    var b := SomeScriptIsAsCheap(t, u);
    var c := Compose(a, b);
    NoScriptIsCheaper(c);
  }

  lemma {:induction false} DistanceBounds(s: string, t: string)
    ensures |s| - |t| <= Distance(s, t) && |t| - |s| <= Distance(s, t)
    ensures Distance(s, t) <= |s| || Distance(s, t) <= |t|
    decreases |s| + |t|
  {
    if s != [] && t != [] {
      var m, n := |s| - 1, |t| - 1;
      DistanceBounds(s[..m], t);
      DistanceBounds(s, t[..n]);
      DistanceBounds(s[..m], t[..n]);
    }
  }

  lemma {:induction false} ZeroOnlyForEqual(s: string, t: string)
    ensures Distance(s, t) == 0 <==> s == t
    decreases |s| + |t|
  {
    if s != [] && t != [] {
      var m, n := |s| - 1, |t| - 1;
      ZeroOnlyForEqual(s[..m], t[..n]);
      assert s == s[..m] + [s[m]] && t == t[..n] + [t[n]];
    }
  }

  /** One more character on either side changes the distance by at most one. */
  lemma NeighboursDifferByOne(s: string, t: string, c: char)
    ensures -1 <= Distance(s + [c], t) - Distance(s, t) <= 1
    ensures -1 <= Distance(s, t + [c]) - Distance(s, t) <= 1
  {
    OneInsertion(s, c);
    OneInsertion(t, c);
    TriangleInequality(s, s + [c], t);
    TriangleInequality(s + [c], s, t);
    TriangleInequality(s, t, t + [c]);
    TriangleInequality(s, t + [c], t);
  }

  lemma OneInsertion(s: string, c: char)
    ensures Distance(s, s + [c]) <= 1 && Distance(s + [c], s) <= 1
  {
    ZeroOnlyForEqual(s, s);
    var es := SomeScriptIsAsCheap(s, s);
    Extend(es, Insert(c));
    NoScriptIsCheaper(es + [Insert(c)]);
    assert s + [] == s;
    DistanceIsSymmetric(s, s + [c]);
  }

  /** On equal last characters the diagonal neighbour alone decides. */
  lemma DiagonalOnMatch(s: string, t: string, c: char)
    ensures Distance(s + [c], t + [c]) == Distance(s, t)
  {
    assert (s + [c])[..|s|] == s && (t + [c])[..|t|] == t;
    NeighboursDifferByOne(s, t, c);
  }
}
