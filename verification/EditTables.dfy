/**
 The two dynamic programs of `vdom_content_util.cpp` and the title similarity built on them.
 Both fill a table of the distances between all prefixes.
 */
module EditTables {
  import opened EditScripts

  /** `QMIN3`. */
  function QMin3(a: int, b: int, c: int): int {
    if a < b then (if a < c then a else c) else if b < c then b else c
  }

  /** The recursion in terms of table cells. */
  lemma Cell(s: string, t: string, i: nat, j: nat)
    requires 0 < i <= |s| && 0 < j <= |t|
    ensures Distance(s[..i], t[..j]) ==
            Min(Min(Distance(s[..i - 1], t[..j]) + 1, Distance(s[..i], t[..j - 1]) + 1),
                Distance(s[..i - 1], t[..j - 1]) + if s[i - 1] == t[j - 1] then 0 else 1)
    ensures s[i - 1] == t[j - 1] ==> Distance(s[..i], t[..j]) == Distance(s[..i - 1], t[..j - 1])
  {
    assert s[..i][..i - 1] == s[..i - 1] && t[..j][..j - 1] == t[..j - 1];
    if s[i - 1] == t[j - 1] {
      assert s[..i] == s[..i - 1] + [s[i - 1]] && t[..j] == t[..j - 1] + [t[j - 1]];
      DiagonalOnMatch(s[..i - 1], t[..j - 1], s[i - 1]);
    }
  }

  lemma Border(s: string, t: string)
    ensures forall i :: 0 <= i <= |s| ==> Distance(s[..i], t[..0]) == i
    ensures forall j :: 0 <= j <= |t| ==> Distance(s[..0], t[..j]) == j
  {
  }

  // ---------- The two-dimensional table ----------

  /** `Util::edit_distance`. */
  method EditDistance(s1: string, s2: string) returns (d: nat)
    ensures d == Distance(s1, s2)
  {
    hide Distance;
    var table := new int[|s1| + 1, |s2| + 1];
    table[0, 0] := 0;
    for i := 1 to |s1| + 1
      invariant forall a :: 0 <= a < i ==> table[a, 0] == a
    {
      table[i, 0] := i;
    }
    for j := 1 to |s2| + 1
      invariant forall a :: 0 <= a <= |s1| ==> table[a, 0] == a
      invariant forall b :: 0 <= b < j ==> table[0, b] == b
    {
      table[0, j] := j;
    }
    Border(s1, s2);
    for i := 1 to |s1| + 1
      invariant forall a, b :: 0 <= a <= |s1| && 0 <= b <= |s2| && (a < i || b == 0) ==>
                  table[a, b] == Distance(s1[..a], s2[..b])
    {
      for j := 1 to |s2| + 1
        invariant forall a, b :: 0 <= a <= |s1| && 0 <= b <= |s2| && (a < i || b == 0 || (a == i && b < j)) ==>
                    table[a, b] == Distance(s1[..a], s2[..b])
      {
        table[i, j] := Min(Min(table[i - 1, j] + 1, table[i, j - 1] + 1),
                           table[i - 1, j - 1] + if s1[i - 1] == s2[j - 1] then 0 else 1);
        Cell(s1, s2, i, j);
      }
    }
    assert s1[..|s1|] == s1 && s2[..|s2|] == s2;
    d := table[|s1|, |s2|];
  }

  // ---------- Offsets in a flat table ----------

  lemma RowsAscend(w: nat, q: int, r: int, q': int, r': int)
    requires 0 <= r < w && 0 <= r' < w && q < q'
    ensures q * w + r < q' * w + r'
  {
    var a := q' - q - 1;
    assert a * w >= 0;
    assert q' * w == q * w + w + a * w by {
      assert q' == q + 1 + a;
    }
  }

  /** The cell (i, j) of a table with rows of `w` cells lies at offset i * w + j. */
  lemma Offset(w: nat, i: nat, j: nat)
    requires j < w
    ensures (i * w + j) / w == i && (i * w + j) % w == j
  {
    var k := i * w + j;
    var q, r := k / w, k % w;
    assert k == q * w + r;
    if q < i {
      RowsAscend(w, q, r, i, j);
    } else if i < q {
      RowsAscend(w, i, j, q, r);
    }
  }

  /** One cell on, and one row on. */
  lemma Neighbours(w: nat, k: nat)
    requires 0 < w
    ensures (k + w) / w == k / w + 1 && (k + w) % w == k % w
    ensures k % w + 1 < w ==> (k + 1) / w == k / w && (k + 1) % w == k % w + 1
    ensures k % w + 1 == w ==> (k + 1) / w == k / w + 1 && (k + 1) % w == 0
  {
    var q, r := k / w, k % w;
    assert k == q * w + r;
    assert (q + 1) * w == q * w + w;
    Offset(w, q + 1, r);
    if r + 1 < w {
      Offset(w, q, r + 1);
    } else {
      Offset(w, q + 1, 0);
    }
  }

  /** The three neighbours that a cell inside the border looks back at. */
  lemma LookBack(w: nat, k: nat)
    requires 0 < w && 1 <= k / w && 1 <= k % w
    ensures w + 1 <= k
    ensures (k - 1) / w == k / w && (k - 1) % w == k % w - 1
    ensures (k - w) / w == k / w - 1 && (k - w) % w == k % w
    ensures (k - w - 1) / w == k / w - 1 && (k - w - 1) % w == k % w - 1
  {
    RowsFit(w, 1, k);
    Neighbours(w, 0);
    Neighbours(w, k - 1);
    Neighbours(w, k - w);
    Neighbours(w, k - w - 1);
  }

  /** A table of `rows` rows holds exactly the offsets of those rows. */
  lemma RowsFit(w: nat, rows: nat, k: nat)
    requires 0 < w
    ensures k < rows * w <==> k / w < rows
  {
    var q, r := k / w, k % w;
    assert k == q * w + r;
    if q < rows {
      RowsAscend(w, q, r, rows, 0);
    } else if rows < q {
      RowsAscend(w, rows, 0, q, r);
    }
  }

  // ---------- The flat table ----------

  predicate Fits(d: array<int>, s: string, t: string, w: nat) {
    w == |t| + 1 && d.Length == (|s| + 1) * w
  }

  /** The part of the table that is filled: everything before `dp`, the first row, the first column. */
  ghost predicate Filled(d: array<int>, s: string, t: string, w: nat, dp: int)
    requires Fits(d, s, t, w)
    reads d
  {
    forall k: nat :: k / w <= |s| && k < d.Length && (k < dp || k < w || k % w == 0) ==>
      d[k] == Distance(s[..k / w], t[..k % w])
  }

  /** `Util::levenshtein`: one pointer walks over the table row by row. */
  method Levenshtein(s1: string, s2: string) returns (res: int)
    ensures res == Distance(s1, s2)
  {
    var l1, l2 := |s1|, |s2|;
    if l1 == 0 {
      return l2;
    } else if l2 == 0 {
      return l1;
    }
    var w := l2 + 1;
    var d := new int[(l1 + 1) * w];
    FillBorder(d, s1, s2, w);
    var dp := FillInside(d, s1, s2, w);
    LastCell(w, l1, dp);
    assert s1[..l1] == s1 && s2[..l2] == s2;
    res := d[dp - 2];
  }

  /** The nested loops; the pointer ends one past the end of the table. */
  method FillInside(d: array<int>, s1: string, s2: string, w: nat) returns (dp: nat)
    requires Fits(d, s1, s2, w) && s1 != [] && s2 != []
    requires Filled(d, s1, s2, w, w + 1)
    modifies d
    ensures Filled(d, s1, s2, w, dp)
    ensures dp / w == |s1| + 1 && dp % w == 1
  {
    hide Distance, Filled;
    dp := w + 1;
    Offset(w, 1, 1);
    for i := 1 to |s1| + 1
      invariant dp / w == i && dp % w == 1
      invariant Filled(d, s1, s2, w, dp)
    {
      for j := 1 to |s2| + 1
        invariant if j <= |s2| then dp / w == i && dp % w == j else dp / w == i + 1 && dp % w == 0
        invariant Filled(d, s1, s2, w, dp)
      {
        FillOne(d, s1, s2, w, i, j, dp);
        Neighbours(w, dp);
        dp := dp + 1;
      }
      SkipBorder(d, s1, s2, w, dp);
      Neighbours(w, dp);
      dp := dp + 1;
    }
  }

  /** The first cell of a row is filled beforehand. */
  lemma SkipBorder(d: array<int>, s1: string, s2: string, w: nat, dp: nat)
    requires Fits(d, s1, s2, w) && dp % w == 0
    requires Filled(d, s1, s2, w, dp)
    ensures Filled(d, s1, s2, w, dp + 1)
  {
  }

  lemma LastCell(w: nat, l1: nat, dp: nat)
    requires w > 1 && dp / w == l1 + 1 && dp % w == 1
    ensures dp == (l1 + 1) * w + 1 && 2 <= dp
    ensures (dp - 2) / w == l1 && (dp - 2) % w == w - 1
  {
    assert dp == dp / w * w + dp % w;
    assert (l1 + 1) * w >= w;
    Neighbours(w, dp - 2);
    Offset(w, l1, w - 1);
    assert (l1 + 1) * w == l1 * w + w;
  }

  /** The first column, then the first row. */
  method FillBorder(d: array<int>, s1: string, s2: string, w: nat)
    requires Fits(d, s1, s2, w) && w > 1
    modifies d
    ensures Filled(d, s1, s2, w, w + 1)
  {
    hide Distance;
    forall k: nat
      ensures k < d.Length <==> k / w < |s1| + 1
    {
      RowsFit(w, |s1| + 1, k);
    }
    hide Fits;
    FillColumn(d, w, |s1| + 1);
    var dp := 1;
    for j := 1 to w
      invariant dp == j
      invariant forall k: nat :: k < d.Length && k / w <= |s1| && k % w == 0 ==> d[k] == k / w
      invariant forall k: nat :: k < j ==> d[k] == k
    {
      Offset(w, 0, j);
      d[dp] := j;
      dp := dp + 1;
    }
    FirstRow(w);
    Border(s1, s2);
    Neighbours(w, 0);
  }

  method FillColumn(d: array<int>, w: nat, rows: nat)
    requires 1 < w && 0 < rows
    requires forall k: nat :: k < d.Length <==> k / w < rows
    modifies d
    ensures w <= d.Length
    ensures forall k: nat :: k < d.Length && k / w < rows && k % w == 0 ==> d[k] == k / w
  {
    Neighbours(w, 0);
    SameCell(w, 0);
    d[0] := 0;
    var dp := w;
    for i := 1 to rows
      invariant dp / w == i && dp % w == 0
      invariant forall k: nat :: k < d.Length && k / w < i && k % w == 0 ==> d[k] == k / w
    {
      d[dp] := i;
      SameCell(w, dp);
      Neighbours(w, dp);
      dp := dp + w;
    }
    Offset(w, 0, w - 1);
  }

  lemma SameCell(w: nat, k: nat)
    requires 0 < w
    ensures forall l: nat :: l / w == k / w && l % w == k % w ==> l == k
  {
  }

  lemma FirstRow(w: nat)
    requires 0 < w
    ensures forall k: nat :: k < w ==> k / w == 0 && k % w == k
  {
    forall k: nat | k < w
      ensures k / w == 0 && k % w == k
    {
      Offset(w, 0, k);
    }
  }

  /** One cell: the diagonal alone on a match, else the least of three neighbours plus one. */
  method FillOne(d: array<int>, s1: string, s2: string, w: nat, i: nat, j: nat, dp: nat)
    requires Fits(d, s1, s2, w)
    requires 1 <= i <= |s1| && 1 <= j <= |s2| && dp / w == i && dp % w == j
    requires Filled(d, s1, s2, w, dp)
    modifies d
    ensures Filled(d, s1, s2, w, dp + 1)
  {
    hide Distance;
    RowsFit(w, |s1| + 1, dp);
    hide Fits;
    LookBack(w, dp);
    assert d[dp - w - 1] == Distance(s1[..i - 1], s2[..j - 1]);
    if s1[i - 1] == s2[j - 1] {
      d[dp] := d[dp - w - 1];
    } else {
      var d1 := d[dp - 1] + 1;
      var d2 := d[dp - w] + 1;
      var d3 := d[dp - w - 1] + 1;
      d[dp] := QMin3(d1, d2, d3);
    }
    Cell(s1, s2, i, j);
    SameCell(w, dp);
  }

  // ---------- Title similarity ----------

  lemma Ratio(a: real, b: real)
    requires 0.0 <= a <= b && 0.0 < b
    ensures 0.0 <= a / b <= 1.0 && a / b * b == a && (a / b == 1.0 <==> a == b)
  {
  }

  /** The similarity of a block's text and the page title, between 0 and 1. */
  method TitleSimilarity(content: string, title: string) returns (similar: real)
    ensures 0.0 <= similar <= 1.0
    ensures similar == 1.0 <==> content == title && title != ""
    ensures title == "" ==> similar == 0.75
    ensures title != "" ==>
              var longest := if |content| > |title| then |content| else |title|;
              similar * longest as real == (longest - Distance(content, title)) as real
  {
    hide Distance;
    var dist := EditDistance(content, title);
    if |title| > 0 {
      var maxSize := if |content| > |title| then |content| else |title|;
      var diff := if maxSize - dist < 0 then dist - maxSize else maxSize - dist;
      DistanceBounds(content, title);
      ZeroOnlyForEqual(content, title);
      Ratio(diff as real, maxSize as real);
      similar := diff as real / maxSize as real;
    } else {
      similar := 0.75;
    }
  }
}
