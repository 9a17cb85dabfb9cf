/**
 The table lookup shared by the two generated scanners of `qcrawler_http_parse.cpp`.

 A scanner state owns one row: keys that select a move on their own, key ranges that select
 a move together, and the move taken when nothing fits. Both key lists are searched by
 bisection, singles first.
 */
module Scanner {

  /** A byte as the scanners see it: `char` is signed. */
  type SByte = x: int | -128 <= x < 128

  /** What happens once a key is matched: the next state and the actions to run, in order. */
  datatype Move<A> = Move(target: nat, actions: seq<A>)

  datatype Single<A> = Single(key: int, move: Move<A>)

  datatype Range<A> = Range(lo: int, hi: int, move: Move<A>)

  datatype Row<A> = Row(singles: seq<Single<A>>, ranges: seq<Range<A>>, otherwise: Move<A>)
  {
    predicate Names(key: int) {
      exists i :: 0 <= i < |singles| && singles[i].key == key
    }

    predicate Spans(key: int) {
      exists j :: 0 <= j < |ranges| && ranges[j].lo <= key <= ranges[j].hi
    }

    /** The row is in the order that bisection needs. */
    predicate Sorted() {
      && (forall i, j :: 0 <= i < j < |singles| ==> singles[i].key < singles[j].key)
      && (forall i :: 0 <= i < |ranges| ==> ranges[i].lo <= ranges[i].hi)
      && (forall i, j :: 0 <= i < j < |ranges| ==> ranges[i].hi < ranges[j].lo)
    }

    /** The meaning of a row: `move` is one the row offers for `key`. */
    ghost predicate Selects(key: int, move: Move<A>) {
      || (exists i :: 0 <= i < |singles| && singles[i].key == key && singles[i].move == move)
      || (!Names(key)
          && exists j :: 0 <= j < |ranges| && ranges[j].lo <= key <= ranges[j].hi && ranges[j].move == move)
      || (!Names(key) && !Spans(key) && otherwise == move)
    }

    /** The move the row offers for `key`. */
    ghost function Select(key: int): (move: Move<A>)
      ensures Selects(key, move)
    {
      if Names(key) then
        var i :| 0 <= i < |singles| && singles[i].key == key;
        singles[i].move
      else if Spans(key) then
        var j :| 0 <= j < |ranges| && ranges[j].lo <= key <= ranges[j].hi;
        ranges[j].move
      else
        otherwise
    }

    /** A sorted row offers one move per key. */
    lemma SelectsOneMove(key: int, m: Move<A>, n: Move<A>)
      requires Sorted() && Selects(key, m) && Selects(key, n)
      ensures m == n
    {
      if Names(key) {
        var i :| 0 <= i < |singles| && singles[i].key == key && singles[i].move == m;
        var j :| 0 <= j < |singles| && singles[j].key == key && singles[j].move == n;
        assert i == j;
      } else if Spans(key) {
        var i :| 0 <= i < |ranges| && ranges[i].lo <= key <= ranges[i].hi && ranges[i].move == m;
        var j :| 0 <= j < |ranges| && ranges[j].lo <= key <= ranges[j].hi && ranges[j].move == n;
        assert i == j;
      }
    }

    /** A key that the row names selects the move beside it. */
    lemma SelectsSingle(i: nat)
      requires Sorted() && i < |singles|
      ensures Select(singles[i].key) == singles[i].move
    {
      SelectsOneMove(singles[i].key, Select(singles[i].key), singles[i].move);
    }

    /** A key that the row does not name but spans selects the move of the spanning range. */
    lemma SelectsRange(key: int, j: nat)
      requires Sorted() && !Names(key) && j < |ranges| && ranges[j].lo <= key <= ranges[j].hi
      ensures Select(key) == ranges[j].move
    {
      SelectsOneMove(key, Select(key), ranges[j].move);
    }

    /** In a short row the move can be read off. */
    lemma SelectsAmongThree(key: int)
      requires Sorted() && |singles| <= 3 && |ranges| <= 3
      ensures Select(key) ==
              if |singles| > 0 && singles[0].key == key then singles[0].move
              else if |singles| > 1 && singles[1].key == key then singles[1].move
              else if |singles| > 2 && singles[2].key == key then singles[2].move
              else if |ranges| > 0 && ranges[0].lo <= key <= ranges[0].hi then ranges[0].move
              else if |ranges| > 1 && ranges[1].lo <= key <= ranges[1].hi then ranges[1].move
              else if |ranges| > 2 && ranges[2].lo <= key <= ranges[2].hi then ranges[2].move
              else otherwise
    {
      if i :| 0 <= i < |singles| && singles[i].key == key {
        SelectsSingle(i);
      } else if j :| 0 <= j < |ranges| && ranges[j].lo <= key <= ranges[j].hi {
        SelectsRange(key, j);
      }
    }
  }

  /** The search the scanners run for each byte: bisect the singles, then the ranges. */
  method Lookup<A>(row: Row<A>, key: int) returns (move: Move<A>)
    requires row.Sorted()
    ensures move == row.Select(key)
  {
    var lower, upper := 0, |row.singles| - 1;
    while lower <= upper
      invariant 0 <= lower <= upper + 1 <= |row.singles|
      invariant forall i :: 0 <= i < lower ==> row.singles[i].key < key
      invariant forall i :: upper < i < |row.singles| ==> key < row.singles[i].key
    {
      var mid := lower + (upper - lower) / 2;
      if key < row.singles[mid].key {
        upper := mid - 1;
      } else if key > row.singles[mid].key {
        lower := mid + 1;
      } else {
        move := row.singles[mid].move;
        row.SelectsOneMove(key, move, row.Select(key));
        return;
      }
    }
    lower, upper := 0, |row.ranges| - 1;
    while lower <= upper
      invariant 0 <= lower <= upper + 1 <= |row.ranges|
      invariant forall i :: 0 <= i < lower ==> row.ranges[i].hi < key
      invariant forall i :: upper < i < |row.ranges| ==> key < row.ranges[i].lo
    {
      var mid := lower + (upper - lower) / 2;
      if key < row.ranges[mid].lo {
        upper := mid - 1;
      } else if key > row.ranges[mid].hi {
        lower := mid + 1;
      } else {
        move := row.ranges[mid].move;
        row.SelectsOneMove(key, move, row.Select(key));
        return;
      }
    }
    move := row.otherwise;
    row.SelectsOneMove(key, move, row.Select(key));
  }
}
