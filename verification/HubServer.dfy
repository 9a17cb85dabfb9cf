/**
 The hub server: named queues that requests change in place. `HubMonitor` covers the interleavings
 inside one queue; here each request is one call, and what other threads do to the queue while
 a call waits is whatever `OthersRun` may do.
 */
module HubServer {

  const OK := 0
  const AGAIN := 1
  const WARN := 2
  const ERROR := -1

  const STRAGAIN := "###again###"
  const STRERROR := "###error###"

  const DEFAULT_QUEUE_CAPACITY := 1000
  const COUNTER := 0x1_0000_0000_0000_0000

  /** How a timed wait ended. */
  datatype WaitResult = Signalled | TimedOut | Failed

  /** Wait `k` is the first that is not woken by a signal, and this is how it ends. */
  predicate EndsAt(waits: seq<WaitResult>, k: nat, end: WaitResult) {
    && k <= |waits|
    && (forall j :: 0 <= j < k ==> waits[j] == Signalled)
    && end == (if k == |waits| then TimedOut else waits[k])
  }

  /** A call that waits as often as it is signalled ends its waiting like this. */
  ghost predicate WaitingEnds(waits: seq<WaitResult>, end: WaitResult) {
    end != Signalled && exists k: nat :: EndsAt(waits, k, end)
  }

  lemma EndsNoLater(waits: seq<WaitResult>, j: nat, end: WaitResult, k: nat, other: WaitResult)
    requires EndsAt(waits, j, end) && EndsAt(waits, k, other) && end != Signalled
    ensures k <= j
  {
  }

  /** There is one such end. */
  lemma WaitingEndsOneWay(waits: seq<WaitResult>, end: WaitResult, other: WaitResult)
    requires WaitingEnds(waits, end) && WaitingEnds(waits, other)
    ensures end == other
  {
    var j: nat, k: nat :| EndsAt(waits, j, end) && EndsAt(waits, k, other);
    EndsNoLater(waits, j, end, k, other);
    EndsNoLater(waits, k, other, j, end);
  }

  class Queue {
    var capacity: int
    var stop: bool
    var enqueueItems: nat
    var strQ: seq<string>

    ghost var pushed: seq<string>  // every item pushed so far
    ghost var authors: seq<nat>    // which call pushed it
    ghost var gone: seq<string>    // every item popped or cleared so far
    ghost var top: int             // the largest capacity so far

    /** First in, first out, nothing lost, every push counted, at most one item over capacity. */
    ghost predicate Valid()
      reads this
    {
      && pushed == gone + strQ && |authors| == |pushed|
      && enqueueItems == |pushed| % COUNTER
      && capacity <= top
      && |strQ| <= (if top < 0 then 0 else top + 1)
    }

    constructor (capacity: int)
      ensures Valid()
      ensures this.capacity == capacity && top == capacity && !stop
      ensures strQ == [] && pushed == [] && gone == [] && enqueueItems == 0 && authors == []
    {
      this.capacity := capacity;
      stop := false;
      enqueueItems := 0;
      strQ := [];
      pushed, authors, gone, top := [], [], [], capacity;
    }

    ghost predicate IsFull()
      reads this
    {
      |strQ| > capacity
    }

    /** The items that call `me` pushed. */
    ghost function By(me: nat): seq<string>
      requires Valid()
      reads this
    {
      Selected(pushed, authors, me)
    }

    method Enqueue(obj: string, ghost me: nat)
      requires Valid() && !IsFull()
      modifies this
      ensures Valid()
      ensures strQ == old(strQ) + [obj] && pushed == old(pushed) + [obj] && gone == old(gone)
      ensures authors == old(authors) + [me]
      ensures capacity == old(capacity) && top == old(top) && stop == old(stop)
    {
      strQ := strQ + [obj];
      enqueueItems := (enqueueItems + 1) % COUNTER;
      pushed, authors := pushed + [obj], authors + [me];
    }

    method Dequeue() returns (content: string)
      requires Valid() && strQ != []
      modifies this
      ensures Valid()
      ensures [content] + strQ == old(strQ) && gone == old(gone) + [content]
      ensures pushed == old(pushed) && authors == old(authors)
      ensures capacity == old(capacity) && top == old(top) && stop == old(stop)
    {
      content := strQ[0];
      gone := gone + [strQ[0]];
      strQ := strQ[1..];
    }

    /** Other calls than `me` run while the mutex is released. */
    method OthersRun(ghost me: nat)
      requires Valid()
      modifies this
      ensures Valid()
      ensures old(pushed) <= pushed && old(gone) <= gone && old(top) <= top
      ensures By(me) == old(By(me))
    {
      var rounds: int := *;
      for i := 0 to if rounds < 0 then 0 else rounds
        invariant Valid()
        invariant old(pushed) <= pushed && old(gone) <= gone && old(top) <= top
        invariant By(me) == old(By(me))
      {
        if * {
          var obj: string := *;
          SelectedGrows(pushed, authors, obj, me + 1, me);
          var ret := PushNowait(obj, me + 1);
        } else if * {
          var content := PopNowait();
        } else if * {
          Clear();
        } else {
          var c: int := *;
          SetCapacity(c);
        }
      }
    }

    method PushNowait(obj: string, ghost me: nat) returns (ret: int)
      requires Valid()
      modifies this
      ensures Valid()
      ensures ret == if |old(strQ)| > old(capacity) then AGAIN else OK
      ensures ret == OK ==> strQ == old(strQ) + [obj] && pushed == old(pushed) + [obj] && authors == old(authors) + [me]
      ensures ret != OK ==> strQ == old(strQ) && pushed == old(pushed) && authors == old(authors)
      ensures gone == old(gone) && capacity == old(capacity) && top == old(top) && stop == old(stop)
    {
      if |strQ| > capacity {
        ret := AGAIN;
      } else {
        Enqueue(obj, me);
        ret := OK;
      }
    }

    /**
     The blocking push. `waits` tells how each timed wait ends; when it is used up the wait times
     out. The call pushes its item once if the reply is OK, last in the queue, and then only into a
     queue that had room; otherwise it pushes nothing, whatever other calls do while it waits.
     */
    method Push(obj: string, waits: seq<WaitResult>, ghost me: nat) returns (ret: int)
      requires Valid()
      modifies this
      ensures Valid()
      ensures ret == OK || ret == AGAIN || ret == ERROR
      ensures By(me) == old(By(me)) + if ret == OK then [obj] else []
      ensures ret == AGAIN ==> WaitingEnds(waits, TimedOut)
      ensures ret == ERROR ==> WaitingEnds(waits, Failed)
      ensures |old(strQ)| <= old(capacity) ==>
                ret == OK && strQ == old(strQ) + [obj] && gone == old(gone)
                && capacity == old(capacity) && top == old(top) && stop == old(stop)
      ensures ret == OK ==>
                && 0 < |strQ| <= capacity + 1
                && strQ[|strQ| - 1] == obj
                && pushed != [] && pushed[|pushed| - 1] == obj && old(pushed) <= pushed[..|pushed| - 1]
      ensures old(pushed) <= pushed && old(gone) <= gone
    {
      var i := 0;
      while |strQ| > capacity
        invariant 0 <= i <= |waits| && forall j :: 0 <= j < i ==> waits[j] == Signalled
        invariant Valid() && By(me) == old(By(me))
        invariant i == 0 ==> strQ == old(strQ) && pushed == old(pushed) && gone == old(gone)
                             && capacity == old(capacity) && top == old(top) && stop == old(stop)
        invariant i > 0 ==> |old(strQ)| > old(capacity)
        invariant old(pushed) <= pushed && old(gone) <= gone
        decreases |waits| - i
      {
        OthersRun(me);
        if i == |waits| || waits[i].TimedOut? {
          assert EndsAt(waits, i, TimedOut);
          return AGAIN;
        } else if waits[i].Failed? {
          assert EndsAt(waits, i, Failed);
          return ERROR;
        }
        i := i + 1;
      }
      SelectedGrows(pushed, authors, obj, me, me);
      Enqueue(obj, me);
      ret := OK;
    }

    method PopNowait() returns (content: string)
      requires Valid()
      modifies this
      ensures Valid()
      ensures old(strQ) == [] ==> content == STRAGAIN && strQ == [] && gone == old(gone)
      ensures old(strQ) != [] ==> [content] + strQ == old(strQ) && gone == old(gone) + [content]
      ensures pushed == old(pushed) && authors == old(authors)
      ensures capacity == old(capacity) && top == old(top) && stop == old(stop)
    {
      if |strQ| == 0 {
        content := STRAGAIN;
      } else {
        content := Dequeue();
      }
    }

    /** The blocking pop: a content is the item that had been longest in the queue. */
    method Pop(waits: seq<WaitResult>, ghost me: nat) returns (content: string, popped: bool)
      requires Valid()
      modifies this
      ensures Valid()
      ensures old(strQ) != [] ==> popped && [content] + strQ == old(strQ) && pushed == old(pushed)
      ensures popped ==> gone != [] && gone[|gone| - 1] == content && old(gone) <= gone[..|gone| - 1]
      ensures !popped ==> (content == STRAGAIN && WaitingEnds(waits, TimedOut))
                          || (content == STRERROR && WaitingEnds(waits, Failed))
      ensures old(pushed) <= pushed && old(gone) <= gone && By(me) == old(By(me))
    {
      var i := 0;
      while |strQ| == 0
        invariant 0 <= i <= |waits| && forall j :: 0 <= j < i ==> waits[j] == Signalled
        invariant Valid() && By(me) == old(By(me))
        invariant i == 0 ==> strQ == old(strQ) && pushed == old(pushed)
        invariant i > 0 ==> old(strQ) == []
        invariant old(pushed) <= pushed && old(gone) <= gone
        decreases |waits| - i
      {
        OthersRun(me);
        if i == |waits| || waits[i].TimedOut? {
          assert EndsAt(waits, i, TimedOut);
          return STRAGAIN, false;
        } else if waits[i].Failed? {
          assert EndsAt(waits, i, Failed);
          return STRERROR, false;
        }
        i := i + 1;
      }
      content := Dequeue();
      popped := true;
    }

    method Clear()
      requires Valid()
      modifies this
      ensures Valid()
      ensures strQ == [] && gone == old(gone) + old(strQ) && pushed == old(pushed) && authors == old(authors)
      ensures capacity == old(capacity) && top == old(top) && stop == old(stop)
    {
      while |strQ| != 0
        invariant Valid()
        invariant gone + strQ == old(gone) + old(strQ) && pushed == old(pushed) && authors == old(authors)
        invariant capacity == old(capacity) && top == old(top) && stop == old(stop)
        decreases |strQ|
      {
        var content := Dequeue();
      }
    }

    method SetCapacity(capacity: int)
      requires Valid()
      modifies this
      ensures Valid()
      ensures this.capacity == capacity
      ensures strQ == old(strQ) && pushed == old(pushed) && authors == old(authors) && gone == old(gone)
      ensures stop == old(stop)
      ensures top == if capacity > old(top) then capacity else old(top)
    {
      this.capacity := capacity;
      if capacity > top {
        top := capacity;
      }
    }
  }

  /** Of all items, those of one author, in order. */
  ghost function Selected(items: seq<string>, authors: seq<nat>, author: nat): seq<string>
    requires |items| == |authors|
  {
    if items == [] then [] else
      var n := |items| - 1;
      Selected(items[..n], authors[..n], author) + if authors[n] == author then [items[n]] else []
  }

  lemma SelectedGrows(items: seq<string>, authors: seq<nat>, item: string, author: nat, other: nat)
    requires |items| == |authors|
    ensures Selected(items + [item], authors + [author], other)
         == Selected(items, authors, other) + if author == other then [item] else []
  {
    assert (items + [item])[..|items|] == items && (authors + [author])[..|authors|] == authors;
  }

  class Server {
    var qmap: map<string, Queue>

    ghost function Queues(): set<Queue>
      reads this
    {
      qmap.Values
    }

    ghost predicate Valid()
      reads this, Queues()
    {
      && (forall n :: n in qmap ==> qmap[n].Valid())
      && (forall m, n :: m in qmap && n in qmap && m != n ==> qmap[m] != qmap[n])
    }

    constructor ()
      ensures Valid() && qmap == map[]
    {
      qmap := map[];
    }

    /** `new` may fail only in theory; `newWorks` says whether it does. */
    method AddQueue(name: string, capacity: int, newWorks: bool) returns (ret: int)
      requires Valid()
      modifies this
      ensures Valid()
      ensures ret == if name in old(qmap) then WARN else if newWorks then OK else ERROR
      ensures ret != OK ==> qmap == old(qmap)
      ensures ret == OK ==>
                name in qmap && qmap == old(qmap)[name := qmap[name]] && fresh(qmap[name])
                && qmap[name].capacity == capacity && qmap[name].strQ == [] && qmap[name].pushed == []
    {
      if name in qmap {
        return WARN;
      }
      if !newWorks {
        return ERROR;
      }
      var q := new Queue(capacity);
      qmap := qmap[name := q];
      ret := OK;
    }

    /** Nothing but the queue `name` may change; no queue is ever removed. */
    twostate predicate OnlyTouches(name: string)
      reads this, Queues()
    {
      && (forall n :: n in old(qmap) ==> n in qmap && qmap[n] == old(qmap)[n])
      && (forall n :: n in qmap && n !in old(qmap) ==> n == name)
      && (forall n :: n in old(qmap) && n != name ==> unchanged(old(qmap)[n]))
    }

    /**
     A push to a missing queue adds it and pushes again: `depth` counts the calls. The new queue
     has room, so that push goes through.
     */
    method PushQueue(name: string, obj: string, waits: seq<WaitResult>, newWorks: bool, ghost me: nat)
      returns (ret: int, ghost depth: nat)
      requires Valid()
      modifies this, Queues()
      ensures Valid() && OnlyTouches(name)
      ensures depth == if name in old(qmap) || !newWorks then 1 else 2
      ensures name !in old(qmap) ==>
                if newWorks then
                  ret == OK && name in qmap && fresh(qmap[name])
                  && qmap[name].capacity == DEFAULT_QUEUE_CAPACITY && qmap[name].strQ == [obj]
                else ret == ERROR && qmap == old(qmap)
      ensures name in old(qmap) ==>
                qmap == old(qmap) && qmap[name].By(me) == old(qmap[name].By(me)) + if ret == OK then [obj] else []
      ensures name in old(qmap) ==>
                || ret == OK
                || (ret == AGAIN && WaitingEnds(waits, TimedOut))
                || (ret == ERROR && WaitingEnds(waits, Failed))
      ensures name in old(qmap) && |old(qmap[name].strQ)| <= old(qmap[name].capacity) ==>
                ret == OK && qmap[name].strQ == old(qmap[name].strQ) + [obj]
                && qmap[name].capacity == old(qmap[name].capacity)
      decreases if name in qmap then 0 else 1
    {
      if name !in qmap {
        ret := AddQueue(name, DEFAULT_QUEUE_CAPACITY, newWorks);
        if ret == ERROR {
          depth := 1;
        } else {
          ret, depth := PushQueue(name, obj, waits, newWorks, me);
          depth := depth + 1;
        }
      } else {
        var q := qmap[name];
        ret := q.Push(obj, waits, me);
        depth := 1;
      }
    }

    method PushQueueNowait(name: string, obj: string, waits: seq<WaitResult>, newWorks: bool, ghost me: nat)
      returns (ret: int)
      requires Valid()
      modifies this, Queues()
      ensures Valid() && OnlyTouches(name)
      ensures name !in old(qmap) ==>
                if newWorks then ret == OK && name in qmap && qmap[name].strQ == [obj]
                else ret == ERROR && qmap == old(qmap)
      ensures name in old(qmap) ==>
                && qmap == old(qmap)
                && ret == (if |old(qmap[name].strQ)| > old(qmap[name].capacity) then AGAIN else OK)
                && qmap[name].strQ == if ret == OK then old(qmap[name].strQ) + [obj] else old(qmap[name].strQ)
    {
      if name !in qmap {
        ret := AddQueue(name, DEFAULT_QUEUE_CAPACITY, newWorks);
        if ret != ERROR {
          ghost var depth;
          ret, depth := PushQueue(name, obj, waits, newWorks, me);
        }
      } else {
        var q := qmap[name];
        ret := q.PushNowait(obj, me);
      }
    }

    /** Unlike the nowait pop, a pop from a missing queue is asked to come again. */
    method PopQueue(name: string, waits: seq<WaitResult>, ghost me: nat) returns (content: string)
      requires Valid()
      modifies Queues()
      ensures Valid() && OnlyTouches(name)
      ensures name !in qmap ==> content == STRAGAIN
      ensures name in qmap && old(qmap[name].stop) ==> content == STRAGAIN && unchanged(qmap[name])
      ensures name in qmap && !old(qmap[name].stop) ==>
                || (qmap[name].gone != [] && qmap[name].gone[|qmap[name].gone| - 1] == content
                    && old(qmap[name].gone) <= qmap[name].gone[..|qmap[name].gone| - 1])
                || (content == STRAGAIN && WaitingEnds(waits, TimedOut))
                || (content == STRERROR && WaitingEnds(waits, Failed))
      ensures name in qmap && !old(qmap[name].stop) && old(qmap[name].strQ) != [] ==>
                [content] + qmap[name].strQ == old(qmap[name].strQ)
    {
      if name !in qmap {
        return STRAGAIN;
      }
      var q := qmap[name];
      if q.stop {
        return STRAGAIN;
      }
      var popped;
      content, popped := q.Pop(waits, me);
    }

    method PopQueueNowait(name: string) returns (content: string)
      requires Valid()
      modifies Queues()
      ensures Valid() && OnlyTouches(name)
      ensures name !in qmap ==> content == STRERROR
      ensures name in qmap && old(qmap[name].stop) ==> content == STRAGAIN && unchanged(qmap[name])
      ensures name in qmap && !old(qmap[name].stop) ==>
                var before := old(qmap[name].strQ);
                if before == [] then content == STRAGAIN && qmap[name].strQ == []
                else [content] + qmap[name].strQ == before
    {
      if name !in qmap {
        return STRERROR;
      }
      var q := qmap[name];
      if q.stop {
        return STRAGAIN;
      }
      content := q.PopNowait();
    }
  }
}
