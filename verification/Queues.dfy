/** The queue shared by the worker threads of the HAL. */
module Queues {
  import opened Common

  /** A queue as a value. Flushing deactivates it; an inactive queue refuses everything. */
  datatype Queue<T> = Queue(items: seq<T>, active: bool)
  {
    function Enqueue(x: T): Queue<T> { if active then Queue(items + [x], active) else this }

    function Head(): Option<T> { if active && items != [] then Some(items[0]) else None }

    function DropHead(): Queue<T> { if active && items != [] then Queue(items[1..], active) else this }

    function DropTail(): Queue<T> { if active && items != [] then Queue(items[..|items| - 1], active) else this }

    function Flushed(): Queue<T> { if active then Queue([], false) else this }

    /** The nodes whose release function runs when the queue is flushed. */
    function FlushedItems(): seq<T> { if active then items else [] }
  }

  class QCameraQueue<T(==)> {
    var items: seq<T>
    var active: bool

    function Abs(): Queue<T> reads this { Queue(items, active) }

    constructor ()
      ensures Abs() == Queue([], true)
    {
      items, active := [], true;
    }

    method Init()
      modifies this
      ensures Abs() == Queue(old(items), true)
    {
      active := true;
    }

    // m_size > 0, whether or not the queue is active
    method IsEmpty() returns (empty: bool)
      ensures empty <==> items == []
    {
      empty := |items| == 0;
    }

    method Enqueue(x: T) returns (ok: bool)
      modifies this
      ensures Abs() == old(Abs()).Enqueue(x) && ok == old(active)
    {
      ok := active;
      if active { items := items + [x]; }
    }

    method EnqueueWithPriority(x: T) returns (ok: bool)
      modifies this
      ensures ok == active == old(active)
      ensures items == if active then [x] + old(items) else old(items)
    {
      ok := active;
      if active { items := [x] + items; }
    }

    method Dequeue(fromHead: bool) returns (data: Option<T>)
      modifies this
      ensures Abs() == if fromHead then old(Abs()).DropHead() else old(Abs()).DropTail()
      ensures data.Some? <==> old(active) && old(items) != []
      ensures data.Some? ==> data.value == if fromHead then old(items)[0] else old(items)[|old(items)| - 1]
    {
      if active && items != [] {
        if fromHead {
          data, items := Some(items[0]), items[1..];
        } else {
          data, items := Some(items[|items| - 1]), items[..|items| - 1];
        }
      } else {
        data := None;
      }
    }

    /** `released` lists the nodes in the order their release function runs. */
    method Flush() returns (released: seq<T>)
      modifies this
      ensures Abs() == old(Abs()).Flushed() && released == old(Abs()).FlushedItems()
    {
      released := [];
      if active {
        while items != []
          invariant released + items == old(items) && active == old(active)
          decreases |items|
        {
          released, items := released + [items[0]], items[1..];
        }
        active := false;
      }
    }

    method FlushNodes(match_: T -> bool) returns (released: seq<T>)
      modifies this
      ensures active == old(active)
      ensures released == if active then Matching(old(items), match_) else []
      ensures items == if active then Matching(old(items), Not(match_)) else old(items)
    {
      released := [];
      if active {
        var pos := 0;
        var kept := [];
        while pos < |items|
          invariant pos <= |items| && items == old(items) && active == old(active)
          invariant released == Matching(items[..pos], match_)
          invariant kept == Matching(items[..pos], Not(match_))
        {
          assert items[..pos + 1][..pos] == items[..pos];
          if match_(items[pos]) {
            released := released + [items[pos]];
          } else {
            kept := kept + [items[pos]];
          }
          pos := pos + 1;
        }
        assert items[..pos] == items;
        items := kept;
      }
    }
  }

  function Not<T>(p: T -> bool): T -> bool { x => !p(x) }

  function Matching<T>(s: seq<T>, p: T -> bool): (r: seq<T>)
    ensures forall x | x in r :: x in s && p(x)
  {
    if s == [] then []
    else Matching(s[..|s| - 1], p) + if p(s[|s| - 1]) then [s[|s| - 1]] else []
  }

  lemma MatchingLast<T>(s: seq<T>, x: T, p: T -> bool)
    ensures Matching(s + [x], p) == Matching(s, p) + if p(x) then [x] else []
  {
    assert (s + [x])[..|s|] == s;
  }

  /** Matching goes through a queue from head to tail. */
  lemma {:induction false} MatchingJoins<T>(a: seq<T>, b: seq<T>, p: T -> bool)
    ensures Matching(a + b, p) == Matching(a, p) + Matching(b, p)
  {
    if b == [] {
      assert a + b == a;
    } else {
      hide Matching;
      var b', last := b[..|b| - 1], [b[|b| - 1]];
      assert b == b' + last && a + b == a + b' + last;
      MatchingJoins(a, b', p);
      MatchingLast(a + b', last[0], p);
      MatchingLast(b', last[0], p);
      var m := if p(last[0]) then last else [];
      assert Matching(a, p) + Matching(b', p) + m == Matching(a, p) + (Matching(b', p) + m);
    }
  }

  lemma MatchingOne<T>(x: T, p: T -> bool)
    ensures Matching([x], p) == if p(x) then [x] else []
  {
  }

  /** First in, first out: what was enqueued behind the head comes out behind it, and last what was
      enqueued last; a flush gives all back, from head to tail.
   */
  lemma FirstInFirstOut<T>(q: Queue<T>, x: T)
    requires q.active
    ensures q.items == [] ==> q.Enqueue(x).Head() == Some(x) && q.Enqueue(x).DropHead() == q
    ensures q.items != [] ==>
              && q.Enqueue(x).Head() == q.Head() == Some(q.items[0])
              && q.Enqueue(x).DropHead() == q.DropHead().Enqueue(x)
    ensures q.Enqueue(x).DropTail() == q
    ensures q.Enqueue(x).FlushedItems() == q.FlushedItems() + [x] && q.FlushedItems() == q.items
    ensures q.Flushed() == Queue([], false)
  {
  }

  /** A flushed queue takes nothing, gives nothing, and stays as it is. */
  lemma FlushedIsDead<T>(q: Queue<T>, x: T)
    requires !q.active
    ensures q.Enqueue(x) == q && q.Head() == None && q.DropHead() == q && q.DropTail() == q && q.Flushed() == q
    ensures q.FlushedItems() == []
  {
  }

  /** Flushing by a match neither loses nor duplicates a node. */
  lemma {:induction false} MatchingSplits<T>(s: seq<T>, p: T -> bool, x: T)
    ensures Times(Matching(s, p), x) == if p(x) then Times(s, x) else 0
  {
    if s != [] {
      var last := s[|s| - 1];
      MatchingSplits(s[..|s| - 1], p, x);
      assert s == s[..|s| - 1] + [last];
      TimesAppend(s[..|s| - 1], [last], x);
      TimesAppend(Matching(s[..|s| - 1], p), if p(last) then [last] else [], x);
    }
  }
}
