/**
  server/voice/VoiceDataList.java: the bounded, duplicate-free first-in-first-out list of voice packets that
  a session holds for its peer. Evicted and remaining buffers go back to the pool.
 */
module VoiceDataLists {
  import opened Framing
  import opened Options
  import opened Ownership
  import opened BufferPools
  import opened Subsequences
  import opened VoicePacket

  /** A buffer long enough to hold a sequence number. */
  type DataBuffer = b: Buffer | |b.bytes| >= SEQ_INDEX + 4
    witness Buffer(0, [0, 0, 0, 0, 0, 0, 0, 0, 0, 0, 0, 0, 0, 0, 0, 0])

  function SeqOf(b: DataBuffer): int {
    GetInt(b.bytes, SEQ_INDEX)
  }

  /** What is listed, and every number offered since the last reset. */
  datatype DataList = DataList(list: seq<DataBuffer>, seen: set<int>) {

    function Offer(b: DataBuffer, cap: nat): DataList {
      if SeqOf(b) in seen then this
      else DataList(if |list| + 1 > cap then (list + [b])[1..] else list + [b], seen + {SeqOf(b)})
    }

    function Evicted(b: DataBuffer, cap: nat): seq<DataBuffer> {
      if SeqOf(b) !in seen && |list| + 1 > cap then [(list + [b])[0]] else []
    }

    function Poll(): DataList {
      if list == [] then this else this.(list := list[1..])
    }
  }

  // ---- Runs of offers, polls and resets ----

  datatype Event = Arrive(b: DataBuffer) | Take | Clear

  /** A buffer that has left the list: delivered by a poll, or evicted, or given up by a reset. */
  datatype Gone = Gone(b: DataBuffer, delivered: bool)

  function GoneBuffers(gone: seq<Gone>): seq<DataBuffer> {
    seq(|gone|, i requires 0 <= i < |gone| => gone[i].b)
  }

  /** What a reset gives up. */
  function GivenUp(list: seq<DataBuffer>): (r: seq<Gone>)
    ensures |r| == |list| && GoneBuffers(r) == list
  {
    seq(|list|, i requires 0 <= i < |list| => Gone(list[i], false))
  }

  function Delivered(gone: seq<Gone>): seq<DataBuffer> {
    if gone == [] then []
    else Delivered(gone[..|gone| - 1]) + (if gone[|gone| - 1].delivered then [gone[|gone| - 1].b] else [])
  }

  datatype History = History(now: DataList, gone: seq<Gone>) {
    function Next(e: Event, cap: nat): History {
      match e
      case Arrive(b) =>
        var out := now.Evicted(b, cap);
        History(now.Offer(b, cap), gone + (if out == [] then [] else [Gone(out[0], false)]))
      case Take =>
        History(now.Poll(), gone + (if now.list == [] then [] else [Gone(now.list[0], true)]))
      case Clear =>
        History(DataList([], {}), gone + GivenUp(now.list))
    }
  }

  function Run(events: seq<Event>, cap: nat): History {
    if events == [] then History(DataList([], {}), [])
    else Run(events[..|events| - 1], cap).Next(events[|events| - 1], cap)
  }

  /** The first buffer offered under each number since the last reset, in order of arrival, over the whole run. */
  function FirstArrivals(events: seq<Event>): seq<DataBuffer> {
    if events == [] then []
    else
      var before, e := FirstArrivals(events[..|events| - 1]), events[|events| - 1];
      if e.Arrive? && SeqOf(e.b) !in Offered(events[..|events| - 1]) then before + [e.b] else before
  }

  /** The numbers offered since the last reset. */
  function Offered(events: seq<Event>): set<int> {
    if events == [] then {}
    else
      var before, e := Offered(events[..|events| - 1]), events[|events| - 1];
      match e
      case Arrive(b) => before + {SeqOf(b)}
      case Take => before
      case Clear => {}
  }

  /**
    First in, first out, over every run, with resets: what has left the list, followed by what is still in it, is
    the sequence of first arrivals. Nothing is lost, repeated or reordered.
   */
  lemma {:induction false} FirstInFirstOut(events: seq<Event>, cap: nat)
    ensures var h := Run(events, cap);
            && GoneBuffers(h.gone) + h.now.list == FirstArrivals(events)
            && h.now.seen == Offered(events) && |h.now.list| <= cap
  {
    if events == [] {
    } else {
      var before, e := events[..|events| - 1], events[|events| - 1];
      var h := Run(before, cap);
      FirstInFirstOut(before, cap);
      match e
      case Arrive(b) =>
        if SeqOf(b) !in h.now.seen {
          ArriveStep(h, b, cap);
        } else {
          assert h.Next(e, cap) == h.(gone := h.gone + []);
          assert h.gone + [] == h.gone;
        }
      case Take =>
        TakeStep(h);
      case Clear =>
        GoneJoin(h.gone, GivenUp(h.now.list));
    }
  }

  lemma GoneJoin(a: seq<Gone>, b: seq<Gone>)
    ensures GoneBuffers(a + b) == GoneBuffers(a) + GoneBuffers(b)
  {
  }

  lemma GoneAppend(gone: seq<Gone>, g: Gone)
    ensures GoneBuffers(gone + [g]) == GoneBuffers(gone) + [g.b]
  {
  }

  lemma ArriveStep(h: History, b: DataBuffer, cap: nat)
    requires SeqOf(b) !in h.now.seen && |h.now.list| <= cap
    ensures var after := h.Next(Arrive(b), cap);
            && GoneBuffers(after.gone) + after.now.list == GoneBuffers(h.gone) + h.now.list + [b]
            && |after.now.list| <= cap
  {
    var longer := h.now.list + [b];
    if |longer| > cap {
      GoneAppend(h.gone, Gone(longer[0], false));
      assert longer == [longer[0]] + longer[1..];
    } else {
      assert h.gone + [] == h.gone;
    }
  }

  lemma TakeStep(h: History)
    ensures var after := h.Next(Take, 0);
            GoneBuffers(after.gone) + after.now.list == GoneBuffers(h.gone) + h.now.list
  {
    if h.now.list != [] {
      GoneAppend(h.gone, Gone(h.now.list[0], true));
      assert h.now.list == [h.now.list[0]] + h.now.list[1..];
    } else {
      assert h.gone + [] == h.gone;
    }
  }

  lemma {:induction false} DeliveredSubsequence(gone: seq<Gone>)
    ensures Subsequence(Delivered(gone), GoneBuffers(gone))
  {
    if gone == [] {
    } else {
      var before, g := gone[..|gone| - 1], gone[|gone| - 1];
      DeliveredSubsequence(before);
      assert GoneBuffers(gone)[..|gone| - 1] == GoneBuffers(before);
      if g.delivered {
        assert Delivered(gone)[..|Delivered(gone)| - 1] == Delivered(before);
      } else {
        assert Delivered(gone) == Delivered(before);
      }
    }
  }

  /** What polls deliver is, in order, part of the first arrivals. */
  lemma PolledInArrivalOrder(events: seq<Event>, cap: nat)
    ensures Subsequence(Delivered(Run(events, cap).gone), FirstArrivals(events))
  {
    FirstInFirstOut(events, cap);
    DeliveredSubsequence(Run(events, cap).gone);
    SubsequenceExtend(Delivered(Run(events, cap).gone), GoneBuffers(Run(events, cap).gone), Run(events, cap).now.list);
  }

  /** Hands a buffer that is out back to the pool, which accepts it. */
  method GiveBack(pool: BufferPool, b: Buffer) returns (done: bool)
    requires pool.Valid() && AllOut([b], pool.bufferQueue, pool.semaphores.Length)
    modifies pool, pool.semaphores
    ensures pool.Valid() && done && pool.bufferQueue == old(pool.bufferQueue) + [b]
  {
    assert [b][0] == b;
    done := pool.Deallocate(Some(b));
  }

  class VoiceDataList {
    var ownList: seq<DataBuffer>
    const LIST_SIZE: nat
    var offeredHashMap: map<int, bool>
    const pool: BufferPool

    ghost function Abs(): DataList
      reads this
    {
      DataList(ownList, offeredHashMap.Keys)
    }

    /** The pool is in order, and the buffers listed are out of it, each once. */
    ghost predicate Valid()
      reads this, pool, pool.semaphores
    {
      && pool.Valid() && |ownList| <= LIST_SIZE && AllOut(ownList, pool.bufferQueue, pool.semaphores.Length)
    }

    constructor (size: nat, pool: BufferPool)
      requires pool.Valid()
      ensures Valid() && LIST_SIZE == size && this.pool == pool && Abs() == DataList([], {})
    {
      ownList, LIST_SIZE, offeredHashMap, this.pool := [], size, map[], pool;
    }

    /** Lists a buffer under a number not offered before; the oldest goes back to the pool when the list overflows. */
    method Offer(newBuffer: DataBuffer) returns (accepted: bool)
      requires Valid() && AllOut(ownList + [newBuffer], pool.bufferQueue, pool.semaphores.Length)
      modifies this, pool, pool.semaphores
      ensures Valid() && Abs() == old(Abs()).Offer(newBuffer, LIST_SIZE)
      ensures accepted <==> SeqOf(newBuffer) !in old(Abs()).seen
      ensures pool.bufferQueue == old(pool.bufferQueue) + old(Abs()).Evicted(newBuffer, LIST_SIZE)
    {
      hide BufferPool.Valid, Holds, GetInt;
      var newSeqNumber := SeqOf(newBuffer);
      if newSeqNumber in offeredHashMap {
        return false;
      }
      offeredHashMap := offeredHashMap[newSeqNumber := true];
      ownList := ownList + [newBuffer];
      if |ownList| > LIST_SIZE {
        var first := ownList[0];
        ownList := ownList[1..];
        FrontStaysOut([first] + ownList, pool.bufferQueue, pool.semaphores.Length);
        var _ := GiveBack(pool, first);
      }
      return true;
    }

    method Poll() returns (data: Option<DataBuffer>)
      requires Valid()
      modifies this
      ensures Valid() && Abs() == old(Abs()).Poll()
      ensures data == if old(ownList) == [] then None else Some(old(ownList)[0])
    {
      if ownList == [] {
        return None;
      }
      data := Some(ownList[0]);
      ownList := ownList[1..];
    }

    /** Gives all buffers back, in order, and forgets the numbers. */
    method Reset()
      requires Valid()
      modifies this, pool, pool.semaphores
      ensures Valid() && Abs() == DataList([], {})
      ensures pool.bufferQueue == old(pool.bufferQueue) + old(ownList)
    {
      hide BufferPool.Valid, AllOut, Holds;
      while ownList != []
        invariant Valid() && pool.bufferQueue + ownList == old(pool.bufferQueue) + old(ownList)
        decreases |ownList|
      {
        var buffer := ownList[0];
        FrontStaysOut(ownList, pool.bufferQueue, pool.semaphores.Length);
        assert [buffer] + ownList[1..] == ownList;
        ownList := ownList[1..];
        var _ := GiveBack(pool, buffer);
      }
      offeredHashMap := map[];
    }
  }

  ghost predicate AllOut(list: seq<Buffer>, free: seq<Buffer>, n: nat) {
    Distinct(list) && forall i :: 0 <= i < |list| ==> list[i].key < n && !Holds(free, list[i].key)
  }

  lemma FrontStaysOut(list: seq<Buffer>, free: seq<Buffer>, n: nat)
    requires AllOut(list, free, n) && list != []
    ensures AllOut([list[0]], free, n) && AllOut(list[1..], free + [list[0]], n)
  {
    QueueBack(free, list[0]);
  }
}
