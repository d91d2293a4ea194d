/**
  server/voice/VoicePriorityList.java: the sorted, duplicate-free, bounded list over pooled buffers. Evicted
  and remaining buffers go back to the pool.
 */
module PooledPriorityLists {
  import opened BufferPools
  import opened JitterQueues
  import opened JitterSpec
  import opened Options
  import opened Ownership
  import opened VoiceDataLists

  function Items(list: seq<DataBuffer>): (r: seq<Item<DataBuffer>>)
    ensures |r| == |list|
  {
    seq(|list|, i requires 0 <= i < |list| => AsItem(list[i]))
  }

  function AsItem(b: DataBuffer): Item<DataBuffer> {
    Item(SeqOf(b), b)
  }

  lemma ItemsInsert(list: seq<DataBuffer>, i: nat, b: DataBuffer)
    requires i <= |list|
    ensures Items(InsertAt(list, i, b)) == InsertAt(Items(list), i, AsItem(b))
  {
  }

  lemma ItemsTail(list: seq<DataBuffer>)
    requires list != []
    ensures Items(list[1..]) == Items(list)[1..]
  {
  }

  /** Where in the list a buffer is put does not matter to whether all listed buffers are out, each once. */
  lemma AllOutInsert(list: seq<Buffer>, i: nat, b: Buffer, free: seq<Buffer>, n: nat)
    requires i <= |list| && AllOut(list + [b], free, n)
    ensures AllOut(InsertAt(list, i, b), free, n)
  {
    var before, after := list + [b], InsertAt(list, i, b);
    forall j | 0 <= j < |after|
      ensures after[j] == before[Shifted(j, i, |list|)]
    {
    }
  }

  /** Where the element at `j` of the longer list comes from. */
  function Shifted(j: int, i: int, n: int): int {
    if j < i then j else if j == i then n else j - 1
  }

  class PooledPriorityList {
    var ownList: seq<DataBuffer>
    const LIST_SIZE: nat
    var polledHashMap: map<int, bool>
    const pool: BufferPool

    ghost function Abs(): Jitter<DataBuffer>
      reads this
    {
      Jitter(Items(ownList), polledHashMap.Keys)
    }

    ghost predicate Valid()
      reads this, pool, pool.semaphores
    {
      && pool.Valid() && Abs().Ok() && |ownList| <= LIST_SIZE
      && AllOut(ownList, pool.bufferQueue, pool.semaphores.Length)
    }

    constructor (size: nat, pool: BufferPool)
      requires pool.Valid()
      ensures Valid() && LIST_SIZE == size && this.pool == pool && Abs() == Jitter([], {})
    {
      ownList, LIST_SIZE, polledHashMap, this.pool := [], size, map[], pool;
    }

    /** Where the new buffer belongs; the branch for a number found in the list cannot be taken. */
    method FindIndex(newBuffer: DataBuffer) returns (index: nat)
      requires Abs().Ok() && SeqOf(newBuffer) !in polledHashMap
      ensures index <= |ownList| && index == Rank(Numbers(Items(ownList)), SeqOf(newBuffer))
    {
      hide Ascending, Rank, Jitter.Ok, SeqOf;
      var newSeqNumber := SeqOf(newBuffer);
      Abs().NotQueued(newSeqNumber);
      index := 0;
      while index < |ownList|
        invariant index <= |ownList|
        invariant forall j :: 0 <= j < index ==> Numbers(Items(ownList))[j] < newSeqNumber
      {
        var seqNumber := SeqOf(ownList[index]);
        assert Items(ownList)[index].seqNumber == seqNumber;
        if seqNumber == newSeqNumber {
          assert false;
        } else if seqNumber < newSeqNumber {
          index := index + 1;
        } else {
          break;
        }
      }
      RankIs(Numbers(Items(ownList)), newSeqNumber, index);
    }

    /** Accepts a number never seen before; the smallest goes back to the pool when the list overflows. */
    method Offer(newBuffer: DataBuffer) returns (accepted: bool)
      requires Valid() && AllOut(ownList + [newBuffer], pool.bufferQueue, pool.semaphores.Length)
      modifies this, pool, pool.semaphores
      ensures Valid() && Abs() == old(Abs()).Offer(AsItem(newBuffer), LIST_SIZE)
      ensures accepted <==> SeqOf(newBuffer) !in old(Abs()).seen
      ensures pool.bufferQueue == old(pool.bufferQueue) + Evictee(old(Abs()), newBuffer, LIST_SIZE)
      ensures SeqsOf(Evictee(old(Abs()), newBuffer, LIST_SIZE)) == old(Abs()).Evicted(AsItem(newBuffer), LIST_SIZE)
    {
      EvicteeIsEvicted(Abs(), newBuffer, LIST_SIZE);
      hide BufferPool.Valid, AllOut, Holds, Rank, Jitter.Ok, Items, SeqOf, Jitter.Evicted;
      ghost var after := Abs().Offer(AsItem(newBuffer), LIST_SIZE);
      if SeqOf(newBuffer) in polledHashMap {
        return false;
      }
      Abs().OfferKeepsOk(AsItem(newBuffer), LIST_SIZE);
      var index := FindIndex(newBuffer);
      ItemsInsert(ownList, index, newBuffer);
      AllOutInsert(ownList, index, newBuffer, pool.bufferQueue, pool.semaphores.Length);
      polledHashMap := polledHashMap[SeqOf(newBuffer) := true];
      ownList := InsertAt(ownList, index, newBuffer);
      if |ownList| > LIST_SIZE {
        var first := ownList[0];
        ItemsTail(ownList);
        FrontIs(ownList);
        FrontStaysOut(ownList, pool.bufferQueue, pool.semaphores.Length);
        ownList := ownList[1..];
        var _ := GiveBack(pool, first);
      }
      assert Abs() == after;
      return true;
    }

    method Poll() returns (data: Option<DataBuffer>)
      requires Valid()
      modifies this
      ensures Valid() && Abs() == old(Abs()).Poll()
      ensures data == if old(ownList) == [] then None else Some(old(ownList)[0])
    {
      hide SeqOf;
      if ownList == [] {
        return None;
      }
      Abs().PollKeepsOk();
      ItemsTail(ownList);
      data := Some(ownList[0]);
      ownList := ownList[1..];
    }

    /** Gives all buffers back, in order, and forgets the numbers. */
    method Reset()
      requires Valid()
      modifies this, pool, pool.semaphores
      ensures Valid() && Abs() == Jitter([], {})
      ensures pool.bufferQueue == old(pool.bufferQueue) + old(ownList)
    {
      hide BufferPool.Valid, AllOut, Holds, Items, SeqOf;
      while ownList != []
        invariant pool.Valid() && AllOut(ownList, pool.bufferQueue, pool.semaphores.Length)
        invariant pool.bufferQueue + ownList == old(pool.bufferQueue) + old(ownList)
        decreases |ownList|
      {
        var buffer := ownList[0];
        FrontStaysOut(ownList, pool.bufferQueue, pool.semaphores.Length);
        assert [buffer] + ownList[1..] == ownList;
        ownList := ownList[1..];
        var _ := GiveBack(pool, buffer);
      }
      polledHashMap := map[];
      NoItems();
    }
  }

  /** What an offer gives up: the first of the longer list. */
  function Evictee(j: Jitter<DataBuffer>, b: DataBuffer, cap: nat): seq<DataBuffer> {
    if SeqOf(b) in j.seen then []
    else
      var longer := InsertAt(j.list, Rank(Numbers(j.list), SeqOf(b)), AsItem(b));
      if |longer| > cap then [longer[0].data] else []
  }

  /** Its number is the one that the list specification evicts. */
  lemma EvicteeIsEvicted(j: Jitter<DataBuffer>, b: DataBuffer, cap: nat)
    requires forall i :: 0 <= i < |j.list| ==> j.list[i].seqNumber == SeqOf(j.list[i].data)
    ensures j.Evicted(AsItem(b), cap) == SeqsOf(Evictee(j, b, cap))
  {
    hide SeqOf, Rank;
    NumbersInsert(j.list, Rank(Numbers(j.list), SeqOf(b)), AsItem(b));
  }

  function SeqsOf(buffers: seq<DataBuffer>): (r: seq<int>)
    ensures |r| == |buffers|
  {
    seq(|buffers|, i requires 0 <= i < |buffers| => SeqOf(buffers[i]))
  }

  lemma FrontIs(list: seq<DataBuffer>)
    requires list != []
    ensures Items(list)[0] == AsItem(list[0])
  {
  }

  lemma NoItems()
    ensures Items([]) == []
  {
  }
}
