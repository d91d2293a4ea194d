/**
  The queues themselves: client/src/voice/VoicePriorityList.java and client/jni/PriorityQueue.cpp.
 */
module JitterQueues {
  import opened JitterSpec
  import opened Options

  lemma {:induction false} RankIs(s: seq<int>, n: int, i: nat)
    requires i <= |s| && (forall j :: 0 <= j < i ==> s[j] < n) && (i < |s| ==> s[i] >= n)
    ensures Rank(s, n) == i
  {
    if i == 0 {
    } else {
      assert s[0] < n;
      RankIs(s[1..], n, i - 1);
    }
  }

  /** client/src/voice/VoicePriorityList.java */
  class VoicePriorityList<T> {
    var ownList: seq<Item<T>>
    const LIST_SIZE: nat
    var polledHashMap: map<int, bool>

    ghost function Abs(): Jitter<T>
      reads this
    {
      Jitter(ownList, polledHashMap.Keys)
    }

    ghost predicate Valid()
      reads this
    {
      Abs().Ok() && |ownList| <= LIST_SIZE
    }

    constructor (size: nat)
      ensures Valid() && LIST_SIZE == size && Abs() == Jitter([], {})
    {
      ownList, LIST_SIZE, polledHashMap := [], size, map[];
    }

    /** Accepts a number never seen before; the branch for a number found in the list cannot be taken. */
    method Offer(newData: Item<T>) returns (accepted: bool)
      requires Valid()
      modifies this
      ensures Valid() && Abs() == old(Abs()).Offer(newData, LIST_SIZE)
      ensures accepted <==> newData.seqNumber !in old(Abs()).seen
    {
      hide Ascending, Rank, Jitter.Ok;
      if newData.seqNumber in polledHashMap {
        return false;
      }
      Abs().NotQueued(newData.seqNumber);
      var index := 0;
      while index < |ownList|
        invariant index <= |ownList|
        invariant forall j :: 0 <= j < index ==> Numbers(ownList)[j] < newData.seqNumber
      {
        var data := ownList[index];
        if data.seqNumber == newData.seqNumber {
          assert false;
        } else if data.seqNumber < newData.seqNumber {
          index := index + 1;
        } else {
          break;
        }
      }
      RankIs(Numbers(ownList), newData.seqNumber, index);
      ghost var after := Abs().Offer(newData, LIST_SIZE);
      Abs().OfferKeepsOk(newData, LIST_SIZE);
      polledHashMap := polledHashMap[newData.seqNumber := true];
      ownList := ownList[..index] + [newData] + ownList[index..];
      if |ownList| > LIST_SIZE {
        ownList := ownList[1..];
      }
      assert Abs() == after;
      return true;
    }

    method Poll() returns (data: Option<Item<T>>)
      requires Valid()
      modifies this
      ensures Valid() && Abs() == old(Abs()).Poll()
      ensures data == if old(ownList) == [] then None else Some(old(ownList)[0])
    {
      if ownList == [] {
        return None;
      }
      Abs().PollKeepsOk();
      data := Some(ownList[0]);
      ownList := ownList[1..];
    }

    method Reset()
      requires Valid()
      modifies this
      ensures Valid() && Abs() == Jitter([], {})
    {
      ownList := [];
      polledHashMap := map[];
    }
  }

  type Packet = seq<int>

  /** The running figures of arrival gaps, in exact arithmetic. `deviation` is the root of `variance`. */
  datatype Gaps = Gaps(insertTime: int, maxInsertGap: int, average: real, variance: real) {

    function Arrival(currentTime: int): Gaps {
      if insertTime == 0 then this.(insertTime := currentTime)
      else
        var gap := currentTime - insertTime;
        var mean := average * 0.99 + gap as real * 0.01;
        var off := gap as real - mean;
        Gaps(currentTime, if maxInsertGap < gap then gap else maxInsertGap, mean, variance * 0.99 + Square(off) * 0.01)
    }

    /** The variance is a sum of squares, and zero only as long as every gap was. */
    ghost predicate Sound() {
      0.0 <= variance && (variance == 0.0 ==> average == 0.0)
    }

    /** Whatever the clock does. */
    lemma ArrivalKeepsSound(currentTime: int)
      requires Sound()
      ensures Arrival(currentTime).Sound()
    {
      if insertTime != 0 {
        var gap := (currentTime - insertTime) as real;
        var mean := average * 0.99 + gap * 0.01;
        SquareNotNegative(gap - mean);
      }
    }

    /**
      A hundredth of each new gap goes into the average: its distance from the gap shrinks to 99 hundredths, and a hundredth
      of the square of that goes into the variance.
     */
    lemma ArrivalApproaches(currentTime: int)
      requires insertTime != 0
      ensures var after, gap := Arrival(currentTime), (currentTime - insertTime) as real;
              && 100.0 * (gap - after.average) == 99.0 * (gap - average)
              && 100.0 * after.variance == 99.0 * variance + Square(gap - after.average)
              && after.insertTime == currentTime && after.maxInsertGap >= currentTime - insertTime && after.maxInsertGap >= maxInsertGap
              && after.maxInsertGap in {maxInsertGap, currentTime - insertTime}
    {
      hide Product;
    }

    /** Both figures stay within what the largest gap allows. */
    ghost predicate Bounded() {
      && 0 <= maxInsertGap && 0.0 <= average <= maxInsertGap as real
      && 0.0 <= variance <= Square(maxInsertGap as real)
    }

    /** While the clock does not run backwards, the average gap is at most the largest, the variance its square. */
    lemma ArrivalKeepsBounded(currentTime: int)
      requires Bounded() && insertTime <= currentTime
      ensures Arrival(currentTime).Bounded()
    {
      if insertTime != 0 {
        var gap, after := (currentTime - insertTime) as real, Arrival(currentTime);
        var most := after.maxInsertGap as real;
        SquareAtMost(gap - after.average, most);
        SquareAtMost(maxInsertGap as real, most);
      }
    }
  }

  /** `n` more packets, each `gap` behind the one before. */
  function Regular(g: Gaps, gap: int, n: nat): Gaps {
    if n == 0 then g else var before := Regular(g, gap, n - 1); before.Arrival(before.insertTime + gap)
  }

  /** How much of the first distance is left after `n` packets. */
  function Left(n: nat): real {
    if n == 0 then 1.0 else Left(n - 1) * 0.99
  }

  /** While packets come regularly the average approaches their gap, geometrically. */
  lemma {:induction false} RegularApproaches(g: Gaps, gap: int, n: nat)
    requires 0 < g.insertTime && 0 <= gap
    ensures var after := Regular(g, gap, n); 0 < after.insertTime && gap as real - after.average == Left(n) * (gap as real - g.average)
  {
    hide Gaps.Arrival;
    if n > 0 {
      RegularApproaches(g, gap, n - 1);
      var before := Regular(g, gap, n - 1);
      before.ArrivalApproaches(before.insertTime + gap);
      Shrinks(gap as real - before.average, gap as real - Regular(g, gap, n).average, Left(n - 1), gap as real - g.average);
    }
  }

  lemma Shrinks(d: real, d': real, left: real, first: real)
    requires 100.0 * d' == 99.0 * d && d == left * first
    ensures d' == left * 0.99 * first
  {
    assert left * 0.99 * first == 0.99 * (left * first);
  }

  function Product(a: real, b: real): real {
    a * b
  }

  function Square(x: real): real {
    Product(x, x)
  }

  lemma SameSign(a: real, b: real)
    ensures (a > 0.0 && b > 0.0) || (a < 0.0 && b < 0.0) ==> Product(a, b) > 0.0
    ensures a == 0.0 ==> Product(a, b) == 0.0
  {
  }

  lemma NotNegative(a: real, b: real)
    requires 0.0 <= a && 0.0 <= b
    ensures 0.0 <= Product(a, b)
  {
  }

  lemma SquareNotNegative(x: real)
    ensures 0.0 <= Square(x) && (x == 0.0 <==> Square(x) == 0.0)
  {
    hide Product;
    SameSign(x, x);
  }

  lemma SquareAtMost(x: real, m: real)
    requires -m <= x <= m
    ensures 0.0 <= Square(x) <= Square(m)
  {
    SquareNotNegative(x);
    NotNegative(m - x, m + x);
    assert Product(m - x, m + x) == m * m - x * x;
  }

  /** client/jni/PriorityQueue.cpp */
  class PriorityQueue {
    var ownList: seq<Item<Packet>>
    const QUEUE_SIZE: nat
    var gotNumberMap: map<int, bool>
    var gaps: Gaps
    var waiting: bool

    ghost function Abs(): Jitter<Packet>
      reads this
    {
      Jitter(ownList, gotNumberMap.Keys)
    }

    ghost predicate Valid()
      reads this
    {
      Abs().Ok() && |ownList| <= QUEUE_SIZE && gaps.Sound()
    }

    constructor (queueSize: nat)
      ensures Valid() && QUEUE_SIZE == queueSize && Abs() == Jitter([], {}) && gaps == Gaps(0, 0, 0.0, 0.0) && gaps.Bounded() && !waiting
    {
      ownList, QUEUE_SIZE, gotNumberMap, gaps, waiting := [], queueSize, map[], Gaps(0, 0, 0.0, 0.0), false;
    }

    /** Queues a packet under a number never seen before, and takes the gap to the one before into account. */
    method Put(seqNumber: int, buffer: Packet, currentTime: int) returns (accepted: bool)
      requires Valid()
      modifies this
      ensures Valid() && Abs() == old(Abs()).Offer(Item(seqNumber, buffer), QUEUE_SIZE) && waiting == old(waiting)
      ensures accepted <==> seqNumber !in old(Abs()).seen
      ensures gaps == if accepted then old(gaps).Arrival(currentTime) else old(gaps)
      ensures old(gaps).Bounded() && old(gaps).insertTime <= currentTime ==> gaps.Bounded()
    {
      hide Ascending, Rank, Jitter.Ok, Gaps.Arrival, Gaps.Bounded, Gaps.Sound;
      if seqNumber in gotNumberMap {
        return false;
      }
      Abs().NotQueued(seqNumber);
      var index := 0;
      while index < |ownList|
        invariant index <= |ownList|
        invariant forall j :: 0 <= j < index ==> Numbers(ownList)[j] < seqNumber
      {
        var item := ownList[index];
        if item.seqNumber == seqNumber {
          assert false;
        } else if item.seqNumber < seqNumber {
          index := index + 1;
        } else {
          break;
        }
      }
      var newItem := Item(seqNumber, buffer);
      RankIs(Numbers(ownList), seqNumber, index);
      ghost var after := Abs().Offer(newItem, QUEUE_SIZE);
      Abs().OfferKeepsOk(newItem, QUEUE_SIZE);
      if gaps.Bounded() && gaps.insertTime <= currentTime {
        gaps.ArrivalKeepsBounded(currentTime);
      }
      gaps.ArrivalKeepsSound(currentTime);
      gotNumberMap := gotNumberMap[seqNumber := true];
      ownList := ownList[..index] + [newItem] + ownList[index..];
      if |ownList| > QUEUE_SIZE {
        ownList := ownList[1..];
      }
      gaps := gaps.Arrival(currentTime);
      assert Abs() == after;
      return true;
    }

    /** Takes the first packet; one longer than `length` is lost and nothing is copied. */
    method Get(buffer: array<int>, length: nat) returns (n: nat)
      requires Valid() && length <= buffer.Length
      modifies this, buffer
      ensures Valid() && Abs() == old(Abs()).Poll() && gaps == old(gaps)
      ensures var fits := old(ownList) != [] && |old(ownList)[0].data| <= length;
              && n == (if fits then |old(ownList)[0].data| else 0)
              && buffer[..n] == (if fits then old(ownList)[0].data else [])
      ensures buffer[n..] == old(buffer[..])[n..]
      ensures waiting == (old(waiting) || old(ownList) == [])
    {
      if ownList == [] {
        waiting := true;
        return 0;
      }
      Abs().PollKeepsOk();
      var item := ownList[0];
      ownList := ownList[1..];
      if |item.data| > length {
        return 0;
      }
      n := |item.data|;
      forall i | 0 <= i < n {
        buffer[i] := item.data[i];
      }
    }

    method Reset()
      requires Valid()
      modifies this
      ensures Valid() && Abs() == Jitter([], {}) && gaps == Gaps(0, 0, 0.0, 0.0) && !waiting
    {
      ownList := [];
      gotNumberMap := map[];
      gaps := Gaps(0, 0, 0.0, 0.0);
      waiting := false;
    }

    function GetQueueCount(): nat
      reads this
    {
      |ownList|
    }
  }
}
