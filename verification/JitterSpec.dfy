/**
  The bounded, sorted, duplicate-free queue of sequence-numbered packets that
  client/src/voice/VoicePriorityList.java, server/voice/VoicePriorityList.java and
  client/jni/PriorityQueue.cpp all implement, and what holds of whole runs of it.
 */
module JitterSpec {
  datatype Item<T> = Item(seqNumber: int, data: T)

  function Numbers<T>(list: seq<Item<T>>): (r: seq<int>)
    ensures |r| == |list|
  {
    seq(|list|, i requires 0 <= i < |list| => list[i].seqNumber)
  }

  ghost predicate Ascending(s: seq<int>) {
    forall i, j :: 0 <= i < j < |s| ==> s[i] < s[j]
  }

  /** The place of number `n`: behind all smaller numbers. */
  function Rank(s: seq<int>, n: int): (i: nat)
    ensures i <= |s|
    ensures forall j :: 0 <= j < i ==> s[j] < n
    ensures i < |s| ==> s[i] >= n
  {
    if s == [] || s[0] >= n then 0 else 1 + Rank(s[1..], n)
  }

  function InsertAt<A>(s: seq<A>, i: nat, x: A): seq<A>
    requires i <= |s|
  {
    s[..i] + [x] + s[i..]
  }

  /** What is queued, and every number ever accepted. */
  datatype Jitter<T> = Jitter(list: seq<Item<T>>, seen: set<int>) {

    ghost predicate Ok() {
      Ascending(Numbers(list)) && forall x :: x in Numbers(list) ==> x in seen
    }

    function Offer(item: Item<T>, cap: nat): Jitter<T> {
      if item.seqNumber in seen then this
      else
        var longer := InsertAt(list, Rank(Numbers(list), item.seqNumber), item);
        Jitter(if |longer| > cap then longer[1..] else longer, seen + {item.seqNumber})
    }

    function Poll(): Jitter<T> {
      if list == [] then this else this.(list := list[1..])
    }

    /** The number given up by an offer, if any. */
    function Evicted(item: Item<T>, cap: nat): seq<int> {
      if item.seqNumber in seen then []
      else
        var longer := InsertAt(Numbers(list), Rank(Numbers(list), item.seqNumber), item.seqNumber);
        if |longer| > cap then [longer[0]] else []
    }

    lemma NumbersAfterOffer(item: Item<T>, cap: nat)
      requires item.seqNumber !in seen
      ensures var longer := InsertAt(Numbers(list), Rank(Numbers(list), item.seqNumber), item.seqNumber);
              Numbers(Offer(item, cap).list) == if |longer| > cap then longer[1..] else longer
    {
      hide Rank;
      var i := Rank(Numbers(list), item.seqNumber);
      NumbersInsert(list, i, item);
      assert Numbers(InsertAt(list, i, item)[1..]) == Numbers(InsertAt(list, i, item))[1..];
    }

    /** A number never accepted is not queued. */
    lemma NotQueued(n: int)
      requires Ok() && n !in seen
      ensures forall i :: 0 <= i < |list| ==> list[i].seqNumber != n
    {
      forall i | 0 <= i < |list|
        ensures list[i].seqNumber != n
      {
        assert Numbers(list)[i] in Numbers(list);
      }
    }

    lemma OfferKeepsOk(item: Item<T>, cap: nat)
      requires Ok()
      ensures Offer(item, cap).Ok()
    {
      hide Rank, Ascending;
      if item.seqNumber !in seen {
        var s, n := Numbers(list), item.seqNumber;
        NumbersAfterOffer(item, cap);
        InsertAscending(s, n);
        InsertMembers(s, Rank(s, n), n);
        TailAscending(InsertAt(s, Rank(s, n), n));
      }
    }

    lemma PollKeepsOk()
      requires Ok()
      ensures Poll().Ok()
    {
      if list != [] {
        assert Numbers(list[1..]) == Numbers(list)[1..];
      }
    }
  }

  lemma NumbersInsert<T>(list: seq<Item<T>>, i: nat, item: Item<T>)
    requires i <= |list|
    ensures Numbers(InsertAt(list, i, item)) == InsertAt(Numbers(list), i, item.seqNumber)
  {
  }

  lemma InsertMembers(s: seq<int>, i: nat, n: int)
    requires i <= |s|
    ensures forall x :: x in InsertAt(s, i, n) <==> x == n || x in s
  {
    assert s == s[..i] + s[i..];
  }

  lemma InsertAscending(s: seq<int>, n: int)
    requires Ascending(s) && n !in s
    ensures Ascending(InsertAt(s, Rank(s, n), n))
  {
    hide Rank;
    var i := Rank(s, n);
    assert i < |s| ==> s[i] in s;
    var longer := InsertAt(s, i, n);
    forall a, b | 0 <= a < b < |longer|
      ensures longer[a] < longer[b]
    {
      assert longer[b] == if b < i then s[b] else if b == i then n else s[b - 1];
      assert longer[a] == if a < i then s[a] else if a == i then n else s[a - 1];
    }
  }

  lemma HeadTail(s: seq<int>)
    requires s != []
    ensures forall x :: x in s <==> x == s[0] || x in s[1..]
  {
    assert s == [s[0]] + s[1..];
  }

  lemma TailAscending(s: seq<int>)
    requires Ascending(s) && s != []
    ensures Ascending(s[1..]) && forall x :: x in s[1..] ==> x in s
  {
  }

  lemma InsertElements(s: seq<int>, i: nat, n: int)
    requires i <= |s|
    ensures multiset(InsertAt(s, i, n)) == multiset(s) + multiset{n}
  {
    assert s == s[..i] + s[i..];
  }

  // ---- A queue that is only offered to keeps the largest numbers, in whatever order they come ----

  function OfferAll<T>(items: seq<Item<T>>, cap: nat): Jitter<T> {
    if items == [] then Jitter([], {})
    else OfferAll(items[..|items| - 1], cap).Offer(items[|items| - 1], cap)
  }

  function Offered<T>(items: seq<Item<T>>): set<int> {
    set x | x in Numbers(items)
  }

  /** `s` lists the `cap` largest members of `all` (or all of them), in ascending order. */
  ghost predicate IsTop(s: seq<int>, all: set<int>, cap: nat) {
    && Ascending(s)
    && (forall x :: x in s ==> x in all)
    && |s| == (if |all| < cap then |all| else cap)
    && (forall x, y :: x in all && x !in s && y in s ==> x < y)
  }

  lemma {:induction false} AscendingSize(s: seq<int>)
    requires Ascending(s)
    ensures |set x | x in s| == |s|
  {
    if s == [] {
    } else {
      var t, last := s[..|s| - 1], s[|s| - 1];
      AscendingSize(t);
      assert s == t + [last];
      assert (set x | x in s) == (set x | x in t) + {last};
    }
  }

  lemma InsertIsTop(s: seq<int>, all: set<int>, cap: nat, n: int)
    requires IsTop(s, all, cap) && n !in all
    ensures var longer := InsertAt(s, Rank(s, n), n);
            IsTop(if |longer| > cap then longer[1..] else longer, all + {n}, cap)
  {
    var longer := InsertAt(s, Rank(s, n), n);
    InsertAscending(s, n);
    InsertMembers(s, Rank(s, n), n);
    if |longer| <= cap {
      AscendingSize(s);
      SubsetSameSize((set x | x in s), all);
    } else {
      DropSmallest(s, all, cap, n, longer);
    }
  }

  lemma DropSmallest(s: seq<int>, all: set<int>, cap: nat, n: int, longer: seq<int>)
    requires IsTop(s, all, cap) && n !in all
    requires Ascending(longer) && |longer| == |s| + 1 > cap
    requires forall x :: x in longer <==> x == n || x in s
    ensures IsTop(longer[1..], all + {n}, cap)
  {
    var rest := longer[1..];
    HeadTail(longer);
    forall x, y | x in all + {n} && x !in rest && y in rest
      ensures x < y
    {
      var j :| 0 <= j < |rest| && rest[j] == y;
      assert longer[0] < longer[j + 1] == y;
      if x != longer[0] && y == n {
        assert longer[0] in longer && longer[0] in s;
      }
    }
  }

  lemma SubsetSameSize(a: set<int>, b: set<int>)
    requires a <= b && |a| == |b|
    ensures a == b
  {
    assert |b - a| == 0;
  }

  /** After any offers the queue holds exactly the `cap` largest distinct numbers offered, in ascending order. */
  lemma {:induction false} OffersKeepLargest<T>(items: seq<Item<T>>, cap: nat)
    ensures OfferAll(items, cap).seen == Offered(items)
    ensures IsTop(Numbers(OfferAll(items, cap).list), Offered(items), cap)
  {
    if items == [] {
    } else {
      var before, item := items[..|items| - 1], items[|items| - 1];
      var j := OfferAll(before, cap);
      OffersKeepLargest(before, cap);
      assert Numbers(items) == Numbers(before) + [item.seqNumber];
      assert Offered(items) == Offered(before) + {item.seqNumber};
      if item.seqNumber in j.seen {
        assert Offered(items) == Offered(before);
      } else {
        j.NumbersAfterOffer(item, cap);
        InsertIsTop(Numbers(j.list), j.seen, cap, item.seqNumber);
      }
    }
  }

  lemma {:induction false} AscendingSameElements(s: seq<int>, t: seq<int>)
    requires Ascending(s) && Ascending(t) && forall x :: x in s <==> x in t
    ensures s == t
  {
    AscendingSize(s);
    AscendingSize(t);
    assert (set x | x in s) == (set x | x in t);
    if s == [] {
    } else {
      SameHead(s, t);
      assert s == [s[0]] + s[1..] && t == [t[0]] + t[1..];
      AscendingSameElements(s[1..], t[1..]);
    }
  }

  lemma SameHead(s: seq<int>, t: seq<int>)
    requires Ascending(s) && Ascending(t) && s != [] && t != [] && forall x :: x in s <==> x in t
    ensures s[0] == t[0]
    ensures Ascending(s[1..]) && Ascending(t[1..]) && forall x :: x in s[1..] <==> x in t[1..]
  {
    assert s[0] in s && t[0] in t;
    HeadTail(s);
    HeadTail(t);
    HeadLeast(s);
    HeadLeast(t);
  }

  lemma HeadLeast(s: seq<int>)
    requires Ascending(s) && s != []
    ensures forall x :: x in s ==> s[0] <= x
    ensures s[0] !in s[1..]
  {
  }

  lemma Differ(a: set<int>, b: set<int>) returns (x: int)
    requires |a| == |b| && a != b
    ensures x in a && x !in b
  {
    if forall y :: y in a ==> y in b {
      SubsetSameSize(a, b);
      assert false;
    }
    x :| x in a && x !in b;
  }

  lemma TopIsUnique(s: seq<int>, t: seq<int>, all: set<int>, cap: nat)
    requires IsTop(s, all, cap) && IsTop(t, all, cap)
    ensures s == t
  {
    AscendingSize(s);
    AscendingSize(t);
    var a, b := set x | x in s, set x | x in t;
    if a != b {
      var x := Differ(a, b);
      var y := Differ(b, a);
      assert false;
    }
    forall x
      ensures x in s <==> x in t
    {
      assert x in s <==> x in a;
    }
    AscendingSameElements(s, t);
  }

  /** The order of offers and their repetition do not matter: only the set of numbers does. */
  lemma OrderDoesNotMatter<T>(items: seq<Item<T>>, others: seq<Item<T>>, cap: nat)
    requires Offered(items) == Offered(others)
    ensures Numbers(OfferAll(items, cap).list) == Numbers(OfferAll(others, cap).list)
  {
    OffersKeepLargest(items, cap);
    OffersKeepLargest(others, cap);
    TopIsUnique(Numbers(OfferAll(items, cap).list), Numbers(OfferAll(others, cap).list), Offered(items), cap);
  }

  // ---- Runs of offers and polls ----

  datatype Event<T> = Arrive(item: Item<T>) | Take

  /** The queue with a record of the numbers that left it, in order. */
  datatype History<T> = History(now: Jitter<T>, polled: seq<int>, evicted: seq<int>) {

    function Next(e: Event<T>, cap: nat): History<T> {
      match e
      case Arrive(item) => History(now.Offer(item, cap), polled, evicted + now.Evicted(item, cap))
      case Take => History(now.Poll(), if now.list == [] then polled else polled + [now.list[0].seqNumber], evicted)
    }

    /** Accepted numbers are, each exactly once, among the polled, the evicted or the queued. */
    ghost predicate Conserved() {
      && now.Ok()
      && multiset(now.seen) == multiset(polled) + multiset(evicted) + multiset(Numbers(now.list))
    }

    lemma NextConserves(e: Event<T>, cap: nat)
      requires Conserved()
      ensures Next(e, cap).Conserved()
    {
      match e
      case Arrive(item) =>
        if item.seqNumber !in now.seen {
          ArriveConserves(item, cap);
        }
      case Take =>
        now.PollKeepsOk();
        if now.list != [] {
          assert Numbers(now.list) == [now.list[0].seqNumber] + Numbers(now.list[1..]);
        }
    }

    lemma ArriveConserves(item: Item<T>, cap: nat)
      requires Conserved() && item.seqNumber !in now.seen
      ensures Next(Arrive(item), cap).Conserved()
    {
      hide Rank, Ascending, InsertAt;
      now.OfferKeepsOk(item, cap);
      var s, n, after := Numbers(now.list), item.seqNumber, Next(Arrive(item), cap);
      var longer := InsertAt(s, Rank(s, n), n);
      now.NumbersAfterOffer(item, cap);
      InsertElements(s, Rank(s, n), n);
      assert multiset(now.seen + {n}) == multiset(now.seen) + multiset{n};
      EvictSplits(evicted, longer, cap);
      assert after.evicted == evicted + if |longer| > cap then [longer[0]] else [];
      assert multiset(after.now.seen) == multiset(polled) + (multiset(evicted) + multiset(longer));
    }

    /** An offered number has at most `k` larger ones accepted before it; a poll finds more than `k` items. */
    ghost predicate InTime(e: Event<T>, k: nat) {
      match e
      case Arrive(item) => item.seqNumber !in now.seen ==> |Larger(item.seqNumber)| <= k
      case Take => |now.list| > k
    }

    function Larger(n: int): set<int> {
      set x | x in now.seen && n < x
    }

    /** What has been polled is in order, and all that is or will be queued comes after it. */
    ghost predicate InOrder(k: nat) {
      && now.Ok() && Ascending(polled)
      && (polled != [] ==>
            var last := polled[|polled| - 1];
            && (forall x :: x in Numbers(now.list) ==> last < x)
            && |From(last)| > k)
    }

    lemma NextInOrder(e: Event<T>, cap: nat, k: nat)
      requires InOrder(k) && InTime(e, k)
      ensures Next(e, cap).InOrder(k)
    {
      match e
      case Arrive(item) =>
        now.OfferKeepsOk(item, cap);
        if item.seqNumber !in now.seen {
          ArriveInOrder(item, cap, k);
        }
      case Take =>
        now.PollKeepsOk();
        TakeInOrder(cap, k);
    }

    /** The accepted numbers from `n` on. */
    function From(n: int): set<int> {
      set x | x in now.seen && n <= x
    }

    lemma ArriveInOrder(item: Item<T>, cap: nat, k: nat)
      requires InOrder(k) && item.seqNumber !in now.seen && |Larger(item.seqNumber)| <= k
      requires now.Offer(item, cap).Ok()
      ensures Next(Arrive(item), cap).InOrder(k)
    {
      hide Rank, Ascending, InsertAt;
      var n, s, after := item.seqNumber, Numbers(now.list), Next(Arrive(item), cap);
      now.NumbersAfterOffer(item, cap);
      if polled != [] {
        var last := polled[|polled| - 1];
        BehindLast(n, k);
        SubsetSize(From(last), after.From(last));
        InsertMembers(s, Rank(s, n), n);
        var longer := InsertAt(s, Rank(s, n), n);
        assert forall x :: x in longer[1..] ==> x in longer;
      }
    }

    /** A number in time comes after everything polled. */
    lemma BehindLast(n: int, k: nat)
      requires InOrder(k) && polled != [] && n !in now.seen && |Larger(n)| <= k
      ensures polled[|polled| - 1] < n
    {
      var last := polled[|polled| - 1];
      if n <= last {
        SubsetSize(From(last), Larger(n));
        assert false;
      }
    }

    lemma TakeInOrder(cap: nat, k: nat)
      requires InOrder(k) && |now.list| > k && now.Poll().Ok()
      ensures Next(Take, cap).InOrder(k)
    {
      var s := Numbers(now.list);
      assert s[0] in s;
      assert Numbers(now.list[1..]) == s[1..];
      AscendingSize(s);
      var queued := set x | x in s;
      SubsetSize(queued, From(s[0]));
      assert Next(Take, cap).From(s[0]) == From(s[0]);
    }
  }

  lemma EvictSplits(evicted: seq<int>, longer: seq<int>, cap: nat)
    ensures |longer| > cap ==>
              multiset(evicted + [longer[0]]) + multiset(longer[1..]) == multiset(evicted) + multiset(longer)
    ensures evicted + [] == evicted
  {
    if |longer| > cap {
      assert longer == [longer[0]] + longer[1..];
    }
  }

  lemma SubsetSize(a: set<int>, b: set<int>)
    requires a <= b
    ensures |a| <= |b|
  {
    assert b == a + (b - a);
  }

  function Begin<T>(): History<T> {
    History(Jitter([], {}), [], [])
  }

  function Run<T>(events: seq<Event<T>>, cap: nat): History<T> {
    if events == [] then Begin()
    else Run(events[..|events| - 1], cap).Next(events[|events| - 1], cap)
  }

  /** Conservation and at-most-once, over every run. */
  lemma {:induction false} RunConserves<T>(events: seq<Event<T>>, cap: nat)
    ensures Run(events, cap).Conserved()
  {
    if events == [] {
    } else {
      RunConserves(events[..|events| - 1], cap);
      Run(events[..|events| - 1], cap).NextConserves(events[|events| - 1], cap);
    }
  }

  /** No accepted number leaves the queue twice. */
  lemma AtMostOnce<T>(events: seq<Event<T>>, cap: nat, i: nat, j: nat)
    requires i < j < |Run(events, cap).polled|
    ensures Run(events, cap).polled[i] != Run(events, cap).polled[j]
    ensures Run(events, cap).polled[i] !in Run(events, cap).evicted
    ensures Run(events, cap).polled[i] !in Numbers(Run(events, cap).now.list)
  {
    RunConserves(events, cap);
    var h := Run(events, cap);
    OnceInAll(h.polled, h.evicted, Numbers(h.now.list), h.now.seen, i, j);
  }

  lemma OnceInAll(a: seq<int>, b: seq<int>, c: seq<int>, all: set<int>, i: nat, j: nat)
    requires multiset(all) == multiset(a) + multiset(b) + multiset(c) && i < j < |a|
    ensures a[i] != a[j] && a[i] !in b && a[i] !in c
  {
    var x := a[i];
    assert multiset(all)[x] <= 1;
    assert a == a[..i] + [x] + a[i + 1..];
    assert a[j] in a[i + 1..] by {
      assert a[i + 1..][j - i - 1] == a[j];
    }
  }

  ghost predicate AllInTime<T>(events: seq<Event<T>>, cap: nat, k: nat) {
    forall i :: 0 <= i < |events| ==> Run(events[..i], cap).InTime(events[i], k)
  }

  /**
    In-order delivery: if no accepted packet comes later than `k` larger ones, and every poll finds more
    than `k` items, then the polled numbers are strictly increasing, with duplicates and evictions allowed.
   */
  lemma {:induction false} PolledInOrder<T>(events: seq<Event<T>>, cap: nat, k: nat)
    requires AllInTime(events, cap, k)
    ensures Run(events, cap).InOrder(k)
    ensures Ascending(Run(events, cap).polled)
  {
    if events == [] {
    } else {
      var before := events[..|events| - 1];
      forall i | 0 <= i < |before|
        ensures Run(before[..i], cap).InTime(before[i], k)
      {
        assert before[..i] == events[..i];
      }
      PolledInOrder(before, cap, k);
      Run(before, cap).NextInOrder(events[|events| - 1], cap, k);
    }
  }

  /** A number larger than all queued goes to the end, one smaller to the front, while there is room. */
  lemma OfferAtEnds<T>(j: Jitter<T>, item: Item<T>, cap: nat)
    requires item.seqNumber !in j.seen && |j.list| < cap
    ensures (forall i :: 0 <= i < |j.list| ==> j.list[i].seqNumber < item.seqNumber)
       ==> j.Offer(item, cap) == Jitter(j.list + [item], j.seen + {item.seqNumber})
    ensures (forall i :: 0 <= i < |j.list| ==> item.seqNumber < j.list[i].seqNumber)
       ==> j.Offer(item, cap) == Jitter([item] + j.list, j.seen + {item.seqNumber})
    ensures j.Evicted(item, cap) == []
  {
    var s, n := Numbers(j.list), item.seqNumber;
    var i := Rank(s, n);
    hide Rank;
    if forall i :: 0 <= i < |j.list| ==> j.list[i].seqNumber < n {
      assert i == |s|;
      assert j.list[..i] == j.list && j.list[i..] == [];
    }
    if forall i :: 0 <= i < |j.list| ==> n < j.list[i].seqNumber {
      assert s != [] ==> n < s[0];
      assert j.list[..0] == [] && j.list[0..] == j.list;
    }
  }

  /** The numbers from 2 on arrive in order. */
  function Upwards(k: nat): (r: seq<Event<()>>)
    ensures |r| == k
  {
    if k == 0 then [] else Upwards(k - 1) + [Arrive(Item(k + 1, ()))]
  }

  function FromTwo(k: nat): (r: seq<Item<()>>)
    ensures |r| == k && forall i :: 0 <= i < k ==> r[i].seqNumber == i + 2
  {
    if k == 0 then [] else FromTwo(k - 1) + [Item(k + 1, ())]
  }

  function UpTo(k: nat): (r: set<int>)
    ensures forall x :: x in r <==> 2 <= x < k + 2
  {
    if k == 0 then {} else UpTo(k - 1) + {k + 1}
  }

  lemma {:induction false} UpToSize(k: nat)
    ensures |UpTo(k)| == k
  {
    if k == 0 {
    } else {
      UpToSize(k - 1);
    }
  }

  lemma {:induction false} UpwardsStart(i: nat, k: nat)
    requires i < k
    ensures Upwards(k)[..i] == Upwards(i) && Upwards(k)[i] == Arrive(Item(i + 2, ()))
  {
    if i == k - 1 {
    } else {
      UpwardsStart(i, k - 1);
    }
  }

  /** While there is room, they are all queued, and none was late. */
  lemma {:induction false} UpwardsRun(k: nat, cap: nat)
    requires k <= cap
    ensures Run(Upwards(k), cap) == History(Jitter(FromTwo(k), UpTo(k)), [], [])
    ensures Run(Upwards(k), cap).Larger(k + 2) == {}
  {
    hide Rank, Jitter.Offer, Jitter.Evicted;
    if k == 0 {
    } else {
      UpwardsRun(k - 1, cap);
      var h, item := Run(Upwards(k - 1), cap), Item(k + 1, ());
      assert Upwards(k)[..k - 1] == Upwards(k - 1);
      OfferAtEnds(h.now, item, cap);
      assert h.evicted + [] == [];
    }
  }

  /**
    One item fewer at a poll is too few, for every `k` and every list that holds that many: the numbers 2 to k + 1
    arrive, a poll finds `k` items, then 1 arrives with exactly `k` larger ones accepted, in time; the next poll again
    finds `k` items, and delivers 1 behind 2.
   */
  lemma GuaranteeIsTight(k: nat, cap: nat)
    requires 1 <= k <= cap
    ensures forall i :: 0 <= i < k ==> Run(Upwards(k)[..i], cap).InTime(Upwards(k)[i], k)
    ensures var late: Event<()> := Arrive(Item(1, ()));
            var full := Run(Upwards(k), cap);
            var polled := full.Next(Take, cap);
            var again := polled.Next(late, cap);
            && |full.now.list| == k && |again.now.list| == k
            && polled.InTime(late, k) && |polled.Larger(1)| == k
            && again.Next(Take, cap).polled == [2, 1]
  {
    hide Run, Jitter.Offer, Jitter.Evicted, Upwards;
    forall i | 0 <= i < k
      ensures Run(Upwards(k)[..i], cap).InTime(Upwards(k)[i], k)
    {
      UpwardsStart(i, k);
      UpwardsRun(i, cap);
    }
    UpwardsRun(k, cap);
    var late: Item<()> := Item(1, ());
    var polled := Run(Upwards(k), cap).Next(Take, cap);
    assert polled == History(Jitter(FromTwo(k)[1..], UpTo(k)), [2], []);
    assert polled.Larger(1) == UpTo(k);
    UpToSize(k);
    OfferAtEnds(polled.now, late, cap);
  }
}
