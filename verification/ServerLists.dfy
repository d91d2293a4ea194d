/**
  The voice lists inside the server's reads: what a read does to a session's list is a run of arrivals and
  polls, so what holds for every run of a list holds for the lists of the server.
 */
module ServerLists {
  import opened Framing
  import opened Options
  import opened Ownership
  import opened PacketTokenizing
  import opened Subsequences
  import opened VoicePacket
  import opened VoiceDataLists
  import opened Traffics

  /** A run continued from some point. */
  function Continue(h: History, events: seq<Event>): History
    decreases |events|
  {
    if events == [] then h else Continue(h.Next(events[0], VOICE_BUFFER_QUEUE_SIZE), events[1..])
  }

  lemma RunStep(past: seq<Event>, e: Event)
    ensures Run(past + [e], VOICE_BUFFER_QUEUE_SIZE) == Run(past, VOICE_BUFFER_QUEUE_SIZE).Next(e, VOICE_BUFFER_QUEUE_SIZE)
  {
    hide History.Next;
    assert (past + [e])[..|past|] == past;
  }

  lemma {:induction false} ContinueRun(past: seq<Event>, events: seq<Event>)
    ensures Continue(Run(past, VOICE_BUFFER_QUEUE_SIZE), events) == Run(past + events, VOICE_BUFFER_QUEUE_SIZE)
    decreases |events|
  {
    hide History.Next, Run;
    if events == [] {
      assert past + events == past;
    } else {
      RunStep(past, events[0]);
      ContinueRun(past + [events[0]], events[1..]);
      assert past + [events[0]] + events[1..] == past + events;
    }
  }

  lemma {:induction false} ContinueBoth(h: History, a: seq<Event>, b: seq<Event>)
    ensures Continue(h, a + b) == Continue(Continue(h, a), b)
    decreases |a|
  {
    if a == [] {
      assert a + b == b;
    } else {
      assert (a + b)[1..] == a[1..] + b;
      ContinueBoth(h.Next(a[0], VOICE_BUFFER_QUEUE_SIZE), a[1..], b);
    }
  }

  function Takes(n: nat): (r: seq<Event>)
    ensures |r| == n
  {
    seq(n, i => Take)
  }

  /** Polling `n` times takes the first `n`, or all if there are fewer. */
  lemma {:induction false} TakesPoll(h: History, n: nat)
    ensures Continue(h, Takes(n)).now == h.now.(list := h.now.list[AtMost(|h.now.list|, n)..])
    decreases n
  {
    if n == 0 {
    } else {
      assert Takes(n)[1..] == Takes(n - 1) && Takes(n)[0] == Take;
      TakesPoll(h.Next(Take, VOICE_BUFFER_QUEUE_SIZE), n - 1);
    }
  }

  /** What one voice packet of session `t` means for the list of `s`. */
  function PacketEvents(b: DataBuffer, t: int, s: int, r: Registry): seq<Event> {
    (if t == s then [Arrive(b)] else [])
    + (if t in r.peers && r.peers[t] == s then Takes(RELAY_LIMIT + 1) else [])
  }

  /** What a TCP read of the queued packets means for the list of `s`. */
  function ReadEvents(q: seq<Buffer>, s: int, r: Registry): seq<Event> {
    if q == [] then []
    else match TcpVerdict(q[0].bytes, r)
      case Throws => []
      case Drop(_) => []
      case Data(t) => PacketEvents(q[0], t, s, r) + ReadEvents(q[1..], s, r)
      case _ => ReadEvents(q[1..], s, r)
  }

  lemma ListedStep(m: Memory, b: DataBuffer, t: int, s: int, sessions: set<int>)
    requires Ready(m, sessions) && t in sessions && s in sessions
    ensures Ready(Listed(m, t, b), sessions)
    ensures ListOf(Listed(m, t, b), s) == if t == s then ListOf(m, s).Offer(b, VOICE_BUFFER_QUEUE_SIZE) else ListOf(m, s)
  {
    hide SeqOf, DataList.Offer, DataList.Evicted;
  }

  lemma PolledStep(m: Memory, p: int, s: int, sessions: set<int>)
    requires Ready(m, sessions) && p in sessions && s in sessions
    ensures Ready(Polled(m, p, RELAY_LIMIT + 1), sessions)
    ensures var before := ListOf(m, s);
            ListOf(Polled(m, p, RELAY_LIMIT + 1), s)
            == if p == s then before.(list := before.list[AtMost(|before.list|, RELAY_LIMIT + 1)..]) else before
  {
  }

  lemma PacketIsRun(m: Memory, b: DataBuffer, t: int, s: int, r: Registry, sessions: set<int>, h: History)
    requires Ready(m, sessions) && t in sessions && s in sessions && r.Within(sessions) && h.now == ListOf(m, s)
    ensures ListOf(TcpData(m, b, t, r, sessions).memory, s) == Continue(h, PacketEvents(b, t, s, r)).now
  {
    hide AllData, SeqOf, Relayed, Listed, Polled, ListOf, DataList.Evicted, DataList.Offer;
    var arrival := if t == s then [Arrive(b)] else [];
    var h' := Continue(h, arrival);
    ContinueBoth(h, arrival, if t in r.peers && r.peers[t] == s then Takes(RELAY_LIMIT + 1) else []);
    ListedStep(m, b, t, s, sessions);
    if t in r.peers {
      PolledStep(Listed(m, t, b), r.peers[t], s, sessions);
      TakesPoll(h', RELAY_LIMIT + 1);
    }
  }

  /** A whole TCP read, seen from the list of `s`, is a run of arrivals and polls. */
  lemma {:induction false} ReadIsRun(m: Memory, p: Place, sent: seq<seq<byte>>, r: Registry, sessions: set<int>, s: int, h: History)
    requires Ready(m, sessions) && r.Within(sessions) && p in m.at && p.VoiceTokens? && s in sessions && h.now == ListOf(m, s)
    ensures ListOf(TcpRun(m, p, sent, r, sessions).memory, s) == Continue(h, ReadEvents(m.at[p], s, r)).now
    decreases |m.at[p]|
  {
    hide Ready, AllData, TcpVerdict, TcpData, PacketEvents;
    if m.at[p] == [] {
    } else {
      var b, rest := m.at[p][0], Popped(m, p);
      ReadyPopped(m, p, b, sessions);
      SameList(m, p, b, s, sessions);
      match TcpVerdict(b.bytes, r)
      case Throws =>
      case Drop(_) =>
      case Data(t) =>
        TcpDataReadable(b.bytes, r, sessions);
        var e := TcpData(rest, b, t, r, sessions);
        PacketIsRun(rest, b, t, s, r, sessions, h);
        ContinueBoth(h, PacketEvents(b, t, s, r), ReadEvents(m.at[p][1..], s, r));
        ReadIsRun(e.memory, p, sent + e.sent, r, sessions, s, Continue(h, PacketEvents(b, t, s, r)));
      case _ =>
        ReadIsRun(Freed(rest, b), p, sent, r, sessions, s, h);
    }
  }

  lemma SameList(m: Memory, p: Place, b: Buffer, s: int, sessions: set<int>)
    requires Ready(m, sessions) && p in m.at && p.VoiceTokens? && m.at[p] != [] && s in sessions
    ensures ListOf(m, s) == ListOf(Popped(m, p), s) == ListOf(Freed(Popped(m, p), b), s) == ListOf(Dropped(Popped(m, p), b), s)
  {
  }

  /**
    First in, first out at the server: if a session's list is where a run has led it, a TCP read leads it on
    along the run prolonged by the read's own arrivals and polls; what has left the list since the last reset
    and what is still in it are the first arrivals, in order.
   */
  lemma ServerFirstInFirstOut(m: Memory, p: Place, r: Registry, sessions: set<int>, s: int, past: seq<Event>)
    requires Ready(m, sessions) && r.Within(sessions) && p in m.at && p.VoiceTokens? && s in sessions
    requires ListOf(m, s) == Run(past, VOICE_BUFFER_QUEUE_SIZE).now
    ensures var events := past + ReadEvents(m.at[p], s, r);
            var h := Run(events, VOICE_BUFFER_QUEUE_SIZE);
            && ListOf(TcpRun(m, p, [], r, sessions).memory, s) == h.now
            && GoneBuffers(h.gone) + h.now.list == FirstArrivals(events)
            && |h.now.list| <= VOICE_BUFFER_QUEUE_SIZE
  {
    hide Ready, AllData, TcpRun, FirstArrivals;
    ReadIsRun(m, p, [], r, sessions, s, Run(past, VOICE_BUFFER_QUEUE_SIZE));
    ContinueRun(past, ReadEvents(m.at[p], s, r));
    FirstInFirstOut(past + ReadEvents(m.at[p], s, r), VOICE_BUFFER_QUEUE_SIZE);
  }

  lemma DeliveredNext(gone: seq<Gone>, g: Gone)
    ensures Delivered(gone + [g]) == Delivered(gone) + (if g.delivered then [g.b] else [])
  {
    assert (gone + [g])[..|gone|] == gone;
  }

  lemma ArrivalDeliversNothing(h: History, b: DataBuffer)
    ensures Delivered(h.Next(Arrive(b), VOICE_BUFFER_QUEUE_SIZE).gone) == Delivered(h.gone)
  {
    hide SeqOf, Delivered;
    var out := h.now.Evicted(b, VOICE_BUFFER_QUEUE_SIZE);
    if out != [] {
      DeliveredNext(h.gone, Gone(out[0], false));
    } else {
      assert h.gone + [] == h.gone;
    }
  }

  lemma {:induction false} TakesDeliver(h: History, n: nat)
    ensures Delivered(Continue(h, Takes(n)).gone) == Delivered(h.gone) + h.now.list[..AtMost(|h.now.list|, n)]
    decreases n
  {
    hide Delivered;
    if n == 0 {
    } else {
      assert Takes(n)[1..] == Takes(n - 1) && Takes(n)[0] == Take;
      var next := h.Next(Take, VOICE_BUFFER_QUEUE_SIZE);
      TakesDeliver(next, n - 1);
      if h.now.list != [] {
        DeliveredNext(h.gone, Gone(h.now.list[0], true));
        assert h.now.list[..AtMost(|h.now.list|, n)] == [h.now.list[0]] + next.now.list[..AtMost(|next.now.list|, n - 1)];
      } else {
        assert h.gone + [] == h.gone;
      }
    }
  }

  /**
    What the server writes for a voice packet of `t` are the packets that the read polls from the list of the
    peer of `t`: all of them up to ten, in order, each with its marker; an eleventh is polled but not written.
   */
  lemma SentWasPolled(m: Memory, b: DataBuffer, t: int, r: Registry, sessions: set<int>, h: History)
    requires Ready(m, sessions) && t in sessions && r.Within(sessions) && t in r.peers && h.now == ListOf(m, r.peers[t])
    ensures var before, after := Delivered(h.gone), Delivered(Continue(h, PacketEvents(b, t, r.peers[t], r)).gone);
            && before <= after && |after| <= |before| + 11
            && var polled := after[|before|..];
            TcpData(m, b, t, r, sessions).sent == Relayed(if |polled| <= 10 then polled else polled[..10])
  {
    hide AllData, SeqOf, Relayed, Listed, ListOf, Delivered, DataList.Evicted, DataList.Offer;
    var p := r.peers[t];
    var arrival := if t == p then [Arrive(b)] else [];
    var h' := Continue(h, arrival);
    ContinueBoth(h, arrival, Takes(RELAY_LIMIT + 1));
    ListedStep(m, b, t, p, sessions);
    ArrivalDeliversNothing(h, b);
    TakesDeliver(h', RELAY_LIMIT + 1);
    ListedList(m, b, t, p, sessions);
    var list := h'.now.list;
    assert list[..AtMost(|list|, RELAY_LIMIT + 1)][..AtMost(|list|, RELAY_LIMIT)] == list[..AtMost(|list|, RELAY_LIMIT)];
  }

  lemma ListedList(m: Memory, b: DataBuffer, t: int, p: int, sessions: set<int>)
    requires Ready(m, sessions) && t in sessions && p in sessions
    ensures Ready(Listed(m, t, b), sessions) && ListOf(Listed(m, t, b), p).list == Listed(m, t, b).at[VoiceList(p)]
  {
    ListedStep(m, b, t, p, sessions);
  }

  /** The buffers that arrive during a run, in order. */
  function Arrivals(events: seq<Event>): seq<DataBuffer> {
    if events == [] then []
    else Arrivals(events[..|events| - 1]) + (if events[|events| - 1].Arrive? then [events[|events| - 1].b] else [])
  }

  lemma NoBytes()
    ensures BytesOf([]) == []
  {
  }

  lemma BytesJoin(a: seq<Buffer>, b: seq<Buffer>)
    ensures BytesOf(a + b) == BytesOf(a) + BytesOf(b)
    ensures |a| == 1 ==> BytesOf(a) == [a[0].bytes]
  {
  }

  // ---- What a read forwards ----

  /** The packets that the packet loop takes from peers' lists and writes. */
  ghost function RunForwards(m: Memory, p: Place, r: Registry, sessions: set<int>): seq<Buffer>
    requires Ready(m, sessions) && r.Within(sessions) && p in m.at && p.VoiceTokens?
    decreases |m.at[p]|
  {
    if m.at[p] == [] then []
    else
      var b, rest := m.at[p][0], Popped(m, p);
      ReadyPopped(m, p, b, sessions);
      match TcpVerdict(b.bytes, r)
      case Throws => []
      case Drop(_) => []
      case Data(t) =>
        TcpDataReadable(b.bytes, r, sessions);
        PacketForwards(rest, b, t, r, sessions) + RunForwards(TcpData(rest, b, t, r, sessions).memory, p, r, sessions)
      case _ => RunForwards(Freed(rest, b), p, r, sessions)
  }

  /** For one voice packet of `t`: the first ten of the peer's list. */
  ghost function PacketForwards(m: Memory, b: DataBuffer, t: int, r: Registry, sessions: set<int>): seq<Buffer>
    requires Ready(m, sessions) && t in sessions && r.Within(sessions)
  {
    if t !in r.peers then []
    else
      ListedReady(m, t, b, sessions);
      var q := Listed(m, t, b).at[VoiceList(r.peers[t])];
      q[..AtMost(|q|, RELAY_LIMIT)]
  }

  lemma {:induction false} RelayedJoin(a: seq<Buffer>, b: seq<Buffer>)
    ensures Relayed(a + b) == Relayed(a) + Relayed(b)
  {
    if b == [] {
      assert a + b == a;
    } else {
      assert (a + b)[..|a + b| - 1] == a + b[..|b| - 1];
      RelayedJoin(a, b[..|b| - 1]);
    }
  }

  lemma PacketSends(m: Memory, b: DataBuffer, t: int, r: Registry, sessions: set<int>)
    requires Ready(m, sessions) && t in sessions && r.Within(sessions)
    ensures TcpData(m, b, t, r, sessions).sent == Relayed(PacketForwards(m, b, t, r, sessions))
  {
    hide AllData, Listed, Polled;
  }

  /** What the packet loop writes is what it forwards, in order, each packet with its marker. */
  lemma {:induction false} RunSends(m: Memory, p: Place, sent: seq<seq<byte>>, r: Registry, sessions: set<int>)
    requires Ready(m, sessions) && r.Within(sessions) && p in m.at && p.VoiceTokens?
    ensures TcpRun(m, p, sent, r, sessions).sent == sent + Relayed(RunForwards(m, p, r, sessions))
    decreases |m.at[p]|
  {
    hide Ready, TcpVerdict, TcpData, PacketForwards, Relayed;
    NothingRelayed();
    assert sent + [] == sent;
    if m.at[p] == [] {
    } else {
      var b, rest := m.at[p][0], Popped(m, p);
      ReadyPopped(m, p, b, sessions);
      match TcpVerdict(b.bytes, r)
      case Throws =>
      case Drop(_) =>
      case Data(t) =>
        TcpDataReadable(b.bytes, r, sessions);
        var e := TcpData(rest, b, t, r, sessions);
        PacketSends(rest, b, t, r, sessions);
        RunSends(e.memory, p, sent + e.sent, r, sessions);
        RelayedJoin(PacketForwards(rest, b, t, r, sessions), RunForwards(e.memory, p, r, sessions));
      case _ =>
        RunSends(Freed(rest, b), p, sent, r, sessions);
    }
  }

  lemma NothingRelayed()
    ensures Relayed([]) == []
  {
  }

  /** Whoever sends these packets is calling `s`, if anybody. */
  ghost predicate AllCalling(q: seq<Buffer>, s: int, r: Registry) {
    forall i :: 0 <= i < |q| ==> Calling(q[i].bytes, s, r)
  }

  ghost predicate Calling(p: seq<byte>, s: int, r: Registry) {
    var v := TcpVerdict(p, r);
    v.Data? && v.session in r.peers ==> r.peers[v.session] == s
  }

  lemma {:induction false} DeliveredGrows(h: History, events: seq<Event>)
    ensures Delivered(h.gone) <= Delivered(Continue(h, events).gone)
    decreases |events|
  {
    hide Delivered;
    if events == [] {
    } else {
      NextDelivers(h, events[0]);
      DeliveredGrows(h.Next(events[0], VOICE_BUFFER_QUEUE_SIZE), events[1..]);
    }
  }

  lemma NextDelivers(h: History, e: Event)
    ensures Delivered(h.gone) <= Delivered(h.Next(e, VOICE_BUFFER_QUEUE_SIZE).gone)
  {
    hide Delivered;
    match e
    case Arrive(b) => ArrivalDeliversNothing(h, b);
    case Take =>
      if h.now.list != [] {
        DeliveredNext(h.gone, Gone(h.now.list[0], true));
      } else {
        assert h.gone + [] == h.gone;
      }
    case Clear => GivenUpNotDelivered(h.gone, h.now.list);
  }

  lemma {:induction false} GivenUpNotDelivered(gone: seq<Gone>, list: seq<DataBuffer>)
    ensures Delivered(gone + GivenUp(list)) == Delivered(gone)
  {
    if list == [] {
      assert gone + GivenUp(list) == gone;
    } else {
      var front, last := list[..|list| - 1], list[|list| - 1];
      GivenUpNotDelivered(gone, front);
      DeliveredNext(gone + GivenUp(front), Gone(last, false));
      assert gone + GivenUp(front) + [Gone(last, false)] == gone + GivenUp(list);
    }
  }

  /** What a run from `h` delivers. */
  ghost function Deliveries(h: History, events: seq<Event>): seq<DataBuffer> {
    DeliveredGrows(h, events);
    Delivered(Continue(h, events).gone)[|Delivered(h.gone)|..]
  }

  lemma DeliveriesJoin(h: History, a: seq<Event>, b: seq<Event>)
    ensures Deliveries(h, a + b) == Deliveries(h, a) + Deliveries(Continue(h, a), b)
    ensures Deliveries(h, []) == []
  {
    hide Delivered, Continue;
    ContinueBoth(h, a, b);
    DeliveredGrows(h, a);
    DeliveredGrows(Continue(h, a), b);
    DeliveredGrows(h, a + b);
    ContinueNothing(h);
  }

  lemma ContinueNothing(h: History)
    ensures Continue(h, []) == h
  {
  }

  lemma PacketForwardsPolled(m: Memory, b: DataBuffer, t: int, s: int, r: Registry, sessions: set<int>, h: History)
    requires Ready(m, sessions) && t in sessions && s in sessions && r.Within(sessions) && h.now == ListOf(m, s)
    requires t in r.peers ==> r.peers[t] == s
    ensures Subsequence<Buffer>(PacketForwards(m, b, t, r, sessions), Deliveries(h, PacketEvents(b, t, s, r)))
  {
    hide AllData, SeqOf, Listed, ListOf, Delivered, DataList.Evicted, DataList.Offer, Subsequence;
    if t in r.peers {
      var arrival := if t == s then [Arrive(b)] else [];
      var h' := Continue(h, arrival);
      ContinueBoth(h, arrival, Takes(RELAY_LIMIT + 1));
      ListedStep(m, b, t, s, sessions);
      ArrivalDeliversNothing(h, b);
      TakesDeliver(h', RELAY_LIMIT + 1);
      ListedList(m, b, t, s, sessions);
      var list: seq<Buffer> := h'.now.list;
      var polled := list[..AtMost(|list|, RELAY_LIMIT + 1)];
      assert polled[..AtMost(|list|, RELAY_LIMIT)] == list[..AtMost(|list|, RELAY_LIMIT)];
      assert Deliveries(h, PacketEvents(b, t, s, r)) == polled;
      SubsequenceFront(polled, AtMost(|list|, RELAY_LIMIT));
    } else {
      SubsequenceNone<Buffer>(Deliveries(h, PacketEvents(b, t, s, r)));
    }
  }

  /** If all whose packets are read are calling `s`, what is forwarded is, in order, part of what the read polls from its list. */
  lemma {:induction false} RunForwardsPolled(m: Memory, p: Place, r: Registry, sessions: set<int>, s: int, h: History)
    requires Ready(m, sessions) && r.Within(sessions) && p in m.at && p.VoiceTokens? && s in sessions && h.now == ListOf(m, s)
    requires AllCalling(m.at[p], s, r)
    ensures Subsequence<Buffer>(RunForwards(m, p, r, sessions), Deliveries(h, ReadEvents(m.at[p], s, r)))
    decreases |m.at[p]|
  {
    hide Ready, AllData, TcpVerdict, TcpData, PacketEvents, PacketForwards, Deliveries, Subsequence, ListOf;
    DeliveriesJoin(h, [], []);
    if m.at[p] == [] {
      SubsequenceNone<Buffer>([]);
    } else {
      var b, rest := m.at[p][0], Popped(m, p);
      ReadyPopped(m, p, b, sessions);
      SameList(m, p, b, s, sessions);
      assert Calling(b.bytes, s, r);
      match TcpVerdict(b.bytes, r)
      case Throws => SubsequenceNone<Buffer>([]);
      case Drop(_) => SubsequenceNone<Buffer>([]);
      case Data(t) =>
        TcpDataReadable(b.bytes, r, sessions);
        var e := TcpData(rest, b, t, r, sessions);
        var events := PacketEvents(b, t, s, r);
        PacketIsRun(rest, b, t, s, r, sessions, h);
        PacketForwardsPolled(rest, b, t, s, r, sessions, h);
        RunForwardsPolled(e.memory, p, r, sessions, s, Continue(h, events));
        DeliveriesJoin(h, events, ReadEvents(m.at[p][1..], s, r));
        SubsequenceJoin<Buffer>(PacketForwards(rest, b, t, r, sessions), Deliveries(h, events),
                                RunForwards(e.memory, p, r, sessions), Deliveries(Continue(h, events), ReadEvents(m.at[p][1..], s, r)));
      case _ =>
        RunForwardsPolled(Freed(rest, b), p, r, sessions, s, h);
    }
  }
}
