/**
  Runs of the server: any steps, in any order, each with the registered sessions and calls of its moment. How a session's
  list is led along by them, and what is written to whom.
 */
module ServerRuns {
  import opened Framing
  import opened Options
  import opened Ownership
  import opened PacketTokenizing
  import opened ServerLists
  import opened ServerSteps
  import opened Subsequences
  import opened Traffics
  import opened VoiceDataLists
  import opened VoicePacket

  /** The step is a read on channel `c`. */
  predicate On(step: Step, c: Place) {
    step.Tcp? && step.read.place == c
  }

  /** A read that gets to handle packets. */
  predicate Handles(m: Memory, read: Read) {
    Reaches(m, read.place, read.input) && |Found(m, read.place, read.input.value)| < |m.free|
  }

  /** The packets a read finds queued when it comes to handle them. */
  function StepQueue(m: Memory, read: Read): seq<Buffer> {
    if Handles(m, read) then QueuedAfter(m, read.place, read.input.value) else []
  }

  /** The memory with them queued. */
  function AtPackets(m: Memory, read: Read): Memory
    requires Handles(m, read)
  {
    Freed(Tokenized(Taken(m), read.place, read.input.value), Buffer(m.free[0].key, read.input.value))
  }

  lemma AtPacketsIs(m: Memory, read: Read, r: Registry, sessions: set<int>)
    requires Ready(m, sessions) && r.Within(sessions) && read.place.VoiceTokens? && Handles(m, read)
    ensures var t := AtPackets(m, read);
            && Ready(t, sessions) && read.place in t.at && t.at == m.at[read.place := StepQueue(m, read)]
            && t.offered == m.offered && t.streams == Fed(m, read.place, read.input.value).streams
            && TcpRead(m, read.place, read.input, r, sessions) == TcpRun(t, read.place, [], r, sessions)
  {
    hide Tokenizer.Put, TcpRun, AllData;
    var b := Buffer(m.free[0].key, read.input.value);
    TokenizedQueue(m, read.place, read.input.value, b);
    TokenizedReady(m, read.place, read.input.value, b, sessions);
  }

  /** A read that handles no packets leaves lists alone and writes nothing. */
  lemma NotHandling(m: Memory, read: Read, r: Registry, sessions: set<int>, s: int)
    requires Ready(m, sessions) && r.Within(sessions) && read.place.VoiceTokens? && !Handles(m, read) && s in sessions
    ensures var e := TcpRead(m, read.place, read.input, r, sessions);
            ListOf(e.memory, s) == ListOf(m, s) && e.sent == []
  {
    hide Tokenizer.Put, AllData, TcpRun;
  }

  // ---- A session's list over a run ----

  /** What a datagram means for the list of `s`: its own voice is listed; a caller's makes the whole list be polled. */
  ghost function DatagramEvents(m: Memory, datagram: Option<seq<byte>>, s: int, r: Registry): seq<Event>
    requires VoiceList(s) in m.at
  {
    if m.free == [] || datagram.None? || datagram.value == [] || !UdpVerdict(datagram.value, r).Data? then []
    else
      var t := UdpVerdict(datagram.value, r).session;
      UdpDataLong(datagram.value, r);
      (if t == s then [Arrive(Buffer(m.free[0].key, datagram.value))] else [])
      + (if t in r.peers && r.peers[t] == s then Takes(|m.at[VoiceList(s)]| + 1) else [])
  }

  lemma UdpDataLong(p: seq<byte>, r: Registry)
    ensures UdpVerdict(p, r).Data? ==> |p| >= SEQ_INDEX + 4
  {
  }

  /** The step handles a message that resets the list of `s`. */
  ghost predicate StepResets(m: Memory, step: Step, s: int, sessions: set<int>)
    requires Ready(m, sessions) && step.Allowed(sessions)
  {
    step.Messages? && AnyResets(ReadEffects(m, step.session, step.hasCipher, step.Handlings(Pending(m, step.session))), s)
  }

  /** What a step does to the list of `s`. */
  ghost function StepEvents(m: Memory, step: Step, s: int, sessions: set<int>): seq<Event>
    requires Ready(m, sessions) && step.Allowed(sessions) && s in sessions
  {
    hide AllHandlingsWithin;
    match step
    case Tcp(read, r) => ReadEvents(StepQueue(m, read), s, r)
    case Udp(datagram, r) => DatagramEvents(m, datagram, s, r)
    case _ => if StepResets(m, step, s, sessions) then [Clear] else []
  }

  ghost function RunEvents(m: Memory, steps: seq<Step>, s: int, sessions: set<int>): seq<Event>
    requires Ready(m, sessions) && AllAllowed(steps, sessions) && s in sessions
  {
    if steps == [] then []
    else
      var front, last := steps[..|steps| - 1], steps[|steps| - 1];
      RunEvents(m, front, s, sessions) + StepEvents(AfterSteps(m, front, sessions), last, s, sessions)
  }

  lemma TcpIsRun(m: Memory, read: Read, s: int, r: Registry, sessions: set<int>, h: History)
    requires Ready(m, sessions) && r.Within(sessions) && read.place.VoiceTokens? && s in sessions && h.now == ListOf(m, s)
    ensures ListOf(TcpRead(m, read.place, read.input, r, sessions).memory, s) == Continue(h, ReadEvents(StepQueue(m, read), s, r)).now
  {
    hide TcpRead, TcpRun, AllData, Tokenizer.Put, Continue, ReadEvents, Handles;
    if Handles(m, read) {
      AtPacketsIs(m, read, r, sessions);
      assert ListOf(AtPackets(m, read), s) == ListOf(m, s);
      ReadIsRun(AtPackets(m, read), read.place, [], r, sessions, s, h);
    } else {
      NotHandling(m, read, r, sessions, s);
      NoEvents(s, r);
      ContinueNothing(h);
    }
  }

  lemma NoEvents(s: int, r: Registry)
    ensures ReadEvents([], s, r) == []
  {
  }

  lemma UdpIsRun(m: Memory, datagram: Option<seq<byte>>, s: int, r: Registry, sessions: set<int>, h: History)
    requires Ready(m, sessions) && r.Within(sessions) && s in sessions && h.now == ListOf(m, s)
    ensures ListOf(UdpRead(m, datagram, r, sessions).memory, s) == Continue(h, DatagramEvents(m, datagram, s, r)).now
  {
    hide AllData, SeqOf, UdpVerdict, Listed, ListOf, DataList.Evicted, DataList.Offer, Continue;
    ContinueNothing(h);
    if m.free != [] && datagram.Some? && datagram.value != [] {
      var taken, b := m.(free := m.free[1..]), Buffer(m.free[0].key, datagram.value);
      UdpDataReadable(b.bytes, r, sessions);
      match UdpVerdict(b.bytes, r)
      case Data(t) => DatagramIsRun(m, taken, b, t, s, r, sessions, h);
      case _ => SameMoved(m, b, s, sessions);
    } else {
      SameTaken(m, s, sessions);
    }
  }

  lemma SameTaken(m: Memory, s: int, sessions: set<int>)
    requires Ready(m, sessions) && s in sessions
    ensures m.free != [] ==> ListOf(Freed(m.(free := m.free[1..]), Buffer(m.free[0].key, [])), s) == ListOf(m, s)
  {
  }

  lemma SameMoved(m: Memory, b: Buffer, s: int, sessions: set<int>)
    requires Ready(m, sessions) && s in sessions && m.free != []
    ensures var taken := m.(free := m.free[1..]); ListOf(Freed(taken, b), s) == ListOf(Dropped(taken, b), s) == ListOf(taken, s) == ListOf(m, s)
  {
  }

  lemma DatagramIsRun(m: Memory, taken: Memory, b: DataBuffer, t: int, s: int, r: Registry, sessions: set<int>, h: History)
    requires Ready(m, sessions) && t in sessions && s in sessions && r.Within(sessions) && h.now == ListOf(m, s)
    requires m.free != [] && taken == m.(free := m.free[1..])
    ensures var listed := Listed(taken, t, b);
            && Ready(listed, sessions)
            && var e := if t in r.peers then Emptied(listed, VoiceList(r.peers[t])) else listed;
            && Ready(e, sessions)
            && ListOf(e, s) == Continue(h, (if t == s then [Arrive(b)] else [])
                                           + (if t in r.peers && r.peers[t] == s then Takes(|m.at[VoiceList(s)]| + 1) else [])).now
  {
    hide AllData, SeqOf, Listed, Emptied, ListOf, DataList.Evicted, DataList.Offer;
    var n := |m.at[VoiceList(s)]| + 1;
    var arrival := if t == s then [Arrive(b)] else [];
    var h' := Continue(h, arrival);
    ContinueBoth(h, arrival, if t in r.peers && r.peers[t] == s then Takes(n) else []);
    SameMoved(m, b, s, sessions);
    ListedStep(taken, b, t, s, sessions);
    ListLength(m, s, sessions);
    if t in r.peers {
      EmptiedList(Listed(taken, t, b), r.peers[t], s, sessions);
      TakesPoll(h', n);
      OfferLength(ListOf(m, s), b);
    }
  }

  lemma ListLength(m: Memory, s: int, sessions: set<int>)
    requires Ready(m, sessions) && s in sessions
    ensures VoiceList(s) in m.at && |ListOf(m, s).list| == |m.at[VoiceList(s)]|
  {
  }

  lemma OfferLength(l: DataList, b: DataBuffer)
    ensures |l.Offer(b, VOICE_BUFFER_QUEUE_SIZE).list| <= |l.list| + 1
  {
    hide SeqOf;
  }

  lemma EmptiedList(m: Memory, p: int, s: int, sessions: set<int>)
    requires Ready(m, sessions) && p in sessions && s in sessions
    ensures Ready(Emptied(m, VoiceList(p)), sessions)
    ensures ListOf(Emptied(m, VoiceList(p)), s) == if p == s then ListOf(m, s).(list := []) else ListOf(m, s)
  {
    EmptyingReady(m, VoiceList(p), sessions);
  }

  /** A list reset, or not. */
  ghost predicate ListAfter(m: Memory, e: Memory, s: int, reset: bool, sessions: set<int>)
    requires Ready(m, sessions) && Ready(e, sessions) && s in sessions
  {
    ListOf(e, s) == if reset then DataList([], {}) else ListOf(m, s)
  }

  /** An effect resets exactly the lists it names. */
  lemma AffectedList(m: Memory, effect: Effect, s: int, sessions: set<int>)
    requires Ready(m, sessions) && effect.Within(sessions) && s in sessions
    ensures ListAfter(m, Affected(m, effect, sessions), s, effect.Resets(s), sessions)
  {
    hide AllData, ListOf, OwnClosed, Cleared;
    match effect
    case ResetVoice(p) => ClearedList(m, p, s, sessions);
    case CloseSession(p, peer) =>
      OwnClosedReady(m, p, sessions);
      OwnClosedList(m, p, s, sessions);
      if peer.Some? {
        ClearedList(OwnClosed(m, p), peer.value, s, sessions);
      }
  }

  lemma ClearedList(m: Memory, p: int, s: int, sessions: set<int>)
    requires Ready(m, sessions) && p in sessions && s in sessions
    ensures VoiceList(p) in m.at && Ready(Cleared(m, p), sessions)
    ensures ListOf(Cleared(m, p), s) == if p == s then DataList([], {}) else ListOf(m, s)
  {
    EmptyingReady(m, VoiceList(p), sessions);
  }

  lemma OwnClosedList(m: Memory, p: int, s: int, sessions: set<int>)
    requires Ready(m, sessions) && p in sessions && s in sessions && Ready(OwnClosed(m, p), sessions)
    ensures ListAfter(m, OwnClosed(m, p), s, p == s, sessions)
  {
    hide AllData;
  }

  lemma {:induction false} AllAffectedList(m: Memory, effects: seq<Effect>, s: int, sessions: set<int>)
    requires Ready(m, sessions) && AllWithin(effects, sessions) && s in sessions
    ensures ListAfter(m, AllAffected(m, effects, sessions), s, AnyResets(effects, s), sessions)
    decreases |effects|
  {
    hide Ready, Affected, ListOf, AnyResets;
    NoResets(s);
    if effects == [] {
    } else {
      AffectedList(m, effects[0], s, sessions);
      AllAffectedList(Affected(m, effects[0], sessions), effects[1..], s, sessions);
      ResetsJoin([effects[0]], effects[1..], s);
      assert [effects[0]] + effects[1..] == effects;
    }
  }

  lemma NoResets(s: int)
    ensures !AnyResets([], s)
  {
  }

  lemma ResetsJoin(a: seq<Effect>, b: seq<Effect>, s: int)
    ensures AnyResets(a + b, s) <==> AnyResets(a, s) || AnyResets(b, s)
    ensures |a| == 1 ==> (AnyResets(a, s) <==> a[0].Resets(s))
  {
    if AnyResets(a, s) {
      var i :| 0 <= i < |a| && a[i].Resets(s);
      assert (a + b)[i].Resets(s);
    }
    if AnyResets(b, s) {
      var i :| 0 <= i < |b| && b[i].Resets(s);
      assert (a + b)[|a| + i].Resets(s);
    }
    assert |a| == 1 && a[0].Resets(s) ==> AnyResets(a, s);
  }

  /** A session's read resets exactly the lists that the messages it handles name. */
  lemma {:induction false} SessionRunList(m: Memory, t: int, hasCipher: bool, handlings: seq<Handling>, s: int, sessions: set<int>)
    requires Ready(m, sessions) && t in sessions && s in sessions && AllHandlingsWithin(handlings, sessions)
    requires |m.at[SessionTokens(t)]| <= |handlings|
    ensures ListAfter(m, SessionRun(m, t, hasCipher, handlings, sessions).memory, s,
                      AnyResets(HandledEffects(m.at[SessionTokens(t)], t, hasCipher, handlings), s), sessions)
    decreases |handlings|
  {
    hide AllData, AllAffected, AllWithin, FateOf, ListOf, AnyResets, KeepsOpen, AllHandlingsWithin;
    NoResets(s);
    var p := SessionTokens(t);
    if m.at[p] == [] {
    } else {
      var b, rest := m.at[p][0], Popped(m, p);
      var f := FateOf(b.bytes, hasCipher, handlings[0]);
      SessionPopped(m, t, sessions);
      SameSession(m, p, b, s, sessions);
      if f.Message? {
        hide SessionRun;
        var next := SessionStep(m, t, hasCipher, handlings, sessions);
        AllAffectedList(rest, f.effects, s, sessions);
        SameFreed(AllAffected(rest, f.effects, sessions), b, s, sessions);
        SessionRunList(next, t, hasCipher, handlings[1..], s, sessions);
        ResetsJoin(f.effects, HandledEffects(next.at[p], t, hasCipher, handlings[1..]), s);
        assert f.effects + [] == f.effects;
      }
    }
  }

  lemma SameSession(m: Memory, p: Place, b: Buffer, s: int, sessions: set<int>)
    requires Ready(m, sessions) && p in m.at && p.SessionTokens? && m.at[p] != [] && s in sessions
    ensures ListOf(m, s) == ListOf(Popped(m, p), s) == ListOf(Freed(Popped(m, p), b), s) == ListOf(Dropped(Popped(m, p), b), s)
  {
  }

  lemma SameFreed(m: Memory, b: Buffer, s: int, sessions: set<int>)
    requires Ready(m, sessions) && s in sessions
    ensures Ready(Freed(m, b), sessions) && ListOf(Freed(m, b), s) == ListOf(m, s)
  {
  }

  /** The messages a session's read handles, if it gets as far as its packets. */
  ghost function ReadEffects(m: Memory, t: int, hasCipher: bool, handlings: seq<Handling>): seq<Effect>
    requires SessionTokens(t) in m.at && SessionTokens(t) in m.streams && Input(t) in m.at
    requires m.at[Input(t)] != [] ==> |PacketsAfter(m, t)| <= |handlings|
  {
    if m.at[Input(t)] == [] || Refuses(m, SessionTokens(t), m.at[Input(t)][0].bytes)
       || |Found(m, SessionTokens(t), m.at[Input(t)][0].bytes)| > |m.free| then []
    else HandledEffects(PacketsAfter(m, t), t, hasCipher, Checked(PacketsAfter(m, t), handlings))
  }

  lemma SessionReadList(m: Memory, t: int, hasCipher: bool, handlings: seq<Handling>, s: int, sessions: set<int>)
    requires Ready(m, sessions) && t in sessions && s in sessions && AllHandlingsWithin(handlings, sessions)
    requires m.at[Input(t)] != [] ==> |PacketsAfter(m, t)| <= |handlings|
    ensures ListAfter(m, SessionRead(m, t, hasCipher, handlings, sessions).memory, s,
                      AnyResets(ReadEffects(m, t, hasCipher, handlings), s), sessions)
  {
    hide AllData, SessionRun, Tokenizer.Put, AllHandlingsWithin, Overruns, Checked, AnyResets, HandledEffects;
    NoResets(s);
    if m.at[Input(t)] != [] && !Refuses(m, SessionTokens(t), m.at[Input(t)][0].bytes) {
      var p, b, taken := SessionTokens(t), m.at[Input(t)][0], Popped(m, Input(t));
      if |Found(m, p, b.bytes)| <= |m.free| {
        var q := PacketsAfter(m, t);
        var start := Freed(Tokenized(taken, p, b.bytes), b);
        assert start.at[p] == q && ListOf(start, s) == ListOf(m, s);
        CheckedWithin(q, handlings, sessions);
        SessionRunList(start, t, hasCipher, Checked(q, handlings), s, sessions);
      }
    }
  }

  /** Of the other steps only a session's messages touch a list. */
  lemma OtherResets(m: Memory, step: Step, s: int, sessions: set<int>)
    requires Ready(m, sessions) && step.Allowed(sessions) && s in sessions && !step.Tcp? && !step.Udp?
    ensures ListAfter(m, After(m, step, sessions), s, StepResets(m, step, s, sessions), sessions)
  {
    hide AllData, SessionRead, PacketsAfter, AllHandlingsWithin, AnyResets, ReadEffects;
    if step.Messages? {
      SessionReadList(m, step.session, step.hasCipher, step.Handlings(Pending(m, step.session)), s, sessions);
    }
  }

  lemma StepIsRun(m: Memory, step: Step, s: int, sessions: set<int>, h: History)
    requires Ready(m, sessions) && step.Allowed(sessions) && s in sessions && h.now == ListOf(m, s)
    ensures ListOf(After(m, step, sessions), s) == Continue(h, StepEvents(m, step, s, sessions)).now
  {
    hide Ready, TcpRead, UdpRead, SessionRead, SelectorRead, ReadEvents, DatagramEvents, ListOf, StepQueue, AllHandlingsWithin, Continue, StepResets;
    match step
    case Tcp(read, r) => TcpIsRun(m, read, s, r, sessions, h);
    case Udp(datagram, r) => UdpIsRun(m, datagram, s, r, sessions, h);
    case _ =>
      OtherResets(m, step, s, sessions);
      ContinueNothing(h);
      ContinueClear(h);
  }

  lemma ContinueClear(h: History)
    ensures Continue(h, [Clear]).now == DataList([], {})
  {
    ContinueNothing(h.Next(Clear, VOICE_BUFFER_QUEUE_SIZE));
    assert [Clear][1..] == [];
  }

  /** Over any run of the server a session's list is led along by its events. */
  lemma {:induction false} StepsAreRun(m: Memory, steps: seq<Step>, s: int, sessions: set<int>, past: seq<Event>)
    requires Ready(m, sessions) && AllAllowed(steps, sessions) && s in sessions
    requires ListOf(m, s) == Run(past, VOICE_BUFFER_QUEUE_SIZE).now
    ensures ListOf(AfterSteps(m, steps, sessions), s)
         == Run(past + RunEvents(m, steps, s, sessions), VOICE_BUFFER_QUEUE_SIZE).now
  {
    hide Ready, After, ListOf, StepEvents, Run, Step.Allowed;
    if steps == [] {
      assert past + [] == past;
    } else {
      var front, last := steps[..|steps| - 1], steps[|steps| - 1];
      var now, before := AfterSteps(m, front, sessions), RunEvents(m, front, s, sessions);
      var events := StepEvents(now, last, s, sessions);
      StepsAreRun(m, front, s, sessions, past);
      StepIsRun(now, last, s, sessions, Run(past + before, VOICE_BUFFER_QUEUE_SIZE));
      ContinueRun(past + before, events);
      assert past + before + events == past + (before + events);
    }
  }

  // ---- What is written to a channel ----

  ghost function Written(m: Memory, steps: seq<Step>, c: Place, sessions: set<int>): seq<seq<byte>>
    requires Ready(m, sessions) && AllAllowed(steps, sessions)
  {
    if steps == [] then []
    else
      var front, last := steps[..|steps| - 1], steps[|steps| - 1];
      Written(m, front, c, sessions)
      + (if On(last, c) then TcpRead(AfterSteps(m, front, sessions), c, last.read.input, last.registry, sessions).sent else [])
  }

  ghost function StepForwards(m: Memory, read: Read, r: Registry, sessions: set<int>): seq<Buffer>
    requires Ready(m, sessions) && r.Within(sessions) && read.place.VoiceTokens?
  {
    if Handles(m, read) then
      AtPacketsIs(m, read, r, sessions);
      RunForwards(AtPackets(m, read), read.place, r, sessions)
    else []
  }

  /** The packets forwarded to a channel. */
  ghost function Forwarded(m: Memory, steps: seq<Step>, c: Place, sessions: set<int>): seq<Buffer>
    requires Ready(m, sessions) && AllAllowed(steps, sessions)
  {
    if steps == [] then []
    else
      var front, last := steps[..|steps| - 1], steps[|steps| - 1];
      Forwarded(m, front, c, sessions)
      + (if On(last, c) then StepForwards(AfterSteps(m, front, sessions), last.read, last.registry, sessions) else [])
  }

  lemma StepSends(m: Memory, read: Read, r: Registry, sessions: set<int>)
    requires Ready(m, sessions) && r.Within(sessions) && read.place.VoiceTokens?
    ensures TcpRead(m, read.place, read.input, r, sessions).sent == Relayed(StepForwards(m, read, r, sessions))
  {
    hide Tokenizer.Put, AllData, TcpRun, TcpRead, Handles, Relayed, RunForwards, AtPackets, Ready;
    NothingRelayed();
    if Handles(m, read) {
      AtPacketsIs(m, read, r, sessions);
      RunSends(AtPackets(m, read), read.place, [], r, sessions);
      var frames := Relayed(RunForwards(AtPackets(m, read), read.place, r, sessions));
      assert [] + frames == frames;
    } else {
      NothingSent(m, read, r, sessions);
    }
  }

  lemma NothingSent(m: Memory, read: Read, r: Registry, sessions: set<int>)
    requires Ready(m, sessions) && r.Within(sessions) && read.place.VoiceTokens? && !Handles(m, read)
    ensures TcpRead(m, read.place, read.input, r, sessions).sent == []
  {
    hide Tokenizer.Put, AllData, TcpRun;
  }

  /** What is written to a channel is the packets forwarded to it, each with its marker. */
  lemma {:induction false} WrittenIsForwarded(m: Memory, steps: seq<Step>, c: Place, sessions: set<int>)
    requires Ready(m, sessions) && AllAllowed(steps, sessions)
    ensures Written(m, steps, c, sessions) == Relayed(Forwarded(m, steps, c, sessions))
  {
    hide Ready, After, TcpRead, StepForwards, Relayed;
    NothingRelayed();
    if steps == [] {
    } else {
      var front, last := steps[..|steps| - 1], steps[|steps| - 1];
      var now := AfterSteps(m, front, sessions);
      WrittenIsForwarded(m, front, c, sessions);
      if On(last, c) {
        StepSends(now, last.read, last.registry, sessions);
      }
      RelayedJoin(Forwarded(m, front, c, sessions), if On(last, c) then StepForwards(now, last.read, last.registry, sessions) else []);
    }
  }

  /** All that is read on channel `c` comes from sessions that are calling `s` at that moment, or nobody. */
  ghost predicate CallersOn(m: Memory, steps: seq<Step>, c: Place, s: int, sessions: set<int>)
    requires Ready(m, sessions) && AllAllowed(steps, sessions)
  {
    steps == []
    || (var front, last := steps[..|steps| - 1], steps[|steps| - 1];
        && CallersOn(m, front, c, s, sessions)
        && (On(last, c) ==> AllCalling(StepQueue(AfterSteps(m, front, sessions), last.read), s, last.registry)))
  }

  lemma StepForwardsPolled(m: Memory, read: Read, s: int, r: Registry, sessions: set<int>, h: History)
    requires Ready(m, sessions) && r.Within(sessions) && read.place.VoiceTokens? && s in sessions && h.now == ListOf(m, s)
    requires AllCalling(StepQueue(m, read), s, r)
    ensures Subsequence<Buffer>(StepForwards(m, read, r, sessions), Deliveries(h, ReadEvents(StepQueue(m, read), s, r)))
  {
    hide AllData, TcpRun, TcpRead, Tokenizer.Put, Handles, RunForwards, Deliveries, Subsequence, ReadEvents;
    if Handles(m, read) {
      AtPacketsIs(m, read, r, sessions);
      assert ListOf(AtPackets(m, read), s) == ListOf(m, s);
      RunForwardsPolled(AtPackets(m, read), read.place, r, sessions, s, h);
    } else {
      SubsequenceNone<Buffer>(Deliveries(h, ReadEvents(StepQueue(m, read), s, r)));
    }
  }

  /**
    What is forwarded to a channel whose senders are all calling `s` is, in order, part of what the run delivers from
    the list of `s`, whatever else happens in between.
   */
  lemma {:induction false} ForwardedWasDelivered(m: Memory, steps: seq<Step>, c: Place, s: int, sessions: set<int>, past: seq<Event>)
    requires Ready(m, sessions) && AllAllowed(steps, sessions) && s in sessions
    requires CallersOn(m, steps, c, s, sessions) && ListOf(m, s) == Run(past, VOICE_BUFFER_QUEUE_SIZE).now
    ensures Subsequence<Buffer>(Forwarded(m, steps, c, sessions),
                                Deliveries(Run(past, VOICE_BUFFER_QUEUE_SIZE), RunEvents(m, steps, s, sessions)))
  {
    hide Ready, After, ListOf, ReadEvents, DatagramEvents, StepForwards, Run, Deliveries, Subsequence, StepQueue, AllCalling;
    var h := Run(past, VOICE_BUFFER_QUEUE_SIZE);
    DeliveriesJoin(h, [], []);
    if steps == [] {
      SubsequenceNone<Buffer>([]);
    } else {
      var front, last := steps[..|steps| - 1], steps[|steps| - 1];
      var now, before := AfterSteps(m, front, sessions), RunEvents(m, front, s, sessions);
      var events := StepEvents(now, last, s, sessions);
      ForwardedWasDelivered(m, front, c, s, sessions, past);
      StepsAreRun(m, front, s, sessions, past);
      ContinueRun(past, before);
      DeliveriesJoin(h, before, events);
      var forwards := if On(last, c) then StepForwards(now, last.read, last.registry, sessions) else [];
      if On(last, c) {
        StepForwardsPolled(now, last.read, s, last.registry, sessions, Continue(h, before));
      } else {
        SubsequenceNone<Buffer>(Deliveries(Continue(h, before), events));
      }
      SubsequenceJoin<Buffer>(Forwarded(m, front, c, sessions), Deliveries(h, before), forwards, Deliveries(Continue(h, before), events));
    }
  }

  // ---- What datagrams send ----

  /** The step is a datagram of a session that is calling `s`, and there is a buffer to read it into. */
  ghost predicate AsksByUdp(m: Memory, step: Step, s: int) {
    && step.Udp? && m.free != [] && step.datagram.Some? && step.datagram.value != []
    && var v := UdpVerdict(step.datagram.value, step.registry);
    v.Data? && v.session in step.registry.peers && step.registry.peers[v.session] == s
  }

  /** What is sent in answer to such datagrams, */
  ghost function UdpSent(m: Memory, steps: seq<Step>, s: int, sessions: set<int>): seq<seq<byte>>
    requires Ready(m, sessions) && AllAllowed(steps, sessions)
  {
    if steps == [] then []
    else
      var front, last := steps[..|steps| - 1], steps[|steps| - 1];
      var now := AfterSteps(m, front, sessions);
      UdpSent(m, front, s, sessions) + (if AsksByUdp(now, last, s) then UdpRead(now, last.datagram, last.registry, sessions).sent else [])
  }

  /** and what these steps deliver from the list of `s`. */
  ghost function UdpDelivered(m: Memory, steps: seq<Step>, s: int, sessions: set<int>, past: seq<Event>): seq<Buffer>
    requires Ready(m, sessions) && AllAllowed(steps, sessions) && s in sessions
  {
    if steps == [] then []
    else
      var front, last := steps[..|steps| - 1], steps[|steps| - 1];
      var now, h := AfterSteps(m, front, sessions), Run(past + RunEvents(m, front, s, sessions), VOICE_BUFFER_QUEUE_SIZE);
      UdpDelivered(m, front, s, sessions, past)
      + (if AsksByUdp(now, last, s) then Deliveries(h, StepEvents(now, last, s, sessions)) else [])
  }

  /** One such datagram is answered with all that is listed, its own voice included if it is one of `s`, and all that is delivered. */
  lemma UdpStepSends(m: Memory, datagram: Option<seq<byte>>, s: int, r: Registry, sessions: set<int>, h: History)
    requires Ready(m, sessions) && r.Within(sessions) && s in sessions && h.now == ListOf(m, s) && AsksByUdp(m, Udp(datagram, r), s)
    ensures UdpRead(m, datagram, r, sessions).sent == BytesOf(Deliveries(h, DatagramEvents(m, datagram, s, r)))
  {
    hide AllData, SeqOf, UdpVerdict, Listed, ListOf, Delivered, DataList.Evicted, DataList.Offer, Continue, Takes;
    var taken, b := m.(free := m.free[1..]), Buffer(m.free[0].key, datagram.value);
    UdpDataReadable(b.bytes, r, sessions);
    var t, n := UdpVerdict(b.bytes, r).session, |m.at[VoiceList(s)]| + 1;
    var arrival := if t == s then [Arrive(b)] else [];
    var h' := Continue(h, arrival);
    OwnArrival(h, b, t, s);
    ContinueBoth(h, arrival, Takes(n));
    SameMoved(m, b, s, sessions);
    ListedStep(taken, b, t, s, sessions);
    ListLength(m, s, sessions);
    OfferLength(ListOf(m, s), b);
    TakesDeliver(h', n);
    ListedList(taken, b, t, s, sessions);
    var list := h'.now.list;
    assert list[..|list|] == list;
  }

  lemma OwnArrival(h: History, b: DataBuffer, t: int, s: int)
    ensures var h' := Continue(h, if t == s then [Arrive(b)] else []);
            && Delivered(h'.gone) == Delivered(h.gone)
            && h'.now == if t == s then h.now.Offer(b, VOICE_BUFFER_QUEUE_SIZE) else h.now
  {
    hide SeqOf, Delivered, DataList.Evicted, DataList.Offer;
    ArrivalDeliversNothing(h, b);
    ContinueNothing(h);
    ContinueNothing(h.Next(Arrive(b), VOICE_BUFFER_QUEUE_SIZE));
    assert [Arrive(b)][1..] == [];
  }

  /**
    Over any run, what the datagrams of a session's callers are answered with is, packet by packet and in order, what
    those steps deliver from its list; and that is an ordered part of all that the run delivers from it.
   */
  lemma {:induction false} UdpSentIsDelivered(m: Memory, steps: seq<Step>, s: int, sessions: set<int>, past: seq<Event>)
    requires Ready(m, sessions) && AllAllowed(steps, sessions) && s in sessions && ListOf(m, s) == Run(past, VOICE_BUFFER_QUEUE_SIZE).now
    ensures UdpSent(m, steps, s, sessions) == BytesOf(UdpDelivered(m, steps, s, sessions, past))
    ensures Subsequence<Buffer>(UdpDelivered(m, steps, s, sessions, past),
                                Deliveries(Run(past, VOICE_BUFFER_QUEUE_SIZE), RunEvents(m, steps, s, sessions)))
  {
    hide Ready, After, ListOf, ReadEvents, DatagramEvents, Run, Deliveries, Subsequence, AsksByUdp, UdpRead, BytesOf;
    var h := Run(past, VOICE_BUFFER_QUEUE_SIZE);
    DeliveriesJoin(h, [], []);
    if steps == [] {
      SubsequenceNone<Buffer>([]);
      NoBytes();
    } else {
      var front, last := steps[..|steps| - 1], steps[|steps| - 1];
      var now, before := AfterSteps(m, front, sessions), RunEvents(m, front, s, sessions);
      var events := StepEvents(now, last, s, sessions);
      UdpSentIsDelivered(m, front, s, sessions, past);
      StepsAreRun(m, front, s, sessions, past);
      ContinueRun(past, before);
      DeliveriesJoin(h, before, events);
      var delivered, sent := Deliveries(Continue(h, before), events), UdpDelivered(m, front, s, sessions, past);
      var more := if AsksByUdp(now, last, s) then delivered else [];
      if AsksByUdp(now, last, s) {
        AsksIsUdp(now, last, s);
        UdpStepSends(now, last.datagram, s, last.registry, sessions, Continue(h, before));
        SubsequenceSelf<Buffer>(delivered);
      } else {
        SubsequenceNone<Buffer>(delivered);
        NoBytes();
      }
      BytesJoin(sent, more);
      SubsequenceJoin<Buffer>(sent, Deliveries(h, before), more, delivered);
    }
  }

  lemma AsksIsUdp(m: Memory, step: Step, s: int)
    requires AsksByUdp(m, step, s)
    ensures step.Udp? && AsksByUdp(m, Udp(step.datagram, step.registry), s)
  {
  }
}
