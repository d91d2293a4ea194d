/**
  server/session/Session.java and ConnectionMonitor.java: which sessions the voice managers serve. A manager's
  active map is the forward index; each session's queues of managers are the way back.
 */
module Registration {
  import opened Options

  const VOICE_TCP_PORT: nat := 21421
  const VOICE_UDP_PORT: nat := 31242
  const VOICE_TCP_PORT_COUNT: nat := 30
  const VOICE_UDP_PORT_COUNT: nat := 100
  const VOICE_UDP_PORT_OFFER_COUNT: nat := 5
  const TRIES: nat := 100

  datatype Manager = Tcp(index: nat) | Udp(index: nat)

  predicate Exists(m: Manager) {
    if m.Tcp? then m.index < VOICE_TCP_PORT_COUNT else m.index < VOICE_UDP_PORT_COUNT
  }

  function PortOf(m: Manager): nat {
    if m.Tcp? then VOICE_TCP_PORT + m.index else VOICE_UDP_PORT + m.index
  }

  // ---- Choosing managers ----

  /** One random draw of an index, and whether the manager there was found running. */
  datatype Draw = Draw(index: nat, running: bool)

  ghost predicate DrawsBelow(draws: seq<Draw>, bound: nat) {
    |draws| == TRIES && forall i :: 0 <= i < |draws| ==> draws[i].index < bound
  }

  /** The first index drawn whose manager is running. */
  function FirstRunning(draws: seq<Draw>): Option<nat> {
    if draws == [] then None else if draws[0].running then Some(draws[0].index) else FirstRunning(draws[1..])
  }

  function LastRunning(draws: seq<Draw>): Option<nat> {
    if draws == [] then None
    else if draws[|draws| - 1].running then Some(draws[|draws| - 1].index) else LastRunning(draws[..|draws| - 1])
  }

  /** No manager is chosen exactly when all draws hit one that is not running; otherwise it is one of those drawn. */
  lemma {:induction false} ChoiceFails(draws: seq<Draw>)
    ensures FirstRunning(draws) == None <==> forall i :: 0 <= i < |draws| ==> !draws[i].running
    ensures LastRunning(draws) == None <==> forall i :: 0 <= i < |draws| ==> !draws[i].running
    ensures FirstRunning(draws).Some? ==> exists i :: 0 <= i < |draws| && draws[i] == Draw(FirstRunning(draws).value, true)
    ensures LastRunning(draws).Some? ==> exists i :: 0 <= i < |draws| && draws[i] == Draw(LastRunning(draws).value, true)
    decreases |draws|
  {
    if draws == [] {
    } else {
      var front, back := draws[..|draws| - 1], draws[1..];
      ChoiceFails(front);
      ChoiceFails(back);
      assert forall i :: 0 <= i < |front| ==> front[i] == draws[i];
      assert forall i :: 0 < i < |draws| ==> draws[i] == back[i - 1];
    }
  }

  /** ConnectionMonitor.getActiveVoiceTcpManager: the first one drawn that is running. */
  method PickTcp(draws: seq<Draw>) returns (ms: seq<Manager>)
    requires DrawsBelow(draws, VOICE_TCP_PORT_COUNT)
    ensures ms == TcpChoice(draws)
    ensures forall k :: 0 <= k < |ms| ==> Exists(ms[k]) && ms[k].Tcp?
  {
    for i := 0 to TRIES
      invariant FirstRunning(draws) == FirstRunning(draws[i..])
    {
      assert draws[i..][0] == draws[i] && draws[i..][1..] == draws[i + 1..];
      if draws[i].running {
        return [Tcp(draws[i].index)];
      }
    }
    return [];
  }

  function TcpChoice(draws: seq<Draw>): seq<Manager> {
    match FirstRunning(draws)
    case None => []
    case Some(i) => [Tcp(i)]
  }

  /** Five managers from an index on. */
  function Five(index: nat): (ms: seq<Manager>)
    ensures |ms| == VOICE_UDP_PORT_OFFER_COUNT
  {
    seq(VOICE_UDP_PORT_OFFER_COUNT, j requires 0 <= j => Udp(index + j))
  }

  function UdpChoice(draws: seq<Draw>): seq<Manager> {
    match LastRunning(draws)
    case None => []
    case Some(i) => Five(i)
  }

  /** ConnectionMonitor.getActiveVoiceUdpManagers: all draws are made, and the last running one decides. */
  method PickUdp(draws: seq<Draw>) returns (ms: seq<Manager>)
    requires DrawsBelow(draws, VOICE_UDP_PORT_COUNT - VOICE_UDP_PORT_OFFER_COUNT + 1)
    ensures ms == UdpChoice(draws)
    ensures forall k :: 0 <= k < |ms| ==> Exists(ms[k]) && ms[k].Udp?
  {
    ms := [];
    for i := 0 to TRIES
      invariant ms == UdpChoice(draws[..i])
      invariant forall k :: 0 <= k < |ms| ==> Exists(ms[k]) && ms[k].Udp?
    {
      assert draws[..i + 1][..i] == draws[..i];
      if draws[i].running {
        ms := Five(draws[i].index);
      }
    }
    assert draws[..TRIES] == draws;
  }

  // ---- The index and its reverse ----

  type Active = map<Manager, set<int>>

  function Joined(active: Active, s: int, ms: seq<Manager>): Active {
    map m | m in active :: if m in ms then active[m] + {s} else active[m]
  }

  function Left(active: Active, s: int, ms: seq<Manager>): Active {
    map m | m in active :: if m in ms then active[m] - {s} else active[m]
  }

  /** No manager serves `s` any more, the others are served as before. */
  function Gone(active: Active, s: int): Active {
    map m | m in active :: active[m] - {s}
  }

  /** What a client is told. */
  datatype Notice =
    | PutTcpServer(port: nat)
    | PutUdpServer(port: nat, count: nat)
    | CallAccepted
    | CallAcceptError
    | CallOff
    | WrongNumber
    | DestinationCalling
    | CallResponse(session: int)
    | CalledFrom(session: int)

  /** The server ports a notice offers to a client. */
  predicate Offers(n: Notice, m: Manager) {
    match n
    case PutTcpServer(port) => m.Tcp? && PortOf(m) == port
    case PutUdpServer(port, count) => m.Udp? && port <= PortOf(m) < port + count
    case _ => false
  }

  /** Every port offered in a notice is that of a manager, and that manager serves `s`. */
  ghost predicate Kept(active: Active, s: int, n: Notice) {
    match n
    case PutTcpServer(port) => exists m :: m in active && Offers(n, m) && s in active[m]
    case PutUdpServer(port, count) => forall p: nat :: port <= p < port + count ==> ServedAt(active, s, p)
    case _ => true
  }

  ghost predicate ServedAt(active: Active, s: int, port: nat) {
    exists m :: m in active && m.Udp? && PortOf(m) == port && s in active[m]
  }

  /** An offer stays good whatever other sessions do, and while the session itself only joins. */
  lemma OfferStaysGood(active: Active, s: int, n: Notice, t: int, ms: seq<Manager>)
    requires Kept(active, s, n)
    ensures Kept(Joined(active, t, ms), s, n)
    ensures s != t ==> Kept(Gone(active, t), s, n)
  {
    if n.PutTcpServer? {
      var m :| m in active && Offers(n, m) && s in active[m];
      assert m in Joined(active, t, ms) && m in Gone(active, t);
    }
    if n.PutUdpServer? {
      forall p: nat | n.port <= p < n.port + n.count
        ensures ServedAt(Joined(active, t, ms), s, p) && (s != t ==> ServedAt(Gone(active, t), s, p))
      {
        assert ServedAt(active, s, p);
        var m :| m in active && m.Udp? && PortOf(m) == p && s in active[m];
        assert m in Joined(active, t, ms) && m in Gone(active, t);
      }
    }
  }

  /** Once the session is gone from the managers, none of its offers is good. */
  lemma NoOfferAfterwards(active: Active, s: int, n: Notice)
    requires n.PutTcpServer? || (n.PutUdpServer? && n.count > 0)
    ensures !Kept(Gone(active, s), s, n)
  {
    if n.PutUdpServer? {
      assert !ServedAt(Gone(active, s), s, n.port);
    }
  }

  type Reverse = map<int, seq<Manager>>

  ghost predicate Queued(tcp: Reverse, udp: Reverse, s: int, m: Manager) {
    (s in tcp && m in tcp[s]) || (s in udp && m in udp[s])
  }

  ghost predicate Agree(active: Active, tcp: Reverse, udp: Reverse, sessions: set<int>) {
    && (forall m :: m in active <==> Exists(m))
    && tcp.Keys == udp.Keys == sessions
    && (forall s, m :: m in active ==> (s in active[m] <==> Queued(tcp, udp, s, m)))
    && (forall s, m :: Queued(tcp, udp, s, m) ==> m in active)
  }

  lemma GoneAgrees(active: Active, tcp: Reverse, udp: Reverse, sessions: set<int>, s: int)
    requires Agree(active, tcp, udp, sessions) && s in sessions
    ensures Agree(Gone(active, s), tcp[s := []], udp[s := []], sessions)
  {
    hide Exists;
    var active', tcp', udp' := Gone(active, s), tcp[s := []], udp[s := []];
    assert active'.Keys == active.Keys;
    forall t, m
      ensures Queued(tcp', udp', t, m) <==> t != s && Queued(tcp, udp, t, m)
    {
    }
  }

  lemma RegisteredAgrees(active: Active, tcp: Reverse, udp: Reverse, sessions: set<int>, s: int, m: Manager)
    requires Agree(active, tcp, udp, sessions) && s in sessions && m in active
    ensures Agree(active[m := active[m] + {s}], tcp[s := tcp[s] + [m]], udp, sessions)
    ensures Agree(active[m := active[m] + {s}], tcp, udp[s := udp[s] + [m]], sessions)
  {
    hide Exists;
    var active', tcp', udp' := active[m := active[m] + {s}], tcp[s := tcp[s] + [m]], udp[s := udp[s] + [m]];
    assert tcp'.Keys == udp'.Keys == sessions;
    forall t, k
      ensures Queued(tcp', udp, t, k) <==> Queued(tcp, udp, t, k) || (t == s && k == m)
      ensures Queued(tcp, udp', t, k) <==> Queued(tcp, udp, t, k) || (t == s && k == m)
      ensures k in active' <==> k in active
      ensures k in active' ==> (t in active'[k] <==> t in active[k] || (t == s && k == m))
    {
    }
  }

  type Calls = map<int, Option<int>>

  /** Nobody is calling a stranger, or himself. */
  ghost predicate Proper(calling: Calls, sessions: set<int>) {
    calling.Keys == sessions
    && forall s :: s in sessions ==> calling[s].None? || (calling[s].value in sessions && calling[s].value != s)
  }

  lemma NoCallProper(calling: Calls, sessions: set<int>, s: int)
    requires Proper(calling, sessions) && s in sessions
    ensures Proper(calling[s := None], sessions)
  {
  }

  datatype State = Inited | Started | Ended | Calling

  /** Everything the calls of sessions change. */
  datatype Board = Board(active: Active, tcp: Reverse, udp: Reverse, state: map<int, State>, calling: Calls)

  /** One side leaves all managers and its call. */
  function HungUp(b: Board, s: int, to: State): Board {
    Board(Gone(b.active, s), b.tcp[s := []], b.udp[s := []], b.state[s := to], b.calling[s := None])
  }

  /** The end of a call: whom the session was calling is called off, then the session itself leaves. */
  function CallEnded(b: Board, s: int, to: State): Board
    requires s in b.calling
  {
    HungUp(if b.calling[s].Some? then HungUp(b, b.calling[s].value, Started) else b, s, to)
  }

  /** Nothing serves `s` and it has nothing queued. */
  ghost predicate Unserved(b: Board, s: int) {
    (forall m :: m in b.active ==> s !in b.active[m]) && forall m :: !Queued(b.tcp, b.udp, s, m)
  }

  /** After a call has ended neither side is served or has anything queued; nobody else is affected. */
  lemma CallEndedFrees(b: Board, s: int, to: State, t: int)
    requires s in b.calling && b.calling[s] != Some(s)
    ensures var after := CallEnded(b, s, to);
            && Unserved(after, s) && (b.calling[s].Some? ==> Unserved(after, b.calling[s].value))
            && (t != s && b.calling[s] != Some(t) ==>
                  forall m :: (m in after.active <==> m in b.active)
                              && (m in b.active ==> (t in after.active[m] <==> t in b.active[m]))
                              && (Queued(after.tcp, after.udp, t, m) <==> Queued(b.tcp, b.udp, t, m)))
  {
  }

  /** The session is calling nobody, */
  predicate CallsNobody(b: Board, s: int) {
    s in b.calling && b.calling[s] == None
  }

  /** and can be called. */
  predicate Callable(b: Board, s: int) {
    s in b.state && b.state[s] == Started
  }

  /**
    After a call has ended neither side calls anybody, the side called off can be called again, and so can the other one
    unless it has closed. Nobody else's call or state is touched.
   */
  lemma CallEnds(b: Board, s: int, to: State, t: int)
    requires s in b.calling && b.calling[s] != Some(s) && s in b.state
    ensures var after := CallEnded(b, s, to);
            && CallsNobody(after, s) && s in after.state && after.state[s] == to
            && (b.calling[s].Some? ==> CallsNobody(after, b.calling[s].value) && Callable(after, b.calling[s].value))
            && (t != s && b.calling[s] != Some(t) ==>
                  && (t in after.calling <==> t in b.calling) && (t in b.calling ==> after.calling[t] == b.calling[t])
                  && (t in after.state <==> t in b.state) && (t in b.state ==> after.state[t] == b.state[t]))
  {
    hide Gone;
  }

  lemma NothingOffered(active: Active, s: int)
    ensures Kept(active, s, CallAccepted) && Kept(active, s, CallAcceptError)
  {
  }

  /** Offers stay good while another session joins managers. */
  lemma OffersStayGood(active: Active, s: int, out: seq<Notice>, t: int, tcp: seq<Manager>, udp: seq<Manager>)
    requires forall n :: n in out ==> Kept(active, s, n)
    ensures forall n :: n in out ==> Kept(Joined(Joined(active, t, tcp), t, udp), s, n)
  {
    hide Joined, Kept;
    forall n | n in out
      ensures Kept(Joined(Joined(active, t, tcp), t, udp), s, n)
    {
      OfferStaysGood(active, s, n, t, tcp);
      OfferStaysGood(Joined(active, t, tcp), s, n, t, udp);
    }
  }

  lemma SameKeys<T>(m: map<int, T>, s: int, x: T)
    requires s in m
    ensures m[s := x].Keys == m.Keys
  {
  }

  /** A queue with the first `k` of `ms` behind it. */
  function QueuedUpTo(queue: map<int, seq<Manager>>, s: int, ms: seq<Manager>, k: nat): map<int, seq<Manager>>
    requires s in queue && k <= |ms|
  {
    queue[s := queue[s] + ms[..k]]
  }

  lemma QueuedNothing(queue: map<int, seq<Manager>>, s: int, ms: seq<Manager>)
    requires s in queue
    ensures QueuedUpTo(queue, s, ms, 0) == queue
  {
    assert queue[s] + ms[..0] == queue[s];
  }

  lemma QueuedOneMore(queue: map<int, seq<Manager>>, s: int, ms: seq<Manager>, k: nat)
    requires s in queue && k < |ms|
    ensures var now := QueuedUpTo(queue, s, ms, k); s in now && QueuedUpTo(queue, s, ms, k + 1) == now[s := now[s] + [ms[k]]]
  {
    assert queue[s] + ms[..k] + [ms[k]] == queue[s] + ms[..k + 1];
  }

  class Switchboard {
    const sessions: set<int>
    var activeSessionMap: Active
    var tcpQueue: map<int, seq<Manager>>
    var udpQueue: map<int, seq<Manager>>
    var state: map<int, State>
    var callingSession: Calls

    ghost function Now(): Board
      reads this
    {
      Board(activeSessionMap, tcpQueue, udpQueue, state, callingSession)
    }

    ghost predicate Shape()
      reads this
    {
      tcpQueue.Keys == udpQueue.Keys == state.Keys == sessions && Proper(callingSession, sessions)
    }

    /** Forward and reverse index agree: a manager serves a session exactly if the session has it queued. */
    ghost predicate Valid()
      reads this
    {
      Shape() && Agree(activeSessionMap, tcpQueue, udpQueue, sessions)
    }

    constructor (sessions: set<int>)
      ensures Valid() && this.sessions == sessions && forall s :: s in sessions ==> Unserved(Now(), s) && state[s] == Ended
    {
      this.sessions := sessions;
      activeSessionMap := (map i | 0 <= i < VOICE_TCP_PORT_COUNT :: Tcp(i) := {}) + (map i | 0 <= i < VOICE_UDP_PORT_COUNT :: Udp(i) := {});
      tcpQueue := map s | s in sessions :: [];
      udpQueue := map s | s in sessions :: [];
      state := map s | s in sessions :: Ended;
      callingSession := map s | s in sessions :: None;
    }

    /** The session polls the managers of one of its queues, one after the other, and leaves them. */
    method Drain(s: int, queue: seq<Manager>) returns (rest: seq<Manager>)
      requires forall m :: m in queue ==> m in activeSessionMap
      modifies this`activeSessionMap
      ensures rest == [] && activeSessionMap == Left(old(activeSessionMap), s, queue)
    {
      hide Left;
      ghost var drained := [];
      rest := queue;
      LeftNone(activeSessionMap, s);
      while rest != []
        invariant drained + rest == queue && activeSessionMap == Left(old(activeSessionMap), s, drained)
        decreases |rest|
      {
        var m := rest[0];
        assert m in queue && drained + [m] + rest[1..] == queue;
        LeftKeys(old(activeSessionMap), s, drained);
        LeftNext(old(activeSessionMap), s, drained, m);
        rest := rest[1..];
        activeSessionMap := activeSessionMap[m := activeSessionMap[m] - {s}];
        drained := drained + [m];
      }
      assert drained + [] == drained;
    }

    /** A session leaves all managers it has queued, and these are all that serve it. */
    method LeaveManagers(s: int)
      requires Valid() && s in sessions
      modifies this`activeSessionMap, this`tcpQueue, this`udpQueue
      ensures Valid() && activeSessionMap == Gone(old(activeSessionMap), s)
      ensures tcpQueue == old(tcpQueue)[s := []] && udpQueue == old(udpQueue)[s := []]
    {
      hide Left, Exists;
      assert forall m :: m in tcpQueue[s] || m in udpQueue[s] ==> Queued(tcpQueue, udpQueue, s, m);
      GoneAgrees(activeSessionMap, tcpQueue, udpQueue, sessions, s);
      LeftKeys(activeSessionMap, s, tcpQueue[s]);
      LeftAll(activeSessionMap, s, tcpQueue[s], udpQueue[s]);
      var rest := Drain(s, tcpQueue[s]);
      tcpQueue := tcpQueue[s := rest];
      rest := Drain(s, udpQueue[s]);
      udpQueue := udpQueue[s := rest];
    }

    /** The registering part of CALL_ACCEPT and callAccept. */
    method JoinManagers(s: int, tcpDraws: seq<Draw>, udpDraws: seq<Draw>) returns (out: seq<Notice>)
      requires Valid() && s in sessions
      requires DrawsBelow(tcpDraws, VOICE_TCP_PORT_COUNT)
      requires DrawsBelow(udpDraws, VOICE_UDP_PORT_COUNT - VOICE_UDP_PORT_OFFER_COUNT + 1)
      modifies this`activeSessionMap, this`tcpQueue, this`udpQueue
      ensures Valid()
      ensures var tcp, udp := TcpChoice(tcpDraws), UdpChoice(udpDraws);
              && activeSessionMap == Joined(Joined(old(activeSessionMap), s, tcp), s, udp)
              && tcpQueue == old(tcpQueue)[s := old(tcpQueue)[s] + tcp] && udpQueue == old(udpQueue)[s := old(udpQueue)[s] + udp]
              && out == TcpOffer(tcp) + UdpOffer(udp)
      ensures forall n :: n in out ==> Kept(activeSessionMap, s, n)
    {
      hide Joined, Exists, Kept, TcpChoice, UdpChoice, TcpOffer, UdpOffer, Switchboard.Valid;
      InRange();
      var tcp := PickTcp(tcpDraws);
      AtMostOne(tcpDraws);
      OffersKept(activeSessionMap, s, tcp, udpDraws);
      Join(s, tcp, true);
      var udp := PickUdp(udpDraws);
      Join(s, udp, false);
      out := TcpOffer(tcp) + UdpOffer(udp);
    }

    /** registerSession and the reverse entry, manager by manager. */
    method Join(s: int, ms: seq<Manager>, tcp: bool)
      requires Valid() && s in sessions && forall k :: 0 <= k < |ms| ==> Exists(ms[k])
      modifies this`activeSessionMap, this`tcpQueue, this`udpQueue
      ensures Valid() && activeSessionMap == Joined(old(activeSessionMap), s, ms)
      ensures tcpQueue == if tcp then old(tcpQueue)[s := old(tcpQueue)[s] + ms] else old(tcpQueue)
      ensures udpQueue == if tcp then old(udpQueue) else old(udpQueue)[s := old(udpQueue)[s] + ms]
    {
      hide Joined, Exists, Switchboard.Valid;
      InRange();
      JoinedNone(activeSessionMap, s);
      QueuedNothing(old(tcpQueue), s, ms);
      QueuedNothing(old(udpQueue), s, ms);
      for k := 0 to |ms|
        invariant s in sessions && Valid() && activeSessionMap == Joined(old(activeSessionMap), s, ms[..k])
        invariant tcpQueue == if tcp then QueuedUpTo(old(tcpQueue), s, ms, k) else old(tcpQueue)
        invariant udpQueue == if tcp then old(udpQueue) else QueuedUpTo(old(udpQueue), s, ms, k)
      {
        InRange();
        JoinedNext(old(activeSessionMap), s, ms[..k], ms[k]);
        QueuedOneMore(old(tcpQueue), s, ms, k);
        QueuedOneMore(old(udpQueue), s, ms, k);
        Register(s, ms[k], tcp);
        assert ms[..k + 1] == ms[..k] + [ms[k]];
      }
      assert ms[..|ms|] == ms;
    }

    lemma InRange()
      requires Valid()
      ensures tcpQueue.Keys == udpQueue.Keys == sessions
      ensures forall m :: m in activeSessionMap <==> Exists(m)
    {
    }

    /** One manager is told to serve the session, and queued by it. */
    method Register(s: int, m: Manager, tcp: bool)
      requires Valid() && s in sessions && Exists(m)
      modifies this`activeSessionMap, this`tcpQueue, this`udpQueue
      ensures Valid() && m in old(activeSessionMap) && activeSessionMap == old(activeSessionMap)[m := old(activeSessionMap)[m] + {s}]
      ensures s in old(tcpQueue) && s in old(udpQueue)
      ensures tcpQueue == if tcp then old(tcpQueue)[s := old(tcpQueue)[s] + [m]] else old(tcpQueue)
      ensures udpQueue == if tcp then old(udpQueue) else old(udpQueue)[s := old(udpQueue)[s] + [m]]
    {
      RegisteredAgrees(activeSessionMap, tcpQueue, udpQueue, sessions, s, m);
      activeSessionMap := activeSessionMap[m := activeSessionMap[m] + {s}];
      if tcp {
        tcpQueue := tcpQueue[s := tcpQueue[s] + [m]];
      } else {
        udpQueue := udpQueue[s := udpQueue[s] + [m]];
      }
    }

    /** A session is opened or logs in. */
    method Enter(s: int, to: State)
      requires Valid() && s in sessions && (to == Inited || to == Started)
      modifies this`state
      ensures Valid() && state == old(state)[s := to]
    {
      state := state[s := to];
    }

    /** CALL_TO with a number that belongs to `found`, if to anybody. */
    method CallTo(s: int, found: Option<int>) returns (out: seq<Notice>)
      requires Valid() && s in sessions && (found.Some? ==> found.value in sessions)
      modifies this`callingSession
      ensures Valid()
      ensures if found == None || found.value == s then out == [WrongNumber] && callingSession == old(callingSession)
              else if state[found.value] != Started then out == [DestinationCalling] && callingSession == old(callingSession)
              else out == [CallResponse(found.value)] && callingSession == old(callingSession)[s := found]
      ensures (exists p :: out == [CallResponse(p)]) <==> found.Some? && found.value != s && old(Callable(Now(), found.value))
    {
      if found == None || found.value == s {
        return [WrongNumber];
      }
      if state[found.value] != Started {
        return [DestinationCalling];
      }
      callingSession := callingSession[s := found];
      return [CallResponse(found.value)];
    }

    /** CALL_TO2: the session called learns who is calling, and both are calling. */
    method CallTo2(s: int) returns (out: seq<Notice>, toPeer: seq<Notice>)
      requires Valid() && s in sessions
      modifies this`callingSession, this`state
      ensures Valid()
      ensures var peer := old(callingSession)[s];
              if peer == None || old(state)[peer.value] != Started
              then out == [if peer == None then WrongNumber else DestinationCalling] && toPeer == []
                   && callingSession == old(callingSession)[s := None] && state == old(state)
              else out == [] && toPeer == [CalledFrom(s)]
                   && callingSession == old(callingSession)[peer.value := Some(s)]
                   && state == old(state)[peer.value := Calling][s := Calling]
      ensures out == [WrongNumber] <==> old(CallsNobody(Now(), s))
    {
      var peer := callingSession[s];
      if peer == None {
        callingSession := callingSession[s := None];
        return [WrongNumber], [];
      }
      if state[peer.value] != Started {
        callingSession := callingSession[s := None];
        return [DestinationCalling], [];
      }
      callingSession := callingSession[peer.value := Some(s)];
      state := state[peer.value := Calling];
      state := state[s := Calling];
      return [], [CalledFrom(s)];
    }

    /** Session.callAccept: the other side of an accepted call registers and is told its ports. */
    method CallAccept(s: int, tcpDraws: seq<Draw>, udpDraws: seq<Draw>) returns (out: seq<Notice>)
      requires Valid() && s in sessions
      requires DrawsBelow(tcpDraws, VOICE_TCP_PORT_COUNT)
      requires DrawsBelow(udpDraws, VOICE_UDP_PORT_COUNT - VOICE_UDP_PORT_OFFER_COUNT + 1)
      modifies this`activeSessionMap, this`tcpQueue, this`udpQueue
      ensures Valid()
      ensures var tcp, udp := TcpChoice(tcpDraws), UdpChoice(udpDraws);
              && activeSessionMap == Joined(Joined(old(activeSessionMap), s, tcp), s, udp)
              && out == [CallAccepted] + TcpOffer(tcp) + UdpOffer(udp)
      ensures forall n :: n in out ==> Kept(activeSessionMap, s, n)
      ensures forall t :: t in sessions && t != s ==>
                t in tcpQueue && t in udpQueue && t in old(tcpQueue) && t in old(udpQueue)
                && tcpQueue[t] == old(tcpQueue)[t] && udpQueue[t] == old(udpQueue)[t]
    {
      hide Joined, Kept, Exists, TcpChoice, UdpChoice, TcpOffer, UdpOffer, DrawsBelow, Switchboard.Valid;
      InRange();
      out := JoinManagers(s, tcpDraws, udpDraws);
      NothingOffered(activeSessionMap, s);
      out := [CallAccepted] + out;
      InRange();
      ghost var tcp, udp := TcpOffer(TcpChoice(tcpDraws)), UdpOffer(UdpChoice(udpDraws));
      assert [CallAccepted] + (tcp + udp) == [CallAccepted] + tcp + udp;
    }

    /**
      CALL_ACCEPT: the session, and whom it is calling, register with managers drawn anew for each, and are told
      their ports. Every port told is served by a manager that has the session told of it active.
     */
    method AcceptCall(s: int, tcpDraws: seq<Draw>, udpDraws: seq<Draw>, peerTcpDraws: seq<Draw>, peerUdpDraws: seq<Draw>)
      returns (out: seq<Notice>, toPeer: seq<Notice>)
      requires Valid() && s in sessions
      requires DrawsBelow(tcpDraws, VOICE_TCP_PORT_COUNT) && DrawsBelow(peerTcpDraws, VOICE_TCP_PORT_COUNT)
      requires DrawsBelow(udpDraws, VOICE_UDP_PORT_COUNT - VOICE_UDP_PORT_OFFER_COUNT + 1)
      requires DrawsBelow(peerUdpDraws, VOICE_UDP_PORT_COUNT - VOICE_UDP_PORT_OFFER_COUNT + 1)
      modifies this`activeSessionMap, this`tcpQueue, this`udpQueue
      ensures Valid()
      ensures old(state)[s] != Calling ==>
                out == toPeer == [] && activeSessionMap == old(activeSessionMap) && tcpQueue == old(tcpQueue) && udpQueue == old(udpQueue)
      ensures old(state)[s] == Calling ==>
                var tcp, udp := TcpChoice(tcpDraws), UdpChoice(udpDraws);
                var own := Joined(Joined(old(activeSessionMap), s, tcp), s, udp);
                var peer := callingSession[s];
                if peer == None
                then out == TcpOffer(tcp) + UdpOffer(udp) + [CallAcceptError] && toPeer == [] && activeSessionMap == own
                else var ptcp, pudp := TcpChoice(peerTcpDraws), UdpChoice(peerUdpDraws);
                     && out == TcpOffer(tcp) + UdpOffer(udp) && toPeer == [CallAccepted] + TcpOffer(ptcp) + UdpOffer(pudp)
                     && activeSessionMap == Joined(Joined(own, peer.value, ptcp), peer.value, pudp)
      ensures forall n :: n in out ==> Kept(activeSessionMap, s, n)
      ensures callingSession[s].Some? ==> forall n :: n in toPeer ==> Kept(activeSessionMap, callingSession[s].value, n)
      ensures forall t :: t in sessions && t != s && callingSession[s] != Some(t) ==>
                tcpQueue[t] == old(tcpQueue)[t] && udpQueue[t] == old(udpQueue)[t]
    {
      hide Joined, Kept, Agree, Exists, TcpChoice, UdpChoice, TcpOffer, UdpOffer, DrawsBelow;
      if state[s] != Calling {
        return [], [];
      }
      out := JoinManagers(s, tcpDraws, udpDraws);
      ghost var own := activeSessionMap;
      if callingSession[s] == None {
        NothingOffered(activeSessionMap, s);
        return out + [CallAcceptError], [];
      }
      var peer := callingSession[s].value;
      toPeer := CallAccept(peer, peerTcpDraws, peerUdpDraws);
      OffersStayGood(own, s, out, peer, TcpChoice(peerTcpDraws), UdpChoice(peerUdpDraws));
    }

    /** A session leaves all managers and its call. */
    method HangUp(s: int, to: State)
      requires Valid() && s in sessions
      modifies this
      ensures Valid() && Now() == HungUp(old(Now()), s, to)
    {
      hide Agree, Gone, Proper;
      NoCallProper(callingSession, sessions, s);
      SameKeys(state, s, to);
      LeaveManagers(s);
      callingSession := callingSession[s := None];
      state := state[s := to];
    }

    /** Session.callOff: the other side ended the call. */
    method CalledOff(s: int) returns (out: seq<Notice>)
      requires Valid() && s in sessions
      modifies this
      ensures Valid() && Now() == HungUp(old(Now()), s, Started) && out == [CallOff]
    {
      HangUp(s, Started);
      return [CallOff];
    }

    /** Ends the call on both sides. */
    method HangUpBoth(s: int, to: State) returns (toPeer: seq<Notice>)
      requires Valid() && s in sessions
      modifies this
      ensures Valid() && s in old(callingSession) && Now() == CallEnded(old(Now()), s, to)
      ensures toPeer == if old(callingSession)[s].Some? then [CallOff] else []
    {
      hide Agree, HungUp;
      toPeer := [];
      if callingSession[s].Some? {
        toPeer := CalledOff(callingSession[s].value);
      }
      HangUp(s, to);
    }

    /** CALL_OFF; outside a call it does nothing. */
    method EndCall(s: int) returns (toPeer: seq<Notice>)
      requires Valid() && s in sessions
      modifies this
      ensures Valid() && s in old(state) && s in old(callingSession)
      ensures if old(state)[s] != Calling then toPeer == [] && Now() == old(Now())
              else && Now() == CallEnded(old(Now()), s, Started) && CallsNobody(Now(), s) && Callable(Now(), s)
                   && (old(callingSession)[s].Some? ==>
                         CallsNobody(Now(), old(callingSession)[s].value) && Callable(Now(), old(callingSession)[s].value))
                   && toPeer == if old(callingSession)[s].Some? then [CallOff] else []
    {
      CallEnds(Now(), s, Started, s);
      hide Agree, CallEnded, CallsNobody, Callable;
      if state[s] != Calling {
        return [];
      }
      toPeer := HangUpBoth(s, Started);
    }

    /** Session.OnClose does the same whatever the state, and the session has ended. */
    method OnClose(s: int) returns (toPeer: seq<Notice>)
      requires Valid() && s in sessions
      modifies this
      ensures Valid() && s in old(callingSession) && Now() == CallEnded(old(Now()), s, Ended)
      ensures CallsNobody(Now(), s) && state[s] == Ended
      ensures old(callingSession)[s].Some? ==> CallsNobody(Now(), old(callingSession)[s].value) && Callable(Now(), old(callingSession)[s].value)
      ensures toPeer == if old(callingSession)[s].Some? then [CallOff] else []
    {
      CallEnds(Now(), s, Ended, s);
      hide Agree, CallEnded, CallsNobody, Callable;
      toPeer := HangUpBoth(s, Ended);
    }
  }

  lemma AtMostOne(draws: seq<Draw>)
    ensures |TcpChoice(draws)| <= 1
  {
  }

  function TcpOffer(ms: seq<Manager>): seq<Notice> {
    if ms == [] then [] else [PutTcpServer(PortOf(ms[0]))]
  }

  function UdpOffer(ms: seq<Manager>): seq<Notice> {
    if ms == [] then [] else [PutUdpServer(PortOf(ms[0]), VOICE_UDP_PORT_OFFER_COUNT)]
  }

  /** The first draw that was found running, if any. */
  ghost predicate FirstAt(draws: seq<Draw>, i: nat) {
    i < |draws| && draws[i].running && forall j :: 0 <= j < i ==> !draws[j].running
  }

  /** The last one. */
  ghost predicate LastAt(draws: seq<Draw>, i: nat) {
    i < |draws| && draws[i].running && forall j :: i < j < |draws| ==> !draws[j].running
  }

  /** What a client is told: the port of the first TCP manager drawn that runs, and the first of five ports from the last UDP one. */
  lemma {:induction false} OffersTell(draws: seq<Draw>, i: nat)
    ensures FirstAt(draws, i) ==> TcpChoice(draws) == [Tcp(draws[i].index)] && TcpOffer(TcpChoice(draws)) == [PutTcpServer(VOICE_TCP_PORT + draws[i].index)]
    ensures LastAt(draws, i) ==> UdpOffer(UdpChoice(draws)) == [PutUdpServer(VOICE_UDP_PORT + draws[i].index, 5)]
    ensures LastAt(draws, i) ==> UdpChoice(draws) == seq(5, j requires 0 <= j => Udp(draws[i].index + j))
    decreases |draws|
  {
    if draws != [] {
      if FirstAt(draws, i) && i > 0 {
        assert FirstAt(draws[1..], i - 1) by {
          assert forall j :: 0 <= j < i - 1 ==> draws[1..][j] == draws[j + 1];
        }
        OffersTell(draws[1..], i - 1);
      }
      if LastAt(draws, i) && i < |draws| - 1 {
        assert LastAt(draws[..|draws| - 1], i);
        OffersTell(draws[..|draws| - 1], i);
      }
    }
  }

  lemma OffersKept(active: Active, s: int, tcp: seq<Manager>, udpDraws: seq<Draw>)
    requires forall m :: m in active <==> Exists(m)
    requires |tcp| <= 1 && forall k :: 0 <= k < |tcp| ==> Exists(tcp[k]) && tcp[k].Tcp?
    requires DrawsBelow(udpDraws, VOICE_UDP_PORT_COUNT - VOICE_UDP_PORT_OFFER_COUNT + 1)
    ensures var udp := UdpChoice(udpDraws);
            forall n :: n in TcpOffer(tcp) + UdpOffer(udp) ==> Kept(Joined(Joined(active, s, tcp), s, udp), s, n)
  {
    var udp := UdpChoice(udpDraws);
    var after := Joined(Joined(active, s, tcp), s, udp);
    if tcp != [] {
      assert tcp[0] in after && Offers(PutTcpServer(PortOf(tcp[0])), tcp[0]) && s in after[tcp[0]];
    }
    if udp != [] {
      ChoiceFails(udpDraws);
      var first := PortOf(udp[0]);
      forall p: nat | first <= p < first + VOICE_UDP_PORT_OFFER_COUNT
        ensures ServedAt(after, s, p)
      {
        var m := udp[p - first];
        assert Exists(m) && m in after && PortOf(m) == p && s in after[m];
      }
    }
  }

  lemma JoinedNone(active: Active, s: int)
    ensures Joined(active, s, []) == active
  {
  }

  lemma JoinedNext(active: Active, s: int, ms: seq<Manager>, m: Manager)
    requires m in active
    ensures var before := Joined(active, s, ms); m in before && Joined(active, s, ms + [m]) == before[m := before[m] + {s}]
  {
    var before, after := Joined(active, s, ms), Joined(active, s, ms + [m]);
    var step := before[m := before[m] + {s}];
    assert after.Keys == active.Keys == step.Keys;
    forall k | k in active
      ensures after[k] == step[k]
    {
      assert k in ms + [m] <==> k in ms || k == m;
    }
    assert after == step;
  }

  lemma LeftKeys(active: Active, s: int, ms: seq<Manager>)
    ensures Left(active, s, ms).Keys == active.Keys
  {
  }

  lemma LeftNone(active: Active, s: int)
    ensures Left(active, s, []) == active
  {
  }

  lemma LeftNext(active: Active, s: int, ms: seq<Manager>, m: Manager)
    requires m in active
    ensures var before := Left(active, s, ms); Left(active, s, ms + [m]) == before[m := before[m] - {s}]
  {
    var before, after := Left(active, s, ms), Left(active, s, ms + [m]);
    var step := before[m := before[m] - {s}];
    assert after.Keys == active.Keys == step.Keys;
    forall k | k in active
      ensures after[k] == step[k]
    {
      assert k in ms + [m] <==> k in ms || k == m;
    }
    assert after == step;
  }

  lemma LeftAll(active: Active, s: int, a: seq<Manager>, b: seq<Manager>)
    requires forall m :: m in active && s in active[m] ==> m in a || m in b
    ensures Left(Left(active, s, a), s, b) == Gone(active, s)
  {
    var after := Left(Left(active, s, a), s, b);
    assert after.Keys == active.Keys == Gone(active, s).Keys;
    assert forall m :: m in active ==> after[m] == Gone(active, s)[m];
  }
}
