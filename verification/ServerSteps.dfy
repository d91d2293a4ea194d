/**
  Runs of the server: any steps of its managers, in any order, each with the registered sessions and calls of its moment.
 */
module ServerSteps {
  import opened Framing
  import opened Options
  import opened Ownership
  import opened PacketTokenizing
  import opened Traffics
  import opened VoiceDataLists
  import opened VoicePacket

  /** One call of VoiceTcpManager.read, with what the socket has. */
  datatype Read = Read(place: Place, input: Option<seq<byte>>)

  /** The methods of the server that move buffers. `handle` is what the environment does with each packet of a session's read. */
  datatype Step =
    | Tcp(read: Read, registry: Registry)
    | Udp(datagram: Option<seq<byte>>, registry: Registry)
    | Socket(bytes: seq<byte>, receiver: Option<int>)
    | Messages(session: int, hasCipher: bool, handle: nat -> Handling)
    | Accept(channel: Place)
    | Close(channel: Place)
  {
    ghost predicate Allowed(sessions: set<int>) {
      match this
      case Tcp(read, r) => read.place.VoiceTokens? && r.Within(sessions)
      case Udp(_, r) => r.Within(sessions)
      case Socket(_, receiver) => receiver.Some? ==> receiver.value in sessions
      case Messages(s, _, _) => s in sessions && forall n: nat :: AllHandlingsWithin(Handlings(n), sessions)
      case Accept(c) => c.VoiceTokens?
      case Close(c) => c.VoiceTokens?
    }

    function Handlings(n: nat): (r: seq<Handling>)
      requires Messages?
      ensures |r| == n
    {
      seq(n, i requires 0 <= i < n => handle(i))
    }
  }

  ghost predicate AllAllowed(steps: seq<Step>, sessions: set<int>) {
    forall i :: 0 <= i < |steps| ==> steps[i].Allowed(sessions)
  }

  /** How many packets a session's read may come to handle. */
  function Pending(m: Memory, s: int): nat
    requires SessionTokens(s) in m.at && SessionTokens(s) in m.streams && Input(s) in m.at
  {
    if m.at[Input(s)] == [] then 0 else |PacketsAfter(m, s)|
  }

  /** The memory after a step. A channel is opened if it is not open, and closed if it is. */
  ghost function After(m: Memory, step: Step, sessions: set<int>): (e: Memory)
    requires Ready(m, sessions) && step.Allowed(sessions)
    ensures Ready(e, sessions)
  {
    hide AllData, TcpRead, UdpRead, SelectorRead, SessionRead, PacketsAfter;
    match step
    case Tcp(read, r) => TcpRead(m, read.place, read.input, r, sessions).memory
    case Udp(datagram, r) => UdpRead(m, datagram, r, sessions).memory
    case Socket(bytes, receiver) => SelectorRead(m, bytes, receiver, sessions)
    case Messages(s, hasCipher, _) => SessionRead(m, s, hasCipher, step.Handlings(Pending(m, s)), sessions).memory
    case Accept(c) =>
      ChannelsReady(m, c, sessions);
      if c in m.at then m else Opened(m, c)
    case Close(c) =>
      ChannelsReady(m, c, sessions);
      if c in m.at then Shut(m, c) else m
  }

  ghost function AfterSteps(m: Memory, steps: seq<Step>, sessions: set<int>): (e: Memory)
    requires Ready(m, sessions) && AllAllowed(steps, sessions)
    ensures Ready(e, sessions)
  {
    if steps == [] then m
    else
      After(AfterSteps(m, steps[..|steps| - 1], sessions), steps[|steps| - 1], sessions)
  }

  // ---- What is lost over a run ----

  /** The step drops a buffer for good. */
  ghost predicate StepLoses(m: Memory, step: Step, sessions: set<int>)
    requires Ready(m, sessions) && step.Allowed(sessions)
  {
    match step
    case Tcp(read, r) =>
      && Reaches(m, read.place, read.input)
      && (|Found(m, read.place, read.input.value)| >= |m.free| || CodeOf(QueuedAfter(m, read.place, read.input.value), r) == Thrown)
    case Udp(datagram, r) =>
      && m.free != [] && datagram.Some? && datagram.value != []
      && (UdpVerdict(datagram.value, r).Throws? || UdpVerdict(datagram.value, r).Unknown?)
    case Messages(s, hasCipher, _) =>
      && m.at[Input(s)] != [] && !Refuses(m, SessionTokens(s), m.at[Input(s)][0].bytes)
      && var q := PacketsAfter(m, s);
      (|Found(m, SessionTokens(s), m.at[Input(s)][0].bytes)| > |m.free|
       || (q != [] && Overruns(q[0].bytes)) || Loses(q, s, hasCipher, step.Handlings(|q|)))
    case _ => false
  }

  lemma TcpLostGrows(m: Memory, p: Place, input: Option<seq<byte>>, r: Registry, sessions: set<int>)
    requires Ready(m, sessions) && r.Within(sessions) && p.VoiceTokens?
    ensures m.lost <= TcpRead(m, p, input, r, sessions).memory.lost
  {
    hide TcpRun, TcpVerdict, AllData, Tokenizer.Put, CodeOf;
    if Reaches(m, p, input) && |Found(m, p, input.value)| < |m.free| {
      var b := Buffer(m.free[0].key, input.value);
      TokenizedQueue(m, p, input.value, b);
      TokenizedReady(m, p, input.value, b, sessions);
      RunOutcome(Freed(Tokenized(Taken(m), p, input.value), b), p, [], r, sessions);
    }
  }

  lemma UdpLostGrows(m: Memory, datagram: Option<seq<byte>>, r: Registry, sessions: set<int>)
    requires Ready(m, sessions) && r.Within(sessions)
    ensures m.lost <= UdpRead(m, datagram, r, sessions).memory.lost
  {
    hide UdpVerdict, Listed, SeqOf;
    if m.free != [] && datagram.Some? && datagram.value != [] {
      var taken := m.(free := m.free[1..]);
      var b := Buffer(m.free[0].key, datagram.value);
      UdpDataReadable(b.bytes, r, sessions);
      if UdpVerdict(b.bytes, r).Data? {
        ListedKeeps(taken, UdpVerdict(b.bytes, r).session, b);
      }
    }
  }

  lemma SessionLostGrows(m: Memory, s: int, hasCipher: bool, handlings: seq<Handling>, sessions: set<int>)
    requires Ready(m, sessions) && s in sessions && AllHandlingsWithin(handlings, sessions)
    requires m.at[Input(s)] != [] ==> |PacketsAfter(m, s)| <= |handlings|
    ensures m.lost <= SessionRead(m, s, hasCipher, handlings, sessions).memory.lost
  {
    hide AllData, SessionRun, Tokenizer.Put, AllHandlingsWithin, Overruns, Checked;
    if m.at[Input(s)] != [] && !Refuses(m, SessionTokens(s), m.at[Input(s)][0].bytes) {
      var p, b, taken := SessionTokens(s), m.at[Input(s)][0], Popped(m, Input(s));
      if |Found(m, p, b.bytes)| <= |m.free| {
        var q := PacketsAfter(m, s);
        assert Freed(Tokenized(taken, p, b.bytes), b).at[p] == q;
        CheckedWithin(q, handlings, sessions);
        LostGrows(Freed(Tokenized(taken, p, b.bytes), b), s, hasCipher, Checked(q, handlings), sessions);
      }
    }
  }

  lemma StepLosesExactly(m: Memory, step: Step, sessions: set<int>)
    requires Ready(m, sessions) && step.Allowed(sessions)
    ensures After(m, step, sessions).lost != m.lost <==> StepLoses(m, step, sessions)
    ensures m.lost <= After(m, step, sessions).lost
  {
    hide AllData, TcpRead, UdpRead, SessionRead, PacketsAfter, Loses, CodeOf, UdpVerdict, Overruns, Tokenizer.Put, AllHandlingsWithin;
    match step
    case Tcp(read, r) =>
      TcpLosesExactly(m, read.place, read.input, r, sessions);
      TcpLostGrows(m, read.place, read.input, r, sessions);
    case Udp(datagram, r) =>
      UdpLosesExactly(m, datagram, r, sessions);
      UdpLostGrows(m, datagram, r, sessions);
    case Messages(s, hasCipher, _) =>
      SessionLosesExactly(m, s, hasCipher, step.Handlings(Pending(m, s)), sessions);
      SessionLostGrows(m, s, hasCipher, step.Handlings(Pending(m, s)), sessions);
    case _ =>
  }

  /** The `i`-th step of the run is such a step. */
  ghost predicate LosesAt(m: Memory, steps: seq<Step>, i: nat, sessions: set<int>)
    requires Ready(m, sessions) && AllAllowed(steps, sessions) && i < |steps|
  {
    StepLoses(AfterSteps(m, steps[..i], sessions), steps[i], sessions)
  }

  lemma LosesEarlier(m: Memory, steps: seq<Step>, n: nat, i: nat, sessions: set<int>)
    requires Ready(m, sessions) && AllAllowed(steps, sessions) && i < n <= |steps|
    ensures LosesAt(m, steps[..n], i, sessions) <==> LosesAt(m, steps, i, sessions)
  {
    hide Ready, AfterSteps, StepLoses, Step.Allowed;
    assert steps[..n][..i] == steps[..i] && steps[..n][i] == steps[i];
  }

  /**
    Over any run of the server, whatever its steps, nothing is lost if and only if no step is one that loses a buffer
    where it comes; and what is lost stays lost.
   */
  lemma {:induction false} RunLosesExactly(m: Memory, steps: seq<Step>, sessions: set<int>)
    requires Ready(m, sessions) && AllAllowed(steps, sessions)
    ensures m.lost <= AfterSteps(m, steps, sessions).lost
    ensures AfterSteps(m, steps, sessions).lost == m.lost <==> forall i :: 0 <= i < |steps| ==> !LosesAt(m, steps, i, sessions)
  {
    hide Ready, After, StepLoses, Step.Allowed, LosesAt;
    if steps == [] {
    } else {
      var n := |steps| - 1;
      var front := steps[..n];
      RunLosesExactly(m, front, sessions);
      LastLoses(m, steps, sessions);
      forall i | 0 <= i < n
        ensures LosesAt(m, front, i, sessions) <==> LosesAt(m, steps, i, sessions)
      {
        LosesEarlier(m, steps, n, i, sessions);
      }
    }
  }

  lemma LastLoses(m: Memory, steps: seq<Step>, sessions: set<int>)
    requires Ready(m, sessions) && AllAllowed(steps, sessions) && steps != []
    ensures var n := |steps| - 1;
            var before, after := AfterSteps(m, steps[..n], sessions).lost, AfterSteps(m, steps, sessions).lost;
            before <= after && (after != before <==> LosesAt(m, steps, n, sessions))
  {
    hide Ready, After, StepLoses, Step.Allowed;
    StepLosesExactly(AfterSteps(m, steps[..|steps| - 1], sessions), steps[|steps| - 1], sessions);
  }
}
