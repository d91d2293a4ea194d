/**
  client/jni/AudioPlayer.cpp: the playback callback. It sets the play rate from how much audio is
  buffered, fetches output from the time-stretcher and feeds it packets from the jitter buffer. The
  decoder is a parameter: any function from a packet to samples, or to nothing.
 */
module AudioPlayer {
  import opened AudioTool
  import opened Tape
  import opened OverlapAdd
  import opened Ring
  import opened PhaseVocoder
  import opened VocoderRuns
  import opened JitterQueues
  import opened JitterSpec
  import opened Options

  /**
    The play rate for buffered time `x`, given the average gap between packets and its deviation: two
    straight pieces through 0.9, 1.0 and 1.1, constant outside. `None` is a division of zero by zero.
   */
  function PlayRate(x: real, average: real, deviation: real): Option<real> {
    var xMin := average;
    var xCenter := xMin + 4.0 * deviation;
    var xMax := xMin + 8.0 * deviation;
    if x < xMin then Some(0.9)
    else if x > xMax then Some(1.1)
    else if x < xCenter then Some(Piece(0.1, xCenter - xMin, xCenter, x))
    else if xMax == xCenter then None
    else Some(Piece(0.1, xMax - xCenter, xCenter, x))
  }

  /** The straight piece through `(center, 1)` that rises by `rise` over `width`. */
  function Piece(rise: real, width: real, center: real, x: real): real
    requires width != 0.0
  {
    rise / width * x + (1.0 - rise / width * center)
  }

  lemma PieceIs(rise: real, width: real, center: real, x: real)
    requires width > 0.0
    ensures (Piece(rise, width, center, x) - 1.0) * width == rise * (x - center)
  {
    var slope := rise / width;
    assert slope * width == rise;
    assert Piece(rise, width, center, x) - 1.0 == slope * (x - center);
    assert slope * (x - center) * width == slope * width * (x - center);
  }

  lemma PieceBound(width: real, center: real, x: real)
    requires width > 0.0 && center - width <= x <= center + width
    ensures 0.9 <= Piece(0.1, width, center, x) <= 1.1
    ensures x <= center ==> Piece(0.1, width, center, x) <= 1.0
    ensures x >= center ==> Piece(0.1, width, center, x) >= 1.0
  {
    PieceIs(0.1, width, center, x);
    var d := Piece(0.1, width, center, x) - 1.0;
    Quotient(d, width, 0.1 * (x - center));
  }

  lemma Quotient(d: real, width: real, y: real)
    requires width > 0.0 && d * width == y && -0.1 * width <= y <= 0.1 * width
    ensures -0.1 <= d <= 0.1 && (y <= 0.0 ==> d <= 0.0) && (y >= 0.0 ==> d >= 0.0)
  {
    Sign(d, width);
    Sign(d - 0.1, width);
    Sign(d + 0.1, width);
    assert (d - 0.1) * width == y - 0.1 * width && (d + 0.1) * width == y + 0.1 * width;
  }

  lemma Sign(d: real, width: real)
    requires width > 0.0
    ensures d * width <= 0.0 ==> d <= 0.0
    ensures d * width >= 0.0 ==> d >= 0.0
  {
  }

  lemma PieceMonotone(width: real, center: real, x: real, y: real)
    requires width > 0.0 && x <= y
    ensures Piece(0.1, width, center, x) <= Piece(0.1, width, center, y)
  {
    var slope := 0.1 / width;
    assert slope * width == 0.1;
    assert slope >= 0.0;
    assert slope * x <= slope * y;
  }

  /** The rate is undefined exactly when the deviation is zero and the buffered time equals the average gap. */
  lemma RateDefinedExactly(x: real, average: real, deviation: real)
    requires deviation >= 0.0
    ensures PlayRate(x, average, deviation) == None <==> deviation == 0.0 && x == average
  {
  }

  /** Wherever it is defined, the rate lies between 0.9 and 1.1. */
  lemma RateBounds(x: real, average: real, deviation: real)
    requires deviation >= 0.0 && PlayRate(x, average, deviation).Some?
    ensures 0.9 <= PlayRate(x, average, deviation).value <= 1.1
    ensures x <= average + 4.0 * deviation && deviation > 0.0 ==> PlayRate(x, average, deviation).value <= 1.0
    ensures x >= average + 4.0 * deviation ==> PlayRate(x, average, deviation).value >= 1.0
  {
    hide Piece;
    if deviation > 0.0 && average <= x <= average + 8.0 * deviation {
      PieceBound(4.0 * deviation, average + 4.0 * deviation, x);
    }
  }

  /** The controller in numbers: 0.9 below, 1.1 above, and between them one straight line, 1.0 at its centre. */
  lemma RateOnLine(x: real, average: real, deviation: real)
    requires deviation > 0.0
    ensures PlayRate(x, average, deviation).Some?
    ensures var rate := PlayRate(x, average, deviation).value;
            && (x < average ==> rate == 0.9) && (x > average + 8.0 * deviation ==> rate == 1.1)
            && (average <= x <= average + 8.0 * deviation
                ==> (rate - 1.0) * (4.0 * deviation) == 0.1 * (x - (average + 4.0 * deviation)))
  {
    hide Piece;
    PieceIs(0.1, 4.0 * deviation, average + 4.0 * deviation, x);
  }

  /** More buffered audio never slows playback down. */
  lemma RateMonotone(x: real, y: real, average: real, deviation: real)
    requires deviation > 0.0 && x <= y
    ensures PlayRate(x, average, deviation).Some? && PlayRate(y, average, deviation).Some?
    ensures PlayRate(x, average, deviation).value <= PlayRate(y, average, deviation).value
  {
    hide Piece;
    RateBounds(x, average, deviation);
    RateBounds(y, average, deviation);
    PieceMonotone(4.0 * deviation, average + 4.0 * deviation, x, y);
  }

  /** AudioTool::float2short for one sample. */
  function Short(sample: real): (s: int)
    ensures -32768 <= s <= 32767
  {
    var value := Trunc(sample * 32768.0);
    if value > 32767 then 32767 else if value < -32768 then -32768 else value
  }

  function Shorts(samples: seq<real>): (r: seq<int>)
    ensures |r| == |samples|
  {
    seq(|samples|, i requires 0 <= i < |samples| => Short(samples[i]))
  }

  /** A sample in range becomes its 32768-fold without the fraction, others the nearest there is; nothing changes sign. */
  lemma ShortExactly(sample: real)
    ensures var s := Short(sample);
            && (-32768.0 < sample * 32768.0 < 32768.0 ==> -1.0 < sample * 32768.0 - s as real < 1.0)
            && (0.0 <= sample * 32768.0 < 32768.0 ==> s as real <= sample * 32768.0 && 0 <= s)
            && (-32768.0 < sample * 32768.0 <= 0.0 ==> sample * 32768.0 <= s as real && s <= 0)
            && (sample >= 1.0 ==> s == 32767) && (sample <= -1.0 ==> s == -32768)
  {
  }

  const SAMPLE_LENGTH := 256
  const FRAME: nat := 256
  const RING: nat := 128 * 256
  const TIME_PER_QUEUE := 21533.203125
  const TIME_PER_SAMPLE := 22.675736961

  function Silence(): seq<int> {
    seq(SAMPLE_LENGTH / 2, i => 0)
  }

  /** A step within a tenth of the base rate. */
  predicate NearBase(step: real, hop: nat, base: real) {
    Proportional(step, hop, 0.9 * base, 1.1 * base)
  }

  /** A fetch that renders anything does so with such a step. */
  predicate StepsNear(f: Fetch, hop: nat, base: real) {
    f.k > 0 ==> NearBase(f.source.s.step, hop, base)
  }

  /**
    What one callback does: one fetch, or two when the first handed out nothing, following each other from
    `from` to `to` with steps, where frames are rendered, within a tenth of the base rate; and exactly what the last
    of them handed out is enqueued, or silence if that is nothing.
   */
  ghost predicate Plays(calls: seq<Fetch>, enqueued: seq<int>, from: Progress, to: Progress, hop: nat, base: real) {
    && 1 <= |calls| <= 2 && (|calls| == 2 ==> calls[0].got == [])
    && Session(calls, from) && End(calls, from) == to
    && (forall i :: 0 <= i < |calls| ==> StepsNear(calls[i], hop, base) && Bounded(calls[i], FRAME, RING))
    && var got := calls[|calls| - 1].got;
       |got| <= SAMPLE_LENGTH && enqueued == if got == [] then Silence() else Shorts(got)
  }

  // ---- Runs of callbacks ----

  /** One callback: its fetches, what was enqueued, and where the time-stretcher stood before and after. */
  datatype Callback = Callback(calls: seq<Fetch>, enqueued: seq<int>, from: Progress, to: Progress)

  /** Callbacks that follow each other, with the base rate unchanged. */
  ghost predicate Playing(callbacks: seq<Callback>, start: Progress, hop: nat, base: real) {
    callbacks == []
    || (var c := callbacks[0];
        c.from == start && Plays(c.calls, c.enqueued, c.from, c.to, hop, base) && Playing(callbacks[1..], c.to, hop, base))
  }

  function Finally(callbacks: seq<Callback>, start: Progress): Progress {
    if callbacks == [] then start else callbacks[|callbacks| - 1].to
  }

  lemma CallbackStretch(c: Callback, hop: nat, base: real)
    requires Plays(c.calls, c.enqueued, c.from, c.to, hop, base) && c.from.output.hop == hop
    ensures Proportional(c.to.at - c.from.at, c.to.output.Write() - c.from.output.Write(), 0.9 * base, 1.1 * base)
    ensures c.to.output.hop == hop
  {
    hide Session, Output.Write, Shorts, Silence;
    BoundedStretch(c.calls, c.from, 0.9 * base, 1.1 * base);
    SessionAppends(c.calls, c.from);
  }

  /**
    The play rate never strays: over any run of callbacks at one base rate the input consumed is between 0.9 and 1.1
    times the base rate times the output written.
   */
  lemma {:induction false} PlayingStretch(callbacks: seq<Callback>, start: Progress, hop: nat, base: real)
    requires Playing(callbacks, start, hop, base) && start.output.hop == hop
    ensures var end := Finally(callbacks, start);
            var consumed, written := end.at - start.at, (end.output.Write() - start.output.Write()) as real;
            0.9 * base * written <= consumed <= 1.1 * base * written
  {
    hide Plays, Output.Write;
    if callbacks == [] {
      assert Finally(callbacks, start) == start;
    } else {
      var c, end := callbacks[0], Finally(callbacks, start);
      CallbackStretch(c, hop, base);
      PlayingStretch(callbacks[1..], c.to, hop, base);
      assert Finally(callbacks[1..], c.to) == end;
      StretchAdd(c.to.at - start.at, c.to.output.Write() - start.output.Write(),
                 end.at - c.to.at, end.output.Write() - c.to.output.Write(), 0.9 * base, 1.1 * base);
    }
  }

  /** All fetches of the run, in order. */
  function AllCalls(callbacks: seq<Callback>): seq<Fetch> {
    if callbacks == [] then [] else callbacks[0].calls + AllCalls(callbacks[1..])
  }

  lemma {:induction false} SessionsJoin(a: seq<Fetch>, b: seq<Fetch>, start: Progress)
    requires Session(a, start) && Session(b, End(a, start))
    ensures Session(a + b, start) && End(a + b, start) == End(b, End(a, start))
  {
    hide Fetch.Ok;
    if a == [] {
      assert a + b == b;
    } else {
      assert (a + b)[1..] == a[1..] + b;
      SessionsJoin(a[1..], b, a[0].to);
    }
  }

  /** The fetches of a run of callbacks form one session, so all that holds of sessions holds of playing. */
  lemma {:induction false} PlayingIsSession(callbacks: seq<Callback>, start: Progress, hop: nat, base: real)
    requires Playing(callbacks, start, hop, base)
    ensures Session(AllCalls(callbacks), start) && End(AllCalls(callbacks), start) == Finally(callbacks, start)
    ensures AllBounded(AllCalls(callbacks), FRAME, RING)
  {
    hide Session, End, Plays, Bounded;
    if callbacks == [] {
      NoCalls(start);
    } else {
      var c := callbacks[0];
      PlaysParts(c, hop, base);
      PlayingIsSession(callbacks[1..], c.to, hop, base);
      SessionsJoin(c.calls, AllCalls(callbacks[1..]), start);
    }
  }

  lemma NoCalls(start: Progress)
    ensures Session([], start) && End([], start) == start
  {
  }

  lemma PlaysParts(c: Callback, hop: nat, base: real)
    requires Plays(c.calls, c.enqueued, c.from, c.to, hop, base)
    ensures Session(c.calls, c.from) && End(c.calls, c.from) == c.to && AllBounded(c.calls, FRAME, RING)
  {
    hide Session, End, Bounded, StepsNear, Shorts, Silence;
  }

  /** Two fetches that follow each other, the first without a result, are what a callback may make. */
  lemma TwoPlay(first: Fetch, second: Fetch, enqueued: seq<int>, hop: nat, base: real)
    requires first.Ok() && second.Ok() && second.from == first.to && first.got == [] && |second.got| <= SAMPLE_LENGTH
    requires Bounded(first, FRAME, RING) && Bounded(second, FRAME, RING)
    requires StepsNear(first, hop, base) && StepsNear(second, hop, base)
    requires enqueued == if second.got == [] then Silence() else Shorts(second.got)
    ensures Plays([first, second], enqueued, first.from, second.to, hop, base)
  {
    hide Session, End, Bounded, StepsNear, Shorts, Silence, Fetch.Ok;
    ShortSessions(first, second);
  }

  lemma OnePlays(only: Fetch, enqueued: seq<int>, hop: nat, base: real)
    requires only.Ok() && |only.got| <= SAMPLE_LENGTH && Bounded(only, FRAME, RING) && StepsNear(only, hop, base)
    requires enqueued == if only.got == [] then Silence() else Shorts(only.got)
    ensures Plays([only], enqueued, only.from, only.to, hop, base)
  {
    hide Session, End, Bounded, StepsNear, Shorts, Silence, Fetch.Ok;
    ShortSessions(only, only);
  }

  /**
    What a player that started with nothing handed out has fetched since, over any run of callbacks: the overlap-add of
    all frames, position after position, but for the positions handed out early.
   */
  lemma PlayingDelivers(callbacks: seq<Callback>, start: Progress, hop: nat, base: real, q: nat)
    requires Playing(callbacks, start, hop, base) && Fit(start, RING) && start.output.len == FRAME
    requires start.output.delivered == []
    ensures var handed, o := Handed(AllCalls(callbacks)), Finally(callbacks, start).output;
            && |handed| <= o.Write() + 1
            && (q < |handed| && q !in o.provisional ==> handed[q] == OrZero(Mixed(o.frames, o.hop), q))
  {
    hide Playing, Fit, Mixed, Session;
    PlayingIsSession(callbacks, start, hop, base);
    SessionDelivers(AllCalls(callbacks), start, RING, [], q);
  }

  /** The play rate in numbers, relative to the base rate: a tenth less below, a tenth more above, on one line between. */
  predicate OnLine(x: real, average: real, deviation: real, base: real, playRate: real) {
    && (x < average ==> playRate == base * 0.9)
    && (x > average + 8.0 * deviation ==> playRate == base * 1.1)
    && (average <= x <= average + 8.0 * deviation
        ==> (playRate - base) * (4.0 * deviation) == base * (0.1 * (x - (average + 4.0 * deviation))))
  }

  lemma BaseOnLine(x: real, average: real, deviation: real, base: real)
    requires deviation > 0.0
    ensures PlayRate(x, average, deviation).Some? && OnLine(x, average, deviation, base, Clamped(base, PlayRate(x, average, deviation).value))
  {
    hide PlayRate, Clamped, OnLine;
    RateOnLine(x, average, deviation);
    RateBounds(x, average, deviation);
    var rate := PlayRate(x, average, deviation).value;
    ClampedIs(base, rate);
    ScaledLine(base, rate, 4.0 * deviation, 0.1 * (x - (average + 4.0 * deviation)));
    LineIs(x, average, deviation, base, rate);
  }

  lemma ClampedIs(base: real, rate: real)
    requires rate <= 1.1
    ensures Clamped(base, rate) == base * rate
  {
  }

  lemma ScaledLine(base: real, rate: real, width: real, y: real)
    ensures (rate - 1.0) * width == y ==> (base * rate - base) * width == base * y
  {
    assert base * rate - base == base * (rate - 1.0);
    assert base * (rate - 1.0) * width == base * ((rate - 1.0) * width);
  }

  lemma LineIs(x: real, average: real, deviation: real, base: real, rate: real)
    requires (x < average ==> rate == 0.9) && (x > average + 8.0 * deviation ==> rate == 1.1)
    requires average <= x <= average + 8.0 * deviation
             ==> (base * rate - base) * (4.0 * deviation) == base * (0.1 * (x - (average + 4.0 * deviation)))
    ensures OnLine(x, average, deviation, base, base * rate)
  {
  }

  lemma StepWithin(base: real, rate: real, hop: nat)
    requires 0.0 <= base && 0.9 <= rate <= 1.1
    ensures NearBase(Scaled(Clamped(base, rate), hop), hop, base)
    ensures 0.0 <= Clamped(base, rate) == base * rate
  {
    RateOrder(base, rate);
    ScaleOrder(0.9 * base, base * rate, hop as real);
    ScaleOrder(base * rate, 1.1 * base, hop as real);
  }

  lemma RateOrder(base: real, rate: real)
    requires 0.0 <= base && 0.9 <= rate <= 1.1
    ensures 0.0 <= 0.9 * base <= base * rate <= 1.1 * base
  {
    assert 0.0 <= (rate - 0.9) * base && 0.0 <= (1.1 - rate) * base;
  }

  lemma ScaleOrder(a: real, b: real, h: real)
    requires a <= b && 0.0 <= h
    ensures a * h <= b * h
  {
  }

  /** What the first packet of the jitter buffer yields: nothing if it is empty, too long, or decodes to nothing or too much. */
  function Yield(list: seq<Item<Packet>>, decode: Packet -> Option<seq<real>>): (r: Option<seq<real>>)
    ensures r.Some? ==> 0 < |r.value| <= 32768
  {
    if list == [] || list[0].data == [] || |list[0].data| > 32768 then None
    else
      var samples := decode(list[0].data);
      if samples.None? || samples.value == [] || |samples.value| > 32768 then None else samples
  }

  /** A packet yields samples exactly if it is neither empty nor too long and neither are they; then it is what the decoder says. */
  lemma YieldExactly(list: seq<Item<Packet>>, decode: Packet -> Option<seq<real>>, samples: seq<real>)
    ensures Yield(list, decode) == Some(samples)
       <==> list != [] && 0 < |list[0].data| <= 32768 && decode(list[0].data) == Some(samples) && 0 < |samples| <= 32768
    ensures Silence() == seq(128, i => 0)
  {
  }

  class AudioPlayer {
    const phaseVocoderMono: PhaseVocoderMono
    const priorityQueue: PriorityQueue
    const decode: Packet -> Option<seq<real>>
    const byteBuffer: array<int>
    const floatBuffer: array<real>

    ghost predicate Valid()
      reads this, phaseVocoderMono, phaseVocoderMono.Owned(), priorityQueue
    {
      && phaseVocoderMono.Valid() && priorityQueue.Valid()
      && phaseVocoderMono.fftSize == 256 && phaseVocoderMono.overlapRatio == 4
      && 0.0 <= phaseVocoderMono.basePlayRate == phaseVocoderMono.pitchRate
      && byteBuffer.Length == floatBuffer.Length == 32768
      && floatBuffer !in phaseVocoderMono.Owned()
      && phaseVocoderMono.inputBuffer.readPosition <= phaseVocoderMono.inputBuffer.writePosition as real
    }

    /** As after construction and after `Stop`: nothing has been heard, rendered or handed out. */
    ghost predicate Fresh()
      reads this, phaseVocoderMono, phaseVocoderMono.Owned(), priorityQueue
    {
      && phaseVocoderMono.output.frames == [] && phaseVocoderMono.output.delivered == [] && phaseVocoderMono.output.provisional == {}
      && phaseVocoderMono.inputBuffer.tape == [] && phaseVocoderMono.inputBuffer.readPosition == 0.0
      && priorityQueue.Abs() == Jitter([], {}) && priorityQueue.gaps == Gaps(0, 0, 0.0, 0.0)
      && BufferedTime() == 0.0
    }

    lemma IsFresh()
      requires phaseVocoderMono.Valid()
      requires phaseVocoderMono.output.frames == [] && phaseVocoderMono.output.delivered == [] && phaseVocoderMono.output.provisional == {}
      requires phaseVocoderMono.inputBuffer.tape == [] && phaseVocoderMono.inputBuffer.readPosition == 0.0
      requires priorityQueue.Abs() == Jitter([], {}) && priorityQueue.gaps == Gaps(0, 0, 0.0, 0.0)
      ensures Fresh()
    {
      hide PhaseVocoderMono.OutputOk, PhaseVocoderMono.Shape, Agrees;
    }

    /** Both base rates are the ratio of the stream's sample rate to the device's. */
    constructor (systemSampleRate: nat, sampleRate: nat, manipulate: Manipulation, decode: Packet -> Option<seq<real>>)
      requires 0 < sampleRate < 128 * systemSampleRate && KeepsLength(manipulate, 256)
      ensures Valid() && phaseVocoderMono.basePlayRate == sampleRate as real / systemSampleRate as real
      ensures Fresh()
    {
      hide PhaseVocoderMono.OutputOk, PhaseVocoderMono.InputOk, PhaseVocoderMono.Shape, AudioPlayer.Fresh, FftSize, Mixed, RingBuffer.Valid;
      FftSize8();
      priorityQueue := new PriorityQueue(500);
      byteBuffer := new int[32768];
      floatBuffer := new real[32768];
      this.decode := decode;
      var rate := sampleRate as real / systemSampleRate as real;
      RateInRange(sampleRate as real, systemSampleRate as real);
      var vocoder := new PhaseVocoderMono(8, 4, manipulate);
      vocoder.SetPitchRate(rate);
      vocoder.SetBasePlayRate(rate);
      phaseVocoderMono := vocoder;
      new;
      StartsAtZero();
      IsFresh();
    }

    lemma StartsAtZero()
      requires phaseVocoderMono.Valid()
      ensures phaseVocoderMono.inputBuffer.readPosition == 0.0
              ==> phaseVocoderMono.inputBuffer.readPosition <= phaseVocoderMono.inputBuffer.writePosition as real
    {
      hide PhaseVocoderMono.OutputOk, PhaseVocoderMono.Shape, Agrees;
    }

    /** Nothing is queued, heard or rendered any more. */
    method Stop()
      requires Valid()
      modifies phaseVocoderMono`output, phaseVocoderMono.Owned(), priorityQueue
      ensures Valid() && Fresh()
    {
      hide PhaseVocoderMono.OutputOk, PhaseVocoderMono.InputOk, PhaseVocoderMono.Shape, Agrees;
      phaseVocoderMono.Reset();
      priorityQueue.Reset();
      IsFresh();
    }

    /** AudioPlayer::start sets the rate to the base rate. */
    method Start()
      requires Valid()
      modifies phaseVocoderMono`playRate
      ensures Valid() && RateOk() && phaseVocoderMono.Here() == old(phaseVocoderMono.Here())
      ensures phaseVocoderMono.basePlayRate == old(phaseVocoderMono.basePlayRate)
    {
      hide PhaseVocoderMono.OutputOk, PhaseVocoderMono.Shape, Agrees, Clamped, NearBase, Scaled;
      StepWithin(phaseVocoderMono.basePlayRate, 1.0, phaseVocoderMono.hopSize);
      phaseVocoderMono.SetPlayRate(1.0);
    }

    /** The deviation is the root of the variance. */
    ghost predicate Deviates(deviation: real)
      reads priorityQueue
    {
      0.0 <= deviation && Square(deviation) == priorityQueue.gaps.variance
    }

    /**
      The rate is undefined exactly while no packet has come after a gap and nothing is buffered; then the queue is empty and
      no frame is due.
     */
    lemma UndefinedExactly(deviation: real)
      requires Valid() && Deviates(deviation)
      ensures PlayRate(BufferedTime(), priorityQueue.gaps.average, deviation) == None
         <==> priorityQueue.gaps.variance == 0.0 && BufferedTime() == 0.0
      ensures BufferedTime() == 0.0 ==> priorityQueue.ownList == [] && !phaseVocoderMono.InputDue()
    {
      hide PlayRate, PhaseVocoderMono.OutputOk, PhaseVocoderMono.Shape, Agrees, Ascending, BufferedTime, Square;
      RateDefinedExactly(BufferedTime(), priorityQueue.gaps.average, deviation);
      SquareNotNegative(deviation);
      NothingBuffered();
    }

    lemma NothingBuffered()
      requires Valid()
      ensures BufferedTime() == 0.0 ==> priorityQueue.ownList == [] && !phaseVocoderMono.InputDue()
    {
      hide PhaseVocoderMono.OutputOk, PhaseVocoderMono.Shape, Agrees, Ascending;
      assert 0 <= phaseVocoderMono.inputBuffer.GetRemainedSampleLength();
      assert 0.0 <= Scaled(phaseVocoderMono.pitchRate, phaseVocoderMono.fftSize);
    }

    /** A new or stopped player has an undefined rate until its first packet comes. */
    lemma FreshIsUndefined(deviation: real)
      requires Valid() && Fresh() && Deviates(deviation)
      ensures PlayRate(BufferedTime(), priorityQueue.gaps.average, deviation) == None
    {
      hide PlayRate, PhaseVocoderMono.OutputOk, PhaseVocoderMono.Shape, PhaseVocoderMono.InputOk, Agrees, Ascending, BufferedTime;
      UndefinedExactly(deviation);
    }

    /**
      One callback: adjust the rate, fetch output; failing that take a packet, decode it and try again;
      failing that play silence. The fetches made form a session of the time-stretcher that renders with steps within
      a tenth of the base rate, and what is enqueued is exactly what the last of them handed out. While the rate is
      undefined nothing is rendered.
     */
    method BufferQueueCallback(deviation: real) returns (enqueued: seq<int>, ghost calls: seq<Fetch>)
      requires Valid() && Deviates(deviation)
      modifies phaseVocoderMono`playRate, phaseVocoderMono`output, phaseVocoderMono.Owned(), priorityQueue
      modifies byteBuffer, floatBuffer
      ensures Valid() && phaseVocoderMono.basePlayRate == old(phaseVocoderMono.basePlayRate)
      ensures Plays(calls, enqueued, old(phaseVocoderMono.Here()), phaseVocoderMono.Here(),
                    phaseVocoderMono.hopSize, phaseVocoderMono.basePlayRate)
      ensures old(PlayRate(BufferedTime(), priorityQueue.gaps.average, deviation)) == None ==> |calls| == 1 && calls[0].k == 0
      ensures var samples := Yield(old(priorityQueue.ownList), decode);
              if calls[0].got != []
              then |calls| == 1 && priorityQueue.Abs() == old(priorityQueue.Abs())
                   && phaseVocoderMono.inputBuffer.tape == old(phaseVocoderMono.inputBuffer.tape)
              else (|calls| == 2 <==> samples.Some?) && priorityQueue.Abs() == old(priorityQueue.Abs()).Poll()
                   && phaseVocoderMono.inputBuffer.tape
                      == old(phaseVocoderMono.inputBuffer.tape) + (if samples.Some? then samples.value else [])
    {
      hide PhaseVocoderMono.OutputOk, PhaseVocoderMono.Shape, PhaseVocoderMono.InputOk, Agrees, Fetch.Ok;
      hide PlayRate, StepsNear, NearBase, Bounded, Silence, Shorts, Plays, PhaseVocoderMono.Feed, PhaseVocoderMono.Here;
      hide PhaseVocoderMono.InputDue, BufferedTime;
      AdjustRate(deviation);
      var n: nat;
      ghost var call: Fetch;
      n, call := FetchOutput();
      if n > 0 {
        OnePlays(call, Shorts(floatBuffer[..n]), phaseVocoderMono.hopSize, phaseVocoderMono.basePlayRate);
        return Shorts(floatBuffer[..n]), [call];
      }
      enqueued, calls := Refill(call);
    }

    /** The rest of the callback, when the first fetch came back empty. */
    method Refill(ghost first: Fetch) returns (enqueued: seq<int>, ghost calls: seq<Fetch>)
      requires Valid() && RateUsable() && (RateOk() || priorityQueue.ownList == [])
      requires first.Ok() && first.got == [] && first.to == phaseVocoderMono.Here()
      requires StepsNear(first, phaseVocoderMono.hopSize, phaseVocoderMono.basePlayRate) && Bounded(first, FRAME, RING)
      modifies phaseVocoderMono`output, phaseVocoderMono.Owned(), priorityQueue, byteBuffer, floatBuffer
      ensures Valid()
      ensures Plays(calls, enqueued, first.from, phaseVocoderMono.Here(), phaseVocoderMono.hopSize, phaseVocoderMono.basePlayRate)
      ensures 1 <= |calls| <= 2 && calls[0] == first && priorityQueue.Abs() == old(priorityQueue.Abs()).Poll()
      ensures var samples := Yield(old(priorityQueue.ownList), decode);
              && (|calls| == 2 <==> samples.Some?)
              && phaseVocoderMono.inputBuffer.tape
                 == old(phaseVocoderMono.inputBuffer.tape) + (if samples.Some? then samples.value else [])
    {
      hide PhaseVocoderMono.OutputOk, PhaseVocoderMono.Shape, PhaseVocoderMono.InputOk, Agrees, Fetch.Ok;
      hide StepsNear, NearBase, Bounded, Silence, Shorts, Plays, PhaseVocoderMono.Feed, PhaseVocoderMono.Here;
      var decoded := NextSamples();
      if decoded.None? {
        OnePlays(first, Silence(), phaseVocoderMono.hopSize, phaseVocoderMono.basePlayRate);
        return Silence(), [first];
      }
      FeedSamples(decoded.value);
      var n: nat;
      ghost var second: Fetch;
      n, second := FetchOutput();
      calls := [first, second];
      enqueued := if n == 0 then Silence() else Shorts(floatBuffer[..n]);
      TwoPlay(first, second, enqueued, phaseVocoderMono.hopSize, phaseVocoderMono.basePlayRate);
    }

    /** Takes the first packet and decodes it; a packet that yields nothing or too much is dropped. */
    method NextSamples() returns (samples: Option<seq<real>>)
      requires Valid()
      modifies priorityQueue, byteBuffer
      ensures Valid() && phaseVocoderMono.Here() == old(phaseVocoderMono.Here()) && (old(RateOk()) ==> RateOk())
      ensures priorityQueue.Abs() == old(priorityQueue.Abs()).Poll()
      ensures samples == Yield(old(priorityQueue.ownList), decode)
    {
      var n := priorityQueue.Get(byteBuffer, 32768);
      if n == 0 {
        return None;
      }
      samples := decode(byteBuffer[..n]);
      if samples.None? || samples.value == [] || |samples.value| > 32768 {
        return None;
      }
    }

    /** Puts decoded samples into the time-stretcher. */
    method FeedSamples(samples: seq<real>)
      requires Valid() && RateOk() && 0 < |samples| <= 32768
      modifies phaseVocoderMono.inputBuffer, phaseVocoderMono.inputBuffer.buffer, floatBuffer
      ensures Valid() && RateOk() && phaseVocoderMono.Here() == old(phaseVocoderMono.Here())
      ensures phaseVocoderMono.Feed().s.step == old(phaseVocoderMono.Feed().s.step)
      ensures phaseVocoderMono.inputBuffer.tape == old(phaseVocoderMono.inputBuffer.tape) + samples
    {
      forall i | 0 <= i < |samples| {
        floatBuffer[i] := samples[i];
      }
      assert floatBuffer[..|samples|] == samples;
      var _ := phaseVocoderMono.Put(floatBuffer, |samples|);
    }

    lemma HopNotZero()
      requires Valid()
      ensures 0 < phaseVocoderMono.Here().output.hop
    {
      hide Output.Ok, Mixed;
    }

    /** One fetch of output. */
    method FetchOutput() returns (n: nat, ghost call: Fetch)
      requires Valid() && RateUsable()
      modifies phaseVocoderMono`output, phaseVocoderMono.Owned(), floatBuffer
      ensures Valid() && RateUsable() && (old(RateOk()) ==> RateOk()) && n <= SAMPLE_LENGTH
      ensures call.Ok() && call.from == old(phaseVocoderMono.Here()) && call.to == phaseVocoderMono.Here() && call.got == floatBuffer[..n]
      ensures StepsNear(call, phaseVocoderMono.hopSize, phaseVocoderMono.basePlayRate) && Bounded(call, FRAME, RING)
      ensures !old(phaseVocoderMono.InputDue()) ==> call.k == 0
      ensures phaseVocoderMono.inputBuffer.tape == old(phaseVocoderMono.inputBuffer.tape)
    {
      hide PhaseVocoderMono.OutputOk, Agrees, Mixed, NearBase, Scaled, Source.Fetches;
      ghost var from, k: nat, due := phaseVocoderMono.Here(), 0, phaseVocoderMono.InputDue();
      phaseVocoderMono.DueIsWants(SAMPLE_LENGTH);
      HopNotZero();
      n, k := phaseVocoderMono.Get(floatBuffer, SAMPLE_LENGTH);
      call := Fetch(phaseVocoderMono.Feed(), from, k, SAMPLE_LENGTH, floatBuffer[..n], phaseVocoderMono.Here());
      assert call.Ok();
      if !due {
        NothingRendered(call);
      }
    }

    /**
      Sets the play rate from the buffered time; every defined rate keeps steps within a tenth of the base rate, and an
      undefined one is set only when no frame is due.
     */
    method AdjustRate(deviation: real)
      requires Valid() && Deviates(deviation)
      modifies phaseVocoderMono`playRate
      ensures Valid() && RateUsable() && phaseVocoderMono.Here() == old(phaseVocoderMono.Here())
      ensures phaseVocoderMono.basePlayRate == old(phaseVocoderMono.basePlayRate)
      ensures var rate := PlayRate(old(BufferedTime()), priorityQueue.gaps.average, deviation);
              if rate.Some? then RateOk() && phaseVocoderMono.playRate == Clamped(phaseVocoderMono.basePlayRate, rate.value)
              else priorityQueue.ownList == [] && !phaseVocoderMono.InputDue()
      ensures deviation > 0.0 ==>
                OnLine(old(BufferedTime()), priorityQueue.gaps.average, deviation, phaseVocoderMono.basePlayRate, phaseVocoderMono.playRate)
    {
      hide PlayRate, PhaseVocoderMono.OutputOk, PhaseVocoderMono.Shape, Agrees, Clamped, NearBase, Scaled, BufferedTime, OnLine;
      var x, average := BufferedTime(), priorityQueue.gaps.average;
      UndefinedExactly(deviation);
      var rate := PlayRate(x, average, deviation);
      if deviation > 0.0 {
        BaseOnLine(x, average, deviation, phaseVocoderMono.basePlayRate);
      }
      if rate.None? {
        phaseVocoderMono.SetPlayRateUndefined();
      } else {
        RateBounds(x, average, deviation);
        StepWithin(phaseVocoderMono.basePlayRate, rate.value, phaseVocoderMono.hopSize);
        phaseVocoderMono.SetPlayRate(rate.value);
      }
    }

    function BufferedTime(): real
      reads this, priorityQueue, phaseVocoderMono, phaseVocoderMono.inputBuffer
    {
      priorityQueue.GetQueueCount() as real * TIME_PER_QUEUE
      + phaseVocoderMono.inputBuffer.GetRemainedSampleLength() as real * TIME_PER_SAMPLE
    }

    /** One more packet queued is 21533.203125 more, one more sample of input 22.675736961. */
    lemma BufferedTimeIs()
      requires Valid()
      ensures BufferedTime() == |priorityQueue.ownList| as real * 21533.203125
                                + (phaseVocoderMono.inputBuffer.writePosition - phaseVocoderMono.inputBuffer.readPosition.Floor) as real * 22.675736961
    {
      hide PhaseVocoderMono.OutputOk, PhaseVocoderMono.Shape, Agrees, Ascending;
    }

    /** The present play rate is within a tenth of the base rate, and steps are no longer than frames. */
    ghost predicate RateOk()
      reads phaseVocoderMono, phaseVocoderMono.Owned()
    {
      && 0.0 <= phaseVocoderMono.playRate && phaseVocoderMono.Feed().Steady()
      && NearBase(phaseVocoderMono.Feed().s.step, phaseVocoderMono.hopSize, phaseVocoderMono.basePlayRate)
    }

    /** It is, or no frame is due, so that it does not matter. */
    ghost predicate RateUsable()
      reads phaseVocoderMono, phaseVocoderMono.Owned()
    {
      RateOk() || (0.0 <= phaseVocoderMono.playRate && !phaseVocoderMono.InputDue())
    }
  }

  /** A fetch that finds no input for a frame renders none. */
  lemma NothingRendered(f: Fetch)
    requires f.Ok() && 0 < f.from.output.hop && !f.source.FrameLeft(f.from)
    ensures f.k == 0 && f.to.at == f.from.at
  {
    hide Fetch.Ok, Needed;
    CompleteExactly(f);
    OneFetch(f);
  }

  lemma FftSize8()
    ensures FftSize(8) == 256
  {
    assert FftSize(2) == 4;
    assert FftSize(4) == 16;
    assert FftSize(6) == 64;
  }

  lemma RateInRange(a: real, b: real)
    requires 0.0 < a < 128.0 * b
    ensures 0.0 < b && 0.0 <= a / b < 128.0
  {
    var q := a / b;
    assert q * b == a;
    Sign(q, b);
    Sign(128.0 - q, b);
  }
}
