/**
  client/jni/PhaseVocoderMono.{h,cpp}: the time-stretcher. Input samples go into one ring; `Get` renders
  frames from it at the play rate, overlap-adds them into a second ring and reads the output from there.
  The spectral processing of a frame is a parameter: any function of the two frames and the phases kept.
 */
module PhaseVocoder {
  import opened AudioTool
  import opened Tape
  import opened OverlapAdd
  import opened Ring

  /** `n` intervals at rate `rate`. */
  function Scaled(rate: real, n: nat): (r: real)
    ensures 0.0 <= rate ==> 0.0 <= r
  {
    rate * n as real
  }

  /** The position reached after `k` frames. */
  function Hops(k: nat, hop: nat): nat {
    k * hop
  }

  datatype Rendering = Rendering(frame: seq<real>, phase: seq<real>)
  type Manipulation = (seq<real>, seq<real>, seq<real>) -> Rendering

  ghost predicate KeepsLength(m: Manipulation, len: nat) {
    forall c: seq<real>, p: seq<real>, a: seq<real> :: |c| == |p| == |a| == len
                                                     ==> |m(c, p, a).frame| == |m(c, p, a).phase| == len
  }

  /** How frames are taken from the input store: `step` apart, each with a second one `back` behind it. */
  datatype Stride = Stride(step: real, back: real, interval: real, len: nat) {
    /** The stretch of input one frame covers. */
    function Span(): real { Scaled(interval, len) }
  }

  /** How far a rendering loop has come: input read position, accumulated phases, output side. */
  datatype Progress = Progress(at: real, phase: seq<real>, output: Output)

  /** What a rendering loop works on: none of it changes while the loop runs. */
  datatype Source = Source(m: Manipulation, store: seq<real>, write: int, s: Stride) {

    ghost predicate Ok() {
      0 < |store| && 0.0 <= s.step && 0.0 <= s.interval && 0.0 <= s.back < |store| as real
    }

    /** One round: a frame is rendered from the two reads, mixed in, and the read position moves one step. */
    ghost function Round(p: Progress): (q: Progress)
      requires Ok() && 0.0 <= p.at
      ensures 0.0 <= q.at
    {
      var r := m(RingRead(store, p.at, s.interval, s.len), RingRead(store, p.at - s.back, s.interval, s.len), p.phase);
      Progress(p.at + s.step, r.phase, p.output.(frames := p.output.frames + [r.frame]))
    }

    ghost function After(from: Progress, k: nat): (q: Progress)
      requires Ok() && 0.0 <= from.at
      ensures 0.0 <= q.at
    {
      if k == 0 then from else Round(After(from, k - 1))
    }

    /** The loop condition: more than a frame of input is left, and not enough output. */
    ghost predicate Wants(p: Progress, wanted: int) {
      FrameLeft(p) && p.output.Write() - |p.output.delivered| < wanted
    }

    /** A step is no longer than what one frame covers. */
    ghost predicate Steady() {
      s.step <= s.Span()
    }

    /** The loop makes at least `k` rounds. */
    ghost predicate Runs(from: Progress, k: nat, wanted: int)
      requires Ok() && 0.0 <= from.at
    {
      k == 0 || (Runs(from, k - 1, wanted) && Wants(After(from, k - 1), wanted))
    }

    /** What the rounds change: the read position moves steadily, one frame is added each, nothing is delivered. */
    lemma {:induction false} AfterParts(from: Progress, k: nat)
      requires Ok() && 0.0 <= from.at
      ensures var p := After(from, k);
              && p.at == ReadPoint(from.at, k, s.step)
              && p.output == from.output.(frames := p.output.frames)
              && |p.output.frames| == |from.output.frames| + k && from.output.frames <= p.output.frames
    {
      if k == 0 {
      } else {
        AfterParts(from, k - 1);
        NextPoint(from.at, k - 1, s.step);
      }
    }

    /** What is read at `at` for one frame: the current one, and the previous one. */
    ghost predicate Reads(at: real, c: seq<real>, p: seq<real>)
      requires Ok()
    {
      0.0 <= at && c == RingRead(store, at, s.interval, s.len) && p == RingRead(store, at - s.back, s.interval, s.len)
    }

    /** The frames of the rounds, one by one: what was read for them, and the phases handed from one to the next. */
    lemma {:induction false} Rounds(from: Progress, k: nat) returns (cs: seq<seq<real>>, ps: seq<seq<real>>, phases: seq<seq<real>>)
      requires Ok() && 0.0 <= from.at
      ensures |cs| == |ps| == k && |phases| == k + 1 && phases[0] == from.phase && phases[k] == After(from, k).phase
      ensures |After(from, k).output.frames| == |from.output.frames| + k && from.output.frames <= After(from, k).output.frames
      ensures forall j :: 0 <= j < k ==>
                && Rendering(After(from, k).output.frames[|from.output.frames| + j], phases[j + 1]) == m(cs[j], ps[j], phases[j])
                && Reads(ReadPoint(from.at, j, s.step), cs[j], ps[j])
    {
      if k == 0 {
        cs, ps, phases := [], [], [from.phase];
      } else {
        cs, ps, phases := Rounds(from, k - 1);
        var p := After(from, k - 1);
        AfterParts(from, k - 1);
        var c, q, r := OneRound(p);
        assert After(from, k) == Round(p);
        hide Reads, RingRead, ReadPoint, Source.Round, Source.After;
        var frames := p.output.frames;
        assert After(from, k).output.frames == frames + [r.frame];
        cs, ps, phases := cs + [c], ps + [q], phases + [r.phase];
      }
    }

    lemma OneRound(p: Progress) returns (c: seq<real>, q: seq<real>, r: Rendering)
      requires Ok() && 0.0 <= p.at
      ensures Reads(p.at, c, q) && r == m(c, q, p.phase)
      ensures Round(p).phase == r.phase && Round(p).output.frames == p.output.frames + [r.frame]
    {
      hide RingRead;
      c, q := RingRead(store, p.at, s.interval, s.len), RingRead(store, p.at - s.back, s.interval, s.len);
      r := m(c, q, p.phase);
    }

    /**
      A fetch of `wanted` samples: `k` frames are rendered, as long as the loop condition holds; then what
      is found up to the write position and one more is handed out, position after position.
     */
    ghost predicate Fetches(from: Progress, k: nat, wanted: int, got: seq<real>, to: Progress)
      requires Ok() && 0.0 <= from.at
    {
      Runs(from, k, wanted) && Ends(After(from, k), wanted, got, to)
    }

    ghost predicate Ends(p: Progress, wanted: int, got: seq<real>, to: Progress) {
      && !Wants(p, wanted)
      && |got| == ReadLength(p.output.Write() - |p.output.delivered|, wanted)
      && IsTapeAt(got, Mixed(p.output.frames, p.output.hop), |p.output.delivered|)
      && to == p.(output := p.output.After(got))
    }

    lemma Fetched(from: Progress, k: nat, p: Progress, wanted: int, got: seq<real>, to: Progress)
      requires Ok() && 0.0 <= from.at && Runs(from, k, wanted) && p == After(from, k) && Ends(p, wanted, got, to)
      ensures Fetches(from, k, wanted, got, to)
    {
    }

    /** What a fetch or a drain has rendered is what its rounds have. */
    lemma FetchedFrames(from: Progress, k: nat, wanted: int, got: seq<real>, to: Progress)
      requires Ok() && 0.0 <= from.at && (Fetches(from, k, wanted, got, to) || (Drains(from, k, got, to)))
      ensures to.output.frames == After(from, k).output.frames && to.phase == After(from, k).phase && to.at == After(from, k).at
    {
      hide Source.Round, Source.After, Source.Runs, Source.Wants, Source.LeftFor, Source.FrameLeft, IsTapeAt;
    }

    ghost predicate FrameLeft(p: Progress) {
      write - Trunc(p.at) > Ceil(s.Span())
    }

    /** A frame is left before each of the first `k` rounds. */
    ghost predicate LeftFor(from: Progress, k: nat)
      requires Ok() && 0.0 <= from.at
    {
      k == 0 || (LeftFor(from, k - 1) && FrameLeft(After(from, k - 1)))
    }

    /** The `k` rounds of a drain: a frame is left before each of them and none after the last. */
    ghost predicate DrainsIn(from: Progress, k: nat)
      requires Ok() && 0.0 <= from.at
    {
      LeftFor(from, k) && !FrameLeft(After(from, k))
    }

    /** A drain: frames are rendered exactly while one is left, then everything below the write position is handed out. */
    ghost predicate Drains(from: Progress, k: nat, got: seq<real>, to: Progress)
      requires Ok() && 0.0 <= from.at
    {
      DrainsIn(from, k) && EndsDrain(After(from, k), got, to)
    }

    ghost predicate EndsDrain(p: Progress, got: seq<real>, to: Progress) {
      && |got| == (if |p.output.delivered| < p.output.Write() then p.output.Write() - |p.output.delivered| else 0)
      && IsTapeAt(got, Mixed(p.output.frames, p.output.hop), |p.output.delivered|)
      && to == p.(output := p.output.(delivered := p.output.delivered + got))
    }

    lemma Drained(from: Progress, k: nat, p: Progress, got: seq<real>, to: Progress)
      requires Ok() && 0.0 <= from.at && DrainsIn(from, k) && p == After(from, k) && EndsDrain(p, got, to)
      ensures Drains(from, k, got, to)
    {
    }

    lemma NoRoundYet(from: Progress)
      requires Ok() && 0.0 <= from.at
      ensures LeftFor(from, 0) && After(from, 0) == from
    {
    }

    lemma DrainNext(from: Progress, k: nat)
      requires Ok() && 0.0 <= from.at && LeftFor(from, k)
      ensures FrameLeft(After(from, k)) ==> LeftFor(from, k + 1) && After(from, k + 1) == Round(After(from, k))
      ensures !FrameLeft(After(from, k)) ==> DrainsIn(from, k)
    {
    }

    /** From the `k`-th round on a drain ends; `limit` says after how many rounds at the latest. */
    lemma {:induction false} DrainEndsBy(from: Progress, k: nat, limit: nat) returns (end: nat)
      requires Ok() && 0.0 <= from.at && 0.0 < s.step && LeftFor(from, k)
      requires limit == DrainCount(write as real - from.at, s.step) && k <= limit
      ensures end <= limit && DrainsIn(from, end)
      decreases limit - k
    {
      hide Source.FrameLeft, Source.Round;
      DrainNext(from, k);
      if FrameLeft(After(from, k)) {
        DrainRound(from, k);
        end := DrainEndsBy(from, k + 1, limit);
      } else {
        end := k;
      }
    }

    lemma DrainEndsOnce(from: Progress, j: nat, k: nat)
      requires Ok() && 0.0 <= from.at && LeftFor(from, k) && DrainsIn(from, j)
      ensures k <= j
    {
      if k > j {
        hide Source.FrameLeft;
        LeftForEarlier(from, j + 1, k);
      }
    }

    lemma {:induction false} LeftForEarlier(from: Progress, j: nat, k: nat)
      requires Ok() && 0.0 <= from.at && LeftFor(from, k) && j <= k
      ensures LeftFor(from, j)
    {
      if j == k {
      } else {
        LeftForEarlier(from, j, k - 1);
      }
    }

    /**
      A drain ends for every positive step, however slow and however much input there is, after a number of
      rounds that is determined and at most the drain count of the input.
     */
    lemma DrainEnds(from: Progress)
      requires Ok() && 0.0 <= from.at && 0.0 < s.step
      ensures exists k: nat :: k <= DrainCount(write as real - from.at, s.step) && DrainsIn(from, k)
      ensures forall j: nat, k: nat :: DrainsIn(from, j) && DrainsIn(from, k) ==> j == k
    {
      hide Source.FrameLeft;
      var k := DrainEndsBy(from, 0, DrainCount(write as real - from.at, s.step));
      assert DrainsIn(from, k);
      forall i: nat, j: nat | DrainsIn(from, i) && DrainsIn(from, j)
        ensures i == j
      {
        DrainEndsOnce(from, i, j);
        DrainEndsOnce(from, j, i);
      }
    }

    /** While a frame is left, fewer rounds have been made than there are steps in the input. */
    lemma DrainRound(from: Progress, k: nat)
      requires Ok() && 0.0 <= from.at && 0.0 < s.step && FrameLeft(After(from, k))
      ensures k < DrainCount(write as real - from.at, s.step) && After(from, k + 1) == Round(After(from, k))
    {
      hide Source.Round;
      AfterParts(from, k);
      DrainStep(write as real - from.at, s.step, k);
    }

    lemma Next(from: Progress, k: nat, wanted: int)
      requires Ok() && 0.0 <= from.at && Runs(from, k, wanted) && Wants(After(from, k), wanted)
      ensures Runs(from, k + 1, wanted) && After(from, k + 1) == Round(After(from, k))
    {
    }
  }

  /**
    Whenever a frame is due, all its points lie below the write position by more than one interval, and
    a step of at most the frame span does not take the read position past the write position.
   */
  lemma FrameFits(write: int, at: real, interval: real, len: nat, step: real)
    requires 0.0 <= at && 0.0 <= interval && 0 < len
    requires write - Trunc(at) > Ceil(Scaled(interval, len))
    ensures forall i: nat :: i < len ==> ReadPoint(at, i, interval) < write as real - interval
    ensures step <= Scaled(interval, len) ==> at + step < write as real
  {
    assert at < (at.Floor + 1) as real <= write as real - Scaled(interval, len);
    forall i: nat | i < len
      ensures ReadPoint(at, i, interval) < write as real - interval
    {
      PointsLeft(interval, len, i);
    }
  }

  lemma PointsLeft(interval: real, len: nat, i: nat)
    requires 0.0 <= interval && i < len
    ensures i as real * interval <= Scaled(interval, len) - interval
  {
    var left := (len - 1 - i) as real;
    assert 0.0 <= left * interval;
    assert left * interval == Scaled(interval, len) - interval - i as real * interval;
  }

  lemma FullFrame(write: int, at: real, back: real, interval: real, len: nat)
    requires 0.0 <= at && 0.0 <= back && 0.0 <= interval && 0 < len
    requires write - Trunc(at) > Ceil(Scaled(interval, len))
    ensures AllUpTo(at - back, interval, len, write as real)
  {
    FrameFits(write, at, interval, len, 0.0);
    var start := at - back;
    forall i | 0 <= i < len
      ensures ReadPoint(start, i, interval) <= write as real
    {
      assert ReadPoint(start, i, interval) == ReadPoint(at, i, interval) - back;
    }
  }

  /**
    The state of the output side: the tape is the overlap-add of the frames rendered so far, `delivered`
    is what the reads have handed out, position by position, and everything handed out from below the
    write position is the final value of the tape there. A position in `provisional` was handed out
    when it was itself the write position, before all frames covering it had been added.
   */
  datatype Output = Output(frames: seq<seq<real>>, hop: nat, len: nat, delivered: seq<real>, provisional: set<int>)
  {
    function Write(): int { Hops(|frames|, hop) }

    ghost predicate Ok(n: nat) {
      && 0 < hop <= len < n
      && AllOfLength(frames, len)
      && |delivered| <= Write() + 1
      && |Mixed(frames, hop)| <= |delivered| + n
      && (forall p :: p in provisional ==> 0 <= p < |delivered| && p % hop == 0)
      && (forall p :: 0 <= p < |delivered| && p !in provisional ==> Settled(p))
    }

    ghost predicate Settled(p: int)
      requires 0 <= p < |delivered|
    {
      p < Write() && delivered[p] == OrZero(Mixed(frames, hop), p)
    }

    lemma EmptyOk(n: nat)
      requires frames == [] && delivered == [] && provisional == {} && 0 < hop <= len < n
      ensures Ok(n) && Mixed(frames, hop) == [] && Write() == 0
    {
    }

    /** One more frame, while `outputLeft` is small enough for it to fit beside what is not yet read. */
    lemma AddFrame(frame: seq<real>, n: nat)
      requires Ok(n) && |frame| == len && Write() + len <= |delivered| + n
      ensures this.(frames := frames + [frame]).Ok(n)
      ensures Mixed(frames + [frame], hop) == MixTape(Mixed(frames, hop), Write(), frame)
      ensures MixFits(Write(), |Mixed(frames, hop)|, len, n) && |Mixed(frames, hop)| <= Write() + len
      ensures Write() <= |Mixed(frames, hop)| && this.(frames := frames + [frame]).Write() == Write() + hop
    {
      var after := this.(frames := frames + [frame]);
      assert after.frames[..|frames|] == frames;
      MixedLength(frames, hop, len);
      if |frames| > 0 {
        assert Write() == (|frames| - 1) * hop + hop;
      }
      assert (|frames| + 1) * hop == Write() + hop;
      forall p | 0 <= p < |delivered| && p !in provisional
        ensures after.Settled(p)
      {
        assert Settled(p);
        MixedFinal(frames, [frame], hop, p);
      }
    }

    lemma Fitting(n: nat)
      requires Ok(n)
      ensures |delivered| <= Write() + 1 && |Mixed(frames, hop)| <= |delivered| + n
    {
    }

    lemma WriteOnTape()
      requires hop <= len && AllOfLength(frames, len)
      ensures Write() <= |Mixed(frames, hop)|
    {
      MixedLength(frames, hop, len);
      if |frames| > 0 {
        HopsNext(|frames| - 1, hop);
      }
    }

    /** One more read of `got` samples, which ends at or before the write position. */
    lemma Deliver(got: seq<real>, n: nat)
      requires Ok(n) && |delivered| + |got| <= Write() + 1
      requires IsTapeAt(got, Mixed(frames, hop), |delivered|)
      ensures After(got).Ok(n)
    {
      var after := After(got);
      WriteOnTape();
      if got != [] && |delivered| + |got| == Write() + 1 {
        DivModUnique(Write(), hop, |frames|, 0);
      }
      forall p | 0 <= p < |after.delivered| && p !in after.provisional
        ensures after.Settled(p)
      {
        if p < |delivered| {
          assert Settled(p);
        } else {
          assert after.delivered[p] == got[p - |delivered|];
        }
      }
    }

    function After(got: seq<real>): Output {
      this.(delivered := delivered + got,
            provisional := if got != [] && |delivered| + |got| == Write() + 1
            then provisional + {Write()} else provisional)
    }
  }

  class PhaseVocoderMono {
    const fftSize: nat
    const overlapRatio: nat
    const hopSize: nat
    const manipulate: Manipulation
    const inputBuffer: RingBuffer
    const outputBuffer: RingBuffer
    const currentRealBuffer: array<real>
    const previousRealBuffer: array<real>
    const phaseAcc: array<real>
    var pitchRate: real
    var basePlayRate: real
    var playRate: real
    ghost var output: Output

    /** The objects owned: no two are the same. */
    ghost predicate Separate()
      reads this
    {
      && inputBuffer != outputBuffer
      && inputBuffer.buffer != outputBuffer.buffer
      && currentRealBuffer != previousRealBuffer && currentRealBuffer != phaseAcc && previousRealBuffer != phaseAcc
      && {currentRealBuffer, previousRealBuffer, phaseAcc} !! {inputBuffer.buffer, outputBuffer.buffer}
    }

    ghost function Owned(): set<object>
      reads this
    {
      {inputBuffer, outputBuffer, inputBuffer.buffer, outputBuffer.buffer, currentRealBuffer, previousRealBuffer, phaseAcc}
    }

    ghost predicate Shape()
      reads this
    {
      && Separate()
      && 0 < overlapRatio <= fftSize && hopSize == fftSize / overlapRatio
      && phaseAcc.Length == fftSize
      && KeepsLength(manipulate, fftSize)
    }

    /** The input side: the whole input so far is the tape of the input ring. */
    ghost predicate InputOk()
      reads this, inputBuffer, inputBuffer.buffer
    {
      && 0 < hopSize <= fftSize && inputBuffer.buffer.Length == 128 * fftSize
      && currentRealBuffer.Length == previousRealBuffer.Length == fftSize
      && currentRealBuffer != previousRealBuffer
      && currentRealBuffer != inputBuffer.buffer && previousRealBuffer != inputBuffer.buffer
      && inputBuffer.Valid() && 0.0 <= inputBuffer.readPosition
      && inputBuffer.writePosition == |inputBuffer.tape|
      && 0.0 <= pitchRate < 128.0
    }

    /** The output side: the output ring holds the overlap-add of the frames, read up to what was delivered. */
    ghost predicate OutputOk()
      reads this, outputBuffer, outputBuffer.buffer
    {
      && outputBuffer.buffer.Length == 128 * fftSize
      && output.hop == hopSize && output.len == fftSize && output.Ok(128 * fftSize)
      && outputBuffer.Valid()
      && outputBuffer.tape == Mixed(output.frames, hopSize)
      && outputBuffer.writePosition == output.Write()
      && outputBuffer.readPosition == |output.delivered| as real
    }

    ghost predicate Valid()
      reads this, Owned()
    {
      Shape() && InputOk() && OutputOk()
    }

    ghost function Striding(): Stride
      reads this
    {
      Stride(Scaled(playRate, hopSize), Scaled(pitchRate, hopSize), pitchRate, fftSize)
    }

    constructor (fftLogSize: nat, overlapRatio: nat, manipulate: Manipulation)
      requires 1 <= fftLogSize <= 16
      requires 0 < overlapRatio <= FftSize(fftLogSize) && KeepsLength(manipulate, FftSize(fftLogSize))
      ensures Valid() && fresh(Owned())
      ensures fftSize == FftSize(fftLogSize) && this.overlapRatio == overlapRatio && this.manipulate == manipulate
      ensures pitchRate == basePlayRate == playRate == 1.0
      ensures inputBuffer.tape == [] && inputBuffer.readPosition == 0.0
      ensures output.frames == [] && output.delivered == [] && output.provisional == {}
      ensures forall i :: 0 <= i < fftSize ==> phaseAcc[i] == 0.0
    {
      hide Agrees, Mixed, Output.Ok, FftSize, KeepsLength, RingBuffer.Valid, PhaseVocoderMono.InputOk, PhaseVocoderMono.OutputOk;
      var size := FftSize(fftLogSize);
      this.fftSize, this.overlapRatio, this.hopSize := size, overlapRatio, size / overlapRatio;
      this.manipulate := manipulate;
      inputBuffer := new RingBuffer(size * 128);
      outputBuffer := new RingBuffer(size * 128);
      currentRealBuffer := new real[size];
      previousRealBuffer := new real[size];
      phaseAcc := new real[size](i => 0.0);
      pitchRate, basePlayRate, playRate := 1.0, 1.0, 1.0;
      output := Output([], size / overlapRatio, size, [], {});
      new;
      HopInRange(size, overlapRatio);
      NewInput();
      NewOutput();
    }

    lemma NewInput()
      requires 0 < hopSize <= fftSize && inputBuffer.buffer.Length == 128 * fftSize
      requires currentRealBuffer.Length == previousRealBuffer.Length == fftSize && Separate()
      requires inputBuffer.Valid() && inputBuffer.tape == [] && inputBuffer.writePosition == 0 && inputBuffer.readPosition == 0.0
      requires pitchRate == 1.0
      ensures InputOk()
    {
      hide RingBuffer.Valid;
    }

    lemma NewOutput()
      requires 0 < hopSize <= fftSize && outputBuffer.buffer.Length == 128 * fftSize && output == Output([], hopSize, fftSize, [], {})
      requires outputBuffer.Valid() && outputBuffer.tape == [] && outputBuffer.writePosition == 0 && outputBuffer.readPosition == 0.0
      ensures OutputOk()
    {
      hide RingBuffer.Valid, Output.Ok, Mixed;
      output.EmptyOk(128 * fftSize);
    }

    /** Appends samples to the input. */
    method Put(inBuffer: array<real>, sampleLength: nat) returns (n: int)
      requires Valid() && inBuffer !in Owned()
      requires sampleLength <= inBuffer.Length && sampleLength <= inputBuffer.buffer.Length
      modifies inputBuffer, inputBuffer.buffer
      ensures Valid() && n == sampleLength
      ensures inputBuffer.tape == old(inputBuffer.tape) + inBuffer[..sampleLength]
      ensures Here() == old(Here())
    {
      hide Agrees, Mixed, Output.Ok;
      var _ := inputBuffer.WriteMono(inBuffer, sampleLength, sampleLength, false);
      return sampleLength;
    }

    /** What the rendering loops work on. */
    ghost function Feed(): Source
      reads this, inputBuffer, inputBuffer.buffer
    {
      Source(manipulate, inputBuffer.buffer[..], inputBuffer.writePosition, Striding())
    }

    /** How far a loop has come. */
    ghost function Here(): Progress
      reads this, inputBuffer, phaseAcc
    {
      Progress(inputBuffer.readPosition, phaseAcc[..], output)
    }

    method SetPitchRate(rate: real)
      requires Valid() && 0.0 <= rate < 128.0
      modifies this`pitchRate
      ensures Valid() && pitchRate == rate && Here() == old(Here())
    {
      pitchRate := rate;
    }

    method SetBasePlayRate(rate: real)
      requires Valid()
      modifies this`basePlayRate, this`playRate
      ensures Valid() && basePlayRate == rate && playRate == rate && Here() == old(Here())
    {
      basePlayRate := rate;
      playRate := rate;
    }

    /**
      Play rates are relative to the base rate and at most doubled. When pitch and base rate agree and
      frames overlap fourfold, no setting makes a step longer than a frame.
     */
    method SetPlayRate(rate: real)
      requires Valid()
      modifies this`playRate
      ensures Valid() && Here() == old(Here())
      ensures playRate == Clamped(basePlayRate, rate)
      ensures playRate == if rate <= 2.0 then basePlayRate * rate else 2.0 * basePlayRate
      ensures 0.0 <= basePlayRate == pitchRate && overlapRatio >= 2 ==> Feed().Steady()
    {
      if rate > 2.0 {
        playRate := basePlayRate * 2.0;
      } else {
        playRate := basePlayRate * rate;
      }
      if 0.0 <= basePlayRate == pitchRate && overlapRatio >= 2 {
        ClampKeepsSteady(basePlayRate, rate, fftSize, overlapRatio);
      }
    }

    /** SetPlayRate of what is not a number: the rate is not one either. Whatever number stands for it here is not to be relied on. */
    method SetPlayRateUndefined()
      requires Valid()
      modifies this`playRate
      ensures Valid() && Here() == old(Here()) && 0.0 <= playRate
    {
      var anything: real := *;
      playRate := if anything < 0.0 then -anything else anything;
    }

    /** Forgets all audio; the rates stay. */
    method Reset()
      requires Valid()
      modifies this`output, inputBuffer, inputBuffer.buffer, outputBuffer, outputBuffer.buffer, phaseAcc
      ensures Valid()
      ensures inputBuffer.tape == [] && inputBuffer.readPosition == 0.0
      ensures output.frames == [] && output.delivered == [] && output.provisional == {}
      ensures forall i :: 0 <= i < fftSize ==> phaseAcc[i] == 0.0
    {
      inputBuffer.Reset();
      outputBuffer.Reset();
      for i := 0 to fftSize
        modifies phaseAcc
        invariant forall j :: 0 <= j < i ==> phaseAcc[j] == 0.0
      {
        phaseAcc[i] := 0.0;
      }
      output := output.(frames := [], delivered := [], provisional := {});
    }

    /**
      The draining variant: appends the input, renders as long as a frame of input is left, and hands out
      everything below the write position. It ends for every positive play rate.
     */
    method Process(inBuffer: array<real>, outBuffer: array<real>, sampleLength: nat) returns (n: nat, ghost k: nat)
      requires Valid() && inBuffer !in Owned() && outBuffer !in Owned() && 0.0 < playRate
      requires sampleLength <= inBuffer.Length && sampleLength <= inputBuffer.buffer.Length
      requires outBuffer.Length >= 128 * fftSize && RoomFor(sampleLength)
      modifies this`output, inputBuffer, inputBuffer.buffer, outputBuffer, outputBuffer.buffer
      modifies currentRealBuffer, previousRealBuffer, phaseAcc, outBuffer
      ensures Valid() && inputBuffer.tape == old(inputBuffer.tape + inBuffer[..sampleLength]) && n <= outBuffer.Length
      ensures Feed().Ok() && Feed().Drains(old(Here()), k, outBuffer[..n], Here()) && Renders(old(Here()), k, Here())
    {
      hide Agrees, Mixed, Output.Ok, KeepsLength, Source.Drains, Room, PhaseVocoderMono.Renders;
      var _ := inputBuffer.WriteMono(inBuffer, sampleLength, sampleLength, false);
      assert inputBuffer.tape == old(inputBuffer.tape + inBuffer[..sampleLength]);
      n, k := RenderAndDrain(outBuffer);
    }

    /** `Process` after its input has been appended. */
    method RenderAndDrain(outBuffer: array<real>) returns (n: nat, ghost k: nat)
      requires Valid() && outBuffer !in Owned() && 0.0 < playRate && outBuffer.Length >= 128 * fftSize && RoomFor(0)
      modifies this`output, inputBuffer`readPosition, outputBuffer, outputBuffer.buffer
      modifies currentRealBuffer, previousRealBuffer, phaseAcc, outBuffer
      ensures Valid() && Feed() == old(Feed()) && n <= outBuffer.Length
      ensures Feed().Ok() && Feed().Drains(old(Here()), k, outBuffer[..n], Here()) && Renders(old(Here()), k, Here())
    {
      hide Agrees, Mixed, Output.Ok, KeepsLength, Source.Drains, Source.DrainsIn, Source.After, PhaseVocoderMono.Renders;
      ghost var feed, from := Feed(), Here();
      k := RenderAll();
      ghost var p := Here();
      n := DrainOut(outBuffer);
      assert Feed() == feed;
      feed.Drained(from, k, p, outBuffer[..n], Here());
      feed.FetchedFrames(from, k, 0, outBuffer[..n], Here());
      RoundsRender(from, k, Here());
    }

    /** The loop of `Process`: each round takes a step of input, so there are fewer rounds than steps in it. */
    method RenderAll() returns (ghost k: nat)
      requires Valid() && 0.0 < playRate && RoomFor(0)
      modifies this`output, inputBuffer`readPosition, outputBuffer, outputBuffer.buffer
      modifies currentRealBuffer, previousRealBuffer, phaseAcc
      ensures Valid() && Feed() == old(Feed()) && Feed().Ok()
      ensures Feed().DrainsIn(old(Here()), k) && Here() == Feed().After(old(Here()), k)
      ensures outputBuffer.GetRemainedSampleLength() < 127 * fftSize
    {
      hide Source.Round, Source.LeftFor, Source.DrainsIn;
      ghost var feed, from, cap := Feed(), Here(), 127 * fftSize;
      ScaledPositive(playRate, hopSize);
      ghost var most := DrainCount(feed.write as real - from.at, feed.s.step);
      FeedOk();
      k := 0;
      feed.NoRoundYet(from);
      while InputDue()
        invariant Valid() && Feed() == feed
        invariant Here() == feed.After(from, k) && feed.LeftFor(from, k)
        invariant Room(outputBuffer.GetRemainedSampleLength(), most - k, hopSize, cap)
        decreases most - k
      {
        DueIsWants(cap);
        feed.DrainNext(from, k);
        feed.DrainRound(from, k);
        RoomNext(outputBuffer.GetRemainedSampleLength(), most - k, hopSize, cap);
        RenderFrame(cap);
        k := k + 1;
      }
      DueIsWants(cap);
      feed.DrainNext(from, k);
    }

    /** The output ring has room for all frames that a drain of the input can bring. */
    ghost predicate RoomFor(sampleLength: nat)
      requires Valid() && 0.0 < playRate
      reads this, Owned()
    {
      ScaledPositive(playRate, hopSize);
      var gap := (inputBuffer.writePosition + sampleLength) as real - inputBuffer.readPosition;
      Room(outputBuffer.GetRemainedSampleLength(), DrainCount(gap, Scaled(playRate, hopSize)), hopSize, 127 * fftSize)
    }

    /**
      Renders frames while input and demand last, then reads up to `sampleLength` samples. Exactly the `k`
      frames are rendered for which the loop condition holds; the samples delivered are the next tape
      positions, up to the write position and one more; and by `Valid` every sample ever delivered from
      below the write position is the final value of its position.
     */
    method Get(outBuffer: array<real>, sampleLength: nat) returns (n: nat, ghost k: nat)
      requires Valid() && outBuffer !in Owned() && 0.0 <= playRate
      requires 0 < sampleLength <= outBuffer.Length && sampleLength <= 127 * fftSize
      modifies this`output, inputBuffer`readPosition, outputBuffer, outputBuffer.buffer
      modifies currentRealBuffer, previousRealBuffer, phaseAcc, outBuffer
      ensures Valid() && Feed() == old(Feed()) && n <= sampleLength
      ensures Feed().Ok() && Feed().Fetches(old(Here()), k, sampleLength, outBuffer[..n], Here())
      ensures Renders(old(Here()), k, Here())
      ensures Feed().Steady() && old(Here()).at <= Feed().write as real ==> Here().at <= Feed().write as real
    {
      hide Agrees, Mixed, Output.Ok, KeepsLength, Source.Runs, Source.After, Source.Fetches, PhaseVocoderMono.Renders;
      ghost var feed, from := Feed(), Here();
      k := RenderDue(sampleLength);
      ghost var p := Here();
      n := ReadOut(outBuffer, sampleLength);
      assert Feed() == feed;
      feed.Fetched(from, k, p, sampleLength, outBuffer[..n], Here());
      feed.FetchedFrames(from, k, sampleLength, outBuffer[..n], Here());
      RoundsRender(from, k, Here());
    }

    /** The read that ends `Get`. */
    method ReadOut(outBuffer: array<real>, sampleLength: nat) returns (n: nat)
      requires OutputOk() && outBuffer != outputBuffer.buffer && 0 < sampleLength <= outBuffer.Length
      modifies this`output, outputBuffer`readPosition, outBuffer
      ensures OutputOk() && n <= sampleLength && output == old(output).After(outBuffer[..n])
      ensures n == ReadLength(old(output.Write()) - |old(output.delivered)|, sampleLength)
      ensures IsTapeAt(outBuffer[..n], outputBuffer.tape, |old(output.delivered)|)
    {
      ghost var d, store, tape := |output.delivered|, outputBuffer.buffer[..], outputBuffer.tape;
      n := outputBuffer.ReadMono(outBuffer, 0.0, sampleLength, 1.0, sampleLength as real);
      WholeCount(n, d, sampleLength, outputBuffer.writePosition);
      ShareWhole(n, sampleLength);
      WholeRead(store, tape, d, n);
      output.Deliver(outBuffer[..n], 128 * fftSize);
      output := output.After(outBuffer[..n]);
    }

    /** The read that ends `Process`. */
    method DrainOut(outBuffer: array<real>) returns (n: nat)
      requires OutputOk() && outBuffer != outputBuffer.buffer && outBuffer.Length >= 128 * fftSize
      requires output.Write() < |output.delivered| + 128 * fftSize
      modifies this`output, outputBuffer`readPosition, outBuffer
      ensures OutputOk() && n <= outBuffer.Length
      ensures output == old(output).(delivered := old(output.delivered) + outBuffer[..n])
      ensures n == if |old(output.delivered)| < old(output.Write()) then old(output.Write()) - |old(output.delivered)| else 0
      ensures IsTapeAt(outBuffer[..n], outputBuffer.tape, |old(output.delivered)|)
    {
      hide Agrees, Mixed, RingRead, Output.Ok;
      ghost var d, store, tape := |output.delivered|, outputBuffer.buffer[..], outputBuffer.tape;
      output.Fitting(128 * fftSize);
      DrainWhole(outputBuffer.writePosition - d);
      assert outputBuffer.writePosition as real - outputBuffer.readPosition == (outputBuffer.writePosition - d) as real;
      n := outputBuffer.ReadAsManyAsPossibleMono(outBuffer, 0.0, 1.0);
      WholePoint(d, n);
      WholeRead(store, tape, d, n);
      output.Deliver(outBuffer[..n], 128 * fftSize);
      output := output.(delivered := output.delivered + outBuffer[..n]);
    }

    /**
      The loop of `Get`: renders exactly the `k` frames for which its condition holds. A step of at most
      a frame span never takes the input read position past the write position.
     */
    method RenderDue(wanted: nat) returns (ghost k: nat)
      requires Valid() && 0.0 <= playRate && wanted <= 127 * fftSize
      modifies this`output, inputBuffer`readPosition, outputBuffer, outputBuffer.buffer
      modifies currentRealBuffer, previousRealBuffer, phaseAcc
      ensures Valid() && Feed() == old(Feed()) && Feed().Ok()
      ensures Here() == Feed().After(old(Here()), k)
      ensures Feed().Runs(old(Here()), k, wanted) && !Feed().Wants(Here(), wanted)
      ensures Feed().Steady() && old(Here()).at <= Feed().write as real ==> Here().at <= Feed().write as real
    {
      hide Agrees, Mixed, KeepsLength, Source.Round, Source.Wants;
      k := 0;
      ghost var feed, from := Feed(), Here();
      FeedOk();
      while FrameDue(wanted)
        invariant Valid() && Feed() == feed
        invariant Here() == feed.After(from, k) && feed.Runs(from, k, wanted)
        invariant feed.Steady() && from.at <= feed.write as real ==> Here().at <= feed.write as real
        decreases wanted - outputBuffer.GetRemainedSampleLength()
      {
        DueIsWants(wanted);
        feed.Next(from, k, wanted);
        RenderFrame(wanted);
        k := k + 1;
      }
      DueIsWants(wanted);
    }

    /** The loop condition: more than a frame of input is left, and not enough output. */
    predicate FrameDue(wanted: int)
      reads this, inputBuffer, outputBuffer
    {
      && inputBuffer.GetRemainedSampleLength() > Ceil(Scaled(pitchRate, fftSize))
      && outputBuffer.GetRemainedSampleLength() < wanted
    }

    predicate InputDue()
      reads this, inputBuffer
    {
      inputBuffer.GetRemainedSampleLength() > Ceil(Scaled(pitchRate, fftSize))
    }

    lemma DueIsWants(wanted: int)
      requires Valid()
      ensures FrameDue(wanted) <==> Feed().Wants(Here(), wanted)
      ensures InputDue() <==> Feed().FrameLeft(Here())
    {
    }

    lemma FeedOk()
      requires Valid() && 0.0 <= playRate
      ensures Feed().Ok() && 0.0 <= Here().at
    {
      BackInRange(hopSize, fftSize, pitchRate);
    }

    /** The body of the loops in `Get` and `Process`: one frame from the input ring into the output ring. */
    method RenderFrame(ghost wanted: nat)
      requires Valid() && 0.0 <= playRate && FrameDue(wanted) && wanted <= 127 * fftSize
      modifies this`output, inputBuffer`readPosition, outputBuffer, outputBuffer.buffer
      modifies currentRealBuffer, previousRealBuffer, phaseAcc
      ensures Valid()
      ensures Feed() == old(Feed()) && Feed().Ok() && Here() == Feed().Round(old(Here()))
      ensures outputBuffer.GetRemainedSampleLength() == old(outputBuffer.GetRemainedSampleLength()) + hopSize
      ensures Feed().Steady() ==> Here().at < Feed().write as real
    {
      hide RingRead, Agrees, Mixed, Output.Ok;
      var back, positionIncrement := Scaled(pitchRate, hopSize), Scaled(playRate, hopSize);
      BackInRange(hopSize, fftSize, pitchRate);
      FeedOk();
      FrameFits(inputBuffer.writePosition, inputBuffer.readPosition, pitchRate, fftSize, positionIncrement);
      FetchFrames(back, positionIncrement);
      DoManipulation();
      MixFrame();
    }

    /** A frame whose samples are the input tape from `start` on, the pitch rate apart, as far as it is in the ring. */
    ghost predicate FrameFromTape(start: real, frame: seq<real>)
      reads this, inputBuffer, inputBuffer.buffer
    {
      |frame| == fftSize && IsFromTape(inputBuffer.buffer[..], inputBuffer.tape, start, pitchRate, frame)
    }

    /**
      The frames that `k` rounds render, in numbers. The `j`-th is what the processing makes of two frames of input and the
      phases so far: the current one is read `j` steps of one hop at the play rate behind the start, its samples the
      pitch rate apart, the previous one one hop at the pitch rate before it. At equal rates the previous frame of a
      round is the current frame of the round before.
     */
    ghost predicate Rendered(from: Progress, k: nat, to: Progress, step: real, back: real,
                             cs: seq<seq<real>>, ps: seq<seq<real>>, phases: seq<seq<real>>)
      reads this, inputBuffer, inputBuffer.buffer
    {
      && step == playRate * hopSize as real && back == pitchRate * hopSize as real
      && |cs| == |ps| == k && |phases| == k + 1 && phases[0] == from.phase && phases[k] == to.phase
      && |to.output.frames| == |from.output.frames| + k && from.output.frames <= to.output.frames
      && (forall j :: 0 <= j < k ==>
            Rendering(to.output.frames[|from.output.frames| + j], phases[j + 1]) == manipulate(cs[j], ps[j], phases[j]))
      && (forall j :: 0 <= j < k ==>
            FrameFromTape(from.at + j as real * step, cs[j]) && FrameFromTape(from.at + j as real * step - back, ps[j]))
      && (playRate == pitchRate ==> forall j :: 0 < j < k ==> ps[j] == cs[j - 1])
    }

    ghost predicate Renders(from: Progress, k: nat, to: Progress)
      reads this, inputBuffer, inputBuffer.buffer
    {
      exists step, back, cs, ps, phases :: Rendered(from, k, to, step, back, cs, ps, phases)
    }

    lemma RoundsRender(from: Progress, k: nat, to: Progress)
      requires Valid() && 0.0 <= playRate && 0.0 <= from.at && Feed().Ok()
      requires to.output.frames == Feed().After(from, k).output.frames && to.phase == Feed().After(from, k).phase
      ensures Renders(from, k, to)
    {
      hide *;
      StridesAre();
      var step, back := Feed().s.step, Feed().s.back;
      var cs, ps, phases := Feed().Rounds(from, k);
      forall j | 0 <= j < k
        ensures FrameFromTape(from.at + j as real * step, cs[j]) && FrameFromTape(from.at + j as real * step - back, ps[j])
      {
        PointIs(from.at, j, step);
        RoundReads(from.at + j as real * step, cs[j], ps[j]);
      }
      if playRate == pitchRate {
        forall j | 0 < j < k
          ensures ps[j] == cs[j - 1]
        {
          PointBefore(from.at, j, step);
          SameFrame(ReadPoint(from.at, j - 1, step), cs[j - 1], ps[j - 1], cs[j], ps[j]);
        }
      }
      TheyRender(from, k, to, step, back, cs, ps, phases);
    }

    lemma TheyRender(from: Progress, k: nat, to: Progress, step: real, back: real,
                     cs: seq<seq<real>>, ps: seq<seq<real>>, phases: seq<seq<real>>)
      requires step == playRate * hopSize as real && back == pitchRate * hopSize as real
      requires |cs| == |ps| == k && |phases| == k + 1 && phases[0] == from.phase && phases[k] == to.phase
      requires |to.output.frames| == |from.output.frames| + k && from.output.frames <= to.output.frames
      requires forall j :: 0 <= j < k ==>
                 Rendering(to.output.frames[|from.output.frames| + j], phases[j + 1]) == manipulate(cs[j], ps[j], phases[j])
      requires forall j :: 0 <= j < k ==>
                 FrameFromTape(from.at + j as real * step, cs[j]) && FrameFromTape(from.at + j as real * step - back, ps[j])
      requires playRate == pitchRate ==> forall j :: 0 < j < k ==> ps[j] == cs[j - 1]
      ensures Renders(from, k, to)
    {
      hide PhaseVocoderMono.FrameFromTape;
      assert Rendered(from, k, to, step, back, cs, ps, phases);
    }

    lemma StridesAre()
      ensures Feed().s.step == playRate * hopSize as real && Feed().s.back == pitchRate * hopSize as real
      ensures Feed().s.interval == pitchRate && Feed().s.len == fftSize && Feed().store == inputBuffer.buffer[..] && Feed().m == manipulate
    {
    }

    lemma RoundReads(at: real, c: seq<real>, p: seq<real>)
      requires Valid() && Feed().Ok() && Feed().Reads(at, c, p)
      ensures FrameFromTape(at, c) && FrameFromTape(at - Feed().s.back, p)
    {
      hide Agrees, RingRead, PhaseVocoderMono.FrameFromTape, PhaseVocoderMono.OutputOk, Scaled;
      ReadFromTape(at, c);
      ReadFromTape(at - Feed().s.back, p);
    }

    lemma SameFrame(at: real, c: seq<real>, p: seq<real>, c': seq<real>, p': seq<real>)
      requires Valid() && Feed().Ok() && Feed().s.step == Feed().s.back
      requires Feed().Reads(at, c, p) && Feed().Reads(at + Feed().s.step, c', p')
      ensures p' == c
    {
      hide Agrees, RingRead, PhaseVocoderMono.OutputOk, Scaled;
      assert at + Feed().s.step - Feed().s.back == at;
    }

    lemma ReadFromTape(start: real, frame: seq<real>)
      requires Valid() && start > -(inputBuffer.buffer.Length as real)
      requires frame == RingRead(inputBuffer.buffer[..], start, pitchRate, fftSize)
      ensures FrameFromTape(start, frame)
    {
      hide Agrees, RingRead, IsFromTape, PhaseVocoderMono.OutputOk;
      ReadIsFromTape(inputBuffer.buffer[..], inputBuffer.tape, start, pitchRate, fftSize);
    }

    /** The overlap-add of the loop body. */
    method MixFrame()
      requires OutputOk() && currentRealBuffer.Length == fftSize && currentRealBuffer != outputBuffer.buffer
      requires output.Write() + fftSize <= |output.delivered| + outputBuffer.buffer.Length
      modifies this`output, outputBuffer, outputBuffer.buffer
      ensures OutputOk()
      ensures output == old(output).(frames := old(output.frames) + [currentRealBuffer[..]])
      ensures outputBuffer.writePosition == old(outputBuffer.writePosition) + hopSize
    {
      output.AddFrame(currentRealBuffer[..], outputBuffer.buffer.Length);
      assert currentRealBuffer[..fftSize] == currentRealBuffer[..];
      var _ := outputBuffer.WriteMono(currentRealBuffer, fftSize, hopSize, true);
      output := output.(frames := output.frames + [currentRealBuffer[..]]);
    }

    /** The two reads of the loop body: both fill the whole frame, and only the second moves the read position. */
    method FetchFrames(back: real, positionIncrement: real)
      requires InputOk() && 0.0 <= back < inputBuffer.buffer.Length as real && 0.0 <= positionIncrement
      requires inputBuffer.GetRemainedSampleLength() > Ceil(Scaled(pitchRate, fftSize))
      modifies inputBuffer`readPosition, currentRealBuffer, previousRealBuffer
      ensures InputOk()
      ensures currentRealBuffer[..] == RingRead(inputBuffer.buffer[..], old(inputBuffer.readPosition), pitchRate, fftSize)
      ensures previousRealBuffer[..] == RingRead(inputBuffer.buffer[..], old(inputBuffer.readPosition) - back, pitchRate, fftSize)
      ensures inputBuffer.readPosition == old(inputBuffer.readPosition) + positionIncrement
    {
      ghost var at, write := inputBuffer.readPosition, inputBuffer.writePosition;
      FullFrame(write, at, 0.0, pitchRate, fftSize);
      var n1 := inputBuffer.ReadMono(currentRealBuffer, 0.0, fftSize, pitchRate, 0.0);
      ReadCountFull(n1, at, pitchRate, fftSize, write);
      assert currentRealBuffer[..] == currentRealBuffer[..n1];
      FullFrame(write, at, back, pitchRate, fftSize);
      var n2 := inputBuffer.ReadMono(previousRealBuffer, -back, fftSize, pitchRate, positionIncrement);
      ReadCountFull(n2, at - back, pitchRate, fftSize, write);
      assert previousRealBuffer[..] == previousRealBuffer[..n2];
    }

    /** The spectral processing, in place on the current frame and the accumulated phases. */
    method DoManipulation()
      requires currentRealBuffer.Length == previousRealBuffer.Length == phaseAcc.Length == fftSize
      requires currentRealBuffer != phaseAcc && previousRealBuffer != currentRealBuffer && previousRealBuffer != phaseAcc
      requires KeepsLength(manipulate, fftSize)
      modifies currentRealBuffer, phaseAcc
      ensures Rendering(currentRealBuffer[..], phaseAcc[..])
           == manipulate(old(currentRealBuffer[..]), previousRealBuffer[..], old(phaseAcc[..]))
    {
      var r := manipulate(currentRealBuffer[..], previousRealBuffer[..], phaseAcc[..]);
      forall i | 0 <= i < fftSize {
        currentRealBuffer[i] := r.frame[i];
      }
      forall i | 0 <= i < fftSize {
        phaseAcc[i] := r.phase[i];
      }
      assert currentRealBuffer[..] == r.frame;
      assert phaseAcc[..] == r.phase;
      assert previousRealBuffer[..] == old(previousRealBuffer[..]);
    }
  }

  lemma PointIs(start: real, j: int, step: real)
    ensures ReadPoint(start, j, step) == start + j as real * step
  {
  }

  lemma PointBefore(start: real, j: int, step: real)
    ensures ReadPoint(start, j, step) == ReadPoint(start, j - 1, step) + step
  {
    assert j as real * step == (j - 1) as real * step + step;
  }

  /** Looking back one hop stays inside the store. */
  lemma BackInRange(hop: nat, len: nat, pitch: real)
    requires hop <= len && 0 < len && 0.0 <= pitch < 128.0
    ensures 0.0 <= Scaled(pitch, hop) < (128 * len) as real
  {
    MulLess(hop as real, len as real, pitch, 128.0);
  }

  lemma MulLess(h: real, l: real, p: real, q: real)
    requires 0.0 <= h <= l && 0.0 < l && 0.0 <= p < q
    ensures 0.0 <= h * p < q * l
  {
    assert h * p <= l * p;
    assert (q - p) * l > 0.0;
    assert (q - p) * l == q * l - l * p;
  }

  /** How many samples a read finds when `left` positions lie before the write position. */
  function ReadLength(left: int, wanted: int): int {
    if left + 1 < wanted then left + 1 else wanted
  }

  /** Reads at distance one from a whole position stay on whole positions. */
  lemma WholePoint(d: nat, j: nat)
    ensures ReadPoint(d as real, j, 1.0) == (d + j) as real
  {
  }

  lemma WholeCount(n: nat, d: nat, wanted: nat, write: int)
    requires IsReadCount(n, d as real + 0.0, 1.0, wanted, write) && d <= write + 1
    ensures n == ReadLength(write - d, wanted)
  {
    WholePoint(d, n);
    if n > 0 {
      WholePoint(d, n - 1);
      assert ReadPoint(d as real + 0.0, n - 1, 1.0) <= write as real;
    }
  }

  lemma ShareWhole(n: nat, len: nat)
    requires 0 < len
    ensures Share(len as real, n, len) == n as real
  {
    MulDiv(n as real, len as real);
  }

  /** `got` repeats the tape from position `d` on, as far as the tape goes. */
  ghost predicate IsTapeAt(got: seq<real>, tape: seq<real>, d: nat) {
    forall j :: 0 <= j < |got| && d + j < |tape| ==> got[j] == tape[d + j]
  }

  lemma WholeRead(store: seq<real>, tape: seq<real>, d: nat, n: nat)
    requires Agrees(store, tape) && |tape| <= d + |store|
    ensures IsTapeAt(RingRead(store, d as real + 0.0, 1.0, n), tape, d)
  {
    var got := RingRead(store, d as real + 0.0, 1.0, n);
    forall j | 0 <= j < |got| && d + j < |tape|
      ensures got[j] == tape[d + j]
    {
      WholePoint(d, j);
      RingSampleIsTape(store, tape, (d + j) as real);
    }
  }

  lemma DrainWhole(left: int)
    ensures DrainCount(left as real, 1.0) == if left > 0 then left else 0
  {
    if left > 0 {
      DrainStep(left as real, 1.0, left);
      DrainStep(left as real, 1.0, left - 1);
    }
  }

  lemma ScaledPositive(rate: real, n: nat)
    requires 0.0 < rate && 0 < n
    ensures 0.0 < Scaled(rate, n)
  {
  }

  /** The play rate set for `rate`. */
  function Clamped(base: real, rate: real): real {
    if rate > 2.0 then base * 2.0 else base * rate
  }

  lemma ClampKeepsSteady(base: real, rate: real, len: nat, ratio: nat)
    requires 2 <= ratio <= len && 0.0 <= base
    ensures Scaled(Clamped(base, rate), len / ratio) <= Scaled(base, len)
  {
    var hop := len / ratio;
    DivAtLeast(len, 2, hop);
    DivAtLeast(len, ratio, hop);
    MulMonotone(2, ratio, hop);
    assert 2 * hop <= len;
    ClampedAtMost(base, rate);
    ProductBound(Clamped(base, rate), base, hop as real, len as real);
  }

  lemma ClampedAtMost(base: real, rate: real)
    requires 0.0 <= base
    ensures Clamped(base, rate) <= base * 2.0
  {
    if rate <= 2.0 {
      assert 0.0 <= base * (2.0 - rate);
    }
  }

  lemma ProductBound(play: real, base: real, hop: real, len: real)
    requires 0.0 <= base && play <= base * 2.0 && 0.0 <= hop && 2.0 * hop <= len
    ensures play * hop <= base * len
  {
    assert play * hop <= base * 2.0 * hop;
    assert base * (2.0 * hop) <= base * len;
  }

  /** Beside `left` unread positions there is room, below `cap`, for `rounds` more frames. */
  ghost predicate Room(left: int, rounds: int, hop: nat, cap: int) {
    0 <= rounds && left + Hops(rounds, hop) < cap
  }

  lemma RoomNext(left: int, rounds: int, hop: nat, cap: int)
    requires Room(left, rounds, hop, cap) && 0 < rounds
    ensures Room(left + hop, rounds - 1, hop, cap) && left < cap
  {
    HopsNext(rounds - 1, hop);
  }

  lemma HopsNext(k: nat, hop: nat)
    ensures Hops(k + 1, hop) == Hops(k, hop) + hop
  {
  }

  function FftSize(log: nat): (size: nat)
    ensures size > 0
  {
    if log == 0 then 1 else 2 * FftSize(log - 1)
  }

  lemma HopInRange(size: nat, ratio: nat)
    requires 0 < ratio <= size
    ensures 0 < size / ratio <= size && size / ratio * ratio <= size
  {
    DivAtLeast(size, ratio, 1);
    DivAtLeast(size, ratio, size / ratio);
  }
}
