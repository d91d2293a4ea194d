/**
  client/jni/RingBuffer.h: a circular store of samples with plain and overlap-add writes and
  interpolating reads. The ghost field `tape` is the unbounded recording the store stands for.
 */
module Ring {
  import opened AudioTool
  import opened Tape

  /** AudioTool::getMonoSampleByFloatIndex2: linear interpolation between two neighbouring slots. */
  function SampleByFloatIndex(buf: seq<real>, index: real): real
    requires 0.0 <= index < |buf| as real
  {
    var prev := Trunc(index);
    var next := if prev + 1 >= |buf| then 0 else prev + 1;
    Lerp(buf[prev], buf[next], index - prev as real)
  }

  /** What a read at tape position `p` takes from the store. */
  function RingSample(buf: seq<real>, p: real): real
    requires |buf| > 0 && !NegativeMultiple(p, |buf|)
  {
    RingPositionExact(p, |buf|);
    SampleByFloatIndex(buf, RingPosition(p, |buf|))
  }

  /** The tape at a fractional position. */
  function TapeSample(tape: seq<real>, p: real): real
    requires OnTape(tape, p)
  {
    if Frac(p) == 0.0 then tape[p.Floor] else Lerp(tape[p.Floor], tape[p.Floor + 1], Frac(p))
  }

  predicate OnTape(tape: seq<real>, p: real) {
    0 <= p.Floor < |tape| && (Frac(p) == 0.0 || p.Floor + 1 < |tape|)
  }

  /** A read reaches the tape itself when the positions it interpolates are still in the store. */
  lemma RingSampleIsTape(buf: seq<real>, tape: seq<real>, p: real)
    requires Agrees(buf, tape) && OnTape(tape, p) && |tape| - |buf| <= p.Floor
    ensures RingSample(buf, p) == TapeSample(tape, p)
  {
    RingPositionExact(p, |buf|);
    assert buf[p.Floor % |buf|] == tape[p.Floor];
    if Frac(p) != 0.0 {
      ModShift(p.Floor, 1, |buf|);
      assert buf[(p.Floor + 1) % |buf|] == tape[p.Floor + 1];
    }
  }

  /** The position of the `i`-th sample of a read. */
  function ReadPoint(start: real, i: int, interval: real): real {
    start + i as real * interval
  }

  /** The share of an increment due for `i` of `len` samples. */
  function Share(increment: real, i: nat, len: nat): (share: real)
    requires len > 0
    ensures i == len ==> share == increment
    ensures i == 0 ==> share == 0.0
  {
    MulDiv(increment, len as real);
    increment * i as real / len as real
  }

  lemma MulDiv(a: real, m: real)
    requires m > 0.0
    ensures a * m / m == a && 0.0 / m == 0.0
  {
  }

  /** The samples of `store` at the first `len` read points. */
  function RingRead(store: seq<real>, start: real, interval: real, len: nat): (frame: seq<real>)
    requires 0 < |store| && interval >= 0.0 && start > -(|store| as real)
    ensures |frame| == len
  {
    seq(len, i requires 0 <= i < len =>
      NotNegativeMultiple(start, i, interval, |store|);
      RingSample(store, ReadPoint(start, i, interval)))
  }

  /** Each sample of a read is the tape at its point, if that is still in the store. */
  lemma ReadIsTape(store: seq<real>, tape: seq<real>, start: real, interval: real, len: nat, i: nat)
    requires 0 < |store| && interval >= 0.0 && start > -(|store| as real) && i < len && Agrees(store, tape)
    requires OnTape(tape, start + i as real * interval) && |tape| - |store| <= (start + i as real * interval).Floor
    ensures RingRead(store, start, interval, len)[i] == TapeSample(tape, start + i as real * interval)
  {
    hide Agrees, RingSample, OnTape, TapeSample;
    RingSampleIsTape(store, tape, start + i as real * interval);
  }

  /** A frame is the tape from `start` on, `interval` apart, wherever that is on the tape and still in the store. */
  ghost predicate IsFromTape(store: seq<real>, tape: seq<real>, start: real, interval: real, frame: seq<real>) {
    forall i :: 0 <= i < |frame| && OnTape(tape, start + i as real * interval) && |tape| - |store| <= (start + i as real * interval).Floor
             ==> frame[i] == TapeSample(tape, start + i as real * interval)
  }

  lemma ReadIsFromTape(store: seq<real>, tape: seq<real>, start: real, interval: real, len: nat)
    requires 0 < |store| && interval >= 0.0 && start > -(|store| as real) && Agrees(store, tape)
    ensures IsFromTape(store, tape, start, interval, RingRead(store, start, interval, len))
  {
    hide Agrees, RingRead, OnTape, TapeSample;
    var frame := RingRead(store, start, interval, len);
    forall i | 0 <= i < |frame| && OnTape(tape, start + i as real * interval) && |tape| - |store| <= (start + i as real * interval).Floor
      ensures frame[i] == TapeSample(tape, start + i as real * interval)
    {
      ReadIsTape(store, tape, start, interval, len, i);
    }
  }

  /** A tape whose samples lie on the line `c + d * i`. */
  ghost predicate Straight(tape: seq<real>, c: real, d: real) {
    forall i :: 0 <= i < |tape| ==> tape[i] == c + d * i as real
  }

  /** Interpolation: between two slots a read takes what lies on the straight line through their samples. */
  lemma SampleOnLine(buf: seq<real>, tape: seq<real>, p: real, c: real, d: real)
    requires Agrees(buf, tape) && OnTape(tape, p) && |tape| - |buf| <= p.Floor && Straight(tape, c, d)
    ensures RingSample(buf, p) == c + d * p
  {
    hide Agrees, RingSample;
    RingSampleIsTape(buf, tape, p);
    assert p == p.Floor as real + Frac(p);
    assert d * p == d * p.Floor as real + d * Frac(p);
  }

  /** And so does every sample of a read. */
  lemma ReadOnLine(store: seq<real>, tape: seq<real>, start: real, interval: real, len: nat, i: nat, c: real, d: real)
    requires 0 < |store| && interval >= 0.0 && start > -(|store| as real) && i < len
    requires Agrees(store, tape) && Straight(tape, c, d)
    requires OnTape(tape, start + i as real * interval) && |tape| - |store| <= (start + i as real * interval).Floor
    ensures RingRead(store, start, interval, len)[i] == c + d * (start + i as real * interval)
  {
    hide Agrees, RingSample, OnTape;
    SampleOnLine(store, tape, start + i as real * interval, c, d);
  }

  lemma RingReadStep(was: seq<real>, dest: seq<real>, store: seq<real>, start: real, interval: real, i: nat)
    requires 0 < |store| && interval >= 0.0 && start > -(|store| as real)
    requires i < |dest| == |was| && dest[..i] == was[..i] && was[..i] == RingRead(store, start, interval, i)
    requires !NegativeMultiple(ReadPoint(start, i, interval), |store|)
    requires dest[i] == RingSample(store, ReadPoint(start, i, interval))
    ensures dest[..i + 1] == RingRead(store, start, interval, i + 1)
  {
    assert dest[..i + 1] == dest[..i] + [dest[i]];
    assert RingRead(store, start, interval, i + 1)[..i] == RingRead(store, start, interval, i);
  }

  ghost predicate AllUpTo(start: real, interval: real, i: nat, bound: real) {
    forall j :: 0 <= j < i ==> ReadPoint(start, j, interval) <= bound
  }

  /** A read of up to `len` samples stops at the first point beyond the write position. */
  ghost predicate IsReadCount(i: nat, start: real, interval: real, len: nat, write: int) {
    && i <= len && AllUpTo(start, interval, i, write as real)
    && (i < len ==> ReadPoint(start, i, interval) > write as real)
  }

  lemma ReadCountFull(i: nat, start: real, interval: real, len: nat, write: int)
    requires IsReadCount(i, start, interval, len, write) && AllUpTo(start, interval, len, write as real)
    ensures i == len
  {
    assert i < len ==> ReadPoint(start, i, interval) <= write as real;
  }

  class RingBuffer {
    const buffer: array<real>
    var writePosition: int
    var writeUpperPosition: int
    var readPosition: real
    ghost var tape: seq<real>

    /** After a reset: everything is cleared but the upper position, which keeps its old value. */
    ghost predicate Silent()
      reads this, buffer
    {
      writePosition == 0 && tape == [] && forall s :: 0 <= s < buffer.Length ==> buffer[s] == 0.0
    }

    ghost predicate Valid()
      reads this, buffer
    {
      && Agrees(buffer[..], tape)
      && 0 <= writePosition <= |tape|
      && 0 <= writeUpperPosition
      && (writeUpperPosition == |tape| || Silent())
    }

    /** `malloc`: the samples are not initialised. */
    constructor (bufferSampleLength: nat)
      requires bufferSampleLength > 0
      ensures Valid() && fresh(buffer) && buffer.Length == bufferSampleLength
      ensures tape == [] && writePosition == 0 && writeUpperPosition == 0 && readPosition == 0.0
    {
      buffer := new real[bufferSampleLength];
      writePosition, writeUpperPosition, readPosition, tape := 0, 0, 0.0, [];
    }

    /**
      Writes at the write position and moves it by `positionIncrement`. The frame may not be longer
      than the store, may not end before what is already written, and (overlap-add) may not bring as
      many new positions as the store has slots: `Tape.MixRefinesExactly` shows that last condition exact.
     */
    method WriteMono(source: array<real>, sampleLength: nat, positionIncrement: nat, mixWrite: bool)
      returns (position: int)
      requires Valid() && source != buffer
      requires sampleLength <= source.Length && sampleLength <= buffer.Length
      requires positionIncrement <= sampleLength
      requires |tape| <= writePosition + sampleLength
      requires mixWrite && !Silent() ==> MixFits(writePosition, |tape|, sampleLength, buffer.Length)
      modifies this, buffer
      ensures Valid() && readPosition == old(readPosition)
      ensures tape == if mixWrite then MixTape(old(tape), old(writePosition), source[..sampleLength])
                      else PlainTape(old(tape), old(writePosition), source[..sampleLength])
      ensures position == writePosition == old(writePosition) + positionIncrement
      ensures writeUpperPosition == |tape| == old(writePosition) + sampleLength
    {
      ghost var before, frame := buffer[..], source[..sampleLength];
      ghost var silent := Silent();
      if mixWrite {
        MixInto(source, sampleLength);
        if silent {
          MixStepAfterReset(before, writeUpperPosition, frame);
        } else {
          MixStep(before, tape, writePosition, frame);
        }
        tape := MixTape(tape, writePosition, frame);
      } else {
        CopyInto(source, sampleLength);
        PlainStep(before, tape, writePosition, frame);
        tape := PlainTape(tape, writePosition, frame);
      }
      writeUpperPosition := writePosition + sampleLength;
      writePosition := writePosition + positionIncrement;
      return writePosition;
    }

    /** The overlap-add branch: clear the slots of new positions, then add in up to two runs. */
    method MixInto(source: array<real>, sampleLength: nat)
      requires 0 < buffer.Length && source != buffer && 0 <= writePosition && 0 <= writeUpperPosition
      requires sampleLength <= source.Length && sampleLength <= buffer.Length
      modifies buffer
      ensures buffer[..] == MixStore(old(buffer[..]), writePosition, writeUpperPosition, source[..sampleLength])
    {
      var modedWritePosition := writePosition % buffer.Length;
      var copySamples := BeforeEnd(modedWritePosition, sampleLength, buffer.Length);
      var zeroLower := writeUpperPosition % buffer.Length;
      var zeroUpper := (writePosition + sampleLength) % buffer.Length;
      ClearArc(zeroLower, zeroUpper);
      AddRuns(source, sampleLength, modedWritePosition, copySamples);
    }

    /** The two accumulation loops. */
    method AddRuns(source: array<real>, sampleLength: nat, modedWritePosition: nat, copySamples: nat)
      requires source != buffer && modedWritePosition < buffer.Length
      requires sampleLength <= source.Length && sampleLength <= buffer.Length
      requires copySamples == BeforeEnd(modedWritePosition, sampleLength, buffer.Length)
      modifies buffer
      ensures forall s :: 0 <= s < buffer.Length ==>
                            buffer[s] == old(buffer[s]) + Incoming(s, modedWritePosition, source[..sampleLength], buffer.Length)
    {
      AddFrom(source, modedWritePosition, copySamples, 0);
      AddFrom(source, 0, sampleLength - copySamples, copySamples);
    }

    method ClearArc(zeroLower: int, zeroUpper: int)
      requires 0 <= zeroLower < buffer.Length && 0 <= zeroUpper < buffer.Length
      modifies buffer
      ensures forall s :: 0 <= s < buffer.Length ==>
                            buffer[s] == if InArc(s, zeroLower, zeroUpper) then 0.0 else old(buffer[s])
    {
      if zeroUpper < zeroLower {
        ZeroFill(zeroLower, buffer.Length);
        ZeroFill(0, zeroUpper);
      } else {
        ZeroFill(zeroLower, zeroUpper);
      }
    }

    /** The plain branch: copy in up to two runs. */
    method CopyInto(source: array<real>, sampleLength: nat)
      requires 0 < buffer.Length && source != buffer && 0 <= writePosition
      requires sampleLength <= source.Length && sampleLength <= buffer.Length
      modifies buffer
      ensures buffer[..] == PlainStore(old(buffer[..]), writePosition, source[..sampleLength])
    {
      var modedWritePosition := writePosition % buffer.Length;
      var copySamples := BeforeEnd(modedWritePosition, sampleLength, buffer.Length);
      CopyFrom(source, modedWritePosition, copySamples, 0);
      CopyFrom(source, 0, sampleLength - copySamples, copySamples);
    }

    /** `memset` of a run of slots. */
    method ZeroFill(from: int, to: int)
      requires 0 <= from <= to <= buffer.Length
      modifies buffer
      ensures forall s :: 0 <= s < buffer.Length ==>
                            buffer[s] == if from <= s < to then 0.0 else old(buffer[s])
    {
      forall s | from <= s < to {
        buffer[s] := 0.0;
      }
    }

    /** `memcpy` of `count` samples from `source[offset..]` to slot `at`. */
    method CopyFrom(source: array<real>, at: int, count: int, offset: int)
      requires source != buffer && 0 <= count && 0 <= at && at + count <= buffer.Length
      requires 0 <= offset && offset + count <= source.Length
      modifies buffer
      ensures forall s :: 0 <= s < buffer.Length ==>
                            buffer[s] == if at <= s < at + count then source[offset + (s - at)] else old(buffer[s])
    {
      forall s | at <= s < at + count {
        buffer[s] := source[offset + (s - at)];
      }
    }

    /** The accumulation loop of an overlap-add. */
    method AddFrom(source: array<real>, at: int, count: int, offset: int)
      requires source != buffer && 0 <= count && 0 <= at && at + count <= buffer.Length
      requires 0 <= offset && offset + count <= source.Length
      modifies buffer
      ensures forall s :: 0 <= s < buffer.Length ==>
                            buffer[s] == old(buffer[s]) + if at <= s < at + count then source[offset + (s - at)] else 0.0
    {
      for i := 0 to count
        invariant forall s :: 0 <= s < buffer.Length ==>
                                buffer[s] == old(buffer[s]) + if at <= s < at + i then source[offset + (s - at)] else 0.0
      {
        buffer[at + i] := buffer[at + i] + source[offset + i];
      }
    }

    /**
      Reads `sampleLength` samples at distance `readInterval` from `readPosition + readOffset` on, stopping
      at the first point beyond the write position, and moves the read position by the share of
      `positionIncrement` that was read.
     */
    method ReadMono(dest: array<real>, readOffset: real, sampleLength: nat, readInterval: real, positionIncrement: real)
      returns (i: nat)
      requires Valid() && dest != buffer && 0 < sampleLength <= dest.Length
      requires readInterval >= 0.0 && readPosition + readOffset > -(buffer.Length as real)
      modifies this`readPosition, dest
      ensures i <= sampleLength
      ensures IsReadCount(i, old(readPosition) + readOffset, readInterval, sampleLength, writePosition)
      ensures dest[..i] == RingRead(buffer[..], old(readPosition) + readOffset, readInterval, i)
      ensures IsFromTape(buffer[..], tape, old(readPosition) + readOffset, readInterval, dest[..i])
      ensures dest[i..] == old(dest[i..])
      ensures readPosition == old(readPosition) + Share(positionIncrement, i, sampleLength)
    {
      assert 0 < buffer.Length;
      hide Agrees, RingSample, RingRead, ReadPoint, Share, IsFromTape;
      i := 0;
      ghost var store, start := buffer[..], readPosition + readOffset;
      assert dest[..0] == RingRead(store, start, readInterval, 0);
      while i < sampleLength
        invariant i <= sampleLength && readPosition == old(readPosition)
        invariant AllUpTo(start, readInterval, i, writePosition as real)
        invariant dest[..i] == RingRead(store, start, readInterval, i) && dest[i..] == old(dest[..])[i..]
        invariant buffer[..] == store
      {
        var p := ReadPoint(readPosition + readOffset, i, readInterval);
        if p > writePosition as real {
          break;
        }
        NotNegativeMultiple(start, i, readInterval, buffer.Length);
        ghost var was := dest[..];
        dest[i] := RingSample(buffer[..], p);
        RingReadStep(was, dest[..], store, start, readInterval, i);
        i := i + 1;
      }
      ReadIsFromTape(store, tape, start, readInterval, i);
      readPosition := readPosition + Share(positionIncrement, i, sampleLength);
    }

    /** Reads at distance `readInterval` until the write position is reached; `dest` must have room. */
    method ReadAsManyAsPossibleMono(dest: array<real>, readOffset: real, readInterval: real) returns (i: nat)
      requires Valid() && dest != buffer
      requires readInterval > 0.0 && readPosition + readOffset > -(buffer.Length as real)
      requires DrainCount(writePosition as real - readPosition, readInterval) <= dest.Length
      modifies this`readPosition, dest
      ensures i == DrainCount(old(writePosition as real - readPosition), readInterval)
      ensures readPosition == ReadPoint(old(readPosition), i, readInterval)
      ensures dest[..i] == RingRead(buffer[..], old(readPosition) + readOffset, readInterval, i)
      ensures dest[i..] == old(dest[i..])
    {
      assert 0 < buffer.Length;
      hide Agrees, RingSample, DrainCount, RingRead, ReadPoint;
      var readSamples := 0.0;
      i := 0;
      ghost var store, at, start := buffer[..], readPosition, readPosition + readOffset;
      ghost var most := DrainCount(writePosition as real - at, readInterval);
      FirstPoint(at, readInterval);
      assert dest[..0] == RingRead(store, start, readInterval, 0);
      while readPosition + readSamples < writePosition as real
        invariant readPosition == at && at + readSamples == ReadPoint(at, i, readInterval)
        invariant i <= most && buffer[..] == store
        invariant dest[..i] == RingRead(store, start, readInterval, i) && dest[i..] == old(dest[..])[i..]
        decreases most - i
      {
        DrainStepAt(writePosition, at, readInterval, i);
        var p := ReadPoint(readPosition + readOffset, i, readInterval);
        NotNegativeMultiple(start, i, readInterval, buffer.Length);
        ghost var was := dest[..];
        dest[i] := RingSample(buffer[..], p);
        RingReadStep(was, dest[..], store, start, readInterval, i);
        NextPoint(at, i, readInterval);
        readSamples := readSamples + readInterval;
        i := i + 1;
      }
      DrainStepAt(writePosition, at, readInterval, i);
      readPosition := readPosition + readSamples;
    }

    /** How many samples lie between the (truncated) read position and the write position. */
    function GetRemainedSampleLength(): int
      reads this
    {
      writePosition - Trunc(readPosition)
    }

    /** Clears the store and both cursors, but not the upper position. */
    method Reset()
      requires Valid()
      modifies this`writePosition, this`readPosition, this`tape, buffer
      ensures Valid() && Silent() && readPosition == 0.0
    {
      writePosition := 0;
      readPosition := 0.0;
      ZeroFill(0, buffer.Length);
      tape := [];
    }
  }

  /** The number of points `0, interval, 2*interval, ...` below `gap`. */
  function DrainCount(gap: real, interval: real): nat
    requires interval > 0.0
  {
    if gap <= 0.0 then 0 else DivPositive(gap, interval); Ceil(gap / interval)
  }

  lemma DivPositive(a: real, b: real)
    requires a > 0.0 && b > 0.0
    ensures a / b > 0.0
  {
  }

  lemma DrainStep(gap: real, interval: real, i: nat)
    requires interval > 0.0
    ensures i < DrainCount(gap, interval) <==> i as real * interval < gap
  {
    var q := gap / interval;
    DivTimes(gap, interval);
    MulOrder(i as real, q, interval);
    if gap > 0.0 {
      DivPositive(gap, interval);
    } else {
      MulOrder(i as real, 0.0, interval);
    }
  }

  lemma MulOrder(a: real, b: real, m: real)
    requires m > 0.0
    ensures a < b <==> a * m < b * m
  {
    if a < b {
      assert (b - a) * m > 0.0;
    } else {
      assert (a - b) * m >= 0.0;
    }
  }

  lemma DrainStepAt(write: int, at: real, interval: real, i: nat)
    requires interval > 0.0
    ensures i < DrainCount(write as real - at, interval) <==> ReadPoint(at, i, interval) < write as real
  {
    DrainStep(write as real - at, interval, i);
  }

  lemma FirstPoint(start: real, interval: real)
    ensures ReadPoint(start, 0, interval) == start
  {
  }

  lemma NextPoint(start: real, k: nat, step: real)
    ensures ReadPoint(start, k + 1, step) == ReadPoint(start, k, step) + step
  {
  }

  /** A drain takes exactly the points below the write position and ends less than one interval past it. */
  lemma DrainExact(gap: real, interval: real)
    requires interval > 0.0
    ensures var k := DrainCount(gap, interval);
            && (forall i: nat :: i < k <==> ReadPoint(0.0, i, interval) < gap)
            && (k > 0 ==> gap <= ReadPoint(0.0, k, interval) < gap + interval)
  {
    var k := DrainCount(gap, interval);
    forall i: nat
      ensures i < k <==> ReadPoint(0.0, i, interval) < gap
    {
      DrainStep(gap, interval, i);
    }
    if k > 0 {
      DrainStep(gap, interval, k - 1);
      assert (k - 1) as real * interval == k as real * interval - interval;
    }
  }

  lemma NotNegativeMultiple(start: real, i: nat, interval: real, n: nat)
    requires 0 < n && start > -(n as real) && interval >= 0.0
    ensures !NegativeMultiple(ReadPoint(start, i, interval), n)
  {
    var p := ReadPoint(start, i, interval);
    if p < 0.0 && p == p.Floor as real {
      assert start <= p;
      DivModUnique(p.Floor, n, -1, p.Floor + n);
    }
  }
}
