/**
  Phase wrapping and unwrapping (client/jni/AudioTool.h and AudioTool.cpp), over exact reals.
 */
module PhaseUnwrap {
  const M_PI: real := 3.14159265358979323846

  function Turns(k: int): real {
    k as real * (2.0 * M_PI)
  }

  /** The two phases differ by whole turns. */
  ghost predicate Congruent(a: real, b: real) {
    exists k: int :: a - b == Turns(k)
  }

  predicate HalfTurn(d: real) {
    -M_PI <= d < M_PI
  }

  function WrapPhase(phase: real): (w: real)
    ensures HalfTurn(w) && Congruent(w, phase)
  {
    var k := ((phase + M_PI) / (2.0 * M_PI)).Floor;
    assert phase - k as real * 2.0 * M_PI - phase == Turns(-k);
    phase - k as real * 2.0 * M_PI
  }

  /** Two phases in the same half-open turn that differ by whole turns are equal. */
  lemma HalfTurnUnique(a: real, b: real)
    requires HalfTurn(a) && HalfTurn(b) && Congruent(a, b)
    ensures a == b
  {
  }

  lemma CongruentSum(a: real, b: real, c: real, d: real)
    requires Congruent(a, b) && Congruent(c, d)
    ensures Congruent(a + c, b + d) && Congruent(a - c, b - d)
  {
    var j: int :| a - b == Turns(j);
    var k: int :| c - d == Turns(k);
    assert (a + c) - (b + d) == Turns(j + k);
    assert (a - c) - (b - d) == Turns(j - k);
  }

  lemma CongruentSym(a: real, b: real)
    requires Congruent(a, b)
    ensures Congruent(b, a)
  {
    var k: int :| a - b == Turns(k);
    assert b - a == Turns(-k);
  }

  lemma CongruentTrans(a: real, b: real, c: real)
    requires Congruent(a, b) && Congruent(b, c)
    ensures Congruent(a, c)
  {
    var j: int :| a - b == Turns(j);
    var k: int :| b - c == Turns(k);
    assert a - c == Turns(j + k);
  }

  lemma CongruentRefl(a: real)
    ensures Congruent(a, a)
  {
    assert a - a == Turns(0);
  }

  /** `t` is `s` with whole turns added so that no step is more than half a turn. */
  ghost predicate IsUnwrapping(s: seq<real>, t: seq<real>) {
    && |t| == |s| && (s != [] ==> t[0] == s[0])
    && (forall i :: 0 <= i < |s| ==> Congruent(t[i], s[i]))
    && (forall i :: 1 <= i < |t| ==> HalfTurn(t[i] - t[i - 1]))
  }

  method UnwrapPhase(phaseArray: array<real>, length: nat)
    requires 0 < length <= phaseArray.Length
    modifies phaseArray
    ensures IsUnwrapping(old(phaseArray[..length]), phaseArray[..length])
    ensures phaseArray[length..] == old(phaseArray[length..])
  {
    hide Congruent, HalfTurn, WrapPhase;
    ghost var s := phaseArray[..length];
    var savedPhase := phaseArray[0];
    CongruentRefl(savedPhase);
    for i := 1 to length
      invariant savedPhase == s[i - 1]
      invariant forall j :: i <= j < phaseArray.Length ==> phaseArray[j] == old(phaseArray[j])
      invariant phaseArray[0] == s[0]
      invariant forall j :: 0 <= j < i ==> Congruent(phaseArray[j], s[j])
      invariant forall j :: 1 <= j < i ==> HalfTurn(phaseArray[j] - phaseArray[j - 1])
    {
      var wrappedDeltaPhase := WrapPhase(phaseArray[i] - savedPhase);
      CongruentSum(phaseArray[i - 1], s[i - 1], wrappedDeltaPhase, s[i] - s[i - 1]);
      savedPhase := phaseArray[i];
      phaseArray[i] := phaseArray[i - 1] + wrappedDeltaPhase;
    }
  }

  /**
    Unwrapping sees phases only up to whole turns: of two inputs that agree up to whole turns, the outputs
    differ by one constant.
   */
  lemma {:induction false} UnwrappingUpToTurns(s: seq<real>, t: seq<real>, s': seq<real>, t': seq<real>, i: nat)
    requires IsUnwrapping(s, t) && IsUnwrapping(s', t') && |s| == |s'|
    requires forall j :: 0 <= j < |s| ==> Congruent(s[j], s'[j])
    requires i < |s|
    ensures t[i] - t'[i] == s[0] - s'[0]
  {
    hide Congruent, HalfTurn;
    if i == 0 {
    } else {
      UnwrappingUpToTurns(s, t, s', t', i - 1);
      StepCongruent(s, t, i);
      StepCongruent(s', t', i);
      CongruentSum(s[i], s'[i], s[i - 1], s'[i - 1]);
      CongruentSym(t'[i] - t'[i - 1], s'[i] - s'[i - 1]);
      CongruentTrans(t[i] - t[i - 1], s[i] - s[i - 1], s'[i] - s'[i - 1]);
      CongruentTrans(t[i] - t[i - 1], s'[i] - s'[i - 1], t'[i] - t'[i - 1]);
      HalfTurnUnique(t[i] - t[i - 1], t'[i] - t'[i - 1]);
    }
  }

  lemma StepCongruent(s: seq<real>, t: seq<real>, i: nat)
    requires IsUnwrapping(s, t) && 0 < i < |s|
    ensures Congruent(t[i] - t[i - 1], s[i] - s[i - 1])
  {
    CongruentSum(t[i], s[i], t[i - 1], s[i - 1]);
  }

  /** The result is determined by the input: there is only one unwrapping. */
  lemma UnwrappingUnique(s: seq<real>, t: seq<real>, t': seq<real>)
    requires IsUnwrapping(s, t) && IsUnwrapping(s, t')
    ensures t == t'
  {
    forall i | 0 <= i < |s|
      ensures t[i] == t'[i]
    {
      forall j | 0 <= j < |s|
        ensures Congruent(s[j], s[j])
      {
        CongruentRefl(s[j]);
      }
      UnwrappingUpToTurns(s, t, s, t', i);
    }
  }

  /** Unwrapping twice is unwrapping once. */
  lemma UnwrappingIdempotent(s: seq<real>, t: seq<real>, u: seq<real>)
    requires IsUnwrapping(s, t) && IsUnwrapping(t, u)
    ensures u == t
  {
    forall i | 0 <= i < |t|
      ensures Congruent(t[i], t[i])
    {
      CongruentRefl(t[i]);
    }
    UnwrappingUnique(t, u, t);
  }

  function WrapAll(s: seq<real>): seq<real> {
    seq(|s|, i requires 0 <= i < |s| => WrapPhase(s[i]))
  }

  /** Wrapping the input first changes the result by a constant only. */
  lemma WrapFirst(s: seq<real>, t: seq<real>, w: seq<real>, i: nat)
    requires IsUnwrapping(s, t) && IsUnwrapping(WrapAll(s), w) && i < |s|
    ensures t[i] - w[i] == s[0] - WrapPhase(s[0])
  {
    forall j | 0 <= j < |s|
      ensures Congruent(s[j], WrapAll(s)[j])
    {
      CongruentSym(WrapPhase(s[j]), s[j]);
    }
    UnwrappingUpToTurns(s, t, WrapAll(s), w, i);
  }
}
