/**
 * `call_llm`: a flat retry loop. Every attempt's outcome comes from the
 * model provider and the response parser, so it is supplied as an oracle
 * `outcome(i)` for the i-th attempt (counted from 0). The one-second pause
 * between attempts is recorded as a `Sleep` event instead of being taken.
 */
module Retry {
  import opened Wrappers

  const MaxRetries: nat := 3

  /** What a run of the retry loop does, in order. */
  datatype Event = Attempt(index: nat) | Sleep

  /**
   * The attempt at which the loop stops, searching from attempt `from`:
   * the first one that succeeds, or the last one allowed.
   */
  function StopIndex<T, E>(outcome: nat -> Result<T, E>, from: nat): (k: nat)
    requires from < MaxRetries
    ensures from <= k < MaxRetries
    ensures forall j :: from <= j < k ==> outcome(j).Err?
    ensures outcome(k).Ok? || k == MaxRetries - 1
    decreases MaxRetries - from
  {
    if outcome(from).Ok? || from == MaxRetries - 1 then from else StopIndex(outcome, from + 1)
  }

  /** `n` attempts with one pause between each two of them and none after the last. */
  function Trace(n: nat): seq<Event>
  {
    if n == 0 then []
    else if n == 1 then [Attempt(0)]
    else Trace(n - 1) + [Sleep, Attempt(n - 1)]
  }

  method CallLlm<T, E>(outcome: nat -> Result<T, E>) returns (r: Result<T, E>, trace: seq<Event>)
    ensures var k := StopIndex(outcome, 0); r == outcome(k) && trace == Trace(k + 1)
  {
    trace := [];
    for attempt := 0 to MaxRetries
      invariant attempt < MaxRetries
      invariant forall j :: 0 <= j < attempt ==> outcome(j).Err?
      invariant trace == if attempt == 0 then [] else Trace(attempt) + [Sleep]
    {
      trace := trace + [Attempt(attempt)];
      var o := outcome(attempt);
      if o.Ok? {
        r := o;
        return;
      }
      if attempt == MaxRetries - 1 {
        r := o;
        return;
      }
      trace := trace + [Sleep];
    }
    assert false;
  }

  // ------------------------------------------------------------------
  // Properties of the retry policy.
  // ------------------------------------------------------------------

  /** The loop stops at the first attempt that succeeds, if one of the three does. */
  lemma StopsAtFirstSuccess<T, E>(outcome: nat -> Result<T, E>, k: nat)
    requires k < MaxRetries && outcome(k).Ok?
    requires forall j :: 0 <= j < k ==> outcome(j).Err?
    ensures StopIndex(outcome, 0) == k
  {
  }

  /** When all three attempts fail, the third attempt's error is raised. */
  lemma ExhaustedRaisesThird<T, E>(outcome: nat -> Result<T, E>)
    requires forall j :: 0 <= j < MaxRetries ==> outcome(j).Err?
    ensures StopIndex(outcome, 0) == 2 && outcome(StopIndex(outcome, 0)) == outcome(2)
  {
  }

  /** The call returns a value exactly when one of the three attempts succeeds. */
  lemma SucceedsIffSomeAttemptSucceeds<T, E>(outcome: nat -> Result<T, E>)
    ensures outcome(StopIndex(outcome, 0)).Ok? <==> exists j :: 0 <= j < MaxRetries && outcome(j).Ok?
  {
    var k := StopIndex(outcome, 0);
    if j :| 0 <= j < MaxRetries && outcome(j).Ok? {
      assert k <= j;
    }
  }

  /**
   * A run of n attempts alternates attempt and pause, starting and ending
   * with an attempt: attempts 0 .. n - 1 at the even positions, a pause at
   * every odd one, so there are n - 1 pauses and none after the last attempt.
   */
  lemma {:induction false} TraceShape(n: nat)
    requires n >= 1
    ensures |Trace(n)| == 2 * n - 1
    ensures forall p :: 0 <= p < |Trace(n)| ==>
      Trace(n)[p] == if p % 2 == 0 then Attempt(p / 2) else Sleep
  {
    if n > 1 {
      TraceShape(n - 1);
    }
  }

  /** A run never makes more than three attempts. */
  lemma AtMostThreeAttempts<T, E>(outcome: nat -> Result<T, E>)
    ensures var n := StopIndex(outcome, 0) + 1;
      n <= MaxRetries && |Trace(n)| <= 2 * MaxRetries - 1
  {
    TraceShape(StopIndex(outcome, 0) + 1);
  }

  /** Two failures then a success: three calls, two pauses, the third value returned. */
  lemma FailTwiceThenSucceed<T, E>(outcome: nat -> Result<T, E>)
    requires outcome(0).Err? && outcome(1).Err? && outcome(2).Ok?
    ensures StopIndex(outcome, 0) == 2
    ensures Trace(StopIndex(outcome, 0) + 1) == [Attempt(0), Sleep, Attempt(1), Sleep, Attempt(2)]
  {
  }
}
