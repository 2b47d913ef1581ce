/**
 The two nested loops of `aeroslot heartbeat`, driven by a script of what each
 renew call returns. The script of a tick is as long as the calls it may need;
 the script of ticks ends where SIGTERM arrives.
 */
module HeartbeatLoop {

  /** What one renew call returns; only IO errors are worth another attempt. */
  datatype CallResult = Renewed | IoError | Rejected

  datatype TickEnd = TickOk | GaveUp | NotMine

  /** The first call of a tick that is not an IO error, if there is one. */
  function FirstAnswer(calls: seq<CallResult>): (k: nat)
    ensures k <= |calls|
    ensures forall j :: 0 <= j < k ==> calls[j] == IoError
    ensures k < |calls| ==> calls[k] != IoError
  {
    if calls == [] || calls[0] != IoError then 0 else 1 + FirstAnswer(calls[1..])
  }

  /** The inner loop: a tick ends with the first answer among its `retries + 1` calls, or gives up after them. */
  method RenewWithRetry(calls: seq<CallResult>, retries: nat) returns (end: TickEnd, made: nat)
    requires |calls| > retries
    ensures made <= retries + 1
    ensures var k := FirstAnswer(calls);
            if k > retries then end == GaveUp && made == retries + 1
            else made == k + 1 && end == if calls[k] == Renewed then TickOk else NotMine
  {
    var attempt := 0;
    made := 0;
    while true
      invariant made == attempt <= retries
      invariant forall j :: 0 <= j < attempt ==> calls[j] == IoError
      decreases retries - attempt
    {
      var result := calls[made];
      made := made + 1;
      match result {
        case Renewed =>
          AnswerAt(calls, attempt);
          return TickOk, made;
        case IoError =>
          if attempt < retries {
            attempt := attempt + 1;  // wait, reconnect
          } else {
            NoAnswerUpTo(calls, attempt);
            return GaveUp, made;
          }
        case Rejected =>
          AnswerAt(calls, attempt);
          return NotMine, made;
      }
    }
  }

  lemma {:induction false} AnswerAt(calls: seq<CallResult>, k: nat)
    requires k < |calls| && calls[k] != IoError && forall j :: 0 <= j < k ==> calls[j] == IoError
    ensures FirstAnswer(calls) == k
  {
    if k > 0 {
      assert calls[0] == IoError;
      AnswerAt(calls[1..], k - 1);
    }
  }

  lemma {:induction false} NoAnswerUpTo(calls: seq<CallResult>, k: nat)
    requires k < |calls| && forall j :: 0 <= j <= k ==> calls[j] == IoError
    ensures FirstAnswer(calls) > k
  {
  }

  predicate TickSucceeds(calls: seq<CallResult>, retries: nat)
  {
    FirstAnswer(calls) <= retries && FirstAnswer(calls) < |calls| && calls[FirstAnswer(calls)] == Renewed
  }

  /**
   The outer loop runs until SIGTERM unless some tick fails; it stops at the first
   tick that does, because the slot is not its own just when the answer was a rejection.
   */
  method Run(ticks: seq<seq<CallResult>>, retries: nat) returns (end: TickEnd, done: nat)
    requires forall t :: 0 <= t < |ticks| ==> |ticks[t]| > retries
    ensures done <= |ticks|
    ensures forall t :: 0 <= t < done ==> TickSucceeds(ticks[t], retries)
    ensures end == TickOk <==> done == |ticks|
    ensures end != TickOk ==> !TickSucceeds(ticks[done], retries)
    ensures end == NotMine <==>
      done < |ticks| && FirstAnswer(ticks[done]) <= retries && ticks[done][FirstAnswer(ticks[done])] == Rejected
  {
    done := 0;
    while done < |ticks|
      invariant done <= |ticks|
      invariant forall t :: 0 <= t < done ==> TickSucceeds(ticks[t], retries)
    {
      var made;
      end, made := RenewWithRetry(ticks[done], retries);
      if end != TickOk {
        return;
      }
      done := done + 1;
    }
    end := TickOk;
  }
}
