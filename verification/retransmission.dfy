/** server.py: the retransmission loop of a confirmable message. */
module Retransmission {

  import opened Messages

  const ACK_TIMEOUT := 2.0
  const ACK_RANDOM_FACTOR := 1.5
  const MAX_RETRANSMIT := 4
  const MAX_TRANSMIT_SPAN := ACK_TIMEOUT * (32.0 - 1.0) * ACK_RANDOM_FACTOR

  /** What ends a wait: the time is up or the event was set, and what has happened meanwhile. */
  datatype Wake = Nothing | Acknowledged | Rejected | Stopped

  /** The fate of the message as the waits go by; waited(i) is a part of the time waited for. */
  datatype Fate = Fate(wake: nat -> Wake, part: nat -> real)

  ghost predicate Fair(fate: Fate) {
    forall i: nat :: 0.0 <= fate.part(i) <= 1.0
  }

  function Pow2(n: nat): (p: real)
    ensures p >= 1.0
  {
    if n == 0 then 1.0 else 2.0 * Pow2(n - 1)
  }

  /** The time to wait before the n-th attempt, and the time of the first n attempts together. */
  function Doubled(timeout: real, n: nat): real {
    if n == 0 then timeout else 2.0 * Doubled(timeout, n - 1)
  }

  function Span(timeout: real, n: nat): real {
    if n == 0 then 0.0 else Span(timeout, n - 1) + Doubled(timeout, n - 1)
  }

  lemma {:induction false} SpanIsGeometric(timeout: real, n: nat)
    ensures Doubled(timeout, n) == timeout * Pow2(n)
    ensures Span(timeout, n) == timeout * (Pow2(n) - 1.0)
  {
    if n > 0 {
      SpanIsGeometric(timeout, n - 1);
    }
  }

  lemma {:induction false} SpanGrows(timeout: real, m: nat, n: nat)
    requires timeout >= 0.0 && m <= n
    ensures 0.0 <= Doubled(timeout, n) && Span(timeout, m) <= Span(timeout, n)
    decreases n
  {
    if n > 0 {
      SpanGrows(timeout, if m < n then m else n - 1, n - 1);
    }
  }

  function Elapsed(whole: real, part: real): real { whole * part }

  lemma PartOf(whole: real, part: real)
    requires whole >= 0.0 && 0.0 <= part <= 1.0
    ensures 0.0 <= Elapsed(whole, part) <= whole
    ensures part == 1.0 ==> Elapsed(whole, part) == whole
  {
  }

  /** No acknowledgement, rejection or stop during the first n waits. */
  ghost predicate Silent(fate: Fate, n: nat) {
    forall i: nat :: i < n ==> fate.wake(i) == Nothing
  }

  /** Wait and send again with a doubled time, until something happens or the limit is reached. */
  method Retransmit(message: Request, timeout: real, limit: nat, fate: Fate)
    returns (resent: nat, waited: real, waits: nat, stopped: bool)
    requires !message.acknowledged && !message.rejected && timeout >= 0.0 && Fair(fate)
    modifies message`acknowledged, message`rejected, message`timeouted, message`cancelled
    ensures waits <= limit && resent <= waits
    ensures resent <= if limit == 0 then 0 else limit - 1
    ensures 0.0 <= waited <= timeout * (Pow2(limit) - 1.0)
    ensures if Silent(fate, limit) then
              && waits == limit && resent == (if limit == 0 then 0 else limit - 1) && !stopped
              && ((forall i: nat :: i < limit ==> fate.part(i) == 1.0) ==> waited == timeout * (Pow2(limit) - 1.0))
            else
              && 0 < waits && Silent(fate, waits - 1) && fate.wake(waits - 1) != Nothing && resent == waits - 1
    ensures message.timeouted <==> Silent(fate, limit) || fate.wake(waits - 1) == Stopped
    ensures message.acknowledged <==> !Silent(fate, limit) && fate.wake(waits - 1) == Acknowledged
    ensures message.rejected <==> !Silent(fate, limit) && fate.wake(waits - 1) == Rejected
  {
    hide Elapsed, Pow2;
    var retransmitCount: nat := 0;
    var futureTime := timeout;
    resent, waited, waits, stopped := 0, 0.0, 0, false;
    while retransmitCount < limit && (!message.acknowledged && !message.rejected) && !stopped
      invariant retransmitCount <= limit && waits <= limit
      invariant futureTime == Doubled(timeout, retransmitCount)
      invariant message.acknowledged || message.rejected || stopped ==> waits == retransmitCount + 1 <= limit
      invariant !(message.acknowledged || message.rejected || stopped) ==> waits == retransmitCount
      invariant Silent(fate, retransmitCount)
      invariant waits > retransmitCount ==>
        && (message.acknowledged <==> fate.wake(retransmitCount) == Acknowledged)
        && (message.rejected <==> fate.wake(retransmitCount) == Rejected)
        && (stopped <==> fate.wake(retransmitCount) == Stopped)
      invariant resent == if retransmitCount < limit || limit == 0 then retransmitCount else limit - 1
      invariant 0.0 <= waited <= Span(timeout, waits)
      invariant (forall i: nat :: i < waits ==> fate.part(i) == 1.0) ==> waited == Span(timeout, waits)
      decreases limit - waits
    {
      SpanGrows(timeout, retransmitCount, retransmitCount);
      PartOf(futureTime, fate.part(waits));
      waited := waited + Elapsed(futureTime, fate.part(waits));
      match fate.wake(waits) {
        case Nothing =>
        case Acknowledged => message.SetAcknowledged(true);
        case Rejected => message.SetRejected(true);
        case Stopped => stopped := true;
      }
      waits := waits + 1;
      if !message.acknowledged && !message.rejected && !stopped {
        retransmitCount := retransmitCount + 1;
        futureTime := futureTime * 2.0;
        if retransmitCount < limit {
          resent := resent + 1;
        }
      }
    }
    SpanGrows(timeout, waits, limit);
    SpanIsGeometric(timeout, limit);
    if message.acknowledged || message.rejected {
      message.SetTimeouted(false);
    } else {
      message.SetTimeouted(true);
    }
  }

  /** With the standard limit and any initial timeout in the standard range the loop ends in the transmit span. */
  lemma WithinTransmitSpan(timeout: real)
    requires 0.0 <= timeout <= ACK_TIMEOUT * ACK_RANDOM_FACTOR
    ensures timeout * (Pow2(MAX_RETRANSMIT) - 1.0) <= 45.0 < MAX_TRANSMIT_SPAN == 93.0
  {
    assert Pow2(4) == 2.0 * Pow2(3) == 2.0 * (2.0 * Pow2(2)) == 2.0 * (2.0 * (2.0 * Pow2(1))) == 16.0;
  }
}
