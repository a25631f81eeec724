/** Dumping of packets that could not be parsed, limited by a token bucket. Amounts are reals. */
module Dump {
  import opened Packets

  const BURST := 10.0

  /** Rates up to this one mean no limit. */
  const NO_LIMIT := 0.000001

  function Seconds(us: int): real { us as real / 1000000.0 }

  /** What happens outside: the packet's time, whether a new file can be opened, and the number of
      bytes written, zero or less on error. */
  datatype Event = Event(time: int, opens: bool, written: int)

  datatype Outcome = Written | Skipped | Failed

  /** The tokens a bucket may have given out since its file was opened. */
  function Allowance(rate: real, openedAt: int, now: int): real {
    BURST * rate + rate * Seconds(now - openedAt)
  }

  function Total(sizes: seq<nat>): nat {
    if sizes == [] then 0 else Total(sizes[..|sizes| - 1]) + sizes[|sizes| - 1]
  }

  lemma TotalSnoc(sizes: seq<nat>, x: nat)
    ensures Total(sizes + [x]) == Total(sizes) + x
  {
    assert (sizes + [x])[..|sizes|] == sizes;
  }

  function Capped(x: real, most: real): real { if x < most then x else most }

  /** Asserting this opens `Covered`. */
  ghost predicate OpenBucket(x: int) { true }

  /** Tokens given out and tokens left are covered by the allowance, and the bucket is in debt by no
      more than the last packet. */
  ghost predicate Covered(rate: real, openedAt: int, now: int, tokens: real, bytes: nat, last: nat) {
    forall x :: OpenBucket(x) ==>
      tokens + bytes as real <= Allowance(rate, openedAt, now) && tokens >= -(last as real)
  }

  lemma CoveredOpen(rate: real, time: int)
    requires rate > NO_LIMIT
    ensures Covered(rate, time, time, BURST * rate, 0, 0)
  {
    assert Seconds(0) == 0.0;
  }

  lemma CoveredRefill(rate: real, openedAt: int, now: int, tokens: real, bytes: nat, last: nat, later: int)
    requires rate > NO_LIMIT && now <= later && Covered(rate, openedAt, now, tokens, bytes, last)
    ensures Covered(rate, openedAt, later, Capped(tokens + rate * Seconds(later - now), BURST * rate), bytes, last)
  {
    assert OpenBucket(0);
    Later(rate, openedAt, now, later);
  }

  lemma CoveredWrite(rate: real, openedAt: int, now: int, tokens: real, bytes: nat, last: nat, written: nat)
    requires Covered(rate, openedAt, now, tokens, bytes, last) && tokens >= 0.0
    ensures Covered(rate, openedAt, now, tokens - written as real, bytes + written, written)
  {
    assert OpenBucket(0);
  }

  /** The bucket's time does not run backwards. */
  function TimeAt(lastEvent: int, time: int): int {
    if lastEvent == NO_TIME || lastEvent < time then time else lastEvent
  }

  /** The tokens there are at a time before anything is written. */
  function Poured(rate: real, tokens: real, lastEvent: int, time: int): real {
    var elapsed := if lastEvent == NO_TIME then 0 else TimeAt(lastEvent, time) - lastEvent;
    Capped(tokens + rate * Seconds(elapsed), BURST * rate)
  }

  class Dumper {
    const period: int
    const rate: real
    var isOpen: bool
    var openedAt: int
    var tokens: real
    var lastEvent: int
    var dumped: nat
    var skipped: nat
    var bytes: nat

    /** The sizes of all packets in the current file. */
    ghost var sizes: seq<nat>

    ghost function Last(): nat
      reads this
    {
      if sizes == [] then 0 else sizes[|sizes| - 1]
    }

    ghost predicate Valid()
      reads this
    {
      && bytes == Total(sizes) && dumped == |sizes| && NO_TIME <= lastEvent
      && (isOpen ==> NO_TIME < openedAt <= lastEvent)
      && (isOpen && rate > NO_LIMIT ==> Covered(rate, openedAt, lastEvent, tokens, bytes, Last()))
    }

    constructor (period: int, rate: real)
      ensures Valid() && this.period == period && this.rate == rate && !isOpen
    {
      this.period, this.rate, isOpen, openedAt := period, rate, false, NO_TIME;
      tokens, lastEvent := BURST * rate, NO_TIME;
      dumped, skipped, bytes, sizes := 0, 0, 0, [];
    }

    /** A file never holds more than the burst, the rate for the time since it was opened, and one
        packet, whatever packets came, out of order or not. */
    lemma Limited()
      requires Valid() && isOpen && rate > NO_LIMIT
      ensures bytes == Total(sizes)
      ensures bytes as real <= BURST * rate + rate * Seconds(lastEvent - openedAt) + Last() as real
    {
      assert OpenBucket(0);
    }

    method Open(time: int, opens: bool) returns (ok: bool)
      requires !isOpen && time > NO_TIME
      modifies this
      ensures ok == opens && isOpen == opens
      ensures ok ==> Valid() && openedAt == time == lastEvent && sizes == [] && tokens == BURST * rate && skipped == 0
      ensures !ok ==> unchanged(`tokens, `bytes, `sizes, `dumped, `skipped, `openedAt, `lastEvent)
    {
      if !opens {
        return false;
      }
      isOpen, openedAt, tokens, lastEvent := true, time, BURST * rate, time;
      dumped, skipped, bytes, sizes := 0, 0, 0, [];
      if rate > NO_LIMIT { CoveredOpen(rate, time); }
      return true;
    }

    /** Pour in the tokens earned since the last event; tell whether the bucket is out of debt. */
    method Refill(time: int) returns (ok: bool)
      requires Valid() && time >= lastEvent && time > NO_TIME && rate > NO_LIMIT
      modifies `tokens, `lastEvent
      ensures Valid() && lastEvent == time && ok == (tokens >= 0.0)
      ensures tokens == Capped(old(tokens) + rate * Seconds(time - old(lastEvent)), BURST * rate)
    {
      if isOpen { CoveredRefill(rate, openedAt, lastEvent, tokens, bytes, Last(), time); }
      tokens := tokens + rate * Seconds(time - lastEvent);
      lastEvent := time;
      tokens := if tokens < BURST * rate then tokens else BURST * rate;
      return !(tokens < 0.0);
    }

    /** Is the file that is open to be kept at this time? */
    ghost predicate Kept(time: int)
      reads this
    {
      isOpen && !(period > 0 && openedAt < time - period * 1_000_000)
    }

    /** Go over to a new file when there is none, or when the period has passed. */
    method Rotate(time: int, opens: bool) returns (ok: bool)
      requires Valid() && time > NO_TIME && (rate > NO_LIMIT ==> tokens >= 0.0)
      modifies this
      ensures Valid() && (ok ==> isOpen && (rate > NO_LIMIT ==> tokens >= 0.0))
      ensures ok ==> sizes == if old(Kept(time)) then old(sizes) else []
      ensures ok ==> openedAt == if old(Kept(time)) then old(openedAt) else time
      ensures !ok ==> !isOpen && !opens && sizes == old(sizes)
    {
      if isOpen && period > 0 && openedAt < time - period * 1_000_000 {
        isOpen := false;
      }
      ok := true;
      if !isOpen {
        ok := Open(time, opens);
      }
    }

    method Write(written: int) returns (ok: bool)
      requires Valid() && isOpen && (rate > NO_LIMIT ==> tokens >= 0.0)
      modifies `dumped, `bytes, `tokens, `sizes
      ensures Valid() && ok == (written > 0) && sizes == if ok then old(sizes) + [written] else old(sizes)
      ensures tokens == if ok then old(tokens) - written as real else old(tokens)
    {
      if written <= 0 {
        return false;
      }
      TotalSnoc(sizes, written);
      if rate > NO_LIMIT { CoveredWrite(rate, openedAt, lastEvent, tokens, bytes, Last(), written); }
      dumped := dumped + 1;
      bytes := bytes + written;
      tokens := tokens - written as real;
      sizes := sizes + [written];
      return true;
    }

    /** Look at the bucket at the time of a packet. */
    method Admit(t: int) returns (time: int, ok: bool)
      requires Valid() && t > NO_TIME
      modifies `tokens, `lastEvent, `skipped
      ensures Valid() && time == TimeAt(old(lastEvent), t) && skipped == old(skipped) + if ok then 0 else 1
      ensures ok <==> !(rate > NO_LIMIT && Poured(rate, old(tokens), old(lastEvent), t) < 0.0)
      ensures if ok then rate > NO_LIMIT ==> tokens >= 0.0 else tokens < 0.0
    {
      if lastEvent == NO_TIME {
        lastEvent := t;
      }
      time := if t < lastEvent then lastEvent else t;
      ok := true;
      if rate > NO_LIMIT {
        ok := Refill(time);
        if !ok {
          skipped := skipped + 1;
        }
      }
    }

    /** Dump a packet, or skip it when the bucket is in debt. */
    method DumpPacket(e: Event) returns (r: Outcome)
      requires Valid() && e.time > NO_TIME
      modifies this
      ensures Valid()
      ensures r.Skipped? <==> rate > NO_LIMIT && Poured(rate, old(tokens), old(lastEvent), e.time) < 0.0
      ensures r.Skipped? ==> tokens < 0.0 && sizes == old(sizes) && skipped == old(skipped) + 1
      ensures r.Written? ==>
              var time := TimeAt(old(lastEvent), e.time);
              && isOpen && e.written > 0
              && sizes == (if old(Kept(time)) then old(sizes) else []) + [e.written]
              && openedAt == if old(Kept(time)) then old(openedAt) else time
      ensures r.Failed? ==> e.written <= 0 || (!isOpen && !e.opens)
    {
      var time, ok := Admit(e.time);
      if !ok {
        return Skipped;
      }
      assert Kept(time) == old(Kept(time));
      ok := Rotate(time, e.opens);
      if !ok {
        return Failed;
      }
      ok := Write(e.written);
      r := if ok then Written else Failed;
    }

    /** Whatever the packets and their times, the limit holds for the file they leave open. */
    method DumpAll(events: seq<Event>)
      requires Valid() && forall i :: 0 <= i < |events| ==> events[i].time > NO_TIME
      modifies this
      ensures Valid() && bytes == Total(sizes)
      ensures isOpen && rate > NO_LIMIT ==>
                bytes as real <= BURST * rate + rate * Seconds(lastEvent - openedAt) + Last() as real
    {
      for i := 0 to |events|
        invariant Valid()
      {
        var _ := DumpPacket(events[i]);
      }
      if isOpen && rate > NO_LIMIT { Limited(); }
    }
  }

  lemma Later(rate: real, openedAt: int, then0: int, now: int)
    requires rate > 0.0 && then0 <= now
    ensures Allowance(rate, openedAt, now) == Allowance(rate, openedAt, then0) + rate * Seconds(now - then0)
    ensures rate * Seconds(now - then0) >= 0.0
  {
    assert Seconds(now - openedAt) == Seconds(then0 - openedAt) + Seconds(now - then0);
  }
}
