/** Which frames the matcher sends: from when on, until when, and that none is sent without need. */
module FrameLaws {
  import opened Packets
  import opened Frames
  import opened MatcherSpec
  import opened MatcherLaws

  // ------------------------------------------------ every step

  /** Asserting this opens `Shaped`. */
  ghost predicate OpenShape(x: int) { true }

  /** Frames begin at `first`, all have a time, and none was sent without need. */
  ghost predicate Shaped(c: Config, s: State, first: int) {
    s.out.start > NO_TIME && forall x :: OpenShape(x) ==>
      && (forall f :: f in s.sent ==> f.start > NO_TIME)
      && (s.sent + [s.out])[0].start == first
      && Snug(s.sent + [s.out], c.maxDuration, c.maxSize)
  }

  lemma EmitShaped(c: Config, s: State, first: int, next: Frame)
    requires Shaped(c, s, first) && Full(s.out, next.packets, c.maxDuration, c.maxSize) && next.start > NO_TIME
    ensures Shaped(c, s.(sent := s.sent + [s.out], out := next), first)
  {
    assert OpenShape(0);
    SnugSnoc(s.sent, s.out, next, c.maxDuration, c.maxSize);
    assert ((s.sent + [s.out]) + [next])[0] == (s.sent + [s.out])[0];
  }

  lemma LastShaped(c: Config, s: State, first: int, out: Frame)
    requires Shaped(c, s, first) && out.start == s.out.start
    requires s.out.packets == [] || (out.packets != [] && out.packets[0] == s.out.packets[0])
    ensures Shaped(c, s.(out := out), first)
  {
    assert OpenShape(0);
    SnugLast(s.sent, s.out, out, c.maxDuration, c.maxSize);
    assert s.sent != [] ==> (s.sent + [out])[0] == s.sent[0] == (s.sent + [s.out])[0];
  }

  /** The time and the queue do not matter. */
  lemma SameShape(c: Config, s: State, first: int, r: State)
    requires Shaped(c, s, first) && r.sent == s.sent && r.out == s.out
    ensures Shaped(c, r, first)
  {
    assert OpenShape(0);
  }

  lemma EvictShaped(c: Config, s: State, first: int)
    requires Shaped(c, s, first) && s.queue != [] && s.out.start <= s.out.end
    ensures Shaped(c, Evict(c, s), first)
  {
    var p := s.queue[0];
    if TotalSize(s.out.packets) + p.h.memorySize > c.maxSize {
      var next := Appended(EmptyFrame(s.out.end), p);
      EmitShaped(c, s, first, next);
      SameShape(c, s.(sent := s.sent + [s.out], out := next), first, Evict(c, s));
    } else {
      LastShaped(c, s, first, Appended(s.out, p));
      SameShape(c, s.(out := Appended(s.out, p)), first, Evict(c, s));
    }
  }

  lemma TickShaped(c: Config, s: State, t: int, first: int)
    requires Shaped(c, s, first) && s.out.start <= s.out.end
    ensures Shaped(c, Tick(c, s, t), first)
  {
    var ev := NextEvent(c, s);
    if ev > t {
      SameShape(c, s, first, s.(now := t));
    } else if ev == FrameDue(c, s) {
      var out := s.out.(end := ev - c.window);
      LastShaped(c, s, first, out);
      EmitShaped(c, s.(out := out), first, EmptyFrame(out.end));
      SameShape(c, s.(sent := s.sent + [out], out := EmptyFrame(out.end)), first, Tick(c, s, t));
    } else {
      EvictShaped(c, s, first);
      SameShape(c, Evict(c, s), first, Tick(c, s, t));
    }
  }

  lemma {:induction false} AdvanceShaped(c: Config, s: State, t: int, first: int)
    requires Shaped(c, s, first) && s.out.start <= s.out.end
    ensures var r := AdvanceTo(c, s, t);
            Shaped(c, r, first) && r.phase == s.phase && r.now == if s.now < t then t else s.now
    decreases |s.queue|, Left(s, t), if s.now < t then 1 else 0
  {
    if s.now < t {
      TickShaped(c, s, t, first);
      AdvanceShaped(c, Tick(c, s, t), t, first);
    }
  }

  // ------------------------------------------------ whole runs

  /** A time that a frame tells the matcher. */
  ghost predicate Tells(f: Frame, t: int) {
    f.start == t || f.end == t || exists p :: p in f.packets && p.h.ts == t
  }

  ghost predicate PacketTime(packets: seq<Packet>, t: int) { exists p :: p in packets && p.h.ts == t }

  lemma {:induction false} PacketsShaped(c: Config, s: State, packets: seq<Packet>, first: int)
    requires Shaped(c, s, first) && s.out.start <= s.out.end
    ensures var r := Run(c, s, PacketOps(packets));
            && Shaped(c, r, first) && r.phase == s.phase
            && s.now <= r.now && (forall p :: p in packets ==> p.h.ts <= r.now)
            && (r.now == s.now || PacketTime(packets, r.now))
    decreases |packets|
  {
    if packets != [] {
      var p := packets[0];
      AdvanceShaped(c, s, p.h.ts, first);
      SameShape(c, AdvanceTo(c, s, p.h.ts), first, Accept(c, AdvanceTo(c, s, p.h.ts), p));
      RunTwo(c, s, Advance(p.h.ts), Take(p));
      RunConcat(c, s, [Advance(p.h.ts), Take(p)], PacketOps(packets[1..]));
      PacketsShaped(c, Accept(c, AdvanceTo(c, s, p.h.ts), p), packets[1..], first);
      assert packets == [p] + packets[1..];
    }
  }

  /** A frame that is not skipped, when the matcher is already running. */
  lemma FrameShaped(c: Config, s: State, f: Frame, first: int)
    requires s.phase.Running? && Shaped(c, s, first) && s.out.start <= s.out.end && f.start > NO_TIME
    ensures var r := Run(c, s, FrameOps(f));
            && r.phase.Running? && Shaped(c, r, first)
            && s.now <= r.now && (forall t :: Tells(f, t) ==> t <= r.now) && (r.now == s.now || Tells(f, r.now))
  {
    AdvanceShaped(c, s, f.start, first);
    var s2 := AdvanceTo(c, s, f.start);
    PacketsShaped(c, s2, f.packets, first);
    var s3 := Run(c, s2, PacketOps(f.packets));
    AdvanceShaped(c, s3, f.end, first);
    RunFrame(c, s, f);
  }

  /** A time that one of the frames tells; those without a time are skipped. */
  ghost predicate Told(frames: seq<Frame>, t: int) {
    exists i :: 0 <= i < |frames| && frames[i].start > NO_TIME && Tells(frames[i], t)
  }

  lemma ToldFirst(frames: seq<Frame>, t: int)
    requires frames != []
    ensures Told(frames, t) <==> (frames[0].start > NO_TIME && Tells(frames[0], t)) || Told(frames[1..], t)
  {
    if Told(frames[1..], t) {
      var i :| 0 <= i < |frames[1..]| && frames[1..][i].start > NO_TIME && Tells(frames[1..][i], t);
      assert frames[i + 1] == frames[1..][i];
    }
    if Told(frames, t) {
      var i :| 0 <= i < |frames| && frames[i].start > NO_TIME && Tells(frames[i], t);
      if i > 0 { assert frames[1..][i - 1] == frames[i]; }
    }
  }

  /** The last time that any of the frames tells. */
  ghost predicate Latest(frames: seq<Frame>, t: int) {
    Told(frames, t) && forall u :: Told(frames, u) ==> u <= t
  }

  /** The frames of a run that begins at `first` and ends at `last`, with one that is final. */
  ghost predicate Sent(c: Config, r: State, first: int, last: int) {
    && |r.sent| >= 2 && r.sent[0].start == first
    && (forall i :: 0 <= i < |r.sent| - 1 ==> r.sent[i].start > NO_TIME)
    && Snug(r.sent[..|r.sent| - 1], c.maxDuration, c.maxSize)
    && r.sent[|r.sent| - 1] == FinalFrame(last + c.window + 1)
  }

  lemma EndShaped(c: Config, s: State, first: int)
    requires s.phase.Running? && Shaped(c, s, first) && s.out.start <= s.out.end
    ensures Sent(c, Run(c, s, [Drain, Flush]), first, s.now)
  {
    AdvanceShaped(c, s, s.now + c.window + 1, first);
    RunTwo(c, s, Drain, Flush);
    FlushShaped(c, Perform(c, s, Drain), first, s.now);
  }

  lemma FlushShaped(c: Config, s: State, first: int, last: int)
    requires s.phase.Running? && Shaped(c, s, first) && s.out.start <= s.out.end && s.now == last + c.window + 1
    ensures Sent(c, Perform(c, s, Flush), first, last)
  {
    assert OpenShape(0);
    var r, body := Perform(c, s, Flush), s.sent + [s.out];
    assert r.sent == body + [FinalFrame(s.now)] && r.sent[..|r.sent| - 1] == body;
    assert forall i :: 0 <= i < |s.sent| ==> body[i] in s.sent;
  }

  lemma NextFrame(c: Config, s: State, f: Frame, first: int) returns (r: State)
    requires s.phase.Running? && Shaped(c, s, first) && s.out.start <= s.out.end && Regular(f)
    ensures r == Run(c, s, FrameOps(f)) && r.out.start <= r.out.end && r.phase.Running? && Shaped(c, r, first)
    ensures s.now <= r.now && (f.start > NO_TIME ==> forall t :: Tells(f, t) ==> t <= r.now)
    ensures r.now == s.now || (f.start > NO_TIME && Tells(f, r.now))
  {
    r := Run(c, s, FrameOps(f));
    if f.start > NO_TIME { FrameShaped(c, s, f, first); }
  }

  lemma {:induction false} RunningShaped(c: Config, s: State, frames: seq<Frame>, first: int) returns (last: int)
    requires s.phase.Running? && Shaped(c, s, first) && s.out.start <= s.out.end
    requires forall i :: 0 <= i < |frames| ==> Regular(frames[i])
    ensures Sent(c, Run(c, s, Program(frames)), first, last)
    ensures s.now <= last && (forall t :: Told(frames, t) ==> t <= last) && (last == s.now || Told(frames, last))
    decreases |frames|
  {
    if frames == [] {
      EndShaped(c, s, first);
      last := s.now;
    } else {
      var r := NextFrame(c, s, frames[0], first);
      RunConcat(c, s, FrameOps(frames[0]), Program(frames[1..]));
      last := RunningShaped(c, r, frames[1..], first);
      forall t ensures Told(frames, t) <==>
                       (frames[0].start > NO_TIME && Tells(frames[0], t)) || Told(frames[1..], t) {
        ToldFirst(frames, t);
      }
    }
  }

  lemma BeginShaped(c: Config, f: Frame) returns (s: State)
    requires f.start > NO_TIME && Regular(f)
    ensures s.phase.Running? && Shaped(c, s, f.start) && s.out.start <= s.out.end && s.now == f.start
    ensures Run(c, INITIAL, FrameOps(f)) == Run(c, s, FrameOps(f))
  {
    s := Perform(c, INITIAL, Begin(f.start));
    assert [EmptyFrame(f.start)] == [] + [EmptyFrame(f.start)];
    RunFrame(c, INITIAL, f);
    RunFrame(c, s, f);
  }

  /** The place of the first frame that has a time. */
  function FirstTimed(frames: seq<Frame>): nat {
    if frames == [] || frames[0].start > NO_TIME then 0 else 1 + FirstTimed(frames[1..])
  }

  /** From the first frame that has a time. */
  lemma FirstShaped(c: Config, frames: seq<Frame>) returns (last: int)
    requires frames != [] && frames[0].start > NO_TIME && forall i :: 0 <= i < |frames| ==> Regular(frames[i])
    ensures Latest(frames, last) && Sent(c, Run(c, INITIAL, Program(frames)), frames[0].start, last)
  {
    var f := frames[0];
    var s := BeginShaped(c, f);
    RunConcat(c, INITIAL, FrameOps(f), Program(frames[1..]));
    RunConcat(c, s, FrameOps(f), Program(frames[1..]));
    last := RunningShaped(c, s, frames, f.start);
    assert Tells(f, f.start);
  }

  /** Whole runs, whatever the order of times. Without any frame that has a time only the final
      frame is sent. Otherwise the frames begin where the first of those begins, none is sent
      without need, and the final one is sent a window after the last time that was told. */
  lemma {:induction false} FramesSent(c: Config, frames: seq<Frame>) returns (last: int)
    requires forall i :: 0 <= i < |frames| ==> Regular(frames[i])
    ensures var r, i := Run(c, INITIAL, Program(frames)), FirstTimed(frames);
            if i >= |frames| then r.sent == [FinalFrame(NO_TIME)]
            else Latest(frames, last) && Sent(c, r, frames[i].start, last)
    decreases |frames|
  {
    if frames == [] {
      RunTwo(c, INITIAL, Drain, Flush);
      assert [] + [FinalFrame(NO_TIME)] == [FinalFrame(NO_TIME)];
      last := 0;
    } else if frames[0].start > NO_TIME {
      last := FirstShaped(c, frames);
    } else {
      last := FramesSent(c, frames[1..]);
      assert Program(frames) == [] + Program(frames[1..]) == Program(frames[1..]);
      LatestLater(frames, last);
    }
  }

  lemma LatestLater(frames: seq<Frame>, last: int)
    requires frames != [] && frames[0].start <= NO_TIME
    ensures Latest(frames[1..], last) ==> Latest(frames, last)
  {
    forall t ensures Told(frames, t) <==> Told(frames[1..], t) {
      ToldFirst(frames, t);
    }
  }

  /** Every frame but the final one has a time. */
  lemma FramesTimed(c: Config, frames: seq<Frame>)
    requires forall i :: 0 <= i < |frames| ==> Regular(frames[i])
    ensures var sent := Run(c, INITIAL, Program(frames)).sent;
            forall i :: 0 <= i < |sent| - 1 ==> sent[i].start > NO_TIME
  {
    var _ := FramesSent(c, frames);
  }
}
