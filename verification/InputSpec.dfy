/** How a stream of accepted packets is cut into frames, as a function of the stream. */
module InputSpec {
  import opened Sequences
  import opened Packets
  import opened Frames
  import opened MatcherLaws

  datatype RawConfig = Config(maxDuration: int, maxSize: nat, grace: nat)

  type Config = c: RawConfig | c.maxDuration > 0 witness Config(1, 0, 0)

  type Time = t: int | t > NO_TIME witness 0

  /** An accepted packet, the opening of a live trace, a look at the clock while reading one. */
  datatype Event = Accepted(packet: Packet) | Opened(now: Time) | CatchUp(now: Time)

  datatype State = State(frame: Frame, sent: seq<Frame>)

  const INITIAL := State(EmptyFrame(NO_TIME), [])

  function Emit(s: State): State {
    State(EmptyFrame(s.frame.end), s.sent + [s.frame])
  }

  /** Frames leave until time `t` fits in the current one. */
  function CutTo(c: Config, s: State, t: int): (r: State)
    decreases if s.frame.start < t then t - s.frame.start else 0
  {
    if t < s.frame.start + c.maxDuration then s
    else CutTo(c, Emit(s.(frame := s.frame.(end := s.frame.start + c.maxDuration))), t)
  }

  function Started(s: State, t: int): State {
    if s.frame.start == NO_TIME then s.(frame := s.frame.(start := t, end := t)) else s
  }

  function ReachTo(s: State, t: int): State {
    s.(frame := s.frame.(end := if s.frame.end < t then t else s.frame.end))
  }

  function AdvanceTo(c: Config, s: State, t: int): State {
    ReachTo(CutTo(c, Started(s, t), t), t)
  }

  function Add(c: Config, s: State, p: Packet): State {
    var s1 := if s.frame.packets != [] && TotalSize(s.frame.packets) + p.h.memorySize > c.maxSize then Emit(s) else s;
    s1.(frame := Appended(s1.frame, p))
  }

  function Handle(c: Config, s: State, e: Event): State {
    match e
    case Accepted(p) => Add(c, AdvanceTo(c, s, p.h.ts), p)
    case Opened(now) => AdvanceTo(c, s, now)
    case CatchUp(now) => if now > s.frame.end + c.grace then AdvanceTo(c, s, now - c.grace) else s
  }

  function Run(c: Config, s: State, events: seq<Event>): State {
    if events == [] then s else Handle(c, Run(c, s, events[..|events| - 1]), events[|events| - 1])
  }

  /** Everything sent once the stream has ended. */
  function Finish(s: State): seq<Frame> {
    Emit(s).sent + [FinalFrame(s.frame.end)]
  }

  function AcceptedPackets(events: seq<Event>): seq<Packet> {
    if events == [] then []
    else
      AcceptedPackets(events[..|events| - 1]) +
      if events[|events| - 1].Accepted? then [events[|events| - 1].packet] else []
  }

  // ------------------------------------------------ what every step keeps

  function Items(s: State): seq<Packet> {
    Contents(s.sent) + s.frame.packets
  }

  /** Asserting this opens `Inv`. */
  ghost predicate OpenInput(x: int) { true }

  ghost predicate Inv(c: Config, s: State) {
    NO_TIME <= s.frame.end && forall x :: OpenInput(x) ==> Framing(c, s)
  }

  /** Before the first time is known, or with frames in order and within the limits. */
  ghost predicate Framing(c: Config, s: State) {
    || s == INITIAL
    || (&& s.frame.start > NO_TIME
        && Tiled(s.sent, s.frame.start, c.maxDuration, c.maxSize)
        && Within(s.frame, c.maxDuration, c.maxSize) && !s.frame.final
        && Snug(s.sent + [s.frame], c.maxDuration, c.maxSize)
        && (forall f :: f in s.sent ==> Regular(f)))
  }

  lemma LastInv(c: Config, s: State, f: Frame)
    requires Inv(c, s) && s != INITIAL && f.start == s.frame.start && !f.final
    requires Within(f, c.maxDuration, c.maxSize)
    requires s.frame.packets == [] || (f.packets != [] && f.packets[0] == s.frame.packets[0])
    ensures Inv(c, s.(frame := f))
  {
    assert OpenInput(0);
    SnugLast(s.sent, s.frame, f, c.maxDuration, c.maxSize);
  }

  lemma EmitInv(c: Config, s: State, next: seq<Packet>)
    requires Inv(c, s) && s != INITIAL && Full(s.frame, next, c.maxDuration, c.maxSize) && |next| <= 1
    ensures Inv(c, Emit(s).(frame := EmptyFrame(s.frame.end).(packets := next))) && Items(Emit(s)) == Items(s)
  {
    assert OpenInput(0);
    var g := EmptyFrame(s.frame.end).(packets := next);
    ContentsSnoc(s.sent, s.frame);
    TiledSnoc(s.sent, s.frame, c.maxDuration, c.maxSize);
    SnugSnoc(s.sent, s.frame, g, c.maxDuration, c.maxSize);
    FramingNext(c, s, g);
  }

  lemma FramingNext(c: Config, s: State, g: Frame)
    requires Framing(c, s) && s != INITIAL && g.start == s.frame.end && !g.final && |g.packets| <= 1 && g.end == g.start
    requires Tiled(s.sent + [s.frame], g.start, c.maxDuration, c.maxSize)
    requires Snug((s.sent + [s.frame]) + [g], c.maxDuration, c.maxSize)
    ensures Framing(c, State(g, s.sent + [s.frame]))
  {
  }

  lemma StartedInv(c: Config, s: State, t: Time)
    requires Inv(c, s)
    ensures Inv(c, Started(s, t)) && Started(s, t).frame.start > NO_TIME
  {
    assert OpenInput(0);
    assert TotalSize([]) == 0;
  }

  lemma LongestInv(c: Config, s: State)
    requires Inv(c, s) && s.frame.start > NO_TIME
    ensures s.frame.end <= s.frame.start + c.maxDuration
    ensures var r := Emit(s.(frame := s.frame.(end := s.frame.start + c.maxDuration)));
            Inv(c, r) && Items(r) == Items(s)
  {
    assert OpenInput(0);
    var f := s.frame.(end := s.frame.start + c.maxDuration);
    LastInv(c, s, f);
    EmitInv(c, s.(frame := f), []);
  }

  lemma ReachInv(c: Config, s: State, t: int)
    requires Inv(c, s) && s.frame.start > NO_TIME && t < s.frame.start + c.maxDuration
    ensures Inv(c, ReachTo(s, t)) && ReachTo(s, t) != INITIAL && t <= ReachTo(s, t).frame.end
  {
    assert OpenInput(0);
    LastInv(c, s, ReachTo(s, t).frame);
  }

  /** The frame has not outgrown its duration whenever one is sent for its time. */
  lemma {:induction false} CutInv(c: Config, s: State, t: int)
    requires Inv(c, s) && s.frame.start > NO_TIME
    ensures s.frame.end <= s.frame.start + c.maxDuration
    ensures var r := CutTo(c, s, t);
            Inv(c, r) && r != INITIAL && Items(r) == Items(s) && t < r.frame.start + c.maxDuration
    decreases if s.frame.start < t then t - s.frame.start else 0
  {
    LongestInv(c, s);
    if t >= s.frame.start + c.maxDuration {
      CutInv(c, Emit(s.(frame := s.frame.(end := s.frame.start + c.maxDuration))), t);
    }
  }

  lemma AdvanceInv(c: Config, s: State, t: Time)
    requires Inv(c, s)
    ensures var r := AdvanceTo(c, s, t); Inv(c, r) && r != INITIAL && Items(r) == Items(s) && t <= r.frame.end
  {
    StartedInv(c, s, t);
    CutInv(c, Started(s, t), t);
    ReachInv(c, CutTo(c, Started(s, t), t), t);
  }

  lemma AppendItems(s: State, p: Packet)
    ensures Items(s.(frame := Appended(s.frame, p))) == Items(s) + [p]
  {
    ConcatAssoc(Contents(s.sent), s.frame.packets, [p]);
  }

  lemma AddInv(c: Config, s: State, p: Packet)
    requires Inv(c, s) && s != INITIAL && p.h.ts <= s.frame.end
    ensures var r := Add(c, s, p); Inv(c, r) && r != INITIAL && Items(r) == Items(s) + [p]
  {
    assert OpenInput(0);
    if s.frame.packets != [] && TotalSize(s.frame.packets) + p.h.memorySize > c.maxSize {
      EmitInv(c, s, [p]);
      AppendItems(Emit(s), p);
      assert [] + [p] == [p];
      assert Add(c, s, p) == Emit(s).(frame := EmptyFrame(s.frame.end).(packets := [p]));
    } else {
      TotalSizeSnoc(s.frame.packets, p);
      LastInv(c, s, Appended(s.frame, p));
      AppendItems(s, p);
    }
  }

  lemma HandleInv(c: Config, s: State, e: Event)
    requires Inv(c, s)
    ensures Inv(c, Handle(c, s, e))
    ensures Items(Handle(c, s, e)) == Items(s) + if e.Accepted? then [e.packet] else []
  {
    match e
    case Accepted(p) =>
      AdvanceInv(c, s, p.h.ts);
      AddInv(c, AdvanceTo(c, s, p.h.ts), p);
    case Opened(now) => AdvanceInv(c, s, now);
    case CatchUp(now) => if now > s.frame.end + c.grace { AdvanceInv(c, s, now - c.grace); }
  }

  lemma {:induction false} RunInv(c: Config, events: seq<Event>)
    ensures Inv(c, Run(c, INITIAL, events)) && Items(Run(c, INITIAL, events)) == AcceptedPackets(events)
  {
    assert OpenInput(0);
    if events != [] {
      var n := |events| - 1;
      RunInv(c, events[..n]);
      HandleInv(c, Run(c, INITIAL, events[..n]), events[n]);
    }
  }

  /** The frames of a whole input: they carry the accepted packets in order, follow each other
      without gaps, keep the limits on duration and size, are not sent before that without need, and
      end with a single final frame. */
  lemma InputDelivers(c: Config, events: seq<Event>) returns (frames: seq<Frame>, end: int)
    ensures Finish(Run(c, INITIAL, events)) == frames + [FinalFrame(end)]
    ensures Contents(frames) == AcceptedPackets(events)
    ensures Tiled(frames, end, c.maxDuration, c.maxSize) && Snug(frames, c.maxDuration, c.maxSize)
    ensures forall f :: f in frames ==> Regular(f)
  {
    assert OpenInput(0);
    var s := Run(c, INITIAL, events);
    RunInv(c, events);
    assert TotalSize([]) == 0;
    frames, end := Emit(s).sent, s.frame.end;
    ContentsSnoc(s.sent, s.frame);
    TiledSnoc(s.sent, s.frame, c.maxDuration, c.maxSize);
  }

  // ------------------------------------------------ the time reached

  /** The time an event tells; the clock is followed the grace period behind. */
  function EventTime(c: Config, e: Event): int {
    match e
    case Accepted(p) => p.h.ts
    case Opened(now) => now
    case CatchUp(now) => now - c.grace
  }

  /** Where the first frame begins, and how far the last one reaches. */
  function FirstStart(s: State): int { (s.sent + [s.frame])[0].start }

  lemma {:induction false} CutReaches(c: Config, s: State, t: int)
    requires Inv(c, s) && s.frame.start > NO_TIME
    ensures var r := CutTo(c, s, t);
            FirstStart(r) == FirstStart(s) && (r.frame.end == s.frame.end || (s.frame.end <= t && r.frame.end <= t))
    decreases if s.frame.start < t then t - s.frame.start else 0
  {
    LongestInv(c, s);
    if t >= s.frame.start + c.maxDuration {
      var f := s.frame.(end := s.frame.start + c.maxDuration);
      var s1 := Emit(s.(frame := f));
      CutReaches(c, s1, t);
      assert ((s.sent + [f]) + [s1.frame])[0] == (s.sent + [f])[0];
    }
  }

  lemma AdvanceReaches(c: Config, s: State, t: Time)
    requires Inv(c, s)
    ensures var r := AdvanceTo(c, s, t);
            && r.frame.end == (if s.frame.end < t then t else s.frame.end)
            && FirstStart(r) == (if s == INITIAL then t else FirstStart(s))
  {
    var s1 := Started(s, t);
    StartedInv(c, s, t);
    CutReaches(c, s1, t);
    StartsOnce(c, s);
    assert s.sent != [] ==> (s.sent + [s1.frame])[0] == s.sent[0];
    var s2 := CutTo(c, s1, t);
    assert s2.sent != [] ==> (s2.sent + [ReachTo(s2, t).frame])[0] == s2.sent[0];
  }

  lemma StartsOnce(c: Config, s: State)
    requires Inv(c, s)
    ensures s == INITIAL || s.frame.start > NO_TIME
    ensures s == INITIAL <==> s.frame.end == NO_TIME
  {
    assert OpenInput(0);
  }

  lemma AddReaches(c: Config, s: State, p: Packet)
    requires Inv(c, s) && s != INITIAL && p.h.ts <= s.frame.end
    ensures Add(c, s, p).frame.end == s.frame.end && FirstStart(Add(c, s, p)) == FirstStart(s)
  {
    StartsOnce(c, s);
    var r := Add(c, s, p);
    assert r.sent != [] ==> (r.sent + [r.frame])[0] == (s.sent + [s.frame])[0];
  }

  lemma HandleReaches(c: Config, s: State, e: Event)
    requires Inv(c, s)
    ensures var r, t := Handle(c, s, e), EventTime(c, e);
            && r.frame.end == (if s.frame.end < t then t else s.frame.end)
            && FirstStart(r) == (if s == INITIAL && t > NO_TIME then t else FirstStart(s))
  {
    match e
    case Accepted(p) =>
      AdvanceInv(c, s, p.h.ts);
      AdvanceReaches(c, s, p.h.ts);
      AddReaches(c, AdvanceTo(c, s, p.h.ts), p);
    case Opened(now) => AdvanceReaches(c, s, now);
    case CatchUp(now) => if now > s.frame.end + c.grace { AdvanceReaches(c, s, now - c.grace); }
  }

  /** The latest of the times told so far. */
  function LatestTime(c: Config, events: seq<Event>): int {
    if events == [] then NO_TIME
    else
      var before, t := LatestTime(c, events[..|events| - 1]), EventTime(c, events[|events| - 1]);
      if before < t then t else before
  }

  /** The first real time told. */
  function FirstTime(c: Config, events: seq<Event>): int {
    if events == [] then NO_TIME
    else if EventTime(c, events[0]) > NO_TIME then EventTime(c, events[0])
    else FirstTime(c, events[1..])
  }

  lemma {:induction false} FirstTimeSnoc(c: Config, events: seq<Event>, e: Event)
    ensures FirstTime(c, events + [e]) ==
            if FirstTime(c, events) > NO_TIME then FirstTime(c, events)
            else if EventTime(c, e) > NO_TIME then EventTime(c, e) else NO_TIME
    decreases |events|
  {
    if events == [] {
      assert events + [e] == [e] && [e][1..] == [];
    } else {
      assert (events + [e])[1..] == events[1..] + [e];
      FirstTimeSnoc(c, events[1..], e);
    }
  }

  /** The frames begin at the first time told, and reach the latest one, in whatever order the times
      come. */
  lemma {:induction false} InputReaches(c: Config, events: seq<Event>)
    ensures var s := Run(c, INITIAL, events);
            && s.frame.end == LatestTime(c, events) && FirstStart(s) == FirstTime(c, events)
            && (s == INITIAL <==> FirstTime(c, events) <= NO_TIME)
  {
    if events != [] {
      var n := |events| - 1;
      var s := Run(c, INITIAL, events[..n]);
      InputReaches(c, events[..n]);
      RunInv(c, events[..n]);
      StartsOnce(c, s);
      HandleReaches(c, s, events[n]);
      FirstTimeSnoc(c, events[..n], events[n]);
      SplitLast(events);
      HandleInv(c, s, events[n]);
      StartsOnce(c, Handle(c, s, events[n]));
    }
  }

  // ------------------------------------------------ streams in order of time

  predicate InOrder(c: Config, events: seq<Event>) {
    forall i, j :: 0 <= i < j < |events| ==> EventTime(c, events[i]) <= EventTime(c, events[j])
  }

  /** Packets lie in their frames in order, and nothing is later than `now`. */
  ghost predicate Ordered(s: State, now: int) {
    && OrderedFrames(s.sent, NO_TIME) && OrderedPackets(s.frame.packets, s.frame.start, s.frame.end)
    && EndOf(s.sent, NO_TIME) <= s.frame.start
    && (s.frame.end == NO_TIME || s.frame.end <= now)
  }

  lemma EmitOrdered(s: State, now: int)
    requires Ordered(s, now)
    ensures Ordered(Emit(s), now)
  {
    OrderedFramesSnoc(s.sent, NO_TIME, s.frame);
    OrderedPacketsBounds(s.frame.packets, s.frame.start, s.frame.end);
  }

  lemma LongestOrdered(c: Config, s: State, t: int)
    requires Inv(c, s) && s.frame.start > NO_TIME && Ordered(s, t) && s.frame.start + c.maxDuration <= t
    ensures Ordered(Emit(s.(frame := s.frame.(end := s.frame.start + c.maxDuration))), t)
  {
    var s1 := s.(frame := s.frame.(end := s.frame.start + c.maxDuration));
    LongestInv(c, s);
    OrderedPacketsLater(s.frame.packets, s.frame.start, s.frame.end, s1.frame.end);
    EmitOrdered(s1, t);
  }

  lemma {:induction false} CutOrdered(c: Config, s: State, t: int)
    requires Inv(c, s) && s.frame.start > NO_TIME && Ordered(s, t)
    ensures Ordered(CutTo(c, s, t), t)
    decreases if s.frame.start < t then t - s.frame.start else 0
  {
    if t >= s.frame.start + c.maxDuration {
      LongestOrdered(c, s, t);
      LongestInv(c, s);
      CutOrdered(c, Emit(s.(frame := s.frame.(end := s.frame.start + c.maxDuration))), t);
    }
  }

  lemma AdvanceOrdered(c: Config, s: State, now: int, t: Time)
    requires Inv(c, s) && Ordered(s, now) && now <= t
    ensures Ordered(AdvanceTo(c, s, t), t) && AdvanceTo(c, s, t).frame.end == t
  {
    assert OpenInput(0);
    assert TotalSize([]) == 0;
    var s1 := Started(s, t);
    CutOrdered(c, s1, t);
    CutInv(c, s1, t);
    var s2 := CutTo(c, s1, t);
    OrderedPacketsLater(s2.frame.packets, s2.frame.start, s2.frame.end, t);
  }

  lemma AddOrdered(c: Config, s: State, p: Packet)
    requires Ordered(s, p.h.ts) && s.frame.end == p.h.ts
    ensures Ordered(Add(c, s, p), p.h.ts)
  {
    EmitOrdered(s, p.h.ts);
    OrderedPacketsSnoc(s.frame.packets, s.frame.start, s.frame.end, p);
    OrderedPacketsSnoc([], s.frame.end, s.frame.end, p);
  }

  lemma HandleOrdered(c: Config, s: State, now: int, e: Event)
    requires Inv(c, s) && Ordered(s, now) && now <= EventTime(c, e)
    ensures Ordered(Handle(c, s, e), EventTime(c, e))
  {
    match e
    case Accepted(p) =>
      AdvanceOrdered(c, s, now, p.h.ts);
      AddOrdered(c, AdvanceTo(c, s, p.h.ts), p);
    case Opened(t) => AdvanceOrdered(c, s, now, t);
    case CatchUp(t) => if t > s.frame.end + c.grace { AdvanceOrdered(c, s, now, t - c.grace); }
  }

  lemma {:induction false} RunOrdered(c: Config, events: seq<Event>)
    requires InOrder(c, events) && events != []
    ensures Ordered(Run(c, INITIAL, events), EventTime(c, events[|events| - 1]))
  {
    var n := |events| - 1;
    RunInv(c, events[..n]);
    if n == 0 {
      assert events[..n] == [];
      HandleOrdered(c, INITIAL, EventTime(c, events[0]), events[0]);
    } else {
      RunOrdered(c, events[..n]);
      HandleOrdered(c, Run(c, INITIAL, events[..n]), EventTime(c, events[n - 1]), events[n]);
    }
  }

  /** When events come in order of time, every packet lies within its frame, and frames and
      packets are in order throughout. */
  lemma InputOrdered(c: Config, events: seq<Event>)
    requires InOrder(c, events)
    ensures OrderedFrames(Emit(Run(c, INITIAL, events)).sent, NO_TIME)
  {
    var s := Run(c, INITIAL, events);
    if events == [] {
      EmitOrdered(s, NO_TIME);
    } else {
      RunOrdered(c, events);
      EmitOrdered(s, EventTime(c, events[|events| - 1]));
    }
  }
}
