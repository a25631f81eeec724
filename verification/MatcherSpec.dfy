/** The matcher as a state machine over values. Pending requests are found by a plain scan of the
    queue; the matcher thread itself uses a hash table, and is proved to do the same. */
module MatcherSpec {
  import opened Sequences
  import opened Packets
  import opened Frames
  import PacketTable

  datatype RawConfig = Config(window: int, maxDuration: int, maxSize: nat, matchQname: bool)

  type Config = c: RawConfig | c.window > 0 && c.maxDuration > 0 witness Config(1, 1, 0, false)

  /** Before the first frame, running, and after the final frame was sent. */
  datatype Phase = Idle | Running | Done

  /** The matcher's time, the frame being filled, the packets of the time window in arrival order,
      the responses hung on requests, and all frames sent. */
  datatype State = State(phase: Phase, now: int, out: Frame, queue: seq<Packet>, resp: map<Packet, Packet>,
                         sent: seq<Frame>)

  const INITIAL := State(Idle, NO_TIME, EmptyFrame(NO_TIME), [], map[], [])

  // ------------------------------------------------ time

  function Emit(s: State): State {
    s.(sent := s.sent + [s.out], out := EmptyFrame(s.out.end))
  }

  /** When the frame being filled has to leave. */
  function FrameDue(c: Config, s: State): int {
    s.out.start + c.maxDuration + c.window
  }

  function NextEvent(c: Config, s: State): int {
    if s.queue != [] && s.queue[0].h.ts + c.window < FrameDue(c, s) then s.queue[0].h.ts + c.window else FrameDue(c, s)
  }

  /** The oldest packet leaves the window. */
  function Evict(c: Config, s: State): State
    requires s.queue != []
  {
    var p := s.queue[0];
    var s1 := if TotalSize(s.out.packets) + p.h.memorySize > c.maxSize then Emit(s) else s;
    s1.(queue := s.queue[1..], out := Appended(s1.out, p))
  }

  /** One event on the way to time `t`. */
  function Tick(c: Config, s: State, t: int): (r: State)
    requires s.out.start <= s.out.end
    ensures r.out.start <= r.out.end
  {
    var ev := NextEvent(c, s);
    if ev > t then s.(now := t)
    else if ev == FrameDue(c, s) then Emit(s.(out := s.out.(end := ev - c.window), now := ev))
    else Evict(c, s).(now := ev)
  }

  function Left(s: State, t: int): nat {
    if s.out.start < t then t - s.out.start else 0
  }

  /** All events up to time `t`. The time may step back on the way, when packets came out of order. */
  function AdvanceTo(c: Config, s: State, t: int): (r: State)
    requires s.out.start <= s.out.end
    ensures r.out.start <= r.out.end
    decreases |s.queue|, Left(s, t), if s.now < t then 1 else 0
  {
    if s.now >= t then s else AdvanceTo(c, Tick(c, s, t), t)
  }

  // ------------------------------------------------ packets

  predicate IsPending(p: Packet, resp: map<Packet, Packet>, k: Key) {
    !p.h.isResponse && p !in resp && KeyOf(p.h) == k
  }

  /** The queued requests with key `k` that have no response yet, newest first. */
  function Pending(queue: seq<Packet>, resp: map<Packet, Packet>, k: Key): seq<Packet> {
    if queue == [] then []
    else Pending(queue[1..], resp, k) + if IsPending(queue[0], resp, k) then [queue[0]] else []
  }

  /** The request a response is given. */
  function Choice(c: Config, s: State, r: Packet): (req: Packet?) {
    PacketTable.Scan(Pending(s.queue, s.resp, KeyOf(r.h)), r, c.matchQname, PacketTable.MAX_SEARCH + 1)
  }

  function Accept(c: Config, s: State, p: Packet): State {
    if !p.h.isResponse || Choice(c, s, p) == null then s.(queue := s.queue + [p])
    else s.(resp := s.resp[Choice(c, s, p) := p])
  }

  // ------------------------------------------------ runs

  /** What the matcher does with its input, step by step. */
  datatype Op = Begin(time: int) | Advance(time: int) | Take(packet: Packet) | Drain | Flush

  function Perform(c: Config, s: State, op: Op): (r: State)
    requires s.out.start <= s.out.end
    ensures r.out.start <= r.out.end
  {
    match op
    case Begin(t) => if s.phase.Idle? then s.(phase := Running, now := t, out := EmptyFrame(t)) else s
    case Advance(t) => AdvanceTo(c, s, t)
    case Take(p) => Accept(c, s, p)
    case Drain => if s.phase.Running? then AdvanceTo(c, s, s.now + c.window + 1) else s
    case Flush =>
      var last := if s.phase.Running? then [s.out] else [];
      s.(phase := Done, sent := s.sent + last + [FinalFrame(s.now)])
  }

  function PacketOps(packets: seq<Packet>): seq<Op> {
    if packets == [] then [] else [Advance(packets[0].h.ts), Take(packets[0])] + PacketOps(packets[1..])
  }

  /** A frame with neither packets nor a time is skipped. */
  function FrameOps(f: Frame): seq<Op> {
    if f.packets == [] && f.start == NO_TIME then []
    else [Begin(f.start), Advance(f.start)] + PacketOps(f.packets) + [Advance(f.end)]
  }

  function Program(frames: seq<Frame>): seq<Op> {
    if frames == [] then [Drain, Flush] else FrameOps(frames[0]) + Program(frames[1..])
  }

  function Run(c: Config, s: State, ops: seq<Op>): (r: State)
    requires s.out.start <= s.out.end
    ensures r.out.start <= r.out.end
    decreases |ops|
  {
    if ops == [] then s else Run(c, Perform(c, s, ops[0]), ops[1..])
  }

  lemma {:induction false} RunConcat(c: Config, s: State, a: seq<Op>, b: seq<Op>)
    requires s.out.start <= s.out.end
    ensures Run(c, s, a + b) == Run(c, Run(c, s, a), b)
    decreases |a|
  {
    if a == [] {
      assert a + b == b;
    } else {
      assert (a + b)[1..] == a[1..] + b;
      RunConcat(c, Perform(c, s, a[0]), a[1..], b);
    }
  }

  lemma RunOne(c: Config, s: State, op: Op)
    requires s.out.start <= s.out.end
    ensures Run(c, s, [op]) == Perform(c, s, op)
  {
    assert [op][1..] == [];
  }

  lemma RunTwo(c: Config, s: State, a: Op, b: Op)
    requires s.out.start <= s.out.end
    ensures Run(c, s, [a, b]) == Perform(c, Perform(c, s, a), b)
  {
    RunOne(c, Perform(c, s, a), b);
    assert [a, b][1..] == [b];
  }

  lemma RunSnoc(c: Config, s: State, ops: seq<Op>, op: Op)
    requires s.out.start <= s.out.end
    ensures Run(c, s, ops + [op]) == Perform(c, Run(c, s, ops), op)
  {
    RunConcat(c, s, ops, [op]);
    RunOne(c, Run(c, s, ops), op);
  }

  /** What a frame makes the matcher do, step by step. */
  lemma RunFrame(c: Config, s: State, f: Frame)
    requires s.out.start <= s.out.end && !(f.packets == [] && f.start == NO_TIME)
    ensures Run(c, s, FrameOps(f)) ==
            Perform(c, Run(c, Perform(c, Perform(c, s, Begin(f.start)), Advance(f.start)), PacketOps(f.packets)),
                    Advance(f.end))
  {
    RunTwo(c, s, Begin(f.start), Advance(f.start));
    RunConcat(c, s, [Begin(f.start), Advance(f.start)], PacketOps(f.packets));
    RunSnoc(c, s, [Begin(f.start), Advance(f.start)] + PacketOps(f.packets), Advance(f.end));
  }

  /** The packets a program takes, in order. */
  function Taken(ops: seq<Op>): seq<Packet> {
    if ops == [] then [] else (if ops[0].Take? then [ops[0].packet] else []) + Taken(ops[1..])
  }

  lemma {:induction false} TakenConcat(a: seq<Op>, b: seq<Op>)
    ensures Taken(a + b) == Taken(a) + Taken(b)
  {
    if a == [] {
      assert a + b == b;
    } else {
      assert (a + b)[1..] == a[1..] + b;
      TakenConcat(a[1..], b);
      ConcatAssoc(if a[0].Take? then [a[0].packet] else [], Taken(a[1..]), Taken(b));
    }
  }

  lemma {:induction false} TakenPacketOps(packets: seq<Packet>)
    ensures Taken(PacketOps(packets)) == packets
  {
    if packets != [] {
      TakenPacketOps(packets[1..]);
      TakenConcat([Advance(packets[0].h.ts), Take(packets[0])], PacketOps(packets[1..]));
      assert [Advance(packets[0].h.ts), Take(packets[0])][1..] == [Take(packets[0])];
      assert [Take(packets[0])][1..] == [];
    }
  }

  lemma TakenFrameOps(f: Frame)
    ensures Taken(FrameOps(f)) == f.packets
  {
    if !(f.packets == [] && f.start == NO_TIME) {
      TakenPacketOps(f.packets);
      TakenConcat([Begin(f.start), Advance(f.start)] + PacketOps(f.packets), [Advance(f.end)]);
      TakenConcat([Begin(f.start), Advance(f.start)], PacketOps(f.packets));
    }
  }

  /** A program takes the packets of its frames, in order. */
  lemma {:induction false} TakenProgram(frames: seq<Frame>)
    ensures Taken(Program(frames)) == Contents(frames)
  {
    if frames == [] {
      assert Program(frames)[1..] == [Flush] && [Flush][1..] == [];
    } else {
      TakenProgram(frames[1..]);
      TakenFrameOps(frames[0]);
      TakenConcat(FrameOps(frames[0]), Program(frames[1..]));
      ContentsFirst(frames);
    }
  }
}
