/** The matcher one operation, and one event, at a time: what it keeps while frames are still to
    come, and that it never touches again what it has sent. */
module MatcherSteps {
  import opened Sequences
  import opened Packets
  import opened Frames
  import opened MatcherSpec
  import opened MatcherLaws

  function OpsFor(f: Frame): seq<Op> {
    if f.final then [Drain, Flush] else FrameOps(f)
  }

  function OpsOf(frames: seq<Frame>): seq<Op> {
    if frames == [] then [] else OpsFor(frames[0]) + OpsOf(frames[1..])
  }

  lemma {:induction false} OpsOfProgram(frames: seq<Frame>, end: int)
    requires forall f :: f in frames ==> !f.final
    ensures OpsOf(frames + [FinalFrame(end)]) == Program(frames)
  {
    if frames == [] {
      assert frames + [FinalFrame(end)] == [FinalFrame(end)] && [FinalFrame(end)][1..] == [];
    } else {
      assert (frames + [FinalFrame(end)])[1..] == frames[1..] + [FinalFrame(end)];
      OpsOfProgram(frames[1..], end);
    }
  }

  lemma OpsOfLast(frames: seq<Frame>)
    requires frames != [] && frames[|frames| - 1].final
    ensures OpsOf(frames) != []
    decreases |frames|
  {
    if |frames| > 1 {
      assert frames[1..][|frames| - 2] == frames[|frames| - 1];
      OpsOfLast(frames[1..]);
    } else {
      assert frames == [frames[0]];
    }
  }

  /** The operations end with the only flush among them. */
  ghost predicate EndsOnce(ops: seq<Op>) {
    ops != [] && if ops[0].Flush? then |ops| == 1 else EndsOnce(ops[1..])
  }

  lemma {:induction false} EndsOncePacketOps(packets: seq<Packet>, ops: seq<Op>)
    requires EndsOnce(ops)
    ensures EndsOnce(PacketOps(packets) + ops)
    decreases |packets|
  {
    if packets == [] {
      assert PacketOps(packets) + ops == ops;
    } else {
      EndsOncePacketOps(packets[1..], ops);
      var p, rest := packets[0], PacketOps(packets[1..]) + ops;
      ConcatAssoc([Advance(p.h.ts), Take(p)], PacketOps(packets[1..]), ops);
      assert ([Advance(p.h.ts), Take(p)] + rest)[1..] == [Take(p)] + rest;
      assert ([Take(p)] + rest)[1..] == rest;
    }
  }

  lemma EndsOnceFrameOps(f: Frame, ops: seq<Op>)
    requires EndsOnce(ops)
    ensures EndsOnce(FrameOps(f) + ops)
  {
    if f.packets == [] && f.start == NO_TIME {
      assert FrameOps(f) + ops == ops;
    } else {
      var a, b := [Advance(f.end)] + ops, PacketOps(f.packets) + ([Advance(f.end)] + ops);
      assert a[1..] == ops;
      EndsOncePacketOps(f.packets, a);
      assert ([Advance(f.start)] + b)[1..] == b;
      assert ([Begin(f.start)] + ([Advance(f.start)] + b))[1..] == [Advance(f.start)] + b;
      assert FrameOps(f) + ops == [Begin(f.start)] + ([Advance(f.start)] + b);
    }
  }

  lemma {:induction false} EndsOnceProgram(frames: seq<Frame>)
    ensures EndsOnce(Program(frames))
  {
    if frames == [] {
      assert [Drain, Flush][1..] == [Flush];
    } else {
      EndsOnceProgram(frames[1..]);
      EndsOnceFrameOps(frames[0], Program(frames[1..]));
    }
  }

  /** What may come before the first frame with a time. */
  ghost predicate Opening(ops: seq<Op>) {
    ops != [] && (ops[0].Begin? || ops == [Drain, Flush] || ops == [Flush])
  }

  lemma {:induction false} OpeningProgram(frames: seq<Frame>)
    ensures Opening(Program(frames))
  {
    if frames != [] {
      OpeningProgram(frames[1..]);
      if frames[0].packets == [] && frames[0].start == NO_TIME {
        assert FrameOps(frames[0]) + Program(frames[1..]) == Program(frames[1..]);
      }
    }
  }

  /** A finished stream: its last frame, and no other, is final, and that one is empty. */
  ghost predicate Finished(sent: seq<Frame>) {
    && sent != [] && sent[|sent| - 1].final && sent[|sent| - 1].packets == []
    && (forall f :: f in sent[..|sent| - 1] ==> !f.final)
  }

  /** A matcher with the operations `rest` still to perform. */
  ghost predicate Steady(c: Config, m: State, rest: seq<Op>) {
    if m.phase.Done? then rest == [] && Finished(m.sent)
    else
      && EndsOnce(rest) && Framed(c, m)
      && NoDuplicates(Items(m) + Taken(rest))
      && (m.phase.Idle? ==> m.sent == [] && m.out.packets == [] && m.queue == [] && Opening(rest))
  }

  lemma FinalIsEmpty(c: Config, m: State, rest: seq<Op>, f: Frame)
    requires Steady(c, m, rest) && f in m.sent && f.final
    ensures f.packets == []
  {
    if m.phase.Done? {
      assert m.sent == m.sent[..|m.sent| - 1] + [m.sent[|m.sent| - 1]];
    } else {
      TiledMeans(m.sent, m.out.start, c.maxDuration, c.maxSize);
    }
  }

  lemma SteadyBegin(c: Config, frames: seq<Frame>)
    requires NoDuplicates(Contents(frames))
    ensures Steady(c, INITIAL, Program(frames))
  {
    EndsOnceProgram(frames);
    OpeningProgram(frames);
    TakenProgram(frames);
    assert TotalSize([]) == 0;
    assert Items(INITIAL) + Taken(Program(frames)) == Contents(frames);
  }

  /** What was sent before keeps its responses. */
  ghost predicate Frozen(m: State, m': State) {
    forall q :: q in Contents(m.sent) ==> (q in m'.resp <==> q in m.resp) && (q in m.resp ==> m'.resp[q] == m.resp[q])
  }

  lemma {:induction false} AdvanceSent(c: Config, s: State, t: int)
    requires s.out.start <= s.out.end
    ensures s.sent <= AdvanceTo(c, s, t).sent
    decreases |s.queue|, Left(s, t), if s.now < t then 1 else 0
  {
    if s.now < t { AdvanceSent(c, Tick(c, s, t), t); }
  }

  lemma AdvanceStep(c: Config, m: State, t: int, rest: seq<Op>)
    requires Framed(c, m) && m.phase.Running? && EndsOnce(rest) && NoDuplicates(Items(m) + Taken(rest))
    ensures m.out.start <= m.out.end
    ensures var r := AdvanceTo(c, m, t); Steady(c, r, rest) && m.sent <= r.sent && Frozen(m, r)
  {
    AdvanceFramed(c, m, t);
    AdvanceSent(c, m, t);
  }

  lemma NoDuplicatesDrop(a: seq<Packet>, p: Packet, b: seq<Packet>)
    requires NoDuplicates(a + ([p] + b))
    ensures NoDuplicates(a + b) && NoDuplicates((a + [p]) + b) && NoDuplicates(a)
  {
    var s := a + ([p] + b);
    assert (a + [p]) + b == s;
    assert a == s[..|a|];
    forall i, j | 0 <= i < j < |a + b| ensures (a + b)[i] != (a + b)[j] {
      assert (a + b)[i] == s[if i < |a| then i else i + 1] && (a + b)[j] == s[if j < |a| then j else j + 1];
    }
  }

  lemma QueuedNotSent(m: State, q: Packet)
    requires NoDuplicates(Items(m)) && q in m.queue
    ensures q !in Contents(m.sent)
  {
    var items, n := Items(m), |Contents(m.sent) + m.out.packets|;
    var j :| 0 <= j < |m.queue| && m.queue[j] == q;
    assert items[n + j] == q;
    assert forall i :: 0 <= i < |Contents(m.sent)| ==> Contents(m.sent)[i] == items[i];
  }

  lemma TakeStep(c: Config, m: State, p: Packet, rest: seq<Op>)
    requires Framed(c, m) && m.phase.Running? && EndsOnce(rest) && NoDuplicates(Items(m) + ([p] + Taken(rest)))
    ensures var r := Accept(c, m, p); Steady(c, r, rest) && m.sent <= r.sent && Frozen(m, r)
  {
    NoDuplicatesDrop(Items(m), p, Taken(rest));
    ChoicePending(c, m, p);
    var q := Choice(c, m, p);
    if !p.h.isResponse || q == null {
      assert Items(m.(queue := m.queue + [p])) == Items(m) + [p];
    } else {
      QueuedNotSent(m, q);
      assert Items(m.(resp := m.resp[q := p])) == Items(m);
    }
  }

  lemma FlushStep(c: Config, m: State)
    requires Framed(c, m) && (m.phase.Running? || (m.phase.Idle? && m.sent == []))
    ensures m.out.start <= m.out.end
    ensures var r := Perform(c, m, Flush); Steady(c, r, []) && m.sent <= r.sent && Frozen(m, r)
  {
    var r := Perform(c, m, Flush);
    TiledMeans(m.sent, m.out.start, c.maxDuration, c.maxSize);
    var body := m.sent + if m.phase.Running? then [m.out] else [];
    assert r.sent == body + [FinalFrame(m.now)] && r.sent[..|r.sent| - 1] == body;
  }

  /** Every operation keeps the matcher steady, only adds to what it has sent, and leaves the
      responses of everything already sent alone. */
  lemma OpStep(c: Config, m: State, rest: seq<Op>)
    requires Steady(c, m, rest) && rest != []
    ensures m.out.start <= m.out.end
    ensures var r := Perform(c, m, rest[0]); Steady(c, r, rest[1..]) && m.sent <= r.sent && Frozen(m, r)
  {
    assert TotalSize([]) == 0;
    assert [] + Taken(rest[1..]) == Taken(rest[1..]);
    match rest[0]
    case Begin(t) =>
    case Advance(t) => AdvanceStep(c, m, t, rest[1..]);
    case Take(p) => TakeStep(c, m, p, rest[1..]);
    case Drain => if m.phase.Running? { AdvanceStep(c, m, m.now + c.window + 1, rest[1..]); }
    case Flush => FlushStep(c, m); assert rest[1..] == [];
  }

  /** So what was sent at any time is final: the whole run only adds to it. */
  lemma {:induction false} StepsFrozen(c: Config, m: State, rest: seq<Op>)
    requires Steady(c, m, rest) && m.out.start <= m.out.end
    ensures var r := Run(c, m, rest); Steady(c, r, []) && m.sent <= r.sent && Frozen(m, r)
    decreases |rest|
  {
    if rest != [] {
      var m1 := Perform(c, m, rest[0]);
      OpStep(c, m, rest);
      StepsFrozen(c, m1, rest[1..]);
      FrozenTwice(m, m1, Run(c, m, rest));
    }
  }

  lemma FrozenTwice(m: State, m1: State, m2: State)
    requires m.sent <= m1.sent && Frozen(m, m1) && Frozen(m1, m2)
    ensures Frozen(m, m2)
  {
    ContentsConcat(m.sent, m1.sent[|m.sent|..]);
    assert m1.sent == m.sent + m1.sent[|m.sent|..];
  }

  // ------------------------------------------------ event by event

  /** The state and the operations left after the smallest step: one event on the way to a time, or
      an operation that has no events. */
  datatype Micro = Micro(state: State, ops: seq<Op>)

  function MicroStep(c: Config, m: State, ops: seq<Op>): (r: Micro)
    requires ops != [] && m.out.start <= m.out.end
    ensures r.state.out.start <= r.state.out.end
  {
    match ops[0]
    case Advance(t) => if m.now < t then Micro(Tick(c, m, t), ops) else Micro(m, ops[1..])
    case Drain =>
      if m.phase.Running? then Micro(m, [Advance(m.now + c.window + 1)] + ops[1..]) else Micro(m, ops[1..])
    case op => Micro(Perform(c, m, op), ops[1..])
  }

  /** The operations behind the first one do not matter to a step. */
  lemma MicroConcat(c: Config, m: State, ops: seq<Op>, more: seq<Op>)
    requires ops != [] && m.out.start <= m.out.end
    ensures MicroStep(c, m, ops + more) == Micro(MicroStep(c, m, ops).state, MicroStep(c, m, ops).ops + more)
  {
    assert (ops + more)[0] == ops[0] && (ops + more)[1..] == ops[1..] + more;
    ConcatAssoc([Advance(m.now + c.window + 1)], ops[1..], more);
  }

  lemma MicroRun(c: Config, m: State, ops: seq<Op>)
    requires ops != [] && m.out.start <= m.out.end
    ensures Run(c, MicroStep(c, m, ops).state, MicroStep(c, m, ops).ops) == Run(c, m, ops)
  {
    var r := MicroStep(c, m, ops);
    if ops[0].Drain? && m.phase.Running? { assert r.ops[1..] == ops[1..]; }
  }

  lemma TickStep(c: Config, m: State, t: int, rest: seq<Op>)
    requires Steady(c, m, rest) && m.phase.Running? && m.now < t
    ensures m.out.start <= m.out.end
    ensures var r := Tick(c, m, t); Steady(c, r, rest) && m.sent <= r.sent && Frozen(m, r)
  {
    TickFramed(c, m, t);
  }

  lemma DrainStep(c: Config, m: State, rest: seq<Op>)
    requires Steady(c, m, rest) && m.phase.Running? && rest != [] && rest[0].Drain?
    ensures Steady(c, m, [Advance(m.now + c.window + 1)] + rest[1..])
  {
    var after := [Advance(m.now + c.window + 1)] + rest[1..];
    assert after[1..] == rest[1..];
  }

  /** Every smallest step keeps the matcher steady, only adds to what it has sent, and leaves the
      responses of everything already sent alone. */
  lemma MicroSteady(c: Config, m: State, rest: seq<Op>)
    requires Steady(c, m, rest) && rest != []
    ensures m.out.start <= m.out.end
    ensures var r := MicroStep(c, m, rest); Steady(c, r.state, r.ops) && m.sent <= r.state.sent && Frozen(m, r.state)
  {
    OpStep(c, m, rest);
    if rest[0].Advance? && m.now < rest[0].time {
      TickStep(c, m, rest[0].time, rest);
    } else if rest[0].Drain? && m.phase.Running? {
      DrainStep(c, m, rest);
    }
  }

  /** How many smallest steps an advance takes. */
  function Ticks(c: Config, m: State, t: int): nat
    requires m.out.start <= m.out.end
    decreases |m.queue|, Left(m, t), if m.now < t then 1 else 0
  {
    if m.now >= t then 1 else 1 + Ticks(c, Tick(c, m, t), t)
  }

  function OpSteps(c: Config, m: State, op: Op): nat
    requires m.out.start <= m.out.end
  {
    match op
    case Advance(t) => Ticks(c, m, t)
    case Drain => if m.phase.Running? then 1 + Ticks(c, m, m.now + c.window + 1) else 1
    case _ => 1
  }

  /** How many smallest steps a sequence of operations takes. */
  function MicroSteps(c: Config, m: State, ops: seq<Op>): nat
    decreases |ops|
  {
    if ops == [] || m.out.start > m.out.end then |ops|
    else OpSteps(c, m, ops[0]) + MicroSteps(c, Perform(c, m, ops[0]), ops[1..])
  }

  lemma MicroStepsLeft(c: Config, m: State, ops: seq<Op>)
    requires ops != [] && m.out.start <= m.out.end
    ensures MicroSteps(c, MicroStep(c, m, ops).state, MicroStep(c, m, ops).ops) == MicroSteps(c, m, ops) - 1
  {
    var r := MicroStep(c, m, ops);
    if ops[0].Drain? && m.phase.Running? { assert r.ops[1..] == ops[1..]; }
  }
}
