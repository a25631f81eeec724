/** The matcher thread: it follows MatcherSpec, but finds pending requests through the hash table. */
module MatcherThread {
  import opened Sequences
  import opened Packets
  import opened Frames
  import opened MatcherSpec
  import opened MatcherLaws
  import opened Window

  const MIN_HASH_SIZE := 1024

  /** The frame whose packets are being read, if any. */
  datatype Inframe = Nothing | Loaded(frame: Frame)

  /** The frames before the first final one. */
  function Regulars(frames: seq<Frame>): seq<Frame> {
    if frames == [] || frames[0].final then [] else [frames[0]] + Regulars(frames[1..])
  }

  predicate HasFinal(frames: seq<Frame>) {
    frames != [] && (frames[0].final || HasFinal(frames[1..]))
  }

  /** The thread's invariant is only looked at where a proof mentions this seal. */
  ghost predicate OpenThread(x: int) { true }

  /** The same for the state of the main loop. */
  ghost predicate OpenLoop(x: int) { true }

  class Matcher {
    const c: Config

    /** What the input queue has yet to deliver, and what was put into the output queue. */
    var input: seq<Frame>
    var output: seq<Frame>

    var inframe: Inframe

    /** The frame being filled; there is none before the first input frame. */
    var started: bool
    const outframe: PacketFrame

    var now: int
    const window: Window

    /** All steps done so far. */
    ghost var done: seq<Op>

    ghost function View(): State
      reads `now, `started, `output, outframe, window`queue, window`resp
    {
      State(if started then Running else Idle, now, if started then outframe.View() else EmptyFrame(NO_TIME),
            window.queue, window.resp, output)
    }

    ghost predicate Filling()
      reads `started, `now, outframe
    {
      && started && now > NO_TIME && outframe.Valid()
      && NO_TIME < outframe.timeStart <= outframe.timeEnd <= outframe.timeStart + c.maxDuration
    }

    constructor (c: Config, input: seq<Frame>, seed: uint64)
      requires seed > 0x100
      ensures this.c == c && this.input == input && inframe.Nothing? && View() == INITIAL && done == []
      ensures fresh(outframe) && outframe.Valid()
      ensures fresh(window) && fresh(window.table) && fresh(window.table.data) && window.Valid() && window.seen == {}
    {
      this.c, this.input, output := c, input, [];
      inframe, started, now, done := Nothing, false, NO_TIME, [];
      outframe := new PacketFrame(NO_TIME, NO_TIME);
      window := new Window(MIN_HASH_SIZE, seed);
    }

    /** Send the frame being filled and start the next where it ends. */
    method OutputFrame()
      requires started && outframe.Valid()
      modifies `output, outframe
      ensures outframe.Valid() && View() == Emit(old(View()))
    {
      var f := outframe.HandOver(outframe.timeEnd);
      output := output + [f];
    }

    /** Send the frame before it gets too long. */
    method EndFrame()
      requires Filling()
      modifies `now, `output, outframe
      ensures Filling()
      ensures var s := old(View()); var due := FrameDue(c, s);
              View() == Emit(s.(out := s.out.(end := due - c.window), now := due))
    {
      now := outframe.timeStart + c.maxDuration + c.window;
      assert outframe.timeEnd <= now - c.window;
      outframe.timeEnd := now - c.window;
      OutputFrame();
    }

    /** The oldest packet leaves the window; a frame is sent only if the packet does not fit in. */
    method Evict()
      requires Filling() && window.Valid() && window.queue != []
      requires window.queue[0].h.ts < outframe.timeStart + c.maxDuration
      modifies `output, outframe, window`queue, window.table, window.table.data
      ensures Filling() && window.Valid() && (window.table.data == old(window.table.data) || fresh(window.table.data))
      ensures View() == MatcherSpec.Evict(c, old(View()))
      ensures var fits := old(TotalSize(outframe.packets)) + old(window.queue[0]).h.memorySize <= c.maxSize;
              output == (if fits then old(output) else old(output) + [old(outframe.View())])
    {
      MakeRoom(window.queue[0].h.memorySize);
      var p := window.Dequeue();
      AppendOut(p);
    }

    method AppendOut(p: Packet)
      requires Filling() && p.h.ts < outframe.timeStart + c.maxDuration
      modifies outframe
      ensures Filling() && View() == old(View()).(out := Appended(old(View()).out, p))
    {
      outframe.Append(p);
    }

    /** Send the frame if another packet of the given size would make it too large. */
    method MakeRoom(size: nat)
      requires Filling()
      modifies `output, outframe
      ensures Filling() && old(outframe.timeStart) <= outframe.timeStart
      ensures View() == if TotalSize(old(View()).out.packets) + size > c.maxSize then Emit(old(View())) else old(View())
    {
      if outframe.size + size > c.maxSize {
        OutputFrame();
      }
    }

    /** The next event on the way to time `t`: a packet leaves, a frame ends, or `t` is reached. */
    method Step(t: int)
      requires Filling() && window.Valid() && now < t
      modifies `now, `output, outframe, window`queue, window.table, window.table.data
      ensures Filling() && window.Valid() && (window.table.data == old(window.table.data) || fresh(window.table.data))
      ensures View() == Tick(c, old(View()), t)
    {
      ghost var s := View();
      var due := outframe.timeStart + c.maxDuration + c.window;
      var ev := due;
      if window.queue != [] && window.queue[0].h.ts + c.window < ev {
        ev := window.queue[0].h.ts + c.window;
      }
      assert ev == NextEvent(c, s) && due == FrameDue(c, s);
      if ev > t {
        now := t;
      } else if ev == due {
        EndFrame();
      } else {
        Evict();
        now := ev;
        assert View() == MatcherSpec.Evict(c, s).(now := ev);
      }
    }

    /** Advance the time, sending what has to leave before it. */
    method AdvanceTime(t: int)
      requires Filling() && window.Valid() && t > NO_TIME
      modifies `now, `output, outframe, window`queue, window.table, window.table.data
      ensures Filling() && window.Valid() && (window.table.data == old(window.table.data) || fresh(window.table.data))
      ensures View() == AdvanceTo(c, old(View()), t)
    {
      if t < now - 1000 {
        return;
      }
      while now < t
        invariant Filling() && window.Valid() &&
                  (window.table.data == old(window.table.data) || fresh(window.table.data))
        invariant AdvanceTo(c, View(), t) == AdvanceTo(c, old(View()), t)
        decreases |window.queue|, Left(View(), t), if now < t then 1 else 0
      {
        Step(t);
      }
    }

    /** Queue a request, hang a response on its request, or queue it when there is none. */
    method Accept(p: Packet)
      requires window.Valid() && p !in window.seen && p.response == null
      modifies window, window.table, window.table.data, window.seen`response
      ensures window.Valid() && window.seen == old(window.seen) + {p}
      ensures window.table.data == old(window.table.data) || fresh(window.table.data)
      ensures View() == MatcherSpec.Accept(c, old(View()), p)
    {
      if !p.h.isResponse {
        window.EnqueueRequest(p);
      } else {
        var found := window.Answer(p, c.matchQname);
        if !found {
          window.EnqueueResponse(p);
        }
      }
    }

    // ---------------------------------------------- the program

    /** The steps done lead to the present state. */
    ghost predicate Traced()
      reads `now, `started, `output, `done, outframe, window`queue, window`resp
    {
      View() == Run(c, INITIAL, done)
    }

    /** What is left to do with the frame being read and the frames to come. */
    ghost function Remaining(): seq<Op>
      reads `inframe, `input
    {
      if inframe.Loaded? then
        (PacketOps(inframe.frame.packets) + [Advance(inframe.frame.end)]) + Program(Regulars(input))
      else Program(Regulars(input))
    }

    /** Packets still to come in. */
    ghost function Coming(): seq<Packet>
      reads `inframe, `input
    {
      if inframe.Loaded? then inframe.frame.packets + Contents(Regulars(input)) else Contents(Regulars(input))
    }

    /** Before the first frame, or filling one. */
    ghost predicate Ready()
      reads `started, `now, outframe, window, window.table, window.table.data, window.seen`response
    {
      outframe.Valid() && window.Valid() && if started then Filling() else now == NO_TIME
    }

    /** The input will end, and has a time on every frame with packets. */
    ghost predicate Feeding()
      reads `input, `inframe, `started
    {
      && HasFinal(input) && (forall f :: f in Regulars(input) ==> Regular(f))
      && (inframe.Loaded? ==> started && inframe.frame.end > NO_TIME)
    }

    /** All of this, under the seal. */
    ghost predicate Steady()
      reads this, outframe, window, window.table, window.table.data, window.seen`response
    {
      forall x :: OpenThread(x) ==> Ready() && Traced() && Feeding()
    }

    method Go(t: int)
      requires Filling() && window.Valid() && Traced() && t > NO_TIME
      modifies `now, `output, `done, outframe, window`queue, window.table, window.table.data
      ensures Filling() && window.Valid() && Traced() && done == old(done) + [Advance(t)]
      ensures window.table.data == old(window.table.data) || fresh(window.table.data)
    {
      RunSnoc(c, INITIAL, done, Advance(t));
      AdvanceTime(t);
      done := done + [Advance(t)];
    }

    /** Create the output frame if there is none yet, and go to the start of the input frame. */
    method OpenFrame(t: int)
      requires Ready() && Traced() && t > NO_TIME
      modifies `started, `now, `output, `done, outframe, window`queue, window.table, window.table.data
      ensures Filling() && window.Valid() && Traced() && done == old(done) + [Begin(t), Advance(t)]
      ensures window.table.data == old(window.table.data) || fresh(window.table.data)
    {
      RunSnoc(c, INITIAL, done, Begin(t));
      if !started {
        var _ := outframe.HandOver(t);
        started, now := true, t;
      }
      done := done + [Begin(t)];
      assert old(done) + [Begin(t), Advance(t)] == done + [Advance(t)];
      Go(t);
    }

    /** Take frames from the input until one is final, or has packets or a time. */
    method NextFrame() returns (f: Frame)
      requires HasFinal(input) && forall f :: f in Regulars(input) ==> Regular(f)
      modifies `input
      ensures |input| < |old(input)|
      ensures f.final ==> Program(Regulars(old(input))) == [Drain, Flush] && Contents(Regulars(old(input))) == []
      ensures !f.final ==> && HasFinal(input) && (forall f :: f in Regulars(input) ==> Regular(f))
                           && Regular(f) && !(f.packets == [] && f.start == NO_TIME)
                           && Program(Regulars(old(input))) == Program([f] + Regulars(input))
                           && Contents(Regulars(old(input))) == f.packets + Contents(Regulars(input))
    {
      while true
        invariant HasFinal(input) && (forall f :: f in Regulars(input) ==> Regular(f)) && |input| <= |old(input)|
        invariant Program(Regulars(input)) == Program(Regulars(old(input)))
        invariant Contents(Regulars(input)) == Contents(Regulars(old(input)))
        decreases |input|
      {
        f := input[0];
        ghost var regulars := Regulars(input);
        input := input[1..];
        if f.final {
          return;
        }
        assert regulars == [f] + Regulars(input) && regulars[1..] == Regulars(input);
        ContentsFirst(regulars);
        if !(f.packets == [] && f.start == NO_TIME) {
          return;
        }
      }
    }

    /** Load the next frame that has packets or a time, or tell that the final one was reached. */
    method LoadFrame() returns (more: bool)
      requires Steady() && inframe.Nothing?
      modifies `input, `inframe, `started, `now, `output, `done, outframe, window`queue, window.table, window.table.data
      ensures window.table.data == old(window.table.data) || fresh(window.table.data)
      ensures |input| < |old(input)|
      ensures more ==> Steady() && inframe.Loaded?
      ensures more ==> done + Remaining() == old(done) + old(Remaining()) && Coming() == old(Coming())
      ensures !more ==>
              Ready() && Traced() && done == old(done) && old(Remaining()) == [Drain, Flush] && old(Coming()) == []
    {
      assert OpenThread(0);
      var f := NextFrame();
      more := !f.final;
      if more {
        BeginFrame(f);
      }
    }

    /** Have a frame to read, if there is one. */
    method EnsureFrame() returns (more: bool)
      requires Steady()
      modifies `input, `inframe, `started, `now, `output, `done, outframe, window`queue, window.table, window.table.data
      ensures window.table.data == old(window.table.data) || fresh(window.table.data)
      ensures if old(inframe).Loaded? then more && input == old(input) && inframe == old(inframe)
              else |input| < |old(input)|
      ensures more ==> Steady() && inframe.Loaded?
      ensures more ==> done + Remaining() == old(done) + old(Remaining()) && Coming() == old(Coming())
      ensures !more ==>
              Ready() && Traced() && done == old(done) && old(Remaining()) == [Drain, Flush] && old(Coming()) == []
    {
      more := true;
      if inframe.Nothing? {
        more := LoadFrame();
      }
    }

    /** Go to the start of a frame and begin to read it. */
    method BeginFrame(f: Frame)
      requires Ready() && Traced() && NO_TIME < f.start <= f.end
      requires HasFinal(input) && forall f :: f in Regulars(input) ==> Regular(f)
      modifies `inframe, `started, `now, `output, `done, outframe, window`queue, window.table, window.table.data
      ensures Steady() && (window.table.data == old(window.table.data) || fresh(window.table.data))
      ensures inframe == Loaded(f) && done + Remaining() == old(done) + Program([f] + Regulars(input))
    {
      OpenFrame(f.start);
      inframe := Loaded(f);
      FrameProgram(f, Regulars(input), old(done));
    }

    /** The frame being read is used up. */
    method CloseFrame()
      requires Steady() && inframe.Loaded? && inframe.frame.packets == []
      modifies `inframe, `now, `output, `done, outframe, window`queue, window.table, window.table.data
      ensures Steady() && (window.table.data == old(window.table.data) || fresh(window.table.data))
      ensures inframe.Nothing?
      ensures done + Remaining() == old(done) + old(Remaining()) && Coming() == old(Coming())
    {
      assert OpenThread(0);
      EndProgram(inframe.frame.end, Program(Regulars(input)), done);
      assert [] + Contents(Regulars(input)) == Contents(Regulars(input));
      Go(inframe.frame.end);
      inframe := Nothing;
    }

    /** Take the next packet of the frame being read, and go to its time. */
    method TakePacket() returns (p: Packet)
      requires Steady() && inframe.Loaded? && inframe.frame.packets != []
      modifies `inframe, `now, `output, `done, outframe, window`queue, window.table, window.table.data
      ensures Steady() && (window.table.data == old(window.table.data) || fresh(window.table.data))
      ensures inframe.Loaded? && |inframe.frame.packets| < |old(inframe.frame.packets)|
      ensures done + ([Take(p)] + Remaining()) == old(done) + old(Remaining()) && [p] + Coming() == old(Coming())
    {
      assert OpenThread(0);
      p := inframe.frame.packets[0];
      PacketProgram(inframe.frame.packets, inframe.frame.end, Program(Regulars(input)), done);
      ConcatAssoc([p], inframe.frame.packets[1..], Contents(Regulars(input)));
      assert inframe.frame.packets == [p] + inframe.frame.packets[1..];
      inframe := Loaded(inframe.frame.(packets := inframe.frame.packets[1..]));
      Go(p.h.ts);
    }

    /** The next packet, or null when the final frame was reached. */
    method NextPacket() returns (p: Packet?)
      requires Steady()
      modifies `input, `inframe, `started, `now, `output, `done, outframe, window`queue, window.table, window.table.data
      ensures window.table.data == old(window.table.data) || fresh(window.table.data)
      ensures p != null ==> Steady() && inframe.Loaded?
      ensures p != null ==>
              done + ([Take(p)] + Remaining()) == old(done) + old(Remaining()) && [p] + Coming() == old(Coming())
      ensures p != null ==> || |input| < |old(input)|
                            || (|input| == |old(input)| && old(inframe).Loaded?
                                && |inframe.frame.packets| < |old(inframe).frame.packets|)
      ensures p == null ==>
              Ready() && Traced() && done + [Drain, Flush] == old(done) + old(Remaining()) && old(Coming()) == []
    {
      while true
        invariant Steady() && (window.table.data == old(window.table.data) || fresh(window.table.data))
        invariant done + Remaining() == old(done) + old(Remaining()) && Coming() == old(Coming())
        invariant |input| <= |old(input)|
        invariant |input| == |old(input)| && inframe.Loaded? ==> inframe == old(inframe)
        decreases |input|, if inframe.Loaded? then 1 else 0
      {
        var more := EnsureFrame();
        if !more {
          return null;
        }
        if inframe.frame.packets == [] {
          CloseFrame();
        } else {
          p := TakePacket();
          return;
        }
      }
    }

    /** A packet the matcher is given at its time. */
    method Process(p: Packet)
      requires Steady() && p !in window.seen && p.response == null
      modifies `done, window, window.table, window.table.data, window.seen`response
      ensures Steady() && (window.table.data == old(window.table.data) || fresh(window.table.data))
      ensures done == old(done) + [Take(p)] && window.seen == old(window.seen) + {p}
    {
      assert OpenThread(0);
      RunSnoc(c, INITIAL, done, Take(p));
      Accept(p);
      done := done + [Take(p)];
    }

    /** Let everything leave the window. */
    method DrainWindow()
      requires Ready()
      modifies `now, `output, outframe, window`queue, window.table, window.table.data
      ensures Ready() && View() == Perform(c, old(View()), Drain)
    {
      if now != NO_TIME {
        AdvanceTime(now + c.window + 1);
      }
    }

    /** Send the last frame and the final one. */
    method SendLast()
      requires Ready()
      modifies `output, outframe
      ensures output == Perform(c, old(View()), Flush).sent
    {
      if started {
        var f := outframe.HandOver(now);
        output := output + [f];
      }
      output := output + [FinalFrame(now)];
    }

    /** The end of the work. The window is empty then, if no packet in it was later than the time. */
    method Finish()
      requires Ready() && Traced()
      modifies `now, `output, `done, outframe, window`queue, window.table, window.table.data
      ensures var r := Run(c, INITIAL, old(done) + [Drain, Flush]);
              output == r.sent && window.resp == r.resp && window.queue == r.queue
      ensures window.Valid()
      ensures (forall p :: p in old(window.queue) ==> p.h.ts <= old(now)) ==>
                window.queue == [] && forall k :: window.table.waiting(k) == []
    {
      ghost var before := View();
      RunTwo(c, Run(c, INITIAL, done), Drain, Flush);
      RunConcat(c, INITIAL, done, [Drain, Flush]);
      DrainWindow();
      SendLast();
      if forall p :: p in before.queue ==> p.h.ts <= before.now {
        DrainEmpties(c, before);
        Emptied();
      }
    }

    /** With the queue empty no request waits in the table. */
    lemma Emptied()
      requires window.Valid() && window.queue == []
      ensures forall k :: window.table.waiting(k) == []
    {
      assert OpenWindow(0);
    }

    /** The packets of a sequence are new: none was seen, none has a response, none comes twice. */
    ghost predicate Unseen(packets: seq<Packet>)
      reads window`seen, packets`response
    {
      NoDuplicates(packets) && forall p :: p in packets ==> p !in window.seen && p.response == null
    }

    /** Where the main loop stands: at packet `p`, with `left` to process from it on, or at the end. */
    ghost predicate AtPacket(p: Packet?, left: seq<Packet>, plan: seq<Op>)
      reads this, outframe, window, window.table, window.table.data, window.seen`response, left`response
    {
      forall x :: OpenLoop(x) ==>
        if p != null then
          Steady() && inframe.Loaded? && left == [p] + Coming() && Unseen(left) &&
          done + ([Take(p)] + Remaining()) == plan
        else
          Ready() && Traced() && left == [] && done + [Drain, Flush] == plan
    }

    /** Between two packets, with `left` still to come. */
    ghost predicate AtGap(left: seq<Packet>, plan: seq<Op>)
      reads this, outframe, window, window.table, window.table.data, window.seen`response, left`response
    {
      forall x :: OpenLoop(x) ==> Steady() && left == Coming() && Unseen(left) && done + Remaining() == plan
    }

    method Fetch(ghost left: seq<Packet>, ghost plan: seq<Op>) returns (p: Packet?)
      requires AtGap(left, plan)
      modifies `input, `inframe, `started, `now, `output, `done, outframe, window`queue, window.table, window.table.data
      ensures AtPacket(p, left, plan)
      ensures window.table.data == old(window.table.data) || fresh(window.table.data)
    {
      assert OpenLoop(0);
      assert Unseen(left);
      p := NextPacket();
      assert Unseen(left);
    }

    method ProcessAt(p: Packet, ghost left: seq<Packet>, ghost plan: seq<Op>)
      requires AtPacket(p, left, plan)
      modifies `done, window, window.table, window.table.data, window.seen`response
      ensures left != [] && AtGap(left[1..], plan)
      ensures window.table.data == old(window.table.data) || fresh(window.table.data)
      ensures window.seen == old(window.seen) + {left[0]}
    {
      assert OpenLoop(0);
      ghost var coming := Coming();
      assert left[1..] == coming;
      ConcatAssoc(done, [Take(p)], Remaining());
      AfterFirst(p, coming);
      assert Unseen(coming) by { assert forall q :: q in coming ==> q in left; }
      Process(p);
      assert Unseen(coming);
    }

    /** Process a packet and get the next. */
    method Round(p: Packet, ghost left: seq<Packet>, ghost plan: seq<Op>) returns (next: Packet?)
      requires AtPacket(p, left, plan)
      modifies this, outframe, window, window.table, window.table.data, window.seen`response
      ensures left != [] && AtPacket(next, left[1..], plan)
      ensures window.table.data == old(window.table.data) || fresh(window.table.data)
      ensures window.seen == old(window.seen) + {left[0]}
    {
      ProcessAt(p, left, plan);
      next := Fetch(left[1..], plan);
    }

    /** Process packet after packet until there is no more. */
    method Rounds(first: Packet?, ghost packets: seq<Packet>, ghost plan: seq<Op>)
      requires AtPacket(first, packets, plan)
      modifies this, outframe, window, window.table, window.table.data, window.seen`response, packets`response
      ensures AtPacket(null, [], plan) && window.seen == old(window.seen) + PacketSet(packets)
      ensures window.table.data == old(window.table.data) || fresh(window.table.data)
    {
      var p := first;
      ghost var left := packets;
      while p != null
        invariant window.table.data == old(window.table.data) || fresh(window.table.data)
        invariant AtPacket(p, left, plan)
        invariant window.seen + PacketSet(left) == old(window.seen) + PacketSet(packets)
        decreases |left|
      {
        p := Round(p, left, plan);
        PacketSetFirst(left);
        left := left[1..];
      }
      assert OpenLoop(0);
      assert left == [] && PacketSet([]) == {};
    }

    method ProcessAll()
      requires Steady() && Unseen(Coming()) && done == [] && window.seen == {}
      modifies this, outframe, window, window.table, window.table.data, Coming()`response
      ensures var r := Run(c, INITIAL, old(Remaining()));
              output == r.sent && window.resp == r.resp && window.queue == r.queue
      ensures window.Valid() && window.seen == PacketSet(old(Coming()))
    {
      ghost var plan, packets := Remaining(), Coming();
      assert done + plan == plan;
      var p := Fetch(packets, plan);
      Rounds(p, packets, plan);
      assert OpenLoop(0);
      Finish();
    }

    /** The whole work of the thread: the frames sent and the responses hung on requests are those
        of the program that its input spells, and queue and table are empty at the end. */
    method Work()
      requires Steady() && Unseen(Coming()) && inframe.Nothing? && done == [] && window.seen == {}
      modifies this, outframe, window, window.table, window.table.data, Coming()`response
      ensures var r := Run(c, INITIAL, Program(Regulars(old(input))));
              output == r.sent && window.resp == r.resp && window.queue == r.queue
      ensures window.Valid() && window.seen == PacketSet(old(Coming()))
      ensures window.queue == [] && forall k :: window.table.waiting(k) == []
    {
      InputRegular();
      MatcherDelivers(c, Regulars(input));
      ProcessAll();
      Emptied();
    }

    lemma InputRegular()
      requires Steady()
      ensures forall f :: f in Regulars(input) ==> Regular(f)
    {
      assert OpenThread(0);
    }
  }

  /** The final advance leaves nothing behind. */
  lemma DrainEmpties(c: Config, s: State)
    requires s.out.start <= s.out.end && (s.phase.Running? || s.now == NO_TIME)
    requires forall p :: p in s.queue ==> p.h.ts <= s.now
    ensures Perform(c, s, Drain).queue == []
  {
    if s.phase.Running? {
      AdvanceDrains(c, s, s.now + c.window + 1);
    } else {
      NoneYet(s.queue, s.now);
    }
  }

  /** Every packet has a real time. */
  lemma NoneYet(packets: seq<Packet>, now: int)
    ensures now <= NO_TIME && (forall p :: p in packets ==> p.h.ts <= now) ==> packets == []
  {
    if packets != [] { var h: Header := packets[0].h; }
  }

  ghost function PacketSet(packets: seq<Packet>): set<Packet> {
    set p | p in packets
  }

  lemma PacketSetFirst(packets: seq<Packet>)
    requires packets != []
    ensures PacketSet(packets) == {packets[0]} + PacketSet(packets[1..])
  {
    assert packets == [packets[0]] + packets[1..];
  }

  lemma AfterFirst(p: Packet, packets: seq<Packet>)
    requires NoDuplicates([p] + packets)
    ensures NoDuplicates(packets) && p !in packets
  {
    var s := [p] + packets;
    assert forall i :: 0 <= i < |packets| ==> packets[i] == s[i + 1] && s[0] != s[i + 1];
  }

  lemma EndProgram(end: int, rest: seq<Op>, done: seq<Op>)
    ensures done + ((PacketOps([]) + [Advance(end)]) + rest) == (done + [Advance(end)]) + rest
  {
  }

  lemma PacketProgram(packets: seq<Packet>, end: int, rest: seq<Op>, done: seq<Op>)
    requires packets != []
    ensures var p := packets[0];
            done + ((PacketOps(packets) + [Advance(end)]) + rest) ==
            (done + [Advance(p.h.ts)]) + ([Take(p)] + ((PacketOps(packets[1..]) + [Advance(end)]) + rest))
  {
  }

  lemma FrameProgram(f: Frame, frames: seq<Frame>, done: seq<Op>)
    requires !(f.packets == [] && f.start == NO_TIME)
    ensures done + Program([f] + frames) ==
            (done + [Begin(f.start), Advance(f.start)]) + ((PacketOps(f.packets) + [Advance(f.end)]) + Program(frames))
  {
    var first, body := [Begin(f.start), Advance(f.start)], PacketOps(f.packets) + [Advance(f.end)];
    assert ([f] + frames)[1..] == frames;
    ConcatAssoc(first, PacketOps(f.packets), [Advance(f.end)]);
    ConcatAssoc(first, body, Program(frames));
    ConcatAssoc(done, first, body + Program(frames));
  }
}
