/** The input thread's framing. */
module InputThread {
  import opened Packets
  import opened Frames
  import opened InputSpec

  /** Reading the trace is left to the caller: it reports accepted packets and clock readings. */
  class Input {
    const c: Config
    const frame: PacketFrame
    var output: seq<Frame>

    ghost predicate Valid()
      reads this, frame
    {
      frame.Valid() && Inv(c, State(frame.View(), output))
    }

    ghost function View(): State
      reads this, frame
    {
      State(frame.View(), output)
    }

    constructor (c: Config)
      ensures Valid() && this.c == c && View() == INITIAL && fresh(frame)
    {
      this.c, output := c, [];
      frame := new PacketFrame(NO_TIME, NO_TIME);
    }

    method OutputFrame()
      requires frame.Valid()
      modifies this, frame
      ensures frame.Valid() && View() == Emit(old(View()))
    {
      var f := frame.HandOver(frame.timeEnd);
      output := output + [f];
    }

    /** Send the current frame at the end of its time. */
    method CutFrame()
      requires Valid() && frame.timeStart > NO_TIME
      modifies this, frame
      ensures Valid() &&
              View() == Emit(old(View()).(frame := old(frame.View()).(end := old(frame.timeStart) + c.maxDuration)))
    {
      LongestInv(c, View());
      assert frame.timeEnd <= frame.timeStart + c.maxDuration;
      frame.timeEnd := frame.timeStart + c.maxDuration;
      OutputFrame();
    }

    /** Send frames until the given time fits within the current one. */
    method AdvanceTimeTo(t: Time)
      requires Valid()
      modifies this, frame
      ensures Valid() && View() == AdvanceTo(c, old(View()), t) && t <= frame.timeEnd && View() != INITIAL
    {
      StartedInv(c, View(), t);
      ghost var goal := CutTo(c, Started(View(), t), t);
      if frame.timeStart == NO_TIME {
        frame.timeStart, frame.timeEnd := t, t;
      }
      while t >= frame.timeStart + c.maxDuration
        invariant Valid() && frame.timeStart > NO_TIME && CutTo(c, View(), t) == goal
        decreases t - frame.timeStart
      {
        CutFrame();
      }
      ReachInv(c, View(), t);
      frame.timeEnd := if frame.timeEnd < t then t else frame.timeEnd;
    }

    method AcceptPacket(p: Packet)
      requires Valid()
      modifies this, frame
      ensures Valid() && View() == Handle(c, old(View()), Accepted(p))
    {
      AdvanceTimeTo(p.h.ts);
      AddInv(c, View(), p);
      if frame.count > 0 && frame.size + p.h.memorySize > c.maxSize {
        OutputFrame();
      }
      frame.Append(p);
    }

    /** Follow the clock, the grace period behind it, when the frame has fallen further behind. */
    method CatchRealTime(now: Time)
      requires Valid()
      modifies this, frame
      ensures Valid() && View() == Handle(c, old(View()), CatchUp(now))
      ensures frame.timeEnd == if old(frame.timeEnd) < now - c.grace then now - c.grace else old(frame.timeEnd)
    {
      HandleReaches(c, View(), CatchUp(now));
      HandleInv(c, View(), CatchUp(now));
      if now > frame.timeEnd + c.grace {
        AdvanceTimeTo(now - c.grace);
      }
    }

    /** Send the last frame and a final one. */
    method Close()
      requires Valid()
      modifies this, frame
      ensures output == Finish(old(View()))
    {
      OutputFrame();
      output := output + [Frame(frame.timeStart, frame.timeEnd, frame.packets, true)];
    }

    /** A whole input. */
    method Work(events: seq<Event>)
      requires Valid() && View() == INITIAL
      modifies this, frame
      ensures output == Finish(Run(c, INITIAL, events))
    {
      assert events[..0] == [];
      for i := 0 to |events|
        invariant Valid() && View() == Run(c, INITIAL, events[..i])
      {
        assert events[..i + 1][..i] == events[..i];
        match events[i]
        case Accepted(p) => AcceptPacket(p);
        case Opened(now) => AdvanceTimeTo(now);
        case CatchUp(now) => CatchRealTime(now);
      }
      assert events[..|events|] == events;
      Close();
    }
  }
}
