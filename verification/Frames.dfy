/** Packet frames: short time intervals of packets, handed from thread to thread. */
module Frames {
  import opened Sequences
  import opened Packets

  /** A frame once it is handed over. A final frame ends the stream. */
  datatype Frame = Frame(start: int, end: int, packets: seq<Packet>, final: bool)

  function TotalSize(packets: seq<Packet>): nat {
    if packets == [] then 0 else TotalSize(packets[..|packets| - 1]) + packets[|packets| - 1].h.memorySize
  }

  function EmptyFrame(time: int): Frame { Frame(time, time, [], false) }

  function FinalFrame(time: int): Frame { Frame(time, time, [], true) }

  /** A frame with one more packet; its end moves on to the packet's time if that is later. */
  function Appended(f: Frame, p: Packet): Frame {
    f.(packets := f.packets + [p], end := if f.end == NO_TIME || f.end < p.h.ts then p.h.ts else f.end)
  }

  /** All packets of a sequence of frames, in order. */
  function Contents(frames: seq<Frame>): seq<Packet> {
    if frames == [] then [] else Contents(frames[..|frames| - 1]) + frames[|frames| - 1].packets
  }

  lemma ContentsSnoc(frames: seq<Frame>, f: Frame)
    ensures Contents(frames + [f]) == Contents(frames) + f.packets
  {
    assert (frames + [f])[..|frames|] == frames;
  }

  lemma {:induction false} ContentsConcat(a: seq<Frame>, b: seq<Frame>)
    ensures Contents(a + b) == Contents(a) + Contents(b)
  {
    if b == [] {
      assert a + b == a;
    } else {
      var n := |b| - 1;
      ContentsConcat(a, b[..n]);
      ContentsSnoc(a + b[..n], b[n]);
      ContentsSnoc(b[..n], b[n]);
      ConcatAssoc(a, b[..n], [b[n]]);
      assert b == b[..n] + [b[n]];
      ConcatAssoc(Contents(a), Contents(b[..n]), b[n].packets);
    }
  }

  lemma ContentsFirst(frames: seq<Frame>)
    requires frames != []
    ensures Contents(frames) == frames[0].packets + Contents(frames[1..])
  {
    ContentsConcat([frames[0]], frames[1..]);
    assert frames == [frames[0]] + frames[1..];
    ContentsSnoc([], frames[0]);
    assert [] + [frames[0]] == [frames[0]];
  }

  /** A frame within the configured limits: its span, and its size unless it has one packet. */
  ghost predicate Within(f: Frame, maxDuration: int, maxSize: nat) {
    && f.start <= f.end <= f.start + maxDuration
    && (TotalSize(f.packets) <= maxSize || |f.packets| <= 1)
  }

  /** Frames within the limits, each starting where the one before it ends, up to time `at`. */
  ghost predicate Tiled(frames: seq<Frame>, at: int, maxDuration: int, maxSize: nat) {
    if frames == [] then true
    else
      var last := frames[|frames| - 1];
      && last.end == at && !last.final && Within(last, maxDuration, maxSize)
      && Tiled(frames[..|frames| - 1], last.start, maxDuration, maxSize)
  }

  lemma TiledSnoc(frames: seq<Frame>, f: Frame, maxDuration: int, maxSize: nat)
    requires Tiled(frames, f.start, maxDuration, maxSize) && !f.final && Within(f, maxDuration, maxSize)
    ensures Tiled(frames + [f], f.end, maxDuration, maxSize)
  {
    assert (frames + [f])[..|frames|] == frames;
  }

  /** The same, frame by frame. */
  lemma {:induction false} TiledMeans(frames: seq<Frame>, at: int, maxDuration: int, maxSize: nat)
    requires Tiled(frames, at, maxDuration, maxSize)
    ensures forall i :: 0 <= i < |frames| ==> !frames[i].final && Within(frames[i], maxDuration, maxSize)
    ensures forall i :: 0 < i < |frames| ==> frames[i].start == frames[i - 1].end
    ensures frames != [] ==> frames[|frames| - 1].end == at
  {
    if frames != [] {
      TiledMeans(frames[..|frames| - 1], frames[|frames| - 1].start, maxDuration, maxSize);
    }
  }

  /** A frame is not sent before its time without need: it lasts its full duration, or the first
      packet of the frame after it did not fit in. */
  ghost predicate Full(f: Frame, next: seq<Packet>, maxDuration: int, maxSize: nat) {
    f.end == f.start + maxDuration || (next != [] && TotalSize(f.packets) + next[0].h.memorySize > maxSize)
  }

  /** No frame but the last one was sent without need. */
  ghost predicate Snug(frames: seq<Frame>, maxDuration: int, maxSize: nat) {
    forall i :: 0 < i < |frames| ==> Full(frames[i - 1], frames[i].packets, maxDuration, maxSize)
  }

  lemma SnugSnoc(frames: seq<Frame>, f: Frame, g: Frame, maxDuration: int, maxSize: nat)
    requires Snug(frames + [f], maxDuration, maxSize) && Full(f, g.packets, maxDuration, maxSize)
    ensures Snug((frames + [f]) + [g], maxDuration, maxSize)
  {
    var s, t := frames + [f], (frames + [f]) + [g];
    assert forall i :: 0 <= i < |s| ==> t[i] == s[i];
    assert t[|s| - 1] == f && t[|s|] == g;
  }

  /** The last frame may change as long as a first packet stays what it is. */
  lemma SnugLast(frames: seq<Frame>, f: Frame, g: Frame, maxDuration: int, maxSize: nat)
    requires Snug(frames + [f], maxDuration, maxSize)
    requires f.packets == [] || (g.packets != [] && g.packets[0] == f.packets[0])
    ensures Snug(frames + [g], maxDuration, maxSize)
  {
    var s, t := frames + [f], frames + [g];
    assert forall i :: 0 <= i < |frames| ==> t[i] == s[i];
    if |frames| > 0 { assert Full(s[|frames| - 1], s[|frames|].packets, maxDuration, maxSize); }
  }

  // ------------------------------------------------ order of time

  /** Packets in order of time, all of them from `from` to `to`. */
  predicate OrderedPackets(packets: seq<Packet>, from: int, to: int) {
    if packets == [] then from <= to
    else from <= packets[0].h.ts && OrderedPackets(packets[1..], packets[0].h.ts, to)
  }

  /** Frames in order of time, each with its packets in order within its bounds. */
  predicate OrderedFrames(frames: seq<Frame>, from: int) {
    frames == [] ||
    (from <= frames[0].start && OrderedPackets(frames[0].packets, frames[0].start, frames[0].end) &&
     OrderedFrames(frames[1..], frames[0].end))
  }

  /** The end of the last frame. */
  function EndOf(frames: seq<Frame>, from: int): int {
    if frames == [] then from else frames[|frames| - 1].end
  }

  lemma {:induction false} OrderedPacketsSnoc(packets: seq<Packet>, from: int, to: int, p: Packet)
    requires OrderedPackets(packets, from, to) && to <= p.h.ts
    ensures OrderedPackets(packets + [p], from, p.h.ts)
  {
    if packets == [] {
      assert packets + [p] == [p] && [p][1..] == [];
    } else {
      assert (packets + [p])[1..] == packets[1..] + [p];
      OrderedPacketsSnoc(packets[1..], packets[0].h.ts, to, p);
    }
  }

  lemma {:induction false} OrderedPacketsLater(packets: seq<Packet>, from: int, to: int, later: int)
    requires OrderedPackets(packets, from, to) && to <= later
    ensures OrderedPackets(packets, from, later)
  {
    if packets != [] { OrderedPacketsLater(packets[1..], packets[0].h.ts, to, later); }
  }

  lemma {:induction false} OrderedFramesSnoc(frames: seq<Frame>, from: int, f: Frame)
    requires OrderedFrames(frames, from) && OrderedPackets(f.packets, f.start, f.end) && EndOf(frames, from) <= f.start
    ensures OrderedFrames(frames + [f], from)
  {
    if frames == [] {
      assert frames + [f] == [f] && [f][1..] == [];
    } else {
      assert (frames + [f])[1..] == frames[1..] + [f];
      OrderedFramesSnoc(frames[1..], frames[0].end, f);
    }
  }

  lemma {:induction false} OrderedPacketsBounds(packets: seq<Packet>, from: int, to: int)
    requires OrderedPackets(packets, from, to)
    ensures from <= to && forall p :: p in packets ==> from <= p.h.ts <= to
  {
    if packets != [] {
      OrderedPacketsBounds(packets[1..], packets[0].h.ts, to);
      assert packets == [packets[0]] + packets[1..];
    }
  }

  lemma {:induction false} OrderedFramesMeans(frames: seq<Frame>, from: int)
    requires OrderedFrames(frames, from)
    ensures forall f :: f in frames ==> forall p :: p in f.packets ==> f.start <= p.h.ts <= f.end
  {
    if frames != [] {
      OrderedPacketsBounds(frames[0].packets, frames[0].start, frames[0].end);
      OrderedFramesMeans(frames[1..], frames[0].end);
      assert frames == [frames[0]] + frames[1..];
    }
  }

  lemma {:induction false} OrderedPacketsInit(packets: seq<Packet>, from: int, to: int)
    requires OrderedPackets(packets, from, to) && packets != []
    ensures var n := |packets| - 1; OrderedPackets(packets[..n], from, packets[n].h.ts) && packets[n].h.ts <= to
  {
    var n := |packets| - 1;
    if n > 0 {
      assert packets[1..][..n - 1] == packets[..n][1..];
      OrderedPacketsInit(packets[1..], packets[0].h.ts, to);
    }
  }

  lemma {:induction false} OrderedFramesInit(frames: seq<Frame>, from: int)
    requires OrderedFrames(frames, from) && frames != []
    ensures var n := |frames| - 1;
            && OrderedFrames(frames[..n], from) && EndOf(frames[..n], from) <= frames[n].start
            && OrderedPackets(frames[n].packets, frames[n].start, frames[n].end)
  {
    var n := |frames| - 1;
    if n > 0 {
      assert frames[1..][..n - 1] == frames[..n][1..];
      OrderedFramesInit(frames[1..], frames[0].end);
    }
  }

  // ------------------------------------------------ a frame being filled

  /** The frame a thread is filling. Handing it over passes on its value; the thread then goes on
      with a new frame in its place. */
  class PacketFrame {
    var timeStart: int
    var timeEnd: int
    var packets: seq<Packet>
    var count: nat
    var size: nat

    ghost predicate Valid()
      reads this
    {
      count == |packets| && size == TotalSize(packets)
    }

    ghost function View(): Frame
      reads this
    {
      Frame(timeStart, timeEnd, packets, false)
    }

    constructor (timeStart: int, timeEnd: int)
      ensures Valid() && View() == Frame(timeStart, timeEnd, [], false)
    {
      this.timeStart, this.timeEnd, packets, count, size := timeStart, timeEnd, [], 0, 0;
    }

    method Append(p: Packet)
      requires Valid()
      modifies this
      ensures Valid() && View() == Appended(old(View()), p)
    {
      assert (packets + [p])[..|packets|] == packets;
      packets := packets + [p];
      if timeEnd == NO_TIME || timeEnd < p.h.ts {
        timeEnd := p.h.ts;
      }
      count := count + 1;
      size := size + p.h.memorySize;
    }

    /** Hand the frame over and start an empty one at the given time. */
    method HandOver(next: int) returns (f: Frame)
      requires Valid()
      modifies this
      ensures f == old(View()) && Valid() && View() == EmptyFrame(next)
    {
      f := Frame(timeStart, timeEnd, packets, false);
      timeStart, timeEnd, packets, count, size := next, next, [], 0, 0;
    }
  }
}
