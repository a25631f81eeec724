/** The bounded queue of frames: a circular array with three ways to behave when it is full. */
module FrameQueue {
  import opened Frames

  datatype OnFull = Block | DropNewest | DropOldest

  /** Place of an index in a circular array; the indices used never wrap around twice. */
  function Slot(i: nat, capacity: nat): (r: nat)
    requires i < 2 * capacity
    ensures r == if i < capacity then i else i - capacity
  {
    i % capacity
  }

  function Bytes(frames: seq<Frame>): nat {
    if frames == [] then 0 else TotalSize(frames[0].packets) + Bytes(frames[1..])
  }

  lemma {:induction false} BytesSnoc(frames: seq<Frame>, f: Frame)
    ensures Bytes(frames + [f]) == Bytes(frames) + TotalSize(f.packets)
  {
    if frames == [] {
      assert frames + [f] == [f] && [f][1..] == [];
    } else {
      assert (frames + [f])[1..] == frames[1..] + [f];
      BytesSnoc(frames[1..], f);
    }
  }

  datatype Taken = Waits | Taken(frame: Frame)

  /** The producer has to wait. */
  predicate MustWait(content: seq<Frame>, capacity: nat, onFull: OnFull) {
    onFull.Block? && |content| >= capacity
  }

  /** What a queue holds after a frame is offered to it. One that has to be waited for stays as it is. */
  function Offered(content: seq<Frame>, capacity: nat, onFull: OnFull, f: Frame): (r: seq<Frame>)
    requires 0 < capacity && |content| <= capacity
  {
    if |content| < capacity then content + [f]
    else if onFull.DropOldest? then content[1..] + [f]
    else content
  }

  /** What is left after many frames were offered and none taken. */
  function OfferedAll(content: seq<Frame>, capacity: nat, onFull: OnFull, frames: seq<Frame>): (r: seq<Frame>)
    requires 0 < capacity && |content| <= capacity && !onFull.Block?
    ensures |r| <= capacity
    decreases |frames|
  {
    if frames == [] then content
    else OfferedAll(Offered(content, capacity, onFull, frames[0]), capacity, onFull, frames[1..])
  }

  /** Dropping the newest keeps the frames offered first, dropping the oldest those offered last. */
  lemma {:induction false} OfferedAllKeeps(content: seq<Frame>, capacity: nat, onFull: OnFull, frames: seq<Frame>)
    requires 0 < capacity && |content| <= capacity && !onFull.Block?
    ensures var all, kept := content + frames, OfferedAll(content, capacity, onFull, frames);
            if |all| <= capacity then kept == all
            else kept == if onFull.DropNewest? then all[..capacity] else all[|all| - capacity..]
    decreases |frames|
  {
    if frames == [] {
      assert content + frames == content == content[..|content|];
    } else {
      OfferedAllKeeps(Offered(content, capacity, onFull, frames[0]), capacity, onFull, frames[1..]);
      OfferedStep(content, capacity, onFull, frames);
    }
  }

  lemma OfferedStep(content: seq<Frame>, capacity: nat, onFull: OnFull, frames: seq<Frame>)
    requires 0 < capacity && |content| <= capacity && !onFull.Block? && frames != []
    ensures var all, after := content + frames, Offered(content, capacity, onFull, frames[0]) + frames[1..];
            if |content| < capacity then after == all
            else if onFull.DropOldest? then after == all[1..]
            else after[..capacity] == content == all[..capacity]
  {
    assert frames == [frames[0]] + frames[1..];
  }

  /** The circular array `slots` holds `content` from place `start` on. */
  ghost predicate Holds(slots: seq<Frame>, start: nat, content: seq<Frame>) {
    && start < |slots| && |content| <= |slots|
    && (forall i :: 0 <= i < |content| ==> slots[Slot(start + i, |slots|)] == content[i])
  }

  lemma HoldsMore(slots: seq<Frame>, start: nat, content: seq<Frame>, f: Frame)
    requires Holds(slots, start, content) && |content| < |slots|
    ensures Holds(slots[Slot(start + |content|, |slots|) := f], start, content + [f])
  {
  }

  lemma HoldsLess(slots: seq<Frame>, start: nat, content: seq<Frame>)
    requires Holds(slots, start, content) && content != []
    ensures slots[start] == content[0] && Holds(slots, Slot(start + 1, |slots|), content[1..])
  {
    assert Slot(start + 0, |slots|) == start;
    forall i | 0 <= i < |content[1..]| ensures slots[Slot(Slot(start + 1, |slots|) + i, |slots|)] == content[1..][i] {
      assert slots[Slot(start + (i + 1), |slots|)] == content[i + 1];
    }
  }

  class Queue {
    const queue: array<Frame>
    const capacity: nat
    const onFull: OnFull
    var start: nat
    var length: nat
    var totalSize: nat
    ghost var content: seq<Frame>

    ghost predicate Valid()
      reads this, queue
    {
      && 0 < capacity == queue.Length && start < capacity && length <= capacity
      && |content| == length && Holds(queue[..], start, content)
      && totalSize == Bytes(content)
    }

    constructor (capacity: nat, onFull: OnFull)
      requires 0 < capacity
      ensures Valid() && content == [] && fresh(queue) && this.capacity == capacity && this.onFull == onFull
    {
      queue := new Frame[capacity](_ => EmptyFrame(0));
      this.capacity, this.onFull := capacity, onFull;
      start, length, totalSize, content := 0, 0, 0, [];
    }

    method TakeOldest() returns (f: Frame)
      requires Valid() && content != []
      modifies this`start, this`length, this`totalSize, this`content
      ensures Valid() && [f] + content == old(content)
    {
      f := queue[start];
      HoldsLess(queue[..], start, content);
      assert content == [f] + content[1..];
      start := Slot(start + 1, capacity);
      length := length - 1;
      totalSize := totalSize - TotalSize(f.packets);
      content := content[1..];
    }

    method Put(f: Frame)
      requires Valid() && length < capacity
      modifies queue, this`length, this`totalSize, this`content
      ensures Valid() && content == old(content) + [f]
    {
      BytesSnoc(content, f);
      HoldsMore(queue[..], start, content, f);
      queue[Slot(start + length, capacity)] := f;
      length := length + 1;
      totalSize := totalSize + TotalSize(f.packets);
      content := content + [f];
    }

    /** Offer a frame, or tell that the producer has to wait for room and try again. */
    method Enqueue(f: Frame) returns (waits: bool)
      requires Valid()
      modifies this`start, this`length, this`totalSize, this`content, queue
      ensures Valid() && waits == MustWait(old(content), capacity, onFull)
      ensures content == Offered(old(content), capacity, onFull, f)
    {
      waits := false;
      var kept := true;
      while length + 1 > capacity && kept
        invariant Valid() && (onFull.Block? && kept ==> content == old(content))
        invariant kept ==> Offered(content, capacity, onFull, f) == Offered(old(content), capacity, onFull, f) && !waits
        invariant !kept ==> content == Offered(old(content), capacity, onFull, f)
        invariant !kept ==> waits == MustWait(old(content), capacity, onFull)
        decreases kept, length
      {
        if onFull.Block? {
          waits, kept := true, false;
        } else if onFull.DropOldest? {
          var oldest := TakeOldest();
          assert content == ([oldest] + content)[1..];
        } else {
          kept := false;
        }
      }
      if kept {
        Put(f);
      }
    }

    /** The oldest frame, or nothing when the consumer has to wait for one and try again. */
    method Dequeue() returns (r: Taken)
      requires Valid()
      modifies this`start, this`length, this`totalSize, this`content
      ensures Valid() && (r.Waits? <==> old(content) == [])
      ensures old(content) == if r.Waits? then content else [r.frame] + content
    {
      if length == 0 {
        return Waits;
      }
      var f := TakeOldest();
      r := Taken(f);
    }
  }
}
