/** The locking protocol of one blocking queue between one producer and one consumer thread. Every
    acquisition and release of the mutex, every wait and every broadcast is a step of its own, and
    so is the work on the queue that is done under the mutex: the test together with storing or
    taking a frame. The two threads may interleave in any way. */
module Channel {
  import opened Frames
  import FrameQueue

  /** Where the producer is inside `enqueue`, if it is; the frame it carries until it is stored. */
  datatype Producer =
    | PIdle
    | PLock(f: Frame)   // about to lock the mutex
    | PTest(f: Frame)   // holds the mutex, about to test for a full queue
    | PSleep(f: Frame)  // waits on full_cond, mutex released
    | PWake(f: Frame)   // woken, about to lock the mutex again
    | PSignal           // stored, about to broadcast empty_cond
    | PUnlock           // about to unlock

  /** Where the consumer is inside `dequeue`, if it is; the frame it carries once it has one. */
  datatype Consumer =
    | CIdle
    | CLock
    | CTest
    | CSleep
    | CWake
    | CSignal(f: Frame)
    | CUnlock(f: Frame)

  datatype Holder = Free | ByProducer | ByConsumer

  datatype Chan = Chan(capacity: nat, content: seq<Frame>, mutex: Holder, producer: Producer, consumer: Consumer)

  function NewChan(capacity: nat): Chan { Chan(capacity, [], Free, PIdle, CIdle) }

  // ------------------------------------------------ steps

  /** The producer thread calls `enqueue`. */
  function Submit(ch: Chan, f: Frame): Chan { ch.(producer := PLock(f)) }

  /** The producer is inside `enqueue` and the scheduler can run it. */
  predicate ProducerReady(ch: Chan) {
    match ch.producer
    case PIdle => false
    case PSleep(_) => false
    case PLock(_) => ch.mutex.Free?
    case PWake(_) => ch.mutex.Free?
    case _ => true
  }

  function ProducerStep(ch: Chan): Chan
    requires ProducerReady(ch)
  {
    match ch.producer
    case PLock(f) => ch.(mutex := ByProducer, producer := PTest(f))
    case PWake(f) => ch.(mutex := ByProducer, producer := PTest(f))
    case PTest(f) =>
      if |ch.content| + 1 > ch.capacity then ch.(mutex := Free, producer := PSleep(f))
      else ch.(content := ch.content + [f], producer := PSignal)
    case PSignal => ch.(consumer := if ch.consumer.CSleep? then CWake else ch.consumer, producer := PUnlock)
    case PUnlock => ch.(mutex := Free, producer := PIdle)
  }

  /** The consumer thread calls `dequeue`. */
  function Request(ch: Chan): Chan { ch.(consumer := CLock) }

  predicate ConsumerReady(ch: Chan) {
    match ch.consumer
    case CIdle => false
    case CSleep => false
    case CLock => ch.mutex.Free?
    case CWake => ch.mutex.Free?
    case CUnlock(_) => false // the last step hands the frame over: Deliver
    case _ => true
  }

  function ConsumerStep(ch: Chan): Chan
    requires ConsumerReady(ch)
  {
    match ch.consumer
    case CLock => ch.(mutex := ByConsumer, consumer := CTest)
    case CWake => ch.(mutex := ByConsumer, consumer := CTest)
    case CTest =>
      if ch.content == [] then ch.(mutex := Free, consumer := CSleep)
      else ch.(content := ch.content[1..], consumer := CSignal(ch.content[0]))
    case CSignal(f) =>
      ch.(producer := if ch.producer.PSleep? then PWake(ch.producer.f) else ch.producer, consumer := CUnlock(f))
  }

  /** The consumer unlocks and returns its frame to the caller. */
  function Deliver(ch: Chan): Chan
    requires ch.consumer.CUnlock?
  {
    ch.(mutex := Free, consumer := CIdle)
  }

  /** Condition variables may wake a thread without a broadcast. */
  function WakeProducer(ch: Chan): Chan
    requires ch.producer.PSleep?
  {
    ch.(producer := PWake(ch.producer.f))
  }

  function WakeConsumer(ch: Chan): Chan
    requires ch.consumer.CSleep?
  {
    ch.(consumer := CWake)
  }

  // ------------------------------------------------ what every step keeps

  /** The mutex is held by the thread in its critical section, and a thread sleeps only while its
      reason to sleep holds or the broadcast that wakes it is still to come. */
  predicate Inv(ch: Chan) {
    && 0 < ch.capacity && |ch.content| <= ch.capacity
    && (ch.mutex.ByProducer? <==> ch.producer.PTest? || ch.producer.PSignal? || ch.producer.PUnlock?)
    && (ch.mutex.ByConsumer? <==> ch.consumer.CTest? || ch.consumer.CSignal? || ch.consumer.CUnlock?)
    && (ch.producer.PSleep? ==> |ch.content| == ch.capacity || ch.consumer.CSignal?)
    && (ch.consumer.CSleep? ==> ch.content == [] || ch.producer.PSignal?)
  }

  /** The frames inside the channel, oldest first, those its two threads carry included. */
  function Line(ch: Chan): seq<Frame> {
    (if ch.consumer.CSignal? || ch.consumer.CUnlock? then [ch.consumer.f] else []) +
    ch.content +
    (if ch.producer.PIdle? || ch.producer.PSignal? || ch.producer.PUnlock? then [] else [ch.producer.f])
  }

  /** An upper bound on the steps left to the two threads if no more frames come and none is woken
      without a broadcast. */
  function Rank(ch: Chan): nat {
    (match ch.producer
     case PIdle => 0
     case PLock(_) => 6
     case PTest(_) => 5
     case PSleep(_) => 4
     case PWake(_) => 6
     case PSignal => 4
     case PUnlock => 1) +
    (match ch.consumer
     case CIdle => 7
     case CLock => 6
     case CTest => 5
     case CSleep => 4
     case CWake => 6
     case CSignal(_) => 4
     case CUnlock(_) => 1)
  }

  /** The producer's step under the mutex is the circular queue's: it stores, or goes to sleep
      exactly when that queue has to be waited for. */
  lemma TestIsEnqueue(ch: Chan)
    requires Inv(ch) && ch.producer.PTest?
    ensures ProducerStep(ch).content == FrameQueue.Offered(ch.content, ch.capacity, FrameQueue.Block, ch.producer.f)
    ensures ProducerStep(ch).producer.PSleep? <==> FrameQueue.MustWait(ch.content, ch.capacity, FrameQueue.Block)
  {
  }

  /** So is the consumer's: it takes the oldest frame, or goes to sleep when there is none. */
  lemma TestIsDequeue(ch: Chan)
    requires Inv(ch) && ch.consumer.CTest?
    ensures var r := ConsumerStep(ch);
            if r.consumer.CSleep? then ch.content == [] == r.content
            else r.consumer.CSignal? && [r.consumer.f] + r.content == ch.content
  {
    if ch.content != [] {
      assert [ch.content[0]] + ch.content[1..] == ch.content;
    }
  }

  lemma SubmitKeeps(ch: Chan, f: Frame)
    requires Inv(ch) && ch.producer.PIdle?
    ensures Inv(Submit(ch, f)) && Line(Submit(ch, f)) == Line(ch) + [f] && Rank(Submit(ch, f)) == Rank(ch) + 6
  {
  }

  lemma ProducerKeeps(ch: Chan)
    requires Inv(ch) && ProducerReady(ch)
    ensures Inv(ProducerStep(ch)) && Line(ProducerStep(ch)) == Line(ch) && Rank(ProducerStep(ch)) < Rank(ch)
  {
    if ch.producer.PTest? && |ch.content| < ch.capacity {
      assert ch.content + [ch.producer.f] + [] == ch.content + [ch.producer.f];
    }
  }

  lemma ConsumerKeeps(ch: Chan)
    requires Inv(ch) && ConsumerReady(ch)
    ensures Inv(ConsumerStep(ch)) && Line(ConsumerStep(ch)) == Line(ch) && Rank(ConsumerStep(ch)) < Rank(ch)
  {
    if ch.consumer.CTest? && ch.content != [] {
      assert ch.content == [ch.content[0]] + ch.content[1..];
    }
  }

  lemma RequestKeeps(ch: Chan)
    requires Inv(ch) && ch.consumer.CIdle?
    ensures Inv(Request(ch)) && Line(Request(ch)) == Line(ch) && Rank(Request(ch)) < Rank(ch)
  {
  }

  /** Frames come out in the order they went in. */
  lemma DeliverKeeps(ch: Chan)
    requires Inv(ch) && ch.consumer.CUnlock?
    ensures Inv(Deliver(ch)) && Line(ch) == [ch.consumer.f] + Line(Deliver(ch)) && Rank(Deliver(ch)) == Rank(ch) + 6
  {
  }

  lemma WakeKeeps(ch: Chan)
    requires Inv(ch)
    ensures ch.producer.PSleep? ==> var r := WakeProducer(ch); Inv(r) && Line(r) == Line(ch) && Rank(r) == Rank(ch) + 2
    ensures ch.consumer.CSleep? ==> var r := WakeConsumer(ch); Inv(r) && Line(r) == Line(ch) && Rank(r) == Rank(ch) + 2
  {
  }

  /** No wakeup is lost: a thread inside the channel that cannot run sleeps for a good reason, or
      the other one can run. */
  lemma Blocked(ch: Chan)
    requires Inv(ch)
    ensures !ch.producer.PIdle? && !ProducerReady(ch) ==>
              ConsumerReady(ch) || ch.consumer.CUnlock? ||
              (ch.producer.PSleep? && |ch.content| == ch.capacity && !ch.consumer.CSleep?)
    ensures !ch.consumer.CIdle? && !ch.consumer.CUnlock? && !ConsumerReady(ch) ==>
              ProducerReady(ch) || (ch.consumer.CSleep? && ch.content == [] && !ch.producer.PSleep?)
  {
  }
}
