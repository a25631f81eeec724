/** The three threads of the collector and the two blocking queues between them, as a state machine
    in which any thread that can run may take the next step. */
module Pipeline {
  import opened Packets
  import opened Frames
  import opened MatcherSpec
  import opened MatcherSteps
  import opened Channel
  import opened Records

  /** What the main thread does: send the input's frames, then wait for the two others to end. */
  datatype Main = Sending | JoinMatcher | JoinOutput | Exited

  /** The matcher thread: its state, what it still has to do for the frame it has loaded, and the
      frames it is about to send. */
  datatype Worker = Worker(state: State, agenda: seq<Op>, outbox: seq<Frame>)

  /** The output thread: frames received, packets of the current one still to write, and
      records written, each with the response seen at that time. */
  datatype Writer = Writer(received: seq<Frame>, current: seq<Packet>, log: seq<Record>, done: bool)

  datatype System = System(main: Main, todo: seq<Frame>, first: Chan, worker: Worker, second: Chan, writer: Writer)

  function Start(capacity: nat, frames: seq<Frame>): System {
    System(Sending, frames, NewChan(capacity), Worker(INITIAL, [], []), NewChan(capacity), Writer([], [], [], false))
  }

  // ------------------------------------------------ steps of the threads

  predicate WorkerFinished(s: System) {
    s.worker.state.phase.Done? && s.worker.agenda == [] && s.worker.outbox == [] && s.second.producer.PIdle?
  }

  predicate WriterFinished(s: System) {
    s.writer.done && s.writer.current == []
  }

  predicate MainReady(s: System) {
    if !s.first.producer.PIdle? then ProducerReady(s.first)
    else match s.main
      case Sending => true
      case JoinMatcher => WorkerFinished(s)
      case JoinOutput => WriterFinished(s)
      case Exited => false
  }

  function MainStep(s: System): System
    requires MainReady(s)
  {
    if !s.first.producer.PIdle? then s.(first := ProducerStep(s.first))
    else match s.main
      case Sending =>
        if s.todo == [] then s.(main := JoinMatcher)
        else s.(todo := s.todo[1..], first := Submit(s.first, s.todo[0]))
      case JoinMatcher => s.(main := JoinOutput)
      case JoinOutput => s.(main := Exited)
  }

  predicate WorkerReady(s: System) {
    if !s.second.producer.PIdle? then ProducerReady(s.second)
    else if s.worker.outbox != [] || s.worker.agenda != [] then true
    else if s.worker.state.phase.Done? then false
    else s.first.consumer.CIdle? || s.first.consumer.CUnlock? || ConsumerReady(s.first)
  }

  function Added(before: seq<Frame>, after: seq<Frame>): seq<Frame> {
    if |before| <= |after| then after[|before|..] else []
  }

  /** The next event or operation; the frame it sends goes to the outbox. No frame ends before it
      starts. */
  function Performed(c: Config, w: Worker): Worker
    requires w.agenda != []
  {
    if w.state.out.start > w.state.out.end then w.(agenda := w.agenda[1..])
    else
      var r := MicroStep(c, w.state, w.agenda);
      Worker(r.state, r.ops, Added(w.state.sent, r.state.sent))
  }

  function WorkerStep(c: Config, s: System): System
    requires WorkerReady(s)
  {
    if !s.second.producer.PIdle? then s.(second := ProducerStep(s.second))
    else if s.worker.outbox != [] then
      s.(worker := s.worker.(outbox := s.worker.outbox[1..]), second := Submit(s.second, s.worker.outbox[0]))
    else if s.worker.agenda != [] then s.(worker := Performed(c, s.worker))
    else if s.first.consumer.CIdle? then s.(first := Request(s.first))
    else if s.first.consumer.CUnlock? then
      s.(first := Deliver(s.first), worker := s.worker.(agenda := OpsFor(s.first.consumer.f)))
    else s.(first := ConsumerStep(s.first))
  }

  predicate WriterReady(s: System) {
    if s.writer.current != [] then true
    else if s.writer.done then false
    else s.second.consumer.CIdle? || s.second.consumer.CUnlock? || ConsumerReady(s.second)
  }

  function Received(w: Writer, f: Frame): Writer {
    w.(received := w.received + [f], current := if f.final then [] else f.packets, done := f.final)
  }

  function Written(w: Writer, resp: map<Packet, Packet>): Writer
    requires w.current != []
  {
    var p := w.current[0];
    w.(current := w.current[1..], log := w.log + [Record(p, ResponseOf(resp, p))])
  }

  function WriterStep(s: System): System
    requires WriterReady(s)
  {
    if s.writer.current != [] then s.(writer := Written(s.writer, s.worker.state.resp))
    else if s.second.consumer.CIdle? then s.(second := Request(s.second))
    else if s.second.consumer.CUnlock? then
      s.(second := Deliver(s.second), writer := Received(s.writer, s.second.consumer.f))
    else s.(second := ConsumerStep(s.second))
  }

  /** A thread takes a step, or one of the four waits ends without a broadcast. */
  datatype Step = RunMain | RunWorker | RunWriter | WakeMain | WakeWorkerInput | WakeWorkerOutput | WakeWriter

  predicate IsWake(step: Step) {
    step.WakeMain? || step.WakeWorkerInput? || step.WakeWorkerOutput? || step.WakeWriter?
  }

  predicate Enabled(s: System, step: Step) {
    match step
    case RunMain => MainReady(s)
    case RunWorker => WorkerReady(s)
    case RunWriter => WriterReady(s)
    case WakeMain => s.first.producer.PSleep?
    case WakeWorkerInput => s.first.consumer.CSleep?
    case WakeWorkerOutput => s.second.producer.PSleep?
    case WakeWriter => s.second.consumer.CSleep?
  }

  function Next(c: Config, s: System, step: Step): System
    requires Enabled(s, step)
  {
    match step
    case RunMain => MainStep(s)
    case RunWorker => WorkerStep(c, s)
    case RunWriter => WriterStep(s)
    case WakeMain => s.(first := WakeProducer(s.first))
    case WakeWorkerInput => s.(first := WakeConsumer(s.first))
    case WakeWorkerOutput => s.(second := WakeProducer(s.second))
    case WakeWriter => s.(second := WakeConsumer(s.second))
  }

  /** A schedule the threads can follow from a state. */
  predicate Possible(c: Config, s: System, steps: seq<Step>)
    decreases |steps|
  {
    steps == [] || (Enabled(s, steps[0]) && Possible(c, Next(c, s, steps[0]), steps[1..]))
  }

  function After(c: Config, s: System, steps: seq<Step>): System
    requires Possible(c, s, steps)
    decreases |steps|
  {
    if steps == [] then s else After(c, Next(c, s, steps[0]), steps[1..])
  }

  function Wakes(steps: seq<Step>): nat {
    if steps == [] then 0 else (if IsWake(steps[0]) then 1 else 0) + Wakes(steps[1..])
  }
}
