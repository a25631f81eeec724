/** What every interleaving of the three threads keeps. */
module PipelineLaws {
  import opened Sequences
  import opened Packets
  import opened Frames
  import opened MatcherSpec
  import opened MatcherSteps
  import opened MatcherLaws
  import C = Channel
  import opened Pipeline
  import opened Records

  /** Frames the matcher has not loaded yet. */
  function Coming(s: System): seq<Frame> { C.Line(s.first) + s.todo }

  /** Asserting this opens `Fed`. */
  ghost predicate OpenFed(x: int) { true }

  /** Performing what is loaded and what is still to come leads to the state `goal`. */
  ghost predicate Fed(c: Config, m: State, agenda: seq<Op>, coming: seq<Frame>, goal: State) {
    forall x :: OpenFed(x) ==>
      && (coming != [] ==> coming[|coming| - 1].final)
      && Steady(c, m, agenda + OpsOf(coming))
      && m.out.start <= m.out.end
      && Run(c, m, agenda + OpsOf(coming)) == goal
  }

  /** The first queue brings the matcher the rest of its input. */
  ghost predicate Feeding(c: Config, s: System, goal: State) {
    C.Inv(s.first) && Fed(c, s.worker.state, s.worker.agenda, Coming(s), goal)
  }

  /** The second queue brings the output everything the matcher has sent, in order. */
  ghost predicate Draining(s: System) {
    && C.Inv(s.second)
    && s.worker.state.sent == s.writer.received + (C.Line(s.second) + s.worker.outbox)
    && PacketsOf(s.writer.log) + s.writer.current == Contents(s.writer.received)
    && (s.writer.done <==> s.writer.received != [] && s.writer.received[|s.writer.received| - 1].final)
  }

  /** No thread is in two places at once. */
  ghost predicate Control(s: System) {
    && (!s.first.consumer.CIdle? ==>
          s.worker.outbox == [] && s.worker.agenda == [] && s.second.producer.PIdle? && !s.worker.state.phase.Done?)
    && (!s.second.consumer.CIdle? ==> s.writer.current == [] && !s.writer.done)
    && (!s.main.Sending? ==> s.todo == [] && s.first.producer.PIdle?)
    && (s.main.JoinOutput? || s.main.Exited? ==> WorkerFinished(s))
    && (s.main.Exited? ==> WriterFinished(s))
  }

  ghost predicate PipeInv(c: Config, s: System, goal: State) {
    Feeding(c, s, goal) && Draining(s) && Faithful(s.writer.log, s.worker.state.resp) && Control(s)
  }

  // ------------------------------------------------ the start

  lemma StartInv(c: Config, capacity: nat, frames: seq<Frame>, end: int)
    requires 0 < capacity && NoDuplicates(Contents(frames)) && forall f :: f in frames ==> !f.final
    ensures PipeInv(c, Start(capacity, frames + [FinalFrame(end)]), Run(c, INITIAL, Program(frames)))
  {
    var s := Start(capacity, frames + [FinalFrame(end)]);
    assert Coming(s) == frames + [FinalFrame(end)];
    OpsOfProgram(frames, end);
    assert [] + OpsOf(Coming(s)) == Program(frames);
    assert OpenFed(0);
    SteadyBegin(c, frames);
  }

  // ------------------------------------------------ the main thread

  lemma SubmitInv(c: Config, s: System, goal: State)
    requires PipeInv(c, s, goal) && s.todo != [] && s.first.producer.PIdle? && s.main.Sending?
    ensures PipeInv(c, s.(todo := s.todo[1..], first := C.Submit(s.first, s.todo[0])), goal)
  {
    C.SubmitKeeps(s.first, s.todo[0]);
    assert s.todo == [s.todo[0]] + s.todo[1..];
    ConcatAssoc(C.Line(s.first), [s.todo[0]], s.todo[1..]);
    assert Coming(s.(todo := s.todo[1..], first := C.Submit(s.first, s.todo[0]))) == Coming(s);
  }

  lemma MainInv(c: Config, s: System, goal: State)
    requires PipeInv(c, s, goal) && MainReady(s)
    ensures PipeInv(c, MainStep(s), goal)
  {
    if !s.first.producer.PIdle? {
      C.ProducerKeeps(s.first);
    } else if s.main.Sending? && s.todo != [] {
      SubmitInv(c, s, goal);
    }
  }

  // ------------------------------------------------ the matcher thread

  lemma FedLoad(c: Config, m: State, f: Frame, coming: seq<Frame>, goal: State)
    requires Fed(c, m, [], [f] + coming, goal)
    ensures Fed(c, m, OpsFor(f), coming, goal)
  {
    assert OpenFed(0);
    assert ([f] + coming)[1..] == coming;
    assert [] + OpsOf([f] + coming) == OpsFor(f) + OpsOf(coming);
  }

  lemma LoadInv(c: Config, s: System, goal: State)
    requires PipeInv(c, s, goal) && s.first.consumer.CUnlock?
    ensures PipeInv(c, s.(first := C.Deliver(s.first), worker := s.worker.(agenda := OpsFor(s.first.consumer.f))), goal)
  {
    var f, line := s.first.consumer.f, C.Line(C.Deliver(s.first));
    C.DeliverKeeps(s.first);
    ConcatAssoc([f], line, s.todo);
    FedLoad(c, s.worker.state, f, line + s.todo, goal);
  }

  lemma LogStays(log: seq<Record>, received: seq<Frame>, current: seq<Packet>, m: State, m': State)
    requires PacketsOf(log) + current == Contents(received) && received <= m.sent && Frozen(m, m')
    requires Faithful(log, m.resp)
    ensures Faithful(log, m'.resp)
  {
    forall i | 0 <= i < |log| ensures log[i].response == ResponseOf(m'.resp, log[i].packet) {
      LogPacket(log, i);
      assert log[i].packet in Contents(received);
      ContentsConcat(received, m.sent[|received|..]);
      assert m.sent == received + m.sent[|received|..];
    }
  }

  lemma {:induction false} LogPacket(log: seq<Record>, i: nat)
    requires i < |log|
    ensures log[i].packet in PacketsOf(log)
  {
    var n := |log| - 1;
    if i < n { LogPacket(log[..n], i); }
  }

  lemma FedPerform(c: Config, m: State, agenda: seq<Op>, coming: seq<Frame>, goal: State)
    requires Fed(c, m, agenda, coming, goal) && agenda != []
    ensures m.out.start <= m.out.end
    ensures var r := MicroStep(c, m, agenda);
            Fed(c, r.state, r.ops, coming, goal) && m.sent <= r.state.sent && Frozen(m, r.state)
  {
    assert OpenFed(0);
    var rest := agenda + OpsOf(coming);
    MicroSteady(c, m, rest);
    MicroRun(c, m, rest);
    MicroConcat(c, m, agenda, OpsOf(coming));
  }

  lemma WorkerMoves(c: Config, s: System, goal: State, w: Worker)
    requires PipeInv(c, s, goal) && s.worker.agenda != [] && s.worker.outbox == [] && s.second.producer.PIdle?
    requires Fed(c, w.state, w.agenda, Coming(s), goal) && Frozen(s.worker.state, w.state)
    requires w.state.sent == s.worker.state.sent + w.outbox
    ensures PipeInv(c, s.(worker := w), goal)
  {
    ConcatAssoc(s.writer.received, C.Line(s.second), w.outbox);
    LogStays(s.writer.log, s.writer.received, s.writer.current, s.worker.state, w.state);
  }

  lemma PerformInv(c: Config, s: System, goal: State)
    requires PipeInv(c, s, goal) && s.worker.agenda != [] && s.worker.outbox == [] && s.second.producer.PIdle?
    ensures PipeInv(c, s.(worker := Performed(c, s.worker)), goal)
  {
    FedPerform(c, s.worker.state, s.worker.agenda, Coming(s), goal);
    WorkerMoves(c, s, goal, Performed(c, s.worker));
  }

  lemma SendInv(c: Config, s: System, goal: State)
    requires PipeInv(c, s, goal) && s.worker.outbox != [] && s.second.producer.PIdle?
    ensures PipeInv(c, s.(worker := s.worker.(outbox := s.worker.outbox[1..]),
                          second := C.Submit(s.second, s.worker.outbox[0])), goal)
  {
    C.SubmitKeeps(s.second, s.worker.outbox[0]);
    assert s.worker.outbox == [s.worker.outbox[0]] + s.worker.outbox[1..];
    ConcatAssoc(C.Line(s.second), [s.worker.outbox[0]], s.worker.outbox[1..]);
  }

  lemma WorkerInv(c: Config, s: System, goal: State)
    requires PipeInv(c, s, goal) && WorkerReady(s)
    ensures PipeInv(c, WorkerStep(c, s), goal)
  {
    if !s.second.producer.PIdle? {
      C.ProducerKeeps(s.second);
    } else if s.worker.outbox != [] {
      SendInv(c, s, goal);
    } else if s.worker.agenda != [] {
      PerformInv(c, s, goal);
    } else if s.first.consumer.CIdle? {
      C.RequestKeeps(s.first);
    } else if s.first.consumer.CUnlock? {
      LoadInv(c, s, goal);
    } else {
      C.ConsumerKeeps(s.first);
    }
  }

  // ------------------------------------------------ the output thread

  lemma WriteInv(c: Config, s: System, goal: State)
    requires PipeInv(c, s, goal) && s.writer.current != []
    ensures PipeInv(c, s.(writer := Written(s.writer, s.worker.state.resp)), goal)
  {
    var w := s.writer;
    var p := w.current[0];
    var record := Record(p, ResponseOf(s.worker.state.resp, p));
    assert (w.log + [record])[..|w.log|] == w.log;
    assert w.current == [p] + w.current[1..];
    ConcatAssoc(PacketsOf(w.log), [p], w.current[1..]);
  }

  lemma ReceiveInv(c: Config, s: System, goal: State)
    requires PipeInv(c, s, goal) && s.second.consumer.CUnlock?
    ensures PipeInv(c, s.(second := C.Deliver(s.second), writer := Received(s.writer, s.second.consumer.f)), goal)
  {
    var f, w := s.second.consumer.f, s.writer;
    C.DeliverKeeps(s.second);
    ContentsSnoc(w.received, f);
    ConcatAssoc([f], C.Line(C.Deliver(s.second)), s.worker.outbox);
    ConcatAssoc(w.received, [f], C.Line(C.Deliver(s.second)) + s.worker.outbox);
    assert PacketsOf(w.log) + [] == PacketsOf(w.log);
    if f.final {
      assert f in s.worker.state.sent;
      assert OpenFed(0);
      FinalIsEmpty(c, s.worker.state, s.worker.agenda + OpsOf(Coming(s)), f);
    }
  }

  lemma WriterInv(c: Config, s: System, goal: State)
    requires PipeInv(c, s, goal) && WriterReady(s)
    ensures PipeInv(c, WriterStep(s), goal)
  {
    if s.writer.current != [] {
      WriteInv(c, s, goal);
    } else if s.second.consumer.CIdle? {
      C.RequestKeeps(s.second);
    } else if s.second.consumer.CUnlock? {
      ReceiveInv(c, s, goal);
    } else {
      C.ConsumerKeeps(s.second);
    }
  }

  // ------------------------------------------------ every run

  /** Whatever the schedule, no step breaks the invariant. */
  lemma StepInv(c: Config, s: System, step: Step, goal: State)
    requires PipeInv(c, s, goal) && Enabled(s, step)
    ensures PipeInv(c, Next(c, s, step), goal)
  {
    match step
    case RunMain => MainInv(c, s, goal);
    case RunWorker => WorkerInv(c, s, goal);
    case RunWriter => WriterInv(c, s, goal);
    case WakeMain => C.WakeKeeps(s.first);
    case WakeWorkerInput => C.WakeKeeps(s.first);
    case WakeWorkerOutput => C.WakeKeeps(s.second);
    case WakeWriter => C.WakeKeeps(s.second);
  }

  lemma {:induction false} RunInv(c: Config, s: System, steps: seq<Step>, goal: State)
    requires PipeInv(c, s, goal) && Possible(c, s, steps)
    ensures PipeInv(c, After(c, s, steps), goal)
    decreases |steps|
  {
    if steps != [] {
      StepInv(c, s, steps[0], goal);
      RunInv(c, Next(c, s, steps[0]), steps[1..], goal);
    }
  }

  // ------------------------------------------------ no deadlock

  /** A matcher that is not done still expects frames, so it cannot be asleep with none to come. */
  lemma WorkerExpects(c: Config, s: System, goal: State)
    requires PipeInv(c, s, goal) && s.worker.agenda == []
    ensures s.worker.state.phase.Done? <==> Coming(s) == []
  {
    assert OpenFed(0);
    assert [] + OpsOf(Coming(s)) == OpsOf(Coming(s));
    if Coming(s) != [] { OpsOfLast(Coming(s)); }
  }

  /** The output is done exactly when it has received everything a finished matcher sent. */
  lemma WriterExpects(c: Config, s: System, goal: State)
    requires PipeInv(c, s, goal)
    ensures s.writer.done <==> s.worker.state.phase.Done? && C.Line(s.second) == [] && s.worker.outbox == []
  {
    var m, w := s.worker.state, s.writer;
    var ahead := C.Line(s.second) + s.worker.outbox;
    assert m.sent == w.received + ahead;
    assert ahead != [] ==> m.sent[..|m.sent| - 1] == w.received + ahead[..|ahead| - 1];
    assert ahead == [] ==> m.sent == w.received;
    assert w.received != [] ==> m.sent[|w.received| - 1] == w.received[|w.received| - 1];
    assert OpenFed(0);
    if !m.phase.Done? { TiledMeans(m.sent, m.out.start, c.maxDuration, c.maxSize); }
  }

  /** In every reachable state some thread can run, unless all of them have ended. */
  lemma NoDeadlock(c: Config, s: System, goal: State)
    requires PipeInv(c, s, goal) && !MainReady(s) && !WorkerReady(s) && !WriterReady(s)
    ensures s.main.Exited?
  {
    C.Blocked(s.first);
    C.Blocked(s.second);
    if s.worker.agenda == [] { WorkerExpects(c, s, goal); }
    WriterExpects(c, s, goal);
  }

  // ------------------------------------------------ what is written

  /** At any time, what the output has received and written is a beginning of the final result,
      with final responses: the matcher never changes a packet the output may be reading. */
  lemma WrittenIsFinal(c: Config, s: System, goal: State)
    requires PipeInv(c, s, goal)
    ensures s.writer.received + (C.Line(s.second) + s.worker.outbox) <= goal.sent
    ensures PacketsOf(s.writer.log) <= Contents(s.writer.received) <= Contents(goal.sent)
    ensures Faithful(s.writer.log, goal.resp) && Finished(goal.sent)
  {
    var m, w := s.worker.state, s.writer;
    FedFrozen(c, m, s.worker.agenda, Coming(s), goal);
    LogStays(w.log, w.received, w.current, m, goal);
    ContentsPrefix(w.received, goal.sent);
  }

  lemma FedFrozen(c: Config, m: State, agenda: seq<Op>, coming: seq<Frame>, goal: State)
    requires Fed(c, m, agenda, coming, goal)
    ensures m.sent <= goal.sent && Frozen(m, goal) && Finished(goal.sent)
  {
    assert OpenFed(0);
    StepsFrozen(c, m, agenda + OpsOf(coming));
  }

  lemma ContentsPrefix(a: seq<Frame>, b: seq<Frame>)
    requires a <= b
    ensures Contents(a) <= Contents(b)
  {
    ContentsConcat(a, b[|a|..]);
    assert b == a + b[|a|..];
  }

  /** When all threads have ended, the output has written one record for each packet the matcher
      sends on these frames, in order, with its response, and both queues are empty. */
  lemma Ended(c: Config, s: System, goal: State)
    requires PipeInv(c, s, goal) && s.main.Exited?
    ensures s.worker.state == goal && s.writer.received == goal.sent
    ensures PacketsOf(s.writer.log) == Contents(goal.sent) && Faithful(s.writer.log, goal.resp)
    ensures C.Line(s.first) == [] && C.Line(s.second) == []
  {
    WorkerExpects(c, s, goal);
    WriterExpects(c, s, goal);
    assert OpenFed(0);
    assert s.worker.agenda + OpsOf(Coming(s)) == [];
    assert s.writer.received + ([] + []) == s.writer.received;
    assert PacketsOf(s.writer.log) + [] == PacketsOf(s.writer.log);
  }

  // ------------------------------------------------ termination

  function MainRank(main: Main): nat {
    match main
    case Sending => 3
    case JoinMatcher => 2
    case JoinOutput => 1
    case Exited => 0
  }

  /** A bound on the steps the threads can still take when no wait ends without a broadcast. */
  function Work(c: Config, s: System, goal: State): int {
    MicroSteps(c, s.worker.state, s.worker.agenda + OpsOf(Coming(s))) + 8 * |s.todo| + 8 * |Coming(s)| +
    C.Rank(s.first) + C.Rank(s.second) +
    8 * (|goal.sent| - |s.writer.received| - |C.Line(s.second)|) + 8 * (|goal.sent| - |s.writer.received|) +
    (|Contents(goal.sent)| - |s.writer.log|) + MainRank(s.main)
  }

  lemma WorkLeft(c: Config, s: System, goal: State)
    requires PipeInv(c, s, goal)
    ensures Work(c, s, goal) >= 0
  {
    WrittenIsFinal(c, s, goal);
    PacketsOfLength(s.writer.log);
  }

  lemma MainWork(c: Config, s: System, goal: State)
    requires PipeInv(c, s, goal) && MainReady(s)
    ensures Work(c, MainStep(s), goal) < Work(c, s, goal)
  {
    if !s.first.producer.PIdle? {
      C.ProducerKeeps(s.first);
    } else if s.main.Sending? && s.todo != [] {
      C.SubmitKeeps(s.first, s.todo[0]);
      assert s.todo == [s.todo[0]] + s.todo[1..];
      ConcatAssoc(C.Line(s.first), [s.todo[0]], s.todo[1..]);
    }
  }

  lemma LoadWork(c: Config, s: System, goal: State)
    requires PipeInv(c, s, goal) && s.first.consumer.CUnlock?
    ensures Work(c, s.(first := C.Deliver(s.first), worker := s.worker.(agenda := OpsFor(s.first.consumer.f))), goal) <
            Work(c, s, goal)
  {
    var f, coming := s.first.consumer.f, C.Line(C.Deliver(s.first)) + s.todo;
    C.DeliverKeeps(s.first);
    ConcatAssoc([f], C.Line(C.Deliver(s.first)), s.todo);
    assert ([f] + coming)[1..] == coming;
    assert [] + OpsOf([f] + coming) == OpsFor(f) + OpsOf(coming);
  }

  lemma PerformWork(c: Config, s: System, goal: State)
    requires PipeInv(c, s, goal) && s.worker.agenda != []
    ensures Work(c, s.(worker := Performed(c, s.worker)), goal) < Work(c, s, goal)
  {
    var m, agenda, more := s.worker.state, s.worker.agenda, OpsOf(Coming(s));
    FedPerform(c, m, agenda, Coming(s), goal);
    MicroConcat(c, m, agenda, more);
    MicroStepsLeft(c, m, agenda + more);
  }

  lemma WorkerWork(c: Config, s: System, goal: State)
    requires PipeInv(c, s, goal) && WorkerReady(s)
    ensures Work(c, WorkerStep(c, s), goal) < Work(c, s, goal)
  {
    if !s.second.producer.PIdle? {
      C.ProducerKeeps(s.second);
    } else if s.worker.outbox != [] {
      C.SubmitKeeps(s.second, s.worker.outbox[0]);
    } else if s.worker.agenda != [] {
      PerformWork(c, s, goal);
    } else if s.first.consumer.CIdle? {
      C.RequestKeeps(s.first);
    } else if s.first.consumer.CUnlock? {
      LoadWork(c, s, goal);
    } else {
      C.ConsumerKeeps(s.first);
    }
  }

  lemma WriterWork(c: Config, s: System, goal: State)
    requires PipeInv(c, s, goal) && WriterReady(s)
    ensures Work(c, WriterStep(s), goal) < Work(c, s, goal)
  {
    if s.writer.current != [] {
    } else if s.second.consumer.CIdle? {
      C.RequestKeeps(s.second);
    } else if s.second.consumer.CUnlock? {
      C.DeliverKeeps(s.second);
    } else {
      C.ConsumerKeeps(s.second);
    }
  }

  lemma StepWork(c: Config, s: System, step: Step, goal: State)
    requires PipeInv(c, s, goal) && Enabled(s, step)
    ensures Work(c, Next(c, s, step), goal) <= Work(c, s, goal) + if IsWake(step) then 2 else -1
  {
    match step
    case RunMain => MainWork(c, s, goal);
    case RunWorker => WorkerWork(c, s, goal);
    case RunWriter => WriterWork(c, s, goal);
    case WakeMain => C.WakeKeeps(s.first);
    case WakeWorkerInput => C.WakeKeeps(s.first);
    case WakeWorkerOutput => C.WakeKeeps(s.second);
    case WakeWriter => C.WakeKeeps(s.second);
  }

  /** No schedule goes on for ever: apart from waits that end without a broadcast, and three steps
      for each of those, the number of steps is bounded beforehand. */
  lemma {:induction false} RunWork(c: Config, s: System, steps: seq<Step>, goal: State)
    requires PipeInv(c, s, goal) && Possible(c, s, steps)
    ensures |steps| <= Work(c, s, goal) + 3 * Wakes(steps)
    decreases |steps|
  {
    if steps == [] {
      WorkLeft(c, s, goal);
    } else {
      StepInv(c, s, steps[0], goal);
      StepWork(c, s, steps[0], goal);
      RunWork(c, Next(c, s, steps[0]), steps[1..], goal);
    }
  }

  // ------------------------------------------------ the collector

  /** Whenever the threads have not all ended, one of them can run. */
  lemma CanRun(c: Config, s: System, goal: State)
    requires PipeInv(c, s, goal)
    ensures s.main.Exited? || exists step :: Enabled(s, step) && !IsWake(step)
  {
    if MainReady(s) {
      assert Enabled(s, RunMain);
    } else if WorkerReady(s) {
      assert Enabled(s, RunWorker);
    } else if WriterReady(s) {
      assert Enabled(s, RunWriter);
    } else {
      NoDeadlock(c, s, goal);
    }
  }

  /** And from every reachable state the threads can be run to their end. */
  lemma {:induction false} CanFinish(c: Config, s: System, goal: State) returns (steps: seq<Step>)
    requires PipeInv(c, s, goal)
    ensures Possible(c, s, steps) && After(c, s, steps).main.Exited? && Wakes(steps) == 0
    decreases Work(c, s, goal)
  {
    if s.main.Exited? {
      steps := [];
    } else {
      CanRun(c, s, goal);
      var step :| Enabled(s, step) && !IsWake(step);
      StepInv(c, s, step, goal);
      StepWork(c, s, step, goal);
      WorkLeft(c, s, goal);
      var rest := CanFinish(c, Next(c, s, step), goal);
      steps := [step] + rest;
      assert steps[1..] == rest;
    }
  }

  /** What holds of the records in every reachable state, and at the end. */
  lemma LogIsRight(c: Config, s: System, goal: State)
    requires PipeInv(c, s, goal)
    ensures PacketsOf(s.writer.log) <= Contents(goal.sent) && Faithful(s.writer.log, goal.resp)
    ensures s.main.Exited? ==>
            s.writer.received == goal.sent && s.writer.log == RecordsWith(Contents(goal.sent), goal.resp)
  {
    WrittenIsFinal(c, s, goal);
    RecordsAre(s.writer.log, goal.resp);
    if s.main.Exited? { Ended(c, s, goal); }
  }

  /** Every schedule of the three threads, from the start: never stuck before the end, bounded in
      length, and at the end the records written are those of the matcher's run on the frames. */
  lemma PipelineDelivers(c: Config, capacity: nat, frames: seq<Frame>, end: int, steps: seq<Step>)
    requires 0 < capacity && NoDuplicates(Contents(frames)) && forall f :: f in frames ==> !f.final
    requires Possible(c, Start(capacity, frames + [FinalFrame(end)]), steps)
    ensures var start, goal := Start(capacity, frames + [FinalFrame(end)]), Run(c, INITIAL, Program(frames));
            var s := After(c, start, steps);
            && |s.first.content| <= capacity && |s.second.content| <= capacity
            && (s.main.Exited? || exists step :: Enabled(s, step) && !IsWake(step))
            && |steps| <= Work(c, start, goal) + 3 * Wakes(steps)
            && PacketsOf(s.writer.log) <= Contents(goal.sent) && Faithful(s.writer.log, goal.resp)
            && (s.main.Exited? ==> s.writer.received == goal.sent &&
                                   s.writer.log == RecordsWith(Contents(goal.sent), goal.resp))
  {
    var start, goal := Start(capacity, frames + [FinalFrame(end)]), Run(c, INITIAL, Program(frames));
    var s := After(c, start, steps);
    StartInv(c, capacity, frames, end);
    RunInv(c, start, steps, goal);
    RunWork(c, start, steps, goal);
    CapacityStays(c, start, steps);
    CanRun(c, s, goal);
    LogIsRight(c, s, goal);
  }

  lemma {:induction false} CapacityStays(c: Config, s: System, steps: seq<Step>)
    requires Possible(c, s, steps)
    ensures After(c, s, steps).first.capacity == s.first.capacity &&
            After(c, s, steps).second.capacity == s.second.capacity
    decreases |steps|
  {
    if steps != [] { CapacityStays(c, Next(c, s, steps[0]), steps[1..]); }
  }
}
