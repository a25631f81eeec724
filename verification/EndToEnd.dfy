/** From the packets the input accepts to the totals the output reports. */
module EndToEnd {
  import opened Sequences
  import opened Packets
  import opened Frames
  import opened MatcherSpec
  import opened MatcherLaws
  import opened WindowLaws
  import opened Records
  import FrameLaws
  import InputSpec
  import InputThread
  import MatcherThread
  import O = OutputThread
  import P = Pipeline
  import PipelineLaws
  import Window

  // ------------------------------------------------ counting

  function CountIn(s: seq<Packet>, chosen: set<Packet>): nat {
    if s == [] then 0 else CountIn(s[..|s| - 1], chosen) + if s[|s| - 1] in chosen then 1 else 0
  }

  lemma {:induction false} CountInAll(s: seq<Packet>, chosen: set<Packet>)
    requires NoDuplicates(s) && forall p :: p in chosen ==> p in s
    ensures CountIn(s, chosen) == |chosen|
  {
    if s == [] {
      assert chosen == {};
    } else {
      var n := |s| - 1;
      var rest := chosen - {s[n]};
      SplitLast(s);
      assert s[n] !in s[..n];
      CountInAll(s[..n], rest);
      CountInOthers(s[..n], chosen, s[n]);
      if s[n] in chosen { assert chosen == rest + {s[n]}; } else { assert chosen == rest; }
    }
  }

  lemma {:induction false} CountInOthers(s: seq<Packet>, chosen: set<Packet>, p: Packet)
    requires p !in s
    ensures CountIn(s, chosen - {p}) == CountIn(s, chosen)
  {
    if s != [] { CountInOthers(s[..|s| - 1], chosen, p); }
  }

  /** As many responses are hung on requests as requests have one. */
  lemma {:induction false} ValuesCount(resp: map<Packet, Packet>)
    requires forall q, q' :: q in resp && q' in resp && resp[q] == resp[q'] ==> q == q'
    ensures |resp.Values| == |resp.Keys|
    decreases |resp.Keys|
  {
    if resp.Keys == {} {
      assert resp.Values == {};
    } else {
      var q :| q in resp.Keys;
      var rest := resp - {q};
      assert rest.Keys == resp.Keys - {q};
      ValuesCount(rest);
      assert resp.Values == rest.Values + {resp[q]} by {
        forall r | r in resp.Values ensures r in rest.Values + {resp[q]} {
          var x :| x in resp && resp[x] == r;
          if x != q { assert x in rest; }
        }
      }
      assert resp[q] !in rest.Values;
    }
  }

  /** The number of responses. */
  function Responses(packets: seq<Packet>): nat {
    if packets == [] then 0
    else Responses(packets[..|packets| - 1]) + if packets[|packets| - 1].h.isResponse then 1 else 0
  }

  lemma {:induction false} TallyCounts(packets: seq<Packet>, resp: map<Packet, Packet>)
    requires forall q :: q in resp ==> !q.h.isResponse
    ensures var t := Tally(RecordsWith(packets, resp));
            && t.items == |packets| && t.responseOnly == Responses(packets)
            && t.requestOnly == |packets| - Responses(packets) - CountIn(packets, resp.Keys)
  {
    if packets != [] {
      var n := |packets| - 1;
      TallyCounts(packets[..n], resp);
      TallySnoc(RecordsWith(packets[..n], resp), Record(packets[n], ResponseOf(resp, packets[n])));
    }
  }

  lemma {:induction false} UnmatchedCounts(arrived: seq<Packet>, responses: set<Packet>)
    requires forall r :: r in responses ==> r.h.isResponse
    ensures |Unmatched(arrived, responses)| + CountIn(arrived, responses) == |arrived|
    ensures Responses(Unmatched(arrived, responses)) + CountIn(arrived, responses) == Responses(arrived)
  {
    if arrived != [] {
      var n := |arrived| - 1;
      var before := Unmatched(arrived[..n], responses);
      UnmatchedCounts(arrived[..n], responses);
      assert (before + [arrived[n]])[..|before|] == before;
      assert before + [] == before;
    }
  }

  /** What the totals say about the packets that came: one record for each packet that is not a
      matched response; the requests and the responses that have no partner are counted apart. */
  ghost predicate Accounts(t: Counts, arrived: seq<Packet>, resp: map<Packet, Packet>) {
    && t.items == |arrived| - |resp|
    && t.requestOnly == |arrived| - Responses(arrived) - |resp|
    && t.responseOnly == Responses(arrived) - |resp|
  }

  /** The totals account for every packet. */
  lemma Accounted(c: Config, r: State, arrived: seq<Packet>)
    requires NoDuplicates(arrived) && Delivered(c, r, arrived)
    ensures var t := Tally(RecordsWith(Contents(r.sent), r.resp));
            Accounts(t, arrived, r.resp) && |arrived| == t.items + (t.items - t.requestOnly - t.responseOnly)
  {
    var items := Contents(r.sent);
    TallyCounts(items, r.resp);
    UnmatchedNoDuplicates(arrived, r.resp.Values);
    CountInAll(items, r.resp.Keys);
    ValuesCount(r.resp);
    ResponsesArrived(c, r.resp, arrived);
    CountInAll(arrived, r.resp.Values);
    UnmatchedCounts(arrived, r.resp.Values);
    assert |r.resp.Keys| == |r.resp|;
  }

  /** The output thread gets a stream it can write: its assertions hold. */
  lemma MatcherStream(c: Config, frames: seq<Frame>)
    requires NoDuplicates(Contents(frames)) && forall f :: f in frames ==> Regular(f)
    ensures O.Stream(Run(c, INITIAL, Program(frames)).sent)
  {
    var r := Run(c, INITIAL, Program(frames));
    MatcherDelivers(c, frames);
    FrameLaws.FramesTimed(c, frames);
    var n := |r.sent| - 1;
    TiledMeans(r.sent[..n], r.out.end, c.maxDuration, c.maxSize);
    forall i | 0 <= i < n ensures !r.sent[i].final {
      assert r.sent[i] == r.sent[..n][i];
    }
  }

  // ------------------------------------------------ the collector

  lemma {:induction false} RegularsOf(frames: seq<Frame>, end: int)
    requires forall f :: f in frames ==> !f.final
    ensures MatcherThread.Regulars(frames + [FinalFrame(end)]) == frames &&
            MatcherThread.HasFinal(frames + [FinalFrame(end)])
  {
    if frames == [] {
      assert frames + [FinalFrame(end)] == [FinalFrame(end)];
    } else {
      assert (frames + [FinalFrame(end)])[1..] == frames[1..] + [FinalFrame(end)];
      RegularsOf(frames[1..], end);
      assert frames == [frames[0]] + frames[1..];
    }
  }

  /** The input thread alone. */
  method ReadAll(ic: InputSpec.Config, events: seq<InputSpec.Event>) returns (frames: seq<Frame>)
    ensures frames == InputSpec.Finish(InputSpec.Run(ic, InputSpec.INITIAL, events))
  {
    var input := new InputThread.Input(ic);
    input.Work(events);
    frames := input.output;
  }

  /** The matcher thread alone: the response fields end up as in the run of its program. */
  method MatchAll(c: Config, seed: uint64, frames: seq<Frame>, ghost regulars: seq<Frame>, ghost end: int)
    returns (sent: seq<Frame>, ghost resp: map<Packet, Packet>)
    requires seed > 0x100 && frames == regulars + [FinalFrame(end)] && forall f :: f in regulars ==> Regular(f)
    requires NoDuplicates(Contents(regulars)) && Carry(Contents(regulars), map[])
    modifies Contents(regulars)`response
    ensures var r := Run(c, INITIAL, Program(regulars)); sent == r.sent && resp == r.resp
    ensures Carry(Contents(regulars), resp)
  {
    RegularsOf(regulars, end);
    ghost var packets := Contents(regulars);
    assert Carry(packets, map[]);
    var m := new MatcherThread.Matcher(c, frames, seed);
    assert Run(c, INITIAL, []) == INITIAL;
    assert m.Coming() == packets && Carry(packets, map[]);
    m.Work();
    sent, resp := m.output, m.window.resp;
    assert Window.OpenWindow(0);
  }

  /** The output thread alone. */
  method WriteEverything(period: int, frames: seq<Frame>, ghost resp: map<Packet, Packet>)
    returns (total: Counts, ghost files: seq<O.File>)
    requires O.Stream(frames) && Carry(Contents(frames), resp)
    ensures O.Arranged(period, files) && O.Flat(files) == RecordsWith(Contents(frames), resp)
    ensures O.AllOpened(files, frames) && O.AllCovered(period, files, frames)
    ensures OrderedFrames(frames[..|frames| - 1], NO_TIME) ==> O.Spans(period, files)
    ensures total == Tally(O.Flat(files))
  {
    ghost var packets := Contents(frames);
    assert Carry(packets, resp);
    var output := new O.Output(period);
    assert Carry(packets, resp);
    output.Work(frames, resp);
    total, files := output.total, output.files;
  }

  /** One thread after the other: the files hold the accepted packets in order without the matched
      responses, in time, and the totals account for every packet accepted. When the packets came in
      order of time, each file spans at most the period. */
  method Collect(ic: InputSpec.Config, c: Config, seed: uint64, period: int, events: seq<InputSpec.Event>)
    returns (total: Counts, ghost files: seq<O.File>, ghost resp: map<Packet, Packet>)
    requires seed > 0x100 && NoDuplicates(InputSpec.AcceptedPackets(events))
    requires Carry(InputSpec.AcceptedPackets(events), map[])
    modifies InputSpec.AcceptedPackets(events)`response
    ensures O.Arranged(period, files) && Paired(c, resp, InputSpec.AcceptedPackets(events))
    ensures O.Flat(files) == RecordsWith(Unmatched(InputSpec.AcceptedPackets(events), resp.Values), resp)
    ensures total == Tally(O.Flat(files)) && Accounts(total, InputSpec.AcceptedPackets(events), resp)
    ensures InputSpec.InOrder(ic, events) ==>
              O.Spans(period, files) && Guaranteed(c, resp, InputSpec.AcceptedPackets(events))
    ensures |InputSpec.AcceptedPackets(events)| == total.items + (total.items - total.requestOnly - total.responseOnly)
  {
    ghost var packets := InputSpec.AcceptedPackets(events);
    assert Carry(packets, map[]);
    var frames := ReadAll(ic, events);
    assert Carry(packets, map[]);
    ghost var regulars, end := InputSpec.InputDelivers(ic, events);
    var sent;
    sent, resp := MatchAll(c, seed, frames, regulars, end);
    MatcherDelivers(c, regulars);
    MatcherStream(c, regulars);
    ghost var r := Run(c, INITIAL, Program(regulars));
    forall p | p in Contents(sent) ensures p in Contents(regulars) {
      UnmatchedIn(Contents(regulars), r.resp.Values, p);
    }
    total, files := WriteEverything(period, sent, resp);
    Accounted(c, r, Contents(regulars));
    if InputSpec.InOrder(ic, events) { OrderedRun(ic, c, events, regulars, end); }
  }

  /** Events in order of time: the matcher's guarantee holds, and what it sends is in order again. */
  lemma OrderedRun(ic: InputSpec.Config, c: Config, events: seq<InputSpec.Event>, frames: seq<Frame>, end: int)
    requires InputSpec.InOrder(ic, events) && NoDuplicates(Contents(frames))
    requires InputSpec.Finish(InputSpec.Run(ic, InputSpec.INITIAL, events)) == frames + [FinalFrame(end)]
    ensures var r := Run(c, INITIAL, Program(frames)); Guaranteed(c, r.resp, Contents(frames)) && SentInOrder(r)
  {
    InputSpec.InputOrdered(ic, events);
    FramesAre(ic, events, frames, end);
    WindowGuarantee(c, frames);
  }

  /** The files the output leaves when it has received a stream of the matcher. */
  lemma FilesWritten(c: Config, period: int, frames: seq<Frame>, resp: map<Packet, Packet>)
    requires NoDuplicates(Contents(frames)) && forall f :: f in frames ==> Regular(f)
    ensures var sent := Run(c, INITIAL, Program(frames)).sent;
            var files := O.WriteFrames(period, [], sent, resp);
            && O.Arranged(period, files) && O.Flat(files) == RecordsWith(Contents(sent), resp)
            && O.AllOpened(files, sent) && O.AllCovered(period, files, sent)
            && (SentInOrder(Run(c, INITIAL, Program(frames))) ==> O.Spans(period, files))
  {
    MatcherStream(c, frames);
    O.StreamFiles(period, Run(c, INITIAL, Program(frames)).sent, resp);
  }

  /** All threads at once, under every schedule: when they have ended, the records written are the
      accepted packets in order without the matched responses, which hang on earlier requests with
      their keys; they are in the files in time; and the totals account for every packet accepted.
      When the input came in order of time, the window guarantee holds and each file spans at most the
      period. */
  lemma CollectorDelivers(ic: InputSpec.Config, c: Config, capacity: nat, period: int, events: seq<InputSpec.Event>,
                          steps: seq<P.Step>)
    returns (resp: map<Packet, Packet>)
    requires 0 < capacity && NoDuplicates(InputSpec.AcceptedPackets(events))
    requires P.Possible(c, P.Start(capacity, InputSpec.Finish(InputSpec.Run(ic, InputSpec.INITIAL, events))), steps)
    ensures var accepted := InputSpec.AcceptedPackets(events);
            var s :=
              P.After(c, P.Start(capacity, InputSpec.Finish(InputSpec.Run(ic, InputSpec.INITIAL, events))), steps);
            var files := O.WriteFrames(period, [], s.writer.received, resp);
            && Paired(c, resp, accepted) && Faithful(s.writer.log, resp)
            && PacketsOf(s.writer.log) <= Unmatched(accepted, resp.Values)
            && (s.main.Exited? ==> PacketsOf(s.writer.log) == Unmatched(accepted, resp.Values))
            && (s.main.Exited? ==> O.Arranged(period, files) && O.Flat(files) == s.writer.log)
            && (s.main.Exited? ==> var t := Tally(O.Flat(files));
                                   && Accounts(t, accepted, resp)
                                   && |accepted| == t.items + (t.items - t.requestOnly - t.responseOnly))
            && (s.main.Exited? ==> O.AllOpened(files, s.writer.received))
            && (s.main.Exited? ==> O.AllCovered(period, files, s.writer.received))
            && (InputSpec.InOrder(ic, events) ==> Guaranteed(c, resp, accepted))
            && (InputSpec.InOrder(ic, events) && s.main.Exited? ==> O.Spans(period, files))
  {
    var frames, end := InputSpec.InputDelivers(ic, events);
    var accepted := InputSpec.AcceptedPackets(events);
    var r := Run(c, INITIAL, Program(frames));
    resp := r.resp;
    PipelineLaws.PipelineDelivers(c, capacity, frames, end, steps);
    MatcherDelivers(c, frames);
    Accounted(c, r, accepted);
    FilesWritten(c, period, frames, resp);
    var s := P.After(c, P.Start(capacity, frames + [FinalFrame(end)]), steps);
    if s.main.Exited? { LogPackets(s.writer.log, Contents(r.sent), resp); }
    if InputSpec.InOrder(ic, events) { OrderedRun(ic, c, events, frames, end); }
  }

  lemma FramesAre(ic: InputSpec.Config, events: seq<InputSpec.Event>, frames: seq<Frame>, end: int)
    requires InputSpec.Finish(InputSpec.Run(ic, InputSpec.INITIAL, events)) == frames + [FinalFrame(end)]
    ensures frames == InputSpec.Emit(InputSpec.Run(ic, InputSpec.INITIAL, events)).sent
  {
    var s := InputSpec.Run(ic, InputSpec.INITIAL, events);
    assert InputSpec.Finish(s)[..|frames|] == frames;
  }

  lemma {:induction false} LogPackets(log: seq<Record>, packets: seq<Packet>, resp: map<Packet, Packet>)
    requires log == RecordsWith(packets, resp)
    ensures PacketsOf(log) == packets
    decreases |packets|
  {
    if packets != [] {
      var n := |packets| - 1;
      var before := RecordsWith(packets[..n], resp);
      LogPackets(before, packets[..n], resp);
      TallySnoc(before, Record(packets[n], ResponseOf(resp, packets[n])));
      SplitLast(packets);
    }
  }
}
