/** What every run of the matcher keeps. */
module MatcherLaws {
  import opened Sequences
  import opened Packets
  import opened Frames
  import opened MatcherSpec
  import PacketTable

  // ------------------------------------------------ advancing the time

  /** Everything that has entered and not been hung on a request, in order. */
  function Items(s: State): seq<Packet> {
    Contents(s.sent) + s.out.packets + s.queue
  }

  /** The frames sent and the one being filled follow each other without gaps and keep the limits. */
  ghost predicate Framed(c: Config, s: State) {
    && Tiled(s.sent, s.out.start, c.maxDuration, c.maxSize)
    && Within(s.out, c.maxDuration, c.maxSize) && !s.out.final
  }

  lemma EmitFramed(c: Config, s: State)
    requires Framed(c, s)
    ensures Framed(c, Emit(s)) && Items(Emit(s)) == Items(s)
  {
    ContentsSnoc(s.sent, s.out);
    TiledSnoc(s.sent, s.out, c.maxDuration, c.maxSize);
    assert TotalSize([]) == 0;
  }

  lemma TotalSizeSnoc(packets: seq<Packet>, p: Packet)
    ensures TotalSize(packets + [p]) == TotalSize(packets) + p.h.memorySize
  {
    assert (packets + [p])[..|packets|] == packets;
  }

  lemma EvictFramed(c: Config, s: State)
    requires Framed(c, s) && s.queue != [] && s.queue[0].h.ts < s.out.start + c.maxDuration
    ensures Framed(c, Evict(c, s)) && Items(Evict(c, s)) == Items(s)
  {
    var p := s.queue[0];
    EmitFramed(c, s);
    var s1 := if TotalSize(s.out.packets) + p.h.memorySize > c.maxSize then Emit(s) else s;
    TotalSizeSnoc(s1.out.packets, p);
    assert s.queue == [p] + s.queue[1..];
  }

  /** A frame that is due ends where its duration ends. */
  lemma DueFramed(c: Config, s: State, now: int)
    requires Framed(c, s)
    ensures s.out.end <= s.out.start + c.maxDuration
    ensures var s' := s.(out := s.out.(end := s.out.start + c.maxDuration), now := now);
            Framed(c, s') && Framed(c, Emit(s')) && Items(Emit(s')) == Items(s)
  {
    EmitFramed(c, s.(out := s.out.(end := s.out.start + c.maxDuration), now := now));
  }

  /** One event keeps the frames in order and loses nothing; the assertion that the frame being
      filled has not outgrown its duration holds when it is sent. */
  lemma TickFramed(c: Config, s: State, t: int)
    requires Framed(c, s) && s.now < t
    ensures s.out.end <= s.out.start + c.maxDuration
    ensures Framed(c, Tick(c, s, t)) && Items(Tick(c, s, t)) == Items(s)
    ensures Tick(c, s, t).now <= t && Tick(c, s, t).resp == s.resp && Tick(c, s, t).phase == s.phase
  {
    var ev := NextEvent(c, s);
    if ev > t {
    } else if ev == FrameDue(c, s) {
      DueFramed(c, s, ev);
    } else {
      EvictFramed(c, s);
    }
  }

  /** Advancing ends at the later of the two times, loses nothing and keeps the frames in order. */
  lemma {:induction false} AdvanceFramed(c: Config, s: State, t: int)
    requires Framed(c, s)
    ensures s.out.start <= s.out.end
    ensures var r := AdvanceTo(c, s, t);
            && Framed(c, r) && Items(r) == Items(s)
            && r.now == (if s.now < t then t else s.now) && r.resp == s.resp && r.phase == s.phase
    decreases |s.queue|, Left(s, t), if s.now < t then 1 else 0
  {
    if s.now < t {
      TickFramed(c, s, t);
      AdvanceFramed(c, Tick(c, s, t), t);
    }
  }

  lemma {:induction false} AdvanceGrows(c: Config, s: State, t: int)
    requires s.out.start <= s.out.end
    ensures s.sent <= AdvanceTo(c, s, t).sent
    decreases |s.queue|, Left(s, t), if s.now < t then 1 else 0
  {
    if s.now < t { AdvanceGrows(c, Tick(c, s, t), t); }
  }

  /** An event that is due at the new time is not put off, and nothing happens that is not due. */
  lemma AdvanceStops(c: Config, s: State, t: int)
    requires s.out.start <= s.out.end && s.now < t
    ensures var r, due := AdvanceTo(c, s, t), s.out.start + c.maxDuration + c.window;
            && (due > t && (s.queue != [] ==> s.queue[0].h.ts + c.window > t) ==> r == s.(now := t))
            && (due <= t ==> |r.queue| < |s.queue| || |s.sent| < |r.sent|)
            && (s.queue != [] && s.queue[0].h.ts + c.window <= t ==> |r.queue| < |s.queue| || |s.sent| < |r.sent|)
  {
    var s1 := Tick(c, s, t);
    AdvanceGrows(c, s1, t);
    AdvanceQueue(c, s1, t);
  }

  /** What is still queued is a suffix of what was. */
  lemma {:induction false} AdvanceQueue(c: Config, s: State, t: int)
    requires s.out.start <= s.out.end
    ensures var r := AdvanceTo(c, s, t); |r.queue| <= |s.queue| && r.queue == s.queue[|s.queue| - |r.queue|..]
    decreases |s.queue|, Left(s, t), if s.now < t then 1 else 0
  {
    if s.now < t {
      var s1, r := Tick(c, s, t), AdvanceTo(c, s, t);
      AdvanceQueue(c, s1, t);
      if |s1.queue| < |s.queue| {
        assert s1.queue == s.queue[1..];
        assert s.queue[1..][|s1.queue| - |r.queue|..] == s.queue[|s.queue| - |r.queue|..];
      } else {
        assert s1.queue == s.queue;
      }
    }
  }

  /** Everything in the window leaves once the time has passed it by. */
  lemma {:induction false} AdvanceDrains(c: Config, s: State, t: int)
    requires s.out.start <= s.out.end && s.now < t
    requires forall p :: p in s.queue ==> p.h.ts + c.window < t
    ensures AdvanceTo(c, s, t).queue == []
    decreases |s.queue|, Left(s, t)
  {
    var s1 := Tick(c, s, t);
    if s.queue != [] {
      assert s.queue[0] in s.queue;
      AdvanceDrains(c, s1, t);
    } else {
      AdvanceQueue(c, s1, t);
    }
  }

  // ------------------------------------------------ conservation

  predicate NoDuplicates(s: seq<Packet>) {
    forall i, j :: 0 <= i < j < |s| ==> s[i] != s[j]
  }

  /** The packets that are not among the given responses, in order. */
  function Unmatched(arrived: seq<Packet>, responses: set<Packet>): seq<Packet> {
    if arrived == [] then []
    else
      var last := arrived[|arrived| - 1];
      Unmatched(arrived[..|arrived| - 1], responses) + if last in responses then [] else [last]
  }

  lemma UnmatchedSnoc(arrived: seq<Packet>, responses: set<Packet>, p: Packet)
    ensures Unmatched(arrived + [p], responses) == Unmatched(arrived, responses) + if p in responses then [] else [p]
  {
    assert (arrived + [p])[..|arrived|] == arrived;
  }

  lemma {:induction false} UnmatchedOthers(arrived: seq<Packet>, responses: set<Packet>, r: Packet)
    requires r !in arrived
    ensures Unmatched(arrived, responses + {r}) == Unmatched(arrived, responses)
  {
    if arrived != [] { UnmatchedOthers(arrived[..|arrived| - 1], responses, r); }
  }

  lemma {:induction false} UnmatchedIn(arrived: seq<Packet>, responses: set<Packet>, p: Packet)
    ensures p in Unmatched(arrived, responses) <==> p in arrived && p !in responses
  {
    if arrived != [] {
      var n := |arrived| - 1;
      UnmatchedIn(arrived[..n], responses, p);
      assert arrived == arrived[..n] + [arrived[n]];
    }
  }

  lemma {:induction false} UnmatchedNoDuplicates(arrived: seq<Packet>, responses: set<Packet>)
    requires NoDuplicates(arrived)
    ensures NoDuplicates(Unmatched(arrived, responses))
  {
    if arrived != [] {
      var n := |arrived| - 1;
      UnmatchedNoDuplicates(arrived[..n], responses);
      UnmatchedIn(arrived[..n], responses, arrived[n]);
    }
  }

  ghost predicate Before(arrived: seq<Packet>, q: Packet, r: Packet) {
    exists i, j :: 0 <= i < j < |arrived| && arrived[i] == q && arrived[j] == r
  }

  /** Responses hang on earlier requests with the same key, no response on two requests. */
  ghost predicate Paired(c: Config, resp: map<Packet, Packet>, arrived: seq<Packet>) {
    && (forall q :: q in resp ==>
          && !q.h.isResponse && resp[q].h.isResponse
          && KeyOf(q.h) == KeyOf(resp[q].h)
          && (c.matchQname ==> NamesAgree(q.h, resp[q].h))
          && Before(arrived, q, resp[q]))
    && (forall q, q' :: q in resp && q' in resp && resp[q] == resp[q'] ==> q == q')
  }

  /** A response goes back where its request came from, with the same id over the same protocol. */
  lemma PairedMeans(c: Config, resp: map<Packet, Packet>, arrived: seq<Packet>)
    requires Paired(c, resp, arrived)
    ensures forall q :: q in resp ==>
              var r := resp[q];
              && r.h.src == q.h.dst && r.h.dst == q.h.src && r.h.dnsId == q.h.dnsId
              && r.h.family == q.h.family && r.h.protocol == q.h.protocol
  {
  }

  /** What every reachable state of a running matcher keeps. */
  ghost predicate Inv(c: Config, s: State, arrived: seq<Packet>) {
    && NoDuplicates(arrived)
    && Framed(c, s)
    && Items(s) == Unmatched(arrived, s.resp.Values)
    && Paired(c, s.resp, arrived)
    && (forall p :: p in s.queue ==> p.h.ts <= s.now)
  }

  lemma AdvanceInv(c: Config, s: State, arrived: seq<Packet>, t: int)
    requires Inv(c, s, arrived)
    ensures s.out.start <= s.out.end && Inv(c, AdvanceTo(c, s, t), arrived)
    ensures AdvanceTo(c, s, t).now >= t && AdvanceTo(c, s, t).phase == s.phase
  {
    AdvanceFramed(c, s, t);
    AdvanceQueue(c, s, t);
  }

  lemma {:induction false} PendingIn(queue: seq<Packet>, resp: map<Packet, Packet>, k: Key, p: Packet)
    ensures p in Pending(queue, resp, k) <==> p in queue && IsPending(p, resp, k)
  {
    if queue != [] {
      PendingIn(queue[1..], resp, k, p);
      assert queue == [queue[0]] + queue[1..];
    }
  }

  lemma PendingRequests(queue: seq<Packet>, resp: map<Packet, Packet>, k: Key)
    ensures forall p :: p in Pending(queue, resp, k) ==> !p.h.isResponse
  {
    forall p | p in Pending(queue, resp, k) ensures !p.h.isResponse {
      PendingIn(queue, resp, k, p);
    }
  }

  /** The chosen request is queued and has no response yet: none is ever overwritten. */
  lemma ChoicePending(c: Config, s: State, r: Packet)
    ensures var q := Choice(c, s, r);
            q != null ==> q in s.queue && IsPending(q, s.resp, KeyOf(r.h)) && PacketTable.Acceptable(q, r, c.matchQname)
  {
    var q := Choice(c, s, r);
    if q != null { PendingIn(s.queue, s.resp, KeyOf(r.h), q); }
  }

  lemma BeforeSnoc(arrived: seq<Packet>, x: Packet)
    ensures forall q, r :: Before(arrived, q, r) ==> Before(arrived + [x], q, r)
    ensures forall q :: q in arrived ==> Before(arrived + [x], q, x)
  {
    var a := arrived + [x];
    forall q, r | Before(arrived, q, r) ensures Before(a, q, r) {
      var i, j :| 0 <= i < j < |arrived| && arrived[i] == q && arrived[j] == r;
      assert a[i] == q && a[j] == r;
    }
    forall q | q in arrived ensures Before(a, q, x) {
      var i :| 0 <= i < |arrived| && arrived[i] == q;
      assert a[i] == q && a[|arrived|] == x;
    }
  }

  lemma AcceptQueued(c: Config, s: State, arrived: seq<Packet>, p: Packet)
    requires Inv(c, s, arrived) && NoDuplicates(arrived + [p]) && p.h.ts <= s.now
    ensures Inv(c, s.(queue := s.queue + [p]), arrived + [p])
  {
    var s' := s.(queue := s.queue + [p]);
    BeforeSnoc(arrived, p);
    ResponsesArrived(c, s.resp, arrived);
    assert (arrived + [p])[|arrived|] == p;
    UnmatchedSnoc(arrived, s.resp.Values, p);
    assert Items(s') == Items(s) + [p];
  }

  lemma ResponsesArrived(c: Config, resp: map<Packet, Packet>, arrived: seq<Packet>)
    requires Paired(c, resp, arrived)
    ensures forall r :: r in resp.Values ==> r in arrived
  {
  }

  lemma PairedAdd(c: Config, resp: map<Packet, Packet>, arrived: seq<Packet>, q: Packet, p: Packet)
    requires Paired(c, resp, arrived) && q in arrived && p !in arrived && p.h.isResponse
    requires IsPending(q, resp, KeyOf(p.h)) && PacketTable.Acceptable(q, p, c.matchQname)
    ensures Paired(c, resp[q := p], arrived + [p])
    ensures resp[q := p].Values == resp.Values + {p}
  {
    BeforeSnoc(arrived, p);
    ResponsesArrived(c, resp, arrived);
    PacketTable.AcceptableMeans(q, p, c.matchQname);
    var resp' := resp[q := p];
    assert forall x :: x in resp ==> resp[x] in resp.Values;
    assert q in resp';
    forall r | r in resp.Values ensures r in resp'.Values {
      var x :| x in resp && resp[x] == r;
      assert x in resp';
    }
  }

  lemma AcceptMatched(c: Config, s: State, arrived: seq<Packet>, q: Packet, p: Packet)
    requires Inv(c, s, arrived) && NoDuplicates(arrived + [p]) && p.h.isResponse
    requires q in s.queue && IsPending(q, s.resp, KeyOf(p.h)) && PacketTable.Acceptable(q, p, c.matchQname)
    ensures Inv(c, s.(resp := s.resp[q := p]), arrived + [p])
  {
    assert p !in arrived by { assert (arrived + [p])[|arrived|] == p; }
    assert q in Items(s);
    UnmatchedIn(arrived, s.resp.Values, q);
    PairedAdd(c, s.resp, arrived, q, p);
    UnmatchedOthers(arrived, s.resp.Values, p);
    UnmatchedSnoc(arrived, s.resp.Values + {p}, p);
    assert Items(s.(resp := s.resp[q := p])) == Items(s);
  }

  lemma AcceptInv(c: Config, s: State, arrived: seq<Packet>, p: Packet)
    requires Inv(c, s, arrived) && NoDuplicates(arrived + [p]) && p.h.ts <= s.now
    ensures Inv(c, Accept(c, s, p), arrived + [p]) && Accept(c, s, p).phase == s.phase
  {
    ChoicePending(c, s, p);
    if !p.h.isResponse || Choice(c, s, p) == null {
      AcceptQueued(c, s, arrived, p);
    } else {
      AcceptMatched(c, s, arrived, Choice(c, s, p), p);
    }
  }

  // ------------------------------------------------ the index of pending requests

  lemma {:induction false} PendingAppend(queue: seq<Packet>, resp: map<Packet, Packet>, k: Key, p: Packet)
    ensures Pending(queue + [p], resp, k) == (if IsPending(p, resp, k) then [p] else []) + Pending(queue, resp, k)
  {
    if queue == [] {
      assert queue + [p] == [p] && [p][1..] == [];
    } else {
      assert (queue + [p])[1..] == queue[1..] + [p];
      PendingAppend(queue[1..], resp, k, p);
      ConcatAssoc(if IsPending(p, resp, k) then [p] else [], Pending(queue[1..], resp, k),
                  if IsPending(queue[0], resp, k) then [queue[0]] else []);
    }
  }

  lemma {:induction false} WithoutSnoc(s: seq<Packet>, x: Packet, p: Packet)
    ensures PacketTable.Without(s + [x], p) ==
            if p in s then PacketTable.Without(s, p) + [x] else if x == p then s else s + [x]
  {
    if s == [] {
      assert s + [x] == [x] && [x][1..] == [];
    } else {
      assert (s + [x])[1..] == s[1..] + [x];
      assert s == [s[0]] + s[1..];
      WithoutSnoc(s[1..], x, p);
    }
  }

  /** Giving a pending request its response takes it out of the pending ones, and no other. */
  lemma {:induction false} PendingAnswer(queue: seq<Packet>, resp: map<Packet, Packet>, q: Packet, r: Packet, k: Key)
    requires NoDuplicates(queue) && q in queue && IsPending(q, resp, KeyOf(q.h))
    ensures Pending(queue, resp[q := r], k) ==
            if k == KeyOf(q.h) then PacketTable.Without(Pending(queue, resp, k), q) else Pending(queue, resp, k)
  {
    var x, rest := queue[0], queue[1..];
    assert queue == [x] + rest;
    PendingIn(rest, resp, k, q);
    WithoutSnoc(Pending(rest, resp, k), x, q);
    if x == q {
      assert q !in rest;
      PendingOthers(rest, resp, q, r, k);
      assert q !in Pending(rest, resp, k);
      WithoutMissing(Pending(rest, resp, k), q);
    } else {
      PendingAnswer(rest, resp, q, r, k);
      assert IsPending(x, resp[q := r], k) == IsPending(x, resp, k);
      assert Pending(rest, resp, k) + [] == Pending(rest, resp, k);
      assert Pending(rest, resp[q := r], k) + [] == Pending(rest, resp[q := r], k);
    }
  }

  lemma {:induction false} WithoutMissing(s: seq<Packet>, p: Packet)
    requires p !in s
    ensures PacketTable.Without(s, p) == s
  {
    if s != [] {
      WithoutMissing(s[1..], p);
      assert s == [s[0]] + s[1..];
    }
  }

  lemma {:induction false} PendingOthers(queue: seq<Packet>, resp: map<Packet, Packet>, q: Packet, r: Packet, k: Key)
    requires q !in queue
    ensures Pending(queue, resp[q := r], k) == Pending(queue, resp, k)
  {
    if queue != [] {
      assert queue == [queue[0]] + queue[1..];
      PendingOthers(queue[1..], resp, q, r, k);
    }
  }

  /** The oldest queued packet leaves the pending ones, if it is one, from their old end. */
  lemma PendingEvict(queue: seq<Packet>, resp: map<Packet, Packet>, k: Key)
    requires NoDuplicates(queue) && queue != []
    ensures var p := queue[0];
            Pending(queue[1..], resp, k) ==
            if IsPending(p, resp, k) then PacketTable.Without(Pending(queue, resp, k), p) else Pending(queue, resp, k)
  {
    var p, rest := queue[0], queue[1..];
    assert queue == [p] + rest;
    assert p !in rest;
    PendingIn(rest, resp, k, p);
    WithoutSnoc(Pending(rest, resp, k), p, p);
  }

  // ------------------------------------------------ whole runs

  lemma {:induction false} PacketsInv(c: Config, s: State, arrived: seq<Packet>, packets: seq<Packet>)
    requires Inv(c, s, arrived) && NoDuplicates(arrived + packets) && s.out.start <= s.out.end
    ensures var r := Run(c, s, PacketOps(packets)); Inv(c, r, arrived + packets) && r.phase == s.phase
    decreases |packets|
  {
    if packets == [] {
      assert arrived + packets == arrived;
    } else {
      var p := packets[0];
      var s1 := Perform(c, s, Advance(p.h.ts));
      var s2 := Perform(c, s1, Take(p));
      RunTwo(c, s, Advance(p.h.ts), Take(p));
      RunConcat(c, s, [Advance(p.h.ts), Take(p)], PacketOps(packets[1..]));
      assert arrived + packets == (arrived + [p]) + packets[1..];
      assert NoDuplicates(arrived + [p]) by { assert arrived + [p] == (arrived + packets)[..|arrived| + 1]; }
      AdvanceInv(c, s, arrived, p.h.ts);
      AcceptInv(c, s1, arrived, p);
      PacketsInv(c, s2, arrived + [p], packets[1..]);
    }
  }

  /** A frame the matcher may be given: it does not end before it starts, has packets only with a
      time, and is not the final one. */
  predicate Regular(f: Frame) {
    !f.final && NO_TIME <= f.start <= f.end && (f.packets != [] ==> f.start != NO_TIME)
  }

  /** Before and after each frame: nothing has happened yet, or the running invariant holds. */
  ghost predicate Between(c: Config, s: State, arrived: seq<Packet>) {
    || (s == INITIAL && arrived == [])
    || (s.phase.Running? && Inv(c, s, arrived))
  }

  lemma BeginInv(c: Config, s: State, arrived: seq<Packet>, t: int)
    requires Between(c, s, arrived)
    ensures s.out.start <= s.out.end
    ensures var r := Perform(c, s, Begin(t)); r.phase.Running? && Inv(c, r, arrived)
  {
    assert TotalSize([]) == 0;
  }

  lemma FrameInv(c: Config, s: State, arrived: seq<Packet>, f: Frame)
    requires Between(c, s, arrived) && NoDuplicates(arrived + f.packets) && Regular(f)
    ensures s.out.start <= s.out.end && Between(c, Run(c, s, FrameOps(f)), arrived + f.packets)
  {
    BeginInv(c, s, arrived, f.start);
    if f.packets == [] && f.start == NO_TIME {
      assert arrived + f.packets == arrived;
    } else {
      var s1 := Perform(c, s, Begin(f.start));
      var s2 := Perform(c, s1, Advance(f.start));
      AdvanceInv(c, s1, arrived, f.start);
      PacketsInv(c, s2, arrived, f.packets);
      var s3 := Run(c, s2, PacketOps(f.packets));
      AdvanceInv(c, s3, arrived + f.packets, f.end);
      RunFrame(c, s, f);
    }
  }

  lemma {:induction false} FramesInv(c: Config, s: State, arrived: seq<Packet>, frames: seq<Frame>) returns (s': State)
    requires Between(c, s, arrived) && NoDuplicates(arrived + Contents(frames)) && s.out.start <= s.out.end
    requires forall f :: f in frames ==> Regular(f)
    ensures s'.out.start <= s'.out.end && Between(c, s', arrived + Contents(frames))
    ensures Run(c, s, Program(frames)) == Run(c, s', [Drain, Flush])
    decreases |frames|
  {
    if frames == [] {
      s' := s;
      assert arrived + Contents(frames) == arrived;
    } else {
      var f := frames[0];
      ContentsFirst(frames);
      assert arrived + Contents(frames) == (arrived + f.packets) + Contents(frames[1..]);
      assert NoDuplicates(arrived + f.packets) by {
        assert arrived + f.packets == (arrived + Contents(frames))[..|arrived + f.packets|];
      }
      FrameInv(c, s, arrived, f);
      RunConcat(c, s, FrameOps(f), Program(frames[1..]));
      s' := FramesInv(c, Run(c, s, FrameOps(f)), arrived + f.packets, frames[1..]);
    }
  }

  /** What a whole run delivers, for packets in any order of time: the frames follow each other
      within the limits with a single final frame at the end, they carry the packets in arrival
      order without the responses that were hung on requests, and nothing stays behind. */
  ghost predicate Delivered(c: Config, r: State, arrived: seq<Packet>) {
    && r.phase.Done? && r.queue == [] && r.sent != []
    && r.sent[|r.sent| - 1] == FinalFrame(r.now)
    && Tiled(r.sent[..|r.sent| - 1], r.out.end, c.maxDuration, c.maxSize)
    && Contents(r.sent) == Unmatched(arrived, r.resp.Values)
    && Paired(c, r.resp, arrived)
    && (forall q :: q in r.resp ==> q in Contents(r.sent))
  }

  lemma FinishDelivers(c: Config, s: State, arrived: seq<Packet>)
    requires Between(c, s, arrived) && s.out.start <= s.out.end
    ensures Delivered(c, Run(c, s, [Drain, Flush]), arrived)
  {
    var s1 := Perform(c, s, Drain);
    var r := Perform(c, s1, Flush);
    RunTwo(c, s, Drain, Flush);
    if s.phase.Running? {
      AdvanceInv(c, s, arrived, s.now + c.window + 1);
      AdvanceDrains(c, s, s.now + c.window + 1);
      FlushDelivers(c, s1, arrived);
    } else {
      assert r.sent == [FinalFrame(s.now)];
      ContentsSnoc([], FinalFrame(s.now));
      assert [] + [FinalFrame(s.now)] == [FinalFrame(s.now)];
    }
  }

  lemma FlushDelivers(c: Config, s: State, arrived: seq<Packet>)
    requires Inv(c, s, arrived) && s.phase.Running? && s.queue == [] && s.out.start <= s.out.end
    ensures Delivered(c, Perform(c, s, Flush), arrived)
  {
    var r := Perform(c, s, Flush);
    var body := s.sent + [s.out];
    ContentsSnoc(s.sent, s.out);
    ContentsSnoc(body, FinalFrame(s.now));
    TiledSnoc(s.sent, s.out, c.maxDuration, c.maxSize);
    assert r.sent == body + [FinalFrame(s.now)] && r.sent[..|r.sent| - 1] == body;
    assert Contents(r.sent) == Items(s);
    forall q | q in r.resp ensures q in Contents(r.sent) {
      UnmatchedIn(arrived, r.resp.Values, q);
    }
  }

  lemma MatcherDelivers(c: Config, frames: seq<Frame>)
    requires NoDuplicates(Contents(frames)) && forall f :: f in frames ==> Regular(f)
    ensures Delivered(c, Run(c, INITIAL, Program(frames)), Contents(frames))
    ensures var r := Run(c, INITIAL, Program(frames)); forall k :: Pending(r.queue, r.resp, k) == []
  {
    assert [] + Contents(frames) == Contents(frames);
    var s' := FramesInv(c, INITIAL, [], frames);
    FinishDelivers(c, s', Contents(frames));
  }
}
