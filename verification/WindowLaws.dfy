/** What the time window means when time does not run backwards. */
module WindowLaws {
  import opened Sequences
  import opened Packets
  import opened Frames
  import opened MatcherSpec
  import opened MatcherLaws
  import PacketTable

  predicate SortedByTime(s: seq<Packet>) {
    forall i, j :: 0 <= i < j < |s| ==> s[i].h.ts <= s[j].h.ts
  }

  /** Time is at most at the next event; exactly the packets of the window are queued. */
  ghost predicate InTime(c: Config, s: State) {
    && s.out.start <= s.out.end
    && s.now <= FrameDue(c, s)
    && SortedByTime(s.queue)
    && (forall p :: p in s.queue ==> s.now <= p.h.ts + c.window)
    && (forall p :: p in Contents(s.sent) + s.out.packets ==> p.h.ts + c.window <= s.now)
  }

  lemma EvictQueue(c: Config, s: State)
    requires InTime(c, s) && s.queue != []
    ensures SortedByTime(s.queue[1..])
    ensures forall p :: p in s.queue[1..] ==> s.queue[0].h.ts <= p.h.ts
  {
    var rest := s.queue[1..];
    assert forall i :: 0 <= i < |rest| ==> rest[i] == s.queue[i + 1];
  }

  lemma EvictItems(c: Config, s: State)
    requires s.queue != []
    ensures var r := Evict(c, s);
            forall p :: p in Contents(r.sent) + r.out.packets ==>
                p == s.queue[0] || p in Contents(s.sent) + s.out.packets
  {
    ContentsSnoc(s.sent, s.out);
  }

  lemma EvictInTime(c: Config, s: State)
    requires InTime(c, s) && s.queue != []
    ensures var ev := s.queue[0].h.ts + c.window; InTime(c, Evict(c, s).(now := ev)) || ev > FrameDue(c, s)
  {
    EvictQueue(c, s);
    EvictItems(c, s);
    assert s.queue[0] in s.queue;
  }

  lemma TickInTime(c: Config, s: State, t: int)
    requires InTime(c, s) && s.now < t
    ensures InTime(c, Tick(c, s, t)) && s.now <= Tick(c, s, t).now <= t
  {
    var ev := NextEvent(c, s);
    if s.queue != [] { assert s.queue[0] in s.queue; }
    if ev > t {
      forall p | p in s.queue ensures t <= p.h.ts + c.window {
        var i :| 0 <= i < |s.queue| && s.queue[i] == p;
        assert s.queue[0].h.ts <= p.h.ts;
      }
    } else if ev == FrameDue(c, s) {
      ContentsSnoc(s.sent, s.out.(end := ev - c.window));
      forall p | p in s.queue ensures ev <= p.h.ts + c.window {
        var i :| 0 <= i < |s.queue| && s.queue[i] == p;
        assert s.queue[0].h.ts <= p.h.ts;
      }
    } else {
      EvictInTime(c, s);
    }
  }

  /** Advancing never steps back, and leaves exactly the packets of the window queued. */
  lemma {:induction false} AdvanceInTime(c: Config, s: State, t: int)
    requires InTime(c, s)
    ensures InTime(c, AdvanceTo(c, s, t)) && s.now <= AdvanceTo(c, s, t).now
    decreases |s.queue|, Left(s, t), if s.now < t then 1 else 0
  {
    if s.now < t {
      TickInTime(c, s, t);
      AdvanceInTime(c, Tick(c, s, t), t);
    }
  }

  // ------------------------------------------------ frames in order of time

  /** Frames sent, the one being filled, and the queue: all in order of time. */
  ghost predicate Lined(s: State) {
    forall x :: OpenLine(x) ==>
      && OrderedFrames(s.sent, NO_TIME) && EndOf(s.sent, NO_TIME) <= s.out.start
      && OrderedPackets(s.out.packets, s.out.start, s.out.end) && s.out.start <= s.out.end <= s.now
      && (forall p :: p in s.queue ==> s.out.end <= p.h.ts)
  }

  /** Asserting this opens `Lined`. */
  ghost predicate OpenLine(x: int) { true }

  lemma EmitLined(s: State)
    requires Lined(s)
    ensures Lined(Emit(s))
  {
    assert OpenLine(0);
    OrderedFramesSnoc(s.sent, NO_TIME, s.out);
    assert EndOf(s.sent + [s.out], NO_TIME) == s.out.end;
  }

  lemma EvictLined(c: Config, s: State)
    requires Lined(s) && InTime(c, s) && s.queue != []
    ensures Lined(Evict(c, s).(now := s.queue[0].h.ts + c.window))
  {
    assert OpenLine(0);
    var p := s.queue[0];
    EmitLined(s);
    EvictQueue(c, s);
    assert p in s.queue;
    var h: Header := p.h;
    var s1 := if TotalSize(s.out.packets) + p.h.memorySize > c.maxSize then Emit(s) else s;
    OrderedPacketsSnoc(s1.out.packets, s1.out.start, s1.out.end, p);
    assert Appended(s1.out, p).end == p.h.ts;
  }

  lemma TickLined(c: Config, s: State, t: int)
    requires Lined(s) && InTime(c, s) && Framed(c, s) && s.now < t
    ensures Lined(Tick(c, s, t))
  {
    var ev := NextEvent(c, s);
    if ev > t {
      assert OpenLine(0);
    } else if ev == FrameDue(c, s) {
      DueLined(c, s);
    } else {
      EvictLined(c, s);
    }
  }

  lemma DueLined(c: Config, s: State)
    requires Lined(s) && InTime(c, s) && Framed(c, s) && NextEvent(c, s) == FrameDue(c, s)
    ensures Lined(Emit(s.(out := s.out.(end := s.out.start + c.maxDuration), now := FrameDue(c, s))))
  {
    assert OpenLine(0);
    var s1 := s.(out := s.out.(end := s.out.start + c.maxDuration), now := FrameDue(c, s));
    forall p | p in s.queue ensures s1.out.end <= p.h.ts {
      var i :| 0 <= i < |s.queue| && s.queue[i] == p;
      assert s.queue[0].h.ts <= p.h.ts;
    }
    OrderedPacketsLater(s.out.packets, s.out.start, s.out.end, s1.out.end);
    EmitLined(s1);
  }

  lemma {:induction false} AdvanceLined(c: Config, s: State, t: int)
    requires Lined(s) && InTime(c, s) && Framed(c, s)
    ensures Lined(AdvanceTo(c, s, t))
    decreases |s.queue|, Left(s, t), if s.now < t then 1 else 0
  {
    if s.now < t {
      TickLined(c, s, t);
      TickInTime(c, s, t);
      TickFramed(c, s, t);
      AdvanceLined(c, Tick(c, s, t), t);
    }
  }

  lemma AcceptLined(c: Config, s: State, p: Packet)
    requires Lined(s) && p.h.ts == s.now
    ensures Lined(Accept(c, s, p))
  {
    assert OpenLine(0);
  }

  // ------------------------------------------------ the guarantee

  /** Every response came within the window after its request. */
  ghost predicate Prompt(c: Config, resp: map<Packet, Packet>) {
    forall q :: q in resp ==> 0 <= resp[q].h.ts - q.h.ts <= c.window
  }

  /** `r` is a response to `q`, acceptable for it, that comes strictly inside the window. */
  predicate Expects(c: Config, q: Packet, r: Packet) {
    && !q.h.isResponse && r.h.isResponse && KeyOf(q.h) == KeyOf(r.h)
    && (c.matchQname ==> NamesAgree(q.h, r.h)) && r.h.ts < q.h.ts + c.window
  }

  /** The number of requests with key `k`. */
  function Rivals(s: seq<Packet>, k: Key): nat {
    if s == [] then 0
    else Rivals(s[..|s| - 1], k) + if !s[|s| - 1].h.isResponse && KeyOf(s[|s| - 1].h) == k then 1 else 0
  }

  /** Why a response may stay unmatched although an earlier request expects it: that request had
      got another response before, or, when names count, more newer requests with the same key
      came between the two than are looked at. */
  ghost predicate Excused(c: Config, resp: map<Packet, Packet>, arrived: seq<Packet>, i: nat, j: nat)
    requires i < j < |arrived|
  {
    || (arrived[i] in resp && resp[arrived[i]] in arrived[..j])
    || (c.matchQname && Rivals(arrived[i + 1..j], KeyOf(arrived[j].h)) > PacketTable.MAX_SEARCH)
  }

  /** No response is left unmatched without an excuse. */
  ghost predicate Complete(c: Config, resp: map<Packet, Packet>, arrived: seq<Packet>) {
    forall i: nat, j: nat :: i < j < |arrived| && Expects(c, arrived[i], arrived[j]) && arrived[j] !in resp.Values ==>
      Excused(c, resp, arrived, i, j)
  }

  /** A response goes to the newest request that expects it: one that came after the request chosen
      had got another response before. */
  ghost predicate Newest(c: Config, resp: map<Packet, Packet>, arrived: seq<Packet>) {
    forall i: nat, k: nat, j: nat :: i < k < j < |arrived| ==> Fair(c, resp, arrived, i, k, j)
  }

  ghost predicate Fair(c: Config, resp: map<Packet, Packet>, arrived: seq<Packet>, i: nat, k: nat, j: nat)
    requires i < k < j < |arrived|
  {
    Answers(resp, arrived[i], arrived[j]) && Expects(c, arrived[k], arrived[j]) ==>
      arrived[k] in resp && resp[arrived[k]] in arrived[..j]
  }

  ghost predicate Answers(resp: map<Packet, Packet>, q: Packet, r: Packet) { q in resp && resp[q] == r }

  // ------------------------------------------------ which requests are looked at

  lemma {:induction false} PendingConcat(x: seq<Packet>, y: seq<Packet>, resp: map<Packet, Packet>, k: Key)
    ensures Pending(x + y, resp, k) == Pending(y, resp, k) + Pending(x, resp, k)
  {
    if x == [] {
      assert x + y == y;
    } else {
      assert (x + y)[1..] == x[1..] + y;
      PendingConcat(x[1..], y, resp, k);
      ConcatAssoc(Pending(y, resp, k), Pending(x[1..], resp, k), if IsPending(x[0], resp, k) then [x[0]] else []);
    }
  }

  lemma {:induction false} PendingRivals(y: seq<Packet>, resp: map<Packet, Packet>, k: Key)
    ensures |Pending(y, resp, k)| <= Rivals(y, k)
  {
    if y != [] {
      var n := |y| - 1;
      PendingRivals(y[..n], resp, k);
      PendingAppend(y[..n], resp, k, y[n]);
      assert y == y[..n] + [y[n]];
    }
  }

  lemma {:induction false} UnmatchedRivals(arrived: seq<Packet>, responses: set<Packet>, k: Key)
    ensures Rivals(Unmatched(arrived, responses), k) <= Rivals(arrived, k)
  {
    if arrived != [] {
      var n := |arrived| - 1;
      UnmatchedRivals(arrived[..n], responses, k);
      if arrived[n] !in responses {
        assert (Unmatched(arrived[..n], responses) + [arrived[n]])[..|Unmatched(arrived[..n], responses)|] ==
               Unmatched(arrived[..n], responses);
      } else {
        assert Unmatched(arrived[..n], responses) + [] == Unmatched(arrived[..n], responses);
      }
    }
  }

  lemma {:induction false} UnmatchedConcat(a: seq<Packet>, b: seq<Packet>, responses: set<Packet>)
    ensures Unmatched(a + b, responses) == Unmatched(a, responses) + Unmatched(b, responses)
  {
    if b == [] {
      assert a + b == a;
    } else {
      var n := |b| - 1;
      UnmatchedConcat(a, b[..n], responses);
      UnmatchedSnoc(a + b[..n], responses, b[n]);
      ConcatAssoc(a, b[..n], [b[n]]);
      assert b == b[..n] + [b[n]];
      ConcatAssoc(Unmatched(a, responses), Unmatched(b[..n], responses), if b[n] in responses then [] else [b[n]]);
    }
  }

  /** Two ways to split a sequence at one of its elements. */
  lemma SplitAgain(head: seq<Packet>, queue: seq<Packet>, before: seq<Packet>, q: Packet, y: seq<Packet>)
    returns (x: seq<Packet>)
    requires head + queue == before + [q] + y && NoDuplicates(head + queue) && q in queue
    ensures queue == x + [q] + y
  {
    var u := head + queue;
    var m :| 0 <= m < |queue| && queue[m] == q;
    assert u[|before|] == q && u[|head| + m] == q;
    assert y == u[|before| + 1..];
    x := queue[..m];
  }

  /** Requests behind a queued one are among those that arrived after it. */
  lemma QueueBehind(c: Config, s: State, arrived: seq<Packet>, i: nat) returns (x: seq<Packet>, y: seq<Packet>)
    requires Inv(c, s, arrived) && i < |arrived| && arrived[i] in s.queue
    ensures s.queue == x + [arrived[i]] + y && y == Unmatched(arrived[i + 1..], s.resp.Values)
  {
    var q, v := arrived[i], s.resp.Values;
    y := Unmatched(arrived[i + 1..], v);
    assert q in Items(s);
    UnmatchedIn(arrived, v, q);
    UnmatchedNoDuplicates(arrived, v);
    UnmatchedConcat(arrived[..i] + [q], arrived[i + 1..], v);
    UnmatchedSnoc(arrived[..i], v, q);
    assert arrived == arrived[..i] + [q] + arrived[i + 1..];
    x := SplitAgain(Contents(s.sent) + s.out.packets, s.queue, Unmatched(arrived[..i], v), q, y);
  }

  /** Before a pending request its list has the pending ones that arrived after it. */
  lemma PlaceInList(c: Config, s: State, arrived: seq<Packet>, i: nat) returns (y: seq<Packet>)
    requires Inv(c, s, arrived) && i < |arrived| && arrived[i] in s.queue
    requires IsPending(arrived[i], s.resp, KeyOf(arrived[i].h))
    ensures var k := KeyOf(arrived[i].h);
            var list, n := Pending(s.queue, s.resp, k), |Pending(y, s.resp, k)|;
            y == Unmatched(arrived[i + 1..], s.resp.Values) && n < |list| && list[n] == arrived[i] &&
            list[..n] == Pending(y, s.resp, k)
  {
    var q := arrived[i];
    var k, x := KeyOf(q.h), [];
    x, y := QueueBehind(c, s, arrived, i);
    PendingConcat(x + [q], y, s.resp, k);
    PendingAppend(x, s.resp, k, q);
  }

  lemma NotChosen(c: Config, s: State, arrived: seq<Packet>, i: nat, r: Packet)
    requires Inv(c, s, arrived) && i < |arrived| && arrived[i] in s.queue && arrived[i] !in s.resp
    requires Expects(c, arrived[i], r) && Choice(c, s, r) == null
    ensures c.matchQname && Rivals(arrived[i + 1..], KeyOf(r.h)) > PacketTable.MAX_SEARCH
  {
    var q, k := arrived[i], KeyOf(r.h);
    var list := Pending(s.queue, s.resp, k);
    PacketTable.ScanIsFirst(list, r, c.matchQname);
    PacketTable.AcceptableMeans(q, r, c.matchQname);
    var y := PlaceInList(c, s, arrived, i);
    assert !c.matchQname ==> PacketTable.Acceptable(list[0], r, c.matchQname);
    PendingRivals(y, s.resp, k);
    UnmatchedRivals(arrived[i + 1..], s.resp.Values, k);
  }

  /** A request that came after the one chosen, and expects the response too, is not pending. */
  lemma NewerNotPending(c: Config, s: State, arrived: seq<Packet>, i: nat, k: nat, r: Packet)
    requires Inv(c, s, arrived) && i < k < |arrived| && Choice(c, s, r) == arrived[i]
    requires Expects(c, arrived[k], r) && arrived[k] in s.queue
    ensures arrived[k] in s.resp
  {
    if arrived[k] !in s.resp {
      var list := Pending(s.queue, s.resp, KeyOf(r.h));
      PacketTable.ScanIsFirst(list, r, c.matchQname);
      PacketTable.AcceptableMeans(arrived[k], r, c.matchQname);
      var y := PlaceInList(c, s, arrived, k);
      var m :| && 0 <= m < |list| && list[m] == arrived[i]
               && forall j :: 0 <= j < m ==> !PacketTable.Acceptable(list[j], r, c.matchQname);
      var n := |Pending(y, s.resp, KeyOf(r.h))|;
      assert m < n;
      assert list[..n][m] == arrived[i];
      PendingIn(y, s.resp, KeyOf(r.h), arrived[i]);
      UnmatchedIn(arrived[k + 1..], s.resp.Values, arrived[i]);
      assert false;
    }
  }

  // ------------------------------------------------ what every step keeps

  /** Asserting this opens `WindowInv`. */
  ghost predicate OpenInv(x: int) { true }

  /** What every reachable state keeps when time does not run backwards. */
  ghost predicate WindowInv(c: Config, s: State, arrived: seq<Packet>) {
    forall x :: OpenInv(x) ==> Inv(c, s, arrived) && InTime(c, s) && Lined(s) && Guaranteed(c, s.resp, arrived)
  }

  /** What is promised about the responses when packets come in order of time. */
  ghost predicate Guaranteed(c: Config, resp: map<Packet, Packet>, arrived: seq<Packet>) {
    Prompt(c, resp) && Complete(c, resp, arrived) && Newest(c, resp, arrived)
  }

  lemma AdvanceWindow(c: Config, s: State, arrived: seq<Packet>, t: int)
    requires WindowInv(c, s, arrived)
    ensures s.out.start <= s.out.end && WindowInv(c, AdvanceTo(c, s, t), arrived)
    ensures AdvanceTo(c, s, t).now == (if s.now < t then t else s.now) && AdvanceTo(c, s, t).phase == s.phase
  {
    assert OpenInv(0);
    AdvanceInv(c, s, arrived, t);
    AdvanceFramed(c, s, t);
    AdvanceInTime(c, s, t);
    AdvanceLined(c, s, t);
  }

  /** A request whose window is still open is queued. */
  lemma StillQueued(c: Config, s: State, arrived: seq<Packet>, q: Packet)
    requires Inv(c, s, arrived) && InTime(c, s)
    requires q in arrived && !q.h.isResponse && s.now < q.h.ts + c.window
    ensures q in s.queue
  {
    UnmatchedIn(arrived, s.resp.Values, q);
    assert q in Items(s);
  }

  lemma AcceptExcused(c: Config, s: State, arrived: seq<Packet>, i: nat, p: Packet)
    requires Inv(c, s, arrived) && InTime(c, s) && i < |arrived| && p.h.ts == s.now
    requires Expects(c, arrived[i], p) && Choice(c, s, p) == null
    ensures Excused(c, s.resp, arrived + [p], i, |arrived|)
  {
    var a := arrived + [p];
    assert a[i] == arrived[i] && a[|arrived|] == p && a[..|arrived|] == arrived &&
           a[i + 1..|arrived|] == arrived[i + 1..];
    StillQueued(c, s, arrived, arrived[i]);
    if arrived[i] !in s.resp {
      NotChosen(c, s, arrived, i, p);
    } else {
      assert s.resp[arrived[i]] in s.resp.Values;
      ResponsesArrived(c, s.resp, arrived);
    }
  }

  /** Excuses stay good. */
  lemma StillExcused(c: Config, s: State, arrived: seq<Packet>, i: nat, j: nat, p: Packet)
    requires i < j < |arrived| && Excused(c, s.resp, arrived, i, j)
    ensures Excused(c, Accept(c, s, p).resp, arrived + [p], i, j)
  {
    var a := arrived + [p];
    assert a[i] == arrived[i] && a[j] == arrived[j] && a[..j] == arrived[..j] && a[i + 1..j] == arrived[i + 1..j];
    ChoicePending(c, s, p);
  }

  lemma ValuesGrow(c: Config, s: State, p: Packet)
    ensures forall r :: r in s.resp.Values ==> r in Accept(c, s, p).resp.Values
    ensures Choice(c, s, p) != null && p.h.isResponse ==> p in Accept(c, s, p).resp.Values
  {
    var s' := Accept(c, s, p);
    ChoicePending(c, s, p);
    forall r | r in s.resp.Values ensures r in s'.resp.Values {
      var q :| q in s.resp && s.resp[q] == r;
      assert q in s'.resp && s'.resp[q] == r;
    }
    if Choice(c, s, p) != null && p.h.isResponse { assert Choice(c, s, p) in s'.resp; }
  }

  lemma AcceptComplete(c: Config, s: State, arrived: seq<Packet>, p: Packet)
    requires Inv(c, s, arrived) && InTime(c, s) && Complete(c, s.resp, arrived) && p.h.ts == s.now
    ensures Complete(c, Accept(c, s, p).resp, arrived + [p])
  {
    var a, s' := arrived + [p], Accept(c, s, p);
    ValuesGrow(c, s, p);
    forall i: nat, j: nat | i < j < |a| && Expects(c, a[i], a[j]) && a[j] !in s'.resp.Values
      ensures Excused(c, s'.resp, a, i, j)
    {
      if j == |arrived| {
        AcceptExcused(c, s, arrived, i, p);
      } else {
        StillExcused(c, s, arrived, i, j, p);
      }
    }
  }

  lemma ChosenNewest(c: Config, s: State, arrived: seq<Packet>, i: nat, k: nat, p: Packet)
    requires Inv(c, s, arrived) && InTime(c, s) && i < k < |arrived| && p.h.ts == s.now
    requires Choice(c, s, p) == arrived[i] && Expects(c, arrived[k], p)
    ensures arrived[k] in s.resp && s.resp[arrived[k]] in arrived
  {
    StillQueued(c, s, arrived, arrived[k]);
    NewerNotPending(c, s, arrived, i, k, p);
    assert s.resp[arrived[k]] in s.resp.Values;
    ResponsesArrived(c, s.resp, arrived);
  }

  lemma NewPacket(arrived: seq<Packet>, p: Packet)
    requires NoDuplicates(arrived + [p])
    ensures p !in arrived
  {
    var a := arrived + [p];
    assert forall i :: 0 <= i < |arrived| ==> a[i] == arrived[i] && a[i] != a[|arrived|];
  }

  /** Earlier choices are not changed by a later one. */
  lemma StillAnswers(c: Config, s: State, arrived: seq<Packet>, p: Packet, q: Packet, r: Packet)
    requires Paired(c, s.resp, arrived) && p !in arrived && Answers(Accept(c, s, p).resp, q, r)
    ensures if r == p then q == Choice(c, s, p) else Answers(s.resp, q, r)
  {
    ResponsesArrived(c, s.resp, arrived);
    assert q in s.resp ==> s.resp[q] in s.resp.Values;
  }

  lemma StillFair(c: Config, s: State, arrived: seq<Packet>, i: nat, k: nat, j: nat, p: Packet)
    requires Paired(c, s.resp, arrived) && p !in arrived && i < k < j < |arrived| && Fair(c, s.resp, arrived, i, k, j)
    ensures Fair(c, Accept(c, s, p).resp, arrived + [p], i, k, j)
  {
    var a, resp := arrived + [p], Accept(c, s, p).resp;
    assert a[i] == arrived[i] && a[k] == arrived[k] && a[j] == arrived[j] && a[..j] == arrived[..j];
    if Answers(resp, a[i], a[j]) { StillAnswers(c, s, arrived, p, a[i], a[j]); }
    ChoicePending(c, s, p);
  }

  lemma NewFair(c: Config, s: State, arrived: seq<Packet>, i: nat, k: nat, p: Packet)
    requires Inv(c, s, arrived) && InTime(c, s) && p.h.ts == s.now && p !in arrived && i < k < |arrived|
    ensures Fair(c, Accept(c, s, p).resp, arrived + [p], i, k, |arrived|)
  {
    var a, resp := arrived + [p], Accept(c, s, p).resp;
    assert a[i] == arrived[i] && a[k] == arrived[k] && a[|arrived|] == p && a[..|arrived|] == arrived;
    if Answers(resp, a[i], p) && Expects(c, a[k], p) {
      StillAnswers(c, s, arrived, p, a[i], p);
      ChosenNewest(c, s, arrived, i, k, p);
      ChoicePending(c, s, p);
    }
  }

  lemma AcceptNewest(c: Config, s: State, arrived: seq<Packet>, p: Packet)
    requires Inv(c, s, arrived) && InTime(c, s) && Newest(c, s.resp, arrived) && p.h.ts == s.now && p !in arrived
    ensures Newest(c, Accept(c, s, p).resp, arrived + [p])
  {
    forall i: nat, k: nat, j: nat | i < k < j < |arrived + [p]|
      ensures Fair(c, Accept(c, s, p).resp, arrived + [p], i, k, j)
    {
      if j < |arrived| {
        StillFair(c, s, arrived, i, k, j, p);
      } else {
        NewFair(c, s, arrived, i, k, p);
      }
    }
  }

  lemma AcceptInTime(c: Config, s: State, arrived: seq<Packet>, p: Packet)
    requires Inv(c, s, arrived) && InTime(c, s) && Prompt(c, s.resp) && p.h.ts == s.now
    ensures InTime(c, Accept(c, s, p)) && Prompt(c, Accept(c, s, p).resp)
  {
    ChoicePending(c, s, p);
  }

  lemma AcceptWindow(c: Config, s: State, arrived: seq<Packet>, p: Packet)
    requires WindowInv(c, s, arrived) && NoDuplicates(arrived + [p]) && p.h.ts == s.now
    ensures WindowInv(c, Accept(c, s, p), arrived + [p])
    ensures Accept(c, s, p).phase == s.phase && Accept(c, s, p).now == s.now
  {
    assert OpenInv(0);
    NewPacket(arrived, p);
    AcceptLined(c, s, p);
    AcceptNewest(c, s, arrived, p);
    AcceptInv(c, s, arrived, p);
    AcceptInTime(c, s, arrived, p);
    AcceptComplete(c, s, arrived, p);
  }

  // ------------------------------------------------ whole runs

  lemma {:induction false} PacketsWindow(c: Config, s: State, arrived: seq<Packet>, packets: seq<Packet>, to: int)
    requires WindowInv(c, s, arrived) && NoDuplicates(arrived + packets) && OrderedPackets(packets, s.now, to)
    ensures s.out.start <= s.out.end
    ensures var r := Run(c, s, PacketOps(packets));
            WindowInv(c, r, arrived + packets) && r.phase == s.phase && r.now <= to
    decreases |packets|
  {
    WindowBasics(c, s, arrived);
    if packets == [] {
      assert arrived + packets == arrived;
    } else {
      var p := packets[0];
      var s1 := Perform(c, s, Advance(p.h.ts));
      var s2 := Perform(c, s1, Take(p));
      RunTwo(c, s, Advance(p.h.ts), Take(p));
      RunConcat(c, s, [Advance(p.h.ts), Take(p)], PacketOps(packets[1..]));
      assert arrived + packets == (arrived + [p]) + packets[1..];
      assert NoDuplicates(arrived + [p]) by { assert arrived + [p] == (arrived + packets)[..|arrived| + 1]; }
      AdvanceWindow(c, s, arrived, p.h.ts);
      AcceptWindow(c, s1, arrived, p);
      PacketsWindow(c, s2, arrived + [p], packets[1..], to);
    }
  }

  lemma WindowBasics(c: Config, s: State, arrived: seq<Packet>)
    requires WindowInv(c, s, arrived)
    ensures Framed(c, s) && s.out.start <= s.out.end && Lined(s) && Guaranteed(c, s.resp, arrived)
  {
    assert OpenInv(0);
  }

  ghost predicate BetweenInTime(c: Config, s: State, arrived: seq<Packet>, from: int) {
    || (s == INITIAL && arrived == [] && NO_TIME <= from)
    || (s.phase.Running? && WindowInv(c, s, arrived) && s.now <= from)
  }

  lemma FirstWindow(c: Config, t: int)
    requires NO_TIME <= t
    ensures WindowInv(c, INITIAL.(phase := Running, now := t, out := EmptyFrame(t)), [])
  {
    assert TotalSize([]) == 0;
  }

  lemma BeginWindow(c: Config, s: State, arrived: seq<Packet>, t: int)
    requires BetweenInTime(c, s, arrived, t)
    ensures s.out.start <= s.out.end
    ensures var r := Perform(c, s, Begin(t)); r.phase.Running? && WindowInv(c, r, arrived) && r.now <= t
  {
    if s == INITIAL && arrived == [] && NO_TIME <= t {
      FirstWindow(c, t);
    } else {
      WindowBasics(c, s, arrived);
    }
  }

  lemma FrameStates(c: Config, s: State, arrived: seq<Packet>, f: Frame) returns (r: State)
    requires s.phase.Running? && WindowInv(c, s, arrived) && s.now <= f.start && NoDuplicates(arrived + f.packets)
    requires OrderedPackets(f.packets, f.start, f.end)
    ensures s.out.start <= s.out.end && BetweenInTime(c, r, arrived + f.packets, f.end)
    ensures r == Perform(c, Run(c, Perform(c, s, Advance(f.start)), PacketOps(f.packets)), Advance(f.end))
  {
    AdvanceWindow(c, s, arrived, f.start);
    var s2 := AdvanceTo(c, s, f.start);
    PacketsWindow(c, s2, arrived, f.packets, f.end);
    var s3 := Run(c, s2, PacketOps(f.packets));
    AdvanceWindow(c, s3, arrived + f.packets, f.end);
    r := AdvanceTo(c, s3, f.end);
  }

  lemma FrameWindow(c: Config, s: State, arrived: seq<Packet>, f: Frame)
    requires BetweenInTime(c, s, arrived, f.start) && NoDuplicates(arrived + f.packets)
    requires OrderedPackets(f.packets, f.start, f.end)
    ensures s.out.start <= s.out.end && BetweenInTime(c, Run(c, s, FrameOps(f)), arrived + f.packets, f.end)
  {
    BeginWindow(c, s, arrived, f.start);
    if f.packets == [] && f.start == NO_TIME {
      assert arrived + f.packets == arrived;
    } else {
      RunFrame(c, s, f);
      var _ := FrameStates(c, Perform(c, s, Begin(f.start)), arrived, f);
    }
  }

  /** All frames but the final one are in order of time. */
  ghost predicate SentInOrder(r: State) {
    r.sent != [] && OrderedFrames(r.sent[..|r.sent| - 1], NO_TIME)
  }

  lemma FlushLined(c: Config, s: State)
    requires s.out.start <= s.out.end && if s.phase.Running? then Lined(s) else s.sent == []
    ensures SentInOrder(Perform(c, s, Flush))
  {
    assert OpenLine(0);
    var r := Perform(c, s, Flush);
    if s.phase.Running? {
      OrderedFramesSnoc(s.sent, NO_TIME, s.out);
      assert r.sent[..|r.sent| - 1] == s.sent + [s.out];
    } else {
      assert r.sent[..|r.sent| - 1] == [];
    }
  }

  lemma EndWindow(c: Config, s: State, arrived: seq<Packet>, from: int)
    requires BetweenInTime(c, s, arrived, from)
    ensures s.out.start <= s.out.end
    ensures var r := Run(c, s, [Drain, Flush]); Guaranteed(c, r.resp, arrived) && SentInOrder(r)
  {
    if s.phase.Running? {
      AdvanceWindow(c, s, arrived, s.now + c.window + 1);
      FlushWindow(c, AdvanceTo(c, s, s.now + c.window + 1), arrived);
    } else {
      FlushLined(c, s);
    }
    RunTwo(c, s, Drain, Flush);
  }

  lemma FlushWindow(c: Config, s: State, arrived: seq<Packet>)
    requires s.phase.Running? && WindowInv(c, s, arrived)
    ensures s.out.start <= s.out.end
    ensures var r := Perform(c, s, Flush); Guaranteed(c, r.resp, arrived) && SentInOrder(r)
  {
    WindowBasics(c, s, arrived);
    FlushLined(c, s);
  }

  lemma NextPackets(arrived: seq<Packet>, packets: seq<Packet>, more: seq<Packet>)
    requires NoDuplicates(arrived + (packets + more))
    ensures arrived + (packets + more) == (arrived + packets) + more && NoDuplicates(arrived + packets)
  {
    assert arrived + packets == (arrived + (packets + more))[..|arrived + packets|];
  }

  lemma {:induction false} FramesWindow(c: Config, s: State, arrived: seq<Packet>, frames: seq<Frame>, from: int)
    requires BetweenInTime(c, s, arrived, from) && NoDuplicates(arrived + Contents(frames)) &&
             OrderedFrames(frames, from)
    ensures s.out.start <= s.out.end
    ensures var r := Run(c, s, Program(frames)); Guaranteed(c, r.resp, arrived + Contents(frames)) && SentInOrder(r)
    decreases |frames|
  {
    if frames == [] {
      EndWindow(c, s, arrived, from);
      assert arrived + Contents(frames) == arrived;
    } else {
      var f := frames[0];
      ContentsFirst(frames);
      NextPackets(arrived, f.packets, Contents(frames[1..]));
      FrameWindow(c, s, arrived, f);
      RunConcat(c, s, FrameOps(f), Program(frames[1..]));
      FramesWindow(c, Run(c, s, FrameOps(f)), arrived + f.packets, frames[1..], f.end);
    }
  }

  /** The window guarantee: when time does not run backwards, responses come within the window
      after their requests, go to the newest request that can have them, and none stays unmatched
      without an excuse; and the frames sent are in order again, each packet within its frame. */
  lemma WindowGuarantee(c: Config, frames: seq<Frame>)
    requires NoDuplicates(Contents(frames)) && OrderedFrames(frames, NO_TIME)
    ensures var r := Run(c, INITIAL, Program(frames)); Guaranteed(c, r.resp, Contents(frames)) && SentInOrder(r)
  {
    assert [] + Contents(frames) == Contents(frames);
    FramesWindow(c, INITIAL, [], frames, NO_TIME);
  }
}
