/** The output thread: rotation of files and accounting. */
module OutputThread {
  import opened Sequences
  import opened Packets
  import opened Frames
  import opened Records

  // ------------------------------------------------ files as a function of the frames

  datatype File = File(openedAt: int, records: seq<Record>)

  const SECOND := 1_000_000

  /** A file is closed when more than the period has passed since it was opened. */
  predicate Due(period: int, openedAt: int, now: int) {
    period > 0 && openedAt < now - period * SECOND
  }

  /** The files once the time is seen; the last one is open. */
  function Rotated(period: int, files: seq<File>, time: int): (r: seq<File>)
    ensures r != []
  {
    if files == [] || Due(period, files[|files| - 1].openedAt, time) then files + [File(time, [])] else files
  }

  function Put(files: seq<File>, r: Record): seq<File>
    requires files != []
  {
    var n := |files| - 1;
    files[..n] + [files[n].(records := files[n].records + [r])]
  }

  function WriteAll(period: int, files: seq<File>, log: seq<Record>): seq<File> {
    if log == [] then files
    else
      var n := |log| - 1;
      Put(Rotated(period, WriteAll(period, files, log[..n]), log[n].packet.h.ts), log[n])
  }

  /** All records of all files, in order. */
  function Flat(files: seq<File>): seq<Record> {
    if files == [] then [] else Flat(files[..|files| - 1]) + files[|files| - 1].records
  }

  /** No record is in a file opened more than the period before its time. */
  ghost predicate Timely(period: int, f: File) {
    period > 0 ==> forall r :: r in f.records ==> r.packet.h.ts - period * SECOND <= f.openedAt
  }

  /** Files are in time and opened more than the period after each other; without a period there is
      one file. */
  ghost predicate Arranged(period: int, files: seq<File>) {
    if files == [] then true
    else
      var n := |files| - 1;
      && Timely(period, files[n]) && (n > 0 ==> Due(period, files[n - 1].openedAt, files[n].openedAt))
      && Arranged(period, files[..n])
  }

  lemma {:induction false} ArrangedMeans(period: int, files: seq<File>)
    requires Arranged(period, files)
    ensures forall i :: 0 <= i < |files| ==> Timely(period, files[i])
    ensures forall i, j :: 0 <= i < j < |files| ==>
              period > 0 && files[i].openedAt + period * SECOND < files[j].openedAt
  {
    if files != [] { ArrangedMeans(period, files[..|files| - 1]); }
  }

  lemma FlatSnoc(files: seq<File>, f: File)
    ensures Flat(files + [f]) == Flat(files) + f.records
  {
    assert (files + [f])[..|files|] == files;
  }

  lemma RotatedKeeps(period: int, files: seq<File>, time: int)
    requires Arranged(period, files)
    ensures var r := Rotated(period, files, time);
            Arranged(period, r) && Flat(r) == Flat(files) && !Due(period, r[|r| - 1].openedAt, time)
  {
    FlatSnoc(files, File(time, []));
    assert (files + [File(time, [])])[..|files|] == files;
  }

  lemma PutKeeps(period: int, files: seq<File>, r: Record)
    requires files != [] && Arranged(period, files) && !Due(period, files[|files| - 1].openedAt, r.packet.h.ts)
    ensures Arranged(period, Put(files, r)) && Flat(Put(files, r)) == Flat(files) + [r]
  {
    var n := |files| - 1;
    var f := files[n].(records := files[n].records + [r]);
    assert Timely(period, f);
    assert (files[..n] + [f])[..n] == files[..n];
    ConcatAssoc(Flat(files[..n]), files[n].records, [r]);
  }

  /** Each record goes to exactly one file, in order and in time. */
  lemma {:induction false} WriteAllKeeps(period: int, files: seq<File>, log: seq<Record>)
    requires Arranged(period, files)
    ensures var r := WriteAll(period, files, log); Arranged(period, r) && Flat(r) == Flat(files) + log
  {
    if log == [] {
      assert Flat(files) + log == Flat(files);
    } else {
      var n := |log| - 1;
      var before := WriteAll(period, files, log[..n]);
      WriteAllKeeps(period, files, log[..n]);
      RotatedKeeps(period, before, log[n].packet.h.ts);
      PutKeeps(period, Rotated(period, before, log[n].packet.h.ts), log[n]);
      ConcatAssoc(Flat(files), log[..n], [log[n]]);
      SplitLast(log);
    }
  }

  // ------------------------------------------------ streams and books

  /** The frames a matcher sends: the last one is final, and only frames with a time have packets. */
  ghost predicate Stream(frames: seq<Frame>) {
    && frames != [] && frames[|frames| - 1].final && frames[|frames| - 1].packets == []
    && (forall i :: 0 <= i < |frames| - 1 ==> 
          !frames[i].final && NO_TIME <= frames[i].start && (frames[i].start == NO_TIME ==> frames[i].packets == []))
  }

  /** Asserting this opens `Balanced`. */
  ghost predicate OpenBooks(x: int) { true }

  /** Closed files are counted in the totals, the open one in the current counts. */
  ghost predicate Balanced(period: int, isOpen: bool, openedAt: int, current: Counts, total: Counts, files: seq<File>) {
    forall x :: OpenBooks(x) ==>
      && Arranged(period, files)
      && if isOpen then
           var n := |files| - 1;
           files != [] && openedAt == files[n].openedAt && current == Tally(files[n].records) &&
           total == Tally(Flat(files[..n]))
         else
           current == NONE && total == Tally(Flat(files))
  }

  lemma BalancedOpen(period: int, total: Counts, files: seq<File>, openedAt: int, time: int)
    requires Balanced(period, false, openedAt, NONE, total, files)
    requires files == [] || Due(period, files[|files| - 1].openedAt, time)
    ensures Balanced(period, true, time, NONE, total, files + [File(time, [])])
  {
    assert OpenBooks(0);
    RotatedKeeps(period, files, time);
    assert (files + [File(time, [])])[..|files|] == files;
  }

  lemma BalancedClose(period: int, openedAt: int, current: Counts, total: Counts, files: seq<File>,
                      isOpen': bool, current': Counts, total': Counts)
    requires Balanced(period, true, openedAt, current, total, files)
    requires !isOpen' && current' == NONE && total' == Sum(total, current)
    ensures Balanced(period, isOpen', openedAt, current', total', files)
  {
    assert OpenBooks(0);
    var n := |files| - 1;
    TallyConcat(Flat(files[..n]), files[n].records);
  }

  lemma BalancedPut(period: int, isOpen: bool, openedAt: int, current: Counts, total: Counts, files: seq<File>,
                    r: Record, current': Counts)
    requires Balanced(period, isOpen, openedAt, current, total, files) && isOpen
    requires !Due(period, openedAt, r.packet.h.ts) && current' == Counted(current, r)
    ensures files != [] && Balanced(period, isOpen, openedAt, current', total, Put(files, r))
  {
    assert OpenBooks(0);
    var n := |files| - 1;
    PutKeeps(period, files, r);
    TallySnoc(files[n].records, r);
    assert Put(files, r)[..n] == files[..n];
  }

  lemma WriteAllStep(period: int, files: seq<File>, packets: seq<Packet>, i: nat, resp: map<Packet, Packet>)
    requires i < |packets|
    ensures WriteAll(period, files, RecordsWith(packets[..i + 1], resp)) ==
            Put(Rotated(period, WriteAll(period, files, RecordsWith(packets[..i], resp)), packets[i].h.ts),
                Record(packets[i], ResponseOf(resp, packets[i])))
  {
    assert packets[..i + 1] == packets[..i] + [packets[i]];
    RecordsSnoc(packets[..i], packets[i], resp);
    var log, r := RecordsWith(packets[..i], resp), Record(packets[i], ResponseOf(resp, packets[i]));
    assert (log + [r])[..|log|] == log;
  }

  function WriteOne(period: int, files: seq<File>, f: Frame, resp: map<Packet, Packet>): seq<File> {
    if f.final || f.start == NO_TIME then files
    else WriteAll(period, Rotated(period, files, f.start), RecordsWith(f.packets, resp))
  }

  function WriteFrames(period: int, files: seq<File>, frames: seq<Frame>, resp: map<Packet, Packet>): seq<File> {
    if frames == [] then files
    else
      var n := |frames| - 1;
      WriteOne(period, WriteFrames(period, files, frames[..n], resp), frames[n], resp)
  }

  /** The files after each of the frames. */
  lemma {:induction false} FilesAfter(period: int, frames: seq<Frame>, resp: map<Packet, Packet>)
    returns (h: seq<seq<File>>)
    ensures |h| == |frames| + 1 && h[0] == [] && h[|frames|] == WriteFrames(period, [], frames, resp)
    ensures forall i :: 0 <= i < |frames| ==> h[i + 1] == WriteOne(period, h[i], frames[i], resp)
  {
    if frames == [] {
      h := [[]];
    } else {
      var n := |frames| - 1;
      var before := FilesAfter(period, frames[..n], resp);
      h := before + [WriteFrames(period, [], frames, resp)];
      forall i | 0 <= i < |frames| ensures h[i + 1] == WriteOne(period, h[i], frames[i], resp) {
        if i < n {
          assert h[i] == before[i] && h[i + 1] == before[i + 1] && frames[..n][i] == frames[i];
        } else {
          assert h[n] == before[n];
        }
      }
    }
  }

  lemma {:induction false} InContents(frames: seq<Frame>, i: nat)
    requires i < |frames|
    ensures forall p :: p in frames[i].packets ==> p in Contents(frames)
  {
    if i < |frames| - 1 { InContents(frames[..|frames| - 1], i); }
  }

  lemma CarryFrame(frames: seq<Frame>, i: nat, resp: map<Packet, Packet>)
    requires i < |frames| && Carry(Contents(frames), resp)
    ensures Carry(frames[i].packets, resp)
  {
    InContents(frames, i);
  }

  /** Only frames with a time, and not the final one, have packets. */
  ghost predicate Plain(frames: seq<Frame>) {
    forall i :: 0 <= i < |frames| && (frames[i].final || frames[i].start == NO_TIME) ==> frames[i].packets == []
  }

  lemma {:induction false} WriteFramesKeep(period: int, frames: seq<Frame>, resp: map<Packet, Packet>)
    requires Plain(frames)
    ensures var r := WriteFrames(period, [], frames, resp);
            Arranged(period, r) && Flat(r) == RecordsWith(Contents(frames), resp)
  {
    if frames != [] {
      var n := |frames| - 1;
      var before := WriteFrames(period, [], frames[..n], resp);
      WriteFramesKeep(period, frames[..n], resp);
      RotatedKeeps(period, before, frames[n].start);
      WriteAllKeeps(period, Rotated(period, before, frames[n].start), RecordsWith(frames[n].packets, resp));
      RecordsConcat(Contents(frames[..n]), frames[n].packets, resp);
      assert Contents(frames[..n]) + [] == Contents(frames[..n]);
    }
  }

  // ------------------------------------------------ when files are opened

  /** A file is opened at the start of a frame of the stream, or at the time of its first record. */
  ghost predicate Opened(f: File, frames: seq<Frame>) {
    || (exists i :: 0 <= i < |frames| && !frames[i].final && frames[i].start == f.openedAt)
    || (f.records != [] && f.records[0].packet.h.ts == f.openedAt)
  }

  ghost predicate AllOpened(files: seq<File>, frames: seq<Frame>) {
    forall i :: 0 <= i < |files| ==> Opened(files[i], frames)
  }

  lemma PutOpened(period: int, files: seq<File>, r: Record, frames: seq<Frame>)
    requires AllOpened(files, frames)
    ensures AllOpened(Put(Rotated(period, files, r.packet.h.ts), r), frames)
  {
    var before := Rotated(period, files, r.packet.h.ts);
    var n := |before| - 1;
    var after := Put(before, r);
    assert after[n].openedAt == before[n].openedAt && after[n].records == before[n].records + [r];
    assert n < |files| ==> Opened(files[n], frames);
    assert forall i :: 0 <= i < n ==> after[i] == files[i];
  }

  lemma {:induction false} WriteAllOpened(period: int, files: seq<File>, log: seq<Record>, frames: seq<Frame>)
    requires AllOpened(files, frames)
    ensures AllOpened(WriteAll(period, files, log), frames)
  {
    if log != [] {
      var n := |log| - 1;
      WriteAllOpened(period, files, log[..n], frames);
      PutOpened(period, WriteAll(period, files, log[..n]), log[n], frames);
    }
  }

  lemma {:induction false} WriteFramesOpened(period: int, frames: seq<Frame>, n: nat, resp: map<Packet, Packet>)
    requires n <= |frames|
    ensures AllOpened(WriteFrames(period, [], frames[..n], resp), frames)
  {
    if n > 0 {
      var f, before := frames[n - 1], WriteFrames(period, [], frames[..n - 1], resp);
      assert frames[..n][..n - 1] == frames[..n - 1];
      WriteFramesOpened(period, frames, n - 1, resp);
      if !f.final {
        assert AllOpened(Rotated(period, before, f.start), frames);
        WriteAllOpened(period, Rotated(period, before, f.start), RecordsWith(f.packets, resp), frames);
      }
    }
  }

  /** A file was open at this time that was not due. */
  ghost predicate Covers(period: int, files: seq<File>, time: int) {
    exists i :: 0 <= i < |files| && (period > 0 ==> time <= files[i].openedAt + period * SECOND)
  }

  /** More files, none of which was opened at another time. */
  ghost predicate Grown(files: seq<File>, later: seq<File>) {
    |files| <= |later| && forall i :: 0 <= i < |files| ==> later[i].openedAt == files[i].openedAt
  }

  lemma CoversStill(period: int, files: seq<File>, later: seq<File>, time: int)
    requires Grown(files, later) && Covers(period, files, time)
    ensures Covers(period, later, time)
  {
    var i :| 0 <= i < |files| && (period > 0 ==> time <= files[i].openedAt + period * SECOND);
    assert later[i].openedAt == files[i].openedAt;
  }

  lemma RotatedCovers(period: int, files: seq<File>, time: int)
    ensures Grown(files, Rotated(period, files, time)) && Covers(period, Rotated(period, files, time), time)
  {
    var r := Rotated(period, files, time);
    assert !Due(period, r[|r| - 1].openedAt, time);
  }

  lemma {:induction false} WriteAllGrows(period: int, files: seq<File>, log: seq<Record>)
    ensures Grown(files, WriteAll(period, files, log))
  {
    if log != [] {
      var n := |log| - 1;
      var before := WriteAll(period, files, log[..n]);
      WriteAllGrows(period, files, log[..n]);
      RotatedCovers(period, before, log[n].packet.h.ts);
    }
  }

  /** A frame makes sure that a file is open even when it has no packets. */
  lemma {:induction false} WriteFramesCover(period: int, frames: seq<Frame>, resp: map<Packet, Packet>, i: nat)
    requires i < |frames| && !frames[i].final && frames[i].start != NO_TIME
    ensures Covers(period, WriteFrames(period, [], frames, resp), frames[i].start)
  {
    var n := |frames| - 1;
    var f, before := frames[n], WriteFrames(period, [], frames[..n], resp);
    var rotated := Rotated(period, before, f.start);
    RotatedCovers(period, before, f.start);
    WriteAllGrows(period, rotated, RecordsWith(f.packets, resp));
    if i < n {
      WriteFramesCover(period, frames[..n], resp, i);
      if !f.final && f.start != NO_TIME {
        CoversStill(period, before, rotated, frames[i].start);
        CoversStill(period, rotated, WriteFrames(period, [], frames, resp), frames[i].start);
      }
    } else {
      CoversStill(period, rotated, WriteFrames(period, [], frames, resp), f.start);
    }
  }

  /** At the start of every frame that has a time a file is open. */
  ghost predicate AllCovered(period: int, files: seq<File>, frames: seq<Frame>) {
    forall i :: 0 <= i < |frames| && !frames[i].final && frames[i].start != NO_TIME ==>
      Covers(period, files, frames[i].start)
  }

  /** No file is opened after `now`, nor after the time of one of its records. */
  ghost predicate Early(files: seq<File>, now: int) {
    forall i :: 0 <= i < |files| ==>
      files[i].openedAt <= now && forall r :: r in files[i].records ==> files[i].openedAt <= r.packet.h.ts
  }

  lemma PutEarly(period: int, files: seq<File>, r: Record, now: int)
    requires Early(files, now) && now <= r.packet.h.ts
    ensures Early(Put(Rotated(period, files, r.packet.h.ts), r), r.packet.h.ts)
  {
    var before := Rotated(period, files, r.packet.h.ts);
    var n := |before| - 1;
    var after := Put(before, r);
    assert after[n].openedAt == before[n].openedAt && after[n].records == before[n].records + [r];
    assert forall i :: 0 <= i < n ==> after[i] == files[i];
  }

  lemma {:induction false} WriteAllEarly(period: int, files: seq<File>, packets: seq<Packet>, resp: map<Packet, Packet>,
                                         from: int, to: int)
    requires Early(files, from) && OrderedPackets(packets, from, to)
    ensures Early(WriteAll(period, files, RecordsWith(packets, resp)), to)
  {
    if packets != [] {
      var n := |packets| - 1;
      OrderedPacketsInit(packets, from, to);
      WriteAllEarly(period, files, packets[..n], resp, from, packets[n].h.ts);
      assert packets[..n + 1] == packets;
      WriteAllStep(period, files, packets, n, resp);
      PutEarly(period, WriteAll(period, files, RecordsWith(packets[..n], resp)),
               Record(packets[n], ResponseOf(resp, packets[n])), packets[n].h.ts);
    }
  }

  lemma {:induction false} WriteFramesEarly(period: int, frames: seq<Frame>, resp: map<Packet, Packet>, from: int)
    requires OrderedFrames(frames, from)
    ensures Early(WriteFrames(period, [], frames, resp), EndOf(frames, from))
  {
    if frames != [] {
      var n := |frames| - 1;
      var f, before := frames[n], WriteFrames(period, [], frames[..n], resp);
      OrderedFramesInit(frames, from);
      WriteFramesEarly(period, frames[..n], resp, from);
      OrderedPacketsBounds(f.packets, f.start, f.end);
      assert Early(Rotated(period, before, f.start), f.start);
      WriteAllEarly(period, Rotated(period, before, f.start), f.packets, resp, f.start, f.end);
    }
  }

  /** A file holds records of at most the period from the time it was opened on. */
  ghost predicate Spans(period: int, files: seq<File>) {
    forall i, r :: 0 <= i < |files| && r in files[i].records ==>
      && files[i].openedAt <= r.packet.h.ts
      && (period > 0 ==> r.packet.h.ts <= files[i].openedAt + period * SECOND)
  }

  /** What the files are, for the frames of a whole stream. */
  lemma StreamFiles(period: int, frames: seq<Frame>, resp: map<Packet, Packet>)
    requires Stream(frames)
    ensures var r := WriteFrames(period, [], frames, resp);
            && Arranged(period, r) && Flat(r) == RecordsWith(Contents(frames), resp) && AllOpened(r, frames)
            && AllCovered(period, r, frames)
            && (OrderedFrames(frames[..|frames| - 1], NO_TIME) ==> Spans(period, r))
  {
    var n, r := |frames| - 1, WriteFrames(period, [], frames, resp);
    WriteFramesKeep(period, frames, resp);
    assert frames[..|frames|] == frames;
    WriteFramesOpened(period, frames, |frames|, resp);
    forall i | 0 <= i < |frames| && !frames[i].final && frames[i].start != NO_TIME
      ensures Covers(period, r, frames[i].start)
    {
      WriteFramesCover(period, frames, resp, i);
    }
    if OrderedFrames(frames[..n], NO_TIME) {
      WriteFramesEarly(period, frames[..n], resp, NO_TIME);
      ArrangedMeans(period, r);
    }
  }

  // ------------------------------------------------ the thread

  class Output {
    const period: int
    var isOpen: bool
    var openedAt: int
    var now: int
    var current: Counts
    var total: Counts
    ghost var files: seq<File>

    ghost predicate Valid()
      reads this
    {
      Balanced(period, isOpen, openedAt, current, total, files) && (isOpen ==> NO_TIME < now)
    }

    constructor (period: int)
      ensures Valid() && this.period == period && !isOpen && files == []
    {
      this.period, isOpen, openedAt, now, current, total, files := period, false, NO_TIME, NO_TIME, NONE, NONE, [];
    }

    method Open(time: int)
      requires Valid() && !isOpen && current == NONE && time > NO_TIME
      requires files == [] || Due(period, files[|files| - 1].openedAt, time)
      modifies `isOpen, `openedAt, `now, `current, `total, `files
      ensures Valid() && isOpen && openedAt == time && files == old(files) + [File(time, [])]
      ensures now == if old(now) < time then time else old(now)
    {
      BalancedOpen(period, total, files, openedAt, time);
      files := files + [File(time, [])];
      isOpen, openedAt := true, time;
      now := if now < time then time else now;
    }

    method Close(time: int)
      requires Valid() && isOpen && time > NO_TIME
      modifies this`isOpen, this`now, this`current, this`total
      ensures Valid() && !isOpen && current == NONE && now == if old(now) < time then time else old(now)
    {
      ghost var current0, total0 := current, total;
      total := Sum(total, current);
      now := if now < time then time else now;
      current := NONE;
      isOpen := false;
      BalancedClose(period, openedAt, current0, total0, files, isOpen, current, total);
    }

    /** Open a file if none is open, and change to a new one when the period has passed. */
    method CheckRotation(time: int)
      requires Valid() && time > NO_TIME && (isOpen <==> files != [])
      modifies `isOpen, `openedAt, `now, `current, `total, `files
      ensures Valid() && isOpen && files == Rotated(period, old(files), time) && !Due(period, openedAt, time)
      ensures openedAt == (if old(isOpen) && !Due(period, old(openedAt), time) then old(openedAt) else time)
      ensures now == if old(now) < time then time else old(now)
    {
      assert OpenBooks(0);
      if isOpen && period > 0 && openedAt < time - period * SECOND {
        Close(time);
      }
      if !isOpen {
        Open(time);
      }
      now := if now < time then time else now;
    }

    method WritePacket(p: Packet)
      requires Valid() && isOpen && !Due(period, openedAt, p.h.ts)
      modifies this`current, this`files
      ensures Valid() && old(files) != [] && files == Put(old(files), Record(p, p.response))
    {
      ghost var r := Record(p, p.response);
      var c := current.(items := current.items + 1);
      if !p.h.isResponse && p.response == null {
        c := c.(requestOnly := c.requestOnly + 1);
      }
      if p.h.isResponse {
        c := c.(responseOnly := c.responseOnly + 1);
      }
      BalancedPut(period, isOpen, openedAt, current, total, files, r, c);
      files := Put(files, r);
      current := c;
    }

    method WriteFrame(f: Frame, ghost resp: map<Packet, Packet>)
      requires Valid() && (isOpen <==> files != []) && f.start > NO_TIME
      requires Carry(f.packets, resp)
      modifies `isOpen, `openedAt, `now, `current, `total, `files
      ensures Valid() && isOpen &&
              files == WriteAll(period, Rotated(period, old(files), f.start), RecordsWith(f.packets, resp))
    {
      CheckRotation(f.start);
      ghost var first := files;
      for i := 0 to |f.packets|
        invariant Valid() && isOpen && files == WriteAll(period, first, RecordsWith(f.packets[..i], resp)) != []
      {
        CheckRotation(f.packets[i].h.ts);
        WritePacket(f.packets[i]);
        WriteAllStep(period, first, f.packets, i, resp);
      }
      assert f.packets[..|f.packets|] == f.packets;
    }

    /** Write a frame, unless it is final or has no time. */
    method TakeFrame(f: Frame, ghost resp: map<Packet, Packet>) returns (more: bool)
      requires Valid() && (isOpen <==> files != []) && (f.final || NO_TIME <= f.start) && Carry(f.packets, resp)
      requires f.final || f.start == NO_TIME ==> f.packets == []
      modifies `isOpen, `openedAt, `now, `current, `total, `files
      ensures Valid() && (isOpen <==> files != []) && more == !f.final && files == WriteOne(period, old(files), f, resp)
    {
      more := true;
      if f.final {
        assert f.packets == [];
        more := false;
      } else if f.start == NO_TIME {
        assert f.packets == [];
      } else {
        WriteFrame(f, resp);
      }
    }

    method WriteStream(frames: seq<Frame>, ghost resp: map<Packet, Packet>)
      requires Valid() && !isOpen && files == [] && Stream(frames) && Carry(Contents(frames), resp)
      modifies `isOpen, `openedAt, `now, `current, `total, `files
      ensures Valid() && (isOpen <==> files != []) && files == WriteFrames(period, [], frames, resp)
    {
      var run, i := true, 0;
      ghost var packets := Contents(frames);
      ghost var after := FilesAfter(period, frames, resp);
      while run
        invariant 0 <= i <= |frames| && (run <==> i < |frames|) && Carry(packets, resp)
        invariant Valid() && (isOpen <==> files != []) && files == after[i]
        decreases |frames| - i
      {
        CarryFrame(frames, i, resp);
        assert Carry(packets, resp);
        run := TakeFrame(frames[i], resp);
        assert Carry(packets, resp);
        i := i + 1;
      }
    }

    /** Write frames until the final one. Every packet is written once, in order and in time, and
        the totals count all of them, however often files were rotated. Files are opened at times of
        the stream; when it is in order, each spans at most the period. */
    method Work(frames: seq<Frame>, ghost resp: map<Packet, Packet>)
      requires Valid() && !isOpen && files == [] && Stream(frames) && Carry(Contents(frames), resp)
      modifies `isOpen, `openedAt, `now, `current, `total, `files
      ensures !isOpen && Arranged(period, files) && AllOpened(files, frames) && AllCovered(period, files, frames)
      ensures OrderedFrames(frames[..|frames| - 1], NO_TIME) ==> Spans(period, files)
      ensures Flat(files) == RecordsWith(Contents(frames), resp) && total == Tally(RecordsWith(Contents(frames), resp))
    {
      WriteStream(frames, resp);
      StreamFiles(period, frames, resp);
      if isOpen {
        Close(now);
      }
      assert OpenBooks(0);
    }
  }
}
