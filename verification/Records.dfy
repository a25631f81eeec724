/** Output records and how they are counted. */
module Records {
  import opened Sequences
  import opened Packets

  /** One record of the output: a packet with the response hung on it, if any. */
  datatype Record = Record(packet: Packet, response: Packet?)

  function ResponseOf(resp: map<Packet, Packet>, p: Packet): Packet? {
    if p in resp then resp[p] else null
  }

  /** The response fields of the packets are as in `resp`. */
  ghost predicate Carry(packets: seq<Packet>, resp: map<Packet, Packet>)
    reads packets`response
  {
    forall p :: p in packets ==> p.response == ResponseOf(resp, p)
  }

  function PacketsOf(log: seq<Record>): seq<Packet> {
    if log == [] then [] else PacketsOf(log[..|log| - 1]) + [log[|log| - 1].packet]
  }

  /** Every record has the response its packet has in `resp`. */
  ghost predicate Faithful(log: seq<Record>, resp: map<Packet, Packet>) {
    forall i :: 0 <= i < |log| ==> log[i].response == ResponseOf(resp, log[i].packet)
  }

  function RecordsWith(packets: seq<Packet>, resp: map<Packet, Packet>): seq<Record> {
    if packets == [] then []
    else
      var n := |packets| - 1;
      RecordsWith(packets[..n], resp) + [Record(packets[n], ResponseOf(resp, packets[n]))]
  }

  lemma RecordsSnoc(packets: seq<Packet>, p: Packet, resp: map<Packet, Packet>)
    ensures RecordsWith(packets + [p], resp) == RecordsWith(packets, resp) + [Record(p, ResponseOf(resp, p))]
  {
    assert (packets + [p])[..|packets|] == packets;
  }

  lemma {:induction false} RecordsConcat(a: seq<Packet>, b: seq<Packet>, resp: map<Packet, Packet>)
    ensures RecordsWith(a + b, resp) == RecordsWith(a, resp) + RecordsWith(b, resp)
  {
    if b == [] {
      assert a + b == a;
    } else {
      var n := |b| - 1;
      RecordsConcat(a, b[..n], resp);
      RecordsSnoc(a + b[..n], b[n], resp);
      ConcatAssoc(a, b[..n], [b[n]]);
      ConcatAssoc(RecordsWith(a, resp), RecordsWith(b[..n], resp), [Record(b[n], ResponseOf(resp, b[n]))]);
      SplitLast(b);
    }
  }

  /** A log is determined by its packets and the responses. */
  lemma {:induction false} RecordsAre(log: seq<Record>, resp: map<Packet, Packet>)
    requires Faithful(log, resp)
    ensures log == RecordsWith(PacketsOf(log), resp)
  {
    if log != [] {
      var n := |log| - 1;
      RecordsAre(log[..n], resp);
      RecordsSnoc(PacketsOf(log[..n]), log[n].packet, resp);
    }
  }

  datatype Counts = Counts(items: nat, requestOnly: nat, responseOnly: nat)

  const NONE := Counts(0, 0, 0)

  predicate RequestOnly(r: Record) { !r.packet.h.isResponse && r.response == null }

  predicate ResponseOnly(r: Record) { r.packet.h.isResponse }

  function Counted(c: Counts, r: Record): Counts {
    Counts(c.items + 1,
           c.requestOnly + if RequestOnly(r) then 1 else 0,
           c.responseOnly + if ResponseOnly(r) then 1 else 0)
  }

  function Sum(a: Counts, b: Counts): Counts {
    Counts(a.items + b.items, a.requestOnly + b.requestOnly, a.responseOnly + b.responseOnly)
  }

  function Tally(log: seq<Record>): Counts {
    if log == [] then NONE else Counted(Tally(log[..|log| - 1]), log[|log| - 1])
  }

  lemma TallySnoc(log: seq<Record>, r: Record)
    ensures Tally(log + [r]) == Counted(Tally(log), r) && PacketsOf(log + [r]) == PacketsOf(log) + [r.packet]
  {
    assert (log + [r])[..|log|] == log;
  }

  lemma {:induction false} TallyConcat(a: seq<Record>, b: seq<Record>)
    ensures Tally(a + b) == Sum(Tally(a), Tally(b))
  {
    if b == [] {
      assert a + b == a;
    } else {
      var n := |b| - 1;
      TallyConcat(a, b[..n]);
      TallySnoc(a + b[..n], b[n]);
      ConcatAssoc(a, b[..n], [b[n]]);
      SplitLast(b);
    }
  }

  lemma {:induction false} PacketsOfLength(log: seq<Record>)
    ensures |PacketsOf(log)| == |log|
  {
    if log != [] { PacketsOfLength(log[..|log| - 1]); }
  }
}
