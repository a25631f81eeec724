/** The packets of the time window, with the hash table as an index of those that wait for a response. */
module Window {
  import opened Packets
  import opened MatcherSpec
  import opened MatcherLaws
  import PacketTable

  /** The window's invariant is only looked at where a proof mentions this seal. */
  ghost predicate OpenWindow(x: int) { true }

  class Window {
    const table: PacketTable.Table
    var queue: seq<Packet>

    /** The responses hung on requests so far, and all packets that came in. */
    ghost var resp: map<Packet, Packet>
    ghost var seen: set<Packet>

    /** The hash table holds exactly the queued requests without a response, those with one key in
        one list, newest first. */
    ghost predicate Indexed()
      reads `queue, `resp, table, table.data
    {
      && table.Valid()
      && NoDuplicates(queue)
      && (forall k :: table.waiting(k) == Pending(queue, resp, k))
    }

    /** The response fields of all packets seen are as recorded. */
    ghost predicate Hung()
      reads `queue, `resp, `seen, seen`response
    {
      && (forall p :: p in queue ==> p in seen)
      && (forall p :: p in resp ==> p in seen)
      && (forall p :: p in seen ==> p.response == if p in resp then resp[p] else null)
    }

    /** The invariant, under the seal. */
    ghost predicate Valid()
      reads this, table, table.data, seen`response
    {
      forall x :: OpenWindow(x) ==> Indexed() && Hung()
    }

    constructor (minCapacity: nat, seed: uint64)
      requires minCapacity > 0 && seed > 0x100
      ensures Valid() && fresh(table) && fresh(table.data)
      ensures queue == [] && resp == map[] && seen == {}
    {
      table := new PacketTable.Table(minCapacity, seed);
      queue, resp, seen := [], map[], {};
    }

    /** Take the oldest packet off the table, if it is a request without response. */
    method Unindex(p: Packet)
      requires Indexed() && queue != [] && p == queue[0] && (p.response == null <==> p !in resp)
      modifies table, table.data
      ensures table.Valid() && (table.data == old(table.data) || fresh(table.data))
      ensures forall k :: table.waiting(k) == Pending(queue[1..], resp, k)
    {
      forall k ensures Pending(queue[1..], resp, k) ==
                       if IsPending(p, resp, k) then PacketTable.Without(Pending(queue, resp, k), p)
                       else Pending(queue, resp, k)
      {
        PendingEvict(queue, resp, k);
      }
      if !p.h.isResponse && p.response == null {
        PendingIn(queue, resp, KeyOf(p.h), p);
        table.Remove(p);
      }
    }

    /** Take the oldest packet off the queue, and off the table. */
    method Dequeue() returns (p: Packet)
      requires Valid() && queue != []
      modifies `queue, table, table.data
      ensures Valid() && (table.data == old(table.data) || fresh(table.data))
      ensures p == old(queue[0]) && queue == old(queue)[1..]
    {
      assert OpenWindow(0);
      p := queue[0];
      Unindex(p);
      queue := queue[1..];
    }

    method EnqueueRequest(p: Packet)
      requires Valid() && p !in seen && p.response == null && !p.h.isResponse
      modifies `queue, `seen, table, table.data
      ensures Valid() && (table.data == old(table.data) || fresh(table.data))
      ensures queue == old(queue) + [p] && seen == old(seen) + {p}
    {
      assert OpenWindow(0);
      forall k
        ensures Pending(queue + [p], resp, k) == (if k == KeyOf(p.h) then [p] else []) + Pending(queue, resp, k)
      {
        PendingAppend(queue, resp, k, p);
      }
      table.Insert(p);
      queue, seen := queue + [p], seen + {p};
      assert Indexed();
    }

    method EnqueueResponse(p: Packet)
      requires Valid() && p !in seen && p.response == null && p.h.isResponse
      modifies `queue, `seen
      ensures Valid() && queue == old(queue) + [p] && seen == old(seen) + {p}
    {
      assert OpenWindow(0);
      forall k ensures Pending(queue + [p], resp, k) == Pending(queue, resp, k) {
        PendingAppend(queue, resp, k, p);
      }
      queue, seen := queue + [p], seen + {p};
    }

    /** Hang a response on the request that was just taken out of the table. */
    method Hang(req: Packet, p: Packet)
      requires table.Valid() && NoDuplicates(queue) && Hung() && p !in seen && p.response == null
      requires req in queue && IsPending(req, resp, KeyOf(p.h))
      requires forall k :: table.waiting(k) ==
                 if k == KeyOf(p.h) then PacketTable.Without(Pending(queue, resp, k), req) else Pending(queue, resp, k)
      modifies `resp, `seen, req`response
      ensures Valid() && resp == old(resp)[req := p] && seen == old(seen) + {p}
    {
      forall k ensures Pending(queue, resp[req := p], k) == table.waiting(k) {
        PendingAnswer(queue, resp, req, p, k);
      }
      req.response := p;
      resp, seen := resp[req := p], seen + {p};
    }

    /** Look for the request of a response; if there is one it leaves the table and gets the response. */
    method Answer(p: Packet, matchQname: bool) returns (found: bool)
      requires Valid() && p !in seen && p.response == null && p.h.isResponse
      modifies `resp, `seen, table, table.data, seen`response
      ensures Valid() && (table.data == old(table.data) || fresh(table.data))
      ensures var req :=
              PacketTable.Scan(Pending(queue, old(resp), KeyOf(p.h)), p, matchQname, PacketTable.MAX_SEARCH + 1);
              && found == (req != null)
              && (found ==> resp == old(resp)[req := p] && seen == old(seen) + {p})
              && (!found ==> resp == old(resp) && seen == old(seen))
    {
      assert OpenWindow(0);
      PendingRequests(queue, resp, KeyOf(p.h));
      var req := table.GetMatch(p, matchQname);
      found := req != null;
      if req != null {
        PendingIn(queue, resp, KeyOf(p.h), req);
        Hang(req, p);
      }
    }
  }
}
