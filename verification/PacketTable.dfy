/** The table of requests that still wait for a response: a resizing array of linked bucket
    chains, one bucket per query key, each bucket holding its requests newest first. */
module PacketTable {
  import opened Packets

  const MIN_PERCENT := 25
  const BEST_PERCENT := 50
  const MAX_PERCENT := 75
  const MAX_SEARCH := 32

  // ------------------------------------------------ reference: lists by key

  /** `s` without the first occurrence of `p`. */
  function Without(s: seq<Packet>, p: Packet): (r: seq<Packet>) {
    if s == [] then [] else if s[0] == p then s[1..] else [s[0]] + Without(s[1..], p)
  }

  /** Names are only compared between a request and a response. */
  predicate Acceptable(request: Packet, response: Packet, matchQname: bool) {
    !matchQname || (!request.h.isResponse && response.h.isResponse && QnameMatch(request.h, response.h))
  }

  lemma AcceptableMeans(request: Packet, response: Packet, matchQname: bool)
    requires !request.h.isResponse && response.h.isResponse
    ensures Acceptable(request, response, matchQname) <==> (matchQname ==> NamesAgree(request.h, response.h))
  {
    QnameMatchMeans(request.h, response.h);
  }

  /** What has to hold before the names of a list are compared with that of `r`. */
  predicate Comparable(list: seq<Packet>, r: Packet, matchQname: bool) {
    matchQname ==> r.h.isResponse && forall p :: p in list ==> !p.h.isResponse
  }

  /** Plain scan: the first acceptable request among the first `budget` of them. */
  function Scan(s: seq<Packet>, response: Packet, matchQname: bool, budget: nat): (r: Packet?)
    ensures r != null ==> r in s && Acceptable(r, response, matchQname)
  {
    if s == [] || budget == 0 then null
    else if Acceptable(s[0], response, matchQname) then s[0]
    else Scan(s[1..], response, matchQname, budget - 1)
  }

  /** What a response gets from a list of requests: the first one that is acceptable, if it is among
      the first 33; nothing if none of those is. */
  ghost predicate IsFirst(list: seq<Packet>, r: Packet, matchQname: bool, req: Packet?) {
    if req == null then forall j :: 0 <= j < |list| && j <= MAX_SEARCH ==> !Acceptable(list[j], r, matchQname)
    else
      exists i :: && 0 <= i < |list| && i <= MAX_SEARCH && list[i] == req && Acceptable(list[i], r, matchQname)
                  && forall j :: 0 <= j < i ==> !Acceptable(list[j], r, matchQname)
  }

  lemma {:induction false} ScanFinds(s: seq<Packet>, r: Packet, q: bool, budget: nat) returns (i: nat)
    ensures i <= |s| && i <= budget && forall j :: 0 <= j < i ==> !Acceptable(s[j], r, q)
    ensures if Scan(s, r, q, budget) == null then i == |s| || i == budget
            else i < |s| && i < budget && s[i] == Scan(s, r, q, budget) && Acceptable(s[i], r, q)
    decreases budget
  {
    if s == [] || budget == 0 || Acceptable(s[0], r, q) {
      i := 0;
    } else {
      var k := ScanFinds(s[1..], r, q, budget - 1);
      i := k + 1;
      assert forall j :: 0 < j < |s| ==> s[j] == s[1..][j - 1];
    }
  }

  /** The scan gives the first acceptable request. */
  lemma ScanIsFirst(s: seq<Packet>, r: Packet, q: bool)
    ensures IsFirst(s, r, q, Scan(s, r, q, MAX_SEARCH + 1))
  {
    var _ := ScanFinds(s, r, q, MAX_SEARCH + 1);
  }

  lemma {:induction false} WithoutAt(s: seq<Packet>, i: nat)
    requires i < |s|
    requires forall j :: 0 <= j < i ==> s[j] != s[i]
    ensures Without(s, s[i]) == s[..i] + s[i + 1..]
  {
    if i > 0 {
      WithoutAt(s[1..], i - 1);
      assert s[1..][..i - 1] == s[1..i];
      assert s[..i] == [s[0]] + s[1..i];
    }
  }

  lemma {:induction false} ScanAt(s: seq<Packet>, r: Packet, q: bool, budget: nat, i: nat)
    requires i <= |s| && i <= budget
    requires forall j :: 0 <= j < i ==> !Acceptable(s[j], r, q)
    ensures Scan(s, r, q, budget) == Scan(s[i..], r, q, budget - i)
  {
    if i > 0 {
      ScanAt(s[1..], r, q, budget - 1, i - 1);
      assert s[1..][i - 1..] == s[i..];
    } else {
      assert s[0..] == s;
    }
  }

  // ------------------------------------------------ buckets in their slots

  /** The requests with one key, newest first, and the hash of the key. */
  datatype Bucket = Bucket(hashValue: uint64, packets: seq<Packet>)

  /** The seal on the arithmetic of slots; proofs about chains need not look at it. */
  ghost predicate OpenSlot(x: int) { true }

  /** The slot of a hash value in a table of `n` slots: the remainder. */
  ghost function SlotOf(hash: nat, n: nat): (r: nat)
    requires n > 0
    ensures r < n
  {
    assert IsSlot(hash % n, hash, n);
    var r :| IsSlot(r, hash, n); r
  }

  ghost predicate IsSlot(r: nat, hash: nat, n: nat)
    requires n > 0
  {
    r < n && forall x :: OpenSlot(x) ==> r == hash % n
  }

  lemma SlotIs(hash: nat, n: nat)
    requires n > 0
    ensures SlotOf(hash, n) == hash % n
  {
    assert OpenSlot(0);
  }

  /** A table's chains, slot by slot. */
  type Chains = seq<seq<Bucket>>

  ghost function AllBuckets(chains: Chains): set<Bucket> {
    set i, b | 0 <= i < |chains| && b in chains[i] :: b
  }

  /** The chains hold exactly the buckets of `nodes`, each once and in the slot of its hash value. */
  ghost predicate Spread(chains: Chains, nodes: set<Bucket>) {
    && |chains| > 0
    && (forall i, b :: 0 <= i < |chains| && b in chains[i] ==> b in nodes && SlotOf(b.hashValue, |chains|) == i)
    && (forall b :: b in nodes ==> b in chains[SlotOf(b.hashValue, |chains|)])
    && (forall i :: 0 <= i < |chains| ==> Distinct(chains[i]))
  }

  predicate Distinct(c: seq<Bucket>) {
    forall j, l :: 0 <= j < l < |c| ==> c[j] != c[l]
  }

  /** Number of buckets in the first `n` slots. */
  ghost function Total(chains: Chains, n: nat): nat
    requires n <= |chains|
  {
    if n == 0 then 0 else Total(chains, n - 1) + |chains[n - 1]|
  }

  lemma {:induction false} TotalUpdate(chains: Chains, slot: nat, c: seq<Bucket>, n: nat)
    requires slot < |chains| && n <= |chains|
    ensures Total(chains[slot := c], n) == Total(chains, n) + if slot < n then |c| - |chains[slot]| else 0
  {
    if n > 0 { TotalUpdate(chains, slot, c, n - 1); }
  }

  lemma {:induction false} TotalEmpty(chains: Chains, n: nat)
    requires n <= |chains| && forall i :: 0 <= i < |chains| ==> chains[i] == []
    ensures Total(chains, n) == 0
  {
    if n > 0 { TotalEmpty(chains, n - 1); }
  }

  // ------------------------------------------------ rehashing

  ghost function Elements(c: seq<Bucket>): set<Bucket> {
    set b | b in c
  }

  lemma SpreadPush(chains: Chains, nodes: set<Bucket>, b: Bucket)
    requires Spread(chains, nodes) && b !in nodes
    ensures var s := SlotOf(b.hashValue, |chains|); Spread(chains[s := [b] + chains[s]], nodes + {b})
  {
  }

  /** Move one chain, bucket by bucket, to the heads of its new slots. */
  method MoveChain(chain: seq<Bucket>, data: array<seq<Bucket>>, ghost nodes: set<Bucket>)
    requires Spread(data[..], nodes) && nodes !! Elements(chain)
    requires Distinct(chain)
    modifies data
    ensures Spread(data[..], nodes + Elements(chain))
    ensures Total(data[..], data.Length) == old(Total(data[..], data.Length)) + |chain|
  {
    var rest := chain;
    ghost var now := nodes;
    while rest != []
      invariant Spread(data[..], now) && now !! Elements(rest)
      invariant now + Elements(rest) == nodes + Elements(chain)
      invariant Distinct(rest)
      invariant Total(data[..], data.Length) + |rest| == old(Total(data[..], data.Length)) + |chain|
    {
      assert rest == [rest[0]] + rest[1..];
      Push(rest[0], data, now);
      now, rest := now + {rest[0]}, rest[1..];
    }
  }

  method Push(b: Bucket, data: array<seq<Bucket>>, ghost nodes: set<Bucket>)
    requires Spread(data[..], nodes) && b !in nodes
    modifies data
    ensures Spread(data[..], nodes + {b})
    ensures Total(data[..], data.Length) == old(Total(data[..], data.Length)) + 1
  {
    SlotIs(b.hashValue, data.Length);
    var s := b.hashValue % data.Length;
    ghost var before := data[..];
    SpreadPush(before, nodes, b);
    TotalUpdate(before, s, [b] + before[s], |before|);
    data[s] := [b] + data[s];
    assert data[..] == before[s := [b] + before[s]];
  }

  /** The buckets whose slot lies before `i`. */
  ghost function Earlier(nodes: set<Bucket>, capacity: nat, i: nat): set<Bucket>
    requires capacity > 0
  {
    set b | b in nodes && SlotOf(b.hashValue, capacity) < i
  }

  lemma EarlierNext(chains: Chains, nodes: set<Bucket>, i: nat)
    requires Spread(chains, nodes) && i < |chains|
    ensures Earlier(nodes, |chains|, i + 1) == Earlier(nodes, |chains|, i) + Elements(chains[i])
    ensures Earlier(nodes, |chains|, i) !! Elements(chains[i])
  {
    forall b | b in nodes && SlotOf(b.hashValue, |chains|) == i ensures b in Elements(chains[i]) {}
  }

  /** A new array of the given size with all buckets in it. */
  method Rehash(data: array<seq<Bucket>>, newCapacity: nat, ghost nodes: set<Bucket>)
    returns (newData: array<seq<Bucket>>)
    requires Spread(data[..], nodes) && newCapacity > 0
    ensures fresh(newData) && newData.Length == newCapacity
    ensures Spread(newData[..], nodes)
    ensures Total(newData[..], newCapacity) == Total(data[..], data.Length)
  {
    newData := new seq<Bucket>[newCapacity](_ => []);
    EmptyTable(newData[..]);
    EarlierEnds(data[..], nodes);
    var i := 0;
    while i < data.Length
      invariant 0 <= i <= data.Length
      invariant Spread(newData[..], Earlier(nodes, data.Length, i))
      invariant Total(newData[..], newCapacity) == Total(data[..], i)
    {
      MoveSlot(data, i, newData, nodes);
      i := i + 1;
    }
  }

  method MoveSlot(data: array<seq<Bucket>>, i: nat, newData: array<seq<Bucket>>, ghost nodes: set<Bucket>)
    requires Spread(data[..], nodes) && i < data.Length && data != newData
    requires Spread(newData[..], Earlier(nodes, data.Length, i))
    modifies newData
    ensures Spread(newData[..], Earlier(nodes, data.Length, i + 1))
    ensures Total(newData[..], newData.Length) == old(Total(newData[..], newData.Length)) + |data[i]|
  {
    EarlierNext(data[..], nodes, i);
    MoveChain(data[i], newData, Earlier(nodes, data.Length, i));
  }

  lemma EmptyTable(chains: Chains)
    requires |chains| > 0 && forall i :: 0 <= i < |chains| ==> chains[i] == []
    ensures Spread(chains, {}) && Total(chains, |chains|) == 0
  {
    TotalEmpty(chains, |chains|);
  }

  lemma EarlierEnds(chains: Chains, nodes: set<Bucket>)
    requires Spread(chains, nodes)
    ensures Earlier(nodes, |chains|, 0) == {} && Earlier(nodes, |chains|, |chains|) == nodes
  {
  }

  // ------------------------------------------------ buckets by key

  /** A bucket is not empty, its requests share one key, and it carries that key's hash. */
  ghost predicate Good(b: Bucket, seed: uint64)
    requires seed > 0
  {
    && b.packets != []
    && (forall p :: p in b.packets ==> KeyOf(p.h) == BucketKey(b))
    && b.hashValue == KeyHash(BucketKey(b), seed)
  }

  function BucketKey(b: Bucket): Key
    requires b.packets != []
  {
    KeyOf(b.packets[0].h)
  }

  /** All buckets are good, and there is at most one for each key. */
  ghost predicate KeysApart(nodes: set<Bucket>, seed: uint64)
    requires seed > 0
  {
    && (forall b :: b in nodes ==> Good(b, seed))
    && (forall b, c :: b in nodes && c in nodes && BucketKey(b) == BucketKey(c) ==> b == c)
  }

  /** The table's invariant between calls. */
  ghost predicate Kept(chains: Chains, seed: uint64)
    requires seed > 0
  {
    Spread(chains, AllBuckets(chains)) && KeysApart(AllBuckets(chains), seed)
  }

  /** The list of the bucket for `k` in a chain. */
  ghost function InChain(c: seq<Bucket>, k: Key): (r: seq<Packet>)
    requires forall b :: b in c ==> b.packets != []
  {
    if c == [] then [] else if BucketKey(c[0]) == k then c[0].packets else InChain(c[1..], k)
  }

  /** What the table stands for: the waiting requests with a given key, newest first. */
  ghost function Requests(chains: Chains, seed: uint64, k: Key): seq<Packet>
    requires seed > 0 && Kept(chains, seed)
  {
    InChain(chains[SlotOf(KeyHash(k, seed), |chains|)], k)
  }

  lemma {:induction false} InChainIs(c: seq<Bucket>, k: Key, b: Bucket)
    requires b in c && (forall x :: x in c ==> x.packets != [] && (BucketKey(x) == k <==> x == b))
    ensures InChain(c, k) == b.packets
  {
    if c[0] != b { InChainIs(c[1..], k, b); }
  }

  lemma {:induction false} InChainNone(c: seq<Bucket>, k: Key)
    requires forall b :: b in c ==> b.packets != [] && BucketKey(b) != k
    ensures InChain(c, k) == []
  {
    if c != [] { InChainNone(c[1..], k); }
  }

  /** Lookup in terms of the set of buckets alone. */
  lemma RequestsIs(chains: Chains, seed: uint64, b: Bucket)
    requires seed > 0 && Kept(chains, seed) && b in AllBuckets(chains)
    ensures Requests(chains, seed, BucketKey(b)) == b.packets
  {
    InChainIs(chains[SlotOf(b.hashValue, |chains|)], BucketKey(b), b);
  }

  lemma RequestsNone(chains: Chains, seed: uint64, k: Key)
    requires seed > 0 && Kept(chains, seed) && forall b :: b in AllBuckets(chains) ==> BucketKey(b) != k
    ensures Requests(chains, seed, k) == []
  {
    InChainNone(chains[SlotOf(KeyHash(k, seed), |chains|)], k);
  }

  /** Two tables whose buckets differ only for key `k0` agree on every other key. */
  lemma RequestsElsewhere(chains: Chains, chains': Chains, seed: uint64, k0: Key, k: Key)
    requires seed > 0 && Kept(chains, seed) && Kept(chains', seed) && k != k0
    requires forall b :: b in AllBuckets(chains) && BucketKey(b) != k0 ==> b in AllBuckets(chains')
    requires forall b :: b in AllBuckets(chains') && BucketKey(b) != k0 ==> b in AllBuckets(chains)
    ensures Requests(chains', seed, k) == Requests(chains, seed, k)
  {
    if b :| b in AllBuckets(chains) && BucketKey(b) == k {
      RequestsIs(chains, seed, b);
      RequestsIs(chains', seed, b);
    } else {
      RequestsNone(chains, seed, k);
      RequestsNone(chains', seed, k);
    }
  }

  lemma KeptResized(chains: Chains, chains': Chains, seed: uint64)
    requires seed > 0 && Kept(chains, seed) && Spread(chains', AllBuckets(chains))
    ensures Kept(chains', seed) && AllBuckets(chains') == AllBuckets(chains)
  {
    assert AllBuckets(chains') == AllBuckets(chains);
  }

  /** The same buckets in any other arrangement give the same lists. */
  lemma RequestsResized(chains: Chains, chains': Chains, seed: uint64, k: Key)
    requires seed > 0 && Kept(chains, seed) && Kept(chains', seed) && AllBuckets(chains') == AllBuckets(chains)
    ensures Requests(chains', seed, k) == Requests(chains, seed, k)
  {
    if b :| b in AllBuckets(chains) && BucketKey(b) == k {
      RequestsIs(chains, seed, b);
      RequestsIs(chains', seed, b);
    } else {
      RequestsNone(chains, seed, k);
      RequestsNone(chains', seed, k);
    }
  }

  lemma SpreadAppend(chains: Chains, nodes: set<Bucket>, b: Bucket)
    requires Spread(chains, nodes) && b !in nodes
    ensures var s := SlotOf(b.hashValue, |chains|); Spread(chains[s := chains[s] + [b]], nodes + {b})
  {
  }

  lemma SpreadAll(chains: Chains, nodes: set<Bucket>)
    requires Spread(chains, nodes)
    ensures AllBuckets(chains) == nodes
  {
  }

  lemma ReplaceElements(c: seq<Bucket>, j: nat, b: Bucket)
    requires Distinct(c) && j < |c| && (b in c ==> b == c[j])
    ensures Distinct(c[j := b]) && Elements(c[j := b]) == Elements(c) - {c[j]} + {b}
  {
    var d := c[j := b];
    forall x | x in Elements(c) - {c[j]} + {b} ensures x in d {
      if x == b { assert d[j] == b; } else { var i :| 0 <= i < |c| && c[i] == x; assert d[i] == x; }
    }
  }

  lemma RemoveElements(c: seq<Bucket>, j: nat)
    requires Distinct(c) && j < |c|
    ensures Distinct(c[..j] + c[j + 1..]) && Elements(c[..j] + c[j + 1..]) == Elements(c) - {c[j]}
  {
    var d := c[..j] + c[j + 1..];
    forall x | x in Elements(c) - {c[j]} ensures x in d {
      var i :| 0 <= i < |c| && c[i] == x;
      assert d[if i < j then i else i - 1] == x;
    }
  }

  /** Giving one slot another chain. */
  lemma SpreadSlot(chains: Chains, nodes: set<Bucket>, s: nat, c: seq<Bucket>)
    requires Spread(chains, nodes) && s < |chains| && Distinct(c)
    requires forall b :: b in c ==> SlotOf(b.hashValue, |chains|) == s
    ensures Spread(chains[s := c], nodes - Elements(chains[s]) + Elements(c))
  {
    var after, nodes' := chains[s := c], nodes - Elements(chains[s]) + Elements(c);
    forall b | b in nodes' ensures b in after[SlotOf(b.hashValue, |after|)] {
      if b !in Elements(c) { assert b in chains[SlotOf(b.hashValue, |chains|)]; }
    }
    forall i, b | 0 <= i < |after| && b in after[i] ensures b in nodes' && SlotOf(b.hashValue, |after|) == i {
      if i != s { assert b in chains[i]; }
    }
    forall i | 0 <= i < |after| ensures Distinct(after[i]) {
      if i != s { assert Distinct(chains[i]); }
    }
  }

  /** Hanging a bucket for a new key at the end of its chain. */
  lemma KeptAppend(chains: Chains, seed: uint64, b: Bucket)
    requires seed > 0 && Kept(chains, seed) && Good(b, seed)
    requires forall c :: c in AllBuckets(chains) ==> BucketKey(c) != BucketKey(b)
    ensures var s := SlotOf(b.hashValue, |chains|);
            var after := chains[s := chains[s] + [b]];
            Kept(after, seed) && AllBuckets(after) == AllBuckets(chains) + {b}
  {
    SpreadAppend(chains, AllBuckets(chains), b);
    SpreadAll(chains[SlotOf(b.hashValue, |chains|) := chains[SlotOf(b.hashValue, |chains|)] + [b]],
              AllBuckets(chains) + {b});
  }

  lemma ApartReplace(nodes: set<Bucket>, seed: uint64, a: Bucket, b: Bucket)
    requires seed > 0 && KeysApart(nodes, seed) && a in nodes && Good(b, seed) && BucketKey(a) == BucketKey(b)
    ensures KeysApart(nodes - {a} + {b}, seed) && a.hashValue == b.hashValue && (b in nodes ==> b == a)
  {
  }

  /** Replacing a bucket by another for the same key. */
  lemma KeptReplace(chains: Chains, seed: uint64, s: nat, j: nat, b: Bucket)
    requires seed > 0 && Kept(chains, seed) && Good(b, seed)
    requires s < |chains| && j < |chains[s]| && chains[s][j] in AllBuckets(chains)
    requires BucketKey(chains[s][j]) == BucketKey(b)
    ensures var after := chains[s := chains[s][j := b]];
            Kept(after, seed) && AllBuckets(after) == AllBuckets(chains) - {chains[s][j]} + {b}
  {
    var c, nodes := chains[s], AllBuckets(chains);
    ApartReplace(nodes, seed, c[j], b);
    SpreadReplace(chains, nodes, s, j, b);
    SpreadAll(chains[s := c[j := b]], nodes - {c[j]} + {b});
  }

  lemma SpreadReplace(chains: Chains, nodes: set<Bucket>, s: nat, j: nat, b: Bucket)
    requires Spread(chains, nodes) && s < |chains| && j < |chains[s]|
    requires b.hashValue == chains[s][j].hashValue && (b in nodes ==> b == chains[s][j])
    ensures Spread(chains[s := chains[s][j := b]], nodes - {chains[s][j]} + {b})
  {
    var c := chains[s];
    ReplaceElements(c, j, b);
    SpreadSlot(chains, nodes, s, c[j := b]);
    assert nodes - Elements(c) + Elements(c[j := b]) == nodes - {c[j]} + {b};
  }

  /** Taking a bucket out. */
  lemma KeptRemove(chains: Chains, seed: uint64, s: nat, j: nat)
    requires seed > 0 && Kept(chains, seed)
    requires s < |chains| && j < |chains[s]|
    ensures var after := chains[s := chains[s][..j] + chains[s][j + 1..]];
            Kept(after, seed) && AllBuckets(after) == AllBuckets(chains) - {chains[s][j]}
  {
    var c, nodes := chains[s], AllBuckets(chains);
    var d := c[..j] + c[j + 1..];
    RemoveElements(c, j);
    SpreadSlot(chains, nodes, s, d);
    assert nodes - Elements(c) + Elements(d) == nodes - {c[j]};
    SpreadAll(chains[s := d], nodes - {c[j]});
  }

  // ------------------------------------------------ what each change does to the lists

  /** `after` is `before` with `p` put in front of the requests of its key. */
  ghost predicate PutFirst(before: Chains, after: Chains, seed: uint64, p: Packet)
    requires seed > 0 && Kept(before, seed) && Kept(after, seed)
  {
    forall k: Key :: Requests(after, seed, k) == (if k == KeyOf(p.h) then [p] else []) + Requests(before, seed, k)
  }

  lemma PutInBucket(chains: Chains, seed: uint64, s: nat, j: nat, p: Packet)
    requires seed > 0 && Kept(chains, seed) && s < |chains| && j < |chains[s]|
    requires chains[s][j] in AllBuckets(chains) && BucketKey(chains[s][j]) == KeyOf(p.h)
    ensures var b := chains[s][j];
            var after := chains[s := chains[s][j := b.(packets := [p] + b.packets)]];
            Kept(after, seed) && PutFirst(chains, after, seed, p)
  {
    var b := chains[s][j];
    var b' := b.(packets := [p] + b.packets);
    var after := chains[s := chains[s][j := b']];
    assert Good(b, seed);
    KeptReplace(chains, seed, s, j, b');
    RequestsIs(chains, seed, b);
    RequestsIs(after, seed, b');
    forall k: Key | k != KeyOf(p.h) ensures Requests(after, seed, k) == Requests(chains, seed, k) {
      RequestsElsewhere(chains, after, seed, KeyOf(p.h), k);
    }
  }

  lemma PutInNewBucket(chains: Chains, seed: uint64, p: Packet)
    requires seed > 0 && Kept(chains, seed)
    requires forall c :: c in AllBuckets(chains) ==> BucketKey(c) != KeyOf(p.h)
    ensures var hash := KeyHash(KeyOf(p.h), seed);
            var after := chains[SlotOf(hash, |chains|) := chains[SlotOf(hash, |chains|)] + [Bucket(hash, [p])]];
            Kept(after, seed) && PutFirst(chains, after, seed, p)
  {
    var b := Bucket(KeyHash(KeyOf(p.h), seed), [p]);
    var s := SlotOf(b.hashValue, |chains|);
    var after := chains[s := chains[s] + [b]];
    KeptAppend(chains, seed, b);
    RequestsNone(chains, seed, KeyOf(p.h));
    RequestsIs(after, seed, b);
    forall k: Key | k != KeyOf(p.h) ensures Requests(after, seed, k) == Requests(chains, seed, k) {
      RequestsElsewhere(chains, after, seed, KeyOf(p.h), k);
    }
  }

  /** `after` is `before` without request `p`. */
  ghost predicate TakenOut(before: Chains, after: Chains, seed: uint64, p: Packet)
    requires seed > 0 && Kept(before, seed) && Kept(after, seed)
  {
    forall k: Key :: Requests(after, seed, k) ==
      if k == KeyOf(p.h) then Without(Requests(before, seed, k), p) else Requests(before, seed, k)
  }

  /** The chain at one slot after `p` left the bucket at `j`, and the bucket if it was its last. */
  function ChainWithout(c: seq<Bucket>, j: nat, p: Packet): seq<Bucket>
    requires j < |c|
  {
    var rest := Without(c[j].packets, p);
    if rest == [] then c[..j] + c[j + 1..] else c[j := c[j].(packets := rest)]
  }

  lemma {:induction false} WithoutSubset(s: seq<Packet>, p: Packet)
    ensures forall x :: x in Without(s, p) ==> x in s
  {
    if s != [] && s[0] != p {
      WithoutSubset(s[1..], p);
      assert s == [s[0]] + s[1..];
    }
  }

  lemma TakeFromBucket(chains: Chains, seed: uint64, s: nat, j: nat, p: Packet)
    requires seed > 0 && Kept(chains, seed) && s < |chains| && j < |chains[s]|
    requires chains[s][j] in AllBuckets(chains) && BucketKey(chains[s][j]) == KeyOf(p.h)
    ensures var after := chains[s := ChainWithout(chains[s], j, p)];
            Kept(after, seed) && TakenOut(chains, after, seed, p)
  {
    var b := chains[s][j];
    var rest := Without(b.packets, p);
    var after := chains[s := ChainWithout(chains[s], j, p)];
    assert Good(b, seed);
    RequestsIs(chains, seed, b);
    if rest == [] {
      KeptRemove(chains, seed, s, j);
      RequestsNone(after, seed, KeyOf(p.h));
    } else {
      WithoutSubset(b.packets, p);
      KeptReplace(chains, seed, s, j, b.(packets := rest));
      RequestsIs(after, seed, b.(packets := rest));
    }
    forall k: Key | k != KeyOf(p.h) ensures Requests(after, seed, k) == Requests(chains, seed, k) {
      RequestsElsewhere(chains, after, seed, KeyOf(p.h), k);
    }
  }

  // ------------------------------------------------ load and cost

  function Distance(a: nat, b: nat): nat { if a < b then b - a else a - b }

  /** The load is at most 75%, and at least 25% unless the table has its minimal size. */
  predicate Loaded(buckets: nat, capacity: nat, minCapacity: nat) {
    && buckets <= capacity * MAX_PERCENT / 100
    && (capacity == minCapacity || buckets >= capacity * MIN_PERCENT / 100)
  }

  /** The size was chosen for the load at the last resize, and the calls made pay, at three each,
      for all buckets moved so far and for the distance from that load. */
  predicate Paid(cost: Cost, buckets: nat, capacity: nat, minCapacity: nat) {
    && capacity == (if 2 * cost.settled < minCapacity then minCapacity else 2 * cost.settled)
    && cost.moved + 3 * Distance(buckets, cost.settled) <= 3 * cost.calls
  }

  /** The size a table is given when it is resized with `buckets` buckets in it. */
  function BestCapacity(buckets: nat, minCapacity: nat): nat {
    var wanted := buckets * 100 / BEST_PERCENT;
    if wanted < minCapacity then minCapacity else wanted
  }

  /** A resize that is due is already paid for, and restores the load. */
  lemma ResizeIsPaid(cost: Cost, buckets: nat, capacity: nat, minCapacity: nat)
    requires minCapacity > 0 && Paid(cost, buckets, capacity, minCapacity)
    requires buckets > capacity * MAX_PERCENT / 100 || buckets < capacity * MIN_PERCENT / 100
    ensures var best := BestCapacity(buckets, minCapacity);
            && Loaded(buckets, best, minCapacity)
            && (best == capacity ==> Loaded(buckets, capacity, minCapacity))
            && (best != capacity ==> Paid(Cost(cost.calls, cost.moved + buckets, buckets), buckets, best, minCapacity))
  {
  }

  /** Calls made, buckets moved by resizes, and the number of buckets at the last resize. */
  datatype Cost = Cost(calls: nat, moved: nat, settled: nat)

  // ------------------------------------------------ the table

  /** Facts that hold under this seal are only looked at where a proof mentions it. */
  ghost predicate OpenTable(x: int) { true }

  /** Walk a bucket's list, giving up after `MAX_SEARCH + 1` requests. */
  method FirstAcceptable(list: seq<Packet>, r: Packet, matchQname: bool) returns (req: Packet?)
    requires Comparable(list, r, matchQname)
    ensures IsFirst(list, r, matchQname, req)
    ensures req == Scan(list, r, matchQname, MAX_SEARCH + 1)
  {
    var cnt := 0;
    while cnt < |list|
      invariant 0 <= cnt <= |list| && cnt <= MAX_SEARCH
      invariant forall l :: 0 <= l < cnt ==> !Acceptable(list[l], r, matchQname)
    {
      ScanAt(list, r, matchQname, MAX_SEARCH + 1, cnt);
      if !matchQname || QnameMatch(list[cnt].h, r.h) {
        return list[cnt];
      }
      cnt := cnt + 1;
      if cnt > MAX_SEARCH {
        break;
      }
    }
    ScanAt(list, r, matchQname, MAX_SEARCH + 1, cnt);
    return null;
  }

  class Table {
    var capacity: nat
    const minCapacity: nat
    var buckets: nat
    const seed: uint64
    var data: array<seq<Bucket>>

    ghost var cost: Cost

    /** The waiting requests with each key, newest first: what the table stands for. */
    ghost var waiting: Key -> seq<Packet>

    ghost predicate Stored()
      reads `capacity, `buckets, `data, data
    {
      && seed > 0x100
      && capacity == data.Length
      && Kept(data[..], seed)
      && buckets == Total(data[..], data.Length)
    }

    ghost predicate Sound()
      reads `capacity, `buckets, `data, `cost, data
    {
      && Stored()
      && minCapacity > 0
      && Loaded(buckets, capacity, minCapacity)
      && Paid(cost, buckets, capacity, minCapacity)
    }

    /** The requests with a given key in the chains. */
    ghost function Held(k: Key): seq<Packet>
      requires Stored()
      reads `capacity, `buckets, `data, data
    {
      Requests(data[..], seed, k)
    }

    /** The invariant between calls. It is kept under a seal, so that a user of the table sees of it
        only what the contracts below say. */
    ghost predicate Valid()
      reads this, data
    {
      forall x :: OpenTable(x) ==> Sound() && forall k :: waiting(k) == Held(k)
    }

    constructor (capacity: nat, seed: uint64)
      requires capacity > 0 && seed > 0x100
      ensures Valid() && fresh(data)
      ensures forall k :: waiting(k) == []
      ensures this.seed == seed && minCapacity == capacity && cost == Cost(0, 0, 0)
    {
      var d := new seq<Bucket>[capacity](_ => []);
      EmptyTable(d[..]);
      SpreadAll(d[..], {});
      this.capacity, minCapacity, buckets, this.seed := capacity, capacity, 0, seed;
      data, cost, waiting := d, Cost(0, 0, 0), (k: Key) => [];
    }

    /** Resize to the given size, but not below the minimum. No list changes. */
    method Resize(wanted: nat)
      requires Stored() && minCapacity > 0
      modifies `capacity, `data, `cost
      ensures Stored() && (data == old(data) || fresh(data))
      ensures forall k :: Held(k) == old(Held(k))
      ensures capacity == if wanted < minCapacity then minCapacity else wanted
      ensures cost == if capacity == old(capacity) then old(cost)
                      else Cost(old(cost).calls, old(cost).moved + buckets, buckets)
    {
      var newCapacity := if wanted < minCapacity then minCapacity else wanted;
      if newCapacity != capacity {
        var newData := Rehash(data, newCapacity, AllBuckets(data[..]));
        KeptResized(data[..], newData[..], seed);
        forall k: Key ensures Requests(newData[..], seed, k) == Requests(data[..], seed, k) {
          RequestsResized(data[..], newData[..], seed, k);
        }
        data, capacity := newData, newCapacity;
        cost := Cost(cost.calls, cost.moved + buckets, buckets);
      }
    }

    /** Where the bucket for `h` is: its slot, and its place in the chain or the chain's end. */
    method FindBucket(h: Header, hash: uint64) returns (slot: nat, j: nat)
      requires Stored() && hash == KeyHash(KeyOf(h), seed)
      ensures slot == SlotOf(hash, capacity) && j <= |data[slot]|
      ensures j == |data[slot]| ==> forall b :: b in AllBuckets(data[..]) ==> BucketKey(b) != KeyOf(h)
      ensures j < |data[slot]| ==> data[slot][j] in AllBuckets(data[..]) && BucketKey(data[slot][j]) == KeyOf(h)
    {
      SlotIs(hash, capacity);
      slot := hash % capacity;
      var chain := data[slot];
      j := 0;
      while j < |chain|
        invariant 0 <= j <= |chain|
        invariant forall i :: 0 <= i < j ==> chain[i].packets != [] && BucketKey(chain[i]) != KeyOf(h)
      {
        assert chain[j] in data[..][slot];
        assert Good(chain[j], seed);
        PrimaryMatchIsKeyEquality(h, chain[j].packets[0].h);
        if chain[j].hashValue == hash && PrimaryMatch(h, chain[j].packets[0].h) {
          return;
        }
        j := j + 1;
      }
      assert chain == data[..][slot];
    }

    /** A resize that is due: the load has left its bounds. */
    method Settle()
      requires Stored() && minCapacity > 0 && Paid(cost, buckets, capacity, minCapacity)
      requires buckets > capacity * MAX_PERCENT / 100 || buckets < capacity * MIN_PERCENT / 100
      modifies `capacity, `data, `cost
      ensures Sound() && (data == old(data) || fresh(data)) && cost.calls == old(cost).calls
      ensures forall k :: Held(k) == old(Held(k))
    {
      ResizeIsPaid(cost, buckets, capacity, minCapacity);
      Resize(buckets * 100 / BEST_PERCENT);
    }

    /** A bucket for a key that has none, at the end of its chain. */
    method AddBucket(p: Packet, hash: uint64, slot: nat)
      requires Stored() && hash == KeyHash(KeyOf(p.h), seed) && slot == SlotOf(hash, capacity)
      requires forall b :: b in AllBuckets(data[..]) ==> BucketKey(b) != KeyOf(p.h)
      modifies `buckets, data
      ensures Stored() && buckets == old(buckets) + 1
      ensures forall k :: Held(k) == (if k == KeyOf(p.h) then [p] else []) + old(Held(k))
    {
      ghost var chains := data[..];
      PutInNewBucket(chains, seed, p);
      TotalUpdate(chains, slot, chains[slot] + [Bucket(hash, [p])], |chains|);
      data[slot] := data[slot] + [Bucket(hash, [p])];
      assert data[..] == chains[slot := chains[slot] + [Bucket(hash, [p])]];
      buckets := buckets + 1;
    }

    method InsertNew(p: Packet, hash: uint64, slot: nat)
      requires Sound() && hash == KeyHash(KeyOf(p.h), seed) && slot == SlotOf(hash, capacity)
      requires forall b :: b in AllBuckets(data[..]) ==> BucketKey(b) != KeyOf(p.h)
      modifies `capacity, `buckets, `data, `cost, data
      ensures Sound() && (data == old(data) || fresh(data)) && cost.calls == old(cost).calls + 1
      ensures forall k :: Held(k) == (if k == KeyOf(p.h) then [p] else []) + old(Held(k))
    {
      AddBucket(p, hash, slot);
      cost := cost.(calls := cost.calls + 1);
      if buckets > capacity * MAX_PERCENT / 100 {
        Settle();
      }
    }

    method InsertInto(p: Packet, slot: nat, j: nat)
      requires Sound() && slot < capacity && j < |data[slot]|
      requires data[slot][j] in AllBuckets(data[..]) && BucketKey(data[slot][j]) == KeyOf(p.h)
      modifies `cost, data
      ensures Sound() && cost.calls == old(cost).calls + 1
      ensures forall k :: Held(k) == (if k == KeyOf(p.h) then [p] else []) + old(Held(k))
    {
      ghost var chains := data[..];
      var b := data[slot][j];
      PutInBucket(chains, seed, slot, j, p);
      TotalUpdate(chains, slot, chains[slot][j := b.(packets := [p] + b.packets)], |chains|);
      data[slot] := data[slot][j := b.(packets := [p] + b.packets)];
      assert data[..] == chains[slot := chains[slot][j := b.(packets := [p] + b.packets)]];
      cost := cost.(calls := cost.calls + 1);
    }

    method InsertOpen(p: Packet)
      requires Sound()
      modifies `capacity, `buckets, `data, `cost, data
      ensures Sound() && (data == old(data) || fresh(data)) && cost.calls == old(cost).calls + 1
      ensures forall k :: Held(k) == (if k == KeyOf(p.h) then [p] else []) + old(Held(k))
    {
      var hash := PrimaryHash(p.h, seed);
      var slot, j := FindBucket(p.h, hash);
      if j == |data[slot]| {
        InsertNew(p, hash, slot);
      } else {
        InsertInto(p, slot, j);
      }
    }

    /** Take a request out of the bucket at a place, with the bucket if that leaves it empty. */
    method TakeOut(p: Packet, slot: nat, j: nat)
      requires Stored() && slot < capacity && j < |data[slot]|
      requires data[slot][j] in AllBuckets(data[..]) && BucketKey(data[slot][j]) == KeyOf(p.h)
      modifies `buckets, data
      ensures Stored() && buckets == old(buckets) - if Without(old(data[slot][j].packets), p) == [] then 1 else 0
      ensures forall k :: Held(k) == if k == KeyOf(p.h) then Without(old(Held(k)), p) else old(Held(k))
    {
      ghost var chains := data[..];
      TakeFromBucket(chains, seed, slot, j, p);
      TotalUpdate(chains, slot, ChainWithout(chains[slot], j, p), |chains|);
      var rest := Without(data[slot][j].packets, p);
      if rest == [] {
        data[slot] := data[slot][..j] + data[slot][j + 1..];
        buckets := buckets - 1;
      } else {
        data[slot] := data[slot][j := data[slot][j].(packets := rest)];
      }
      assert data[..] == chains[slot := ChainWithout(chains[slot], j, p)];
    }

    /** Take a request out, and shrink the table if it lost a bucket and got too empty. */
    method RemoveFromBucket(p: Packet, slot: nat, j: nat)
      requires Sound() && slot < capacity && j < |data[slot]|
      requires data[slot][j] in AllBuckets(data[..]) && BucketKey(data[slot][j]) == KeyOf(p.h)
      modifies `capacity, `buckets, `data, `cost, data
      ensures Sound() && (data == old(data) || fresh(data)) && cost.calls == old(cost).calls + 1
      ensures forall k :: Held(k) == if k == KeyOf(p.h) then Without(old(Held(k)), p) else old(Held(k))
    {
      var last := Without(data[slot][j].packets, p) == [];
      TakeOut(p, slot, j);
      cost := cost.(calls := cost.calls + 1);
      if last && buckets < capacity * MIN_PERCENT / 100 {
        Settle();
      }
    }

    method RemoveOpen(p: Packet)
      requires Sound() && p in Held(KeyOf(p.h))
      modifies `capacity, `buckets, `data, `cost, data
      ensures Sound() && (data == old(data) || fresh(data)) && cost.calls == old(cost).calls + 1
      ensures forall k :: Held(k) == if k == KeyOf(p.h) then Without(old(Held(k)), p) else old(Held(k))
    {
      var hash := PrimaryHash(p.h, seed);
      var slot, j := FindBucket(p.h, hash);
      if j == |data[slot]| { RequestsNone(data[..], seed, KeyOf(p.h)); }
      RemoveFromBucket(p, slot, j);
    }

    method GetMatchOpen(r: Packet, matchQname: bool) returns (req: Packet?)
      requires Sound() && Comparable(Held(KeyOf(r.h)), r, matchQname)
      modifies `capacity, `buckets, `data, `cost, data
      ensures Sound() && (data == old(data) || fresh(data)) && cost.calls <= old(cost).calls + 1
      ensures req == Scan(old(Held(KeyOf(r.h))), r, matchQname, MAX_SEARCH + 1)
      ensures forall k :: Held(k) == if req != null && k == KeyOf(r.h) then Without(old(Held(k)), req) else old(Held(k))
    {
      var hash := PrimaryHash(r.h, seed);
      var slot, j := FindBucket(r.h, hash);
      if j == |data[slot]| {
        RequestsNone(data[..], seed, KeyOf(r.h));
        return null;
      }
      RequestsIs(data[..], seed, data[slot][j]);
      req := FirstAcceptable(data[slot][j].packets, r, matchQname);
      if req != null {
        assert Good(data[slot][j], seed);
        RemoveFromBucket(req, slot, j);
      }
    }

    /** Add a request as the newest of its key. */
    method Insert(p: Packet)
      requires Valid()
      modifies this, data
      ensures Valid() && (data == old(data) || fresh(data)) && cost.calls == old(cost).calls + 1
      ensures forall k :: waiting(k) == (if k == KeyOf(p.h) then [p] else []) + old(waiting)(k)
    {
      assert OpenTable(0);
      InsertOpen(p);
      ghost var before := waiting;
      waiting := (k: Key) => (if k == KeyOf(p.h) then [p] else []) + before(k);
    }

    /** Take a waiting request out. */
    method Remove(p: Packet)
      requires Valid() && p in waiting(KeyOf(p.h))
      modifies this, data
      ensures Valid() && (data == old(data) || fresh(data)) && cost.calls == old(cost).calls + 1
      ensures forall k :: waiting(k) == if k == KeyOf(p.h) then Without(old(waiting)(k), p) else old(waiting)(k)
    {
      assert OpenTable(0);
      RemoveOpen(p);
      ghost var before := waiting;
      waiting := (k: Key) => if k == KeyOf(p.h) then Without(before(k), p) else before(k);
    }

    /** The request for a response, taken out: the newest acceptable one among the newest 33. */
    method GetMatch(r: Packet, matchQname: bool) returns (req: Packet?)
      requires Valid() && Comparable(waiting(KeyOf(r.h)), r, matchQname)
      modifies this, data
      ensures Valid() && (data == old(data) || fresh(data)) && cost.calls <= old(cost).calls + 1
      ensures IsFirst(old(waiting)(KeyOf(r.h)), r, matchQname, req)
      ensures req == Scan(old(waiting)(KeyOf(r.h)), r, matchQname, MAX_SEARCH + 1)
      ensures forall k ::
                waiting(k) == if req != null && k == KeyOf(r.h) then Without(old(waiting)(k), req) else old(waiting)(k)
    {
      assert OpenTable(0);
      ScanIsFirst(waiting(KeyOf(r.h)), r, matchQname);
      req := GetMatchOpen(r, matchQname);
      ghost var before, q := waiting, req;
      waiting := (k: Key) => if q != null && k == KeyOf(r.h) then Without(before(k), q) else before(k);
    }

    /** What the invariant says about the load and the cost of resizing. */
    lemma Bounds()
      requires Valid()
      ensures Loaded(buckets, capacity, minCapacity)
      ensures cost.moved <= 3 * cost.calls
    {
      assert OpenTable(0);
    }
  }
}
