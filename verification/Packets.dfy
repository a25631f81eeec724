/** DNS packets as the matcher sees them: the fields that identify a query, the hash over
    those fields and the two comparisons used when a response looks for its request. */
module Packets {
  import opened Words

  type uint8 = x: int | 0 <= x < 0x100
  type uint16 = x: int | 0 <= x < 0x1_0000
  type uint64 = x: int | 0 <= x < 0x1_0000_0000_0000_0000

  /** "No time given"; every real timestamp is larger. */
  const NO_TIME: int := -0x8000_0000_0000_0000

  const AF_INET: uint16 := 2

  /** Number of 32-bit words of an address of the given family. */
  function AddrWords(family: uint16): nat {
    if family == AF_INET then 1 else 4
  }

  datatype Endpoint = Endpoint(port: uint16, addr: seq<uint32>)

  datatype RawHeader = Header(
    ts: int,
    family: uint16,
    protocol: uint8,
    src: Endpoint,
    dst: Endpoint,
    dnsId: uint16,
    isResponse: bool,
    qname: seq<uint8>,
    memorySize: nat
  )

  /** Source and destination belong to the same address family, and the time is a real one. */
  type Header = h: RawHeader |
      && |h.src.addr| == AddrWords(h.family)
      && |h.dst.addr| == AddrWords(h.family)
      && h.ts > NO_TIME
    witness Header(0, AF_INET, 0, Endpoint(0, [0]), Endpoint(0, [0]), 0, false, [], 0)

  /** A packet: immutable parsed data, and the response the matcher may hang on a request. */
  class Packet {
    const h: Header
    var response: Packet?

    constructor (h: Header)
      ensures this.h == h && response == null
    {
      this.h := h;
      response := null;
    }
  }

  /** The identity of a query: who asked whom, over what, with which id. */
  datatype RawKey = Key(family: uint16, protocol: uint8, dnsId: uint16, client: Endpoint, server: Endpoint)

  type Key = k: RawKey | |k.client.addr| == |k.server.addr|
    witness Key(AF_INET, 0, 0, Endpoint(0, []), Endpoint(0, []))

  function KeyOf(h: Header): Key {
    if h.isResponse then Key(h.family, h.protocol, h.dnsId, h.dst, h.src)
    else Key(h.family, h.protocol, h.dnsId, h.src, h.dst)
  }

  // ---------------------------------------------------------------- hashing

  const WRAP := 0x1_0000_0000_0000_0000

  /** A 64-bit unsigned addition. */
  function Add64(x: uint64, y: nat): uint64 { (x + y) % WRAP }

  /** A shift to the left by `bits` places, where `scale` is two to that power. */
  function Scaled(x: nat, scale: nat): nat { scale * x }

  lemma Add64Assoc(x: uint64, y: nat, z: nat)
    ensures Add64(Add64(x, y), z) == Add64(x, y + z)
  {
  }

  /** One accumulation step, reduced modulo the table's parameter. */
  function Mix(hash: uint64, x: nat, param: uint64): uint64
    requires param > 0
  {
    Add64(hash, x) % param
  }

  function FixedFields(k: Key): nat {
    k.family + Scaled(k.protocol, 0x1_0000) + Scaled(k.client.port, 0x1_0000_0000)
    + Scaled(k.server.port, 0x1_0000_0000) + Scaled(k.dnsId, 0x1_0000_0000_0000)
  }

  function WordPair(k: Key, i: nat): nat
    requires i < |k.client.addr| && i < |k.server.addr|
  {
    Scaled(k.client.addr[i], 0x1_0000_0000) + Scaled(k.server.addr[i], 0x1_0000_0000)
  }

  /** Hash over the fixed fields and the first `n` address words, as a function of the key. */
  function KeyHashPrefix(k: Key, param: uint64, n: nat): uint64
    requires param > 0 && n <= |k.client.addr| && n <= |k.server.addr|
  {
    if n == 0 then Mix(0, FixedFields(k), param)
    else Mix(KeyHashPrefix(k, param, n - 1), WordPair(k, n - 1), param)
  }

  /** The primary hash as a function of the key alone. */
  function KeyHash(k: Key, param: uint64): uint64
    requires param > 0
  {
    KeyHashPrefix(k, param, |k.client.addr|)
  }

  method HashFixedFields(h: Header, param: uint64) returns (hash: uint64)
    requires param > 0x100
    ensures hash == Mix(0, FixedFields(KeyOf(h)), param)
  {
    hash := Add64(0, h.family);
    hash := Add64(hash, Scaled(h.protocol, 0x1_0000));
    hash := Add64(hash, Scaled(h.dst.port, 0x1_0000_0000));
    hash := Add64(hash, Scaled(h.src.port, 0x1_0000_0000));
    hash := Add64(hash, Scaled(h.dnsId, 0x1_0000_0000_0000));
    FixedFieldsSum(h.family, Scaled(h.protocol, 0x1_0000), Scaled(h.dst.port, 0x1_0000_0000),
                   Scaled(h.src.port, 0x1_0000_0000), Scaled(h.dnsId, 0x1_0000_0000_0000));
    assert hash == Add64(0, FixedFields(KeyOf(h)));
    hash := hash % param;
  }

  lemma FixedFieldsSum(a: nat, b: nat, c: nat, d: nat, e: nat)
    ensures Add64(Add64(Add64(Add64(Add64(0, a), b), c), d), e) == Add64(0, a + b + d + c + e)
  {
    Add64Assoc(0, a, b);
    Add64Assoc(0, a + b, c);
    Add64Assoc(0, a + b + c, d);
    Add64Assoc(0, a + b + c + d, e);
  }

  method HashWords(start: uint64, src: nat, dst: nat, param: uint64) returns (hash: uint64)
    requires param > 0x100
    ensures hash == Mix(start, src + dst, param)
  {
    Add64Assoc(start, src, dst);
    hash := Add64(start, src);
    hash := Add64(hash, dst);
    hash := hash % param;
  }

  /** The primary hash, accumulated field by field with 64-bit wrap-around and reduced modulo
      `param` as it goes. It depends only on the key, so both directions of a query agree. */
  method PrimaryHash(h: Header, param: uint64) returns (hash: uint64)
    requires param > 0x100
    ensures hash == KeyHash(KeyOf(h), param)
  {
    ghost var k := KeyOf(h);
    hash := HashFixedFields(h, param);
    var i := 0;
    while i < AddrWords(h.family)
      invariant 0 <= i <= AddrWords(h.family)
      invariant hash == KeyHashPrefix(k, param, i)
    {
      var src, dst := Scaled(h.src.addr[i], 0x1_0000_0000), Scaled(h.dst.addr[i], 0x1_0000_0000);
      assert src + dst == WordPair(k, i);
      hash := HashWords(hash, src, dst, param);
      i := i + 1;
    }
  }

  /** The largest parameter; reducing by it loses nothing but one value. */
  const LARGEST: uint64 := 0xffff_ffff_ffff_ffff

  lemma Add64Differs(hash: uint64, x: nat, y: nat)
    requires x < y < x + WRAP - 1
    ensures var u, v := Add64(hash, x), Add64(hash, y); v == u + (y - x) || v == u + (y - x) - WRAP
  {
    var q := (hash + x) / WRAP;
    var u := hash + x - q * WRAP;
    assert u == Add64(hash, x);
    if u + (y - x) < WRAP {
      assert (hash + y) / WRAP == q;
    } else {
      assert (hash + y) / WRAP == q + 1;
    }
  }

  /** What is added to the hash changes it. */
  lemma MixDiffers(hash: uint64, x: nat, y: nat)
    requires x + 1 < y < x + WRAP - 1
    ensures Mix(hash, x, LARGEST) != Mix(hash, y, LARGEST)
  {
    Add64Differs(hash, x, y);
  }

  /** The keys differ in nothing but this one. */
  predicate OneFieldDiffers(k: Key, l: Key) {
    && k.client.addr == l.client.addr && k.server.addr == l.server.addr
    && (if k.family != l.family then 1 else 0) + (if k.protocol != l.protocol then 1 else 0) +
       (if k.dnsId != l.dnsId then 1 else 0) + (if k.client.port != l.client.port then 1 else 0) +
       (if k.server.port != l.server.port then 1 else 0) == 1
  }

  /** The hash sees every field: two keys that differ in one of the fixed fields differ in the hash
      over these. */
  lemma HashSeesFields(k: Key, l: Key)
    requires OneFieldDiffers(k, l)
    ensures KeyHashPrefix(k, LARGEST, 0) != KeyHashPrefix(l, LARGEST, 0)
  {
    var x, y := FixedFields(k), FixedFields(l);
    if k.family < l.family {
      FamilySeen(k, l);
    } else if l.family < k.family {
      FamilySeen(l, k);
    } else if x < y {
      MixDiffers(0, x, y);
    } else {
      MixDiffers(0, y, x);
    }
  }

  lemma LowBits(family: nat, rest: nat)
    requires family < 0x1_0000
    ensures (family + 0x1_0000 * rest) % WRAP % 0x1_0000 == family
  {
    var x := family + 0x1_0000 * rest;
    var q := x / WRAP;
    assert x % WRAP == family + 0x1_0000 * (rest - q * 0x1_0000_0000_0000);
  }

  lemma FamilyDiffers(f: nat, g: nat, rest: nat)
    requires f < g < 0x1_0000
    ensures Mix(0, f + 0x1_0000 * rest, LARGEST) != Mix(0, g + 0x1_0000 * rest, LARGEST)
  {
    LowBits(f, rest);
    LowBits(g, rest);
    var u, v := Add64(0, f + 0x1_0000 * rest), Add64(0, g + 0x1_0000 * rest);
    Add64Differs(0, f + 0x1_0000 * rest, g + 0x1_0000 * rest);
    assert u % 0x1_0000 == f && v % 0x1_0000 == g;
    assert LARGEST % 0x1_0000 == 0xffff;
    assert u != v && u != LARGEST;
    assert v == LARGEST ==> u == LARGEST - (g - f);
  }

  lemma FamilySeen(k: Key, l: Key)
    requires k.family < l.family && FixedFields(k) - k.family == FixedFields(l) - l.family
    ensures KeyHashPrefix(k, LARGEST, 0) != KeyHashPrefix(l, LARGEST, 0)
  {
    var rest := k.protocol + 0x1_0000 * (k.client.port + k.server.port) + 0x1_0000_0000 * k.dnsId;
    assert FixedFields(k) == k.family + 0x1_0000 * rest;
    FamilyDiffers(k.family, l.family, rest);
  }

  /** And so does every word of both addresses. */
  lemma HashSeesWords(k: Key, l: Key, n: nat)
    requires n < |k.client.addr| == |l.client.addr|
    requires KeyHashPrefix(k, LARGEST, n) == KeyHashPrefix(l, LARGEST, n)
    requires (k.client.addr[n] == l.client.addr[n]) != (k.server.addr[n] == l.server.addr[n])
    ensures KeyHashPrefix(k, LARGEST, n + 1) != KeyHashPrefix(l, LARGEST, n + 1)
  {
    var hash, x, y := KeyHashPrefix(k, LARGEST, n), WordPair(k, n), WordPair(l, n);
    if x < y { MixDiffers(hash, x, y); } else { MixDiffers(hash, y, x); }
  }

  // ---------------------------------------------------------------- comparisons

  /** memcmp of `n` words. */
  predicate SameWords(a: seq<uint32>, b: seq<uint32>, n: nat) {
    n <= |a| && n <= |b| && a[..n] == b[..n]
  }

  /** Do two packets, in either direction, belong to the same query up to the name? */
  predicate PrimaryMatch(a: Header, b: Header) {
    var words := AddrWords(a.family);
    if a.family != b.family || a.protocol != b.protocol || a.dnsId != b.dnsId then false
    else if a.isResponse == b.isResponse then
      && a.src.port == b.src.port
      && a.dst.port == b.dst.port
      && SameWords(a.src.addr, b.src.addr, words)
      && SameWords(a.dst.addr, b.dst.addr, words)
    else
      && a.src.port == b.dst.port
      && a.dst.port == b.src.port
      && SameWords(a.src.addr, b.dst.addr, words)
      && SameWords(a.dst.addr, b.src.addr, words)
  }

  lemma PrimaryMatchIsKeyEquality(a: Header, b: Header)
    ensures PrimaryMatch(a, b) <==> KeyOf(a) == KeyOf(b)
  {
    var w := AddrWords(a.family);
    assert a.src.addr[..w] == a.src.addr && a.dst.addr[..w] == a.dst.addr;
    if a.family == b.family {
      assert b.src.addr[..w] == b.src.addr && b.dst.addr[..w] == b.dst.addr;
    }
  }

  /** Matching is an equivalence over packets of mixed directions, and the hash respects it. */
  lemma PrimaryMatchEquivalence(a: Header, b: Header, c: Header, param: uint64)
    requires param > 0x100
    ensures PrimaryMatch(a, a)
    ensures PrimaryMatch(a, b) == PrimaryMatch(b, a)
    ensures PrimaryMatch(a, b) && PrimaryMatch(b, c) ==> PrimaryMatch(a, c)
    ensures PrimaryMatch(a, b) ==> KeyHash(KeyOf(a), param) == KeyHash(KeyOf(b), param)
  {
    PrimaryMatchIsKeyEquality(a, a);
    PrimaryMatchIsKeyEquality(a, b);
    PrimaryMatchIsKeyEquality(b, a);
    PrimaryMatchIsKeyEquality(b, c);
    PrimaryMatchIsKeyEquality(a, c);
  }

  /** Name comparison. A name of size one (the root) in the response matches anything;
      size zero stands for a missing name, which equals only another missing name. */
  predicate QnameMatch(request: Header, response: Header)
    requires !request.isResponse && response.isResponse
  {
    if |response.qname| == 1 then true
    else if |request.qname| != |response.qname| then false
    else if |response.qname| == 0 && |request.qname| == 0 then true
    else |request.qname| > 0 && |response.qname| > 0 && response.qname == request.qname
  }

  /** A response without a name of its own suits any request; otherwise names are equal. */
  predicate NamesAgree(request: Header, response: Header) {
    |response.qname| == 1 || request.qname == response.qname
  }

  lemma QnameMatchMeans(request: Header, response: Header)
    requires !request.isResponse && response.isResponse
    ensures QnameMatch(request, response) <==> NamesAgree(request, response)
  {
  }
}
