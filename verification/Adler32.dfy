/** Adler-32 (section 2.2 of RFC 1950) with the remainder taken once per block. */
module Adler32 {
  import opened Words

  const BASE := 65521
  const NMAX := 5552

  datatype Sums = Sums(a: nat, b: nat)

  function AddByte(s: Sums, x: byte): Sums { Sums(s.a + x, s.b + s.a + x) }

  /** The seal on remainders; proofs about sequences of bytes need not look at the arithmetic. */
  ghost predicate OpenRem(x: int) { true }

  ghost predicate IsRem(r: nat, x: nat) {
    r < BASE && forall y :: OpenRem(y) ==> r == x % BASE
  }

  ghost function Rem(x: nat): (r: nat)
    ensures r < BASE
  {
    assert IsRem(x % BASE, x);
    var r :| IsRem(r, x); r
  }

  lemma RemIs(x: nat)
    ensures Rem(x) == x % BASE
  {
    assert OpenRem(0);
  }

  ghost function Mod(s: Sums): (r: Sums)
    ensures r.a < BASE && r.b < BASE
  {
    Sums(Rem(s.a), Rem(s.b))
  }

  /** The definition: remainders after every byte. */
  ghost function Reduced(s: Sums, data: seq<byte>): Sums {
    if data == [] then s else Mod(AddByte(Reduced(s, data[..|data| - 1]), data[|data| - 1]))
  }

  /** No remainders at all. */
  function Plain(s: Sums, data: seq<byte>): Sums {
    if data == [] then s else AddByte(Plain(s, data[..|data| - 1]), data[|data| - 1])
  }

  lemma RemAdd(a: nat, x: nat)
    ensures Rem(Rem(a) + x) == Rem(a + x)
  {
    RemIs(a);
    RemIs(Rem(a) + x);
    RemIs(a + x);
  }

  lemma ModAddByte(s: Sums, x: byte)
    ensures Mod(AddByte(Mod(s), x)) == Mod(AddByte(s, x))
  {
    RemAdd(s.a, x);
    RemAdd(s.b, Rem(s.a) + x);
    RemAdd(s.a, s.b + x);
    assert Rem(s.b) + Rem(s.a) + x == Rem(s.b) + (Rem(s.a) + x);
    assert s.b + (Rem(s.a) + x) == Rem(s.a) + (s.b + x);
    assert s.a + (s.b + x) == s.b + s.a + x;
  }

  /** Taking the remainder once at the end gives the same. */
  lemma {:induction false} PlainIsReduced(s: Sums, data: seq<byte>)
    requires data != []
    ensures Mod(Plain(s, data)) == Reduced(s, data)
  {
    var n := |data| - 1;
    if n > 0 {
      PlainIsReduced(s, data[..n]);
      ModAddByte(Plain(s, data[..n]), data[n]);
    }
  }

  lemma ReducedSnoc(s: Sums, data: seq<byte>, x: byte)
    ensures Reduced(s, data + [x]) == Mod(AddByte(Reduced(s, data), x))
  {
    assert (data + [x])[..|data|] == data;
  }

  lemma {:induction false} ReducedConcat(s: Sums, x: seq<byte>, y: seq<byte>)
    ensures Reduced(Reduced(s, x), y) == Reduced(s, x + y)
  {
    if y == [] {
      assert x + y == x;
    } else {
      var n := |y| - 1;
      ReducedConcat(s, x, y[..n]);
      ReducedSnoc(s, x + y[..n], y[n]);
      assert y == y[..n] + [y[n]];
      assert x + y == x + y[..n] + [y[n]];
    }
  }

  lemma PlainSnoc(s: Sums, data: seq<byte>, x: byte)
    ensures Plain(s, data + [x]) == AddByte(Plain(s, data), x)
  {
    assert (data + [x])[..|data|] == data;
  }

  /** The sum of the numbers up to `n`. */
  function Triangle(n: nat): nat { if n == 0 then 0 else Triangle(n - 1) + n }

  lemma {:induction false} TriangleIs(n: nat)
    ensures 2 * Triangle(n) == n * (n + 1)
  {
    if n > 0 {
      TriangleIs(n - 1);
      assert n * (n + 1) == (n - 1) * n + 2 * n;
    }
  }

  lemma {:induction false} TriangleGrows(m: nat, n: nat)
    requires m <= n
    ensures Triangle(m) <= Triangle(n)
  {
    if m < n { TriangleGrows(m, n - 1); }
  }

  /** How far the sums can grow in a block that starts with any two 16-bit halves. */
  lemma {:induction false} PlainBounds(s: Sums, data: seq<byte>)
    requires s.a < 0x1_0000 && s.b < 0x1_0000
    ensures var n, r := |data|, Plain(s, data); r.a <= 65535 + 255 * n && r.b <= 65535 + 65535 * n + 255 * Triangle(n)
  {
    if data != [] { PlainBounds(s, data[..|data| - 1]); }
  }

  /** A block of up to 5552 bytes does not overflow 32 bits, whatever the two halves were. */
  lemma BlockFits(s: Sums, data: seq<byte>)
    requires s.a < 0x1_0000 && s.b < 0x1_0000 && |data| <= NMAX
    ensures Plain(s, data).a < 0x1_0000_0000 && Plain(s, data).b < 0x1_0000_0000
  {
    PlainBounds(s, data);
    TriangleGrows(|data|, NMAX);
    TriangleIs(NMAX);
  }

  // ------------------------------------------------ the two sums

  /** The sum of the bytes. */
  function ByteSum(data: seq<byte>): nat {
    if data == [] then 0 else data[0] + ByteSum(data[1..])
  }

  /** The sum of the bytes, each as often as it is counted: the first one `|data|` times, the last once. */
  function WeightedSum(data: seq<byte>): nat {
    if data == [] then 0 else |data| * data[0] + WeightedSum(data[1..])
  }

  lemma {:induction false} ByteSumSnoc(data: seq<byte>, x: byte)
    ensures ByteSum(data + [x]) == ByteSum(data) + x
    ensures WeightedSum(data + [x]) == WeightedSum(data) + ByteSum(data) + x
    decreases |data|
  {
    if data == [] {
      assert data + [x] == [x] && [x][1..] == [];
    } else {
      assert (data + [x])[1..] == data[1..] + [x];
      ByteSumSnoc(data[1..], x);
      assert (|data| + 1) * data[0] == |data| * data[0] + data[0];
    }
  }

  lemma NextSums(s: Sums, n: nat, sum: nat, weighted: nat, x: byte)
    ensures AddByte(Sums(s.a + sum, s.b + n * s.a + weighted), x) ==
            Sums(s.a + (sum + x), s.b + (n + 1) * s.a + (weighted + sum + x))
  {
    assert (n + 1) * s.a == n * s.a + s.a;
  }

  /** The two sums in closed form. */
  lemma {:induction false} PlainIs(s: Sums, data: seq<byte>)
    ensures Plain(s, data) == Sums(s.a + ByteSum(data), s.b + |data| * s.a + WeightedSum(data))
  {
    if data != [] {
      var n, x := |data| - 1, data[|data| - 1];
      PlainIs(s, data[..n]);
      NextSums(s, n, ByteSum(data[..n]), WeightedSum(data[..n]), x);
      ByteSumSnoc(data[..n], x);
      assert data == data[..n] + [x];
    }
  }

  // ------------------------------------------------ the checksum

  function Halves(adler: uint32): (s: Sums)
    ensures s.a < 0x1_0000 && s.b < 0x1_0000
  {
    Sums(adler % 0x1_0000, adler / 0x1_0000)
  }

  function Packed(s: Sums): (adler: uint32)
    requires s.a < 0x1_0000 && s.b < 0x1_0000
  {
    s.b * 0x1_0000 + s.a
  }

  lemma PackedHalves(s: Sums)
    requires s.a < 0x1_0000 && s.b < 0x1_0000
    ensures Halves(Packed(s)) == s
  {
    var x := s.b * 0x1_0000 + s.a;
    assert x / 0x1_0000 == s.b && x % 0x1_0000 == s.a;
  }

  lemma {:induction false} ReducedFits(s: Sums, data: seq<byte>)
    requires s.a < 0x1_0000 && s.b < 0x1_0000
    ensures Reduced(s, data).a < 0x1_0000 && Reduced(s, data).b < 0x1_0000
  {
  }

  /** What the checksum of data is, starting from an earlier checksum. */
  ghost function Checksum(adler: uint32, data: seq<byte>): (r: uint32) {
    ReducedFits(Halves(adler), data);
    Packed(Reduced(Halves(adler), data))
  }

  /** What the checksum of data is, in closed form. */
  lemma ChecksumIs(adler: uint32, data: seq<byte>)
    requires data != []
    ensures var a, b := adler % 0x1_0000, adler / 0x1_0000;
            Checksum(adler, data) ==
            (b + |data| * a + WeightedSum(data)) % BASE * 0x1_0000 + (a + ByteSum(data)) % BASE
  {
    var s := Halves(adler);
    PlainIs(s, data);
    PlainIsReduced(s, data);
    RemIs(Plain(s, data).a);
    RemIs(Plain(s, data).b);
    ReducedFits(s, data);
  }

  /** Data may come in pieces. */
  lemma ChecksumPieces(adler: uint32, x: seq<byte>, y: seq<byte>)
    ensures Checksum(Checksum(adler, x), y) == Checksum(adler, x + y)
  {
    var s := Halves(adler);
    ReducedFits(s, x);
    PackedHalves(Reduced(s, x));
    ReducedConcat(s, x, y);
  }

  // ------------------------------------------------ the fast form

  /** Sixteen bytes, or fewer, without remainders. */
  method AddBytes(data: array<byte>, from: nat, count: nat, ghost start: nat, ghost s: Sums, s1: uint32, s2: uint32)
    returns (r1: uint32, r2: uint32)
    requires start <= from && from + count <= data.Length && from + count - start <= NMAX
    requires s.a < 0x1_0000 && s.b < 0x1_0000 && Sums(s1, s2) == Plain(s, data[start..from])
    ensures Sums(r1, r2) == Plain(s, data[start..from + count])
  {
    r1, r2 := s1, s2;
    for i := 0 to count
      invariant Sums(r1, r2) == Plain(s, data[start..from + i])
    {
      assert data[start..from + i + 1] == data[start..from + i] + [data[from + i]];
      PlainSnoc(s, data[start..from + i], data[from + i]);
      BlockFits(s, data[start..from + i + 1]);
      r1 := r1 + data[from + i];
      r2 := r2 + r1;
    }
  }

  /** A block: sixteen bytes at a time, then the rest, then the remainders. */
  method AddBlock(data: array<byte>, from: nat, count: nat, s1: uint32, s2: uint32) returns (r1: uint32, r2: uint32)
    requires 0 < count <= NMAX && from + count <= data.Length && s1 < 0x1_0000 && s2 < 0x1_0000
    ensures Sums(r1, r2) == Reduced(Sums(s1, s2), data[from..from + count])
  {
    ghost var s := Sums(s1, s2);
    r1, r2 := s1, s2;
    var k, i := count, from;
    assert data[from..from] == [];
    while k >= 16
      invariant 0 <= k && i + k == from + count && from <= i && Sums(r1, r2) == Plain(s, data[from..i])
    {
      r1, r2 := AddBytes(data, i, 16, from, s, r1, r2);
      i := i + 16;
      k := k - 16;
    }
    r1, r2 := AddBytes(data, i, k, from, s, r1, r2);
    PlainIsReduced(s, data[from..from + count]);
    r1, r2 := Remainders(r1, r2);
  }

  method Remainders(s1: uint32, s2: uint32) returns (r1: uint32, r2: uint32)
    ensures Sums(r1, r2) == Mod(Sums(s1, s2))
  {
    RemIs(s1);
    RemIs(s2);
    r1 := s1 % BASE;
    r2 := s2 % BASE;
  }

  /** The update equals the definition for every start value and every buffer, and no sum
      overflows on the way. Without a buffer the start value of a new checksum is returned. */
  method Update(adler: uint32, buf: array?<byte>) returns (r: uint32)
    ensures buf == null ==> r == 1
    ensures buf != null ==> r == Checksum(adler, buf[..])
    ensures buf != null && buf.Length > 0 ==>
              var a, b := adler % 0x1_0000, adler / 0x1_0000;
              r == (b + buf.Length * a + WeightedSum(buf[..])) % BASE * 0x1_0000 + (a + ByteSum(buf[..])) % BASE
  {
    if buf == null {
      return 1;
    }
    var s1: uint32, s2: uint32 := adler % 0x1_0000, adler / 0x1_0000;
    s1, s2 := AddAll(buf, s1, s2);
    r := s2 * 0x1_0000 + s1;
    if buf.Length > 0 { ChecksumIs(adler, buf[..]); }
  }

  method AddAll(buf: array<byte>, s1: uint32, s2: uint32) returns (r1: uint32, r2: uint32)
    requires s1 < 0x1_0000 && s2 < 0x1_0000
    ensures r1 < 0x1_0000 && r2 < 0x1_0000 && Sums(r1, r2) == Reduced(Sums(s1, s2), buf[..])
  {
    ghost var s, data := Sums(s1, s2), buf[..];
    r1, r2 := s1, s2;
    var len, i := buf.Length, 0;
    while len > 0
      invariant 0 <= len && i + len == buf.Length && r1 < 0x1_0000 && r2 < 0x1_0000
      invariant Sums(r1, r2) == Reduced(s, data[..i])
    {
      var k := if len < NMAX then len else NMAX;
      len := len - k;
      NextBlock(s, data, i, k);
      assert buf[i..i + k] == data[i..i + k];
      r1, r2 := AddBlock(buf, i, k, r1, r2);
      i := i + k;
    }
    assert data[..i] == data;
  }

  lemma NextBlock(s: Sums, data: seq<byte>, i: nat, k: nat)
    requires s.a < 0x1_0000 && s.b < 0x1_0000 && i + k <= |data|
    ensures var r := Reduced(s, data[..i + k]);
            r == Reduced(Reduced(s, data[..i]), data[i..i + k]) && r.a < 0x1_0000 && r.b < 0x1_0000
  {
    ReducedConcat(s, data[..i], data[i..i + k]);
    assert data[..i] + data[i..i + k] == data[..i + k];
    ReducedFits(s, data[..i + k]);
  }
}
