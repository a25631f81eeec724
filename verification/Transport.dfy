/** Comparing image signatures: normalised region weights, and the greedy flow between two of them. */
module Transport {
  import opened Words

  const TOTAL := 128
  const MAX_REGIONS := 16

  function Sum(s: seq<nat>): nat {
    if s == [] then 0 else s[0] + Sum(s[1..])
  }

  lemma {:induction false} SumUpdate(s: seq<nat>, i: nat, x: nat)
    requires i < |s|
    ensures Sum(s[i := x]) == Sum(s) - s[i] + x
  {
    if i == 0 {
      assert s[0 := x][1..] == s[1..];
    } else {
      assert s[i := x][1..] == s[1..][i - 1 := x];
      SumUpdate(s[1..], i - 1, x);
    }
  }

  lemma {:induction false} SumPositive(s: seq<nat>) returns (i: nat)
    requires Sum(s) > 0
    ensures i < |s| && s[i] > 0
  {
    if s[0] > 0 {
      i := 0;
    } else {
      var j := SumPositive(s[1..]);
      i := j + 1;
    }
  }

  lemma {:induction false} SumZero(s: seq<nat>, i: nat)
    requires Sum(s) == 0 && i < |s|
    ensures s[i] == 0
  {
    if i > 0 { SumZero(s[1..], i - 1); }
  }

  lemma {:induction false} SumAtLeast(s: seq<nat>, i: nat)
    requires i < |s|
    ensures s[i] <= Sum(s)
  {
    if i > 0 { SumAtLeast(s[1..], i - 1); }
  }

  // ------------------------------------------------ normalised weights

  function Clamp(x: int, lo: int, hi: int): int {
    if x < lo then lo else if x > hi then hi else x
  }

  /** Weights of a signature: at least one for every region, 128 in all. */
  ghost predicate Normalised(w: seq<nat>) {
    1 <= |w| <= MAX_REGIONS && Sum(w) == TOTAL && forall i :: 0 <= i < |w| ==> w[i] >= 1
  }

  /** The weights of the first `i` regions when `w` is left for them: from the last region to the
      first, each gets its share, but at least one, and leaves one for every region still to come. */
  function Weights(shares: seq<nat>, i: nat, w: nat): (r: seq<nat>)
    requires 1 <= i <= |shares| && i <= w
    ensures |r| == i
  {
    if i == 1 then [w]
    else
      var x := Clamp(shares[i - 1], 1, w - (i - 1));
      Weights(shares, i - 1, w - x) + [x]
  }

  lemma {:induction false} WeightsSum(shares: seq<nat>, i: nat, w: nat)
    requires 1 <= i <= |shares| && i <= w
    ensures Sum(Weights(shares, i, w)) == w && forall j :: 0 <= j < i ==> Weights(shares, i, w)[j] >= 1
  {
    if i > 1 {
      var x := Clamp(shares[i - 1], 1, w - (i - 1));
      WeightsSum(shares, i - 1, w - x);
      SumSnoc(Weights(shares, i - 1, w - x), x);
    } else {
      assert [w][1..] == [];
    }
  }

  lemma {:induction false} SumSnoc(s: seq<nat>, x: nat)
    ensures Sum(s + [x]) == Sum(s) + x
  {
    if s == [] {
      assert s + [x] == [x] && [x][1..] == [];
    } else {
      assert (s + [x])[1..] == s[1..] + [x];
      SumSnoc(s[1..], x);
    }
  }

  lemma {:induction false} WeightsAllOne(shares: seq<nat>, i: nat)
    requires 1 <= i <= |shares|
    ensures forall k :: 0 <= k < i ==> Weights(shares, i, i)[k] == 1
  {
    if i > 1 { WeightsAllOne(shares, i - 1); }
  }

  /** Why a weight is what it is: it is the share; or one, since the share is nothing; or less than
      the share, since every region before it is down to one. */
  ghost predicate Deserved(shares: seq<nat>, r: seq<nat>, j: nat)
    requires j < |r| <= |shares|
  {
    || r[j] == shares[j]
    || (shares[j] == 0 && r[j] == 1)
    || (r[j] < shares[j] && forall k :: 0 <= k < j ==> r[k] == 1)
  }

  /** Every weight but the first, which gets what is left, is the share as far as that is possible. */
  lemma {:induction false} WeightsDeserved(shares: seq<nat>, i: nat, w: nat)
    requires 1 <= i <= |shares| && i <= w
    ensures forall j :: 0 < j < i ==> Deserved(shares, Weights(shares, i, w), j)
  {
    if i > 1 {
      var x, r := Clamp(shares[i - 1], 1, w - (i - 1)), Weights(shares, i, w);
      var before := Weights(shares, i - 1, w - x);
      WeightsDeserved(shares, i - 1, w - x);
      if x < shares[i - 1] { WeightsAllOne(shares, i - 1); }
      assert forall k :: 0 <= k < i - 1 ==> r[k] == before[k];
      forall j | 0 < j < i ensures Deserved(shares, r, j) {
        if j < i - 1 { assert Deserved(shares, before, j); }
      }
    }
  }

  lemma {:induction false} SumAtLeastLength(s: seq<nat>)
    requires forall i :: 0 <= i < |s| ==> s[i] >= 1
    ensures Sum(s) >= |s|
  {
    if s != [] { SumAtLeastLength(s[1..]); }
  }

  /** Shares that are weights already stay as they are. */
  lemma {:induction false} WeightsKeep(shares: seq<nat>, i: nat, w: nat)
    requires 1 <= i <= |shares| && i <= w && Sum(shares[..i]) == w
    requires forall j :: 0 <= j < i ==> shares[j] >= 1
    ensures Weights(shares, i, w) == shares[..i]
  {
    var n := i - 1;
    assert shares[..i] == shares[..n] + [shares[n]];
    SumSnoc(shares[..n], shares[n]);
    SumAtLeastLength(shares[..n]);
    if i > 1 {
      WeightsKeep(shares, n, w - shares[n]);
    }
  }

  /** What normalised weights are for the shares: at least one and 128 in all, whatever the shares
      are; beyond that the shares as far as possible, and the shares themselves if these are weights. */
  ghost predicate WeightsFor(shares: seq<nat>, r: seq<nat>) {
    && |r| == |shares| && Normalised(r)
    && (forall j :: 0 < j < |r| ==> Deserved(shares, r, j))
    && (Normalised(shares) ==> r == shares)
  }

  lemma WeightsMean(shares: seq<nat>)
    requires 1 <= |shares| <= MAX_REGIONS
    ensures WeightsFor(shares, Weights(shares, |shares|, TOTAL))
  {
    WeightsSum(shares, |shares|, TOTAL);
    WeightsDeserved(shares, |shares|, TOTAL);
    assert shares[..|shares|] == shares;
    if Normalised(shares) { WeightsKeep(shares, |shares|, TOTAL); }
  }

  /** From the last region to the first, each gets its share as far as possible. */
  method Normalise(shares: seq<nat>, weight: array<nat>)
    requires 1 <= |shares| <= MAX_REGIONS && weight.Length == |shares|
    modifies weight
    ensures WeightsFor(shares, weight[..]) && weight[..] == Weights(shares, |shares|, TOTAL)
  {
    FillWeights(shares, weight);
    WeightsMean(shares);
  }

  method FillWeights(shares: seq<nat>, weight: array<nat>)
    requires 1 <= |shares| <= MAX_REGIONS && weight.Length == |shares|
    modifies weight
    ensures weight[..] == Weights(shares, |shares|, TOTAL)
  {
    ghost var goal := Weights(shares, |shares|, TOTAL);
    var w, i := TOTAL, |shares| - 1;
    assert goal + weight[|shares|..] == goal;
    while i > 0
      invariant 0 <= i < |shares| && i < w && Weights(shares, i + 1, w) + weight[i + 1..] == goal
    {
      var x := Clamp(shares[i], 1, w - i);
      ghost var before := weight[i + 1..];
      weight[i] := x;
      assert weight[i..] == [x] + before;
      w := w - x;
      assert Weights(shares, i, w) + ([x] + before) == (Weights(shares, i, w) + [x]) + before;
      i := i - 1;
    }
    ghost var before := weight[1..];
    weight[0] := w;
    assert weight[..] == [w] + before;
  }

  // ------------------------------------------------ the distance matrix

  /** A distance with the two regions it is between, in one word; high bits of the distance are lost. */
  function Pack(d: nat, i: nat, j: nat): uint32 { (d * 0x100 + i + j * 16) % 0x1_0000_0000 }

  function Row(e: uint32): nat { e % 16 }

  function Col(e: uint32): nat { e / 16 % 16 }

  function Cost(e: uint32): nat { e / 0x100 }

  lemma PackKeeps(d: nat, i: nat, j: nat)
    requires i < 16 && j < 16
    ensures Row(Pack(d, i, j)) == i && Col(Pack(d, i, j)) == j && Cost(Pack(d, i, j)) == d % 0x100_0000
  {
    var word := d * 0x100 + i + j * 16;
    var q, e := word / 0x1_0000_0000, Pack(d, i, j);
    var h := d - q * 0x100_0000;
    assert e == word - q * 0x1_0000_0000 == h * 0x100 + i + j * 16;
    Digits(e, h * 16 + j, i);
    Digits(h * 16 + j, h, j);
    assert 0 <= h < 0x100_0000;
    assert e / 0x100 == h && d % 0x100_0000 == h;
  }

  lemma Digits(x: int, high: int, low: int)
    requires x == high * 16 + low && 0 <= low < 16
    ensures x % 16 == low && x / 16 == high
  {
  }

  ghost predicate Covered(entries: seq<uint32>, i: nat, j: nat) {
    exists k :: 0 <= k < |entries| && Row(entries[k]) == i && Col(entries[k]) == j
  }

  /** Every pair of regions has an entry, and there are no others. */
  ghost predicate Complete(entries: seq<uint32>, rows: nat, cols: nat) {
    && (forall k :: 0 <= k < |entries| ==> Row(entries[k]) < rows && Col(entries[k]) < cols)
    && (forall i: nat, j: nat :: i < rows && j < cols ==> Covered(entries, i, j))
  }

  lemma CoveredMore(entries: seq<uint32>, e: uint32)
    ensures Covered(entries + [e], Row(e), Col(e))
    ensures forall i: nat, j: nat :: Covered(entries, i, j) ==> Covered(entries + [e], i, j)
  {
    var after := entries + [e];
    assert after[|entries|] == e;
    forall i: nat, j: nat | Covered(entries, i, j) ensures Covered(after, i, j) {
      var k :| 0 <= k < |entries| && Row(entries[k]) == i && Col(entries[k]) == j;
      assert after[k] == entries[k];
    }
  }

  /** Every entry carries the distance between its own two regions. */
  ghost predicate Priced(entries: seq<uint32>, distance: (nat, nat) -> nat) {
    forall e :: e in entries ==> e == Pack(distance(Row(e), Col(e)), Row(e), Col(e))
  }

  /** All entries of the matrix, for any distances. */
  method FillMatrix(rows: nat, cols: nat, distance: (nat, nat) -> nat) returns (entries: seq<uint32>)
    requires rows <= MAX_REGIONS && cols <= MAX_REGIONS
    ensures |entries| == rows * cols && Complete(entries, rows, cols) && Priced(entries, distance)
  {
    entries := [];
    for j := 0 to cols
      invariant |entries| == rows * j && Complete(entries, rows, j) && Priced(entries, distance)
    {
      entries := FillRow(entries, rows, j, distance);
      assert rows * (j + 1) == rows * j + rows;
    }
  }

  method FillRow(entries: seq<uint32>, rows: nat, j: nat, distance: (nat, nat) -> nat) returns (r: seq<uint32>)
    requires rows <= MAX_REGIONS && j < MAX_REGIONS && Complete(entries, rows, j) && Priced(entries, distance)
    ensures |r| == |entries| + rows && Complete(r, rows, j + 1) && Priced(r, distance)
  {
    r := entries;
    for i := 0 to rows
      invariant |r| == |entries| + i && Priced(r, distance)
      invariant forall k :: 0 <= k < |r| ==> Row(r[k]) < rows && Col(r[k]) <= j
      invariant forall i': nat, j': nat :: i' < rows && j' < j ==> Covered(r, i', j')
      invariant forall i': nat :: i' < i ==> Covered(r, i', j)
    {
      var e := Pack(distance(i, j), i, j);
      PackKeeps(distance(i, j), i, j);
      CoveredMore(r, e);
      r := r + [e];
    }
  }

  /** Sorting does not change which pairs have an entry. */
  lemma SortedComplete(entries: seq<uint32>, sorted: seq<uint32>, rows: nat, cols: nat)
    requires multiset(entries) == multiset(sorted) && Complete(entries, rows, cols)
    ensures |sorted| == |entries| && Complete(sorted, rows, cols)
  {
    assert |multiset(entries)| == |entries| && |multiset(sorted)| == |sorted|;
    forall k | 0 <= k < |sorted| ensures Row(sorted[k]) < rows && Col(sorted[k]) < cols {
      assert sorted[k] in multiset(sorted);
      assert sorted[k] in entries;
    }
    forall i: nat, j: nat | i < rows && j < cols ensures Covered(sorted, i, j) {
      assert Covered(entries, i, j);
      var k :| 0 <= k < |entries| && Row(entries[k]) == i && Col(entries[k]) == j;
      assert entries[k] in multiset(entries);
      assert entries[k] in sorted;
    }
  }

  lemma SortedPriced(entries: seq<uint32>, sorted: seq<uint32>, distance: (nat, nat) -> nat)
    requires multiset(entries) == multiset(sorted) && Priced(entries, distance)
    ensures Priced(sorted, distance)
  {
    forall e | e in sorted ensures e in entries {
      assert e in multiset(sorted);
    }
  }

  // ------------------------------------------------ the greedy flow

  /** An amount moved from region `i` of one signature to region `j` of the other. */
  datatype Move = Move(i: nat, j: nat, amount: nat)

  function Out(flow: seq<Move>, i: nat): nat {
    if flow == [] then 0
    else Out(flow[..|flow| - 1], i) + if flow[|flow| - 1].i == i then flow[|flow| - 1].amount else 0
  }

  function In(flow: seq<Move>, j: nat): nat {
    if flow == [] then 0
    else In(flow[..|flow| - 1], j) + if flow[|flow| - 1].j == j then flow[|flow| - 1].amount else 0
  }

  lemma FlowSnoc(flow: seq<Move>, m: Move)
    ensures forall i: nat :: Out(flow + [m], i) == Out(flow, i) + if m.i == i then m.amount else 0
    ensures forall j: nat :: In(flow + [m], j) == In(flow, j) + if m.j == j then m.amount else 0
  {
    assert (flow + [m])[..|flow|] == flow;
  }

  ghost predicate OutBalanced(p0: seq<nat>, p: seq<nat>, flow: seq<Move>) {
    |p| == |p0| && forall i :: 0 <= i < |p| ==> p[i] + Out(flow, i) == p0[i]
  }

  ghost predicate InBalanced(q0: seq<nat>, q: seq<nat>, flow: seq<Move>) {
    |q| == |q0| && forall j :: 0 <= j < |q| ==> q[j] + In(flow, j) == q0[j]
  }

  /** What is left to move at both ends, after the moves made so far. */
  ghost predicate Balanced(p0: seq<nat>, q0: seq<nat>, p: seq<nat>, q: seq<nat>, flow: seq<Move>) {
    OutBalanced(p0, p, flow) && InBalanced(q0, q, flow) && Sum(p) == Sum(q)
  }

  lemma OutMove(p0: seq<nat>, p: seq<nat>, flow: seq<Move>, m: Move)
    requires OutBalanced(p0, p, flow) && m.i < |p| && m.amount <= p[m.i]
    ensures OutBalanced(p0, p[m.i := p[m.i] - m.amount], flow + [m])
    ensures Sum(p[m.i := p[m.i] - m.amount]) == Sum(p) - m.amount && m.amount <= Sum(p)
  {
    SumUpdate(p, m.i, p[m.i] - m.amount);
    SumAtLeast(p, m.i);
    FlowSnoc(flow, m);
  }

  lemma InMove(q0: seq<nat>, q: seq<nat>, flow: seq<Move>, m: Move)
    requires InBalanced(q0, q, flow) && m.j < |q| && m.amount <= q[m.j]
    ensures InBalanced(q0, q[m.j := q[m.j] - m.amount], flow + [m])
    ensures Sum(q[m.j := q[m.j] - m.amount]) == Sum(q) - m.amount
  {
    SumUpdate(q, m.j, q[m.j] - m.amount);
    FlowSnoc(flow, m);
  }

  /** Entries already seen leave one of their two ends empty. */
  ghost predicate Exhausted(dist: seq<uint32>, k: nat, p: seq<nat>, q: seq<nat>)
    requires k <= |dist| && Complete(dist, |p|, |q|)
  {
    forall m :: 0 <= m < k ==> p[Row(dist[m])] == 0 || q[Col(dist[m])] == 0
  }

  /** While there is something to move there are entries left. */
  lemma NotDone(dist: seq<uint32>, k: nat, p: seq<nat>, q: seq<nat>)
    requires k <= |dist| && Complete(dist, |p|, |q|) && Exhausted(dist, k, p, q) && Sum(p) == Sum(q) > 0
    ensures k < |dist|
  {
    var i := SumPositive(p);
    var j := SumPositive(q);
    assert Covered(dist, i, j);
    var m :| 0 <= m < |dist| && Row(dist[m]) == i && Col(dist[m]) == j;
  }

  lemma MoveKeeps(p0: seq<nat>, q0: seq<nat>, p: seq<nat>, q: seq<nat>, flow: seq<Move>, m: Move)
    requires Balanced(p0, q0, p, q, flow) && m.i < |p| && m.j < |q| && m.amount == Min(p[m.i], q[m.j])
    ensures Balanced(p0, q0, p[m.i := p[m.i] - m.amount], q[m.j := q[m.j] - m.amount], flow + [m])
    ensures Sum(p[m.i := p[m.i] - m.amount]) == Sum(p) - m.amount && m.amount <= Sum(p)
  {
    OutMove(p0, p, flow, m);
    InMove(q0, q, flow, m);
  }

  function AddCost(sum: uint32, amount: nat, e: uint32): uint32 { (sum + amount * Cost(e)) % 0x1_0000_0000 }

  /** The cost of the moves made along the first entries, with 32-bit arithmetic. */
  function TotalCost(dist: seq<uint32>, flow: seq<Move>): uint32
    requires |flow| <= |dist|
  {
    if flow == [] then 0
    else
      var n := |flow| - 1;
      AddCost(TotalCost(dist, flow[..n]), flow[n].amount, dist[n])
  }

  /** All that was moved. */
  function Amount(flow: seq<Move>): nat {
    if flow == [] then 0 else Amount(flow[..|flow| - 1]) + flow[|flow| - 1].amount
  }

  /** The cost of the moves, as a sum of products without any bound. */
  function ExactCost(dist: seq<uint32>, flow: seq<Move>): nat
    requires |flow| <= |dist|
  {
    if flow == [] then 0
    else
      var n := |flow| - 1;
      ExactCost(dist, flow[..n]) + flow[n].amount * Cost(dist[n])
  }

  lemma AmountSnoc(flow: seq<Move>, m: Move)
    ensures Amount(flow + [m]) == Amount(flow) + m.amount
  {
    assert (flow + [m])[..|flow|] == flow;
  }

  lemma ProductBound(amount: nat, x: nat)
    requires x <= 0xff_ffff
    ensures 0 <= amount * x <= amount * 0xff_ffff
  {
  }

  /** As long as no more is moved than there is, 32 bits are enough. */
  lemma {:induction false} CostFits(dist: seq<uint32>, flow: seq<Move>)
    requires |flow| <= |dist| && Amount(flow) <= TOTAL
    ensures TotalCost(dist, flow) == ExactCost(dist, flow) <= Amount(flow) * 0xff_ffff
  {
    if flow != [] {
      var n := |flow| - 1;
      CostFits(dist, flow[..n]);
      ProductBound(flow[n].amount, Cost(dist[n]));
      assert Amount(flow) * 0xff_ffff == Amount(flow[..n]) * 0xff_ffff + flow[n].amount * 0xff_ffff;
    }
  }

  lemma TotalCostSnoc(dist: seq<uint32>, flow: seq<Move>, m: Move)
    requires |flow| < |dist|
    ensures TotalCost(dist, flow + [m]) == AddCost(TotalCost(dist, flow), m.amount, dist[|flow|])
  {
    assert (flow + [m])[..|flow|] == flow;
  }

  /** One move for each of the first entries, between its two regions. */
  ghost predicate Along(dist: seq<uint32>, flow: seq<Move>) {
    |flow| <= |dist| && forall k :: 0 <= k < |flow| ==> flow[k].i == Row(dist[k]) && flow[k].j == Col(dist[k])
  }

  /** Every move is the most that its two ends allow after the moves before it. */
  ghost predicate Greedy(p0: seq<nat>, q0: seq<nat>, flow: seq<Move>) {
    if flow == [] then true
    else
      var before, m := flow[..|flow| - 1], flow[|flow| - 1];
      && Greedy(p0, q0, before) && m.i < |p0| && m.j < |q0|
      && m.amount == Min(p0[m.i] - Out(before, m.i), q0[m.j] - In(before, m.j))
  }

  function Min(a: int, b: int): int { if a <= b then a else b }

  /** Asserting this opens `Moved`. */
  ghost predicate OpenFlow(x: int) { true }

  /** Where the loop stands after the moves made so far. */
  ghost predicate Moved(dist: seq<uint32>, p0: seq<nat>, q0: seq<nat>, p: seq<nat>, q: seq<nat>, flow: seq<Move>,
                        sum: uint32)
    requires Complete(dist, |p|, |q|)
  {
    forall x :: OpenFlow(x) ==>
      && Balanced(p0, q0, p, q, flow) && Along(dist, flow) && Exhausted(dist, |flow|, p, q)
      && Greedy(p0, q0, flow) && sum == TotalCost(dist, flow)
  }

  lemma NothingMoved(dist: seq<uint32>, p: seq<nat>, q: seq<nat>)
    requires Complete(dist, |p|, |q|) && Sum(p) == Sum(q)
    ensures Moved(dist, p, q, p, q, [], 0)
  {
  }

  lemma NextEntry(dist: seq<uint32>, p0: seq<nat>, q0: seq<nat>, p: seq<nat>, q: seq<nat>, flow: seq<Move>, sum: uint32)
    requires Complete(dist, |p|, |q|) && Moved(dist, p0, q0, p, q, flow, sum) && Sum(p) > 0
    ensures |flow| < |dist|
  {
    assert OpenFlow(0);
    NotDone(dist, |flow|, p, q);
  }

  lemma OneMoved(dist: seq<uint32>, p0: seq<nat>, q0: seq<nat>, p: seq<nat>, q: seq<nat>, flow: seq<Move>, sum: uint32,
                 m: Move)
    requires Complete(dist, |p|, |q|) && Moved(dist, p0, q0, p, q, flow, sum) && |flow| < |dist|
    requires m.i == Row(dist[|flow|]) && m.j == Col(dist[|flow|]) && m.amount == Min(p[m.i], q[m.j])
    ensures var p', q' := p[m.i := p[m.i] - m.amount], q[m.j := q[m.j] - m.amount];
            && m.amount <= Sum(p) && Sum(p') == Sum(p) - m.amount
            && Moved(dist, p0, q0, p', q', flow + [m], AddCost(sum, m.amount, dist[|flow|]))
  {
    assert OpenFlow(0);
    MoveKeeps(p0, q0, p, q, flow, m);
    ExhaustedMore(dist, |flow|, p, q, m);
    TotalCostSnoc(dist, flow, m);
    GreedyMore(p0, q0, p, q, flow, m);
    AlongMore(dist, flow, m);
  }

  lemma {:induction false} GreedySnoc(p0: seq<nat>, q0: seq<nat>, flow: seq<Move>, m: Move)
    requires Greedy(p0, q0, flow) && m.i < |p0| && m.j < |q0|
    requires m.amount == Min(p0[m.i] - Out(flow, m.i), q0[m.j] - In(flow, m.j))
    ensures Greedy(p0, q0, flow + [m])
  {
    var longer := flow + [m];
    assert longer[..|longer| - 1] == flow && longer[|longer| - 1] == m;
  }

  lemma GreedyMore(p0: seq<nat>, q0: seq<nat>, p: seq<nat>, q: seq<nat>, flow: seq<Move>, m: Move)
    requires Balanced(p0, q0, p, q, flow) && Greedy(p0, q0, flow)
    requires m.i < |p| && m.j < |q| && m.amount == Min(p[m.i], q[m.j])
    ensures Greedy(p0, q0, flow + [m])
  {
    assert p[m.i] == p0[m.i] - Out(flow, m.i) && q[m.j] == q0[m.j] - In(flow, m.j);
    GreedySnoc(p0, q0, flow, m);
  }

  lemma AlongMore(dist: seq<uint32>, flow: seq<Move>, m: Move)
    requires Along(dist, flow) && |flow| < |dist| && m.i == Row(dist[|flow|]) && m.j == Col(dist[|flow|])
    ensures Along(dist, flow + [m])
  {
  }

  lemma AllMoved(dist: seq<uint32>, p0: seq<nat>, q0: seq<nat>, p: seq<nat>, q: seq<nat>, flow: seq<Move>, sum: uint32)
    requires Complete(dist, |p|, |q|) && Moved(dist, p0, q0, p, q, flow, sum) && Sum(p) == 0
    ensures Along(dist, flow) && sum == TotalCost(dist, flow) && Greedy(p0, q0, flow) && |p| == |p0| && |q| == |q0|
    ensures forall i :: 0 <= i < |p0| ==> Out(flow, i) == p0[i]
    ensures forall j :: 0 <= j < |q0| ==> In(flow, j) == q0[j]
  {
    assert OpenFlow(0);
    forall i | 0 <= i < |p| ensures Out(flow, i) == p0[i] { SumZero(p, i); }
    forall j | 0 <= j < |q| ensures In(flow, j) == q0[j] { SumZero(q, j); }
  }

  /** Move along the entries in order until all is moved. It is, before the entries run out; every
      region then has given and taken exactly its weight. */
  method Significance(dist: seq<uint32>, p: array<nat>, q: array<nat>) returns (sum: uint32, ghost flow: seq<Move>)
    requires p != q && Complete(dist, p.Length, q.Length) && Sum(p[..]) == TOTAL == Sum(q[..])
    modifies p, q
    ensures Along(dist, flow) && Greedy(old(p[..]), old(q[..]), flow)
    ensures Amount(flow) == TOTAL && sum == ExactCost(dist, flow)
    ensures forall i :: 0 <= i < p.Length ==> Out(flow, i) == old(p[i])
    ensures forall j :: 0 <= j < q.Length ==> In(flow, j) == old(q[j])
  {
    ghost var p0, q0 := p[..], q[..];
    NothingMoved(dist, p0, q0);
    sum, flow := 0, [];
    var k, l := 0, TOTAL;
    while l > 0
      invariant k == |flow| && l == Sum(p[..]) == TOTAL - Amount(flow)
      invariant Moved(dist, p0, q0, p[..], q[..], flow, sum)
      decreases |dist| - k
    {
      ghost var pp, qq := p[..], q[..];
      NextEntry(dist, p0, q0, pp, qq, flow, sum);
      var s := MoveOne(p, q, Row(dist[k]), Col(dist[k]));
      ghost var m := Move(Row(dist[k]), Col(dist[k]), s);
      OneMoved(dist, p0, q0, pp, qq, flow, sum, m);
      AmountSnoc(flow, m);
      flow := flow + [m];
      l := l - s;
      sum := AddCost(sum, s, dist[k]);
      k := k + 1;
    }
    AllMoved(dist, p0, q0, p[..], q[..], flow, sum);
    CostFits(dist, flow);
  }

  /** Move as much as both ends allow. */
  method MoveOne(p: array<nat>, q: array<nat>, i: nat, j: nat) returns (s: nat)
    requires p != q && i < p.Length && j < q.Length
    modifies p, q
    ensures s == Min(old(p[i]), old(q[j]))
    ensures p[..] == old(p[..])[i := old(p[i]) - s] && q[..] == old(q[..])[j := old(q[j]) - s]
  {
    if p[i] <= q[j] {
      s := p[i];
      q[j] := q[j] - p[i];
      p[i] := 0;
    } else {
      s := q[j];
      p[i] := p[i] - q[j];
      q[j] := 0;
    }
  }

  lemma ExhaustedMore(dist: seq<uint32>, k: nat, p: seq<nat>, q: seq<nat>, m: Move)
    requires k < |dist| && Complete(dist, |p|, |q|) && Exhausted(dist, k, p, q)
    requires m.i == Row(dist[k]) && m.j == Col(dist[k]) && m.amount == Min(p[m.i], q[m.j])
    ensures Exhausted(dist, k + 1, p[m.i := p[m.i] - m.amount], q[m.j := q[m.j] - m.amount])
  {
  }

  // ------------------------------------------------ two signatures

  /** From the shares of the regions of two images to the cost of moving one to the other. The order
      of the entries is that of any sorting routine, as long as it only reorders. */
  method Compare(shares1: seq<nat>, shares2: seq<nat>, distance: (nat, nat) -> nat, sort: seq<uint32> -> seq<uint32>)
    returns (sum: uint32, ghost dist: seq<uint32>, ghost flow: seq<Move>)
    requires 1 <= |shares1| <= MAX_REGIONS && 1 <= |shares2| <= MAX_REGIONS
    requires forall s: seq<uint32> :: multiset(sort(s)) == multiset(s)
    ensures |flow| <= |dist| == |shares1| * |shares2|
    ensures Complete(dist, |shares1|, |shares2|) && Priced(dist, distance)
    ensures Along(dist, flow) && sum == ExactCost(dist, flow)
    ensures var w1, w2 := Weights(shares1, |shares1|, TOTAL), Weights(shares2, |shares2|, TOTAL);
            && WeightsFor(shares1, w1) && WeightsFor(shares2, w2) && Greedy(w1, w2, flow)
            && (forall i :: 0 <= i < |w1| ==> Out(flow, i) == w1[i])
            && (forall j :: 0 <= j < |w2| ==> In(flow, j) == w2[j])
  {
    var p, q := new nat[|shares1|](_ => 0), new nat[|shares2|](_ => 0);
    Normalise(shares1, p);
    ghost var w1 := p[..];
    Normalise(shares2, q);
    assert p[..] == w1;
    var entries := FillMatrix(p.Length, q.Length, distance);
    var ordered := sort(entries);
    SortedComplete(entries, ordered, p.Length, q.Length);
    SortedPriced(entries, ordered, distance);
    dist := ordered;
    sum, flow := Significance(ordered, p, q);
  }
}
