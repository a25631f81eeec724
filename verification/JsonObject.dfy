/** Objects under construction: a growing array of pairs, searched from the start. */
module JsonObject {
  import opened JsonStrings
  import opened JsonSpec

  datatype Found = Missing | Found(value: Value)

  function Lookup(pairs: seq<Pair>, key: Str): (r: Found)
    ensures r.Missing? <==> !HasKey(pairs, key)
  {
    if pairs == [] then Missing
    else if pairs[|pairs| - 1].key == key then Found(pairs[|pairs| - 1].value)
    else
      assert HasKey(pairs, key) <==> HasKey(pairs[..|pairs| - 1], key);
      Lookup(pairs[..|pairs| - 1], key)
  }

  lemma {:induction false} LookupAt(pairs: seq<Pair>, i: nat)
    requires Distinct(pairs) && i < |pairs|
    ensures Lookup(pairs, pairs[i].key) == Found(pairs[i].value)
  {
    var n := |pairs| - 1;
    if i < n { LookupAt(pairs[..n], i); }
  }

  /** The value of a key does not depend on the order of the pairs. */
  lemma LookupIs(pairs: seq<Pair>, key: Str, r: Found)
    requires Distinct(pairs)
    requires r.Missing? ==> !HasKey(pairs, key)
    requires r.Found? ==> Pair(key, r.value) in pairs
    ensures Lookup(pairs, key) == r
  {
    if r.Found? {
      var i :| 0 <= i < |pairs| && pairs[i] == Pair(key, r.value);
      LookupAt(pairs, i);
    }
  }

  class Members {
    var pairs: seq<Pair>

    constructor ()
      ensures pairs == []
    {
      pairs := [];
    }

    method Get(key: Str) returns (r: Found)
      requires Distinct(pairs)
      ensures r == Lookup(pairs, key)
    {
      for i := 0 to |pairs|
        invariant forall j :: 0 <= j < i ==> pairs[j].key != key
      {
        if pairs[i].key == key {
          LookupAt(pairs, i);
          return Found(pairs[i].value);
        }
      }
      return Missing;
    }
 
    /** Set the value of a key, or remove it. The last pair takes the place of a removed one. */
    method Set(key: Str, value: Found)
      requires Distinct(pairs)
      modifies this
      ensures Distinct(pairs) && forall k :: Lookup(pairs, k) == if k == key then value else Lookup(old(pairs), k)
      ensures !HasKey(old(pairs), key) && value.Found? ==> pairs == old(pairs) + [Pair(key, value.value)]
    {
      for i := 0 to |pairs|
        invariant pairs == old(pairs) && forall j :: 0 <= j < i ==> pairs[j].key != key
      {
        if pairs[i].key == key {
          if value.Found? {
            Replaced(pairs, i, value.value);
            pairs := pairs[i := Pair(key, value.value)];
          } else {
            Dropped(pairs, i);
            pairs := pairs[i := pairs[|pairs| - 1]][..|pairs| - 1];
          }
          return;
        }
      }
      if value.Found? {
        Added(pairs, Pair(key, value.value));
        pairs := pairs + [Pair(key, value.value)];
      }
    }
  }

  lemma Replaced(pairs: seq<Pair>, i: nat, v: Value)
    requires Distinct(pairs) && i < |pairs|
    ensures var r := pairs[i := Pair(pairs[i].key, v)];
            Distinct(r) && forall k :: Lookup(r, k) == if k == pairs[i].key then Found(v) else Lookup(pairs, k)
  {
    var r := pairs[i := Pair(pairs[i].key, v)];
    forall k ensures Lookup(r, k) == if k == pairs[i].key then Found(v) else Lookup(pairs, k) {
      if k == pairs[i].key {
        LookupAt(r, i);
      } else {
        assert forall j :: 0 <= j < |pairs| && j != i ==> r[j] == pairs[j];
        SameLookup(pairs, r, k);
      }
    }
  }

  lemma Dropped(pairs: seq<Pair>, i: nat)
    requires Distinct(pairs) && i < |pairs|
    ensures var r := pairs[i := pairs[|pairs| - 1]][..|pairs| - 1];
            Distinct(r) && forall k :: Lookup(r, k) == if k == pairs[i].key then Missing else Lookup(pairs, k)
  {
    var n := |pairs| - 1;
    var r := pairs[i := pairs[n]][..n];
    forall k ensures Lookup(r, k) == if k == pairs[i].key then Missing else Lookup(pairs, k) {
      if k == pairs[i].key {
        LookupIs(r, k, Missing);
      } else {
        forall j | 0 <= j < |pairs| && pairs[j].key == k ensures pairs[j] in r {
          assert r[if j == n then i else j] == pairs[j];
        }
        SameLookup(pairs, r, k);
      }
    }
  }

  lemma Added(pairs: seq<Pair>, p: Pair)
    requires Distinct(pairs) && !HasKey(pairs, p.key)
    ensures Distinct(pairs + [p]) &&
            forall k :: Lookup(pairs + [p], k) == if k == p.key then Found(p.value) else Lookup(pairs, k)
  {
    assert (pairs + [p])[..|pairs|] == pairs;
  }

  /** Lists that have the same pairs for a key give it the same value. */
  lemma SameLookup(pairs: seq<Pair>, r: seq<Pair>, k: Str)
    requires Distinct(pairs) && Distinct(r)
    requires forall j :: 0 <= j < |pairs| && pairs[j].key == k ==> pairs[j] in r
    requires forall j :: 0 <= j < |r| && r[j].key == k ==> r[j] in pairs
    ensures Lookup(r, k) == Lookup(pairs, k)
  {
    if HasKey(pairs, k) {
      var j :| 0 <= j < |pairs| && pairs[j].key == k;
      LookupAt(pairs, j);
      LookupIs(r, k, Found(pairs[j].value));
    } else {
      assert !HasKey(r, k);
    }
  }
}
