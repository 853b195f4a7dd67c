/** The iteration order of a `std::map` with unsigned keys: ascending. */
module MapOrder {
  import opened Ints

  predicate StrictlyIncreasing(s: seq<uint32>)
  {
    forall i, j :: 0 <= i < j < |s| ==> s[i] < s[j]
  }

  predicate IsMinimum(m: uint32, s: set<uint32>)
  {
    m in s && forall k :: k in s ==> m <= k
  }

  lemma {:induction false} MinimumExists(s: set<uint32>)
    requires s != {}
    ensures exists m :: IsMinimum(m, s)
    decreases |s|
  {
    var x :| x in s;
    if s == {x} {
      assert IsMinimum(x, s);
    } else {
      MinimumExists(s - {x});
      var m :| IsMinimum(m, s - {x});
      var least := if x < m then x else m;
      forall k | k in s
        ensures least <= k
      {
        if k != x {
          assert k in s - {x};
        }
      }
      assert IsMinimum(least, s);
    }
  }

  function SetMin(s: set<uint32>): (m: uint32)
    requires s != {}
    ensures m in s && forall k :: k in s ==> m <= k
  {
    MinimumExists(s);
    var m :| IsMinimum(m, s); m
  }

  /** The keys of a map in the order a `std::map` iterator visits them. */
  function SortedKeys(s: set<uint32>): (r: seq<uint32>)
    ensures StrictlyIncreasing(r)
    ensures forall k :: k in r <==> k in s
    ensures |r| == |s|
    decreases |s|
  {
    if s == {} then []
    else
      var m := SetMin(s);
      [m] + SortedKeys(s - {m})
  }

  /** Two strictly increasing sequences with the same elements are equal. */
  lemma {:induction false} IncreasingUnique(r1: seq<uint32>, r2: seq<uint32>)
    requires StrictlyIncreasing(r1) && StrictlyIncreasing(r2)
    requires forall k :: k in r1 <==> k in r2
    ensures r1 == r2
    decreases |r1|
  {
    if r1 != [] {
      assert r1[0] in r2;
    }
    if r2 != [] {
      assert r2[0] in r1;
    }
    if r1 != [] && r2 != [] {
      assert r1[0] == r2[0];
      forall k
        ensures k in r1[1..] <==> k in r2[1..]
      {
        if k in r1[1..] {
          assert k in r1 && k != r1[0];
          assert k in r2;
        }
        if k in r2[1..] {
          assert k in r2 && k != r2[0];
          assert k in r1;
        }
      }
      IncreasingUnique(r1[1..], r2[1..]);
      assert r1 == [r1[0]] + r1[1..];
      assert r2 == [r2[0]] + r2[1..];
    }
  }

  /** The key order is the only strictly increasing listing of the keys. */
  lemma SortedKeysUnique(s: set<uint32>, r: seq<uint32>)
    requires StrictlyIncreasing(r)
    requires forall k :: k in r <==> k in s
    ensures r == SortedKeys(s)
  {
    IncreasingUnique(r, SortedKeys(s));
  }

  /** Iterating a `std::map`: its keys, in ascending order. */
  method KeysInOrder(s: set<uint32>) returns (keys: seq<uint32>)
    ensures StrictlyIncreasing(keys)
    ensures forall k :: k in keys <==> k in s
    ensures |keys| == |s|
  {
    keys := SortedKeys(s);
  }
}
