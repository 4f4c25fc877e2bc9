/** Generic sequence operations both stores build their reads from: listing a
    keyed table in ascending key order, keeping the records that satisfy a
    condition, and offset/limit pagination. */
module Listing {

  /** The keys of `keys` in `[lo, hi)`, in ascending order. */
  function KeysBetween(keys: set<int>, lo: int, hi: int): (ks: seq<int>)
    decreases hi - lo
    ensures forall k :: k in ks <==> k in keys && lo <= k < hi
    ensures forall i :: 0 <= i < |ks| ==> lo <= ks[i]
    ensures forall i, j :: 0 <= i < j < |ks| ==> ks[i] < ks[j]
  {
    if lo >= hi then []
    else (if lo in keys then [lo] else []) + KeysBetween(keys, lo + 1, hi)
  }

  /** The values stored under `ks`, in the order of `ks`. */
  function InOrder<T>(m: map<int, T>, ks: seq<int>): (r: seq<T>)
    requires forall i :: 0 <= i < |ks| ==> ks[i] in m
    ensures |r| == |ks|
    ensures forall i :: 0 <= i < |ks| ==> r[i] == m[ks[i]]
  {
    if ks == [] then [] else [m[ks[0]]] + InOrder(m, ks[1..])
  }

  /** Every record of a table whose keys all lie in `[1, hi)`, in ascending key order. */
  function Ascending<T>(m: map<int, T>, hi: int): seq<T>
  {
    InOrder(m, KeysBetween(m.Keys, 1, hi))
  }

  /** The ascending listing holds each stored record exactly once and nothing
      else: position `i` holds the record of the `i`-th smallest key. */
  lemma AscendingIsTable<T>(m: map<int, T>, hi: int)
    requires forall k :: k in m ==> 1 <= k < hi
    ensures |Ascending(m, hi)| == |m|
    ensures forall k :: k in m ==> m[k] in Ascending(m, hi)
    ensures forall x :: x in Ascending(m, hi) ==> exists k :: k in m && m[k] == x
  {
    var ks := KeysBetween(m.Keys, 1, hi);
    var r := Ascending(m, hi);
    forall k | k in m ensures m[k] in r {
      var i :| 0 <= i < |ks| && ks[i] == k;
      assert r[i] == m[k];
    }
    forall x | x in r ensures exists k :: k in m && m[k] == x {
      var i :| 0 <= i < |r| && r[i] == x;
      assert ks[i] in m && m[ks[i]] == x;
    }
    DistinctCard(ks, m.Keys);
  }

  /** A strictly increasing sequence that enumerates a set has the set's size. */
  lemma {:induction false} DistinctCard(ks: seq<int>, keys: set<int>)
    requires forall i, j :: 0 <= i < j < |ks| ==> ks[i] < ks[j]
    requires forall k :: k in ks <==> k in keys
    ensures |ks| == |keys|
  {
    if ks != [] {
      var rest := keys - {ks[0]};
      forall k ensures k in ks[1..] <==> k in rest {
        if k in ks[1..] {
          var i :| 1 <= i < |ks| && ks[i] == k;
          assert ks[0] < ks[i];
        }
        if k in rest {
          var i :| 0 <= i < |ks| && ks[i] == k;
          assert i != 0;
          assert ks[1..][i - 1] == k;
        }
      }
      DistinctCard(ks[1..], rest);
      assert ks[0] in keys && ks[0] !in rest;
      assert keys == rest + {ks[0]};
      assert |keys| == |rest| + 1;
    } else {
      assert forall k :: k !in keys;
      assert keys == {};
    }
  }

  /** The elements of `s` that satisfy `p`, in their original order. */
  function Filter<T(!new)>(s: seq<T>, p: T -> bool): (r: seq<T>)
    ensures |r| <= |s|
    ensures forall x :: x in r <==> x in s && p(x)
  {
    if s == [] then []
    else (if p(s[0]) then [s[0]] else []) + Filter(s[1..], p)
  }

  /** Filtering twice keeps what satisfies both conditions, in the same order. */
  lemma {:induction false} FilterTwice<T(!new)>(s: seq<T>, p: T -> bool, q: T -> bool, both: T -> bool)
    requires forall x :: both(x) == (p(x) && q(x))
    ensures Filter(Filter(s, p), q) == Filter(s, both)
  {
    if s != [] {
      FilterTwice(s[1..], p, q, both);
      var head := if p(s[0]) then [s[0]] else [];
      assert Filter(s, p) == head + Filter(s[1..], p);
      FilterAppend(head, Filter(s[1..], p), q);
    }
  }

  lemma {:induction false} FilterAppend<T(!new)>(a: seq<T>, b: seq<T>, p: T -> bool)
    ensures Filter(a + b, p) == Filter(a, p) + Filter(b, p)
  {
    if a != [] {
      assert (a + b)[0] == a[0];
      assert (a + b)[1..] == a[1..] + b;
      FilterAppend(a[1..], b, p);
      var head := if p(a[0]) then [a[0]] else [];
      calc {
        Filter(a + b, p);
        head + Filter(a[1..] + b, p);
        head + (Filter(a[1..], p) + Filter(b, p));
        (head + Filter(a[1..], p)) + Filter(b, p);
        Filter(a, p) + Filter(b, p);
      }
    } else {
      assert a + b == b;
    }
  }

  /** Conditions that agree on every element select the same sequence. */
  lemma {:induction false} FilterCongruent<T(!new)>(s: seq<T>, p: T -> bool, q: T -> bool)
    requires forall x :: x in s ==> p(x) == q(x)
    ensures Filter(s, p) == Filter(s, q)
  {
    if s != [] {
      FilterCongruent(s[1..], p, q);
    }
  }

  /** A condition that every element satisfies keeps the whole sequence. */
  lemma {:induction false} FilterKeepsAll<T(!new)>(s: seq<T>, p: T -> bool)
    requires forall x :: x in s ==> p(x)
    ensures Filter(s, p) == s
  {
    if s != [] {
      FilterKeepsAll(s[1..], p);
    }
  }

  /** A condition no element satisfies keeps nothing. */
  lemma {:induction false} FilterKeepsNone<T(!new)>(s: seq<T>, p: T -> bool)
    requires forall x :: x in s ==> !p(x)
    ensures Filter(s, p) == []
  {
    if s != [] {
      FilterKeepsNone(s[1..], p);
    }
  }

  /** Filtering keeps the relative order: a strictly increasing key stays strictly increasing. */
  lemma {:induction false} FilterKeepsOrder<T(!new)>(s: seq<T>, p: T -> bool, key: T -> int)
    requires forall i, j :: 0 <= i < j < |s| ==> key(s[i]) < key(s[j])
    ensures forall i, j :: 0 <= i < j < |Filter(s, p)| ==> key(Filter(s, p)[i]) < key(Filter(s, p)[j])
  {
    if s != [] {
      FilterKeepsOrder(s[1..], p, key);
      var r := Filter(s, p);
      var tail := Filter(s[1..], p);
      forall x | x in tail ensures key(s[0]) < key(x) {
        var j :| 0 <= j < |s[1..]| && s[1..][j] == x;
        assert s[j + 1] == x;
      }
    }
  }

  /** SQL `OFFSET offset LIMIT limit`: skip the first `offset` elements and
      return at most `limit` of the rest. */
  function Paginate<T>(s: seq<T>, offset: nat, limit: nat): (r: seq<T>)
    ensures |r| <= limit
    ensures |r| == if offset >= |s| then 0 else if |s| - offset < limit then |s| - offset else limit
    ensures forall i :: 0 <= i < |r| ==> r[i] == s[offset + i]
    ensures forall x :: x in r ==> x in s
  {
    var rest := if offset < |s| then s[offset..] else [];
    if limit < |rest| then rest[..limit] else rest
  }

  /** Consecutive pages read the sequence without gap or overlap: the page of
      `a` items at `offset` followed by the page of `b` items right after it is
      the page of `a + b` items at `offset`. */
  lemma PagesAdjoin<T>(s: seq<T>, offset: nat, a: nat, b: nat)
    ensures Paginate(s, offset, a) + Paginate(s, offset + a, b) == Paginate(s, offset, a + b)
  {
    var l, r, both := Paginate(s, offset, a), Paginate(s, offset + a, b), Paginate(s, offset, a + b);
    assert |l + r| == |both|;
    forall i | 0 <= i < |both| ensures (l + r)[i] == both[i] {
      if i >= |l| {
        assert r[i - |l|] == s[offset + a + (i - |l|)];
      }
    }
  }
}
