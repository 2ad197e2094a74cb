/** Insertion-ordered key lists, the key order of Python's OrderedDict, and
    the eviction choice all three clients make: the oldest keys not in the
    current request. */
module OrderedKeys {

  predicate NoDup(s: seq<string>) {
    forall i, j :: 0 <= i < j < |s| ==> s[i] != s[j]
  }

  function Elems(s: seq<string>): set<string> {
    set x | x in s
  }

  lemma {:induction false} ElemsCard(s: seq<string>)
    requires NoDup(s)
    ensures |Elems(s)| == |s|
  {
    if s != [] {
      var t := s[..|s| - 1];
      var x := s[|s| - 1];
      assert NoDup(t);
      ElemsCard(t);
      assert Elems(s) == Elems(t) + {x};
      assert x !in Elems(t);
    }
  }

  /** The elements of s that are not in xs, in order (`[p for p in s if p not in xs]`). */
  function Without(s: seq<string>, xs: set<string>): (r: seq<string>)
    ensures |r| <= |s|
    ensures forall x :: x in r <==> x in s && x !in xs
  {
    if s == [] then []
    else if s[|s| - 1] in xs then Without(s[..|s| - 1], xs)
    else Without(s[..|s| - 1], xs) + [s[|s| - 1]]
  }

  /** The elements of s that are in xs, in order, repetitions kept
      (`[p for p in s if p in xs]`). */
  function Only(s: seq<string>, xs: set<string>): (r: seq<string>)
    ensures |r| <= |s|
    ensures forall x :: x in r <==> x in s && x in xs
  {
    if s == [] then []
    else if s[|s| - 1] in xs then Only(s[..|s| - 1], xs) + [s[|s| - 1]]
    else Only(s[..|s| - 1], xs)
  }

  /** Filtering a list whose elements are all kept changes nothing. */
  lemma {:induction false} OnlyAll(s: seq<string>, xs: set<string>)
    requires forall x :: x in s ==> x in xs
    ensures Only(s, xs) == s
  {
    if s != [] {
      OnlyAll(s[..|s| - 1], xs);
      assert s[..|s| - 1] + [s[|s| - 1]] == s;
    }
  }

  /** Filtering a list none of whose elements is kept leaves nothing. */
  lemma {:induction false} OnlyNone(s: seq<string>, xs: set<string>)
    requires forall x :: x in s ==> x !in xs
    ensures Only(s, xs) == []
  {
    if s != [] {
      assert s[|s| - 1] in s;
      OnlyNone(s[..|s| - 1], xs);
    }
  }

  lemma {:induction false} WithoutNoDup(s: seq<string>, xs: set<string>)
    requires NoDup(s)
    ensures NoDup(Without(s, xs))
  {
    if s != [] {
      WithoutNoDup(s[..|s| - 1], xs);
    }
  }

  /** `del d[k]` on the key order: exactly that key goes, one entry
      fewer when it was there, and the other keys keep their order
      (`WithoutKeepsOrder`). */
  function Remove(s: seq<string>, x: string): (r: seq<string>)
    ensures forall y :: y in r <==> y in s && y != x
    ensures NoDup(s) ==> NoDup(r)
    ensures NoDup(s) && x in s ==> |r| == |s| - 1
  {
    if NoDup(s) then
      WithoutNoDup(s, {x});
      if x in s then WithoutCard(s, {x}); Without(s, {x}) else Without(s, {x})
    else Without(s, {x})
  }

  /** First occurrences only, in order. */
  function Dedup(s: seq<string>): (r: seq<string>)
    ensures NoDup(r)
    ensures forall x :: x in r <==> x in s
  {
    if s == [] then []
    else
      var d := Dedup(s[..|s| - 1]);
      if s[|s| - 1] in d then d else d + [s[|s| - 1]]
  }

  /** The keys a bounded cache evicts: the first `count` keys of `order`
      that the current request does not name
      (`[p for p in order if p not in requested][:count]`). */
  function EvictionList(order: seq<string>, requested: set<string>, count: int): (r: seq<string>)
    ensures |r| == if count <= 0 then 0 else if count < |Without(order, requested)| then count else |Without(order, requested)|
    ensures forall x :: x in r ==> x in order && x !in requested
  {
    var candidates := Without(order, requested);
    if count <= 0 then [] else if count < |candidates| then candidates[..count] else candidates
  }

  /** Index of a key in an ordered key list. */
  function IndexOf(s: seq<string>, x: string): (i: nat)
    requires x in s
    ensures i < |s| && s[i] == x
    ensures x !in s[..i]
  {
    if s[0] == x then 0
    else
      var k := IndexOf(s[1..], x);
      assert s[..k + 1] == [s[0]] + s[1..][..k];
      k + 1
  }

  lemma {:induction false} WithoutKeepsOrder(s: seq<string>, xs: set<string>, i: nat, j: nat)
    requires NoDup(s)
    requires i < j < |Without(s, xs)|
    ensures IndexOf(s, Without(s, xs)[i]) < IndexOf(s, Without(s, xs)[j])
  {
    var t := s[..|s| - 1];
    assert NoDup(t);
    var w := Without(t, xs);
    var x := s[|s| - 1];
    if x in xs {
      WithoutKeepsOrder(t, xs, i, j);
      IndexOfPrefix(s, w[i]);
      IndexOfPrefix(s, w[j]);
    } else {
      if j < |w| {
        WithoutKeepsOrder(t, xs, i, j);
        IndexOfPrefix(s, w[i]);
        IndexOfPrefix(s, w[j]);
      } else {
        assert Without(s, xs)[j] == x;
        assert Without(s, xs)[i] == w[i];
        IndexOfPrefix(s, w[i]);
        assert IndexOf(s, x) == |s| - 1;
      }
    }
  }

  lemma IndexOfPrefix(s: seq<string>, x: string)
    requires s != [] && NoDup(s) && x in s[..|s| - 1]
    ensures IndexOf(s, x) == IndexOf(s[..|s| - 1], x) < |s| - 1
  {
    var k := IndexOf(s[..|s| - 1], x);
    assert s[k] == x;
    var m := IndexOf(s, x);
    assert s[m] == x;
  }

  /** Eviction takes the oldest candidates: every evicted key was inserted
      before every candidate that stays. */
  lemma {:induction false} EvictionIsOldest(order: seq<string>, requested: set<string>, count: int, e: string, k: string)
    requires NoDup(order)
    requires e in EvictionList(order, requested, count)
    requires k in order && k !in requested && k !in EvictionList(order, requested, count)
    ensures IndexOf(order, e) < IndexOf(order, k)
  {
    var c := Without(order, requested);
    var r := EvictionList(order, requested, count);
    WithoutNoDup(order, requested);
    var i :| 0 <= i < |r| && r[i] == e;
    assert c[i] == e;
    var j :| 0 <= j < |c| && c[j] == k;
    assert j >= |r|;
    WithoutKeepsOrder(order, requested, i, j);
  }

  lemma WithoutCard(s: seq<string>, xs: set<string>)
    requires NoDup(s) && xs <= Elems(s)
    ensures |Without(s, xs)| == |s| - |xs|
  {
    WithoutNoDup(s, xs);
    ElemsCard(s);
    ElemsCard(Without(s, xs));
    assert Elems(Without(s, xs)) == Elems(s) - xs;
  }

  lemma EvictionListNoDup(order: seq<string>, requested: set<string>, count: int)
    requires NoDup(order)
    ensures NoDup(EvictionList(order, requested, count))
  {
    var c := Without(order, requested);
    WithoutNoDup(order, requested);
    if 0 < count < |c| {
      var r := c[..count];
      forall i, j | 0 <= i < j < |r| ensures r[i] != r[j] { assert r[i] == c[i] && r[j] == c[j]; }
    }
  }

  /** Eviction brings the cache back within bound: when the request itself
      fits, removing the evicted keys leaves at most `max` keys. */
  lemma {:induction false} EvictionRestoresBound(order: seq<string>, requested: seq<string>, max: int)
    requires NoDup(order)
    requires |requested| <= max
    ensures |Without(order, Elems(EvictionList(order, Elems(requested), |order| - max)))| <= max
  {
    var req := Elems(requested);
    var c := Without(order, req);
    var count := |order| - max;
    var r := EvictionList(order, req, count);
    EvictionListNoDup(order, req, count);
    if 0 < count < |c| {
      ElemsCard(r);
      assert Elems(r) <= Elems(order);
      WithoutCard(order, Elems(r));
    } else if 0 < count {
      var rest := Without(order, Elems(r));
      WithoutNoDup(order, Elems(r));
      assert Elems(rest) <= req;
      ElemsCard(rest);
      CardSeqElems(requested);
      SubsetCard(Elems(rest), req);
    } else {
      assert Elems(r) == {};
    }
  }

  /** Eviction settles in one step: evicting again, for the same request
      and bound, evicts nothing. */
  lemma EvictionSettles(order: seq<string>, requested: set<string>, max: int)
    requires NoDup(order)
    ensures var kept := Without(order, Elems(EvictionList(order, requested, |order| - max)));
      EvictionList(kept, requested, |kept| - max) == []
  {
    var kept := Without(order, Elems(EvictionList(order, requested, |order| - max)));
    EvictionSettlesLength(order, requested, |order| - max, kept);
    var again := EvictionList(kept, requested, |kept| - max);
    assert |again| == 0;
  }

  /** After one eviction, the next would evict nothing: the kept keys are
      within the bound, or none of them is unrequested. */
  lemma EvictionSettlesLength(order: seq<string>, requested: set<string>, count: int, kept: seq<string>)
    requires NoDup(order) && kept == Without(order, Elems(EvictionList(order, requested, count)))
    ensures |kept| <= |order| - count || |Without(kept, requested)| == 0
  {
    if count <= 0 {
      EvictedNone(order, requested, count);
    } else if count < |Without(order, requested)| {
      EvictedPartly(order, requested, count);
    } else {
      EvictedAll(order, requested, count);
    }
  }

  lemma EvictedNone(order: seq<string>, requested: set<string>, count: int)
    requires count <= 0
    ensures Without(order, Elems(EvictionList(order, requested, count))) == order
  {
    assert Elems(EvictionList(order, requested, count)) == {};
    WithoutNothing(order);
  }

  lemma EvictedPartly(order: seq<string>, requested: set<string>, count: int)
    requires NoDup(order) && 0 < count < |Without(order, requested)|
    ensures |Without(order, Elems(EvictionList(order, requested, count)))| == |order| - count
  {
    var r := EvictionList(order, requested, count);
    EvictionListNoDup(order, requested, count);
    ElemsCard(r);
    WithoutCard(order, Elems(r));
  }

  lemma EvictedAll(order: seq<string>, requested: set<string>, count: int)
    requires count >= |Without(order, requested)|
    ensures Without(Without(order, Elems(EvictionList(order, requested, count))), requested) == []
  {
    var r := EvictionList(order, requested, count);
    WithoutAll(Without(order, Elems(r)), requested);
  }

  lemma {:induction false} SubsetCard(a: set<string>, b: set<string>)
    requires a <= b
    ensures |a| <= |b|
    decreases |a|
  {
    if a != {} {
      var x :| x in a;
      SubsetCard(a - {x}, b - {x});
    }
  }

  lemma {:induction false} CardSeqElems(s: seq<string>)
    ensures |Elems(s)| <= |s|
  {
    if s != [] {
      var t := s[..|s| - 1];
      CardSeqElems(t);
      assert Elems(s) == Elems(t) + {s[|s| - 1]};
    }
  }

  /** Assigning a key of an ordered dictionary: a new key goes to the end,
      an existing key keeps its place. */
  function Insert(order: seq<string>, x: string): (r: seq<string>)
    ensures forall y :: y in r <==> y in order || y == x
  {
    if x in order then order else order + [x]
  }

  /** Assigning several keys in turn. */
  function InsertAll(order: seq<string>, xs: seq<string>): (r: seq<string>)
    ensures forall y :: y in r <==> y in order || y in xs
    ensures |order| <= |r| && r[..|order|] == order
  {
    if xs == [] then order
    else
      var o := InsertAll(order, xs[..|xs| - 1]);
      assert o[..|order|] == order;
      var r := Insert(o, xs[|xs| - 1]);
      assert r[..|order|] == o[..|order|];
      r
  }

  lemma InsertAllElems(order: seq<string>, xs: seq<string>)
    ensures Elems(InsertAll(order, xs)) == Elems(order) + Elems(xs)
  {
  }

  lemma {:induction false} InsertAllNoDup(order: seq<string>, xs: seq<string>)
    requires NoDup(order)
    ensures NoDup(InsertAll(order, xs))
  {
    if xs != [] {
      InsertAllNoDup(order, xs[..|xs| - 1]);
    }
  }

  /** Inserting keys already present changes nothing. */
  lemma {:induction false} InsertAllPresent(order: seq<string>, xs: seq<string>)
    requires forall x :: x in xs ==> x in order
    ensures InsertAll(order, xs) == order
  {
    if xs != [] {
      InsertAllPresent(order, xs[..|xs| - 1]);
    }
  }

  /** A non-empty list holds its last element and what comes before it. */
  lemma InSnoc(s: seq<string>)
    requires s != []
    ensures forall x :: x in s <==> x in s[..|s| - 1] || x == s[|s| - 1]
  {
    assert s == s[..|s| - 1] + [s[|s| - 1]];
  }

  lemma ElemsSnoc(s: seq<string>, x: string)
    ensures Elems(s + [x]) == Elems(s) + {x}
  {
  }

  /** The keys left after filtering. */
  lemma ElemsWithout(s: seq<string>, xs: set<string>)
    ensures Elems(Without(s, xs)) == Elems(s) - xs
  {
  }

  /** Deleting no keys from a dictionary changes nothing. */
  lemma MinusNothing<V>(m: map<string, V>)
    ensures m - {} == m
  {
  }

  /** Deleting one set of keys from a dictionary and then another deletes
      their union. */
  lemma MinusUnion<V>(m: map<string, V>, a: set<string>, b: set<string>)
    ensures (m - a) - b == m - (a + b)
  {
  }

  /** Deleting one set of keys and then another deletes their union. */
  lemma {:induction false} WithoutWithout(s: seq<string>, a: set<string>, b: set<string>)
    ensures Without(Without(s, a), b) == Without(s, a + b)
  {
    if s != [] {
      WithoutWithout(s[..|s| - 1], a, b);
      var t := Without(s[..|s| - 1], a);
      if s[|s| - 1] !in a {
        assert (t + [s[|s| - 1]])[..|t|] == t;
      }
    }
  }

  /** The length of the longest prefix of s that repeats no element: how far
      a loop deleting each element of s from a dictionary gets before it
      meets a key it already deleted. */
  function DistinctPrefix(s: seq<string>): (n: nat)
    ensures n <= |s| && NoDup(s[..n])
    ensures n < |s| ==> s[n] in s[..n]
  {
    if s == [] then 0
    else
      var t := s[..|s| - 1];
      var m := DistinctPrefix(t);
      assert t[..m] == s[..m];
      if m < |t| then
        assert t[m] == s[m];
        m
      else if s[|s| - 1] in t then
        assert s[..|t|] == t;
        |t|
      else
        assert s[..|s|] == s;
        assert NoDup(t);
        |s|
  }

  /** One more element extends the prefix only when the prefix was the
      whole sequence and the element is new. */
  lemma DistinctPrefixSnoc(s: seq<string>, x: string)
    ensures var m := DistinctPrefix(s);
      DistinctPrefix(s + [x]) == if m < |s| then m else if x in s then |s| else |s| + 1
  {
    assert (s + [x])[..|s|] == s;
  }

  lemma DistinctPrefixUnique(s: seq<string>, n: nat)
    requires n <= |s| && NoDup(s[..n])
    requires n < |s| ==> s[n] in s[..n]
    ensures DistinctPrefix(s) == n
  {
    var m := DistinctPrefix(s);
    if m < n {
      NoRepeatBefore(s, m, n);
    } else if n < m {
      NoRepeatBefore(s, n, m);
    }
  }

  /** Inside a prefix without repetitions no element occurs earlier. */
  lemma NoRepeatBefore(s: seq<string>, a: nat, b: nat)
    requires a < b <= |s| && NoDup(s[..b])
    ensures s[a] !in s[..a]
  {
    forall j | 0 <= j < a ensures s[j] != s[a] {
      assert s[..b][j] == s[j] && s[..b][a] == s[a];
    }
  }

  lemma DistinctPrefixNoDup(s: seq<string>)
    requires NoDup(s)
    ensures DistinctPrefix(s) == |s|
  {
    assert s[..|s|] == s;
    DistinctPrefixUnique(s, |s|);
  }

  /** The whole sequence is the prefix exactly when nothing repeats. */
  lemma DistinctPrefixFull(s: seq<string>)
    ensures DistinctPrefix(s) == |s| <==> NoDup(s)
  {
    if DistinctPrefix(s) == |s| {
      assert s[..|s|] == s;
    }
    if NoDup(s) {
      DistinctPrefixNoDup(s);
    }
  }

  /** Removing every element leaves nothing. */
  lemma {:induction false} WithoutAll(s: seq<string>, xs: set<string>)
    requires forall x :: x in s ==> x in xs
    ensures Without(s, xs) == []
  {
    if s != [] {
      assert s[|s| - 1] in s;
      WithoutAll(s[..|s| - 1], xs);
    }
  }

  /** Deleting no keys changes nothing. */
  lemma {:induction false} WithoutNothing(s: seq<string>)
    ensures Without(s, {}) == s
  {
    if s != [] {
      WithoutNothing(s[..|s| - 1]);
    }
  }

  /** Assigning keys in turn leaves the existing keys where they were and
      appends the new ones in the order they first occur. */
  lemma {:induction false} InsertAllAppends(order: seq<string>, xs: seq<string>)
    ensures InsertAll(order, xs) == order + Dedup(Without(xs, Elems(order)))
  {
    if xs == [] {
    } else {
      var t := xs[..|xs| - 1];
      var x := xs[|xs| - 1];
      InsertAllAppends(order, t);
      var w := Without(t, Elems(order));
      if x !in Elems(order) {
        assert Without(xs, Elems(order)) == w + [x];
        assert (w + [x])[..|w|] == w;
      }
    }
  }
}
