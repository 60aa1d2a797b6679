/** The classification index of MPI.cpp: a sequence of (category, particle)
    pairs (std::vector<std::pair<int, int>>), the std::sort that orders it by
    category, the reordering of a per-particle array along it, and the block
    structure a sorted index has. */
module ParticleIndex {

  /** std::pair<int, int>: first is the category, second the particle. */
  datatype Entry = Entry(key: int, particle: nat)

  /** Ordered by category, as sortFunction (one.first < two.first) orders. */
  predicate SortedByKey(s: seq<Entry>)
  {
    forall i, j :: 0 <= i < j < |s| ==> s[i].key <= s[j].key
  }

  /** Inserts e into a sorted index. */
  function Insert(s: seq<Entry>, e: Entry): (r: seq<Entry>)
    requires SortedByKey(s)
    ensures SortedByKey(r)
    ensures multiset(r) == multiset(s) + multiset{e}
    ensures forall x :: x in r ==> x in s || x == e
  {
    if s == [] then [e]
    else if e.key <= s[0].key then [e] + s
    else
      var rest := Insert(s[1..], e);
      HeadIsLeast(s);
      ConsSorted(s[0], rest);
      assert s == [s[0]] + s[1..];
      [s[0]] + rest
  }

  /** The head of a sorted index has the least category. */
  lemma HeadIsLeast(s: seq<Entry>)
    requires SortedByKey(s) && |s| > 0
    ensures forall x :: x in s[1..] ==> s[0].key <= x.key
  {
    forall x | x in s[1..] ensures s[0].key <= x.key {
      var i :| 0 <= i < |s[1..]| && s[1..][i] == x;
      assert s[i + 1] == x;
    }
  }

  /** An entry no greater than a sorted index can go in front of it. */
  lemma ConsSorted(h: Entry, rest: seq<Entry>)
    requires SortedByKey(rest) && forall x :: x in rest ==> h.key <= x.key
    ensures SortedByKey([h] + rest)
  {
    var r := [h] + rest;
    forall i, j | 0 <= i < j < |r| ensures r[i].key <= r[j].key {
      assert r[j] == rest[j - 1];
      if i > 0 { assert r[i] == rest[i - 1]; }
    }
  }

  /** The std::sort(index.begin(), index.end(), sortFunction) of
      sortParticles. std::sort is not stable: all it promises is a
      permutation of its input that is ordered by category, and that is all
      this contract states. */
  function SortByKey(s: seq<Entry>): (r: seq<Entry>)
    ensures SortedByKey(r)
    ensures multiset(r) == multiset(s)
    ensures |r| == |s|
  {
    if s == [] then []
    else
      assert s == [s[0]] + s[1..];
      Insert(SortByKey(s[1..]), s[0])
  }

  /** Taking out the entry at j takes one copy of it out of the multiset. */
  lemma RemoveAt<T>(t: seq<T>, j: nat)
    requires j < |t|
    ensures t == t[..j] + [t[j]] + t[j + 1..]
    ensures multiset(t[..j] + t[j + 1..]) == multiset(t) - multiset{t[j]}
  {
    assert t == t[..j] + [t[j]] + t[j + 1..];
  }

  /** The number of entries whose category is k (the nMigrate / nOverlap /
      nbPartNode counters count these). */
  function CountKey(s: seq<Entry>, k: int): nat
  {
    if s == [] then 0 else (if s[0].key == k then 1 else 0) + CountKey(s[1..], k)
  }

  /** The number of entries whose category is below k. */
  function CountBelow(s: seq<Entry>, k: int): nat
  {
    if s == [] then 0 else (if s[0].key < k then 1 else 0) + CountBelow(s[1..], k)
  }

  lemma {:induction false} CountAppend(a: seq<Entry>, b: seq<Entry>, k: int)
    ensures CountKey(a + b, k) == CountKey(a, k) + CountKey(b, k)
    ensures CountBelow(a + b, k) == CountBelow(a, k) + CountBelow(b, k)
  {
    if a != [] {
      assert (a + b)[1..] == a[1..] + b;
      CountAppend(a[1..], b, k);
    } else {
      assert a + b == b;
    }
  }

  /** The counts depend only on the multiset of entries, so the sort does
      not change them. */
  lemma {:induction false} CountPermutation(s: seq<Entry>, t: seq<Entry>, k: int)
    requires multiset(s) == multiset(t)
    ensures CountKey(s, k) == CountKey(t, k)
    ensures CountBelow(s, k) == CountBelow(t, k)
    decreases |s|
  {
    if s == [] {
      assert |t| == |multiset(t)| == 0;
    } else {
      var j := FindIn(t, s[0]);
      var t' := t[..j] + t[j + 1..];
      TailMultiset(s, t, j);
      CountPermutation(s[1..], t', k);
      CountRemoveAt(t, j, k);
    }
  }

  /** Some position of t holds x. */
  lemma FindIn<T>(t: seq<T>, x: T) returns (j: nat)
    requires x in multiset(t)
    ensures j < |t| && t[j] == x
  {
    assert x in t;
    j :| 0 <= j < |t| && t[j] == x;
  }

  /** If s and t have the same multiset and t[j] is s[0], the rest of s has
      the multiset of t without position j. */
  lemma TailMultiset<T>(s: seq<T>, t: seq<T>, j: nat)
    requires s != [] && j < |t| && t[j] == s[0] && multiset(s) == multiset(t)
    ensures multiset(s[1..]) == multiset(t[..j] + t[j + 1..])
  {
    RemoveAt(t, j);
    assert s == [s[0]] + s[1..];
    assert multiset(s) == multiset{s[0]} + multiset(s[1..]);
  }

  lemma CountRemoveAt(t: seq<Entry>, j: nat, k: int)
    requires j < |t|
    ensures CountKey(t, k) == CountKey(t[..j] + t[j + 1..], k) + (if t[j].key == k then 1 else 0)
    ensures CountBelow(t, k) == CountBelow(t[..j] + t[j + 1..], k) + (if t[j].key < k then 1 else 0)
  {
    assert t == t[..j] + ([t[j]] + t[j + 1..]);
    CountAppend(t[..j], [t[j]] + t[j + 1..], k);
    CountAppend([t[j]], t[j + 1..], k);
    CountAppend(t[..j], t[j + 1..], k);
  }

  lemma {:induction false} CountBelowNext(s: seq<Entry>, k: int)
    ensures CountBelow(s, k + 1) == CountBelow(s, k) + CountKey(s, k)
  {
    if s != [] {
      CountBelowNext(s[1..], k);
    }
  }

  lemma {:induction false} CountBelowAll(s: seq<Entry>, k: int)
    requires forall i :: 0 <= i < |s| ==> s[i].key < k
    ensures CountBelow(s, k) == |s|
  {
    if s != [] {
      CountBelowAll(s[1..], k);
    }
  }

  lemma {:induction false} CountBelowNone(s: seq<Entry>, k: int)
    requires forall i :: 0 <= i < |s| ==> s[i].key >= k
    ensures CountBelow(s, k) == 0
  {
    if s != [] {
      CountBelowNone(s[1..], k);
    }
  }

  /** In an index sorted by category, the entries below k are exactly the
      first CountBelow(s, k) entries. */
  lemma {:induction false} SortedPrefixBelow(s: seq<Entry>, k: int)
    requires SortedByKey(s)
    ensures CountBelow(s, k) <= |s|
    ensures forall i :: 0 <= i < |s| ==> (s[i].key < k <==> i < CountBelow(s, k))
  {
    if s != [] {
      var t := s[1..];
      assert SortedByKey(t);
      SortedPrefixBelow(t, k);
      if s[0].key >= k {
        assert forall i :: 0 <= i < |t| ==> t[i].key >= k by {
          forall i | 0 <= i < |t| ensures t[i].key >= k {
            assert s[0].key <= s[i + 1].key;
          }
        }
        CountBelowNone(t, k);
      }
      forall i | 0 <= i < |s|
        ensures s[i].key < k <==> i < CountBelow(s, k)
      {
        if i > 0 {
          assert s[i] == t[i - 1];
        }
      }
    }
  }

  /** In an index sorted by category, the entries of category k form one
      contiguous block, starting after every entry of a lower category. */
  lemma KeyBlock(s: seq<Entry>, k: int)
    requires SortedByKey(s)
    ensures CountBelow(s, k) + CountKey(s, k) <= |s|
    ensures forall i :: 0 <= i < |s| ==>
              (s[i].key == k <==> CountBelow(s, k) <= i < CountBelow(s, k) + CountKey(s, k))
  {
    SortedPrefixBelow(s, k);
    SortedPrefixBelow(s, k + 1);
    CountBelowNext(s, k);
  }

  /** With three categories 0 < 1 < 2 (the order of both the overlap and the
      migrate enums), a sorted index is the 0-block, then the 1-block, then
      the 2-block, and the 2-block is the last CountKey(s, 2) entries. */
  lemma ThreeBlocks(s: seq<Entry>)
    requires SortedByKey(s)
    requires forall i :: 0 <= i < |s| ==> 0 <= s[i].key < 3
    ensures CountKey(s, 0) + CountKey(s, 1) + CountKey(s, 2) == |s|
    ensures forall i :: 0 <= i < |s| ==> (s[i].key == 0 <==> i < CountKey(s, 0))
    ensures forall i :: 0 <= i < |s| ==>
              (s[i].key == 1 <==> CountKey(s, 0) <= i < CountKey(s, 0) + CountKey(s, 1))
    ensures forall i :: 0 <= i < |s| ==> (s[i].key == 2 <==> |s| - CountKey(s, 2) <= i)
  {
    CountBelowNone(s, 0);
    CountBelowNext(s, 0);
    CountBelowNext(s, 1);
    CountBelowNext(s, 2);
    CountBelowAll(s, 3);
    KeyBlock(s, 0);
    KeyBlock(s, 1);
    KeyBlock(s, 2);
  }

  /** With categories 0, 1 and 2 only, the three counters add up to the
      number of entries. */
  lemma ThreeCounts(s: seq<Entry>)
    requires forall i :: 0 <= i < |s| ==> 0 <= s[i].key < 3
    ensures CountKey(s, 0) + CountKey(s, 1) + CountKey(s, 2) == |s|
  {
    CountBelowNone(s, 0);
    CountBelowNext(s, 0);
    CountBelowNext(s, 1);
    CountBelowNext(s, 2);
    CountBelowAll(s, 3);
  }

  /** The particle column of an index. */
  function Particles(s: seq<Entry>): (ps: seq<nat>)
    ensures |ps| == |s| && forall i :: 0 <= i < |s| ==> ps[i] == s[i].particle
  {
    seq(|s|, i requires 0 <= i < |s| => s[i].particle)
  }

  /** 0, 1, ..., n - 1. */
  function Range(n: nat): (r: seq<nat>)
    ensures |r| == n && forall i :: 0 <= i < n ==> r[i] == i
  {
    seq(n, i requires 0 <= i < n => i)
  }

  /** The loop `tmp[i] = a[index[i].second]` for i < n. */
  ghost function Gather<T>(a: seq<T>, index: seq<Entry>, n: nat): (r: seq<T>)
    requires n <= |index| && forall i :: 0 <= i < n ==> index[i].particle < |a|
    ensures |r| == n && forall i :: 0 <= i < n ==> r[i] == a[index[i].particle]
  {
    seq(n, i requires 0 <= i < n => a[index[i].particle])
  }

  /** a[ps[0]], a[ps[1]], ... */
  ghost function Pick<T>(a: seq<T>, ps: seq<nat>): (r: seq<T>)
    requires forall i :: 0 <= i < |ps| ==> ps[i] < |a|
    ensures |r| == |ps|
  {
    seq(|ps|, i requires 0 <= i < |ps| => a[ps[i]])
  }

  /** Picking along two index lists with the same multiset gives the same
      multiset of values. */
  lemma {:induction false} PickPermutation<T>(a: seq<T>, ps: seq<nat>, qs: seq<nat>)
    requires forall i :: 0 <= i < |ps| ==> ps[i] < |a|
    requires multiset(ps) == multiset(qs)
    ensures forall i :: 0 <= i < |qs| ==> qs[i] < |a|
    ensures multiset(Pick(a, ps)) == multiset(Pick(a, qs))
    decreases |ps|
  {
    forall i | 0 <= i < |qs| ensures qs[i] < |a| {
      assert qs[i] in multiset(ps);
    }
    if ps == [] {
      assert |qs| == |multiset(qs)| == 0;
    } else {
      var j := FindIn(qs, ps[0]);
      TailMultiset(ps, qs, j);
      PickPermutation(a, ps[1..], qs[..j] + qs[j + 1..]);
      PickRemoveAt(a, qs, j);
      assert Pick(a, ps) == [a[ps[0]]] + Pick(a, ps[1..]);
    }
  }

  lemma PickRemoveAt<T>(a: seq<T>, qs: seq<nat>, j: nat)
    requires j < |qs| && forall i :: 0 <= i < |qs| ==> qs[i] < |a|
    ensures multiset(Pick(a, qs)) == multiset(Pick(a, qs[..j] + qs[j + 1..])) + multiset{a[qs[j]]}
  {
    assert Pick(a, qs) == Pick(a, qs[..j]) + [a[qs[j]]] + Pick(a, qs[j + 1..]);
    assert Pick(a, qs[..j] + qs[j + 1..]) == Pick(a, qs[..j]) + Pick(a, qs[j + 1..]);
  }

  /** An index holds every particle 0 .. n-1 exactly once. */
  predicate CoversOnce(s: seq<Entry>, n: nat)
  {
    multiset(Particles(s)) == multiset(Range(n))
  }

  /** Reordering n values along an index that holds each particle once is a
      permutation of the values: nothing is lost or duplicated. */
  lemma GatherIsPermutation<T>(a: seq<T>, index: seq<Entry>)
    requires |index| == |a| && CoversOnce(index, |a|)
    ensures forall i :: 0 <= i < |index| ==> index[i].particle < |a|
    ensures multiset(Gather(a, index, |a|)) == multiset(a)
  {
    var ps := Particles(index);
    var r := Range(|a|);
    PickPermutation(a, r, ps);
    assert Pick(a, r) == a;
    assert Gather(a, index, |a|) == Pick(a, ps);
  }

  /** Sorting keeps the particle column's multiset, so an index holding each
      particle once still does after the sort. */
  lemma SortKeepsCover(s: seq<Entry>, t: seq<Entry>, n: nat)
    requires multiset(s) == multiset(t) && CoversOnce(s, n)
    ensures CoversOnce(t, n)
  {
    ParticlesPermutation(s, t);
  }

  lemma {:induction false} ParticlesPermutation(s: seq<Entry>, t: seq<Entry>)
    requires multiset(s) == multiset(t)
    ensures multiset(Particles(s)) == multiset(Particles(t))
    decreases |s|
  {
    if s == [] {
      assert |t| == |multiset(t)| == 0;
    } else {
      var j := FindIn(t, s[0]);
      TailMultiset(s, t, j);
      ParticlesPermutation(s[1..], t[..j] + t[j + 1..]);
      assert Particles(s) == [s[0].particle] + Particles(s[1..]);
      assert Particles(t) == Particles(t[..j]) + [s[0].particle] + Particles(t[j + 1..]);
      assert Particles(t[..j] + t[j + 1..]) == Particles(t[..j]) + Particles(t[j + 1..]);
    }
  }
}
