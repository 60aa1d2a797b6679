/** The domain decomposition of CPP_Physics/MPI.cpp (scatterField and
    gatherField, local steps): splitting the x-boxes among processes, the
    x-extent each process is given, assigning every particle to the process
    whose slab holds it, the per-process counts and offsets that drive
    MPI_Scatterv / MPI_Gatherv, and where each process's particles land. */
module MpiDecomposition {
  import opened Structures
  import opened ParticleIndex

  // ---------------------------------------------------------------------
  // getDomainNumber
  // ---------------------------------------------------------------------

  /** The first i >= from with i == n or x <= limits[i]. */
  function FirstNotBelow(x: real, limits: seq<real>, n: int, from: int): (r: int)
    requires 0 <= from <= n <= |limits|
    ensures from <= r <= n
    ensures forall j :: from <= j < r ==> x > limits[j]
    ensures r < n ==> x <= limits[r]
    decreases n - from
  {
    if from < n && x > limits[from] then FirstNotBelow(x, limits, n, from + 1) else from
  }

  /** What getDomainNumber returns: one less than the first index whose
      limit is not below x, so x > limits[j] for every j up to the result,
      and x <= limits[result + 1] unless the result is the last domain. */
  function DomainNumber(x: real, limits: seq<real>, n: int): (d: int)
    requires 0 <= n <= |limits|
    ensures -1 <= d < n
    ensures forall j :: 0 <= j <= d ==> x > limits[j]
    ensures d + 1 < n ==> x <= limits[d + 1]
  {
    FirstNotBelow(x, limits, n, 0) - 1
  }

  /** getDomainNumber: a linear scan over the left boundaries. */
  method GetDomainNumber(x: real, limits: seq<real>, nTasks: int) returns (d: int)
    requires 0 <= nTasks <= |limits|
    ensures d == DomainNumber(x, limits, nTasks)
  {
    var i := 0;
    while i < nTasks && x > limits[i]
      invariant 0 <= i <= nTasks
      invariant FirstNotBelow(x, limits, nTasks, i) == FirstNotBelow(x, limits, nTasks, 0)
      decreases nTasks - i
    {
      i := i + 1;
    }
    d := i - 1;
  }

  /** getDomainNumber answers -1 exactly when x is at or left of the first
      boundary, on the boundary itself included. */
  lemma DomainNumberMinusOne(x: real, limits: seq<real>, n: int)
    requires 1 <= n <= |limits|
    ensures DomainNumber(x, limits, n) == -1 <==> x <= limits[0]
  {
  }

  /** As written, a particle lying exactly on the global left boundary
      limits[0] = l[0] gets domain -1: computeDomainIndex then increments
      nbPartNode[-1], outside the vector, and the particle is not counted
      for any process. */
  lemma BoundaryParticleHasNoDomain(limits: seq<real>, n: int)
    requires 1 <= n <= |limits|
    ensures DomainNumber(limits[0], limits, n) == -1
  {
  }

  /** The domain that evidently should own x: process 0 also owns the
      global left boundary and anything left of it, every other answer is
      getDomainNumber's. The result is always a valid process, and x lies
      in its slab (limits[d], limits[d + 1]] (only the upper bound for
      process 0, only the lower one for the last process). */
  function OwningDomain(x: real, limits: seq<real>, n: int): (d: int)
    requires 1 <= n <= |limits|
    ensures 0 <= d < n
    ensures d > 0 ==> limits[d] < x
    ensures d + 1 < n && x > limits[0] ==> x <= limits[d + 1]
    ensures x <= limits[0] ==> d == 0
  {
    var d := DomainNumber(x, limits, n);
    if d < 0 then 0 else d
  }

  /** With increasing boundaries, the owning domain is the unique one whose
      slab contains x. */
  lemma OwningDomainUnique(x: real, limits: seq<real>, n: int, e: int)
    requires 1 <= n <= |limits|
    requires forall i, j :: 0 <= i < j < n ==> limits[i] <= limits[j]
    requires 0 <= e < n && (e > 0 ==> limits[e] < x) && (e + 1 < n ==> x <= limits[e + 1])
    ensures OwningDomain(x, limits, n) == e
  {
  }

  // ---------------------------------------------------------------------
  // computeDomainIndex and the per-process counts
  // ---------------------------------------------------------------------

  /** The entries computeDomainIndex appends: (domain of particle i, i) for
      every particle, in order of i. */
  function DomainEntries(posX: seq<real>, limits: seq<real>, n: int): (es: seq<Entry>)
    requires 1 <= n <= |limits|
    ensures |es| == |posX|
    ensures forall i :: 0 <= i < |posX| ==> es[i].particle == i && 0 <= es[i].key < n
  {
    seq(|posX|, i requires 0 <= i < |posX| => Entry(OwningDomain(posX[i], limits, n), i))
  }

  /** computeDomainIndex, with the domain of each particle clamped as
      OwningDomain says: one pair per particle is appended to the index and
      the counter of its domain grows by one. */
  method ComputeDomainIndex(posX: seq<real>, limits: seq<real>, nbPartNode: seq<int>,
                            index: seq<Entry>, nTasks: int)
    returns (counts: seq<int>, entries: seq<Entry>)
    requires 1 <= nTasks <= |limits| && |nbPartNode| == nTasks
    ensures entries == index + DomainEntries(posX, limits, nTasks)
    ensures |counts| == nTasks
    ensures forall d :: 0 <= d < nTasks ==>
              counts[d] == nbPartNode[d] + CountKey(DomainEntries(posX, limits, nTasks), d)
  {
    ghost var all := DomainEntries(posX, limits, nTasks);
    counts, entries := nbPartNode, index;
    for i := 0 to |posX|
      invariant entries == index + all[..i]
      invariant |counts| == nTasks
      invariant forall d :: 0 <= d < nTasks ==> counts[d] == nbPartNode[d] + CountKey(all[..i], d)
    {
      var d := GetDomainNumber(posX[i], limits, nTasks);
      if d < 0 {
        d := 0;
      }
      assert all[..i + 1] == all[..i] + [Entry(d, i)];
      forall e | 0 <= e < nTasks
        ensures CountKey(all[..i + 1], e) == CountKey(all[..i], e) + (if e == d then 1 else 0)
      {
        CountAppend(all[..i], [Entry(d, i)], e);
      }
      entries := entries + [Entry(d, i)];
      counts := counts[d := counts[d] + 1];
    }
    assert all[..|posX|] == all;
  }

  /** The entries name every particle exactly once. */
  lemma DomainEntriesCoverOnce(posX: seq<real>, limits: seq<real>, n: int)
    requires 1 <= n <= |limits|
    ensures CoversOnce(DomainEntries(posX, limits, n), |posX|)
  {
    assert Particles(DomainEntries(posX, limits, n)) == Range(|posX|);
  }

  function Sum(s: seq<int>): int
  {
    if s == [] then 0 else Sum(s[..|s| - 1]) + s[|s| - 1]
  }

  /** Counting per domain, the first m counters add up to the entries of a
      domain below m, on top of what the counters held before. */
  lemma {:induction false} PrefixSumOfCounts(base: seq<int>, counts: seq<int>, s: seq<Entry>, m: nat)
    requires |base| == |counts| && m <= |counts|
    requires forall d :: 0 <= d < |counts| ==> counts[d] == base[d] + CountKey(s, d)
    requires forall i :: 0 <= i < |s| ==> s[i].key >= 0
    ensures Sum(counts[..m]) == Sum(base[..m]) + CountBelow(s, m)
  {
    if m == 0 {
      CountBelowNone(s, 0);
    } else {
      PrefixSumOfCounts(base, counts, s, m - 1);
      assert counts[..m][..m - 1] == counts[..m - 1];
      assert base[..m][..m - 1] == base[..m - 1];
      CountBelowNext(s, m - 1);
    }
  }

  /** In computeDomainIndex every particle is counted exactly once: the
      counters grow in total by the number of particles. */
  lemma CountsGrowByParticles(posX: seq<real>, limits: seq<real>, n: int,
                              nbPartNode: seq<int>, counts: seq<int>)
    requires 1 <= n <= |limits| && |nbPartNode| == n && |counts| == n
    requires forall d :: 0 <= d < n ==>
               counts[d] == nbPartNode[d] + CountKey(DomainEntries(posX, limits, n), d)
    ensures Sum(counts) == Sum(nbPartNode) + |posX|
  {
    var s := DomainEntries(posX, limits, n);
    PrefixSumOfCounts(nbPartNode, counts, s, n);
    CountBelowAll(s, n);
    assert counts[..n] == counts && nbPartNode[..n] == nbPartNode;
  }

  // ---------------------------------------------------------------------
  // Offsets
  // ---------------------------------------------------------------------

  /** The offset loop of scatterField (from nPartNode) and gatherField (from
      allNbPart): offset[0] = 0 and offset[i] = offset[i - 1] + counts[i - 1],
      so each offset is the sum of all earlier counts. */
  method ComputeOffsets(counts: seq<int>) returns (offset: seq<int>)
    requires |counts| >= 1
    ensures |offset| == |counts|
    ensures forall i :: 0 <= i < |counts| ==> offset[i] == Sum(counts[..i])
  {
    offset := seq(|counts|, i => 0);
    for i := 1 to |counts|
      invariant |offset| == |counts|
      invariant forall j :: 0 <= j < i ==> offset[j] == Sum(counts[..j])
    {
      assert counts[..i][..i - 1] == counts[..i - 1];
      offset := offset[i := offset[i - 1] + counts[i - 1]];
    }
  }

  /** Scattering the sorted global field along these counts and offsets
      hands process d exactly the particles whose domain is d: the block
      [offset[d], offset[d] + counts[d]) of the sorted index is the block of
      category d. */
  lemma ScatterHandsOwnParticles(entries: seq<Entry>, sorted: seq<Entry>, n: int,
                                 counts: seq<int>, offset: seq<int>)
    requires n >= 1 && |counts| == n && |offset| == n
    requires forall i :: 0 <= i < |entries| ==> 0 <= entries[i].key < n
    requires forall d :: 0 <= d < n ==> counts[d] == CountKey(entries, d)
    requires forall d :: 0 <= d < n ==> offset[d] == Sum(counts[..d])
    requires SortedByKey(sorted) && multiset(sorted) == multiset(entries)
    ensures |sorted| == |entries| && Sum(counts) == |sorted|
    ensures forall d, i :: 0 <= d < n && 0 <= i < |sorted| ==>
              (sorted[i].key == d <==> offset[d] <= i < offset[d] + counts[d])
  {
    assert |sorted| == |multiset(sorted)| == |multiset(entries)| == |entries|;
    forall d | 0 <= d < n
      ensures forall i :: 0 <= i < |sorted| ==>
                (sorted[i].key == d <==> offset[d] <= i < offset[d] + counts[d])
    {
      CountsPrefix(entries, counts, d);
      CountPermutation(entries, sorted, d);
      KeyBlock(sorted, d);
    }
    CountsPrefix(entries, counts, n);
    CountBelowAll(entries, n);
    assert counts[..n] == counts;
  }

  /** When every counter holds the number of entries of its domain, the
      first m counters add up to the entries of a domain below m. */
  lemma CountsPrefix(entries: seq<Entry>, counts: seq<int>, m: nat)
    requires m <= |counts|
    requires forall i :: 0 <= i < |entries| ==> entries[i].key >= 0
    requires forall d :: 0 <= d < |counts| ==> counts[d] == CountKey(entries, d)
    ensures Sum(counts[..m]) == CountBelow(entries, m)
  {
    var zeros := seq(|counts|, d => 0);
    PrefixSumOfCounts(zeros, counts, entries, m);
    ZeroSum(zeros[..m]);
  }

  lemma {:induction false} ZeroSum(z: seq<int>)
    requires forall i :: 0 <= i < |z| ==> z[i] == 0
    ensures Sum(z) == 0
  {
    if z != [] {
      ZeroSum(z[..|z| - 1]);
    }
  }

  // ---------------------------------------------------------------------
  // Scatter and gather placement
  // ---------------------------------------------------------------------

  /** The pieces of an MPI_Gatherv laid end to end. */
  function Concat<T>(parts: seq<seq<T>>): seq<T>
  {
    if parts == [] then [] else Concat(parts[..|parts| - 1]) + parts[|parts| - 1]
  }

  function Lengths<T>(parts: seq<seq<T>>): (ls: seq<int>)
    ensures |ls| == |parts| && forall p :: 0 <= p < |parts| ==> ls[p] == |parts[p]|
  {
    seq(|parts|, p requires 0 <= p < |parts| => |parts[p]|)
  }

  /** gatherField: the part of process p (its local slice from
      startingParticle to endingParticle) lands in the global array at
      offsets[p], the sum of the earlier parts' sizes. */
  lemma {:induction false} GatherPlacesParts<T>(parts: seq<seq<T>>, p: nat)
    requires p < |parts|
    ensures |Concat(parts)| == Sum(Lengths(parts))
    ensures 0 <= Sum(Lengths(parts)[..p]) && Sum(Lengths(parts)[..p]) + |parts[p]| <= |Concat(parts)|
    ensures Concat(parts)[Sum(Lengths(parts)[..p])..Sum(Lengths(parts)[..p]) + |parts[p]|] == parts[p]
    decreases |parts|
  {
    var m := |parts| - 1;
    var init := parts[..m];
    assert Lengths(parts)[..m] == Lengths(init);
    ConcatLength(parts);
    ConcatLength(init);
    PrefixSumsNonNegative(Lengths(parts), p);
    var a := Sum(Lengths(parts)[..p]);
    if p < m {
      GatherPlacesParts(init, p);
      assert Lengths(parts)[..p] == Lengths(init)[..p];
      assert Concat(parts) == Concat(init) + parts[m];
      assert Concat(parts)[a..a + |parts[p]|] == Concat(init)[a..a + |parts[p]|];
    } else {
      assert Concat(parts) == Concat(init) + parts[m];
    }
  }

  lemma {:induction false} ConcatLength<T>(parts: seq<seq<T>>)
    ensures |Concat(parts)| == Sum(Lengths(parts))
    decreases |parts|
  {
    if parts != [] {
      var m := |parts| - 1;
      assert Lengths(parts)[..m] == Lengths(parts[..m]);
      ConcatLength(parts[..m]);
    }
  }

  /** Counts and offsets as scatterField computes them: non-negative
      counts adding up to the global size, each offset the sum of the
      earlier counts. */
  predicate Tiling(total: int, counts: seq<int>, offset: seq<int>)
  {
    |counts| == |offset|
    && (forall p :: 0 <= p < |counts| ==> counts[p] >= 0 && offset[p] == Sum(counts[..p]))
    && Sum(counts) == total
  }

  /** Every block of a tiling lies inside the global array. */
  lemma TilingBounds(total: int, counts: seq<int>, offset: seq<int>)
    requires Tiling(total, counts, offset)
    ensures forall p :: 0 <= p < |counts| ==> 0 <= offset[p] && offset[p] + counts[p] <= total
  {
    PrefixSumsNonNegative(counts, |counts|);
    assert counts[..|counts|] == counts;
    forall p | 0 <= p < |counts| ensures 0 <= offset[p] && offset[p] + counts[p] <= total {
      StepSum(counts, p);
    }
  }

  /** What process p receives from MPI_Scatterv: counts[p] values from
      offset[p] on. */
  function ScatterPart<T>(global: seq<T>, counts: seq<int>, offset: seq<int>, p: int): (r: seq<T>)
    requires 0 <= p < |counts| == |offset|
    requires 0 <= offset[p] && 0 <= counts[p] && offset[p] + counts[p] <= |global|
    ensures |r| == counts[p]
  {
    global[offset[p]..offset[p] + counts[p]]
  }

  /** What every process receives. */
  function ScatterParts<T>(global: seq<T>, counts: seq<int>, offset: seq<int>): (parts: seq<seq<T>>)
    requires Tiling(|global|, counts, offset)
    ensures |parts| == |counts|
    ensures forall p :: 0 <= p < |counts| ==>
              0 <= offset[p] && offset[p] + counts[p] <= |global|
              && parts[p] == ScatterPart(global, counts, offset, p)
  {
    TilingBounds(|global|, counts, offset);
    seq(|counts|, p requires 0 <= p < |counts| => ScatterPart(global, counts, offset, p))
  }

  /** Scattering with prefix-sum offsets and then gathering the parts back
      gives the global array again: the parts tile it. */
  lemma ScatterThenGather<T>(global: seq<T>, counts: seq<int>, offset: seq<int>)
    requires Tiling(|global|, counts, offset)
    ensures Concat(ScatterParts(global, counts, offset)) == global
  {
    var parts := ScatterParts(global, counts, offset);
    ScatterPrefix(global, counts, offset, |counts|);
    assert parts[..|counts|] == parts && counts[..|counts|] == counts;
  }

  lemma {:induction false} ScatterPrefix<T>(global: seq<T>, counts: seq<int>, offset: seq<int>, m: nat)
    requires Tiling(|global|, counts, offset) && m <= |counts|
    ensures 0 <= Sum(counts[..m]) <= |global|
    ensures Concat(ScatterParts(global, counts, offset)[..m]) == global[..Sum(counts[..m])]
  {
    if m == 0 {
      assert counts[..0] == [];
    } else {
      ScatterPrefix(global, counts, offset, m - 1);
      StepSum(counts, m - 1);
      TilingBounds(|global|, counts, offset);
      var parts := ScatterParts(global, counts, offset);
      var a, b := Sum(counts[..m - 1]), Sum(counts[..m]);
      ConcatStep(parts, m);
      PartIsBlock(global, counts, offset, m - 1);
      SliceJoin(global, a, b);
    }
  }

  /** Part p is the block between the prefix sums before and after p. */
  lemma PartIsBlock<T>(global: seq<T>, counts: seq<int>, offset: seq<int>, p: nat)
    requires Tiling(|global|, counts, offset) && p < |counts|
    ensures 0 <= Sum(counts[..p]) <= Sum(counts[..p + 1]) <= |global|
    ensures ScatterParts(global, counts, offset)[p] == global[Sum(counts[..p])..Sum(counts[..p + 1])]
  {
    StepSum(counts, p);
    TilingBounds(|global|, counts, offset);
  }

  /** The first m parts concatenate to the first m - 1 parts and then part m - 1. */
  lemma ConcatStep<T>(parts: seq<seq<T>>, m: nat)
    requires 0 < m <= |parts|
    ensures Concat(parts[..m]) == Concat(parts[..m - 1]) + parts[m - 1]
  {
    assert parts[..m][..m - 1] == parts[..m - 1];
  }

  lemma SliceJoin<T>(s: seq<T>, a: int, b: int)
    requires 0 <= a <= b <= |s|
    ensures s[..b] == s[..a] + s[a..b]
  {
  }

  lemma StepSum(counts: seq<int>, p: nat)
    requires p < |counts|
    ensures Sum(counts[..p + 1]) == Sum(counts[..p]) + counts[p]
  {
    assert counts[..p + 1][..p] == counts[..p];
  }

  /** Prefix sums of non-negative counts grow with the prefix. */
  lemma {:induction false} PrefixSumsNonNegative(counts: seq<int>, m: nat)
    requires m <= |counts| && forall p :: 0 <= p < |counts| ==> counts[p] >= 0
    ensures forall p :: 0 <= p <= m ==> 0 <= Sum(counts[..p]) <= Sum(counts[..m])
  {
    if m > 0 {
      PrefixSumsNonNegative(counts, m - 1);
      assert counts[..m][..m - 1] == counts[..m - 1];
    }
  }

  // ---------------------------------------------------------------------
  // Splitting the boxes along x
  // ---------------------------------------------------------------------

  /** The check in scatterField and its startBoxX loop: fewer than two
      boxes per process is a consistency error; otherwise process i starts
      at box nTotalBoxesX * i / nTasks and one extra entry closes the last
      process. The box count itself, a ceiling of a floating-point
      quotient, is an input here. */
  method SplitBoxes(nTotalBoxesX: int, nTasks: int) returns (errorFlag: Error, startBoxX: seq<int>)
    requires nTasks >= 1
    ensures nTotalBoxesX < 2 * nTasks <==> errorFlag == ConsistencyError
    ensures errorFlag == ConsistencyError || errorFlag == NoError
    ensures errorFlag == ConsistencyError ==> startBoxX == []
    ensures errorFlag == NoError ==>
              |startBoxX| == nTasks + 1
              && (forall i :: 0 <= i <= nTasks ==> startBoxX[i] == StartBox(nTotalBoxesX, nTasks, i))
              && WellSplit(startBoxX, nTasks, nTotalBoxesX)
  {
    if nTotalBoxesX < 2 * nTasks {
      return ConsistencyError, [];
    }
    errorFlag := NoError;
    startBoxX := [];
    for i := 0 to nTasks + 1
      invariant |startBoxX| == i
      invariant forall j :: 0 <= j < i ==> startBoxX[j] == StartBox(nTotalBoxesX, nTasks, j)
    {
      startBoxX := startBoxX + [(nTotalBoxesX * i) / nTasks];
    }
    StartBoxesSplit(nTotalBoxesX, nTasks, startBoxX);
  }

  /** The first box of process i (startBoxX[i]). */
  function StartBox(total: int, n: int, i: int): (s: int)
    requires n >= 1
    ensures 0 <= total && 0 <= i <= n ==> 0 <= s <= total
    ensures i == n ==> s == total
  {
    StartBoxBounds(total, n, i);
    (total * i) / n
  }

  /** The first boxes lie among the boxes, and the last entry closes them. */
  lemma StartBoxBounds(total: int, n: int, i: int)
    requires n >= 1
    ensures 0 <= total && 0 <= i <= n ==> 0 <= (total * i) / n <= total
    ensures i == n ==> (total * i) / n == total
  {
    DivExact(total, n);
    if 0 <= total && 0 <= i <= n {
      MulMono(i, n, total);
      assert i * total == total * i && n * total == total * n;
      DivAtLeast(total * i, n, 0);
      DivMul(total * i, n);
      if (total * i) / n > total {
        MulMono(total + 1, (total * i) / n, n);
        assert false;
      }
    }
  }

  /** The split starts at box 0, ends at the last box, and gives every
      process at least two box layers. */
  predicate WellSplit(startBoxX: seq<int>, n: int, total: int)
    requires |startBoxX| == n + 1 && n >= 0
  {
    startBoxX[0] == 0 && startBoxX[n] == total
    && forall i :: 0 <= i < n ==> startBoxX[i] + 2 <= startBoxX[i + 1]
  }

  lemma StartBoxesSplit(total: int, n: int, startBoxX: seq<int>)
    requires n >= 1 && total >= 2 * n && |startBoxX| == n + 1
    requires forall j :: 0 <= j <= n ==> startBoxX[j] == StartBox(total, n, j)
    ensures WellSplit(startBoxX, n, total)
  {
    assert StartBox(total, n, 0) == 0;
    assert StartBox(total, n, n) == total by {
      assert total * n == total * n + 0;
      DivMul(total * n, n);
      DivExact(total, n);
    }
    forall i | 0 <= i < n
      ensures startBoxX[i] + 2 <= startBoxX[i + 1]
    {
      BoxGap(total, n, i);
    }
  }

  lemma DivExact(q: int, n: int)
    requires n >= 1
    ensures (q * n) / n == q
  {
    var a := q * n;
    DivMul(a, n);
    var d := a / n;
    var r := a % n;
    assert (q - d) * n == r;
    if q - d >= 1 {
      MulMono(1, q - d, n);
      assert false;
    } else if q - d <= -1 {
      MulMono(q - d, -1, n);
      assert false;
    }
  }

  /** With at least 2 * n boxes, consecutive start boxes are at least two
      apart: every process owns at least two box layers. */
  lemma BoxGap(total: int, n: int, i: int)
    requires n >= 1 && total >= 2 * n && 0 <= i < n
    ensures StartBox(total, n, i) + 2 <= StartBox(total, n, i + 1)
  {
    var q := (total * i) / n;
    assert total * i >= q * n by {
      DivMul(total * i, n);
    }
    assert total * (i + 1) == total * i + total;
    assert total * (i + 1) >= q * n + 2 * n;
    assert (q + 2) * n == q * n + 2 * n;
    DivAtLeast(total * (i + 1), n, q + 2);
  }

  lemma DivMul(a: int, n: int)
    requires n >= 1
    ensures a == (a / n) * n + a % n && 0 <= a % n < n
  {
  }

  lemma DivAtLeast(a: int, n: int, k: int)
    requires n >= 1 && a >= k * n
    ensures a / n >= k
  {
    DivMul(a, n);
    if a / n < k {
      MulMono(a / n, k - 1, n);
      assert false;
    }
  }

  lemma MulMono(x: int, y: int, n: int)
    requires x <= y && n >= 0
    ensures x * n <= y * n
  {
  }

  // ---------------------------------------------------------------------
  // The local x-extent and the owned boxes
  // ---------------------------------------------------------------------

  /** What scatterField sets for one process: the local l[0] and u[0] and
      the first and last owned box. */
  datatype Extent = Extent(l0: real, u0: real, startingBox: int, endingBox: int)

  /** The left boundary of each domain, without overlap. */
  function Limit(globall0: real, boxSize: real, startBoxX: seq<int>, p: int): real
    requires 0 <= p < |startBoxX|
  {
    globall0 + (startBoxX[p] as real) * boxSize
  }

  /** Process p's local extent: its own boxes, plus one halo box on each
      side that has a neighbour. The owned boxes are counted in the local
      box grid, which starts with the halo layer (nBoxesY * nBoxesZ boxes)
      for every process but the first. */
  function LocalExtent(globall0: real, boxSize: real, startBoxX: seq<int>, p: int, nTasks: int,
                       nBoxesYZ: int): (e: Extent)
    requires 0 <= p < nTasks && |startBoxX| == nTasks + 1
    ensures p == 0 ==> e.l0 == globall0
    ensures p > 0 ==> e.l0 + boxSize == Limit(globall0, boxSize, startBoxX, p)
    ensures e.u0 - (if p == nTasks - 1 then 0.0 else boxSize) == Limit(globall0, boxSize, startBoxX, p + 1)
    ensures e.startingBox == if p == 0 then 0 else nBoxesYZ
    ensures e.endingBox - e.startingBox + 1 == (startBoxX[p + 1] - startBoxX[p]) * nBoxesYZ
  {
    var l0 := if p == 0 then globall0 else globall0 + ((startBoxX[p] - 1) as real) * boxSize;
    var startingBox := if p == 0 then 0 else nBoxesYZ;
    var u0 := if p == nTasks - 1 then globall0 + (startBoxX[p + 1] as real) * boxSize
              else globall0 + ((startBoxX[p + 1] + 1) as real) * boxSize;
    var endingBox := startingBox + (startBoxX[p + 1] - startBoxX[p]) * nBoxesYZ - 1;
    ShiftMul(startBoxX[p], boxSize);
    ShiftMul(startBoxX[p + 1] + 1, boxSize);
    Extent(l0, u0, startingBox, endingBox)
  }

  lemma ShiftMul(s: int, b: real)
    ensures ((s - 1) as real) * b + b == (s as real) * b
  {
  }

  /** Neighbouring extents overlap by exactly two boxes: the right halo and
      edge of process p are the left edge and halo of process p + 1. */
  lemma NeighboursOverlapTwoBoxes(globall0: real, boxSize: real, startBoxX: seq<int>, p: int,
                                  nTasks: int, nBoxesYZ: int)
    requires 0 <= p < nTasks - 1 && |startBoxX| == nTasks + 1
    ensures LocalExtent(globall0, boxSize, startBoxX, p, nTasks, nBoxesYZ).u0
            - LocalExtent(globall0, boxSize, startBoxX, p + 1, nTasks, nBoxesYZ).l0 == 2.0 * boxSize
  {
  }

  // ---------------------------------------------------------------------
  // timeStepUpdate
  // ---------------------------------------------------------------------

  /** The smallest element. */
  function MinOf(s: seq<real>): (m: real)
    requires |s| >= 1
    ensures m in s && forall i :: 0 <= i < |s| ==> m <= s[i]
  {
    if |s| == 1 then s[0]
    else
      var rest := MinOf(s[1..]);
      if s[0] <= rest then s[0] else rest
  }

  /** The time step process 0 broadcasts, as written: one process keeps its
      own proposal, otherwise std::min_element runs over the first
      nTasks - 1 proposals only. */
  function NextKAsWritten(proposals: seq<real>, nTasks: int): (k: real)
    requires nTasks >= 1 && |proposals| == nTasks
    ensures nTasks == 1 ==> k == proposals[0]
    ensures nTasks > 1 ==> k in proposals[..nTasks - 1]
    ensures forall p :: 0 <= p < nTasks - 1 ==> k <= proposals[p]
  {
    if nTasks == 1 then proposals[0] else MinOf(proposals[..nTasks - 1])
  }

  /** The last process's proposal is ignored: with proposals 1.0 and 0.5
      the chosen step is 1.0, larger than what the second process allows. */
  lemma NextKAsWrittenSkipsLast()
    ensures NextKAsWritten([1.0, 0.5], 2) == 1.0
    ensures NextKAsWritten([1.0, 0.5], 2) > [1.0, 0.5][1]
  {
    assert [1.0, 0.5][..1] == [1.0];
  }

  /** The step every process evidently should agree on: the smallest of all
      proposals, so no process takes a step larger than it proposed. */
  function NextK(proposals: seq<real>, nTasks: int): (k: real)
    requires nTasks >= 1 && |proposals| == nTasks
    ensures k in proposals
    ensures forall p :: 0 <= p < nTasks ==> k <= proposals[p]
  {
    MinOf(proposals)
  }
}
