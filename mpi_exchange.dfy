/** The local steps of the halo exchange (shareOverlap) and of particle
    migration (shareMigrate) in CPP_Physics/MPI.cpp: classifying particles
    by x against the process's edges, sorting the Field by that
    classification so that each group to send is one contiguous block, and
    splicing the particles received from the neighbours in. The messages
    themselves are not modelled: what a neighbour sends arrives here as
    receive buffers. */
module MpiExchange {
  import opened Structures
  import opened ParticleIndex
  import opened MpiField
  import MpiDecomposition

  /** enum overlap. */
  const LEFT_OVERLAP: int := 0
  const NO_OVERLAP: int := 1
  const RIGHT_OVERLAP: int := 2

  /** enum migrate. */
  const NO_MIGRATE: int := 0
  const LEFT_MIGRATE: int := 1
  const RIGHT_MIGRATE: int := 2

  // ---------------------------------------------------------------------
  // computeMigrateIndex
  // ---------------------------------------------------------------------

  /** The migrate test, right first: beyond xMax goes right, at or before
      xMin goes left, the rest stays. */
  function MigrateCategory(x: real, xMin: real, xMax: real): (k: int)
    ensures k == RIGHT_MIGRATE <==> x > xMax
    ensures k == LEFT_MIGRATE <==> x <= xMin && x <= xMax
    ensures k == NO_MIGRATE <==> xMin < x <= xMax
  {
    if x > xMax then RIGHT_MIGRATE else if x <= xMin then LEFT_MIGRATE else NO_MIGRATE
  }

  /** One entry per particle, in order: (its migrate category, i). */
  function MigrateEntries(posX: seq<real>, xMin: real, xMax: real): (es: seq<Entry>)
    ensures |es| == |posX|
    ensures forall i :: 0 <= i < |posX| ==> es[i] == Entry(MigrateCategory(posX[i], xMin, xMax), i)
  {
    seq(|posX|, i requires 0 <= i < |posX| => Entry(MigrateCategory(posX[i], xMin, xMax), i))
  }

  /** computeMigrateIndex: both counters start at 0, one entry per particle
      is appended, and the counters count the left and right entries. */
  method ComputeMigrateIndex(posX: seq<real>, index: seq<Entry>, xMin: real, xMax: real)
    returns (entries: seq<Entry>, nLeft: int, nRight: int)
    ensures entries == index + MigrateEntries(posX, xMin, xMax)
    ensures nLeft == CountKey(MigrateEntries(posX, xMin, xMax), LEFT_MIGRATE)
    ensures nRight == CountKey(MigrateEntries(posX, xMin, xMax), RIGHT_MIGRATE)
  {
    ghost var all := MigrateEntries(posX, xMin, xMax);
    entries := index;
    nLeft, nRight := 0, 0;
    for i := 0 to |posX|
      invariant entries == index + all[..i]
      invariant nLeft == CountKey(all[..i], LEFT_MIGRATE)
      invariant nRight == CountKey(all[..i], RIGHT_MIGRATE)
    {
      var e;
      if posX[i] > xMax {
        e := Entry(RIGHT_MIGRATE, i);
        nRight := nRight + 1;
      } else if posX[i] <= xMin {
        e := Entry(LEFT_MIGRATE, i);
        nLeft := nLeft + 1;
      } else {
        e := Entry(NO_MIGRATE, i);
      }
      assert all[..i + 1] == all[..i] + [e];
      CountAppend(all[..i], [e], LEFT_MIGRATE);
      CountAppend(all[..i], [e], RIGHT_MIGRATE);
      entries := entries + [e];
    }
    assert all[..|posX|] == all;
  }

  /** The migrate entries name every particle once, and staying, left and
      right particles add up to all of them. */
  lemma MigratePartition(posX: seq<real>, xMin: real, xMax: real)
    ensures CoversOnce(MigrateEntries(posX, xMin, xMax), |posX|)
    ensures CountKey(MigrateEntries(posX, xMin, xMax), NO_MIGRATE)
            + CountKey(MigrateEntries(posX, xMin, xMax), LEFT_MIGRATE)
            + CountKey(MigrateEntries(posX, xMin, xMax), RIGHT_MIGRATE) == |posX|
  {
    var es := MigrateEntries(posX, xMin, xMax);
    assert Particles(es) == Range(|posX|);
    ThreeCounts(es);
  }

  // ---------------------------------------------------------------------
  // computeOverlapIndex
  // ---------------------------------------------------------------------

  /** The four x-bounds computeOverlapIndex receives. */
  datatype Window = Window(leftMin: real, leftMax: real, rightMin: real, rightMax: real)

  /** In the right edge (rightMinX, rightMaxX]. */
  predicate InRight(x: real, w: Window)
  {
    w.rightMin < x <= w.rightMax
  }

  /** In the left edge (leftMinX, leftMaxX]. */
  predicate InLeft(x: real, w: Window)
  {
    w.leftMin < x <= w.leftMax
  }

  /** A particle in neither edge and outside [leftMinX, rightMaxX]: it has
      moved further than one subdomain; the source only prints a warning
      and gives it no entry. */
  predicate Stray(x: real, w: Window)
  {
    !InRight(x, w) && !InLeft(x, w) && (x < w.leftMin || x > w.rightMax)
  }

  /** The overlap test, right first. */
  function OverlapCategory(x: real, w: Window): (k: int)
    requires !Stray(x, w)
    ensures k == RIGHT_OVERLAP <==> InRight(x, w)
    ensures k == LEFT_OVERLAP <==> InLeft(x, w) && !InRight(x, w)
    ensures k == NO_OVERLAP <==> !InLeft(x, w) && !InRight(x, w)
  {
    if InRight(x, w) then RIGHT_OVERLAP else if InLeft(x, w) then LEFT_OVERLAP else NO_OVERLAP
  }

  /** The entries computeOverlapIndex appends for the first m particles:
      strays get none. */
  function OverlapEntries(posX: seq<real>, w: Window, m: nat): (es: seq<Entry>)
    requires m <= |posX|
    ensures |es| <= m
    ensures forall j :: 0 <= j < |es| ==>
              es[j].particle < m && !Stray(posX[es[j].particle], w)
              && es[j].key == OverlapCategory(posX[es[j].particle], w)
  {
    if m == 0 then []
    else if Stray(posX[m - 1], w) then OverlapEntries(posX, w, m - 1)
    else OverlapEntries(posX, w, m - 1) + [Entry(OverlapCategory(posX[m - 1], w), m - 1)]
  }

  /** computeOverlapIndex: both counters start at 0, each particle that is
      not a stray gets one entry, and the counters count the left and right
      entries. */
  method ComputeOverlapIndex(posX: seq<real>, index: seq<Entry>,
                             leftMinX: real, leftMaxX: real, rightMinX: real, rightMaxX: real)
    returns (entries: seq<Entry>, nLeft: int, nRight: int)
    ensures var w := Window(leftMinX, leftMaxX, rightMinX, rightMaxX);
            entries == index + OverlapEntries(posX, w, |posX|)
            && nLeft == CountKey(OverlapEntries(posX, w, |posX|), LEFT_OVERLAP)
            && nRight == CountKey(OverlapEntries(posX, w, |posX|), RIGHT_OVERLAP)
  {
    ghost var w := Window(leftMinX, leftMaxX, rightMinX, rightMaxX);
    entries := index;
    nLeft, nRight := 0, 0;
    for i := 0 to |posX|
      invariant entries == index + OverlapEntries(posX, w, i)
      invariant nLeft == CountKey(OverlapEntries(posX, w, i), LEFT_OVERLAP)
      invariant nRight == CountKey(OverlapEntries(posX, w, i), RIGHT_OVERLAP)
    {
      ghost var before := OverlapEntries(posX, w, i);
      if posX[i] > rightMinX && posX[i] <= rightMaxX {
        entries := entries + [Entry(RIGHT_OVERLAP, i)];
        nRight := nRight + 1;
      } else if posX[i] <= leftMaxX && posX[i] > leftMinX {
        entries := entries + [Entry(LEFT_OVERLAP, i)];
        nLeft := nLeft + 1;
      } else if posX[i] < leftMinX || posX[i] > rightMaxX {
        // the warning about a particle that travelled too far
      } else {
        entries := entries + [Entry(NO_OVERLAP, i)];
      }
      if !Stray(posX[i], w) {
        var e := Entry(OverlapCategory(posX[i], w), i);
        CountAppend(before, [e], LEFT_OVERLAP);
        CountAppend(before, [e], RIGHT_OVERLAP);
      }
    }
  }

  /** The overlap classification: each particle that is not a stray gets
      exactly one entry, in order, and when there is no stray the entries
      name every particle once. */
  lemma {:induction false} OverlapEntriesExact(posX: seq<real>, w: Window, m: nat)
    requires m <= |posX| && forall i :: 0 <= i < m ==> !Stray(posX[i], w)
    ensures OverlapEntries(posX, w, m) == seq(m, i requires 0 <= i < m => Entry(OverlapCategory(posX[i], w), i))
  {
    if m > 0 {
      OverlapEntriesExact(posX, w, m - 1);
    }
  }

  lemma OverlapCoversOnce(posX: seq<real>, w: Window)
    requires forall i :: 0 <= i < |posX| ==> !Stray(posX[i], w)
    ensures |OverlapEntries(posX, w, |posX|)| == |posX|
    ensures CoversOnce(OverlapEntries(posX, w, |posX|), |posX|)
  {
    OverlapEntriesExact(posX, w, |posX|);
    assert Particles(OverlapEntries(posX, w, |posX|)) == Range(|posX|);
  }

  /** A stray particle gets no entry, so the index is shorter than the
      field: sortParticles then reads index entries that do not exist. */
  lemma {:induction false} StrayIsDropped(posX: seq<real>, w: Window, m: nat, s: nat)
    requires m <= |posX| && s < m && Stray(posX[s], w)
    ensures |OverlapEntries(posX, w, m)| < m
    ensures forall j :: 0 <= j < |OverlapEntries(posX, w, m)| ==> OverlapEntries(posX, w, m)[j].particle != s
  {
    if s < m - 1 {
      StrayIsDropped(posX, w, m - 1, s);
    }
  }

  // ---------------------------------------------------------------------
  // The edges each process uses
  // ---------------------------------------------------------------------

  /** The windows shareOverlap passes: the first process has no left edge
      (leftMin == leftMax == l[0]), the last no right edge (both u[0]); the
      left edge is the second box layer, the right edge the last but one. */
  function OverlapWindow(l0: real, u0: real, boxSize: real, procID: int, nTasks: int): (w: Window)
    ensures procID == 0 ==> w.leftMin == w.leftMax
    ensures procID != 0 && procID == nTasks - 1 ==> w.rightMin == w.rightMax
  {
    if procID == 0 then Window(l0, l0, u0 - 2.0 * boxSize, u0 - boxSize)
    else if procID == nTasks - 1 then Window(l0 + boxSize, l0 + 2.0 * boxSize, u0, u0)
    else Window(l0 + boxSize, l0 + 2.0 * boxSize, u0 - 2.0 * boxSize, u0 - boxSize)
  }

  /** For the extents scatterField hands out (at least two owned box
      layers, plus a halo box on each side that has a neighbour), the left
      and right edges shareOverlap sends are disjoint, and a stray is
      exactly a particle outside [leftMinX, rightMaxX]. */
  lemma OverlapWindowEdges(l0: real, u0: real, boxSize: real, procID: int, nTasks: int, x: real)
    requires boxSize >= 0.0
    requires u0 - l0 >= (if procID == 0 || procID == nTasks - 1 then 3.0 else 4.0) * boxSize
    ensures var w := OverlapWindow(l0, u0, boxSize, procID, nTasks);
            !(InLeft(x, w) && InRight(x, w))
            && (Stray(x, w) <==> x < w.leftMin || x > w.rightMax)
  {
  }

  /** The bounds shareMigrate passes: a particle leaves when it is in a
      halo layer, at or left of l[0] + boxSize or beyond u[0] - boxSize;
      the first process uses l[0] and the last u[0] on their open side. */
  datatype Bounds = Bounds(xMin: real, xMax: real)

  function MigrateBounds(l0: real, u0: real, boxSize: real, procID: int, nTasks: int): (b: Bounds)
    ensures b.xMin == if procID == 0 then l0 else l0 + boxSize
    ensures b.xMax == if procID == nTasks - 1 && procID != 0 then u0 else u0 - boxSize
  {
    if procID == 0 then Bounds(l0, u0 - boxSize)
    else if procID == nTasks - 1 then Bounds(l0 + boxSize, u0)
    else Bounds(l0 + boxSize, u0 - boxSize)
  }

  /** With the extent scatterField gives process p (p among n >= 2 processes),
      the stay interval (xMin, xMax] is the process's own slab between its
      boundary limits[p] and the next one (globall0 + startBoxX[nTasks] *
      boxSize for the last process). So a particle inside the global domain
      stays exactly when the owning domain of scatterField's decomposition is
      p. */
  lemma {:induction false} MigrateBoundsAreSlab(globall0: real, boxSize: real, startBoxX: seq<int>,
                                               p: int, n: int, nBoxesYZ: int, x: real)
    requires 2 <= n && 0 <= p < n && |startBoxX| == n + 1 && startBoxX[0] == 0
    requires boxSize > 0.0
    requires forall i :: 0 <= i < n ==> startBoxX[i] <= startBoxX[i + 1]
    requires globall0 < x <= MpiDecomposition.Limit(globall0, boxSize, startBoxX, n)
    ensures var e := MpiDecomposition.LocalExtent(globall0, boxSize, startBoxX, p, n, nBoxesYZ);
            var b := MigrateBounds(e.l0, e.u0, boxSize, p, n);
            b.xMin == MpiDecomposition.Limit(globall0, boxSize, startBoxX, p)
            && b.xMax == MpiDecomposition.Limit(globall0, boxSize, startBoxX, p + 1)
            && (MigrateCategory(x, b.xMin, b.xMax) == NO_MIGRATE
                <==> MpiDecomposition.OwningDomain(x, SlabLimits(globall0, boxSize, startBoxX, n), n) == p)
  {
    var e := MpiDecomposition.LocalExtent(globall0, boxSize, startBoxX, p, n, nBoxesYZ);
    var b := MigrateBounds(e.l0, e.u0, boxSize, p, n);
    var limits := SlabLimits(globall0, boxSize, startBoxX, n);
    SlabLimitsIncrease(globall0, boxSize, startBoxX, n);
    assert b.xMin == MpiDecomposition.Limit(globall0, boxSize, startBoxX, p);
    assert b.xMax == MpiDecomposition.Limit(globall0, boxSize, startBoxX, p + 1);
    if MigrateCategory(x, b.xMin, b.xMax) == NO_MIGRATE {
      MpiDecomposition.OwningDomainUnique(x, limits, n, p);
    }
    if MpiDecomposition.OwningDomain(x, limits, n) == p {
      assert x <= MpiDecomposition.Limit(globall0, boxSize, startBoxX, p + 1);
    }
  }

  /** scatterField's limits: the left boundary of each domain without
      overlap, limits[i] = globall0 + startBoxX[i] * boxSize. */
  function SlabLimits(globall0: real, boxSize: real, startBoxX: seq<int>, n: int): (limits: seq<real>)
    requires 0 <= n < |startBoxX|
    ensures |limits| == n
    ensures forall i :: 0 <= i < n ==> limits[i] == MpiDecomposition.Limit(globall0, boxSize, startBoxX, i)
  {
    seq(n, i requires 0 <= i < n => MpiDecomposition.Limit(globall0, boxSize, startBoxX, i))
  }

  /** Boundaries of increasing box indices increase. */
  lemma SlabLimitsIncrease(globall0: real, boxSize: real, startBoxX: seq<int>, n: int)
    requires 0 <= n < |startBoxX| && boxSize > 0.0
    requires forall i :: 0 <= i < n ==> startBoxX[i] <= startBoxX[i + 1]
    ensures forall i, j :: 0 <= i < j <= n ==>
              MpiDecomposition.Limit(globall0, boxSize, startBoxX, i)
              <= MpiDecomposition.Limit(globall0, boxSize, startBoxX, j)
    ensures forall i, j :: 0 <= i < j < n ==>
              SlabLimits(globall0, boxSize, startBoxX, n)[i] <= SlabLimits(globall0, boxSize, startBoxX, n)[j]
  {
    forall i, j | 0 <= i < j <= n
      ensures startBoxX[i] <= startBoxX[j]
    {
      StartBoxesIncrease(startBoxX, n, i, j);
    }
  }

  lemma {:induction false} StartBoxesIncrease(startBoxX: seq<int>, n: int, i: int, j: int)
    requires 0 <= n < |startBoxX|
    requires forall k :: 0 <= k < n ==> startBoxX[k] <= startBoxX[k + 1]
    requires 0 <= i <= j <= n
    ensures startBoxX[i] <= startBoxX[j]
    decreases j - i
  {
    if i < j {
      StartBoxesIncrease(startBoxX, n, i + 1, j);
    }
  }

  // ---------------------------------------------------------------------
  // shareOverlap, local steps
  // ---------------------------------------------------------------------

  /** Every entry's category is the category of its particle's position. */
  lemma KeysFollowPositions(entries: seq<Entry>, sorted: seq<Entry>, posX: seq<real>, w: Window)
    requires multiset(sorted) == multiset(entries)
    requires forall j :: 0 <= j < |entries| ==>
               entries[j].particle < |posX| && !Stray(posX[entries[j].particle], w)
               && entries[j].key == OverlapCategory(posX[entries[j].particle], w)
    ensures forall i :: 0 <= i < |sorted| ==>
              sorted[i].particle < |posX| && !Stray(posX[sorted[i].particle], w)
              && sorted[i].key == OverlapCategory(posX[sorted[i].particle], w)
  {
    forall i | 0 <= i < |sorted|
      ensures sorted[i].particle < |posX| && !Stray(posX[sorted[i].particle], w)
              && sorted[i].key == OverlapCategory(posX[sorted[i].particle], w)
    {
      assert sorted[i] in multiset(entries);
      var j :| 0 <= j < |entries| && entries[j] == sorted[i];
    }
  }

  /** The part of shareOverlap before anything is sent (on more than one
      process): classify by the process's window, sort the Field, and send
      the first nOverlap[0] particles left and the last nOverlap[1], from
      startOverlapToRight on, right. The particles sent left are exactly
      those in the left edge (and not the right), those sent right exactly
      those in the right edge, and the Field is a reordering of itself. A
      stray particle would leave sortParticles short of index entries, so
      there must be none. */
  method SelectOverlap(field: Field, info: SubdomainInfo)
    returns (sorted: seq<Entry>, nLeft: int, nRight: int, startRight: int)
    requires field.Consistent()
    requires 1 < info.nTasks && 0 <= info.procID < info.nTasks
    requires forall i :: 0 <= i < field.Size() ==>
               !Stray(field.pos[0][i], OverlapWindow(field.l[0], field.u[0], info.boxSize, info.procID, info.nTasks))
    modifies field
    ensures field.Consistent() && field.Size() == old(field.Size()) && field.ScalarsUnchanged()
    ensures |sorted| == field.Size() && CoversOnce(sorted, field.Size())
    ensures forall i :: 0 <= i < |sorted| ==> sorted[i].particle < field.Size()
    ensures forall c :: 0 <= c < 3 ==>
              field.pos[c] == Gather(old(field.pos[c]), sorted, field.Size())
              && field.speed[c] == Gather(old(field.speed[c]), sorted, field.Size())
    ensures field.density == Gather(old(field.density), sorted, field.Size())
    ensures field.pressure == Gather(old(field.pressure), sorted, field.Size())
    ensures field.mass == Gather(old(field.mass), sorted, field.Size())
    ensures field.partType == Gather(old(field.partType), sorted, field.Size())
    ensures 0 <= nLeft <= startRight == field.Size() - nRight <= field.Size()
    ensures var w := OverlapWindow(field.l[0], field.u[0], info.boxSize, info.procID, info.nTasks);
            forall i :: 0 <= i < field.Size() ==>
              (i < nLeft <==> InLeft(field.pos[0][i], w) && !InRight(field.pos[0][i], w))
              && (startRight <= i <==> InRight(field.pos[0][i], w))
  {
    var w := OverlapWindow(field.l[0], field.u[0], info.boxSize, info.procID, info.nTasks);
    var n := |field.pos[0]|;
    ghost var x0 := field.pos[0];
    var index;
    index, nLeft, nRight := ComputeOverlapIndex(field.pos[0], [], w.leftMin, w.leftMax, w.rightMin, w.rightMax);
    assert index == OverlapEntries(x0, w, n);
    OverlapCoversOnce(x0, w);
    sorted := SortParticles(field, index);
    startRight := |field.pos[0]| - nRight;
    OverlapLayout(x0, w, index, sorted, nLeft, nRight);
  }

  /** After the sort by overlap category: the particles for the left
      neighbour, the ones sent nowhere, then the ones for the right
      neighbour, each block read off its position. */
  lemma OverlapLayout(x0: seq<real>, w: Window, index: seq<Entry>, sorted: seq<Entry>, nLeft: int, nRight: int)
    requires forall i :: 0 <= i < |x0| ==> !Stray(x0[i], w)
    requires index == OverlapEntries(x0, w, |x0|)
    requires SortedByKey(sorted) && multiset(sorted) == multiset(index)
    requires nLeft == CountKey(index, LEFT_OVERLAP) && nRight == CountKey(index, RIGHT_OVERLAP)
    ensures |sorted| == |x0| && CoversOnce(sorted, |x0|)
    ensures forall i :: 0 <= i < |sorted| ==> sorted[i].particle < |x0|
    ensures 0 <= nLeft <= |x0| - nRight <= |x0|
    ensures forall i :: 0 <= i < |x0| ==>
              (i < nLeft <==> InLeft(Gather(x0, sorted, |x0|)[i], w) && !InRight(Gather(x0, sorted, |x0|)[i], w))
              && (|x0| - nRight <= i <==> InRight(Gather(x0, sorted, |x0|)[i], w))
  {
    OverlapCoversOnce(x0, w);
    SortedBlocks(index, sorted);
    SortKeepsCover(index, sorted, |x0|);
    KeysFollowPositions(index, sorted, x0, w);
  }

  /** Whether a process has a left (right) neighbour. */
  predicate HasLeft(procID: int, nTasks: int)
  {
    nTasks > 1 && procID > 0
  }

  predicate HasRight(procID: int, nTasks: int)
  {
    nTasks > 1 && procID < nTasks - 1
  }

  /** What a process receives from one side: the buffers if it has a
      neighbour there, nothing otherwise. */
  function Received(has: bool, recv: seq<seq<real>>): (bs: seq<seq<real>>)
    ensures has ==> bs == recv
    ensures !has ==> bs == NoBuffers()
  {
    if has then recv else NoBuffers()
  }

  function ReceivedTypes(has: bool, recvType: seq<int>): (ts: seq<int>)
    ensures has ==> ts == recvType
    ensures !has ==> ts == []
  {
    if has then recvType else []
  }

  /** The insertions of shareOverlap: the left neighbour's particles in
      front, the right neighbour's at the end, each only if that neighbour
      exists. */
  method InsertNeighbours(field: Field, hasLeft: bool, hasRight: bool,
                          recvL: seq<seq<real>>, recvTypeL: seq<int>,
                          recvR: seq<seq<real>>, recvTypeR: seq<int>)
    requires field.Consistent() && BufferShaped(recvL, recvTypeL) && BufferShaped(recvR, recvTypeR)
    modifies field
    ensures Surrounded(field, Received(hasLeft, recvL), ReceivedTypes(hasLeft, recvTypeL),
                       Received(hasRight, recvR), ReceivedTypes(hasRight, recvTypeR))
    ensures field.Consistent()
    ensures field.Size() == |ReceivedTypes(hasLeft, recvTypeL)| + old(field.Size()) + |ReceivedTypes(hasRight, recvTypeR)|
    ensures Slice(ColumnsOf(field), |ReceivedTypes(hasLeft, recvTypeL)|,
                  |ReceivedTypes(hasLeft, recvTypeL)| + old(field.Size())) == old(ColumnsOf(field))
  {
    ghost var cs0, n := ColumnsOf(field), field.Size();
    var L, TL := Received(hasLeft, recvL), ReceivedTypes(hasLeft, recvTypeL);
    var R, TR := Received(hasRight, recvR), ReceivedTypes(hasRight, recvTypeR);
    InsertLeft(field, hasLeft, recvL, recvTypeL);
    InsertRight(field, hasRight, recvR, recvTypeR);
    SurroundTwice(L, TL, cs0, R, TR);
    SurroundWindow(L, TL, cs0, R, TR, n);
  }

  /** The left neighbour's particles go in front when it exists. */
  method InsertLeft(field: Field, hasLeft: bool, recvL: seq<seq<real>>, recvTypeL: seq<int>)
    requires field.Consistent() && BufferShaped(recvL, recvTypeL)
    modifies field
    ensures field.Consistent()
    ensures Surrounded(field, Received(hasLeft, recvL), ReceivedTypes(hasLeft, recvTypeL), NoBuffers(), [])
  {
    ghost var cs0 := ColumnsOf(field);
    if hasLeft {
      InsertParticles(field, recvL, recvTypeL, Begin);
      SplicedSurround(cs0, ColumnsOf(field), recvL, recvTypeL, Begin);
    } else {
      SurroundNothing(cs0);
    }
  }

  /** The right neighbour's particles go at the end when it exists. */
  method InsertRight(field: Field, hasRight: bool, recvR: seq<seq<real>>, recvTypeR: seq<int>)
    requires field.Consistent() && BufferShaped(recvR, recvTypeR)
    modifies field
    ensures field.Consistent()
    ensures Surrounded(field, NoBuffers(), [], Received(hasRight, recvR), ReceivedTypes(hasRight, recvTypeR))
  {
    ghost var cs0 := ColumnsOf(field);
    if hasRight {
      InsertParticles(field, recvR, recvTypeR, End);
      SplicedSurround(cs0, ColumnsOf(field), recvR, recvTypeR, End);
    } else {
      SurroundNothing(cs0);
    }
  }

  /** The part of shareOverlap after the neighbours' edges have arrived:
      the left neighbour's particles go in front, the right neighbour's at
      the end, and the owned range (startingParticle .. endingParticle) is
      then exactly the particles the process held before. A single process
      receives nothing and owns everything. */
  method ReceiveOverlap(field: Field, info: SubdomainInfo,
                        recvL: seq<seq<real>>, recvTypeL: seq<int>,
                        recvR: seq<seq<real>>, recvTypeR: seq<int>)
    requires field.Consistent() && BufferShaped(recvL, recvTypeL) && BufferShaped(recvR, recvTypeR)
    requires 1 <= info.nTasks && 0 <= info.procID < info.nTasks
    modifies field, info
    ensures field.Consistent()
    ensures Surrounded(field, Received(HasLeft(info.procID, info.nTasks), recvL),
                       ReceivedTypes(HasLeft(info.procID, info.nTasks), recvTypeL),
                       Received(HasRight(info.procID, info.nTasks), recvR),
                       ReceivedTypes(HasRight(info.procID, info.nTasks), recvTypeR))
    ensures info.startingParticle == |ReceivedTypes(HasLeft(info.procID, info.nTasks), recvTypeL)|
    ensures info.endingParticle == info.startingParticle + old(field.Size()) - 1
    ensures info.endingParticle < field.Size()
    ensures Slice(ColumnsOf(field), info.startingParticle, info.endingParticle + 1) == old(ColumnsOf(field))
    ensures info.procID == old(info.procID) && info.nTasks == old(info.nTasks)
    ensures info.boxSize == old(info.boxSize)
    ensures info.startingBox == old(info.startingBox) && info.endingBox == old(info.endingBox)
  {
    var procID, nTasks := info.procID, info.nTasks;
    var hasLeft, hasRight := HasLeft(procID, nTasks), HasRight(procID, nTasks);
    ghost var n, cs0 := field.Size(), ColumnsOf(field);
    ghost var nL := |ReceivedTypes(hasLeft, recvTypeL)|;
    InsertNeighbours(field, hasLeft, hasRight, recvL, recvTypeL, recvR, recvTypeR);
    info.startingParticle := if hasLeft then |recvTypeL| else 0;
    info.endingParticle := |field.pos[0]| - (if hasRight then |recvTypeR| else 0) - 1;
    assert info.startingParticle == nL && info.endingParticle + 1 == nL + n;
    assert Slice(ColumnsOf(field), nL, nL + n) == cs0;
  }

  // ---------------------------------------------------------------------
  // shareMigrate, local steps
  // ---------------------------------------------------------------------

  /** Every entry's category is the migrate category of its particle. */
  lemma MigrateKeysFollowPositions(entries: seq<Entry>, sorted: seq<Entry>, posX: seq<real>, b: Bounds)
    requires multiset(sorted) == multiset(entries)
    requires entries == MigrateEntries(posX, b.xMin, b.xMax)
    ensures forall i :: 0 <= i < |sorted| ==>
              sorted[i].particle < |posX| && sorted[i].key == MigrateCategory(posX[sorted[i].particle], b.xMin, b.xMax)
  {
    forall i | 0 <= i < |sorted|
      ensures sorted[i].particle < |posX| && sorted[i].key == MigrateCategory(posX[sorted[i].particle], b.xMin, b.xMax)
    {
      assert sorted[i] in multiset(entries);
      var j :| 0 <= j < |entries| && entries[j] == sorted[i];
    }
  }

  /** The part of shareMigrate before anything is sent (on more than one
      process): classify by the migrate bounds and sort. The particles that
      stay come first; the left migrants follow, from startMigrateToLeft;
      the right migrants are the last nMigrate[1], from
      startMigrateToRight. */
  method SelectMigrants(field: Field, info: SubdomainInfo)
    returns (sorted: seq<Entry>, nLeft: int, nRight: int, startLeft: int, startRight: int)
    requires field.Consistent()
    requires 1 < info.nTasks && 0 <= info.procID < info.nTasks
    modifies field
    ensures field.Consistent() && field.Size() == old(field.Size()) && field.ScalarsUnchanged()
    ensures |sorted| == field.Size() && CoversOnce(sorted, field.Size())
    ensures forall i :: 0 <= i < |sorted| ==> sorted[i].particle < field.Size()
    ensures forall c :: 0 <= c < 3 ==>
              field.pos[c] == Gather(old(field.pos[c]), sorted, field.Size())
              && field.speed[c] == Gather(old(field.speed[c]), sorted, field.Size())
    ensures field.density == Gather(old(field.density), sorted, field.Size())
    ensures field.pressure == Gather(old(field.pressure), sorted, field.Size())
    ensures field.mass == Gather(old(field.mass), sorted, field.Size())
    ensures field.partType == Gather(old(field.partType), sorted, field.Size())
    ensures 0 <= startLeft && startLeft + nLeft == startRight && startRight + nRight == field.Size()
    ensures 0 <= nLeft && 0 <= nRight
    ensures var b := MigrateBounds(field.l[0], field.u[0], info.boxSize, info.procID, info.nTasks);
            forall i :: 0 <= i < field.Size() ==>
              (i < startLeft <==> b.xMin < field.pos[0][i] <= b.xMax)
              && (startRight <= i <==> field.pos[0][i] > b.xMax)
  {
    var b := MigrateBounds(field.l[0], field.u[0], info.boxSize, info.procID, info.nTasks);
    ghost var x0 := field.pos[0];
    var index;
    index, nLeft, nRight := ComputeMigrateIndex(field.pos[0], [], b.xMin, b.xMax);
    assert index == MigrateEntries(x0, b.xMin, b.xMax);
    MigratePartition(x0, b.xMin, b.xMax);
    sorted := SortParticles(field, index);
    startRight := |field.pos[0]| - nRight;
    startLeft := |field.pos[0]| - nRight - nLeft;
    MigrantLayout(x0, b, index, sorted, nLeft, nRight);
  }

  /** After the sort by migrate category: the staying particles, then the
      left migrants, then the right migrants, each block read off its
      position. */
  lemma MigrantLayout(x0: seq<real>, b: Bounds, index: seq<Entry>, sorted: seq<Entry>, nLeft: int, nRight: int)
    requires index == MigrateEntries(x0, b.xMin, b.xMax)
    requires SortedByKey(sorted) && multiset(sorted) == multiset(index)
    requires nLeft == CountKey(index, LEFT_MIGRATE) && nRight == CountKey(index, RIGHT_MIGRATE)
    ensures |sorted| == |x0| && CoversOnce(sorted, |x0|)
    ensures forall i :: 0 <= i < |sorted| ==> sorted[i].particle < |x0|
    ensures 0 <= nLeft && 0 <= nRight && nLeft + nRight <= |x0|
    ensures forall i :: 0 <= i < |x0| ==>
              (i < |x0| - nRight - nLeft <==> b.xMin < Gather(x0, sorted, |x0|)[i] <= b.xMax)
              && (|x0| - nRight <= i <==> Gather(x0, sorted, |x0|)[i] > b.xMax)
  {
    MigratePartition(x0, b.xMin, b.xMax);
    SortedBlocks(index, sorted);
    SortKeepsCover(index, sorted, |x0|);
    MigrateKeysFollowPositions(index, sorted, x0, b);
  }

  /** The part of shareMigrate after the neighbours' migrants have
      arrived: every migrant, left and right, is dropped (on the first
      process this also drops the particles that left the global domain on
      the left), then what came from the left and what came from the right
      is appended, in that order. */
  method ReceiveMigrants(field: Field, info: SubdomainInfo, nLeft: int, nRight: int,
                         recvL: seq<seq<real>>, recvTypeL: seq<int>,
                         recvR: seq<seq<real>>, recvTypeR: seq<int>)
    requires field.Consistent() && BufferShaped(recvL, recvTypeL) && BufferShaped(recvR, recvTypeR)
    requires 1 < info.nTasks && 0 <= info.procID < info.nTasks
    requires 0 <= nLeft && 0 <= nRight && nLeft + nRight <= field.Size()
    modifies field
    ensures field.Consistent() && field.ScalarsUnchanged()
    ensures KeptThenAppended(field, old(field.Size()) - nLeft - nRight,
                             Received(HasLeft(info.procID, info.nTasks), recvL),
                             ReceivedTypes(HasLeft(info.procID, info.nTasks), recvTypeL),
                             Received(HasRight(info.procID, info.nTasks), recvR),
                             ReceivedTypes(HasRight(info.procID, info.nTasks), recvTypeR))
  {
    var procID, nTasks := info.procID, info.nTasks;
    var keep := |field.pos[0]| - nLeft - nRight;
    ghost var cs0 := ColumnsOf(field);
    ResizeField(field, nLeft + nRight);
    ResizedSlice(cs0, ColumnsOf(field), keep);
    ghost var cs1 := ColumnsOf(field);
    if procID == 0 {
      AppendParticles(field, recvR, recvTypeR);
      AppendNothing(cs1);
    } else if procID == nTasks - 1 {
      AppendParticles(field, recvL, recvTypeL);
      AppendNothing(ColumnsOf(field));
    } else {
      AppendParticles(field, recvL, recvTypeL);
      AppendParticles(field, recvR, recvTypeR);
    }
  }

  /** insertParticles at the end appends the buffers. */
  method AppendParticles(field: Field, recvBuffer: seq<seq<real>>, recvType: seq<int>)
    requires field.Consistent() && BufferShaped(recvBuffer, recvType)
    modifies field
    ensures field.Consistent() && field.ScalarsUnchanged() && field.Size() == old(field.Size()) + |recvType|
    ensures ColumnsOf(field) == Appended(old(ColumnsOf(field)), recvBuffer, recvType)
  {
    ghost var cs0 := ColumnsOf(field);
    InsertParticles(field, recvBuffer, recvType, End);
    SplicedSurround(cs0, ColumnsOf(field), recvBuffer, recvType, End);
    SurroundRight(cs0, recvBuffer, recvType);
  }
}
